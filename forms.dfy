/** `validateRequired` of script.js: every required form field must hold
    something other than white space. */
module Forms {
  import opened Text

  /** Walks the field values once, marks each blank field invalid and clears
      the mark on the others (the `is-invalid` class), and answers whether
      every field was filled. */
  method ValidateRequired(values: seq<string>) returns (ok: bool, invalid: seq<bool>)
    ensures |invalid| == |values|
    ensures forall i | 0 <= i < |values| :: invalid[i] <==> Blank(values[i])
    ensures ok <==> forall i | 0 <= i < |values| :: !Blank(values[i])
  {
    ok := true;
    invalid := [];
    var i := 0;
    while i < |values|
      invariant 0 <= i <= |values|
      invariant |invalid| == i
      invariant forall j | 0 <= j < i :: invalid[j] <==> Blank(values[j])
      invariant ok <==> forall j | 0 <= j < i :: !Blank(values[j])
    {
      var value := Trim(values[i]);
      TrimEmptyIffBlank(values[i]);
      if value == [] {
        invalid := invalid + [true];
        ok := false;
      } else {
        invalid := invalid + [false];
      }
      i := i + 1;
    }
  }
}
