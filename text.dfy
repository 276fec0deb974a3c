/** String helpers of script.js: JavaScript's `trim`, `split`, the
    newline splitting of the job form and `getEmailName`. */
module Text {
  import opened Seqs

  /** The characters `String.prototype.trim` removes: the ECMAScript
      WhiteSpace set (tab, vertical tab, form feed, no-break space, the
      byte-order mark and every Space_Separator) and the LineTerminator set
      (line feed, carriage return, line and paragraph separators). */
  predicate IsSpace(c: char) {
    || c == '\t' || c == '\n' || c == '\U{000B}' || c == '\U{000C}' || c == '\r'
    || c == ' ' || c == '\U{00A0}' || c == '\U{1680}'
    || ('\U{2000}' <= c <= '\U{200A}')
    || c == '\U{2028}' || c == '\U{2029}' || c == '\U{202F}' || c == '\U{205F}'
    || c == '\U{3000}' || c == '\U{FEFF}'
  }

  /** Nothing but white space: what `!s.trim()` tests. */
  predicate Blank(s: string) {
    forall i | 0 <= i < |s| :: IsSpace(s[i])
  }

  /** `s` without its leading white space. */
  function TrimStart(s: string): (r: string)
    ensures |r| <= |s| && r == s[|s| - |r|..]
    ensures r == [] || !IsSpace(r[0])
    ensures forall i | 0 <= i < |s| - |r| :: IsSpace(s[i])
  {
    if s != [] && IsSpace(s[0]) then TrimStart(s[1..]) else s
  }

  /** `s` without its trailing white space. */
  function TrimEnd(s: string): (r: string)
    ensures |r| <= |s| && r == s[..|r|]
    ensures r == [] || !IsSpace(r[|r| - 1])
    ensures forall i | |r| <= i < |s| :: IsSpace(s[i])
  {
    if s != [] && IsSpace(s[|s| - 1]) then TrimEnd(s[..|s| - 1]) else s
  }

  /** `String.prototype.trim`. */
  function Trim(s: string): (r: string)
  {
    TrimEnd(TrimStart(s))
  }

  /** Everything of `s` before `lo` and from `hi` on is white space. */
  predicate InsideSpace(s: string, lo: nat, hi: nat)
    requires lo <= hi <= |s|
  {
    && (forall i | 0 <= i < lo :: IsSpace(s[i]))
    && (forall i | hi <= i < |s| :: IsSpace(s[i]))
  }

  /** Trim keeps a contiguous piece of `s`, drops only white space around it,
      and the piece neither starts nor ends with white space. */
  lemma TrimIsCore(s: string)
    ensures exists lo, hi | 0 <= lo <= hi <= |s| :: Trim(s) == s[lo..hi] && InsideSpace(s, lo, hi)
    ensures Trim(s) == [] || (!IsSpace(Trim(s)[0]) && !IsSpace(Trim(s)[|Trim(s)| - 1]))
  {
    var t := TrimStart(s);
    var r := TrimEnd(t);
    var lo := |s| - |t|;
    var hi := lo + |r|;
    assert Trim(s) == s[lo..hi] by {
      assert t == s[lo..] && r == t[..|r|];
    }
    assert InsideSpace(s, lo, hi) by {
      forall i | hi <= i < |s| ensures IsSpace(s[i]) {
        assert s[i] == t[i - lo];
      }
    }
    assert Trim(s) == [] || (!IsSpace(Trim(s)[0]) && !IsSpace(Trim(s)[|Trim(s)| - 1])) by {
      if r != [] {
        assert !IsSpace(r[|r| - 1]);
        assert r[0] == t[0] && !IsSpace(t[0]);
      }
    }
  }

  /** The blank test the source writes as `!value.trim()`: trimming leaves
      nothing exactly when the string is all white space. */
  lemma TrimEmptyIffBlank(s: string)
    ensures Trim(s) == [] <==> Blank(s)
  {
    var t := TrimStart(s);
    if !Blank(s) {
      var i :| 0 <= i < |s| && !IsSpace(s[i]);
      assert i >= |s| - |t|;
      assert t != [] && !IsSpace(t[0]);
    }
  }

  /** Trimming twice is trimming once. */
  lemma TrimIdempotent(s: string)
    ensures Trim(Trim(s)) == Trim(s)
  {
    var r := Trim(s);
    TrimIsCore(s);
    if r != [] {
      assert TrimStart(r) == r;
      assert TrimEnd(r) == r;
    }
  }

  /** JavaScript's `String.prototype.join` for a one-character separator. */
  function Join(parts: seq<string>, sep: char): string
    requires |parts| >= 1
  {
    if |parts| == 1 then parts[0] else parts[0] + [sep] + Join(parts[1..], sep)
  }

  /** The first piece of a join is a prefix of it, followed by the separator
      when there is a second piece. */
  lemma {:induction false} JoinStartsWithFirst(parts: seq<string>, sep: char)
    requires |parts| >= 1
    ensures |parts[0]| <= |Join(parts, sep)|
    ensures Join(parts, sep)[..|parts[0]|] == parts[0]
    ensures |parts| > 1 ==> |parts[0]| < |Join(parts, sep)| && Join(parts, sep)[|parts[0]|] == sep
  {
  }

  /** Where the first separator of `s` is, or -1. */
  function SepIndex(s: string, sep: char): (k: int)
    ensures -1 <= k < |s|
    ensures k >= 0 ==> s[k] == sep && sep !in s[..k]
    ensures k == -1 <==> sep !in s
  {
    var k := FirstIndex(s, (c: char) => c == sep);
    assert k >= 0 ==> forall j | 0 <= j < k :: s[..k][j] == s[j];
    k
  }

  /** JavaScript's `String.prototype.split` with a one-character separator:
      the pieces between separators, at least one piece. */
  function Split(s: string, sep: char): (parts: seq<string>)
    ensures |parts| >= 1
    ensures forall i | 0 <= i < |parts| :: sep !in parts[i]
    ensures Join(parts, sep) == s
    decreases |s|
  {
    var k := SepIndex(s, sep);
    if k == -1 then [s]
    else
      var rest := Split(s[k + 1..], sep);
      assert s == s[..k] + [sep] + s[k + 1..];
      [s[..k]] + rest
  }

  /** Splitting a join gives back the pieces, as long as no piece holds the
      separator: split is the inverse of join. */
  lemma {:induction false} SplitJoin(parts: seq<string>, sep: char)
    requires |parts| >= 1
    requires forall i | 0 <= i < |parts| :: sep !in parts[i]
    ensures Split(Join(parts, sep), sep) == parts
  {
    var s := Join(parts, sep);
    var p0 := parts[0];
    JoinStartsWithFirst(parts, sep);
    if |parts| == 1 {
      assert SepIndex(s, sep) == -1;
    } else {
      var rest := parts[1..];
      assert s == p0 + [sep] + Join(rest, sep);
      assert SepIndex(s, sep) == |p0| by {
        assert s[..|p0|] == p0;
      }
      assert s[|p0| + 1..] == Join(rest, sep);
      SplitJoin(rest, sep);
    }
  }

  /** `value.split('\n').filter(Boolean)`: the non-empty lines of a text
      area, as the job form stores description, requirements and benefits. */
  function Lines(s: string): (lines: seq<string>)
    ensures forall i | 0 <= i < |lines| :: lines[i] != [] && '\n' !in lines[i]
    ensures IsSubsequence(lines, Split(s, '\n'))
    ensures forall x | x in Split(s, '\n') && x != [] :: x in lines
    ensures forall x :: multiset(lines)[x] == if x != [] then multiset(Split(s, '\n'))[x] else 0
  {
    var parts := Split(s, '\n');
    NonEmptyPieces(parts, '\n');
    Filter(parts, NonEmpty)
  }

  /** `Boolean` on a string: it is not empty. */
  predicate NonEmpty(l: string) {
    l != []
  }

  /** Keeping the non-empty pieces of a split keeps pieces without the
      separator, and keeps every non-empty one. */
  lemma NonEmptyPieces(parts: seq<string>, sep: char)
    requires forall i | 0 <= i < |parts| :: sep !in parts[i]
    ensures forall i | 0 <= i < |Filter(parts, NonEmpty)| :: Filter(parts, NonEmpty)[i] != [] && sep !in Filter(parts, NonEmpty)[i]
    ensures forall x | x in parts && x != [] :: x in Filter(parts, NonEmpty)
  {
    var lines := Filter(parts, NonEmpty);
    forall i | 0 <= i < |lines| ensures lines[i] != [] && sep !in lines[i] {
      assert lines[i] in lines;
      FilterMembership(parts, NonEmpty, lines[i]);
    }
    forall x | x in parts && x != [] ensures x in lines {
      FilterMembership(parts, NonEmpty, x);
    }
  }

  /** Lines that are non-empty and hold no line feed, written one per line,
      read back as the same lines. */
  lemma LinesOfJoin(lines: seq<string>)
    requires |lines| >= 1
    requires forall i | 0 <= i < |lines| :: lines[i] != [] && '\n' !in lines[i]
    ensures Lines(Join(lines, '\n')) == lines
  {
    SplitJoin(lines, '\n');
    FilterAllKept(lines, NonEmpty);
  }

  /** `email.split('@')[0]`: the part of an address before its first `@`.
      It is a prefix of the address holding no `@`, and it is the whole
      address or is followed by `@`. */
  function LocalPart(email: string): (r: string)
    ensures '@' !in r
    ensures |r| <= |email| && email[..|r|] == r
    ensures |r| == |email| || email[|r|] == '@'
  {
    var parts := Split(email, '@');
    JoinStartsWithFirst(parts, '@');
    parts[0]
  }

  /** ASCII upper-casing of one character. */
  function UpperAscii(c: char): char {
    if 'a' <= c <= 'z' then (c as int - 32) as char else c
  }

  /** `getEmailName`: the local part of the address with its first letter
      capitalised; the empty string for no address, and the address itself
      when it starts with `@`. */
  function EmailName(email: string): (r: string)
    ensures r == [] <==> email == []
    ensures email != [] && email[0] == '@' ==> r == email
    ensures email != [] && '@' !in email ==> r == [UpperAscii(email[0])] + email[1..]
  {
    if email == [] then []
    else
      var local := LocalPart(email);
      assert email[0] == '@' ==> local == [] by {
        if local != [] {
          assert email[0] == local[0];
        }
      }
      assert '@' !in email ==> local == email;
      if local == [] then email else [UpperAscii(local[0])] + local[1..]
  }

  /** For `name@domain` with a non-empty name, getEmailName drops the domain
      and capitalises the name, whatever the domain holds. */
  lemma EmailNameOfAddress(name: string, domain: string)
    requires name != [] && '@' !in name
    ensures EmailName(name + "@" + domain) == [UpperAscii(name[0])] + name[1..]
  {
    var email := name + "@" + domain;
    var local := LocalPart(email);
    assert forall j | 0 <= j < |name| :: email[j] == name[j] && name[j] != '@';
    assert email[|name|] == '@';
    assert local == email[..|name|] == name;
  }
}
