/** The suggested categories of the home page (`renderSuggestedCategories`
    in script.js): count the jobs of each trimmed, non-empty category in a
    Map, rank the categories by count, keep the first six. */
module Suggest {
  import opened Seqs
  import opened Text

  /** One Map entry: a category and how many jobs carry it. */
  type Entry = (string, nat)

  /** `(j.category || '').trim()` for every job, in job order (a job
      without a category contributes the empty string). */
  function Categories(raw: seq<string>): (cats: seq<string>)
    ensures |cats| == |raw|
    ensures forall i | 0 <= i < |raw| :: cats[i] == Trim(raw[i])
  {
    seq(|raw|, i requires 0 <= i < |raw| => Trim(raw[i]))
  }

  /** The distinct non-blank categories, in the order they first appear:
      the reference for the keys of the Map. */
  function Uniq(cats: seq<string>): seq<string>
  {
    if cats == [] then []
    else
      var u := Uniq(cats[..|cats| - 1]);
      var c := cats[|cats| - 1];
      if c == [] || c in u then u else u + [c]
  }

  /** A category is listed exactly when some job has it and it is not
      blank. */
  lemma {:induction false} UniqMembers(cats: seq<string>, c: string)
    ensures c in Uniq(cats) <==> c in cats && c != []
    decreases |cats|
  {
    if cats != [] {
      var init := cats[..|cats| - 1];
      UniqMembers(init, c);
      assert cats == init + [cats[|cats| - 1]];
    }
  }

  /** No category is listed twice. */
  lemma {:induction false} UniqDistinct(cats: seq<string>)
    ensures forall k, l | 0 <= k < l < |Uniq(cats)| :: Uniq(cats)[k] != Uniq(cats)[l]
    decreases |cats|
  {
    if cats != [] {
      UniqDistinct(cats[..|cats| - 1]);
    }
  }

  /** The keys of the Map, in insertion order. */
  function Keys(entries: seq<Entry>): (keys: seq<string>)
    ensures |keys| == |entries|
    ensures forall k | 0 <= k < |entries| :: keys[k] == entries[k].0
  {
    seq(|entries|, k requires 0 <= k < |entries| => entries[k].0)
  }

  /** `map.get(cat)`: where `cat` is in the Map, or -1. */
  function KeyIndex(entries: seq<Entry>, cat: string): (k: int)
    ensures -1 <= k < |entries|
    ensures k >= 0 ==> entries[k].0 == cat
    ensures k < 0 ==> cat !in Keys(entries)
  {
    FirstIndex(entries, (e: Entry) => e.0 == cat)
  }

  /** `map.set(cat, (map.get(cat) || 0) + 1)`: a key already present keeps
      its place and counts one more; a new key goes last with count 1. */
  function Bump(entries: seq<Entry>, cat: string): seq<Entry>
  {
    var k := KeyIndex(entries, cat);
    if k >= 0 then entries[k := (cat, entries[k].1 + 1)] else entries + [(cat, 1)]
  }

  /** What the counting loop knows after the first `i` jobs: the keys are
      the distinct non-blank categories of those jobs in order of first
      appearance, and each count is the number of those jobs with the key. */
  predicate Tallied(cats: seq<string>, i: nat, entries: seq<Entry>)
    requires i <= |cats|
  {
    && Keys(entries) == Uniq(cats[..i])
    && (forall k | 0 <= k < |entries| :: entries[k].1 == multiset(cats[..i])[entries[k].0])
  }

  /** Adding one job to the prefix adds its category to the multiset and
      extends the reference list by it, unless it is blank or seen. */
  lemma PrefixStep(cats: seq<string>, i: nat)
    requires i < |cats|
    ensures multiset(cats[..i + 1]) == multiset(cats[..i]) + multiset{cats[i]}
    ensures Uniq(cats[..i + 1]) == if cats[i] == [] || cats[i] in Uniq(cats[..i]) then Uniq(cats[..i]) else Uniq(cats[..i]) + [cats[i]]
  {
    var pre := cats[..i + 1];
    assert pre[..i] == cats[..i];
    assert pre == cats[..i] + [cats[i]];
  }

  /** Every key counted so far is not blank. */
  lemma KeysNotBlank(cats: seq<string>, i: nat, entries: seq<Entry>)
    requires i <= |cats| && Tallied(cats, i, entries)
    ensures forall k | 0 <= k < |entries| :: entries[k].0 != []
  {
    forall k | 0 <= k < |entries| ensures entries[k].0 != [] {
      assert entries[k].0 == Keys(entries)[k];
      UniqMembers(cats[..i], entries[k].0);
    }
  }

  /** A job whose category is already a key adds one to that key's count
      and to no other. */
  lemma KnownStep(cats: seq<string>, i: nat, entries: seq<Entry>)
    requires i < |cats| && Tallied(cats, i, entries)
    requires cats[i] != [] && KeyIndex(entries, cats[i]) >= 0
    ensures Tallied(cats, i + 1, Bump(entries, cats[i]))
  {
    var cat := cats[i];
    var k := KeyIndex(entries, cat);
    PrefixStep(cats, i);
    assert cat in Keys(entries);
    assert Keys(Bump(entries, cat)) == Keys(entries);
    UniqDistinct(cats[..i]);
    assert forall m | 0 <= m < |entries| && m != k :: entries[m].0 != cat by {
      assert forall m | 0 <= m < |entries| :: Keys(entries)[m] == entries[m].0;
    }
  }

  /** A job whose category is new appends it with count 1: it is the first
      job of that category. */
  lemma FreshStep(cats: seq<string>, i: nat, entries: seq<Entry>)
    requires i < |cats| && Tallied(cats, i, entries)
    requires cats[i] != [] && KeyIndex(entries, cats[i]) < 0
    ensures Tallied(cats, i + 1, Bump(entries, cats[i]))
  {
    var cat := cats[i];
    PrefixStep(cats, i);
    assert Keys(Bump(entries, cat)) == Keys(entries) + [cat];
    assert cat !in cats[..i] by {
      UniqMembers(cats[..i], cat);
    }
  }

  /** One pass of the counting loop keeps what it knows, for one more job. */
  lemma TallyStep(cats: seq<string>, i: nat, entries: seq<Entry>)
    requires i < |cats| && Tallied(cats, i, entries)
    ensures Tallied(cats, i + 1, if cats[i] == [] then entries else Bump(entries, cats[i]))
  {
    if cats[i] == [] {
      PrefixStep(cats, i);
      KeysNotBlank(cats, i, entries);
    } else if KeyIndex(entries, cats[i]) >= 0 {
      KnownStep(cats, i, entries);
    } else {
      FreshStep(cats, i, entries);
    }
  }

  /** The counting loop over the jobs: each non-blank trimmed category is
      counted in the Map. The Map's keys are the distinct non-blank
      categories in the order they first appear, and each count is the
      number of jobs carrying that category. */
  method CountCategories(raw: seq<string>) returns (entries: seq<Entry>)
    ensures Keys(entries) == Uniq(Categories(raw))
    ensures forall k | 0 <= k < |entries| :: entries[k].1 == multiset(Categories(raw))[entries[k].0]
  {
    ghost var cats := Categories(raw);
    entries := [];
    var i := 0;
    while i < |raw|
      invariant 0 <= i <= |raw|
      invariant Tallied(cats, i, entries)
    {
      var cat := Trim(raw[i]);
      TallyStep(cats, i, entries);
      if cat != [] {
        entries := Bump(entries, cat);
      }
      i := i + 1;
    }
    assert cats[..|raw|] == cats;
  }

  /** What the counted Map means in terms of the jobs alone: its keys are
      distinct, a category is a key exactly when some job has it trimmed
      and non-blank, and every count is positive. */
  lemma CountedKeys(raw: seq<string>, entries: seq<Entry>, c: string)
    requires Keys(entries) == Uniq(Categories(raw))
    requires forall k | 0 <= k < |entries| :: entries[k].1 == multiset(Categories(raw))[entries[k].0]
    ensures forall k, l | 0 <= k < l < |entries| :: entries[k].0 != entries[l].0
    ensures c in Keys(entries) <==> (exists i | 0 <= i < |raw| :: Trim(raw[i]) == c) && c != []
    ensures forall k | 0 <= k < |entries| :: entries[k].1 > 0
  {
    var cats := Categories(raw);
    UniqDistinct(cats);
    UniqMembers(cats, c);
    assert c in cats <==> exists i | 0 <= i < |raw| :: Trim(raw[i]) == c by {
      if c in cats {
        var i :| 0 <= i < |cats| && cats[i] == c;
        assert Trim(raw[i]) == c;
      }
    }
    forall k | 0 <= k < |entries| ensures entries[k].1 > 0 {
      assert entries[k].0 == Keys(entries)[k];
      assert entries[k].0 in Uniq(cats);
      UniqMembers(cats, entries[k].0);
    }
  }

  /** Every count is at least the next one: sorted by `b[1] - a[1]`. */
  predicate SortedByCount(s: seq<Entry>) {
    forall i, j | 0 <= i < j < |s| :: s[i].1 >= s[j].1
  }

  /** Places `e` in front of the first entry whose count is not larger, so
      that among equal counts the earlier entry stays first. */
  function Insert(e: Entry, sorted: seq<Entry>): (r: seq<Entry>)
    ensures multiset(r) == multiset(sorted) + multiset{e}
    ensures r != [] && (r[0] == e || (sorted != [] && r[0] == sorted[0]))
  {
    if sorted == [] || sorted[0].1 <= e.1 then [e] + sorted
    else
      assert sorted == [sorted[0]] + sorted[1..];
      [sorted[0]] + Insert(e, sorted[1..])
  }

  /** Inserting into a ranked list leaves it ranked. */
  lemma {:induction false} InsertSorted(e: Entry, sorted: seq<Entry>)
    requires SortedByCount(sorted)
    ensures SortedByCount(Insert(e, sorted))
  {
    if sorted != [] && sorted[0].1 > e.1 {
      var rest := Insert(e, sorted[1..]);
      InsertSorted(e, sorted[1..]);
      assert sorted[0].1 >= rest[0].1;
      assert Insert(e, sorted) == [sorted[0]] + rest;
    }
  }

  /** `Array.from(map.entries()).sort((a, b) => b[1] - a[1])`: the same
      entries, most frequent first. */
  function Ranked(entries: seq<Entry>): (r: seq<Entry>)
    ensures multiset(r) == multiset(entries)
    ensures SortedByCount(r)
  {
    if entries == [] then []
    else
      assert entries == [entries[0]] + entries[1..];
      InsertSorted(entries[0], Ranked(entries[1..]));
      Insert(entries[0], Ranked(entries[1..]))
  }

  /** `.slice(0, 6).map(([c]) => c)`: the names of the six most frequent
      categories, or of all of them when there are fewer. */
  function TopCategories(entries: seq<Entry>): (names: seq<string>)
    ensures |names| == if |entries| < 6 then |entries| else 6
    ensures forall i | 0 <= i < |names| :: names[i] == Ranked(entries)[i].0
  {
    var r := Ranked(entries);
    assert |r| == |multiset(r)| == |multiset(entries)| == |entries|;
    var n := if |r| < 6 then |r| else 6;
    seq(n, i requires 0 <= i < n => r[i].0)
  }

  /** Every category shown outranks every category left out: the count
      ranked with each shown name is at least the count of any entry whose
      name is not shown. */
  lemma TopAreMostFrequent(entries: seq<Entry>, other: Entry)
    requires other in entries && other.0 !in TopCategories(entries)
    ensures forall i | 0 <= i < |TopCategories(entries)| :: Ranked(entries)[i].1 >= other.1
  {
    var r := Ranked(entries);
    var names := TopCategories(entries);
    assert other in multiset(r);
    var j :| 0 <= j < |r| && r[j] == other;
    assert j >= |names|;
  }
}
