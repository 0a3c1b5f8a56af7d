/** Python's `<` on strings (lexicographic by code point, a proper prefix first)
    and sorting a set of distinct strings by it, as `sorted` does for the
    scenario ids of a directory. */
module Ordering {

  predicate Less(a: string, b: string)
    decreases |a|
  {
    if |a| == 0 then |b| > 0
    else |b| > 0 && (a[0] < b[0] || (a[0] == b[0] && Less(a[1..], b[1..])))
  }

  lemma {:induction false} LessIrreflexive(a: string)
    ensures !Less(a, a)
    decreases |a|
  {
    if |a| > 0 {
      LessIrreflexive(a[1..]);
    }
  }

  lemma {:induction false} LessTransitive(a: string, b: string, c: string)
    requires Less(a, b) && Less(b, c)
    ensures Less(a, c)
    decreases |a|
  {
    if |a| > 0 && a[0] == b[0] && b[0] == c[0] {
      LessTransitive(a[1..], b[1..], c[1..]);
    }
  }

  lemma {:induction false} LessTotal(a: string, b: string)
    requires a != b
    ensures Less(a, b) || Less(b, a)
    decreases |a|
  {
    if |a| > 0 && |b| > 0 && a[0] == b[0] {
      assert a == [a[0]] + a[1..] && b == [b[0]] + b[1..];
      LessTotal(a[1..], b[1..]);
    }
  }

  predicate StrictlySorted(ks: seq<string>) {
    forall i, j :: 0 <= i < j < |ks| ==> Less(ks[i], ks[j])
  }

  /** A strictly sorted sequence holds no string twice: two ids never compare
      equal, so sorting (id, scenario) pairs never falls back to comparing the
      scenarios. */
  lemma StrictlySortedDistinct(ks: seq<string>)
    requires StrictlySorted(ks)
    ensures forall i, j :: 0 <= i < |ks| && 0 <= j < |ks| && i != j ==> ks[i] != ks[j]
  {
    forall i, j | 0 <= i < |ks| && 0 <= j < |ks| && i != j
      ensures ks[i] != ks[j]
    {
      LessIrreflexive(ks[i]);
    }
  }

  /** Inserts a new string at its place in a strictly sorted sequence. */
  function Insert(k: string, ks: seq<string>): (r: seq<string>)
    requires StrictlySorted(ks) && k !in ks
    ensures StrictlySorted(r) && |r| == |ks| + 1
    ensures forall x :: x in r <==> x == k || x in ks
    decreases |ks|
  {
    if |ks| == 0 then
      [k]
    else if Less(k, ks[0]) then
      BelowHead(k, ks);
      [k] + ks
    else
      LessTotal(k, ks[0]);
      var rest := Insert(k, ks[1..]);
      HeadBelow(ks, rest, k);
      [ks[0]] + rest
  }

  lemma BelowHead(k: string, ks: seq<string>)
    requires StrictlySorted(ks) && |ks| > 0 && Less(k, ks[0])
    ensures StrictlySorted([k] + ks)
  {
    forall j | 0 < j < |ks|
      ensures Less(k, ks[j])
    {
      LessTransitive(k, ks[0], ks[j]);
    }
  }

  lemma HeadBelow(ks: seq<string>, rest: seq<string>, k: string)
    requires StrictlySorted(ks) && |ks| > 0 && Less(ks[0], k)
    requires StrictlySorted(rest)
    requires forall x :: x in rest ==> x == k || x in ks[1..]
    ensures StrictlySorted([ks[0]] + rest)
  {
    forall j | 0 <= j < |rest|
      ensures Less(ks[0], rest[j])
    {
      var x := rest[j];
      assert x in rest;
      if x != k {
        var i :| 0 <= i < |ks[1..]| && ks[1..][i] == x;
        assert ks[i + 1] == x;
      }
    }
  }

  /** The strings of a set, each once, in strictly increasing order. */
  method SortedIds(keys: set<string>) returns (ks: seq<string>)
    ensures StrictlySorted(ks)
    ensures |ks| == |keys|
    ensures forall k :: k in ks <==> k in keys
  {
    ks := [];
    var rest := keys;
    while rest != {}
      invariant rest <= keys
      invariant StrictlySorted(ks)
      invariant forall k :: k in ks <==> k in keys && k !in rest
      invariant |ks| + |rest| == |keys|
      decreases |rest|
    {
      var k :| k in rest;
      ks := Insert(k, ks);
      rest := rest - {k};
    }
  }
}
