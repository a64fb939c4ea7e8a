/** The diff between the desired entries and the entries the remote list
    holds (`updatePrefixList`, lines 188-216). */
module DiffEngine {
  import opened Common

  /** Lines 203-210 as written: walk the desired entries, queue for adding
      each one the current map does not hold, and delete each one from the
      map. Gives the adds and what is left of the map. */
  function ScanDesired(ips: seq<string>, current: set<string>): (seq<string>, set<string>)
  {
    if |ips| == 0 then ([], current)
    else
      var (add, left) := ScanDesired(ips[1..], current - {ips[0]});
      (if ips[0] in current then add else [ips[0]] + add, left)
  }

  datatype Diff = Diff(add: seq<string>, remove: seq<string>)

  /** Lines 188-216. `current` is the set of entries the remote listed
      (lines 196-198). `remove` walks what is left of the map (lines
      212-216), in an order Go leaves unspecified. */
  ghost function ComputeDiff(ips: seq<string>, current: set<string>): Diff
  {
    var (add, left) := ScanDesired(ips, current);
    Diff(add, Enumerate(left))
  }

  /** On duplicate-free input the scan is a plain filter: the adds are the
      desired entries missing from the map, in desired order, and the map
      loses exactly the desired entries. */
  lemma {:induction false} ScanDistinct(ips: seq<string>, current: set<string>)
    requires NoDups(ips)
    ensures ScanDesired(ips, current) == (Without(ips, current), current - Elems(ips))
  {
    if |ips| > 0 {
      assert NoDups(ips[1..]);
      ScanDistinct(ips[1..], current - {ips[0]});
      ElemsCons(ips);
      assert ips[0] !in ips[1..];
      WithoutAgree(ips[1..], current - {ips[0]}, current);
      var (add, left) := ScanDesired(ips[1..], current - {ips[0]});
      assert add == Without(ips[1..], current);
      assert left == current - Elems(ips);
      assert Without(ips, current) ==
        (if ips[0] in current then Without(ips[1..], current) else [ips[0]] + Without(ips[1..], current));
    } else {
      assert Elems(ips) == {};
      assert current - Elems(ips) == current;
    }
  }

  /** Filtering by two sets that agree on the sequence gives the same result. */
  lemma {:induction false} WithoutAgree(s: seq<string>, a: set<string>, b: set<string>)
    requires forall i | 0 <= i < |s| :: (s[i] in a <==> s[i] in b)
    ensures Without(s, a) == Without(s, b)
  {
    if |s| > 0 {
      WithoutAgree(s[1..], a, b);
    }
  }

  lemma NonEmptyElems(s: seq<string>)
    requires |s| > 0
    ensures s[0] in Elems(s)
  {
  }

  /** The diff engine's contract for a duplicate-free desired list: the
      adds are the desired entries the remote lacks, in desired order; the
      removes are the remote entries not desired, each once; the two sides
      never touch the wrong set; and applying them to the remote's set gives
      the desired set. */
  lemma DiffCorrect(ips: seq<string>, current: set<string>)
    requires NoDups(ips)
    ensures var d := ComputeDiff(ips, current);
            && d.add == Without(ips, current)
            && NoDups(d.add)
            && Elems(d.add) == Elems(ips) - current
            && NoDups(d.remove)
            && Elems(d.remove) == current - Elems(ips)
            && Elems(d.add) !! current
            && Elems(d.remove) !! Elems(ips)
            && (current - Elems(d.remove)) + Elems(d.add) == Elems(ips)
  {
    ScanDistinct(ips, current);
    WithoutFacts(ips, current);
  }

  /** On a duplicate-free desired list the two sides of the diff are as
      long as the set differences they enumerate. */
  lemma DiffSizes(ips: seq<string>, current: set<string>)
    requires NoDups(ips)
    ensures |ComputeDiff(ips, current).add| == |Elems(ips) - current|
    ensures |ComputeDiff(ips, current).remove| == |current - Elems(ips)|
  {
    DiffCorrect(ips, current);
    NoDupsCard(ComputeDiff(ips, current).add);
    NoDupsCard(ComputeDiff(ips, current).remove);
  }

  /** When the remote's set differs from the desired set, the diff has
      something to send. */
  lemma DiffNonEmpty(ips: seq<string>, current: set<string>)
    requires NoDups(ips) && Elems(ips) != current
    ensures |ComputeDiff(ips, current).add| > 0 || |ComputeDiff(ips, current).remove| > 0
  {
    DiffCorrect(ips, current);
    var d := ComputeDiff(ips, current);
    var x :| x in (Elems(ips) - current) + (current - Elems(ips));
    if x in Elems(ips) {
      assert x in Elems(d.add);
    } else {
      assert x in Elems(d.remove);
    }
  }

  /** When the remote already holds exactly the desired set, there is
      nothing to add and nothing to remove. */
  lemma InSyncDiffIsEmpty(ips: seq<string>, current: set<string>)
    requires NoDups(ips)
    requires Elems(ips) == current
    ensures ComputeDiff(ips, current) == Diff([], [])
  {
    DiffCorrect(ips, current);
    var d := ComputeDiff(ips, current);
    if |d.add| > 0 {
      NonEmptyElems(d.add);
    }
    if |d.remove| > 0 {
      NonEmptyElems(d.remove);
    }
  }

  /** Why the desired list must be duplicate-free: a repeated entry that the
      remote already holds is deleted from the map on its first visit and
      then queued for adding on its second. */
  lemma RepeatedEntryIsReAdded()
    ensures ComputeDiff(["a", "a"], {"a"}).add == ["a"]
  {
    var one: seq<string> := ["a"];
    assert ["a", "a"][1..] == one && one[1..] == [];
    var none: set<string> := {};
    assert none - {"a"} == none;
    assert ScanDesired([], none) == ([], none);
    assert ScanDesired(one[1..], none - {"a"}) == ([], none);
    assert ["a"] + [] == one;
    assert ScanDesired(one, none) == (one, none);
    assert Elems(one) == {"a"} && {"a"} - {"a"} == none;
    assert ScanDesired(["a", "a"], {"a"}).0 == one;
  }
}
