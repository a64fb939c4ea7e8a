/** Cutting entry lists into requests of at most `MaxEntriesPerRequest`
    entries: the create path's chunks (`createPrefixList`) and the update
    path's paired add/remove windows (`updatePrefixList`). */
module Batching {
  import opened Common

  /** `numRequests`, the rounded-up quotient: enough requests to carry `n`
      entries, and not one more. */
  function NumRequests(n: nat): (r: nat)
    ensures r * MaxEntriesPerRequest >= n
    ensures r == 0 || (r - 1) * MaxEntriesPerRequest < n
    ensures r == 0 <==> n == 0
  {
    (n + MaxEntriesPerRequest - 1) / MaxEntriesPerRequest
  }

  /** Chunk `i` of the create path: from `i * 100` to the next multiple of
      100, the end clamped to the number of entries. */
  function CreateChunk<T>(ips: seq<T>, i: nat): (c: seq<T>)
    requires i < NumRequests(|ips|)
    ensures 0 < |c| <= MaxEntriesPerRequest
    ensures i + 1 < NumRequests(|ips|) ==> |c| == MaxEntriesPerRequest
  {
    ips[i * MaxEntriesPerRequest .. Min((i + 1) * MaxEntriesPerRequest, |ips|)]
  }

  /** All chunks of the create path, in request order. */
  function CreateChunks<T>(ips: seq<T>): (cs: seq<seq<T>>)
    ensures |cs| == NumRequests(|ips|)
    ensures forall i | 0 <= i < |cs| :: 0 < |cs[i]| <= MaxEntriesPerRequest
  {
    seq(NumRequests(|ips|), i requires 0 <= i < NumRequests(|ips|) => CreateChunk(ips, i))
  }

  lemma {:induction false} ChunksPrefix<T>(ips: seq<T>, m: nat)
    requires m <= NumRequests(|ips|)
    ensures Flatten(CreateChunks(ips)[..m]) == ips[..Min(m * MaxEntriesPerRequest, |ips|)]
  {
    var cs := CreateChunks(ips);
    if m > 0 {
      ChunksPrefix(ips, m - 1);
      assert cs[..m][..m - 1] == cs[..m - 1];
      var lo := (m - 1) * MaxEntriesPerRequest;
      assert Min(lo, |ips|) == lo;
      assert ips[..Min(m * MaxEntriesPerRequest, |ips|)] == ips[..lo] + cs[m - 1];
    }
  }

  /** The chunks put back together give the input exactly, order included. */
  lemma ChunksReassemble<T>(ips: seq<T>)
    ensures Flatten(CreateChunks(ips)) == ips
  {
    var cs := CreateChunks(ips);
    ChunksPrefix(ips, |cs|);
    assert cs[..|cs|] == cs;
  }

  /** 250 entries make three requests of 100, 100 and 50 entries. */
  lemma TwoHundredFiftyEntries<T>(ips: seq<T>)
    requires |ips| == 250
    ensures |CreateChunks(ips)| == 3
    ensures CreateChunks(ips)[0] == ips[..100]
    ensures CreateChunks(ips)[1] == ips[100..200]
    ensures CreateChunks(ips)[2] == ips[200..]
    ensures |CreateChunks(ips)[2]| == 50
  {
  }

  /** How `s[lo:hi]` is read. `GoSlice` is the language's rule, which panics
      when `lo > hi`; `Clamped` starts the window at `min(lo, hi)` instead. */
  datatype SliceMode = GoSlice | Clamped

  /** One side of an update request: `s[lo:end]` where `end` is `lo + 100`
      clamped to the length of `s` (lines 220-227 and 235-236). */
  function Window<T>(s: seq<T>, lo: nat, mode: SliceMode): (r: Result<seq<T>>)
    ensures r.Err? <==> mode == GoSlice && lo > |s|
    ensures r.Err? ==> r.failure == SliceOutOfRange
    ensures r.Ok? ==> |r.value| <= MaxEntriesPerRequest
    ensures r.Ok? && lo <= |s| ==> r.value == s[lo .. Min(lo + MaxEntriesPerRequest, |s|)]
    ensures r.Ok? && lo > |s| ==> r.value == []
  {
    var hi := Min(lo + MaxEntriesPerRequest, |s|);
    if lo <= hi then Ok(s[lo..hi])
    else if mode == GoSlice then Err(SliceOutOfRange)
    else Ok(s[hi..hi])
  }

  /** Number of update requests for `na` adds and `nr` removes: the loop
      runs while `i < na || i < nr`, stepping `i` by 100. */
  function NumWindows(na: nat, nr: nat): nat
  {
    NumRequests(Max(na, nr))
  }

  /** Closed form of the condition under which every Go slice of the update
      loop is well formed: the last window start does not pass the shorter
      side. */
  predicate SlicesInRange(na: nat, nr: nat)
  {
    NumWindows(na, nr) == 0 || (NumWindows(na, nr) - 1) * MaxEntriesPerRequest <= Min(na, nr)
  }

  /** The closed form says exactly that every window start the loop visits
      lies within both sequences. */
  lemma SlicesInRangeMeans(na: nat, nr: nat)
    ensures SlicesInRange(na, nr) <==>
      forall m | 0 <= m < NumWindows(na, nr) :: m * MaxEntriesPerRequest <= na && m * MaxEntriesPerRequest <= nr
  {
    var n := NumWindows(na, nr);
    if SlicesInRange(na, nr) {
      forall m | 0 <= m < n
        ensures m * MaxEntriesPerRequest <= na && m * MaxEntriesPerRequest <= nr
      {
        assert m * MaxEntriesPerRequest <= (n - 1) * MaxEntriesPerRequest;
      }
    }
  }

  /** The loop condition at window `c` holds exactly while `c` is below
      the number of windows. */
  lemma LoopRunsIff(na: nat, nr: nat, c: nat)
    ensures (c * MaxEntriesPerRequest < na || c * MaxEntriesPerRequest < nr) <==> c < NumWindows(na, nr)
  {
    var n := NumWindows(na, nr);
    if c < n {
      assert c * MaxEntriesPerRequest <= (n - 1) * MaxEntriesPerRequest;
    } else {
      assert c * MaxEntriesPerRequest >= n * MaxEntriesPerRequest;
    }
  }

  /** `SlicesInRange` for the windows from `c` on. */
  predicate SlicesInRangeFrom(na: nat, nr: nat, c: nat)
  {
    c >= NumWindows(na, nr) || (NumWindows(na, nr) - 1) * MaxEntriesPerRequest <= Min(na, nr)
  }

  /** The windows from `c` on are all in range exactly when window `c` is
      and the ones after it are. */
  lemma SlicesInRangeStep(na: nat, nr: nat, c: nat)
    requires c < NumWindows(na, nr)
    ensures SlicesInRangeFrom(na, nr, c) <==>
              c * MaxEntriesPerRequest <= Min(na, nr) && SlicesInRangeFrom(na, nr, c + 1)
  {
    var n := NumWindows(na, nr);
    assert c * MaxEntriesPerRequest <= (n - 1) * MaxEntriesPerRequest;
  }

  /** What is left of `s` from position `lo`, empty once `lo` is past the
      end. */
  function Rest<T>(s: seq<T>, lo: nat): (r: seq<T>)
    ensures |r| == |s| - Min(lo, |s|)
    ensures lo == 0 ==> r == s
  {
    s[Min(lo, |s|)..]
  }

  /** A window that was cut is the head of what is left, and the next
      window starts after it. */
  lemma WindowRest<T>(s: seq<T>, lo: nat, mode: SliceMode)
    requires Window(s, lo, mode).Ok?
    ensures Rest(s, lo) == Window(s, lo, mode).value + Rest(s, lo + MaxEntriesPerRequest)
  {
    if lo > |s| {
      assert Rest(s, lo) == [];
    }
  }

  /** The entries left from `lo` are those of the window at `lo` and those
      left after it. */
  lemma RestElems<T>(s: seq<T>, lo: nat)
    ensures Elems(Rest(s, lo)) == Elems(Window(s, lo, Clamped).value) + Elems(Rest(s, lo + MaxEntriesPerRequest))
  {
    WindowRest(s, lo, Clamped);
    ElemsAppend(Window(s, lo, Clamped).value, Rest(s, lo + MaxEntriesPerRequest));
  }

  /** Sides that share nothing from `lo` on share nothing from the next
      window on. */
  lemma RestDisjointStep<T>(a: seq<T>, b: seq<T>, lo: nat)
    requires Elems(Rest(a, lo)) !! Elems(Rest(b, lo))
    ensures Elems(Rest(a, lo + MaxEntriesPerRequest)) !! Elems(Rest(b, lo + MaxEntriesPerRequest))
  {
    RestElems(a, lo);
    RestElems(b, lo);
  }

  /** Applying one window of removes and adds to `e`, and then everything
      after it, applies everything from `lo` on, provided the two sides
      share nothing from `lo` on. */
  lemma RestApplied<T>(e: set<T>, mid: set<T>, final: set<T>, add: seq<T>, remove: seq<T>, lo: nat)
    requires Elems(Rest(add, lo)) !! Elems(Rest(remove, lo))
    requires mid == (e - Elems(Window(remove, lo, Clamped).value)) + Elems(Window(add, lo, Clamped).value)
    requires final == (mid - Elems(Rest(remove, lo + MaxEntriesPerRequest))) + Elems(Rest(add, lo + MaxEntriesPerRequest))
    ensures final == (e - Elems(Rest(remove, lo))) + Elems(Rest(add, lo))
  {
    RestElems(add, lo);
    RestElems(remove, lo);
    RemoveAddTwice(e, Elems(Window(remove, lo, Clamped).value), Elems(Window(add, lo, Clamped).value),
                   Elems(Rest(remove, lo + MaxEntriesPerRequest)), Elems(Rest(add, lo + MaxEntriesPerRequest)));
  }

  /** Once `lo` is past both ends nothing is left of either side. */
  lemma RestExhausted<T>(s: seq<T>, lo: nat)
    requires lo >= |s|
    ensures Elems(Rest(s, lo)) == {}
  {
    assert Rest(s, lo) == [];
  }

  /** 50 adds with 150 removes: the second window starts at 100, past the
      end of the adds. 100 adds with 150 removes is fine: the add window is
      then empty but well formed. */
  lemma UnevenSidesExample()
    ensures !SlicesInRange(50, 150)
    ensures Window(seq(50, i => i), 100, GoSlice) == Err(SliceOutOfRange)
    ensures SlicesInRange(100, 150)
    ensures SlicesInRange(0, 0)
  {
  }

  /** Under Go slicing a single window is always in range, but a one-sided
      diff longer than one window is not: from the second window on, the
      empty side is sliced from a start past its end. */
  lemma InRangeCases(na: nat, nr: nat)
    ensures na <= MaxEntriesPerRequest && nr <= MaxEntriesPerRequest ==> SlicesInRange(na, nr)
    ensures Min(na, nr) == 0 && Max(na, nr) > MaxEntriesPerRequest ==> !SlicesInRange(na, nr)
  {
  }
}
