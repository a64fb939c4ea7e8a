/** Shared vocabulary: the failure kinds that stop the tool, a small Result
    type standing in for `log.Fatal*` and Go runtime panics, and the sequence
    helpers the other modules state their contracts with. */
module Common {

  datatype Option<+T> = None | Some(value: T)

  /** Every way a run of the tool ends early. In the source each is either a
      `log.Fatal*` call (the process exits) or a Go runtime panic. */
  datatype Failure =
    | MissingFlags              // -name or -file left empty
    | ReadFailed                // the input file could not be opened or scanned
    | UnknownAction(action: string)
    | ListNotFound(name: string)
    | StaleVersion              // the remote rejects a modify carrying an old version
    | ListBusy                  // the remote rejects a modify while a transition is in flight
    | SliceOutOfRange           // Go panic: s[lo:hi] with lo > hi

  datatype Result<+T> = Ok(value: T) | Err(failure: Failure)

  /** The per-request entry cap of the remote API (`maxEntriesPerRequest`). */
  const MaxEntriesPerRequest: nat := 100

  function Min(a: int, b: int): int { if a <= b then a else b }
  function Max(a: int, b: int): int { if a <= b then b else a }

  predicate NoDups<T(==)>(s: seq<T>)
  {
    forall i, j | 0 <= i < j < |s| :: s[i] != s[j]
  }

  function Elems<T>(s: seq<T>): set<T>
  {
    set x | x in s
  }

  lemma ElemsAppend<T>(a: seq<T>, b: seq<T>)
    ensures Elems(a + b) == Elems(a) + Elems(b)
  {
    assert forall x :: x in a + b <==> x in a || x in b;
  }

  lemma ElemsCons<T>(s: seq<T>)
    requires |s| > 0
    ensures Elems(s) == {s[0]} + Elems(s[1..])
  {
    assert s == [s[0]] + s[1..];
    ElemsAppend([s[0]], s[1..]);
  }

  lemma NoDupsCons<T>(x: T, s: seq<T>)
    requires NoDups(s) && x !in Elems(s)
    ensures NoDups([x] + s)
  {
    assert x !in s;
  }

  /** Index of the first occurrence of `x` in `s`. */
  function FirstIndex<T(==)>(s: seq<T>, x: T): (i: nat)
    requires x in s
    ensures i < |s| && s[i] == x
    ensures forall k | 0 <= k < i :: s[k] != x
  {
    if s[0] == x then 0 else 1 + FirstIndex(s[1..], x)
  }

  /** The first occurrence of every element, in first-seen order: what a loop
      does that appends an element to a list only when a companion set has
      not seen it yet. */
  function Dedup<T(==)>(s: seq<T>): (r: seq<T>)
    ensures NoDups(r)
    ensures forall i | 0 <= i < |r| :: r[i] in s
    ensures Elems(r) == Elems(s)
    ensures |r| <= |s|
  {
    if |s| == 0 then []
    else
      var d := Dedup(s[..|s| - 1]);
      assert s == s[..|s| - 1] + [s[|s| - 1]];
      ElemsAppend(s[..|s| - 1], [s[|s| - 1]]);
      ElemsAppend(d, [s[|s| - 1]]);
      if s[|s| - 1] in d then d else d + [s[|s| - 1]]
  }

  /** Dedup keeps first-seen order: its elements appear in the order of
      their first occurrence in the input. Together with NoDups and Elems
      this pins the result down completely. */
  lemma {:induction false} DedupFirstSeenOrder<T>(s: seq<T>)
    ensures forall i, j | 0 <= i < j < |Dedup(s)| ::
      FirstIndex(s, Dedup(s)[i]) < FirstIndex(s, Dedup(s)[j])
  {
    if |s| > 0 {
      var p := s[..|s| - 1];
      var x := s[|s| - 1];
      assert s == p + [x];
      DedupFirstSeenOrder(p);
      var d := Dedup(p);
      forall y | y in p
        ensures FirstIndex(s, y) == FirstIndex(p, y)
      {
        FirstIndexPrefix(p, [x], y);
      }
      if x !in d {
        assert x !in Elems(p);
        assert FirstIndex(s, x) == |s| - 1;
      }
    }
  }

  lemma {:induction false} FirstIndexPrefix<T>(p: seq<T>, q: seq<T>, y: T)
    requires y in p
    ensures FirstIndex(p + q, y) == FirstIndex(p, y)
  {
    if p[0] != y {
      assert (p + q)[1..] == p[1..] + q;
      FirstIndexPrefix(p[1..], q, y);
    }
  }

  /** The elements of `s` that are not in `drop`, in their original order. */
  function Without<T>(s: seq<T>, drop: set<T>): seq<T>
  {
    if |s| == 0 then []
    else if s[0] in drop then Without(s[1..], drop)
    else [s[0]] + Without(s[1..], drop)
  }

  /** Filtering out `drop` leaves exactly the elements not in `drop`, never
      more of them, and never introduces a duplicate. */
  lemma {:induction false} WithoutFacts<T>(s: seq<T>, drop: set<T>)
    ensures Elems(Without(s, drop)) == Elems(s) - drop
    ensures |Without(s, drop)| <= |s|
    ensures NoDups(s) ==> NoDups(Without(s, drop))
  {
    if |s| > 0 {
      var rest := Without(s[1..], drop);
      WithoutFacts(s[1..], drop);
      ElemsCons(s);
      ElemsAppend([s[0]], rest);
      if NoDups(s) && s[0] !in drop {
        assert NoDups(s[1..]) && s[0] !in Elems(rest);
        NoDupsCons(s[0], rest);
      }
    }
  }

  /** Some enumeration of a finite set, each element once. Which order is
      left open: it stands for an iteration order nobody specifies. */
  ghost function Enumerate<T>(s: set<T>): (r: seq<T>)
    ensures NoDups(r) && Elems(r) == s && |r| == |s|
    decreases s
  {
    if s == {} then []
    else
      var x :| x in s;
      var rest := Enumerate(s - {x});
      ElemsAppend([x], rest);
      assert x !in Elems(rest);
      NoDupsCons(x, rest);
      [x] + rest
  }

  /** A duplicate-free sequence has as many distinct elements as it has
      positions. */
  lemma {:induction false} NoDupsCard<T>(s: seq<T>)
    requires NoDups(s)
    ensures |Elems(s)| == |s|
  {
    if |s| > 0 {
      ElemsCons(s);
      assert NoDups(s[1..]);
      NoDupsCard(s[1..]);
      assert s[0] !in s[1..];
    }
  }

  /** Removing `r` then adding `a`, then removing `r2` then adding `a2`, is
      removing both and adding both, provided `r2` takes back nothing of
      `a`. */
  lemma RemoveAddTwice<T>(e: set<T>, r: set<T>, a: set<T>, r2: set<T>, a2: set<T>)
    requires a !! r2
    ensures ((e - r) + a - r2) + a2 == (e - (r + r2)) + (a + a2)
  {
  }

  /** Concatenation of a sequence of chunks. */
  function Flatten<T>(chunks: seq<seq<T>>): seq<T>
  {
    if |chunks| == 0 then [] else Flatten(chunks[..|chunks| - 1]) + chunks[|chunks| - 1]
  }

  lemma {:induction false} FlattenCons<T>(chunks: seq<seq<T>>)
    requires |chunks| > 0
    ensures Flatten(chunks) == chunks[0] + Flatten(chunks[1..])
    decreases |chunks|
  {
    if |chunks| > 1 {
      var init := chunks[..|chunks| - 1];
      FlattenCons(init);
      assert init[1..] == chunks[1..][..|chunks[1..]| - 1];
    } else {
      assert chunks[..0] == [];
      assert chunks[1..] == [];
    }
  }

  /** `t` occurs in `s` starting at position `i`. */
  predicate OccursAt(s: string, t: string, i: nat)
  {
    i + |t| <= |s| && s[i..i + |t|] == t
  }

  /** `strings.Contains(s, t)`: `t` occurs in `s` as a contiguous block. */
  predicate Contains(s: string, t: string)
  {
    exists i: nat | i <= |s| :: OccursAt(s, t, i)
  }

  lemma ContainsSuffix(p: string, t: string)
    ensures Contains(p + t, t)
  {
    assert (p + t)[|p|..|p| + |t|] == t;
    assert OccursAt(p + t, t, |p|);
  }

  /** `t` cannot occur in `s` when its first character is absent from the
      first `n` positions and every later start is too close to the end. */
  lemma AbsentHead(s: string, t: string, n: nat)
    requires 0 < |t| && n <= |s| && |s| < n + |t|
    requires forall k | 0 <= k < n :: s[k] != t[0]
    ensures !Contains(s, t)
  {
    forall i: nat | i + |t| <= |s|
      ensures !OccursAt(s, t, i)
    {
      assert s[i..i + |t|][0] == s[i];
    }
  }
}
