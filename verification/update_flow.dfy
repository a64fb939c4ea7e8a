/** `updatePrefixList` (lines 162-249) against the modelled remote: find the
    list by name, read its version and entries, diff them against the
    desired entries, then send the difference in windows of at most 100
    additions and 100 removals, each after a fresh version read and followed
    by a readiness wait. */
module UpdateFlow {
  import opened Common
  import opened Batching
  import opened DiffEngine
  import opened PrefixListApi
  import opened Protocol
  import opened Session

  /** The two sides of the request for the window starting at `lo` (lines
      220-227 and 235-236), or the panic of a slice that starts past its
      end. A side that has run out is sent empty. */
  function Request(add: seq<string>, remove: seq<string>, lo: nat, mode: SliceMode): (r: Result<(seq<string>, seq<string>)>)
    ensures r.Err? <==> mode == GoSlice && (lo > |add| || lo > |remove|)
    ensures r.Err? ==> r.failure == SliceOutOfRange
    ensures r.Ok? ==> r.value == (Window(add, lo, Clamped).value, Window(remove, lo, Clamped).value)
  {
    var a := Window(add, lo, mode);
    var b := Window(remove, lo, mode);
    if a.Err? then Err(a.failure)
    else if b.Err? then Err(b.failure)
    else Ok((a.value, b.value))
  }

  /** One pass of the loop body at lines 220-247 for the window starting at
      `lo`: read the version, build the request, then send it and wait. A
      slice that panics does so after the version read and before the
      modify. */
  function UpdateRound(env: Env, l: PrefixList, add: seq<string>, remove: seq<string>, lo: nat, mode: SliceMode): Progress
  {
    var req := Request(add, remove, lo, mode);
    if req.Err? then Progress(l, [LookUp(l)], Some(req.failure))
    else SendModify(env, l, req.value.0, req.value.1)
  }

  /** A round succeeds exactly when neither slice panics and the list is
      settled; a panic leaves only the version read, a busy list is left
      as it was, and a round that succeeds sends the clamped window pair. */
  lemma UpdateRoundOutcome(env: Env, l: PrefixList, add: seq<string>, remove: seq<string>, lo: nat, mode: SliceMode)
    ensures var p := UpdateRound(env, l, add, remove, lo, mode);
            p.failure == None <==> Request(add, remove, lo, mode).Ok? && l.lag == 0
    ensures Request(add, remove, lo, mode).Err? ==>
              UpdateRound(env, l, add, remove, lo, mode) == Progress(l, [LookUp(l)], Some(SliceOutOfRange))
    ensures var p := UpdateRound(env, l, add, remove, lo, mode);
            Request(add, remove, lo, mode).Ok? && l.lag > 0 ==> p.failure == Some(ListBusy) && p.list == l
    ensures var p := UpdateRound(env, l, add, remove, lo, mode);
            p.failure == None ==>
              && p.list.lag == 0
              && p.list.id == l.id && p.list.name == l.name && p.list.family == l.family
              && p.list.maxEntries == l.maxEntries && p.list.version == l.version + 1
              && p.list.entries == (l.entries - Elems(Window(remove, lo, Clamped).value)) + Elems(Window(add, lo, Clamped).value)
  {
  }

  /** Lines 219-248 from window `c` on. The version is read first (line
      230); the two slices are taken when the request is built (lines
      235-236), so a slice that panics does so after that describe and
      before the modify. */
  function UpdateLoop(env: Env, l: PrefixList, add: seq<string>, remove: seq<string>, c: nat, mode: SliceMode): Progress
    decreases NumWindows(|add|, |remove|) - c
  {
    var lo := c * MaxEntriesPerRequest;
    LoopRunsIff(|add|, |remove|, c);
    if !(lo < |add| || lo < |remove|) then Progress(l, [], None)
    else
      var round := UpdateRound(env, l, add, remove, lo, mode);
      if round.failure.Some? then round
      else
        var rest := UpdateLoop(env, round.list, add, remove, c + 1, mode);
        Progress(rest.list, round.events + rest.events, rest.failure)
  }

  /** The modifies the update loop owes from window `c` on, starting at
      version `version`: one per window, a side that has run out sending
      nothing. */
  function PairModifies(id: string, version: int, add: seq<string>, remove: seq<string>, c: nat): seq<Event>
    decreases NumWindows(|add|, |remove|) - c
  {
    var lo := c * MaxEntriesPerRequest;
    LoopRunsIff(|add|, |remove|, c);
    if !(lo < |add| || lo < |remove|) then []
    else
      [ModifyCall(id, version, Window(add, lo, Clamped).value, Window(remove, lo, Clamped).value)] +
      PairModifies(id, version + 1, add, remove, c + 1)
  }

  /** One modify per window still owed. */
  lemma {:induction false} PairModifiesLength(id: string, version: int, add: seq<string>, remove: seq<string>, c: nat)
    ensures var r := PairModifies(id, version, add, remove, c);
            |r| == NumWindows(|add|, |remove|) - c || (c >= NumWindows(|add|, |remove|) && r == [])
    decreases NumWindows(|add|, |remove|) - c
  {
    LoopRunsIff(|add|, |remove|, c);
    if c < NumWindows(|add|, |remove|) {
      PairModifiesLength(id, version + 1, add, remove, c + 1);
    }
  }

  /** The `m`-th modify owed pairs the `(c + m)`-th add window with the
      `(c + m)`-th remove window and sends version `version + m`. */
  lemma {:induction false} PairModifiesAt(id: string, version: int, add: seq<string>, remove: seq<string>, c: nat, m: nat)
    requires m < |PairModifies(id, version, add, remove, c)|
    ensures PairModifies(id, version, add, remove, c)[m] ==
              ModifyCall(id, version + m,
                         Window(add, (c + m) * MaxEntriesPerRequest, Clamped).value,
                         Window(remove, (c + m) * MaxEntriesPerRequest, Clamped).value)
    decreases m
  {
    var lo := c * MaxEntriesPerRequest;
    var at := (c + m) * MaxEntriesPerRequest;
    assert m == 0 ==> at == lo;
    assert m > 0 ==> at == (c + 1 + (m - 1)) * MaxEntriesPerRequest;
    LoopRunsIff(|add|, |remove|, c);
    var r := PairModifies(id, version, add, remove, c);
    var tail := PairModifies(id, version + 1, add, remove, c + 1);
    assert r == [ModifyCall(id, version, Window(add, lo, Clamped).value, Window(remove, lo, Clamped).value)] + tail;
    if m > 0 {
      PairModifiesAt(id, version + 1, add, remove, c + 1, m - 1);
      assert r[m] == tail[m - 1];
    }
  }

  /** What the loop from window `c` leaves on a settled list: the list
      settled with its identity kept; a failure only on a slice panic, and
      exactly when Go slicing is in force and a window from `c` on is out of
      range; and on a full run one version per window. */
  predicate LoopOutcome(env: Env, l: PrefixList, add: seq<string>, remove: seq<string>, c: nat, mode: SliceMode)
  {
    var p := UpdateLoop(env, l, add, remove, c, mode);
    && p.list.lag == 0
    && p.list.id == l.id && p.list.name == l.name && p.list.family == l.family && p.list.maxEntries == l.maxEntries
    && (p.failure == None || p.failure == Some(SliceOutOfRange))
    && (p.failure == None <==> mode == Clamped || SlicesInRangeFrom(|add|, |remove|, c))
    && (p.failure == None && c <= NumWindows(|add|, |remove|) ==>
          p.list.version == l.version + (NumWindows(|add|, |remove|) - c))
  }

  /** On a settled list the loop's only possible failure is a slice that
      panics, and that happens exactly when Go slicing is in force and some
      window from `c` on starts past the end of the shorter side. Otherwise
      the list ends settled with one version per window. */
  lemma {:induction false} UpdateLoopOutcome(env: Env, l: PrefixList, add: seq<string>, remove: seq<string>, c: nat, mode: SliceMode)
    requires l.lag == 0
    ensures LoopOutcome(env, l, add, remove, c, mode)
    decreases NumWindows(|add|, |remove|) - c, 1
  {
    LoopRunsIff(|add|, |remove|, c);
    if c < NumWindows(|add|, |remove|) {
      LoopStepOutcome(env, l, add, remove, c, mode);
    } else {
      assert UpdateLoop(env, l, add, remove, c, mode) == Progress(l, [], None);
    }
  }

  /** One step of the induction above: the round at window `c`, then the
      loop from the next window on the list the round leaves. */
  lemma {:induction false} LoopStepOutcome(env: Env, l: PrefixList, add: seq<string>, remove: seq<string>, c: nat, mode: SliceMode)
    requires l.lag == 0 && c < NumWindows(|add|, |remove|)
    ensures LoopOutcome(env, l, add, remove, c, mode)
    decreases NumWindows(|add|, |remove|) - c, 0
  {
    var lo := c * MaxEntriesPerRequest;
    LoopRunsIff(|add|, |remove|, c);
    SlicesInRangeStep(|add|, |remove|, c);
    var round := UpdateRound(env, l, add, remove, lo, mode);
    UpdateRoundOutcome(env, l, add, remove, lo, mode);
    if round.failure == None {
      UpdateLoopOutcome(env, round.list, add, remove, c + 1, mode);
    }
  }

  /** Whatever the state of the list, the loop stops early only on a slice
      that panics or on a modify the remote refuses as busy. */
  lemma {:induction false} UpdateLoopFailures(env: Env, l: PrefixList, add: seq<string>, remove: seq<string>, c: nat, mode: SliceMode)
    ensures UpdateLoop(env, l, add, remove, c, mode).failure in {None, Some(SliceOutOfRange), Some(ListBusy)}
    decreases NumWindows(|add|, |remove|) - c
  {
    var lo := c * MaxEntriesPerRequest;
    LoopRunsIff(|add|, |remove|, c);
    if lo < |add| || lo < |remove| {
      var round := UpdateRound(env, l, add, remove, lo, mode);
      UpdateRoundOutcome(env, l, add, remove, lo, mode);
      if round.failure == None {
        UpdateLoopFailures(env, round.list, add, remove, c + 1, mode);
      }
    }
  }

  /** A list that is still settling when the loop starts, with something
      to send, is refused at the first modify, before any change: no wait
      precedes the first modify (line 230 follows the reads at lines
      185-198 directly). */
  lemma UpdateLoopBusy(env: Env, l: PrefixList, add: seq<string>, remove: seq<string>, mode: SliceMode)
    requires l.lag > 0 && (0 < |add| || 0 < |remove|)
    ensures UpdateLoop(env, l, add, remove, 0, mode) ==
              Progress(l, [LookUp(l), ModifyCall(l.id, l.version, Window(add, 0, Clamped).value, Window(remove, 0, Clamped).value)],
                       Some(ListBusy))
  {
    LoopRunsIff(|add|, |remove|, 0);
    assert 0 * MaxEntriesPerRequest == 0;
  }

  /** What the loop does to the list's entries from window `c` on, when it
      runs to the end: the removals still owed go, the additions still owed
      come in. */
  predicate LoopEntries(env: Env, l: PrefixList, add: seq<string>, remove: seq<string>, c: nat, mode: SliceMode)
  {
    var p := UpdateLoop(env, l, add, remove, c, mode);
    p.failure == None ==>
      p.list.entries ==
        (l.entries - Elems(Rest(remove, c * MaxEntriesPerRequest))) + Elems(Rest(add, c * MaxEntriesPerRequest))
  }

  /** The loop's effect on the entries holds whenever the two sides still
      owed never share an entry. */
  lemma {:induction false} UpdateLoopEntries(env: Env, l: PrefixList, add: seq<string>, remove: seq<string>, c: nat, mode: SliceMode)
    requires l.lag == 0
    requires Elems(Rest(add, c * MaxEntriesPerRequest)) !! Elems(Rest(remove, c * MaxEntriesPerRequest))
    ensures LoopEntries(env, l, add, remove, c, mode)
    decreases NumWindows(|add|, |remove|) - c, 1
  {
    var lo := c * MaxEntriesPerRequest;
    LoopRunsIff(|add|, |remove|, c);
    if !(lo < |add| || lo < |remove|) {
      RestExhausted(add, lo);
      RestExhausted(remove, lo);
      assert UpdateLoop(env, l, add, remove, c, mode).list == l;
    } else {
      LoopStepEntries(env, l, add, remove, c, mode);
    }
  }

  /** One step of the induction above: removing then adding the window,
      then the rest, is removing then adding all that is left, because no
      addition is removed later. */
  lemma {:induction false} LoopStepEntries(env: Env, l: PrefixList, add: seq<string>, remove: seq<string>, c: nat, mode: SliceMode)
    requires l.lag == 0
    requires c * MaxEntriesPerRequest < |add| || c * MaxEntriesPerRequest < |remove|
    requires Elems(Rest(add, c * MaxEntriesPerRequest)) !! Elems(Rest(remove, c * MaxEntriesPerRequest))
    ensures LoopEntries(env, l, add, remove, c, mode)
    decreases NumWindows(|add|, |remove|) - c, 0
  {
    var lo := c * MaxEntriesPerRequest;
    var next := lo + MaxEntriesPerRequest;
    assert (c + 1) * MaxEntriesPerRequest == next;
    LoopRunsIff(|add|, |remove|, c);
    var round := UpdateRound(env, l, add, remove, lo, mode);
    UpdateRoundOutcome(env, l, add, remove, lo, mode);
    if round.failure == None {
      RestDisjointStep(add, remove, lo);
      UpdateLoopEntries(env, round.list, add, remove, c + 1, mode);
      var rest := UpdateLoop(env, round.list, add, remove, c + 1, mode);
      assert UpdateLoop(env, l, add, remove, c, mode) == Progress(rest.list, round.events + rest.events, rest.failure);
      if rest.failure == None {
        RestApplied(l.entries, round.list.entries, rest.list.entries, add, remove, lo);
      }
    }
  }

  /** On a settled list a round's calls keep the protocol; when it
      succeeds its only mutation is the modify carrying the window pair and
      the version it read. */
  lemma UpdateRoundTrace(env: Env, l: PrefixList, add: seq<string>, remove: seq<string>, lo: nat, mode: SliceMode)
    requires l.lag == 0
    ensures KeepsProtocol(UpdateRound(env, l, add, remove, lo, mode).events)
    ensures var p := UpdateRound(env, l, add, remove, lo, mode);
            p.failure == None ==>
              Mutations(p.events) == [ModifyCall(l.id, l.version, Window(add, lo, Clamped).value, Window(remove, lo, Clamped).value)]
  {
    var look := LookUp(l);
    var req := Request(add, remove, lo, mode);
    if req.Err? {
      assert [look][1..] == [];
      assert Gated([], None) && Pending([], None) == None;
      assert Gated([look], None) && Pending([look], None) == None;
      QuietTrace([look]);
    } else {
      SendModifyTrace(env, l, req.value.0, req.value.1);
    }
  }

  /** On a settled list the loop's calls keep the protocol, whether it runs
      to the end or stops at a slice that panics. */
  lemma {:induction false} UpdateLoopProtocol(env: Env, l: PrefixList, add: seq<string>, remove: seq<string>, c: nat, mode: SliceMode)
    requires l.lag == 0
    ensures KeepsProtocol(UpdateLoop(env, l, add, remove, c, mode).events)
    decreases NumWindows(|add|, |remove|) - c, 2
  {
    var lo := c * MaxEntriesPerRequest;
    LoopRunsIff(|add|, |remove|, c);
    if lo < |add| || lo < |remove| {
      LoopStepProtocol(env, l, add, remove, c, mode);
    } else {
      assert UpdateLoop(env, l, add, remove, c, mode).events == [];
      assert Gated([], None) && Pending([], None) == None;
    }
  }

  /** One step of the induction above: a round that panics keeps the
      protocol, and one that succeeds is followed by the rest of the loop. */
  lemma {:induction false} LoopStepProtocol(env: Env, l: PrefixList, add: seq<string>, remove: seq<string>, c: nat, mode: SliceMode)
    requires l.lag == 0
    requires c * MaxEntriesPerRequest < |add| || c * MaxEntriesPerRequest < |remove|
    ensures KeepsProtocol(UpdateLoop(env, l, add, remove, c, mode).events)
    decreases NumWindows(|add|, |remove|) - c, 1
  {
    var lo := c * MaxEntriesPerRequest;
    var round := UpdateRound(env, l, add, remove, lo, mode);
    if round.failure == None {
      RoundThenLoopProtocol(env, l, add, remove, c, mode);
    } else {
      UpdateRoundTrace(env, l, add, remove, lo, mode);
      assert UpdateLoop(env, l, add, remove, c, mode).events == round.events;
    }
  }

  /** A round that succeeds, then the rest of the loop on the list it
      leaves, keep the protocol. */
  lemma {:induction false} RoundThenLoopProtocol(env: Env, l: PrefixList, add: seq<string>, remove: seq<string>, c: nat, mode: SliceMode)
    requires l.lag == 0
    requires c * MaxEntriesPerRequest < |add| || c * MaxEntriesPerRequest < |remove|
    requires UpdateRound(env, l, add, remove, c * MaxEntriesPerRequest, mode).failure == None
    ensures KeepsProtocol(UpdateLoop(env, l, add, remove, c, mode).events)
    decreases NumWindows(|add|, |remove|) - c, 0
  {
    var lo := c * MaxEntriesPerRequest;
    LoopRunsIff(|add|, |remove|, c);
    var round := UpdateRound(env, l, add, remove, lo, mode);
    assert round.list.lag == 0 by {
      UpdateRoundOutcome(env, l, add, remove, lo, mode);
    }
    UpdateLoopProtocol(env, round.list, add, remove, c + 1, mode);
    var rest := UpdateLoop(env, round.list, add, remove, c + 1, mode);
    assert UpdateLoop(env, l, add, remove, c, mode).events == round.events + rest.events;
    UpdateRoundTrace(env, l, add, remove, lo, mode);
    KeepsProtocolAppend(round.events, rest.events);
  }

  /** What the loop sends from window `c` on, when it runs to the end: the
      owed modifies, in window order, each carrying the version read just
      before it. */
  predicate LoopMutations(env: Env, l: PrefixList, add: seq<string>, remove: seq<string>, c: nat, mode: SliceMode)
  {
    var p := UpdateLoop(env, l, add, remove, c, mode);
    p.failure == None ==> Mutations(p.events) == PairModifies(l.id, l.version, add, remove, c)
  }

  /** On a settled list the loop's mutations are the owed modifies. */
  lemma {:induction false} UpdateLoopMutations(env: Env, l: PrefixList, add: seq<string>, remove: seq<string>, c: nat, mode: SliceMode)
    requires l.lag == 0
    ensures LoopMutations(env, l, add, remove, c, mode)
    decreases NumWindows(|add|, |remove|) - c, 1
  {
    var lo := c * MaxEntriesPerRequest;
    LoopRunsIff(|add|, |remove|, c);
    if lo < |add| || lo < |remove| {
      LoopStepMutations(env, l, add, remove, c, mode);
    } else {
      assert UpdateLoop(env, l, add, remove, c, mode) == Progress(l, [], None);
      assert PairModifies(l.id, l.version, add, remove, c) == [];
      assert Mutations([]) == [];
    }
  }

  /** One step of the induction above: a round that succeeds contributes
      exactly the modify owed for its window, and the loop goes on from the
      next window on the settled list. */
  lemma {:induction false} LoopStepMutations(env: Env, l: PrefixList, add: seq<string>, remove: seq<string>, c: nat, mode: SliceMode)
    requires l.lag == 0
    requires c * MaxEntriesPerRequest < |add| || c * MaxEntriesPerRequest < |remove|
    ensures LoopMutations(env, l, add, remove, c, mode)
    decreases NumWindows(|add|, |remove|) - c, 0
  {
    var lo := c * MaxEntriesPerRequest;
    LoopRunsIff(|add|, |remove|, c);
    var round := UpdateRound(env, l, add, remove, lo, mode);
    UpdateRoundOutcome(env, l, add, remove, lo, mode);
    if round.failure == None {
      var call := ModifyCall(l.id, l.version, Window(add, lo, Clamped).value, Window(remove, lo, Clamped).value);
      assert Mutations(round.events) == [call] by {
        UpdateRoundTrace(env, l, add, remove, lo, mode);
      }
      UpdateLoopMutations(env, round.list, add, remove, c + 1, mode);
      var rest := UpdateLoop(env, round.list, add, remove, c + 1, mode);
      assert UpdateLoop(env, l, add, remove, c, mode) == Progress(rest.list, round.events + rest.events, rest.failure);
      MutationsAppend(round.events, rest.events);
      assert PairModifies(l.id, l.version, add, remove, c) == [call] + PairModifies(round.list.id, round.list.version, add, remove, c + 1);
    }
  }
}
