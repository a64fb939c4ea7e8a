/** The mutation protocol the tool keeps with the remote, stated over the
    trace of calls it makes: fresh versions on every modify, a readiness
    wait between any two mutations, and the per-request entry caps. */
module Protocol {
  import opened Common
  import opened PrefixListApi

  /** A call that changes the remote list. */
  predicate IsMutation(e: Event)
  {
    e.CreateCall? || e.ModifyCall?
  }

  /** The list a mutation changes: the id a modify names, or the id the
      remote assigned to the list a create made. */
  function MutatedId(e: Event): string
    requires IsMutation(e)
  {
    e.id
  }

  /** A describe of list `id` whose response is about that list and saw it
      settled. */
  predicate ReadyObservation(e: Event, id: string)
  {
    && e.Describe? && e.id == id
    && |e.response| > 0 && e.response[0].id == id && !InProgress(e.response[0].state)
  }

  /** The automaton's next state: a mutation leaves its list pending; a
      describe that saw the pending list settled clears it; any other call
      changes nothing. */
  function Next(e: Event, pending: Option<string>): Option<string>
  {
    if IsMutation(e) then Some(MutatedId(e))
    else if pending.Some? && ReadyObservation(e, pending.value) then None
    else pending
  }

  /** Every modify directly follows a describe of the same list, and sends
      the version that describe returned. */
  predicate VersionsFresh(t: seq<Event>)
  {
    forall j | 0 <= j < |t| && t[j].ModifyCall? ::
      && j > 0
      && t[j - 1].Describe?
      && t[j - 1].id == t[j].id
      && |t[j - 1].response| > 0
      && t[j - 1].response[0].version == t[j].version
  }

  /** The protocol as an automaton. `pending` names the list whose last
      mutation has not yet been seen settled; a mutation while some list is
      pending is a violation. */
  predicate Gated(t: seq<Event>, pending: Option<string>)
  {
    |t| == 0 || ((IsMutation(t[0]) ==> pending.None?) && Gated(t[1..], Next(t[0], pending)))
  }

  /** The automaton's state after reading `t`. */
  function Pending(t: seq<Event>, pending: Option<string>): Option<string>
  {
    if |t| == 0 then pending else Pending(t[1..], Next(t[0], pending))
  }

  /** A trace that keeps the protocol and ends settled. */
  predicate WellGated(t: seq<Event>)
  {
    Gated(t, None) && Pending(t, None) == None
  }

  /** Direct statement of the gate: between any two mutations a describe
      saw the list the first one changed settled. */
  predicate WaitsBetweenMutations(t: seq<Event>)
  {
    forall i, j | 0 <= i < j < |t| && IsMutation(t[i]) && IsMutation(t[j]) ::
      exists k | i < k < j :: ReadyObservation(t[k], MutatedId(t[i]))
  }

  /** Every create sends between 1 and 100 entries; every modify sends at
      most 100 additions and at most 100 removals. */
  predicate WithinCaps(t: seq<Event>)
  {
    forall e | e in t ::
      && (e.CreateCall? ==> 0 < |e.entries| <= MaxEntriesPerRequest)
      && (e.ModifyCall? ==> |e.add| <= MaxEntriesPerRequest && |e.remove| <= MaxEntriesPerRequest)
  }

  /** The mutations of a trace, in order. */
  function Mutations(t: seq<Event>): seq<Event>
  {
    if |t| == 0 then []
    else if IsMutation(t[0]) then [t[0]] + Mutations(t[1..])
    else Mutations(t[1..])
  }

  lemma {:induction false} MutationsAppend(a: seq<Event>, b: seq<Event>)
    ensures Mutations(a + b) == Mutations(a) + Mutations(b)
  {
    if |a| > 0 {
      assert (a + b)[1..] == a[1..] + b;
      MutationsAppend(a[1..], b);
    } else {
      assert a + b == b;
    }
  }

  lemma VersionsFreshAppend(a: seq<Event>, b: seq<Event>)
    requires VersionsFresh(a) && VersionsFresh(b)
    ensures VersionsFresh(a + b)
  {
    forall j | 0 <= j < |a + b| && (a + b)[j].ModifyCall?
      ensures j > 0 && (a + b)[j - 1].Describe? && (a + b)[j - 1].id == (a + b)[j].id
      ensures |(a + b)[j - 1].response| > 0 && (a + b)[j - 1].response[0].version == (a + b)[j].version
    {
      if j >= |a| {
        assert (a + b)[j] == b[j - |a|];
        assert (a + b)[j - 1] == b[j - 1 - |a|];
      }
    }
  }

  /** Reading `a + b` is reading `a` and then `b` from where `a` left off. */
  lemma {:induction false} GatedAppend(a: seq<Event>, b: seq<Event>, pending: Option<string>)
    ensures Gated(a + b, pending) <==> Gated(a, pending) && Gated(b, Pending(a, pending))
    ensures Pending(a + b, pending) == Pending(b, Pending(a, pending))
  {
    if |a| > 0 {
      assert (a + b)[1..] == a[1..] + b;
      GatedAppend(a[1..], b, Next(a[0], pending));
    } else {
      assert a + b == b;
    }
  }

  /** Concatenating traces that each keep the protocol and end settled gives
      a trace that does too. */
  lemma WellGatedAppend(a: seq<Event>, b: seq<Event>)
    requires WellGated(a) && WellGated(b)
    ensures WellGated(a + b)
  {
    GatedAppend(a, b, None);
  }

  /** A trace without mutations that ends on a describe seeing list `id`
      settled keeps the protocol and ends settled, when nothing or only `id`
      is pending at its start. */
  lemma {:induction false} QuietEndsReady(t: seq<Event>, id: string, pending: Option<string>)
    requires forall i | 0 <= i < |t| :: !IsMutation(t[i])
    requires |t| > 0 && ReadyObservation(t[|t| - 1], id)
    requires pending == None || pending == Some(id)
    ensures Gated(t, pending) && Pending(t, pending) == None
  {
    if |t| > 1 {
      QuietEndsReady(t[1..], id, Next(t[0], pending));
    }
  }

  /** One mutation cycle: a non-mutating call, the mutation, then a wait
      that ends with the mutated list seen settled. */
  lemma MutationCycle(look: Event, call: Event, wait: seq<Event>)
    requires !IsMutation(look) && IsMutation(call)
    requires Gated(wait, Some(MutatedId(call))) && Pending(wait, Some(MutatedId(call))) == None
    ensures WellGated([look, call] + wait)
  {
    GatedAppend([look, call], wait, None);
  }

  lemma WithinCapsAppend(a: seq<Event>, b: seq<Event>)
    requires WithinCaps(a) && WithinCaps(b)
    ensures WithinCaps(a + b)
  {
  }

  /** A trace that keeps the whole protocol: gated, ending settled, fresh
      versions, within the caps. */
  predicate KeepsProtocol(t: seq<Event>)
  {
    WellGated(t) && VersionsFresh(t) && WithinCaps(t)
  }

  lemma KeepsProtocolAppend(a: seq<Event>, b: seq<Event>)
    requires KeepsProtocol(a) && KeepsProtocol(b)
    ensures KeepsProtocol(a + b)
  {
    WellGatedAppend(a, b);
    VersionsFreshAppend(a, b);
    WithinCapsAppend(a, b);
  }

  /** What a readiness wait on list `id` contributes: no mutation, fresh
      and capped vacuously, and it takes the automaton from `id` pending to
      settled. */
  predicate SettlingWait(t: seq<Event>, id: string)
  {
    && Gated(t, Some(id)) && Pending(t, Some(id)) == None
    && VersionsFresh(t) && WithinCaps(t) && Mutations(t) == []
  }

  /** A trace with no mutation in it is fresh and within the caps
      vacuously, and has no mutations. */
  lemma {:induction false} QuietTrace(t: seq<Event>)
    requires forall i | 0 <= i < |t| :: !IsMutation(t[i])
    ensures VersionsFresh(t) && WithinCaps(t) && Mutations(t) == []
  {
    if |t| > 0 {
      assert forall i | 0 <= i < |t[1..]| :: !IsMutation(t[1..][i]);
      QuietTrace(t[1..]);
    }
  }

  /** A trace with no mutation in it keeps the protocol from the settled
      state and stays settled. */
  lemma {:induction false} QuietKeepsProtocol(t: seq<Event>)
    requires forall i | 0 <= i < |t| :: !IsMutation(t[i])
    ensures KeepsProtocol(t) && Mutations(t) == []
  {
    if |t| > 0 {
      assert forall i | 0 <= i < |t[1..]| :: !IsMutation(t[1..][i]);
      QuietKeepsProtocol(t[1..]);
    }
    QuietTrace(t);
  }

  /** A modify that sends the version the describe just before it read,
      within the caps. */
  predicate FreshModify(look: Event, call: Event)
  {
    && look.Describe? && call.ModifyCall? && look.id == call.id
    && |look.response| > 0 && look.response[0].version == call.version
    && |call.add| <= MaxEntriesPerRequest && |call.remove| <= MaxEntriesPerRequest
  }

  /** A mutation alone is allowed from the settled state and leaves its
      list pending. */
  lemma LoneMutation(call: Event)
    requires IsMutation(call)
    ensures Gated([call], None) && Pending([call], None) == Some(MutatedId(call))
  {
    assert [call][1..] == [];
    assert Next(call, None) == Some(MutatedId(call));
    assert Pending([call], None) == Pending([], Some(MutatedId(call)));
  }

  /** The create call's round: the create, its wait, then the modify loop. */
  lemma CreateRound(call: Event, wait: seq<Event>, rest: seq<Event>)
    requires call.CreateCall? && 0 < |call.entries| <= MaxEntriesPerRequest
    requires SettlingWait(wait, call.id) && KeepsProtocol(rest)
    ensures KeepsProtocol([call] + wait + rest)
    ensures Mutations([call] + wait + rest) == [call] + Mutations(rest)
  {
    var head := [call] + wait;
    assert WellGated(head) by {
      LoneMutation(call);
      GatedAppend([call], wait, None);
    }
    assert VersionsFresh(head) by {
      assert VersionsFresh([call]);
      VersionsFreshAppend([call], wait);
    }
    assert WithinCaps(head) by {
      WithinCapsAppend([call], wait);
    }
    assert Mutations(head) == [call] by {
      MutationsAppend([call], wait);
    }
    WellGatedAppend(head, rest);
    VersionsFreshAppend(head, rest);
    WithinCapsAppend(head, rest);
    MutationsAppend(head, rest);
  }

  /** One round of the modify loops: version read, modify, wait, then the
      rest of the loop. The protocol holds for the whole if it holds for the
      rest, and the round adds exactly its modify to the mutations. */
  lemma ModifyRound(look: Event, call: Event, wait: seq<Event>, rest: seq<Event>)
    requires FreshModify(look, call) && SettlingWait(wait, call.id) && KeepsProtocol(rest)
    ensures KeepsProtocol([look, call] + wait + rest)
    ensures Mutations([look, call] + wait + rest) == [call] + Mutations(rest)
  {
    var head := [look, call] + wait;
    assert WellGated(head) by {
      MutationCycle(look, call, wait);
    }
    assert VersionsFresh(head) by {
      assert VersionsFresh([look, call]);
      VersionsFreshAppend([look, call], wait);
    }
    assert WithinCaps(head) by {
      WithinCapsAppend([look, call], wait);
    }
    assert Mutations(head) == [call] by {
      MutationsAppend([look, call], wait);
      assert Mutations([look, call]) == [call];
    }
    WellGatedAppend(head, rest);
    VersionsFreshAppend(head, rest);
    WithinCapsAppend(head, rest);
    MutationsAppend(head, rest);
  }

  /** The automaton and the direct statement agree: in a trace the
      automaton accepts, a describe sees each mutated list settled before the
      next mutation, and one sees the list pending at the start settled
      before the first mutation. */
  lemma {:induction false} GatedWaits(t: seq<Event>, pending: Option<string>)
    requires Gated(t, pending)
    ensures WaitsBetweenMutations(t)
    ensures pending.Some? ==> forall j | 0 <= j < |t| && IsMutation(t[j]) ::
      exists k | 0 <= k < j :: ReadyObservation(t[k], pending.value)
  {
    if |t| > 0 {
      var next := Next(t[0], pending);
      GatedWaits(t[1..], next);
      var r := t[1..];
      forall i, j | 0 <= i < j < |t| && IsMutation(t[i]) && IsMutation(t[j])
        ensures exists k | i < k < j :: ReadyObservation(t[k], MutatedId(t[i]))
      {
        assert IsMutation(r[j - 1]);
        if i == 0 {
          assert next == Some(MutatedId(t[0]));
          var k :| 0 <= k < j - 1 && ReadyObservation(r[k], MutatedId(t[0]));
          assert ReadyObservation(t[k + 1], MutatedId(t[0]));
        } else {
          assert IsMutation(r[i - 1]) && r[i - 1] == t[i];
          var k :| i - 1 < k < j - 1 && ReadyObservation(r[k], MutatedId(t[i]));
          assert ReadyObservation(t[k + 1], MutatedId(t[i]));
        }
      }
      if pending.Some? {
        forall j | 0 <= j < |t| && IsMutation(t[j])
          ensures exists k | 0 <= k < j :: ReadyObservation(t[k], pending.value)
        {
          assert !IsMutation(t[0]);
          assert IsMutation(r[j - 1]);
          if !ReadyObservation(t[0], pending.value) {
            assert next == pending;
            var k :| 0 <= k < j - 1 && ReadyObservation(r[k], pending.value);
            assert ReadyObservation(t[k + 1], pending.value);
          }
        }
      }
    }
  }

  /** Only the mutated list seen settled releases the gate: after a create
      of list "A", neither a describe of list "B" nor a describe of "A"
      answered about "B" allows the next modify of "A". */
  lemma OtherListDoesNotRelease()
    ensures !Gated([CreateCall("n", "IPv4", 1, ["e"], "A"), Describe("B", [View("B", 7, "ok")]),
                    ModifyCall("A", 1, [], [])], None)
    ensures !Gated([CreateCall("n", "IPv4", 1, ["e"], "A"), Describe("A", [View("B", 7, "ok")]),
                    ModifyCall("A", 1, [], [])], None)
  {
    var t1 := [CreateCall("n", "IPv4", 1, ["e"], "A"), Describe("B", [View("B", 7, "ok")]), ModifyCall("A", 1, [], [])];
    var t2 := [CreateCall("n", "IPv4", 1, ["e"], "A"), Describe("A", [View("B", 7, "ok")]), ModifyCall("A", 1, [], [])];
    assert Next(t1[1], Some("A")) == Some("A");
    assert t1[1..][1..] == [t1[2]];
    assert Next(t2[1], Some("A")) == Some("A");
    assert t2[1..][1..] == [t2[2]];
  }
}
