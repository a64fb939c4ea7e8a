/** The step both workflows repeat, run against the modelled remote: read
    the version (`getCurrentVersion`), send a modify carrying it, and wait
    until the list settles (`waitForPrefixListReady`). */
module Session {
  import opened Common
  import opened PrefixListApi
  import opened Readiness
  import opened Protocol

  /** Where a modify loop leaves a list: the list, the calls made, and the
      failure that ended the loop early, if any. */
  datatype Progress = Progress(list: PrefixList, events: seq<Event>, failure: Option<Failure>)

  /** The remote's answer to the `k`-th describe by id while `l` settles. */
  function Responses(l: PrefixList): nat -> seq<View>
  {
    (k: nat) => [ViewAfter(l, k)]
  }

  /** The modelled remote's responses stop the wait exactly at the `lag`-th
      describe, and never with an empty response. */
  lemma WaitStops(l: PrefixList)
    ensures Stops(Responses(l)(l.lag))
    ensures FirstStop(Responses(l), 0, l.lag) == l.lag
  {
    StateAfterInProgress(l, l.lag);
    forall m | 0 <= m < l.lag
      ensures !Stops(Responses(l)(m))
    {
      StateAfterInProgress(l, m);
    }
  }

  /** `waitForPrefixListReady` against the modelled remote: describes until
      the mutation in flight has settled. */
  function WaitReady(l: PrefixList): (r: (PrefixList, seq<Event>))
    ensures r.0 == l.(lag := 0)
  {
    WaitStops(l);
    (l.(lag := 0), Poll(l.id, Responses(l), 0, l.lag).events)
  }

  /** A wait against the modelled remote mutates nothing. */
  lemma WaitQuiet(l: PrefixList)
    ensures var t := WaitReady(l).1;
            forall i | 0 <= i < |t| :: !IsMutation(t[i])
  {
    WaitStops(l);
    PollEvents(l.id, Responses(l), 0, l.lag);
  }

  /** The last describe of a wait against the modelled remote sees the
      list settled. */
  lemma WaitEndsSettled(l: PrefixList)
    ensures var t := WaitReady(l).1;
            |t| > 0 && ReadyObservation(t[|t| - 1], l.id)
  {
    WaitStops(l);
    var respond := Responses(l);
    var t := Poll(l.id, respond, 0, l.lag).events;
    PollLength(l.id, respond, 0, l.lag);
    PollAlternates(l.id, respond, 0, l.lag);
    assert t[2 * l.lag] == Describe(l.id, respond(l.lag));
    assert respond(l.lag) == [ViewAfter(l, l.lag)];
  }

  /** A wait against the modelled remote releases the gate on the list. */
  lemma WaitReleases(l: PrefixList)
    ensures var t := WaitReady(l).1;
            && (forall i | 0 <= i < |t| :: !IsMutation(t[i]))
            && Gated(t, Some(l.id)) && Pending(t, Some(l.id)) == None
  {
    WaitQuiet(l);
    WaitEndsSettled(l);
    QuietEndsReady(WaitReady(l).1, l.id, Some(l.id));
  }

  /** A wait against the modelled remote makes `lag + 1` describes and `lag`
      sleeps, never panics, mutates nothing, and ends having seen the list
      settled. */
  lemma WaitTrace(l: PrefixList)
    ensures |WaitReady(l).1| == 2 * l.lag + 1
    ensures Describes(WaitReady(l).1) == l.lag + 1 && Sleeps(WaitReady(l).1) == l.lag
    ensures SettlingWait(WaitReady(l).1, l.id)
  {
    WaitStops(l);
    PollLength(l.id, Responses(l), 0, l.lag);
    WaitReleases(l);
    QuietTrace(WaitReady(l).1);
  }

  /** `getCurrentVersion`: a describe by id; the version is read from the
      first element of the response. */
  function LookUp(l: PrefixList): Event
  {
    Describe(l.id, Responses(l)(0))
  }

  /** One version-gated modify: lines 142-158 of the create path and lines
      230-247 of the update path. The remote rejects it only when a
      transition is still in flight, because the version is always freshly
      read. */
  function SendModify(env: Env, l: PrefixList, add: seq<string>, remove: seq<string>): (p: Progress)
    ensures p.failure == None <==> l.lag == 0
    ensures p.failure != None ==> p.failure == Some(ListBusy) && p.list == l
    ensures p.failure == None ==>
              && p.list.lag == 0
              && p.list.id == l.id && p.list.name == l.name && p.list.family == l.family
              && p.list.maxEntries == l.maxEntries && p.list.version == l.version + 1
              && p.list.entries == (l.entries - Elems(remove)) + Elems(add)
  {
    var look := LookUp(l);
    var call := ModifyCall(l.id, look.response[0].version, add, remove);
    var next := Modify(env, l, call.version, add, remove);
    if next.Err? then Progress(l, [look, call], Some(next.failure))
    else
      var wait := WaitReady(next.value);
      Progress(wait.0, [look, call] + wait.1, None)
  }

  /** On a settled list the step's calls keep the protocol, and its only
      mutation is the modify, carrying the version of the list. */
  lemma SendModifyTrace(env: Env, l: PrefixList, add: seq<string>, remove: seq<string>)
    requires l.lag == 0
    requires |add| <= MaxEntriesPerRequest && |remove| <= MaxEntriesPerRequest
    ensures KeepsProtocol(SendModify(env, l, add, remove).events)
    ensures Mutations(SendModify(env, l, add, remove).events) == [ModifyCall(l.id, l.version, add, remove)]
  {
    var look := LookUp(l);
    var call := ModifyCall(l.id, l.version, add, remove);
    var next := Modify(env, l, l.version, add, remove).value;
    var wait := WaitReady(next).1;
    WaitTrace(next);
    ModifyRound(look, call, wait, []);
    assert [look, call] + wait + [] == [look, call] + wait;
  }
}
