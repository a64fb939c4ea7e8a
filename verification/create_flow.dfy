/** `createPrefixList` (lines 103-160) against the modelled remote. */
module CreateFlow {
  import opened Common
  import opened Batching
  import opened PrefixListApi
  import opened Protocol
  import opened Session

  /** Lines 140-158 for chunks `i` onwards: re-read the version, send the
      chunk as additions, wait until settled, next chunk. A rejected modify
      ends the run (line 151). */
  function CreateRest(env: Env, l: PrefixList, chunks: seq<seq<string>>, i: nat): Progress
    decreases |chunks| - i
  {
    if i >= |chunks| then Progress(l, [], None)
    else
      var step := SendModify(env, l, chunks[i], []);
      if step.failure.Some? then step
      else
        var rest := CreateRest(env, step.list, chunks, i + 1);
        Progress(rest.list, step.events + rest.events, rest.failure)
  }

  /** What a create workflow leaves: the new list, if one was created. */
  datatype Created = Created(list: Option<PrefixList>, events: seq<Event>, failure: Option<Failure>)

  /** `createPrefixList`: the first chunk goes out as the create call with
      capacity for all entries, the rest as version-gated modifies, with a
      readiness wait after each. With no entries the loop never runs. */
  function CreateList(env: Env, name: string, family: string, ips: seq<string>): Created
  {
    var chunks := CreateChunks(ips);
    if |chunks| == 0 then Created(None, [], None)
    else
      var made := NewList(env, name, family, |ips|, chunks[0]);
      var call := CreateCall(name, family, |ips|, chunks[0], made.id);
      var (l1, wait) := WaitReady(made);
      var rest := CreateRest(env, l1, chunks, 1);
      Created(Some(rest.list), [call] + wait + rest.events, rest.failure)
  }

  /** On a settled list the create path's modifies never fail; each bumps
      the version by one and adds its chunk. */
  lemma {:induction false} CreateRestOutcome(env: Env, l: PrefixList, chunks: seq<seq<string>>, i: nat)
    requires l.lag == 0 && i <= |chunks|
    ensures var p := CreateRest(env, l, chunks, i);
            && p.failure == None
            && p.list.lag == 0
            && p.list.id == l.id && p.list.name == l.name && p.list.family == l.family
            && p.list.maxEntries == l.maxEntries
            && p.list.version == l.version + (|chunks| - i)
            && p.list.entries == l.entries + Elems(Flatten(chunks[i..]))
    decreases |chunks| - i
  {
    if i == |chunks| {
      assert chunks[i..] == [];
      assert Elems<string>([]) == {};
    } else {
      var step := SendModify(env, l, chunks[i], []);
      CreateRestOutcome(env, step.list, chunks, i + 1);
      FlattenCons(chunks[i..]);
      assert chunks[i..][1..] == chunks[i + 1..];
      var tail := Flatten(chunks[i + 1..]);
      assert Flatten(chunks[i..]) == chunks[i] + tail;
      ElemsAppend(chunks[i], tail);
      assert Elems<string>([]) == {};
    }
  }

  /** The modifies the create path owes for chunks `i` onwards, starting at
      version `version`: one per chunk, each carrying the chunk as additions
      and the next version. */
  function AddModifies(id: string, version: int, chunks: seq<seq<string>>, i: nat): seq<Event>
    decreases |chunks| - i
  {
    if i >= |chunks| then []
    else [ModifyCall(id, version, chunks[i], [])] + AddModifies(id, version + 1, chunks, i + 1)
  }

  /** One modify per chunk from `i` on; the `m`-th carries chunk `i + m`
      and version `version + m`. */
  lemma {:induction false} AddModifiesAt(id: string, version: int, chunks: seq<seq<string>>, i: nat)
    ensures var r := AddModifies(id, version, chunks, i);
            && (|r| == |chunks| - i || (i > |chunks| && r == []))
            && forall m | 0 <= m < |r| :: r[m] == ModifyCall(id, version + m, chunks[i + m], [])
    decreases |chunks| - i
  {
    if i < |chunks| {
      AddModifiesAt(id, version + 1, chunks, i + 1);
      var r := AddModifies(id, version, chunks, i);
      var tail := AddModifies(id, version + 1, chunks, i + 1);
      assert r == [ModifyCall(id, version, chunks[i], [])] + tail;
      forall m | 1 <= m < |r|
        ensures r[m] == ModifyCall(id, version + m, chunks[i + m], [])
      {
        assert r[m] == tail[m - 1];
      }
    }
  }

  /** The create path's modify loop keeps the protocol: every modify
      directly after a describe whose version it sends, each followed by a
      wait, each within the entry cap. */
  lemma {:induction false} CreateRestProtocol(env: Env, l: PrefixList, chunks: seq<seq<string>>, i: nat)
    requires l.lag == 0
    requires forall c | c in chunks :: |c| <= MaxEntriesPerRequest
    ensures KeepsProtocol(CreateRest(env, l, chunks, i).events)
    decreases |chunks| - i
  {
    if i < |chunks| {
      var step := SendModify(env, l, chunks[i], []);
      assert chunks[i] in chunks;
      SendModifyTrace(env, l, chunks[i], []);
      var rest := CreateRest(env, step.list, chunks, i + 1);
      assert CreateRest(env, l, chunks, i).events == step.events + rest.events;
      CreateRestProtocol(env, step.list, chunks, i + 1);
      KeepsProtocolAppend(step.events, rest.events);
    } else {
      assert CreateRest(env, l, chunks, i).events == [];
      assert Gated([], None) && Pending([], None) == None;
    }
  }

  /** The create path's mutations from chunk `i` on: the `m`-th carries
      version `version + m` and chunk `i + m` as additions. */
  lemma {:induction false} CreateRestMutations(env: Env, l: PrefixList, chunks: seq<seq<string>>, i: nat)
    requires l.lag == 0
    requires forall c | c in chunks :: |c| <= MaxEntriesPerRequest
    ensures Mutations(CreateRest(env, l, chunks, i).events) == AddModifies(l.id, l.version, chunks, i)
    decreases |chunks| - i
  {
    if i < |chunks| {
      var step := SendModify(env, l, chunks[i], []);
      assert Mutations(step.events) == [ModifyCall(l.id, l.version, chunks[i], [])] by {
        assert chunks[i] in chunks;
        SendModifyTrace(env, l, chunks[i], []);
      }
      var rest := CreateRest(env, step.list, chunks, i + 1);
      assert CreateRest(env, l, chunks, i).events == step.events + rest.events;
      CreateRestMutations(env, step.list, chunks, i + 1);
      MutationsAppend(step.events, rest.events);
    } else {
      assert CreateRest(env, l, chunks, i).events == [];
    }
  }

  /** The create workflow's outcome. Nothing fails; with no entries nothing
      is called and no list exists; otherwise the list holds exactly the
      desired entries, its capacity is their number, and its version counts
      the requests. */
  lemma CreateOutcome(env: Env, name: string, family: string, ips: seq<string>)
    ensures var o := CreateList(env, name, family, ips);
            && o.failure == None
            && (|ips| == 0 <==> o.list.None?)
            && (|ips| == 0 ==> o.events == [])
    ensures var o := CreateList(env, name, family, ips);
            o.list.Some? ==>
              var l := o.list.value;
              && l.id == env.newId(name) && l.name == name && l.family == family
              && l.maxEntries == |ips| && l.lag == 0
              && l.version == NumRequests(|ips|)
              && l.entries == Elems(ips)
  {
    var chunks := CreateChunks(ips);
    if |chunks| > 0 {
      var l0 := NewList(env, name, family, |ips|, chunks[0]);
      var (l1, wait) := WaitReady(l0);
      CreateRestOutcome(env, l1, chunks, 1);
      ChunksReassemble(ips);
      FlattenCons(chunks);
      assert chunks[0] + Flatten(chunks[1..]) == ips;
      ElemsAppend(chunks[0], Flatten(chunks[1..]));
    }
  }

  /** The create workflow's calls keep the protocol, and its mutations are
      one create carrying chunk 0 with capacity for all entries, followed by
      one modify per further chunk, each sending the version read just
      before it. */
  lemma CreateTrace(env: Env, name: string, family: string, ips: seq<string>)
    ensures var o := CreateList(env, name, family, ips);
            && KeepsProtocol(o.events)
            && (o.list.Some? ==>
                  Mutations(o.events) ==
                    [CreateCall(name, family, |ips|, CreateChunks(ips)[0], o.list.value.id)] +
                    AddModifies(o.list.value.id, 1, CreateChunks(ips), 1))
  {
    var chunks := CreateChunks(ips);
    if |chunks| > 0 {
      var l0 := NewList(env, name, family, |ips|, chunks[0]);
      var call := CreateCall(name, family, |ips|, chunks[0], l0.id);
      var (l1, wait) := WaitReady(l0);
      WaitTrace(l0);
      CreateRestOutcome(env, l1, chunks, 1);
      CreateRestProtocol(env, l1, chunks, 1);
      CreateRestMutations(env, l1, chunks, 1);
      var rest := CreateRest(env, l1, chunks, 1).events;
      CreateRound(call, wait, rest);
    }
  }

  /** 250 entries: one create carrying the first 100 with capacity 250, then
      two modifies carrying the next 100 and the last 50, at versions 1 and
      2. */
  lemma CreateTwoHundredFifty(env: Env, name: string, family: string, ips: seq<string>)
    requires |ips| == 250
    ensures var o := CreateList(env, name, family, ips);
            && o.list.Some?
            && Mutations(o.events) ==
                 [CreateCall(name, family, 250, ips[..100], o.list.value.id),
                  ModifyCall(o.list.value.id, 1, ips[100..200], []),
                  ModifyCall(o.list.value.id, 2, ips[200..], [])]
  {
    CreateOutcome(env, name, family, ips);
    CreateTrace(env, name, family, ips);
    TwoHundredFiftyEntries(ips);
    var chunks := CreateChunks(ips);
    var id := CreateList(env, name, family, ips).list.value.id;
    assert AddModifies(id, 3, chunks, 3) == [];
    assert AddModifies(id, 2, chunks, 2) == [ModifyCall(id, 2, chunks[2], [])];
    assert AddModifies(id, 1, chunks, 1) == [ModifyCall(id, 1, chunks[1], []), ModifyCall(id, 2, chunks[2], [])];
  }
}
