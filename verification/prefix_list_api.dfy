/** The remote collaborator, reduced to what the tool relies on: a managed
    prefix list with an id, a name, a version that every mutation bumps, a
    lifecycle state, and its entries; and the calls the tool makes, recorded
    as events. The remote has a single writer, this tool. */
module PrefixListApi {
  import opened Common

  /** Which mutation last touched the list. */
  datatype Phase = Creating | Modifying

  /** A managed prefix list as the remote holds it. A list holds each CIDR
      at most once, so its entries are a set. `lag` counts the five-second
      sleeps still to pass before the last mutation settles. */
  datatype PrefixList = PrefixList(
    id: string,
    name: string,
    family: string,
    maxEntries: int,
    version: int,
    entries: set<string>,
    phase: Phase,
    lag: nat)

  /** `strings.Contains(state, "-in-progress")`, the readiness test. */
  predicate InProgress(state: string)
  {
    Contains(state, "-in-progress")
  }

  /** The state the remote reports after `k` more sleeps. */
  function StateAfter(l: PrefixList, k: nat): string
  {
    (if l.phase == Creating then "create" else "modify") +
    (if k < l.lag then "-in-progress" else "-complete")
  }

  /** The reported state reads as in progress exactly while the mutation
      has not settled. */
  lemma StateAfterInProgress(l: PrefixList, k: nat)
    ensures InProgress(StateAfter(l, k)) <==> k < l.lag
  {
    if k < l.lag {
      ContainsSuffix(if l.phase == Creating then "create" else "modify", "-in-progress");
    } else if l.phase == Creating {
      assert StateAfter(l, k) == "create-complete";
      AbsentHead("create-complete", "-in-progress", 4);
    } else {
      assert StateAfter(l, k) == "modify-complete";
      AbsentHead("modify-complete", "-in-progress", 4);
    }
  }

  /** One element of a describe response. */
  datatype View = View(id: string, version: int, state: string)

  /** What a describe by id returns after `k` more sleeps. */
  function ViewAfter(l: PrefixList, k: nat): View
  {
    View(l.id, l.version, StateAfter(l, k))
  }

  /** The remote calls the tool makes, with what it sent, and for creates
      and describes by id, what came back: the id assigned to the new list,
      and the response. */
  datatype Event =
    | CreateCall(name: string, family: string, maxEntries: int, entries: seq<string>, id: string)
    | DescribeAll
    | Describe(id: string, response: seq<View>)
    | GetEntries(id: string)
    | ModifyCall(id: string, version: int, add: seq<string>, remove: seq<string>)
    | Sleep

  /** The remote's own choices: how many sleeps the mutation producing a
      given version takes to settle, and the id it assigns to a new list. */
  datatype Env = Env(settle: int -> nat, newId: string -> string)

  /** The list a successful create leaves: version 1, the given entries,
      and a creation in flight. */
  function NewList(env: Env, name: string, family: string, maxEntries: int, entries: seq<string>): PrefixList
  {
    PrefixList(env.newId(name), name, family, maxEntries, 1, Elems(entries), Creating, env.settle(1))
  }

  /** The remote side of a modify under optimistic concurrency: a call
      carrying a version other than the current one, or arriving while a
      transition is in flight, is rejected; otherwise the entries change and
      the version goes up by one. */
  function Modify(env: Env, l: PrefixList, version: int, add: seq<string>, remove: seq<string>): (r: Result<PrefixList>)
    ensures r.Ok? <==> version == l.version && l.lag == 0
    ensures r.Err? ==> r.failure == (if version != l.version then StaleVersion else ListBusy)
    ensures r.Ok? ==> && r.value.id == l.id && r.value.name == l.name && r.value.family == l.family
                      && r.value.maxEntries == l.maxEntries && r.value.version == l.version + 1
                      && r.value.entries == (l.entries - Elems(remove)) + Elems(add)
  {
    if version != l.version then Err(StaleVersion)
    else if l.lag > 0 then Err(ListBusy)
    else
      var v := l.version + 1;
      Ok(l.(version := v, entries := (l.entries - Elems(remove)) + Elems(add), phase := Modifying, lag := env.settle(v)))
  }
}
