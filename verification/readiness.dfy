/** The readiness poller (`waitForPrefixListReady`): describe the list,
    stop once its state is no longer in progress, otherwise sleep five
    seconds and describe again. There is no bound on the number of rounds. */
module Readiness {
  import opened Common
  import opened PrefixListApi

  /** Whether the loop leaves after this describe response. The state of the
      first element is read (line 271) before the length test (line 275), so
      an empty response ends the loop with an index panic rather than being
      caught by that test. */
  predicate Stops(response: seq<View>)
  {
    |response| == 0 || !InProgress(response[0].state)
  }

  /** The calls one wait made, and whether it ended in the index panic. */
  datatype Polled = Polled(events: seq<Event>, panicked: bool)

  /** The wait loop from the `k`-th describe on; `respond(k)` is the
      remote's answer to the `k`-th describe. The loop itself has no bound:
      it ends only because `bound` is a describe at which it stops. */
  function Poll(id: string, respond: nat -> seq<View>, k: nat, bound: nat): Polled
    requires k <= bound && Stops(respond(bound))
    decreases bound - k
  {
    var response := respond(k);
    if |response| == 0 then Polled([Describe(id, response)], true)
    else if !InProgress(response[0].state) then Polled([Describe(id, response)], false)
    else
      var rest := Poll(id, respond, k + 1, bound);
      Polled([Describe(id, response), Sleep] + rest.events, rest.panicked)
  }

  /** A wait makes at least one call; it only describes the list and
      sleeps; when it returns normally its last describe saw the list out of
      progress, and when it panics its last describe came back empty. */
  lemma {:induction false} PollEvents(id: string, respond: nat -> seq<View>, k: nat, bound: nat)
    requires k <= bound && Stops(respond(bound))
    ensures var p := Poll(id, respond, k, bound);
            && |p.events| > 0
            && (forall i | 0 <= i < |p.events| :: p.events[i] == Sleep || (p.events[i].Describe? && p.events[i].id == id))
            && (!p.panicked ==> var last := p.events[|p.events| - 1];
                                last.Describe? && |last.response| > 0 && !InProgress(last.response[0].state))
            && (p.panicked ==> p.events[|p.events| - 1] == Describe(id, []))
    decreases bound - k
  {
    if |respond(k)| > 0 && InProgress(respond(k)[0].state) {
      PollEvents(id, respond, k + 1, bound);
      var rest := Poll(id, respond, k + 1, bound);
      var p := Poll(id, respond, k, bound);
      assert p.events == [Describe(id, respond(k)), Sleep] + rest.events;
      assert p.events[|p.events| - 1] == rest.events[|rest.events| - 1];
    }
  }

  /** The first describe at or after `k` at which the loop stops. */
  function FirstStop(respond: nat -> seq<View>, k: nat, bound: nat): (j: nat)
    requires k <= bound && Stops(respond(bound))
    ensures k <= j <= bound && Stops(respond(j))
    ensures forall m | k <= m < j :: !Stops(respond(m))
    decreases bound - k
  {
    if Stops(respond(k)) then k else FirstStop(respond, k + 1, bound)
  }

  /** The number of describes by id in a trace. */
  function Describes(t: seq<Event>): nat
  {
    if |t| == 0 then 0 else (if t[0].Describe? then 1 else 0) + Describes(t[1..])
  }

  /** The number of sleeps in a trace. */
  function Sleeps(t: seq<Event>): nat
  {
    if |t| == 0 then 0 else (if t[0] == Sleep then 1 else 0) + Sleeps(t[1..])
  }

  /** A wait that stops at describe `j` made `j - k + 1` describes and
      `j - k` sleeps and nothing else, and it panicked exactly when the
      stopping response was empty. */
  lemma {:induction false} PollLength(id: string, respond: nat -> seq<View>, k: nat, bound: nat)
    requires k <= bound && Stops(respond(bound))
    ensures var p := Poll(id, respond, k, bound);
            var j := FirstStop(respond, k, bound);
            && |p.events| == 2 * (j - k) + 1
            && Describes(p.events) == j - k + 1
            && Sleeps(p.events) == j - k
    ensures Poll(id, respond, k, bound).panicked <==> |respond(FirstStop(respond, k, bound))| == 0
    decreases bound - k
  {
    var p := Poll(id, respond, k, bound);
    if !Stops(respond(k)) {
      PollLength(id, respond, k + 1, bound);
      var rest := Poll(id, respond, k + 1, bound);
      assert p.events[1..][1..] == rest.events;
    } else {
      assert p.events[1..] == [];
    }
  }

  /** The calls of a wait alternate: the `m`-th describe carries the
      `(k + m)`-th response and a sleep follows every describe but the last. */
  lemma {:induction false} PollAlternates(id: string, respond: nat -> seq<View>, k: nat, bound: nat)
    requires k <= bound && Stops(respond(bound))
    ensures var p := Poll(id, respond, k, bound);
            forall m | 0 <= 2 * m < |p.events| :: p.events[2 * m] == Describe(id, respond(k + m))
    ensures var p := Poll(id, respond, k, bound);
            forall m | 0 <= 2 * m + 1 < |p.events| :: p.events[2 * m + 1] == Sleep
    decreases bound - k
  {
    if !Stops(respond(k)) {
      PollAlternates(id, respond, k + 1, bound);
      var p := Poll(id, respond, k, bound);
      var rest := Poll(id, respond, k + 1, bound);
      assert p.events == [Describe(id, respond(k)), Sleep] + rest.events;
      forall m | 1 <= m && 2 * m < |p.events|
        ensures p.events[2 * m] == Describe(id, respond(k + m))
      {
        assert p.events[2 * m] == rest.events[2 * (m - 1)];
      }
      forall m | 1 <= m && 2 * m + 1 < |p.events|
        ensures p.events[2 * m + 1] == Sleep
      {
        assert p.events[2 * m + 1] == rest.events[2 * (m - 1) + 1];
      }
    }
  }

  /** An empty describe response panics on the first describe: the length
      test at line 275 never gets to guard the read at line 271. */
  lemma EmptyResponsePanics(id: string, respond: nat -> seq<View>, k: nat, bound: nat)
    requires k <= bound && Stops(respond(bound))
    requires respond(k) == []
    ensures Poll(id, respond, k, bound) == Polled([Describe(id, [])], true)
  {
  }

  /** Two in-progress states and then a complete one: three describes, two
      sleeps, and the wait returns normally. */
  lemma ScriptedWait(id: string)
    ensures !InProgress("create-complete")
    ensures var script := ["create-in-progress", "create-in-progress", "create-complete"];
            var respond := (k: nat) => if k < 3 then [View(id, 1, script[k])] else [];
            var p := Poll(id, respond, 0, 2);
            && !p.panicked
            && p.events == [Describe(id, [View(id, 1, script[0])]), Sleep,
                            Describe(id, [View(id, 1, script[1])]), Sleep,
                            Describe(id, [View(id, 1, script[2])])]
  {
    var script := ["create-in-progress", "create-in-progress", "create-complete"];
    var respond := (k: nat) => if k < 3 then [View(id, 1, script[k])] else [];
    ContainsSuffix("create", "-in-progress");
    assert "create" + "-in-progress" == script[0];
    AbsentHead("create-complete", "-in-progress", 4);
    assert respond(2)[0].state == "create-complete";
    assert Poll(id, respond, 2, 2) == Polled([Describe(id, respond(2))], false);
  }
}
