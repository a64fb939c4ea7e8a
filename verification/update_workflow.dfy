/** `updatePrefixList` as a whole (lines 162-249): find the list by name in
    the one describe of all lists, read its version and entries, diff them
    against the desired entries, and run the windowed modify loop. */
module UpdateWorkflow {
  import opened Common
  import opened Batching
  import opened DiffEngine
  import opened PrefixListApi
  import opened Protocol
  import opened Session
  import opened UpdateFlow

  /** Lines 173-178: the position of the first list carrying `name`. */
  function FirstNamed(account: seq<PrefixList>, name: string): (r: Option<nat>)
    ensures r.Some? ==> r.value < |account| && account[r.value].name == name
    ensures r.Some? ==> forall k | 0 <= k < r.value :: account[k].name != name
    ensures r.None? <==> forall k | 0 <= k < |account| :: account[k].name != name
  {
    if |account| == 0 then None
    else if account[0].name == name then Some(0)
    else
      match FirstNamed(account[1..], name)
      case None => None
      case Some(k) => Some(k + 1)
  }

  /** Whether the search at lines 172-182 succeeds: some list carries the
      name, and the first one that does has a non-empty id. */
  predicate Found(account: seq<PrefixList>, name: string)
  {
    var k := FirstNamed(account, name);
    k.Some? && account[k.value].id != ""
  }

  /** The list the search picks. */
  function Target(account: seq<PrefixList>, name: string): PrefixList
    requires Found(account, name)
  {
    account[FirstNamed(account, name).value]
  }

  /** The diff the update computes for the list it found. */
  ghost function TargetDiff(account: seq<PrefixList>, name: string, ips: seq<string>): Diff
    requires Found(account, name)
  {
    ComputeDiff(ips, Target(account, name).entries)
  }

  /** What an update leaves: the account's lists, the calls made, and the
      failure that stopped it, if any. */
  datatype Updated = Updated(account: seq<PrefixList>, events: seq<Event>, failure: Option<Failure>)

  /** `updatePrefixList(name, ips)` against an account holding `account`.
      Calls: the describe of all lists (line 167), the version read (line
      185), the entries read (line 192), then the modify loop. */
  ghost function UpdateList(env: Env, account: seq<PrefixList>, name: string, ips: seq<string>, mode: SliceMode): Updated
  {
    var found := FirstNamed(account, name);
    if found.None? || account[found.value].id == "" then
      Updated(account, [DescribeAll], Some(ListNotFound(name)))
    else
      var k := found.value;
      var l := account[k];
      var d := ComputeDiff(ips, l.entries);
      var p := UpdateLoop(env, l, d.add, d.remove, 0, mode);
      Updated(account[k := p.list], [DescribeAll, LookUp(l), GetEntries(l.id)] + p.events, p.failure)
  }

  /** The reads before the modify loop mutate nothing. */
  lemma ReadsAreQuiet(l: PrefixList)
    ensures KeepsProtocol([DescribeAll, LookUp(l), GetEntries(l.id)])
    ensures Mutations([DescribeAll, LookUp(l), GetEntries(l.id)]) == []
  {
    var head := [DescribeAll, LookUp(l), GetEntries(l.id)];
    assert forall i | 0 <= i < |head| :: !IsMutation(head[i]);
    QuietKeepsProtocol(head);
  }

  /** The update fails as not found exactly when no list carries the name
      or the first that does has an empty id; then only the describe of all
      lists was made and nothing changed. */
  lemma UpdateNotFound(env: Env, account: seq<PrefixList>, name: string, ips: seq<string>, mode: SliceMode)
    ensures var u := UpdateList(env, account, name, ips, mode);
            u.failure == Some(ListNotFound(name)) <==> !Found(account, name)
    ensures var u := UpdateList(env, account, name, ips, mode);
            !Found(account, name) ==> u.account == account && u.events == [DescribeAll] && KeepsProtocol(u.events)
  {
    if Found(account, name) {
      var l := Target(account, name);
      var d := ComputeDiff(ips, l.entries);
      UpdateLoopFailures(env, l, d.add, d.remove, 0, mode);
    } else {
      QuietKeepsProtocol([DescribeAll]);
    }
  }

  /** Moving to a list with the same name keeps the search's answer. */
  lemma FirstNamedReplace(account: seq<PrefixList>, name: string, l: PrefixList)
    requires FirstNamed(account, name).Some? && l.name == name
    ensures FirstNamed(account[FirstNamed(account, name).value := l], name) == FirstNamed(account, name)
  {
    var k := FirstNamed(account, name).value;
    var after := account[k := l];
    var r := FirstNamed(after, name);
    assert after[k].name == name;
    assert forall j | 0 <= j < k :: after[j].name != name;
  }

  /** Replacing a list that does not carry the name with another that does
      not either keeps the search's answer. */
  lemma FirstNamedOther(account: seq<PrefixList>, name: string, k: nat, l: PrefixList)
    requires k < |account| && account[k].name != name && l.name != name
    ensures FirstNamed(account[k := l], name) == FirstNamed(account, name)
  {
    var after := account[k := l];
    assert forall j | 0 <= j < |account| :: (after[j].name == name <==> account[j].name == name);
    var r, r' := FirstNamed(account, name), FirstNamed(after, name);
    if r.Some? && r'.Some? {
      assert !(r.value < r'.value) && !(r'.value < r.value);
    }
  }

  /** An update ends in one of four ways: it runs to the end, it finds no
      list, a slice panics, or the remote refuses a modify on a list still
      settling. */
  lemma UpdateFailures(env: Env, account: seq<PrefixList>, name: string, ips: seq<string>, mode: SliceMode)
    ensures UpdateList(env, account, name, ips, mode).failure in
              {None, Some(ListNotFound(name)), Some(SliceOutOfRange), Some(ListBusy)}
  {
    if Found(account, name) {
      var l := Target(account, name);
      var d := ComputeDiff(ips, l.entries);
      UpdateLoopFailures(env, l, d.add, d.remove, 0, mode);
    }
  }

  /** On a settled list with a duplicate-free desired list, the update
      fails only on a slice that panics, and that happens exactly when Go
      slicing is in force and the two sides of the diff need windows the
      shorter side does not reach. Only the found list can change. */
  lemma UpdateOutcome(env: Env, account: seq<PrefixList>, name: string, ips: seq<string>, mode: SliceMode)
    requires NoDups(ips) && Found(account, name) && Target(account, name).lag == 0
    ensures var l := Target(account, name);
            var u := UpdateList(env, account, name, ips, mode);
            && (u.failure == None <==>
                  mode == Clamped || SlicesInRange(|Elems(ips) - l.entries|, |l.entries - Elems(ips)|))
            && (u.failure != None ==> u.failure == Some(SliceOutOfRange))
            && |u.account| == |account|
            && forall j | 0 <= j < |account| && j != FirstNamed(account, name).value :: u.account[j] == account[j]
  {
    var l := Target(account, name);
    var d := ComputeDiff(ips, l.entries);
    DiffSizes(ips, l.entries);
    UpdateLoopOutcome(env, l, d.add, d.remove, 0, mode);
    assert SlicesInRangeFrom(|d.add|, |d.remove|, 0) == SlicesInRange(|d.add|, |d.remove|);
  }

  /** When the update runs to the end — always under clamped slicing, and
      under Go slicing when the windows stay in range — the found list
      holds exactly the desired entries, is settled, keeps its identity and
      capacity, and has gone up one version per window. */
  lemma UpdateReachesDesired(env: Env, account: seq<PrefixList>, name: string, ips: seq<string>, mode: SliceMode)
    requires NoDups(ips) && Found(account, name) && Target(account, name).lag == 0
    requires var l := Target(account, name);
             mode == Clamped || SlicesInRange(|Elems(ips) - l.entries|, |l.entries - Elems(ips)|)
    ensures var k := FirstNamed(account, name).value;
            var l := Target(account, name);
            var u := UpdateList(env, account, name, ips, mode);
            && u.failure == None
            && |u.account| == |account|
            && u.account[k].entries == Elems(ips)
            && u.account[k].lag == 0
            && u.account[k].id == l.id && u.account[k].name == l.name && u.account[k].family == l.family
            && u.account[k].maxEntries == l.maxEntries
            && u.account[k].version == l.version + NumWindows(|Elems(ips) - l.entries|, |l.entries - Elems(ips)|)
  {
    var l := Target(account, name);
    var d := ComputeDiff(ips, l.entries);
    UpdateOutcome(env, account, name, ips, mode);
    DiffSizes(ips, l.entries);
    DiffCorrect(ips, l.entries);
    UpdateLoopOutcome(env, l, d.add, d.remove, 0, mode);
    assert 0 * MaxEntriesPerRequest == 0;
    UpdateLoopEntries(env, l, d.add, d.remove, 0, mode);
  }

  /** On a settled list the update's calls keep the protocol, whether it
      runs to the end or panics; when it runs to the end its mutations are
      the owed modifies, one per window, starting at the version read. */
  lemma UpdateTrace(env: Env, account: seq<PrefixList>, name: string, ips: seq<string>, mode: SliceMode)
    requires Found(account, name) && Target(account, name).lag == 0
    ensures KeepsProtocol(UpdateList(env, account, name, ips, mode).events)
    ensures var l := Target(account, name);
            var d := TargetDiff(account, name, ips);
            var u := UpdateList(env, account, name, ips, mode);
            u.failure == None ==> Mutations(u.events) == PairModifies(l.id, l.version, d.add, d.remove, 0)
  {
    var l := Target(account, name);
    var d := ComputeDiff(ips, l.entries);
    var head := [DescribeAll, LookUp(l), GetEntries(l.id)];
    var p := UpdateLoop(env, l, d.add, d.remove, 0, mode);
    assert UpdateList(env, account, name, ips, mode).events == head + p.events;
    ReadsAreQuiet(l);
    UpdateLoopProtocol(env, l, d.add, d.remove, 0, mode);
    KeepsProtocolAppend(head, p.events);
    UpdateLoopMutations(env, l, d.add, d.remove, 0, mode);
    MutationsAppend(head, p.events);
  }

  /** As written, with Go slicing: 50 entries to add and 150 to remove
      panic at the second window, whose add slice starts at 100. */
  lemma UpdatePanicsOnUnevenDiff(env: Env, account: seq<PrefixList>, name: string, ips: seq<string>)
    requires NoDups(ips) && Found(account, name) && Target(account, name).lag == 0
    requires |Elems(ips) - Target(account, name).entries| == 50
    requires |Target(account, name).entries - Elems(ips)| == 150
    ensures UpdateList(env, account, name, ips, GoSlice).failure == Some(SliceOutOfRange)
  {
    UpdateOutcome(env, account, name, ips, GoSlice);
    UnevenSidesExample();
  }

  /** A list still settling when the update starts, with a real difference
      to send, is refused at the first modify and left untouched. */
  lemma UpdateBusyWhenUnsettled(env: Env, account: seq<PrefixList>, name: string, ips: seq<string>, mode: SliceMode)
    requires NoDups(ips) && Found(account, name)
    requires Target(account, name).lag > 0 && Elems(ips) != Target(account, name).entries
    ensures var u := UpdateList(env, account, name, ips, mode);
            u.failure == Some(ListBusy) && u.account == account
  {
    var l := Target(account, name);
    var d := ComputeDiff(ips, l.entries);
    DiffNonEmpty(ips, l.entries);
    UpdateLoopBusy(env, l, d.add, d.remove, mode);
  }

  /** A list that already holds exactly the desired entries gets no
      modify: the update only reads, whatever the list's state. */
  lemma UpdateInSync(env: Env, account: seq<PrefixList>, name: string, ips: seq<string>, mode: SliceMode)
    requires NoDups(ips) && Found(account, name) && Elems(ips) == Target(account, name).entries
    ensures var l := Target(account, name);
            UpdateList(env, account, name, ips, mode) ==
              Updated(account, [DescribeAll, LookUp(l), GetEntries(l.id)], None)
  {
    var l := Target(account, name);
    InSyncDiffIsEmpty(ips, l.entries);
    LoopRunsIff(0, 0, 0);
    assert UpdateLoop(env, l, [], [], 0, mode) == Progress(l, [], None);
    assert [DescribeAll, LookUp(l), GetEntries(l.id)] + [] == [DescribeAll, LookUp(l), GetEntries(l.id)];
  }

  /** After an update of a settled list the search still picks the same
      position, and finds the list the update left there. */
  lemma UpdateKeepsTarget(env: Env, account: seq<PrefixList>, name: string, ips: seq<string>, mode: SliceMode)
    requires Found(account, name) && Target(account, name).lag == 0
    ensures var u := UpdateList(env, account, name, ips, mode);
            && FirstNamed(u.account, name) == FirstNamed(account, name)
            && Found(u.account, name)
            && Target(u.account, name).id == Target(account, name).id
  {
    var k := FirstNamed(account, name).value;
    var l := Target(account, name);
    var d := ComputeDiff(ips, l.entries);
    var p := UpdateLoop(env, l, d.add, d.remove, 0, mode);
    UpdateLoopOutcome(env, l, d.add, d.remove, 0, mode);
    assert UpdateList(env, account, name, ips, mode).account == account[k := p.list];
    FirstNamedReplace(account, name, p.list);
  }

  /** Updating twice with the same entries: the second run finds the list
      in sync, makes no mutation and changes nothing. */
  lemma UpdateTwiceIsQuiet(env: Env, account: seq<PrefixList>, name: string, ips: seq<string>, mode: SliceMode)
    requires NoDups(ips) && Found(account, name) && Target(account, name).lag == 0
    requires var l := Target(account, name);
             mode == Clamped || SlicesInRange(|Elems(ips) - l.entries|, |l.entries - Elems(ips)|)
    ensures var u := UpdateList(env, account, name, ips, mode);
            var again := UpdateList(env, u.account, name, ips, mode);
            again.failure == None && again.account == u.account && Mutations(again.events) == []
  {
    var u := UpdateList(env, account, name, ips, mode);
    UpdateReachesDesired(env, account, name, ips, mode);
    UpdateKeepsTarget(env, account, name, ips, mode);
    UpdateInSync(env, u.account, name, ips, mode);
    ReadsAreQuiet(Target(u.account, name));
  }
}
