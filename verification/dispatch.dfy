/** `main` (lines 20-54): check the flags, read the file, and run the
    chosen workflow on the `-ipv4` list and then on the `-ipv6` list. Every
    failure is fatal in the tool (`log.Fatal`), so the run stops at the
    first one. Loading the remote's configuration (lines 38-43) is not part
    of this model. */
module Dispatch {
  import opened Common
  import opened Batching
  import opened EntrySet
  import opened PrefixListApi
  import opened Protocol
  import opened CreateFlow
  import opened UpdateWorkflow

  /** The three flags (lines 21-23); `action` defaults to "create". */
  datatype Config = Config(action: string, name: string, file: string)

  /** What a run leaves: the account's lists, the calls made, and the
      failure that ended it, if any. */
  datatype Outcome = Outcome(account: seq<PrefixList>, events: seq<Event>, failure: Option<Failure>)

  /** The names of the two lists kept under one name (lines 47-52). */
  function V4Name(name: string): string
  {
    name + "-ipv4"
  }

  function V6Name(name: string): string
  {
    name + "-ipv6"
  }

  /** The two names never coincide, so the two lists are told apart. */
  lemma NamesDiffer(name: string)
    ensures V4Name(name) != V6Name(name)
  {
    assert V4Name(name)[|name| + 4] == '4' && V6Name(name)[|name| + 4] == '6';
  }

  /** The list a create workflow leaves behind, if any. */
  function Made(c: Created): seq<PrefixList>
  {
    if c.list.Some? then [c.list.value] else []
  }

  /** Lines 47-48: create the v4 list, then the v6 list. */
  function CreateBoth(env: Env, name: string, v4: seq<string>, v6: seq<string>, account: seq<PrefixList>): Outcome
  {
    var c4 := CreateList(env, V4Name(name), "IPv4", v4);
    if c4.failure.Some? then Outcome(account + Made(c4), c4.events, c4.failure)
    else
      var c6 := CreateList(env, V6Name(name), "IPv6", v6);
      Outcome(account + Made(c4) + Made(c6), c4.events + c6.events, c6.failure)
  }

  /** Lines 50-51: update the v4 list, then the v6 list. */
  ghost function UpdateBoth(env: Env, name: string, v4: seq<string>, v6: seq<string>,
                            account: seq<PrefixList>, mode: SliceMode): Outcome
  {
    var u4 := UpdateList(env, account, V4Name(name), v4, mode);
    if u4.failure.Some? then Outcome(u4.account, u4.events, u4.failure)
    else
      var u6 := UpdateList(env, u4.account, V6Name(name), v6, mode);
      Outcome(u6.account, u4.events + u6.events, u6.failure)
  }

  /** `main`. `input` is the file's lines, or None when opening or scanning
      it fails (lines 58-61 and 86-88). */
  ghost function Run(env: Env, cfg: Config, input: Option<seq<string>>, trim: string -> string,
                     parses: string -> bool, account: seq<PrefixList>, mode: SliceMode): Outcome
  {
    if cfg.name == "" || cfg.file == "" then Outcome(account, [], Some(MissingFlags))
    else if input.None? then Outcome(account, [], Some(ReadFailed))
    else
      var v4 := Listed(input.value, trim, parses, IPv4);
      var v6 := Listed(input.value, trim, parses, IPv6);
      if cfg.action == "create" then CreateBoth(env, cfg.name, v4, v6, account)
      else if cfg.action == "update" then UpdateBoth(env, cfg.name, v4, v6, account, mode)
      else Outcome(account, [], Some(UnknownAction(cfg.action)))
  }

  /** Whether the flags and the file let the run reach a workflow. */
  predicate Accepted(cfg: Config, input: Option<seq<string>>)
  {
    cfg.name != "" && cfg.file != "" && input.Some? && (cfg.action == "create" || cfg.action == "update")
  }

  /** Both creates run to the end. */
  lemma CreateBothSucceeds(env: Env, name: string, v4: seq<string>, v6: seq<string>, account: seq<PrefixList>)
    ensures CreateBoth(env, name, v4, v6, account).failure == None
  {
    CreateOutcome(env, V4Name(name), "IPv4", v4);
    CreateOutcome(env, V6Name(name), "IPv6", v6);
  }

  /** A run that updates ends in one of the ways an update can end, naming
      the list it could not find. */
  lemma UpdateBothFailures(env: Env, name: string, v4: seq<string>, v6: seq<string>,
                           account: seq<PrefixList>, mode: SliceMode)
    ensures UpdateBoth(env, name, v4, v6, account, mode).failure in
              {None, Some(ListNotFound(V4Name(name))), Some(ListNotFound(V6Name(name))),
               Some(SliceOutOfRange), Some(ListBusy)}
  {
    var u4 := UpdateList(env, account, V4Name(name), v4, mode);
    UpdateFailures(env, account, V4Name(name), v4, mode);
    UpdateFailures(env, u4.account, V6Name(name), v6, mode);
  }

  /** The checks before any remote call: an empty name or file flag, an
      unreadable file and an unknown action each end the run with no call
      made and nothing changed, and each is reported exactly when it
      applies; a run that passes them can only fail inside the update
      workflow. */
  lemma RunChecks(env: Env, cfg: Config, input: Option<seq<string>>, trim: string -> string,
                  parses: string -> bool, account: seq<PrefixList>, mode: SliceMode)
    ensures var r := Run(env, cfg, input, trim, parses, account, mode);
            r.failure == Some(MissingFlags) <==> cfg.name == "" || cfg.file == ""
    ensures var r := Run(env, cfg, input, trim, parses, account, mode);
            r.failure == Some(ReadFailed) <==> cfg.name != "" && cfg.file != "" && input.None?
    ensures var r := Run(env, cfg, input, trim, parses, account, mode);
            (r.failure.Some? && r.failure.value.UnknownAction?) <==>
              cfg.name != "" && cfg.file != "" && input.Some? && cfg.action != "create" && cfg.action != "update"
    ensures var r := Run(env, cfg, input, trim, parses, account, mode);
            !Accepted(cfg, input) ==> r.events == [] && r.account == account && r.failure.Some?
    ensures var r := Run(env, cfg, input, trim, parses, account, mode);
            Accepted(cfg, input) && r.failure.Some? ==>
              && cfg.action == "update"
              && r.failure.value in {ListNotFound(V4Name(cfg.name)), ListNotFound(V6Name(cfg.name)), SliceOutOfRange, ListBusy}
  {
    if Accepted(cfg, input) {
      var v4 := Listed(input.value, trim, parses, IPv4);
      var v6 := Listed(input.value, trim, parses, IPv6);
      if cfg.action == "create" {
        CreateBothSucceeds(env, cfg.name, v4, v6, account);
      } else {
        UpdateBothFailures(env, cfg.name, v4, v6, account, mode);
      }
    }
  }

  /** The list one create leaves for `ips`: one exactly when there are
      entries, carrying the name, the address family, capacity for all the
      entries and exactly those entries, settled. */
  lemma MadeList(env: Env, name: string, family: string, ips: seq<string>)
    ensures var made := Made(CreateList(env, name, family, ips));
            && |made| == (if |ips| > 0 then 1 else 0)
            && (|ips| > 0 ==>
                  && made[0].name == name && made[0].family == family
                  && made[0].maxEntries == |ips| && made[0].entries == Elems(ips) && made[0].lag == 0)
  {
    CreateOutcome(env, name, family, ips);
  }

  /** The lists `create` adds for the `v4` and `v6` entries: the account's
      lists stay in front; a list is added for a family exactly when it has
      entries, the v4 list first; each new list carries the family's name,
      its address family, capacity for all its entries and exactly those
      entries, and is settled. */
  lemma CreateBothOutcome(env: Env, name: string, v4: seq<string>, v6: seq<string>, account: seq<PrefixList>)
    ensures var r := CreateBoth(env, name, v4, v6, account);
            var added := r.account[|account|..];
            && |account| <= |r.account|
            && r.account[..|account|] == account
            && |added| == (if |v4| > 0 then 1 else 0) + (if |v6| > 0 then 1 else 0)
            && (|v4| > 0 ==>
                  && added[0].name == V4Name(name) && added[0].family == "IPv4"
                  && added[0].maxEntries == |v4| && added[0].entries == Elems(v4) && added[0].lag == 0)
            && (|v6| > 0 ==>
                  && added[|added| - 1].name == V6Name(name) && added[|added| - 1].family == "IPv6"
                  && added[|added| - 1].maxEntries == |v6| && added[|added| - 1].entries == Elems(v6)
                  && added[|added| - 1].lag == 0)
  {
    var m4 := Made(CreateList(env, V4Name(name), "IPv4", v4));
    var m6 := Made(CreateList(env, V6Name(name), "IPv6", v6));
    CreateBothSucceeds(env, name, v4, v6, account);
    MadeList(env, V4Name(name), "IPv4", v4);
    MadeList(env, V6Name(name), "IPv6", v6);
    var r := CreateBoth(env, name, v4, v6, account);
    assert r.account == account + (m4 + m6);
    assert r.account[|account|..] == m4 + m6;
  }

  /** The calls of both creates keep the protocol. */
  lemma CreateBothTrace(env: Env, name: string, v4: seq<string>, v6: seq<string>, account: seq<PrefixList>)
    ensures KeepsProtocol(CreateBoth(env, name, v4, v6, account).events)
  {
    var c4 := CreateList(env, V4Name(name), "IPv4", v4);
    var c6 := CreateList(env, V6Name(name), "IPv6", v6);
    CreateOutcome(env, V4Name(name), "IPv4", v4);
    CreateTrace(env, V4Name(name), "IPv4", v4);
    CreateTrace(env, V6Name(name), "IPv6", v6);
    KeepsProtocolAppend(c4.events, c6.events);
  }

  /** `create` on an accepted run never fails: it keeps the account's
      lists and adds one list per family that has entries in the file, the
      v4 list first, each holding exactly that family's entries; its calls
      keep the protocol. */
  lemma RunCreate(env: Env, cfg: Config, lines: seq<string>, trim: string -> string,
                  parses: string -> bool, account: seq<PrefixList>, mode: SliceMode)
    requires cfg.name != "" && cfg.file != "" && cfg.action == "create"
    ensures var r := Run(env, cfg, Some(lines), trim, parses, account, mode);
            var v4 := Listed(lines, trim, parses, IPv4);
            var v6 := Listed(lines, trim, parses, IPv6);
            && r.failure == None
            && |r.account| == |account| + (if |v4| > 0 then 1 else 0) + (if |v6| > 0 then 1 else 0)
            && r.account[..|account|] == account
            && (|v4| > 0 ==> r.account[|account|].name == V4Name(cfg.name) && r.account[|account|].entries == Elems(v4))
            && (|v6| > 0 ==> r.account[|r.account| - 1].name == V6Name(cfg.name) && r.account[|r.account| - 1].entries == Elems(v6))
            && KeepsProtocol(r.events)
  {
    var v4 := Listed(lines, trim, parses, IPv4);
    var v6 := Listed(lines, trim, parses, IPv6);
    CreateBothSucceeds(env, cfg.name, v4, v6, account);
    CreateBothOutcome(env, cfg.name, v4, v6, account);
    CreateBothTrace(env, cfg.name, v4, v6, account);
  }

  /** `update` stops at a missing v4 list: the v6 list is never looked
      for. */
  lemma UpdateBothStopsAtV4(env: Env, name: string, v4: seq<string>, v6: seq<string>,
                            account: seq<PrefixList>, mode: SliceMode)
    requires !Found(account, V4Name(name))
    ensures UpdateBoth(env, name, v4, v6, account, mode) ==
              Outcome(account, [DescribeAll], Some(ListNotFound(V4Name(name))))
  {
    UpdateNotFound(env, account, V4Name(name), v4, mode);
  }

  /** Whether both lists' windows can be sliced: always under clamped
      slicing, and under Go slicing when each list's diff, taken against
      the account as it is before the run, stays in range. */
  predicate BothInRange(account: seq<PrefixList>, name: string, v4: seq<string>, v6: seq<string>, mode: SliceMode)
    requires Found(account, V4Name(name)) && Found(account, V6Name(name))
  {
    var t4 := Target(account, V4Name(name));
    var t6 := Target(account, V6Name(name));
    || mode == Clamped
    || (&& SlicesInRange(|Elems(v4) - t4.entries|, |t4.entries - Elems(v4)|)
        && SlicesInRange(|Elems(v6) - t6.entries|, |t6.entries - Elems(v6)|))
  }

  /** `update` on an account holding both lists settled, when the windows
      can be sliced: the run does not fail, the account keeps its length,
      the two lists found hold exactly the file's v4 and v6 entries and are
      settled, every other list is untouched, and the calls keep the
      protocol. */
  lemma UpdateBothReachesDesired(env: Env, name: string, v4: seq<string>, v6: seq<string>,
                                 account: seq<PrefixList>, mode: SliceMode)
    requires NoDups(v4) && NoDups(v6)
    requires Found(account, V4Name(name)) && Target(account, V4Name(name)).lag == 0
    requires Found(account, V6Name(name)) && Target(account, V6Name(name)).lag == 0
    requires BothInRange(account, name, v4, v6, mode)
    ensures var r := UpdateBoth(env, name, v4, v6, account, mode);
            var k4 := FirstNamed(account, V4Name(name)).value;
            var k6 := FirstNamed(account, V6Name(name)).value;
            && r.failure == None
            && |r.account| == |account|
            && r.account[k4].entries == Elems(v4) && r.account[k4].lag == 0
            && r.account[k6].entries == Elems(v6) && r.account[k6].lag == 0
            && (forall j | 0 <= j < |account| && j != k4 && j != k6 :: r.account[j] == account[j])
            && KeepsProtocol(r.events)
  {
    var n4, n6 := V4Name(name), V6Name(name);
    NamesDiffer(name);
    var k4 := FirstNamed(account, n4).value;
    var k6 := FirstNamed(account, n6).value;
    var u4 := UpdateList(env, account, n4, v4, mode);
    UpdateReachesDesired(env, account, n4, v4, mode);
    UpdateOutcome(env, account, n4, v4, mode);
    UpdateTrace(env, account, n4, v4, mode);
    assert u4.account[k6] == account[k6];
    FirstNamedOther(account, n6, k4, u4.account[k4]);
    assert Target(u4.account, n6) == Target(account, n6);
    var u6 := UpdateList(env, u4.account, n6, v6, mode);
    UpdateReachesDesired(env, u4.account, n6, v6, mode);
    UpdateOutcome(env, u4.account, n6, v6, mode);
    UpdateTrace(env, u4.account, n6, v6, mode);
    KeepsProtocolAppend(u4.events, u6.events);
  }

  /** `update` on an accepted run with both lists present and settled, when
      the windows can be sliced: the file's entries reach both lists. */
  lemma RunUpdate(env: Env, cfg: Config, lines: seq<string>, trim: string -> string,
                  parses: string -> bool, account: seq<PrefixList>, mode: SliceMode)
    requires cfg.name != "" && cfg.file != "" && cfg.action == "update"
    requires Found(account, V4Name(cfg.name)) && Target(account, V4Name(cfg.name)).lag == 0
    requires Found(account, V6Name(cfg.name)) && Target(account, V6Name(cfg.name)).lag == 0
    requires BothInRange(account, cfg.name, Listed(lines, trim, parses, IPv4), Listed(lines, trim, parses, IPv6), mode)
    ensures var r := Run(env, cfg, Some(lines), trim, parses, account, mode);
            var k4 := FirstNamed(account, V4Name(cfg.name)).value;
            var k6 := FirstNamed(account, V6Name(cfg.name)).value;
            && r.failure == None
            && |r.account| == |account|
            && r.account[k4].entries == Elems(Listed(lines, trim, parses, IPv4))
            && r.account[k6].entries == Elems(Listed(lines, trim, parses, IPv6))
            && KeepsProtocol(r.events)
  {
    var v4 := Listed(lines, trim, parses, IPv4);
    var v6 := Listed(lines, trim, parses, IPv6);
    ListedFirstSeen(lines, trim, parses, IPv4);
    ListedFirstSeen(lines, trim, parses, IPv6);
    UpdateBothReachesDesired(env, cfg.name, v4, v6, account, mode);
  }
}
