/**
 * The instrumenter service (cmd/cainstsvc.js): the registry backends fill through
 * registerModule and registerMetric, the catalog advertised from it (insGetModules), the
 * enable and disable commands over the table of active instrumentations, and the tick
 * that reports their values once a second.
 *
 * Commands arrive as values; replies and data messages are appended to an output log.
 * The backends' asynchronous instrument / deinstrument completions are pending steps
 * that a separate method completes, with success or failure as its input.
 */
module Instrumenter {
  import opened Wrappers
  import opened KstatEngine

  // ---------------------------------------------------------------------------
  // Registry
  // ---------------------------------------------------------------------------

  /** One implementation of a stat: label, unit type, fields, and the backend providing it. */
  datatype Impl = Impl(title: string, mtype: string, fields: seq<FieldSpec>, backend: nat)

  /** A registered module: its label and its stats (in registration order) with their implementations. */
  datatype Module = Module(title: string, statNames: seq<string>, stats: map<string, seq<Impl>>)

  ghost predicate WfModule(m: Module)
  {
    && Distinct(m.statNames)
    && (forall s :: s in m.stats <==> s in m.statNames)
    && (forall s :: s in m.stats ==> |m.stats[s]| > 0)
  }

  /** What a module record becomes when compared with a string: String({...}). */
  function StoredAsString(m: Module): string
  {
    "[object Object]"
  }

  /** registerModule's redeclaration test as written: the stored record against the label. */
  predicate MismatchAsWritten(stored: Module, title: string)
  {
    StoredAsString(stored) != title
  }

  /** The test as its comment describes it: the stored label against the new one. */
  predicate Mismatch(stored: Module, title: string)
  {
    stored.title != title
  }

  /**
   * As written, redeclaring a module with its own label is refused (for any label other
   * than "[object Object]"); the corrected test accepts exactly the same label.
   */
  lemma RedeclareSameLabel(stored: Module)
    ensures stored.title != "[object Object]" ==> MismatchAsWritten(stored, stored.title)
    ensures !Mismatch(stored, stored.title)
    ensures forall t :: Mismatch(stored, t) <==> t != stored.title
  {
  }

  /**
   * The kstat backend's disk module ("Disk I/O", kstat.js:21), redeclared with the same
   * label by a second backend that implements the same metrics, as the comment at
   * cainstsvc.js:92-97 describes for io.ops.
   */
  lemma DiskRedeclared()
    ensures var disk := Module("Disk I/O", [], map[]);
      MismatchAsWritten(disk, "Disk I/O") && !Mismatch(disk, "Disk I/O")
  {
  }

  /** The unit types registerMetric accepts. */
  predicate KnownType(t: string)
  {
    t == "ops" || t == "size" || t == "throughput" || t == "time" || t == "percent"
  }

  // ---------------------------------------------------------------------------
  // Advertisement (insGetModules)
  // ---------------------------------------------------------------------------

  /** What the catalog says about a field, a stat and a module. */
  datatype FieldAd = FieldAd(name: string, description: string, ftype: string)
  datatype StatAd = StatAd(name: string, description: string, stype: string, fields: seq<FieldAd>)
  datatype ModuleAd = ModuleAd(name: string, description: string, stats: seq<StatAd>)

  /** Every field declaration of the implementations, in order. */
  function Flat(impls: seq<Impl>): seq<FieldSpec>
  {
    if impls == [] then [] else Flat(impls[..|impls| - 1]) + impls[|impls| - 1].fields
  }

  function AdNames(ads: seq<FieldAd>): set<string>
  {
    set i | 0 <= i < |ads| :: ads[i].name
  }

  lemma AdNamesSnoc(ads: seq<FieldAd>, a: FieldAd)
    ensures AdNames(ads + [a]) == AdNames(ads) + {a.name}
  {
    var r := ads + [a];
    forall x | x in AdNames(r) ensures x in AdNames(ads) + {a.name} {
      var i :| 0 <= i < |r| && r[i].name == x;
      if i < |ads| {
        assert ads[i].name == x;
      }
    }
    forall x | x in AdNames(ads) ensures x in AdNames(r) {
      var i :| 0 <= i < |ads| && ads[i].name == x;
      assert r[i].name == x;
    }
    assert r[|ads|].name == a.name;
  }

  function AdOf(f: FieldSpec): FieldAd
  {
    FieldAd(f.name, f.title, f.ftype)
  }

  /** The donefields rule: each field name once, from its first declaration. */
  function FirstByName(fs: seq<FieldSpec>): seq<FieldAd>
  {
    if fs == [] then []
    else
      var init := FirstByName(fs[..|fs| - 1]);
      var f := fs[|fs| - 1];
      if f.name in AdNames(init) then init else init + [AdOf(f)]
  }

  /**
   * The advertised fields are one per declared name, each taken from the first
   * declaration of that name.
   */
  lemma {:induction false} FirstByNameFacts(fs: seq<FieldSpec>)
    ensures var ads := FirstByName(fs);
      && (forall i, j :: 0 <= i < j < |ads| ==> ads[i].name != ads[j].name)
      && (forall i :: 0 <= i < |fs| ==> fs[i].name in AdNames(ads))
      && (forall p :: 0 <= p < |ads| ==> exists i :: 0 <= i < |fs| && ads[p] == AdOf(fs[i]) &&
                                                   forall j :: 0 <= j < i ==> fs[j].name != fs[i].name)
  {
    if fs != [] {
      var init := fs[..|fs| - 1];
      FirstByNameFacts(init);
      var prev := FirstByName(init);
      var ads := FirstByName(fs);
      var f := fs[|fs| - 1];
      assert forall i :: 0 <= i < |init| ==> init[i] == fs[i];
      if f.name !in AdNames(prev) {
        assert ads == prev + [AdOf(f)];
        AdNamesSnoc(prev, AdOf(f));
        forall j | 0 <= j < |fs| - 1 ensures fs[j].name != f.name {
          assert init[j].name in AdNames(prev);
        }
        assert ads[|ads| - 1] == AdOf(fs[|fs| - 1]);
      }
    }
  }

  /** A stat's entry: description and type from its last implementation, fields by first declaration. */
  function StatAdOf(name: string, impls: seq<Impl>): StatAd
    requires |impls| > 0
  {
    StatAd(name, impls[|impls| - 1].title, impls[|impls| - 1].mtype, FirstByName(Flat(impls)))
  }

  function StatAds(m: Module, names: seq<string>): seq<StatAd>
    requires forall s :: s in names ==> s in m.stats && |m.stats[s]| > 0
  {
    seq(|names|, i requires 0 <= i < |names| => StatAdOf(names[i], m.stats[names[i]]))
  }

  function ModuleAdOf(name: string, m: Module): ModuleAd
    requires WfModule(m)
  {
    ModuleAd(name, m.title, StatAds(m, m.statNames))
  }

  // ---------------------------------------------------------------------------
  // Instrumentations, commands and messages
  // ---------------------------------------------------------------------------

  /** An active instrumentation; impl is the implementation chosen for it. */
  datatype Inst = Inst(modname: string, stat: string, pred: string, decomposition: seq<string>,
                       impl: Impl, instKey: string, since: int)

  /** enable_instrumentation: every member is optional on the wire. */
  datatype EnableCmd = EnableCmd(source: string, instId: Option<string>, modname: Option<string>,
                                 stat: Option<string>, pred: Option<string>,
                                 decomposition: Option<seq<string>>, instKey: Option<string>)

  /** disable_instrumentation. */
  datatype DisableCmd = DisableCmd(source: string, instId: Option<string>)

  datatype Message =
    | Reply(dest: string, status: string, error: Option<string>, replyId: Option<string>)
    | Data(key: string, instId: string, value: int, time: int)

  /** A backend call whose completion callback has not run yet. */
  datatype Completion =
    | Instrumenting(dest: string, id: string)
    | Deinstrumenting(dest: string, id: string)

  /** What insCmdEnable decides before any backend call. */
  datatype EnableOutcome = Failed(error: string) | AlreadyEnabled | Start(id: string, inst: Inst)

  function EnableDecision(modules: map<string, Module>, insts: map<string, Inst>, cmd: EnableCmd, now: int): EnableOutcome
  {
    if cmd.instId.None? || cmd.modname.None? || cmd.stat.None? || cmd.pred.None? ||
       cmd.decomposition.None? || cmd.instKey.None? then Failed("missing field")
    else if cmd.instId.value in insts then AlreadyEnabled
    else if cmd.modname.value !in modules || cmd.stat.value !in modules[cmd.modname.value].stats ||
            |modules[cmd.modname.value].stats[cmd.stat.value]| == 0 then Failed("unknown module or stat")
    else
      Start(cmd.instId.value, Inst(cmd.modname.value, cmd.stat.value, cmd.pred.value, cmd.decomposition.value,
                                   modules[cmd.modname.value].stats[cmd.stat.value][0], cmd.instKey.value, now))
  }

  /**
   * The enable rules: a missing member fails, an active id is already enabled, an unknown
   * module or stat fails, and otherwise the instrumentation starts with the stat's first
   * implementation under the requested id.
   */
  lemma EnableDecisionFacts(modules: map<string, Module>, insts: map<string, Inst>, cmd: EnableCmd, now: int)
    ensures var r := EnableDecision(modules, insts, cmd, now);
      && (r == Failed("missing field") <==> !HasAllMembers(cmd))
      && (r == AlreadyEnabled <==> HasAllMembers(cmd) && cmd.instId.value in insts)
      && (HasAllMembers(cmd) && cmd.instId.value !in insts ==>
            (r == Failed("unknown module or stat") <==>
               cmd.modname.value !in modules || cmd.stat.value !in modules[cmd.modname.value].stats ||
               |modules[cmd.modname.value].stats[cmd.stat.value]| == 0))
      && (r.Start? ==>
            && r.id == cmd.instId.value && r.id !in insts
            && cmd.modname.value in modules && cmd.stat.value in modules[cmd.modname.value].stats
            && r.inst.impl == modules[cmd.modname.value].stats[cmd.stat.value][0]
            && r.inst.modname == cmd.modname.value && r.inst.stat == cmd.stat.value
            && r.inst.instKey == cmd.instKey.value && r.inst.since == now)
  {
  }

  /** An enable command carries every member the instrumenter needs. */
  predicate HasAllMembers(cmd: EnableCmd)
  {
    cmd.instId.Some? && cmd.modname.Some? && cmd.stat.Some? && cmd.pred.Some? &&
    cmd.decomposition.Some? && cmd.instKey.Some?
  }

  /** Enabling is idempotent: once an enable has started, the same command is answered "enabled". */
  lemma EnableIdempotent(modules: map<string, Module>, insts: map<string, Inst>, cmd: EnableCmd, now: int, later: int)
    requires EnableDecision(modules, insts, cmd, now).Start?
    ensures var r := EnableDecision(modules, insts, cmd, now);
      EnableDecision(modules, insts[r.id := r.inst], cmd, later) == AlreadyEnabled
  {
  }

  /** Two times (in milliseconds) fall in the same second. */
  predicate SameSecond(a: int, b: int)
  {
    a / 1000 == b / 1000
  }

  /** Ticks in the same second are less than a second apart; ticks a second or more apart never are. */
  lemma SameSecondClose(a: int, b: int)
    ensures SameSecond(a, b) ==> -1000 < a - b < 1000
    ensures a - b >= 1000 || b - a >= 1000 ==> !SameSecond(a, b)
  {
  }

  /** The data messages of a tick: one per active instrumentation, stamped with the tick time. */
  ghost predicate TickData(sent: seq<Message>, insts: map<string, Inst>, now: int, valueOf: string -> int)
  {
    && (forall i :: 0 <= i < |sent| ==>
          sent[i].Data? && sent[i].instId in insts && sent[i].time == now &&
          sent[i].key == insts[sent[i].instId].instKey && sent[i].value == valueOf(sent[i].instId))
    && (forall i, j :: 0 <= i < j < |sent| ==> sent[i].instId != sent[j].instId)
    && (forall id :: id in insts ==> exists i :: 0 <= i < |sent| && sent[i].instId == id)
  }

  function SentIds(sent: seq<Message>): set<string>
    requires forall i :: 0 <= i < |sent| ==> sent[i].Data?
  {
    set i | 0 <= i < |sent| :: sent[i].instId
  }

  lemma {:induction false} DistinctCount(sent: seq<Message>)
    requires forall i :: 0 <= i < |sent| ==> sent[i].Data?
    requires forall i, j :: 0 <= i < j < |sent| ==> sent[i].instId != sent[j].instId
    ensures |SentIds(sent)| == |sent|
  {
    if sent != [] {
      var init := sent[..|sent| - 1];
      DistinctCount(init);
      assert SentIds(sent) == SentIds(init) + {sent[|sent| - 1].instId};
      assert sent[|sent| - 1].instId !in SentIds(init);
    }
  }

  /** A tick sends exactly as many data messages as there are active instrumentations. */
  lemma TickDataCount(sent: seq<Message>, insts: map<string, Inst>, now: int, valueOf: string -> int)
    requires TickData(sent, insts, now, valueOf)
    ensures |sent| == |insts|
  {
    DistinctCount(sent);
    assert SentIds(sent) == insts.Keys;
  }

  // ---------------------------------------------------------------------------
  // The service state
  // ---------------------------------------------------------------------------

  class Instrumenter {
    /** ins_modules, with its keys in insertion order. */
    var moduleNames: seq<string>
    var modules: map<string, Module>
    /** ins_insts. */
    var insts: map<string, Inst>
    /** Backend calls awaiting their callbacks. */
    var pending: seq<Completion>
    /** Every message sent, in order. */
    var outbox: seq<Message>
    /** ins_last: the time of the last reporting tick, in milliseconds. */
    var last: Option<int>

    ghost predicate Valid()
      reads this
    {
      && Distinct(moduleNames)
      && (forall m :: m in modules <==> m in moduleNames)
      && (forall m :: m in modules ==> WfModule(modules[m]))
    }

    constructor ()
      ensures Valid()
      ensures moduleNames == [] && modules == map[] && insts == map[] && pending == [] && outbox == [] && last == None
    {
      moduleNames, modules, insts, pending, outbox, last := [], map[], map[], [], [], None;
    }

    /**
     * registerModule as written: a new name gets its label and no stats; a known name throws
     * unless the label equals what the stored record converts to, "[object Object]".
     */
    method RegisterModuleAsWritten(name: string, title: string) returns (thrown: bool)
      requires Valid()
      modifies this
      ensures Valid()
      ensures thrown == (name in old(modules) && MismatchAsWritten(old(modules)[name], title))
      ensures name !in old(modules) ==>
        modules == old(modules)[name := Module(title, [], map[])] && moduleNames == old(moduleNames) + [name]
      ensures name in old(modules) ==> modules == old(modules) && moduleNames == old(moduleNames)
      ensures insts == old(insts) && pending == old(pending) && outbox == old(outbox) && last == old(last)
    {
      if name !in modules {
        modules := modules[name := Module(title, [], map[])];
        moduleNames := moduleNames + [name];
        return false;
      }
      thrown := StoredAsString(modules[name]) != title;
    }

    /** registerModule as intended: a redeclaration throws only when the label differs. */
    method RegisterModule(name: string, title: string) returns (thrown: bool)
      requires Valid()
      modifies this
      ensures Valid()
      ensures thrown == (name in old(modules) && Mismatch(old(modules)[name], title))
      ensures name !in old(modules) ==>
        modules == old(modules)[name := Module(title, [], map[])] && moduleNames == old(moduleNames) + [name]
      ensures name in old(modules) ==> modules == old(modules) && moduleNames == old(moduleNames)
      ensures insts == old(insts) && pending == old(pending) && outbox == old(outbox) && last == old(last)
    {
      if name !in modules {
        modules := modules[name := Module(title, [], map[])];
        moduleNames := moduleNames + [name];
        return false;
      }
      thrown := modules[name].title != title;
    }

    /**
     * registerMetric: throws for an undeclared module or an unknown type; otherwise appends
     * one implementation to the stat (creating it, last in order, if new).
     */
    method RegisterMetric(modname: string, stat: string, title: string, mtype: string,
                          fields: seq<FieldSpec>, backend: nat) returns (thrown: bool)
      requires Valid()
      modifies this
      ensures Valid()
      ensures thrown <==> modname !in old(modules) || !KnownType(mtype)
      ensures thrown ==> modules == old(modules)
      ensures !thrown ==>
        var m := old(modules)[modname];
        var before := if stat in m.stats then m.stats[stat] else [];
        modules == old(modules)[modname := Module(m.title,
                                                  if stat in m.stats then m.statNames else m.statNames + [stat],
                                                  m.stats[stat := before + [Impl(title, mtype, fields, backend)]])]
      ensures moduleNames == old(moduleNames)
      ensures insts == old(insts) && pending == old(pending) && outbox == old(outbox) && last == old(last)
    {
      if modname !in modules {
        return true;
      }
      if !KnownType(mtype) {
        return true;
      }
      var m := modules[modname];
      var names := m.statNames;
      var before: seq<Impl> := [];
      if stat in m.stats {
        before := m.stats[stat];
      } else {
        names := names + [stat];
      }
      var impl := Impl(title, mtype, fields, backend);
      var nm := Module(m.title, names, m.stats[stat := before + [impl]]);
      modules := modules[modname := nm];
      thrown := false;
    }

    /** insGetModules: every module in order, every stat in order, fields by first declaration. */
    method GetModules() returns (ret: seq<ModuleAd>)
      requires Valid()
      ensures |ret| == |moduleNames|
      ensures forall i :: 0 <= i < |ret| ==> ret[i] == ModuleAdOf(moduleNames[i], modules[moduleNames[i]])
    {
      ret := [];
      var i := 0;
      while i < |moduleNames|
        invariant 0 <= i <= |moduleNames| && |ret| == i
        invariant forall t :: 0 <= t < i ==> ret[t] == ModuleAdOf(moduleNames[t], modules[moduleNames[t]])
      {
        var name := moduleNames[i];
        var m := modules[name];
        var stats := ModuleStats(m);
        ret := ret + [ModuleAd(name, m.title, stats)];
        i := i + 1;
      }
    }

    /**
     * insCmdEnable: replies at once when the command fails or the id is already active;
     * otherwise records the instrumentation before the backend has instrumented it.
     */
    method Enable(cmd: EnableCmd, now: int)
      requires Valid()
      modifies this
      ensures Valid()
      ensures moduleNames == old(moduleNames) && modules == old(modules) && last == old(last)
      ensures match EnableDecision(old(modules), old(insts), cmd, now)
        case Failed(e) =>
          && outbox == old(outbox) + [Reply(cmd.source, "enable_failed", Some(e), cmd.instId)]
          && insts == old(insts) && pending == old(pending)
        case AlreadyEnabled =>
          && outbox == old(outbox) + [Reply(cmd.source, "enabled", None, cmd.instId)]
          && insts == old(insts) && pending == old(pending)
        case Start(id, inst) =>
          && insts == old(insts)[id := inst]
          && pending == old(pending) + [Instrumenting(cmd.source, id)]
          && outbox == old(outbox)
    {
      if cmd.instId.None? || cmd.modname.None? || cmd.stat.None? || cmd.pred.None? ||
         cmd.decomposition.None? || cmd.instKey.None? {
        outbox := outbox + [Reply(cmd.source, "enable_failed", Some("missing field"), cmd.instId)];
        return;
      }
      var id := cmd.instId.value;
      if id in insts {
        outbox := outbox + [Reply(cmd.source, "enabled", None, cmd.instId)];
        return;
      }
      var modname, stat := cmd.modname.value, cmd.stat.value;
      if modname !in modules || stat !in modules[modname].stats {
        outbox := outbox + [Reply(cmd.source, "enable_failed", Some("unknown module or stat"), cmd.instId)];
        return;
      }
      var impl := modules[modname].stats[stat][0];
      var inst := Inst(modname, stat, cmd.pred.value, cmd.decomposition.value, impl, cmd.instKey.value, now);
      insts := insts[id := inst];
      pending := pending + [Instrumenting(cmd.source, id)];
    }

    /**
     * insCmdDisable: a missing id fails, an inactive id is already disabled, and otherwise
     * the backend is asked to deinstrument while the entry stays in the table.
     */
    method Disable(cmd: DisableCmd)
      requires Valid()
      modifies this
      ensures Valid()
      ensures moduleNames == old(moduleNames) && modules == old(modules) && last == old(last) && insts == old(insts)
      ensures cmd.instId.None? ==>
        outbox == old(outbox) + [Reply(cmd.source, "disable_failed", Some("missing field"), None)] && pending == old(pending)
      ensures cmd.instId.Some? && cmd.instId.value !in old(insts) ==>
        outbox == old(outbox) + [Reply(cmd.source, "disabled", None, cmd.instId)] && pending == old(pending)
      ensures cmd.instId.Some? && cmd.instId.value in old(insts) ==>
        outbox == old(outbox) && pending == old(pending) + [Deinstrumenting(cmd.source, cmd.instId.value)]
    {
      if cmd.instId.None? {
        outbox := outbox + [Reply(cmd.source, "disable_failed", Some("missing field"), None)];
        return;
      }
      var id := cmd.instId.value;
      if id !in insts {
        outbox := outbox + [Reply(cmd.source, "disabled", None, cmd.instId)];
        return;
      }
      pending := pending + [Deinstrumenting(cmd.source, id)];
    }

    /**
     * The callback of pending backend call i, with the backend's error if it failed: it
     * replies; only a successful deinstrument removes the instrumentation.
     */
    method Complete(i: nat, err: Option<string>)
      requires Valid() && i < |pending|
      modifies this
      ensures Valid()
      ensures moduleNames == old(moduleNames) && modules == old(modules) && last == old(last)
      ensures pending == old(pending)[..i] + old(pending)[i + 1..]
      ensures match old(pending)[i]
        case Instrumenting(dest, id) =>
          && insts == old(insts)
          && outbox == old(outbox) + [if err.Some? then Reply(dest, "enable_failed", Some("instrumenter error: " + err.value), Some(id))
                                      else Reply(dest, "enabled", None, Some(id))]
        case Deinstrumenting(dest, id) =>
          && insts == (if err.Some? then old(insts) else old(insts) - {id})
          && outbox == old(outbox) + [if err.Some? then Reply(dest, "disable_failed", Some("instrumenter error: " + err.value), Some(id))
                                      else Reply(dest, "disabled", None, Some(id))]
    {
      var c := pending[i];
      pending := pending[..i] + pending[i + 1..];
      match c
      case Instrumenting(dest, id) =>
        if err.Some? {
          outbox := outbox + [Reply(dest, "enable_failed", Some("instrumenter error: " + err.value), Some(id))];
        } else {
          outbox := outbox + [Reply(dest, "enabled", None, Some(id))];
        }
      case Deinstrumenting(dest, id) =>
        if err.Some? {
          outbox := outbox + [Reply(dest, "disable_failed", Some("instrumenter error: " + err.value), Some(id))];
        } else {
          outbox := outbox + [Reply(dest, "disabled", None, Some(id))];
          insts := insts - {id};
        }
    }

    /**
     * insTick at time now (milliseconds), with valueOf standing for each instrumentation's
     * value(): nothing happens within the second of the last reporting tick; otherwise one
     * data message per active instrumentation is sent and the time is recorded.
     */
    method Tick(now: int, valueOf: string -> int)
      requires Valid()
      modifies this
      ensures Valid()
      ensures moduleNames == old(moduleNames) && modules == old(modules) && insts == old(insts) && pending == old(pending)
      ensures old(last).Some? && SameSecond(now, old(last).value) ==> outbox == old(outbox) && last == old(last)
      ensures !(old(last).Some? && SameSecond(now, old(last).value)) ==>
        && last == Some(now)
        && |outbox| >= |old(outbox)| && outbox[..|old(outbox)|] == old(outbox)
        && TickData(outbox[|old(outbox)|..], insts, now, valueOf)
    {
      if last.Some? && now / 1000 == last.value / 1000 {
        return;
      }
      var sent := TickMessages(insts, now, valueOf);
      outbox := outbox + sent;
      assert outbox[|old(outbox)|..] == sent;
      last := Some(now);
    }
  }

  /** The stat entries of one module (the loops over stats, implementations and fields). */
  method ModuleStats(m: Module) returns (stats: seq<StatAd>)
    requires WfModule(m)
    ensures stats == StatAds(m, m.statNames)
  {
    stats := [];
    var j := 0;
    while j < |m.statNames|
      invariant 0 <= j <= |m.statNames| && |stats| == j
      invariant forall t :: 0 <= t < j ==> stats[t] == StatAdOf(m.statNames[t], m.stats[m.statNames[t]])
    {
      var s := m.statNames[j];
      var ad := StatEntry(s, m.stats[s]);
      stats := stats + [ad];
      j := j + 1;
    }
  }

  /** One stat's entry: description and type overwritten per implementation, fields deduplicated. */
  method StatEntry(name: string, impls: seq<Impl>) returns (ad: StatAd)
    requires |impls| > 0
    ensures ad == StatAdOf(name, impls)
  {
    var done: set<string> := {};
    var fields: seq<FieldAd> := [];
    var description, stype := "", "";
    var ii := 0;
    while ii < |impls|
      invariant 0 <= ii <= |impls|
      invariant fields == FirstByName(Flat(impls[..ii])) && done == AdNames(fields)
      invariant ii > 0 ==> description == impls[ii - 1].title && stype == impls[ii - 1].mtype
    {
      description, stype := impls[ii].title, impls[ii].mtype;
      FlatSnoc(impls, ii);
      fields, done := AddFields(fields, done, Flat(impls[..ii]), impls[ii].fields);
      ii := ii + 1;
    }
    assert impls[..ii] == impls;
    ad := StatAd(name, description, stype, fields);
  }

  /** The loop over one implementation's fields, skipping names already done. */
  method AddFields(fields: seq<FieldAd>, done: set<string>, prior: seq<FieldSpec>, fs: seq<FieldSpec>)
    returns (fields': seq<FieldAd>, done': set<string>)
    requires fields == FirstByName(prior) && done == AdNames(fields)
    ensures fields' == FirstByName(prior + fs) && done' == AdNames(fields')
  {
    fields', done' := fields, done;
    var jj := 0;
    assert prior + fs[..0] == prior;
    while jj < |fs|
      invariant 0 <= jj <= |fs|
      invariant fields' == FirstByName(prior + fs[..jj]) && done' == AdNames(fields')
    {
      var f := fs[jj];
      assert (prior + fs[..jj + 1])[..|prior| + jj] == prior + fs[..jj];
      assert (prior + fs[..jj + 1])[|prior| + jj] == f;
      if f.name !in done' {
        AdNamesSnoc(fields', AdOf(f));
        fields' := fields' + [AdOf(f)];
        done' := done' + {f.name};
      }
      jj := jj + 1;
    }
    assert fs[..jj] == fs;
  }

  /** The loop over the active instrumentations of a tick. */
  method TickMessages(insts: map<string, Inst>, now: int, valueOf: string -> int) returns (sent: seq<Message>)
    ensures TickData(sent, insts, now, valueOf)
  {
    sent := [];
    var todo := insts.Keys;
    while todo != {}
      invariant todo <= insts.Keys
      invariant forall i :: 0 <= i < |sent| ==>
          sent[i].Data? && sent[i].instId in insts && sent[i].instId !in todo && sent[i].time == now &&
          sent[i].key == insts[sent[i].instId].instKey && sent[i].value == valueOf(sent[i].instId)
      invariant forall i, j :: 0 <= i < j < |sent| ==> sent[i].instId != sent[j].instId
      invariant forall id :: id in insts && id !in todo ==> exists i :: 0 <= i < |sent| && sent[i].instId == id
      decreases todo
    {
      var id :| id in todo;
      var before := sent;
      sent := sent + [Data(insts[id].instKey, id, valueOf(id), now)];
      todo := todo - {id};
      assert sent[|before|].instId == id;
      forall other | other in insts && other !in todo ensures exists i :: 0 <= i < |sent| && sent[i].instId == other {
        if other != id {
          var i :| 0 <= i < |before| && before[i].instId == other;
          assert sent[i].instId == other;
        }
      }
    }
  }

  /** Flat over one more implementation. */
  lemma FlatSnoc(impls: seq<Impl>, i: nat)
    requires i < |impls|
    ensures Flat(impls[..i + 1]) == Flat(impls[..i]) + impls[i].fields
  {
    assert impls[..i + 1][..i] == impls[..i];
  }
}
