/**
 * The configuration service (cmd/caconfigsvc.js): the fleet registry that the
 * instrumenter and aggregator online announcements fill, the metric catalog merged from
 * the instrumenters' advertisements, the instrumentation namespace (cfg_insts plus the
 * global and per-customer scope sets) as the HTTP handlers change it, and the counting
 * completion of the status fan-out.
 *
 * Messages and requests arrive as values; commands to other components are appended to
 * an output log; HTTP handlers return their status code.
 */
module ConfigService {
  import opened Wrappers
  import opened Instrumenter

  // ---------------------------------------------------------------------------
  // The metric catalog (cfg_statmods)
  // ---------------------------------------------------------------------------

  datatype CatField = CatField(ftype: string, title: string)
  datatype CatStat = CatStat(title: string, stype: string, fields: map<string, CatField>)
  datatype CatModule = CatModule(title: string, stats: map<string, CatStat>)

  type Catalog = map<string, CatModule>

  /** Add the fields not yet known, in order; known ones are kept. */
  function MergeFields(fields: map<string, CatField>, ads: seq<FieldAd>): map<string, CatField>
  {
    if ads == [] then fields
    else
      var prev := MergeFields(fields, ads[..|ads| - 1]);
      var f := ads[|ads| - 1];
      if f.name in prev then prev else prev[f.name := CatField(f.ftype, f.description)]
  }

  function MergeStat(m: CatModule, s: StatAd): CatModule
  {
    var entry := if s.name in m.stats then m.stats[s.name] else CatStat(s.description, s.stype, map[]);
    m.(stats := m.stats[s.name := entry.(fields := MergeFields(entry.fields, s.fields))])
  }

  function MergeStats(m: CatModule, stats: seq<StatAd>): CatModule
  {
    if stats == [] then m else MergeStat(MergeStats(m, stats[..|stats| - 1]), stats[|stats| - 1])
  }

  function MergeModule(cat: Catalog, mod: ModuleAd): Catalog
  {
    var entry := if mod.name in cat then cat[mod.name] else CatModule(mod.description, map[]);
    cat[mod.name := MergeStats(entry, mod.stats)]
  }

  /** cfgNotifyInstrumenterOnline's catalog loops: every advertised module, in order. */
  function MergeCatalog(cat: Catalog, mods: seq<ModuleAd>): Catalog
  {
    if mods == [] then cat else MergeModule(MergeCatalog(cat, mods[..|mods| - 1]), mods[|mods| - 1])
  }

  /** Nothing known is replaced or removed: first writer wins at every level. */
  ghost predicate FieldsExtend(a: map<string, CatField>, b: map<string, CatField>)
  {
    forall f :: f in a ==> f in b && b[f] == a[f]
  }

  ghost predicate StatsExtend(a: map<string, CatStat>, b: map<string, CatStat>)
  {
    forall s :: s in a ==>
      s in b && b[s].title == a[s].title && b[s].stype == a[s].stype && FieldsExtend(a[s].fields, b[s].fields)
  }

  ghost predicate Extends(a: Catalog, b: Catalog)
  {
    forall m :: m in a ==> m in b && b[m].title == a[m].title && StatsExtend(a[m].stats, b[m].stats)
  }

  /** ads[i] is the first advertisement naming field f. */
  ghost predicate FirstField(ads: seq<FieldAd>, i: int, f: string)
  {
    0 <= i < |ads| && ads[i].name == f && forall j :: 0 <= j < i ==> ads[j].name != f
  }

  /** stats[i] is the first advertisement naming stat t. */
  ghost predicate FirstStat(stats: seq<StatAd>, i: int, t: string)
  {
    0 <= i < |stats| && stats[i].name == t && forall j :: 0 <= j < i ==> stats[j].name != t
  }

  /** mods[i] is the first advertisement naming module n. */
  ghost predicate FirstModule(mods: seq<ModuleAd>, i: int, n: string)
  {
    0 <= i < |mods| && mods[i].name == n && forall j :: 0 <= j < i ==> mods[j].name != n
  }

  lemma {:induction false} MergeFieldsFacts(fields: map<string, CatField>, ads: seq<FieldAd>)
    ensures var r := MergeFields(fields, ads);
      && FieldsExtend(fields, r)
      && (forall i :: 0 <= i < |ads| ==> ads[i].name in r)
      && (forall f :: f in r ==> f in fields || exists i :: 0 <= i < |ads| && ads[i].name == f)
  {
    if ads != [] {
      var init := ads[..|ads| - 1];
      MergeFieldsFacts(fields, init);
      assert forall i :: 0 <= i < |init| ==> init[i] == ads[i];
    }
  }

  /** The index of the first advertisement naming field f, if any. */
  function FirstFieldAt(ads: seq<FieldAd>, f: string): (r: Option<nat>)
    ensures r.Some? ==> FirstField(ads, r.value, f)
    ensures r.None? ==> forall j :: 0 <= j < |ads| ==> ads[j].name != f
  {
    if ads == [] then None
    else
      var p := FirstFieldAt(ads[..|ads| - 1], f);
      if p.Some? then p else if ads[|ads| - 1].name == f then Some(|ads| - 1) else None
  }

  lemma {:induction false} MergeFieldsFirstAt(fields: map<string, CatField>, ads: seq<FieldAd>)
    ensures var r := MergeFields(fields, ads);
      forall f :: f !in fields ==>
        (f in r <==> FirstFieldAt(ads, f).Some?) &&
        (f in r ==> r[f] == CatField(ads[FirstFieldAt(ads, f).value].ftype, ads[FirstFieldAt(ads, f).value].description))
  {
    if ads != [] {
      var init := ads[..|ads| - 1];
      MergeFieldsFirstAt(fields, init);
      assert forall j :: 0 <= j < |init| ==> init[j] == ads[j];
    }
  }

  /** A field the merge adds carries the type and label of the first advertisement naming it. */
  lemma MergeFieldsFirst(fields: map<string, CatField>, ads: seq<FieldAd>)
    ensures var r := MergeFields(fields, ads);
      forall f :: f in r && f !in fields ==>
        exists i :: FirstField(ads, i, f) && r[f] == CatField(ads[i].ftype, ads[i].description)
  {
    MergeFieldsFirstAt(fields, ads);
    var r := MergeFields(fields, ads);
    forall f | f in r && f !in fields
      ensures exists i :: FirstField(ads, i, f) && r[f] == CatField(ads[i].ftype, ads[i].description)
    {
      var i := FirstFieldAt(ads, f).value;
      assert FirstField(ads, i, f);
    }
  }

  lemma MergeStatFacts(m: CatModule, s: StatAd)
    ensures var r := MergeStat(m, s);
      && r.title == m.title && StatsExtend(m.stats, r.stats)
      && s.name in r.stats && r.stats.Keys == m.stats.Keys + {s.name}
      && (forall i :: 0 <= i < |s.fields| ==> s.fields[i].name in r.stats[s.name].fields)
      && (s.name !in m.stats ==>
            && r.stats[s.name].title == s.description && r.stats[s.name].stype == s.stype
            && forall f :: f in r.stats[s.name].fields ==>
                 exists i :: FirstField(s.fields, i, f) &&
                   r.stats[s.name].fields[f] == CatField(s.fields[i].ftype, s.fields[i].description))
  {
    var entry := if s.name in m.stats then m.stats[s.name] else CatStat(s.description, s.stype, map[]);
    MergeFieldsFacts(entry.fields, s.fields);
    MergeFieldsFirst(entry.fields, s.fields);
  }

  lemma {:induction false} MergeStatsFacts(m: CatModule, stats: seq<StatAd>)
    ensures var r := MergeStats(m, stats);
      && r.title == m.title && StatsExtend(m.stats, r.stats)
      && (forall i :: 0 <= i < |stats| ==> stats[i].name in r.stats)
      && (forall s :: s in r.stats ==> s in m.stats || exists i :: 0 <= i < |stats| && stats[i].name == s)
  {
    if stats != [] {
      var init := stats[..|stats| - 1];
      var mid, last := MergeStats(m, init), stats[|stats| - 1];
      MergeStatsFacts(m, init);
      MergeStatFacts(mid, last);
      assert MergeStats(m, stats) == MergeStat(mid, last);
      StatsExtendTrans(m.stats, mid.stats, MergeStat(mid, last).stats);
      assert forall i :: 0 <= i < |init| ==> init[i] == stats[i];
    }
  }

  /** Merging one stat keeps every known stat's label and type, and a new one takes the advertised ones. */
  lemma MergeStatKeeps(m: CatModule, s: StatAd)
    ensures var r := MergeStat(m, s);
      && r.stats.Keys == m.stats.Keys + {s.name}
      && (forall t :: t in m.stats ==> r.stats[t].title == m.stats[t].title && r.stats[t].stype == m.stats[t].stype)
      && (s.name !in m.stats ==> r.stats[s.name].title == s.description && r.stats[s.name].stype == s.stype)
  {
  }

  /** The index of the first advertisement naming stat t, if any. */
  function FirstStatAt(stats: seq<StatAd>, t: string): (r: Option<nat>)
    ensures r.Some? ==> FirstStat(stats, r.value, t)
    ensures r.None? ==> forall j :: 0 <= j < |stats| ==> stats[j].name != t
  {
    if stats == [] then None
    else
      var p := FirstStatAt(stats[..|stats| - 1], t);
      if p.Some? then p else if stats[|stats| - 1].name == t then Some(|stats| - 1) else None
  }

  lemma {:induction false} MergeStatsFirstAt(m: CatModule, stats: seq<StatAd>)
    ensures var r := MergeStats(m, stats);
      forall t :: t !in m.stats ==>
        (t in r.stats <==> FirstStatAt(stats, t).Some?) &&
        (t in r.stats ==> r.stats[t].title == stats[FirstStatAt(stats, t).value].description &&
                          r.stats[t].stype == stats[FirstStatAt(stats, t).value].stype)
  {
    if stats != [] {
      var init := stats[..|stats| - 1];
      var mid, last := MergeStats(m, init), stats[|stats| - 1];
      MergeStatsFirstAt(m, init);
      MergeStatKeeps(mid, last);
      assert MergeStats(m, stats) == MergeStat(mid, last);
      forall t | t !in m.stats
        ensures var r := MergeStat(mid, last);
          (t in r.stats <==> FirstStatAt(stats, t).Some?) &&
          (t in r.stats ==> r.stats[t].title == stats[FirstStatAt(stats, t).value].description &&
                            r.stats[t].stype == stats[FirstStatAt(stats, t).value].stype)
      {
        var p := FirstStatAt(init, t);
        if p.Some? {
          assert init[p.value] == stats[p.value];
        }
      }
    }
  }

  /** A stat the merge adds carries the label and type of the first advertisement naming it. */
  lemma MergeStatsFirst(m: CatModule, stats: seq<StatAd>)
    ensures var r := MergeStats(m, stats);
      forall t :: t in r.stats && t !in m.stats ==>
        exists i :: FirstStat(stats, i, t) && r.stats[t].title == stats[i].description && r.stats[t].stype == stats[i].stype
  {
    MergeStatsFirstAt(m, stats);
    var r := MergeStats(m, stats);
    forall t | t in r.stats && t !in m.stats
      ensures exists i :: FirstStat(stats, i, t) && r.stats[t].title == stats[i].description && r.stats[t].stype == stats[i].stype
    {
      var i := FirstStatAt(stats, t).value;
      assert FirstStat(stats, i, t);
    }
  }

  lemma MergeModuleFacts(cat: Catalog, mod: ModuleAd)
    ensures var r := MergeModule(cat, mod);
      && Extends(cat, r) && mod.name in r && r.Keys == cat.Keys + {mod.name}
      && (forall i :: 0 <= i < |mod.stats| ==> mod.stats[i].name in r[mod.name].stats)
      && (mod.name !in cat ==>
            && r[mod.name].title == mod.description
            && forall t :: t in r[mod.name].stats ==>
                 exists i :: FirstStat(mod.stats, i, t) &&
                   r[mod.name].stats[t].title == mod.stats[i].description && r[mod.name].stats[t].stype == mod.stats[i].stype)
  {
    var entry := if mod.name in cat then cat[mod.name] else CatModule(mod.description, map[]);
    MergeStatsFacts(entry, mod.stats);
    MergeStatsFirst(entry, mod.stats);
  }

  lemma StatsExtendTrans(a: map<string, CatStat>, b: map<string, CatStat>, c: map<string, CatStat>)
    requires StatsExtend(a, b) && StatsExtend(b, c)
    ensures StatsExtend(a, c)
  {
  }

  lemma ExtendsTrans(a: Catalog, b: Catalog, c: Catalog)
    requires Extends(a, b) && Extends(b, c)
    ensures Extends(a, c)
  {
    forall m | m in a ensures m in c && c[m].title == a[m].title && StatsExtend(a[m].stats, c[m].stats) {
      StatsExtendTrans(a[m].stats, b[m].stats, c[m].stats);
    }
  }

  /**
   * The merge is monotone (first writer wins, nothing removed), adds every advertised
   * module, and adds no module that was neither known nor advertised.
   */
  lemma {:induction false} MergeCatalogFacts(cat: Catalog, mods: seq<ModuleAd>)
    ensures var r := MergeCatalog(cat, mods);
      && Extends(cat, r)
      && (forall i :: 0 <= i < |mods| ==> mods[i].name in r)
      && (forall m :: m in r ==> m in cat || exists i :: 0 <= i < |mods| && mods[i].name == m)
  {
    if mods != [] {
      var init := mods[..|mods| - 1];
      MergeCatalogFacts(cat, init);
      var mid := MergeCatalog(cat, init);
      MergeModuleFacts(mid, mods[|mods| - 1]);
      ExtendsTrans(cat, mid, MergeCatalog(cat, mods));
      assert forall i :: 0 <= i < |init| ==> init[i] == mods[i];
    }
  }

  /** Merging one module keeps every other module, and a new one takes the advertised label. */
  lemma MergeModuleKeeps(cat: Catalog, mod: ModuleAd)
    ensures var r := MergeModule(cat, mod);
      && r.Keys == cat.Keys + {mod.name}
      && (forall n :: n in cat ==> r[n].title == cat[n].title)
      && (mod.name !in cat ==> r[mod.name].title == mod.description)
  {
    var entry := if mod.name in cat then cat[mod.name] else CatModule(mod.description, map[]);
    MergeStatsTitle(entry, mod.stats);
  }

  /** The stat merge keeps the module's label. */
  lemma {:induction false} MergeStatsTitle(m: CatModule, stats: seq<StatAd>)
    ensures MergeStats(m, stats).title == m.title
  {
    if stats != [] {
      MergeStatsTitle(m, stats[..|stats| - 1]);
    }
  }

  /** The index of the first advertisement naming module n, if any. */
  function FirstModuleAt(mods: seq<ModuleAd>, n: string): (r: Option<nat>)
    ensures r.Some? ==> FirstModule(mods, r.value, n)
    ensures r.None? ==> forall j :: 0 <= j < |mods| ==> mods[j].name != n
  {
    if mods == [] then None
    else
      var p := FirstModuleAt(mods[..|mods| - 1], n);
      if p.Some? then p else if mods[|mods| - 1].name == n then Some(|mods| - 1) else None
  }

  lemma {:induction false} MergeCatalogFirstAt(cat: Catalog, mods: seq<ModuleAd>)
    ensures var r := MergeCatalog(cat, mods);
      forall n :: n !in cat ==>
        (n in r <==> FirstModuleAt(mods, n).Some?) &&
        (n in r ==> r[n].title == mods[FirstModuleAt(mods, n).value].description)
  {
    if mods != [] {
      var init := mods[..|mods| - 1];
      MergeCatalogFirstAt(cat, init);
      MergeModuleKeeps(MergeCatalog(cat, init), mods[|mods| - 1]);
      assert forall j :: 0 <= j < |init| ==> init[j] == mods[j];
    }
  }

  /** A module the merge adds carries the label of the first advertisement naming it. */
  lemma MergeCatalogFirst(cat: Catalog, mods: seq<ModuleAd>)
    ensures var r := MergeCatalog(cat, mods);
      forall n :: n in r && n !in cat ==> exists i :: FirstModule(mods, i, n) && r[n].title == mods[i].description
  {
    MergeCatalogFirstAt(cat, mods);
    var r := MergeCatalog(cat, mods);
    forall n | n in r && n !in cat
      ensures exists i :: FirstModule(mods, i, n) && r[n].title == mods[i].description
    {
      var i := FirstModuleAt(mods, n).value;
      assert FirstModule(mods, i, n);
    }
  }

  /** The number of stats the modules advertise. */
  function StatCount(mods: seq<ModuleAd>): nat
  {
    if mods == [] then 0 else StatCount(mods[..|mods| - 1]) + |mods[|mods| - 1].stats|
  }

  // ---------------------------------------------------------------------------
  // Fleet records and messages
  // ---------------------------------------------------------------------------

  /** The identity members every announcement carries. */
  datatype Identity = Identity(routekey: string, agentName: string, agentVersion: string,
                               osName: string, osRelease: string, osRevision: string)

  datatype InstrumenterRec = InstrumenterRec(hostname: string, id: Identity, nmetricsAvail: nat,
                                             insts: set<string>, ninsts: int)

  datatype AggregatorRec = AggregatorRec(hostname: string, id: Identity, httpPort: int,
                                         transformations: map<string, string>, insts: set<string>, ninsts: int)

  datatype InstrumenterOnlineMsg = InstrumenterOnlineMsg(hostname: string, id: Identity, modules: seq<ModuleAd>)

  datatype AggregatorOnlineMsg = AggregatorOnlineMsg(hostname: string, id: Identity, httpPort: Option<int>,
                                                     transformations: Option<map<string, string>>)

  /** Commands the service issues through the instrumentation factory. */
  datatype Command =
    | EnableOn(host: string, fqid: string)
    | ReenableAggregator(fqid: string)
    | Destroy(fqid: string)

  /** Transformations merge first-writer-wins. */
  function MergeTransforms(known: map<string, string>, offered: map<string, string>): (r: map<string, string>)
  {
    map k | k in known.Keys + offered.Keys :: if k in known then known[k] else offered[k]
  }

  /** Every known transformation is kept as it was; the offered ones that were unknown are added. */
  lemma MergeTransformsFacts(known: map<string, string>, offered: map<string, string>)
    ensures var r := MergeTransforms(known, offered);
      && r.Keys == known.Keys + offered.Keys
      && (forall k :: k in known ==> r[k] == known[k])
      && (forall k :: k in offered && k !in known ==> r[k] == offered[k])
  {
  }

  /** One command per id, each made by mk. */
  ghost predicate OnePerId(sent: seq<Command>, ids: set<string>, host: Option<string>)
  {
    && |sent| == |ids|
    && (forall i :: 0 <= i < |sent| ==>
          (if host.Some? then sent[i] == EnableOn(host.value, sent[i].fqid) else sent[i] == ReenableAggregator(sent[i].fqid)) &&
          sent[i].fqid in ids)
    && (forall i, j :: 0 <= i < j < |sent| ==> sent[i].fqid != sent[j].fqid)
    && (forall id :: id in ids ==> exists i :: 0 <= i < |sent| && sent[i].fqid == id)
  }

  // ---------------------------------------------------------------------------
  // Qualified instrumentation ids
  // ---------------------------------------------------------------------------

  /** Ids as the qualified form needs them: without the ';' separator. */
  predicate Clean(s: string)
  {
    forall i :: 0 <= i < |s| ==> s[i] != ';'
  }

  /** global;<instid> or cust:<custid>;<instid>. */
  function QualifiedId(custid: Option<string>, instid: string): string
  {
    if custid.None? then "global;" + instid else "cust:" + custid.value + ";" + instid
  }

  lemma SeparatorAt(a: string, b: string)
    requires Clean(a)
    ensures var s := a + ";" + b;
      s[|a|] == ';' && forall k :: 0 <= k < |a| ==> s[k] != ';'
  {
    var s := a + ";" + b;
    forall k | 0 <= k < |a| ensures s[k] != ';' {
      assert s[k] == a[k];
    }
  }

  lemma SplitAtSeparator(a: string, b: string, c: string, d: string)
    requires Clean(a) && Clean(c) && a + ";" + b == c + ";" + d
    ensures a == c && b == d
  {
    SeparatorAt(a, b);
    SeparatorAt(c, d);
    var s := a + ";" + b;
    assert |a| == |c|;
    assert a == s[..|a|] && c == s[..|c|];
    assert b == s[|a| + 1..] && d == s[|c| + 1..];
  }

  /** Distinct (custid, instid) pairs of clean ids have distinct qualified ids. */
  lemma QualifiedIdInjective(c1: Option<string>, i1: string, c2: Option<string>, i2: string)
    requires (c1.Some? ==> Clean(c1.value)) && (c2.Some? ==> Clean(c2.value))
    ensures QualifiedId(c1, i1) == QualifiedId(c2, i2) ==> c1 == c2 && i1 == i2
  {
    var q1, q2 := QualifiedId(c1, i1), QualifiedId(c2, i2);
    if q1 == q2 {
      assert q1[0] == (if c1.None? then 'g' else 'c');
      assert q2[0] == (if c2.None? then 'g' else 'c');
      if c1.None? {
        assert i1 == q1[7..] && i2 == q2[7..];
      } else {
        assert q1 == "cust:" + (c1.value + ";" + i1);
        assert q2 == "cust:" + (c2.value + ";" + i2);
        assert c1.value + ";" + i1 == q1[5..] == c2.value + ";" + i2;
        SplitAtSeparator(c1.value, i1, c2.value, i2);
      }
    }
  }

  // ---------------------------------------------------------------------------
  // HTTP
  // ---------------------------------------------------------------------------

  const OK := 200
  const CREATED := 201
  const EBADREQUEST := 400
  const ENOTFOUND := 404
  const ESERVER := 500

  /** The instrumentation properties a request may set, in the order they are copied. */
  const PropFields: seq<string> := ["module", "stat", "predicate", "decomposition", "enabled", "retention-time"]

  /** A request: its JSON body when it is an object, and its form parameters. */
  datatype Request = Request(json: Option<map<string, string>>, params: map<string, string>)

  /** cfgHttpInstReadProps: the known property members of the body, or else of the form. */
  function Props(req: Request): (props: map<string, string>)
  {
    var actuals := if req.json.Some? then req.json.value else req.params;
    map k | k in actuals && k in PropFields :: actuals[k]
  }

  /** The properties are exactly the known members of the chosen source, with their values. */
  lemma PropsFacts(req: Request)
    ensures var actuals := if req.json.Some? then req.json.value else req.params;
      var props := Props(req);
      && (forall k :: k in props <==> k in actuals && k in PropFields)
      && (forall k :: k in props ==> props[k] == actuals[k])
  {
  }

  /** The loop of cfgHttpInstReadProps. */
  method ReadProps(req: Request) returns (props: map<string, string>)
    ensures props == Props(req)
  {
    var actuals := if req.json.Some? then req.json.value else req.params;
    props := map[];
    var ii := 0;
    while ii < |PropFields|
      invariant 0 <= ii <= |PropFields|
      invariant props == map k | k in actuals && k in PropFields[..ii] :: actuals[k]
    {
      assert PropFields[..ii + 1] == PropFields[..ii] + [PropFields[ii]];
      if PropFields[ii] in actuals {
        props := props[PropFields[ii] := actuals[PropFields[ii]]];
      }
      ii := ii + 1;
    }
    assert PropFields[..ii] == PropFields;
  }

  /** A stored instrumentation: its scope, its id within the scope, its properties. */
  datatype InstRec = InstRec(custid: Option<string>, instid: string, props: map<string, string>)

  /** What the factory's create reports to its callback. */
  datatype CreateOutcome = Created(inst: InstRec) | Invalid(message: string) | ServerError(message: string)

  // ---------------------------------------------------------------------------
  // The service state
  // ---------------------------------------------------------------------------

  class ConfigService {
    var instrumenters: map<string, InstrumenterRec>
    var aggregators: map<string, AggregatorRec>
    var statmods: Catalog
    var transformations: map<string, string>
    /** cfg_insts, by qualified id. */
    var insts: map<string, InstRec>
    /** cfg_global_insts and cfg_customers: the scope sets. */
    var globalInsts: set<string>
    var customers: map<string, set<string>>
    /** Commands issued, in order. */
    var commands: seq<Command>

    /**
     * Every stored instrumentation sits under its qualified id and in the scope set of its
     * customer (or the global one), and the scope sets hold nothing else.
     */
    ghost predicate Valid()
      reads this
    {
      Namespace(insts, globalInsts, customers)
    }

    constructor ()
      ensures Valid()
      ensures instrumenters == map[] && aggregators == map[] && statmods == map[] && transformations == map[]
      ensures insts == map[] && globalInsts == {} && customers == map[] && commands == []
    {
      instrumenters, aggregators, statmods, transformations := map[], map[], map[], map[];
      insts, globalInsts, customers, commands := map[], {}, map[], [];
    }

    /** The scope set of a customer (or the global one); reads it without creating it. */
    ghost function ScopeOf(custid: Option<string>): set<string>
      reads this
    {
      if custid.None? then globalInsts else if custid.value in customers then customers[custid.value] else {}
    }

    /**
     * cfgInstrumentations: the global set for no customer; a customer's set, created empty on
     * first use and never replaced.
     */
    method Instrumentations(custid: Option<string>) returns (scope: set<string>)
      requires Valid()
      modifies this
      ensures Valid()
      ensures scope == old(ScopeOf(custid))
      ensures custid.None? ==> customers == old(customers)
      ensures custid.Some? ==> customers == (if custid.value in old(customers) then old(customers)
                                             else old(customers)[custid.value := {}])
      ensures instrumenters == old(instrumenters) && aggregators == old(aggregators) && statmods == old(statmods)
      ensures transformations == old(transformations) && insts == old(insts) && globalInsts == old(globalInsts)
      ensures commands == old(commands)
    {
      if custid.None? {
        return globalInsts;
      }
      if custid.value !in customers {
        customers := customers[custid.value := {}];
      }
      scope := customers[custid.value];
    }

    /**
     * cfgNotifyInstrumenterOnline: a new host starts with no instrumentations; a known one
     * keeps them while its identity is overwritten; the catalog is merged, the stat count
     * recomputed, and every instrumentation of the host enabled on it once.
     */
    method InstrumenterOnline(msg: InstrumenterOnlineMsg)
      requires Valid()
      modifies this
      ensures Valid()
      ensures var prev := if msg.hostname in old(instrumenters) then old(instrumenters)[msg.hostname]
                          else InstrumenterRec(msg.hostname, msg.id, 0, {}, 0);
        instrumenters == old(instrumenters)[msg.hostname :=
          InstrumenterRec(msg.hostname, msg.id, StatCount(msg.modules), prev.insts, prev.ninsts)]
      ensures statmods == MergeCatalog(old(statmods), msg.modules)
      ensures |commands| >= |old(commands)| && commands[..|old(commands)|] == old(commands)
      ensures OnePerId(commands[|old(commands)|..], instrumenters[msg.hostname].insts, Some(msg.hostname))
      ensures aggregators == old(aggregators) && transformations == old(transformations)
      ensures insts == old(insts) && globalInsts == old(globalInsts) && customers == old(customers)
    {
      var prev := if msg.hostname in instrumenters then instrumenters[msg.hostname]
                  else InstrumenterRec(msg.hostname, msg.id, 0, {}, 0);
      var cat, count := MergeAdvertised(statmods, msg.modules);
      statmods := cat;
      instrumenters := instrumenters[msg.hostname := InstrumenterRec(msg.hostname, msg.id, count, prev.insts, prev.ninsts)];
      var sent := EnableAll(msg.hostname, prev.insts);
      commands := commands + sent;
      assert commands[|old(commands)|..] == sent;
    }

    /**
     * cfgNotifyAggregatorOnline: a message without a port or without transformations
     * changes nothing; otherwise a restarted aggregator keeps its instrumentations, the
     * transformations merge first-writer-wins, and each of its instrumentations is
     * re-enabled once.
     */
    method AggregatorOnline(msg: AggregatorOnlineMsg)
      requires Valid()
      modifies this
      ensures Valid()
      ensures msg.httpPort.None? || msg.transformations.None? ==>
        aggregators == old(aggregators) && transformations == old(transformations) && commands == old(commands)
      ensures msg.httpPort.Some? && msg.transformations.Some? ==>
        var prev := if msg.hostname in old(aggregators) then old(aggregators)[msg.hostname]
                    else AggregatorRec(msg.hostname, msg.id, 0, map[], {}, 0);
        && aggregators == old(aggregators)[msg.hostname := AggregatorRec(msg.hostname, msg.id, msg.httpPort.value,
                                                                         msg.transformations.value, prev.insts, prev.ninsts)]
        && transformations == MergeTransforms(old(transformations), msg.transformations.value)
        && |commands| >= |old(commands)| && commands[..|old(commands)|] == old(commands)
        && OnePerId(commands[|old(commands)|..], prev.insts, None)
      ensures instrumenters == old(instrumenters) && statmods == old(statmods)
      ensures insts == old(insts) && globalInsts == old(globalInsts) && customers == old(customers)
    {
      if msg.httpPort.None? || msg.transformations.None? {
        return;
      }
      var prev := if msg.hostname in aggregators then aggregators[msg.hostname]
                  else AggregatorRec(msg.hostname, msg.id, 0, map[], {}, 0);
      var offered := msg.transformations.value;
      aggregators := aggregators[msg.hostname := AggregatorRec(msg.hostname, msg.id, msg.httpPort.value,
                                                               offered, prev.insts, prev.ninsts)];
      var merged := AddTransforms(transformations, offered);
      transformations := merged;
      var sent := ReenableAll(prev.insts);
      commands := commands + sent;
      assert commands[|old(commands)|..] == sent;
    }

    /**
     * The callback of cfgHttpInstCreate: on success the instrumentation is stored under its
     * qualified id and added to its scope (201); an invalid request gives 400, any other
     * failure 500, both with no change.
     */
    method CreateDone(outcome: CreateOutcome) returns (code: int)
      requires Valid()
      modifies this
      ensures (outcome.Created? && outcome.inst.custid.Some? ==> Clean(outcome.inst.custid.value)) ==> Valid()
      ensures outcome.Invalid? ==> code == EBADREQUEST
      ensures outcome.ServerError? ==> code == ESERVER
      ensures !outcome.Created? ==> insts == old(insts) && globalInsts == old(globalInsts) && customers == old(customers)
      ensures outcome.Created? ==>
        var r := outcome.inst;
        var q := QualifiedId(r.custid, r.instid);
        && code == CREATED
        && insts == old(insts)[q := r]
        && (r.custid.None? ==> globalInsts == old(globalInsts) + {q} && customers == old(customers))
        && (r.custid.Some? ==>
              globalInsts == old(globalInsts) && customers == old(customers)[r.custid.value := old(ScopeOf(r.custid)) + {q}])
      ensures instrumenters == old(instrumenters) && aggregators == old(aggregators) && statmods == old(statmods)
      ensures transformations == old(transformations) && commands == old(commands)
    {
      match outcome
      case Invalid(_) =>
        return EBADREQUEST;
      case ServerError(_) =>
        return ESERVER;
      case Created(r) =>
        var q := QualifiedId(r.custid, r.instid);
        insts := insts[q := r];
        if r.custid.None? {
          globalInsts := globalInsts + {q};
        } else {
          var scope := if r.custid.value in customers then customers[r.custid.value] else {};
          customers := customers[r.custid.value := scope + {q}];
        }
        code := CREATED;
        if r.custid.Some? ==> Clean(r.custid.value) {
          CreatePreserves(old(insts), old(globalInsts), old(customers), r);
        }
    }

    /**
     * cfgHttpInstDelete: an unknown id gives 404 and changes nothing; a known one leaves
     * the scope set and cfg_insts, then the destroy command is issued, and 200 is returned.
     */
    method Delete(custid: Option<string>, instid: string) returns (code: int)
      requires Valid()
      modifies this
      ensures (custid.Some? ==> Clean(custid.value)) ==> Valid()
      ensures var q := QualifiedId(custid, instid);
        && (q !in old(insts) ==> code == ENOTFOUND && insts == old(insts) && globalInsts == old(globalInsts) &&
                                 customers == old(customers) && commands == old(commands))
        && (q in old(insts) ==>
              && code == OK
              && insts == old(insts) - {q}
              && (custid.None? ==> globalInsts == old(globalInsts) - {q} && customers == old(customers))
              && (custid.Some? ==>
                    globalInsts == old(globalInsts) && customers == old(customers)[custid.value := old(ScopeOf(custid)) - {q}])
              && commands == old(commands) + [Destroy(q)])
      ensures instrumenters == old(instrumenters) && aggregators == old(aggregators) && statmods == old(statmods)
      ensures transformations == old(transformations)
    {
      var q := QualifiedId(custid, instid);
      if q !in insts {
        return ENOTFOUND;
      }
      if custid.None? {
        globalInsts := globalInsts - {q};
      } else {
        var scope := if custid.value in customers then customers[custid.value] else {};
        customers := customers[custid.value := scope - {q}];
      }
      insts := insts - {q};
      code := OK;
      commands := commands + [Destroy(q)];
      if custid.Some? ==> Clean(custid.value) {
        DeletePreserves(old(insts), old(globalInsts), old(customers), custid, instid);
      }
    }

    /** cfgHttpInstGetProperties: 404 for an unknown id, else 200 with the stored properties. */
    method GetProperties(custid: Option<string>, instid: string) returns (code: int, props: Option<map<string, string>>)
      ensures var q := QualifiedId(custid, instid);
        && (q !in insts ==> code == ENOTFOUND && props == None)
        && (q in insts ==> code == OK && props == Some(insts[q].props))
    {
      var q := QualifiedId(custid, instid);
      if q !in insts {
        return ENOTFOUND, None;
      }
      return OK, Some(insts[q].props);
    }

    /**
     * cfgHttpInstrumentationsList: the customer's scope, or with no customer the global
     * scope followed by every customer's; the customer's set is created if new.
     */
    method List(custid: Option<string>) returns (rv: seq<InstRec>)
      requires Valid()
      modifies this
      ensures Valid()
      ensures custid.Some? ==> customers == (if custid.value in old(customers) then old(customers)
                                             else old(customers)[custid.value := {}])
      ensures custid.None? ==> customers == old(customers)
      ensures forall r :: r in rv ==> r in insts.Values
      ensures custid.Some? ==> forall r :: r in rv ==> r.custid == custid
      ensures custid.Some? ==> forall q :: q in insts && insts[q].custid == custid ==> insts[q] in rv
      ensures custid.None? ==> forall q :: q in insts ==> insts[q] in rv
      ensures instrumenters == old(instrumenters) && aggregators == old(aggregators) && statmods == old(statmods)
      ensures transformations == old(transformations) && insts == old(insts) && globalInsts == old(globalInsts)
      ensures commands == old(commands)
    {
      var scope := Instrumentations(custid);
      rv := ListScope(insts, scope);
      if custid.None? {
        var more := ListCustomers(insts, globalInsts, customers);
        rv := rv + more;
      }
    }
  }

  /** The loop over every customer's scope, for a listing without a customer. */
  method ListCustomers(insts: map<string, InstRec>, globalInsts: set<string>, customers: map<string, set<string>>)
    returns (rv: seq<InstRec>)
    requires Namespace(insts, globalInsts, customers)
    ensures forall r :: r in rv ==> r in insts.Values
    ensures forall q :: q in insts && insts[q].custid.Some? ==> insts[q] in rv
  {
    rv := [];
    var cs := customers.Keys;
    while cs != {}
      invariant cs <= customers.Keys
      invariant forall r :: r in rv ==> r in insts.Values
      invariant forall c, q :: c in customers && c !in cs && q in customers[c] ==> insts[q] in rv
      decreases cs
    {
      var c :| c in cs;
      var more := ListScope(insts, customers[c]);
      rv := rv + more;
      cs := cs - {c};
    }
    forall q | q in insts && insts[q].custid.Some? ensures insts[q] in rv {
      assert q in customers[insts[q].custid.value];
    }
  }

  /** cfgInstrumentationsListCustomer: the records of a scope, each once. */
  method ListScope(insts: map<string, InstRec>, scope: set<string>) returns (rv: seq<InstRec>)
    requires scope <= insts.Keys
    ensures |rv| == |scope|
    ensures forall r :: r in rv ==> exists q :: q in scope && insts[q] == r
    ensures forall q :: q in scope ==> insts[q] in rv
  {
    rv := [];
    var todo := scope;
    while todo != {}
      invariant todo <= scope && |rv| + |todo| == |scope|
      invariant forall r :: r in rv ==> exists q :: q in scope && insts[q] == r
      invariant forall q :: q in scope && q !in todo ==> insts[q] in rv
      decreases todo
    {
      var q :| q in todo;
      rv := rv + [insts[q]];
      todo := todo - {q};
    }
  }

  /** The catalog loops of cfgNotifyInstrumenterOnline, with the stat count. */
  method MergeAdvertised(cat: Catalog, mods: seq<ModuleAd>) returns (r: Catalog, count: nat)
    ensures r == MergeCatalog(cat, mods) && count == StatCount(mods)
  {
    r, count := cat, 0;
    var mm := 0;
    while mm < |mods|
      invariant 0 <= mm <= |mods|
      invariant r == MergeCatalog(cat, mods[..mm]) && count == StatCount(mods[..mm])
    {
      assert mods[..mm + 1][..mm] == mods[..mm];
      var mod := mods[mm];
      var entry := if mod.name in r then r[mod.name] else CatModule(mod.description, map[]);
      var merged := MergeStatsLoop(entry, mod.stats);
      r := r[mod.name := merged];
      count := count + |mod.stats|;
      mm := mm + 1;
    }
    assert mods[..mm] == mods;
  }

  method MergeStatsLoop(m: CatModule, stats: seq<StatAd>) returns (r: CatModule)
    ensures r == MergeStats(m, stats)
  {
    r := m;
    var ss := 0;
    while ss < |stats|
      invariant 0 <= ss <= |stats|
      invariant r == MergeStats(m, stats[..ss])
    {
      assert stats[..ss + 1][..ss] == stats[..ss];
      var s := stats[ss];
      var entry := if s.name in r.stats then r.stats[s.name] else CatStat(s.description, s.stype, map[]);
      var fields := MergeFieldsLoop(entry.fields, s.fields);
      r := r.(stats := r.stats[s.name := entry.(fields := fields)]);
      ss := ss + 1;
    }
    assert stats[..ss] == stats;
  }

  method MergeFieldsLoop(fields: map<string, CatField>, ads: seq<FieldAd>) returns (r: map<string, CatField>)
    ensures r == MergeFields(fields, ads)
  {
    r := fields;
    var ff := 0;
    while ff < |ads|
      invariant 0 <= ff <= |ads|
      invariant r == MergeFields(fields, ads[..ff])
    {
      assert ads[..ff + 1][..ff] == ads[..ff];
      var f := ads[ff];
      if f.name !in r {
        r := r[f.name := CatField(f.ftype, f.description)];
      }
      ff := ff + 1;
    }
    assert ads[..ff] == ads;
  }

  /** The loop over an aggregator's transformations. */
  method AddTransforms(known: map<string, string>, offered: map<string, string>) returns (r: map<string, string>)
    ensures r == MergeTransforms(known, offered)
  {
    r := known;
    var todo := offered.Keys;
    while todo != {}
      invariant todo <= offered.Keys
      invariant r == MergeTransforms(known, map k | k in offered && k !in todo :: offered[k])
      decreases todo
    {
      var t :| t in todo;
      if t !in r {
        r := r[t := offered[t]];
      }
      todo := todo - {t};
    }
  }

  /** One enable command per instrumentation of the host. */
  method EnableAll(host: string, ids: set<string>) returns (sent: seq<Command>)
    ensures OnePerId(sent, ids, Some(host))
  {
    sent := [];
    var todo := ids;
    while todo != {}
      invariant todo <= ids && |sent| + |todo| == |ids|
      invariant forall i :: 0 <= i < |sent| ==> sent[i] == EnableOn(host, sent[i].fqid) && sent[i].fqid in ids && sent[i].fqid !in todo
      invariant forall i, j :: 0 <= i < j < |sent| ==> sent[i].fqid != sent[j].fqid
      invariant forall id :: id in ids && id !in todo ==> exists i :: 0 <= i < |sent| && sent[i].fqid == id
      decreases todo
    {
      var id :| id in todo;
      var before := sent;
      sent := sent + [EnableOn(host, id)];
      todo := todo - {id};
      assert sent[|before|].fqid == id;
      forall other | other in ids && other !in todo ensures exists i :: 0 <= i < |sent| && sent[i].fqid == other {
        if other != id {
          var i :| 0 <= i < |before| && before[i].fqid == other;
          assert sent[i].fqid == other;
        }
      }
    }
  }

  /** One re-enable command per instrumentation of the aggregator. */
  method ReenableAll(ids: set<string>) returns (sent: seq<Command>)
    ensures OnePerId(sent, ids, None)
  {
    sent := [];
    var todo := ids;
    while todo != {}
      invariant todo <= ids && |sent| + |todo| == |ids|
      invariant forall i :: 0 <= i < |sent| ==> sent[i] == ReenableAggregator(sent[i].fqid) && sent[i].fqid in ids && sent[i].fqid !in todo
      invariant forall i, j :: 0 <= i < j < |sent| ==> sent[i].fqid != sent[j].fqid
      invariant forall id :: id in ids && id !in todo ==> exists i :: 0 <= i < |sent| && sent[i].fqid == id
      decreases todo
    {
      var id :| id in todo;
      var before := sent;
      sent := sent + [ReenableAggregator(id)];
      todo := todo - {id};
      assert sent[|before|].fqid == id;
      forall other | other in ids && other !in todo ensures exists i :: 0 <= i < |sent| && sent[i].fqid == other {
        if other != id {
          var i :| 0 <= i < |before| && before[i].fqid == other;
          assert sent[i].fqid == other;
        }
      }
    }
  }

  /** The namespace invariant, on the tables as values. */
  ghost predicate Namespace(insts: map<string, InstRec>, globalInsts: set<string>, customers: map<string, set<string>>)
  {
    && (forall q :: q in insts ==>
          var r := insts[q];
          && q == QualifiedId(r.custid, r.instid)
          && (r.custid.Some? ==> Clean(r.custid.value))
          && (if r.custid.None? then q in globalInsts else r.custid.value in customers && q in customers[r.custid.value]))
    && (forall q :: q in globalInsts ==> q in insts && insts[q].custid.None?)
    && (forall c, q :: c in customers && q in customers[c] ==> q in insts && insts[q].custid == Some(c))
  }

  lemma CreatePreserves(insts: map<string, InstRec>, globalInsts: set<string>, customers: map<string, set<string>>, r: InstRec)
    requires Namespace(insts, globalInsts, customers)
    requires r.custid.Some? ==> Clean(r.custid.value)
    ensures var q := QualifiedId(r.custid, r.instid);
      Namespace(insts[q := r],
                if r.custid.None? then globalInsts + {q} else globalInsts,
                if r.custid.None? then customers
                else customers[r.custid.value := (if r.custid.value in customers then customers[r.custid.value] else {}) + {q}])
  {
    var q := QualifiedId(r.custid, r.instid);
    var ni := insts[q := r];
    var ng := if r.custid.None? then globalInsts + {q} else globalInsts;
    var nc := if r.custid.None? then customers
              else customers[r.custid.value := (if r.custid.value in customers then customers[r.custid.value] else {}) + {q}];
    if q in insts {
      QualifiedIdInjective(insts[q].custid, insts[q].instid, r.custid, r.instid);
    }
    forall q2 | q2 in ng ensures q2 in ni && ni[q2].custid.None? {
      if q2 != q {
        assert q2 in globalInsts;
      }
    }
    forall c, q2 | c in nc && q2 in nc[c] ensures q2 in ni && ni[q2].custid == Some(c) {
      if q2 != q {
        assert c in customers && q2 in customers[c];
      }
    }
  }

  lemma DeletePreserves(insts: map<string, InstRec>, globalInsts: set<string>, customers: map<string, set<string>>,
                        custid: Option<string>, instid: string)
    requires Namespace(insts, globalInsts, customers)
    requires custid.Some? ==> Clean(custid.value)
    requires QualifiedId(custid, instid) in insts
    ensures var q := QualifiedId(custid, instid);
      Namespace(insts - {q},
                if custid.None? then globalInsts - {q} else globalInsts,
                if custid.None? then customers
                else customers[custid.value := (if custid.value in customers then customers[custid.value] else {}) - {q}])
  {
    var q := QualifiedId(custid, instid);
    QualifiedIdInjective(insts[q].custid, insts[q].instid, custid, instid);
  }

  // ---------------------------------------------------------------------------
  // The status fan-out (cfgAdminStatus)
  // ---------------------------------------------------------------------------

  datatype NodeKind = AggregatorNode | InstrumenterNode

  datatype Node = Node(kind: NodeKind, host: string)

  /** A node's entry: an error (initially 'timed out') or the status it reported. */
  datatype NodeStatus = Error(error: string) | Status(status: string)

  function Nodes(aggregators: set<string>, instrumenters: set<string>): set<Node>
  {
    (set h | h in aggregators :: Node(AggregatorNode, h)) + (set h | h in instrumenters :: Node(InstrumenterNode, h))
  }

  /** One status request in progress: the counter, the entries and the callback's firings. */
  class StatusRequest {
    var nrequests: int
    var outstanding: set<Node>
    var entries: map<Node, NodeStatus>
    var fired: nat

    /** The counter is the number of replies still awaited; the callback has fired once it is 0. */
    ghost predicate Valid()
      reads this
    {
      && nrequests == |outstanding|
      && outstanding <= entries.Keys
      && fired == (if nrequests == 0 then 1 else 0)
    }

    /**
     * cfgAdminStatus: the counter starts at 1. Without recursion checkdone fires the
     * callback at once; with it, every node is pre-set to 'timed out', counted, and queried,
     * and the final checkdone brings the counter to the number of queries.
     */
    constructor (aggregators: set<string>, instrumenters: set<string>, recurse: bool)
      ensures Valid()
      ensures !recurse ==> nrequests == 0 && fired == 1 && entries == map[] && outstanding == {}
      ensures recurse ==>
        && outstanding == Nodes(aggregators, instrumenters)
        && entries == (map n | n in Nodes(aggregators, instrumenters) :: Error("timed out"))
        && nrequests == |Nodes(aggregators, instrumenters)|
    {
      var count := 1;
      var asked: set<Node> := {};
      if recurse {
        var todo := Nodes(aggregators, instrumenters);
        while todo != {}
          invariant todo + asked == Nodes(aggregators, instrumenters) && todo !! asked
          invariant count == 1 + |asked|
          decreases todo
        {
          var n :| n in todo;
          count := count + 1;
          asked := asked + {n};
          todo := todo - {n};
        }
      }
      count := count - 1;
      nrequests := count;
      outstanding := asked;
      entries := map n | n in asked :: Error("timed out");
      fired := if count == 0 then 1 else 0;
    }

    /**
     * The reply (or timeout) for node n: its entry becomes the error or the reported status,
     * and checkdone fires the callback when it was the last one awaited.
     */
    method Reply(n: Node, err: Option<string>, status: string)
      requires Valid() && n in outstanding
      modifies this
      ensures Valid()
      ensures outstanding == old(outstanding) - {n}
      ensures entries == old(entries)[n := if err.Some? then Error(err.value) else Status(status)]
      ensures nrequests == old(nrequests) - 1
      ensures fired == (if outstanding == {} then 1 else 0)
    {
      entries := entries[n := if err.Some? then Error(err.value) else Status(status)];
      outstanding := outstanding - {n};
      nrequests := nrequests - 1;
      if nrequests == 0 {
        fired := fired + 1;
      }
    }
  }
}
