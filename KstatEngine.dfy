/**
 * The kstat-based metric engine of the instrumenter (cmd/cainst/modules/kstat.js):
 * descriptor validation, expansion of one kstat into data points (the Cartesian product of
 * the per-field value lists), the decomposition fold into a scalar, a keyed map or a
 * histogram, and the per-instrumentation object that keeps the previous snapshot.
 */
module KstatEngine {
  import opened Wrappers
  import opened Buckets

  // ---------------------------------------------------------------------------
  // Values, kstats and metric descriptors
  // ---------------------------------------------------------------------------

  /** A field value: a string, a number, or undefined (a field a data point does not assign). */
  datatype Val = Str(s: string) | Num(n: int) | Undefined

  /** One kstat: its identity, its snapshot time and its named counters. */
  datatype Kstat = Kstat(modname: string, instance: int, kclass: string, name: string,
                         snaptime: int, data: map<string, int>)

  /** Value lists are never empty (kstatDataPointsFrom asserts it). */
  type ValueList = s: seq<Val> | |s| > 0 witness [Undefined]

  /** A field's values(kstat, klast, interval). */
  type ValuesFn = (Kstat, Kstat, int) -> ValueList

  /** A metric's extract(fields, kstat, klast, interval). */
  type ExtractFn = (map<string, Val>, Kstat, Kstat, int) -> int

  /** An instrumentation's predicate, evaluated on a data point's fields. */
  type Predicate = map<string, Val> -> bool

  /** Bucketizer configurations whose arithmetic is exact (see Buckets.ValidBucketizer). */
  type GoodBucketizer = b: Bucketizer | ValidBucketizer(b) witness Linear(1)

  datatype Arity = Discrete | Numeric

  /** The names of the two field types the metric table uses (mod_ca.ca_type_string / ca_type_number). */
  const TypeString := "string"
  const TypeNumber := "number"

  /** caTypeToArity: strings are discrete, numbers numeric, anything else has no arity. */
  function TypeArity(t: string): Option<Arity>
  {
    if t == TypeString then Some(Discrete) else if t == TypeNumber then Some(Numeric) else None
  }

  /** A field of a metric: label, type, optional values function and optional bucketizer. */
  datatype FieldInfo = FieldInfo(title: string, ftype: string, values: Option<ValuesFn>,
                                 bucketize: Option<GoodBucketizer>)

  /** The fields object of a descriptor, in its key order. */
  datatype FieldDecl = FieldDecl(name: string, info: FieldInfo)

  /** One entry of the metric table. */
  datatype MetricDesc = MetricDesc(modname: string, stat: string, title: string, mtype: string,
                                   kstat: map<string, string>, extract: Option<ExtractFn>,
                                   fields: seq<FieldDecl>)

  /** Field names are keys of a JavaScript object, hence distinct. */
  predicate DistinctNames(fs: seq<FieldDecl>)
  {
    forall i, j :: 0 <= i < j < |fs| ==> fs[i].name != fs[j].name
  }

  function Names(fs: seq<FieldDecl>): set<string>
  {
    if fs == [] then {} else {fs[0].name} + Names(fs[1..])
  }

  lemma {:induction false} NamesMember(fs: seq<FieldDecl>, x: string)
    ensures x in Names(fs) <==> exists j :: 0 <= j < |fs| && fs[j].name == x
  {
    if fs != [] {
      NamesMember(fs[1..], x);
      if x in Names(fs[1..]) {
        var j :| 0 <= j < |fs| - 1 && fs[1..][j].name == x;
        assert fs[j + 1].name == x;
      }
      forall j | 1 <= j < |fs| && fs[j].name == x ensures x in Names(fs[1..]) {
        assert fs[1..][j - 1].name == x;
      }
    }
  }

  /** The first declaration of a field, as desc.fields[name] finds it. */
  function Lookup(fs: seq<FieldDecl>, name: string): (r: Option<FieldInfo>)
    ensures r.Some? <==> exists j :: 0 <= j < |fs| && fs[j].name == name
    ensures r.Some? ==> exists j :: 0 <= j < |fs| && fs[j] == FieldDecl(name, r.value)
  {
    if fs == [] then None
    else if fs[0].name == name then Some(fs[0].info)
    else
      var r := Lookup(fs[1..], name);
      assert forall j :: 1 <= j < |fs| ==> fs[j] == fs[1..][j - 1];
      r
  }

  // ---------------------------------------------------------------------------
  // Validation (inskAutoMetricValidate) and the hostname field (inskInitAutoMetrics)
  // ---------------------------------------------------------------------------

  /** A field passes when label and type are non-empty and only numeric fields bucketize. */
  predicate ValidField(f: FieldInfo)
  {
    && |f.title| > 0
    && |f.ftype| > 0
    && match TypeArity(f.ftype)
       case None => false
       case Some(Discrete) => f.bucketize.None?
       case Some(Numeric) => f.bucketize.Some?
  }

  /** The checks on the descriptor itself: non-empty names, a non-empty kstat selector, an extract. */
  predicate ValidHeader(d: MetricDesc)
  {
    |d.modname| > 0 && |d.stat| > 0 && |d.title| > 0 && |d.mtype| > 0 && |d.kstat| > 0 && d.extract.Some?
  }

  predicate ValidDescriptor(d: MetricDesc)
  {
    ValidHeader(d) && forall i :: 0 <= i < |d.fields| ==> ValidField(d.fields[i].info)
  }

  /** inskAutoMetricValidate: ok exactly when every assertion it makes holds. */
  method ValidateMetric(d: MetricDesc) returns (ok: bool)
    ensures ok <==> ValidDescriptor(d)
  {
    if !(|d.modname| > 0 && |d.stat| > 0 && |d.title| > 0 && |d.mtype| > 0) {
      return false;
    }
    if !(|d.kstat| > 0 && d.extract.Some?) {
      return false;
    }
    var i := 0;
    while i < |d.fields|
      invariant 0 <= i <= |d.fields|
      invariant forall j :: 0 <= j < i ==> ValidField(d.fields[j].info)
    {
      var field := d.fields[i].info;
      if !(|field.title| > 0 && |field.ftype| > 0) {
        return false;
      }
      var arity := TypeArity(field.ftype);
      if arity == Some(Discrete) {
        if field.bucketize.Some? {
          return false;
        }
      } else {
        if arity != Some(Numeric) || field.bucketize.None? {
          return false;
        }
      }
      i := i + 1;
    }
    ok := true;
  }

  /** The hostname field every metric gets: a string with the single value [hostname]. */
  function HostnameField(hostname: string): FieldInfo
  {
    FieldInfo("hostname", TypeString, Some((k: Kstat, kl: Kstat, iv: int) => [Str(hostname)]), None)
  }

  /** fields[name] = info on a JavaScript object: overwrite in place, or append a new key. */
  function SetField(fs: seq<FieldDecl>, name: string, info: FieldInfo): (r: seq<FieldDecl>)
    ensures |r| == |fs| || r == fs + [FieldDecl(name, info)]
  {
    if fs == [] then [FieldDecl(name, info)]
    else if fs[0].name == name then [FieldDecl(name, info)] + fs[1..]
    else [fs[0]] + SetField(fs[1..], name, info)
  }

  /** The descriptor as registered: with the hostname field set. */
  function WithHostname(d: MetricDesc, hostname: string): MetricDesc
  {
    d.(fields := SetField(d.fields, "hostname", HostnameField(hostname)))
  }

  /**
   * Setting a field keeps names distinct, makes the name present with the new info, and
   * leaves every other declaration as it was, in order.
   */
  lemma {:induction false} SetFieldFacts(fs: seq<FieldDecl>, name: string, info: FieldInfo)
    requires DistinctNames(fs)
    ensures var r := SetField(fs, name, info);
      && DistinctNames(r)
      && Names(r) == Names(fs) + {name}
      && Lookup(r, name) == Some(info)
      && (forall x :: x != name ==> Lookup(r, x) == Lookup(fs, x))
      && (forall j :: 0 <= j < |r| && r[j].name != name ==> r[j] in fs)
      && (forall j :: 0 <= j < |fs| && fs[j].name != name ==> fs[j] in r)
  {
    SetFieldNames(fs, name, info);
    SetFieldLookup(fs, name, info);
    SetFieldMembers(fs, name, info);
  }

  lemma {:induction false} SetFieldNames(fs: seq<FieldDecl>, name: string, info: FieldInfo)
    requires DistinctNames(fs)
    ensures DistinctNames(SetField(fs, name, info)) && Names(SetField(fs, name, info)) == Names(fs) + {name}
  {
    if fs == [] {
    } else if fs[0].name == name {
      var r := SetField(fs, name, info);
      assert forall j :: 0 <= j < |r| ==> r[j].name == fs[j].name;
    } else {
      var r := SetField(fs, name, info);
      var t := SetField(fs[1..], name, info);
      SetFieldNames(fs[1..], name, info);
      assert r == [fs[0]] + t;
      NamesMember(fs[1..], fs[0].name);
      NamesMember(t, fs[0].name);
      forall i, j | 0 <= i < j < |r| ensures r[i].name != r[j].name {
        assert r[j] == t[j - 1];
        if i > 0 {
          assert r[i] == t[i - 1];
        }
      }
    }
  }

  lemma {:induction false} SetFieldLookup(fs: seq<FieldDecl>, name: string, info: FieldInfo)
    ensures Lookup(SetField(fs, name, info), name) == Some(info)
    ensures forall x :: x != name ==> Lookup(SetField(fs, name, info), x) == Lookup(fs, x)
  {
    if fs != [] {
      var r := SetField(fs, name, info);
      if fs[0].name == name {
        assert r[1..] == fs[1..];
      } else {
        SetFieldLookup(fs[1..], name, info);
        assert r[1..] == SetField(fs[1..], name, info);
      }
    }
  }

  lemma {:induction false} SetFieldMembers(fs: seq<FieldDecl>, name: string, info: FieldInfo)
    ensures var r := SetField(fs, name, info);
      && (forall j :: 0 <= j < |r| && r[j].name != name ==> r[j] in fs)
      && (forall j :: 0 <= j < |fs| && fs[j].name != name ==> fs[j] in r)
  {
    if fs != [] {
      var r := SetField(fs, name, info);
      if fs[0].name == name {
        assert forall j :: 1 <= j < |r| ==> r[j] == fs[j];
      } else {
        var t := SetField(fs[1..], name, info);
        SetFieldMembers(fs[1..], name, info);
        assert r == [fs[0]] + t;
        assert forall j :: 1 <= j < |r| ==> r[j] == t[j - 1];
        assert forall j :: 1 <= j < |fs| ==> fs[j] == fs[1..][j - 1];
      }
    }
  }

  /**
   * With the hostname field added, a descriptor validates exactly when its header does and
   * every field other than any previous hostname field does: the added field is always valid.
   */
  lemma WithHostnameValid(d: MetricDesc, hostname: string)
    requires DistinctNames(d.fields)
    ensures ValidDescriptor(WithHostname(d, hostname)) <==>
      ValidHeader(d) && forall i :: 0 <= i < |d.fields| && d.fields[i].name != "hostname" ==> ValidField(d.fields[i].info)
    ensures Lookup(WithHostname(d, hostname).fields, "hostname") == Some(HostnameField(hostname))
    ensures "hostname" in Names(WithHostname(d, hostname).fields)
    ensures DistinctNames(WithHostname(d, hostname).fields)
  {
    var r := WithHostname(d, hostname).fields;
    SetFieldFacts(d.fields, "hostname", HostnameField(hostname));
    assert ValidField(HostnameField(hostname));
    forall j | 0 <= j < |r| && r[j].name == "hostname" ensures r[j].info == HostnameField(hostname) {
      var k :| 0 <= k < |r| && r[k] == FieldDecl("hostname", HostnameField(hostname));
      assert k == j;
    }
    forall i | 0 <= i < |d.fields| && d.fields[i].name != "hostname" && ValidDescriptor(WithHostname(d, hostname))
      ensures ValidField(d.fields[i].info)
    {
      assert d.fields[i] in r;
    }
  }

  /** Setting a field that is not yet declared appends it after the declared ones. */
  lemma {:induction false} SetFieldAppends(fs: seq<FieldDecl>, name: string, info: FieldInfo)
    requires forall i :: 0 <= i < |fs| ==> fs[i].name != name
    ensures SetField(fs, name, info) == fs + [FieldDecl(name, info)]
  {
    if fs != [] {
      forall i | 0 <= i < |fs[1..]| ensures fs[1..][i].name != name {
        assert fs[1..][i] == fs[i + 1];
      }
      SetFieldAppends(fs[1..], name, info);
      assert [fs[0]] + (fs[1..] + [FieldDecl(name, info)]) == fs + [FieldDecl(name, info)];
    }
  }

  /** A descriptor whose own fields all validate, none named hostname, validates with the hostname field last. */
  lemma AddHostnameValid(d: MetricDesc, hostname: string)
    requires ValidHeader(d)
    requires forall i :: 0 <= i < |d.fields| ==> d.fields[i].name != "hostname" && ValidField(d.fields[i].info)
    ensures WithHostname(d, hostname).fields == d.fields + [FieldDecl("hostname", HostnameField(hostname))]
    ensures ValidDescriptor(WithHostname(d, hostname))
  {
    SetFieldAppends(d.fields, "hostname", HostnameField(hostname));
    assert ValidField(HostnameField(hostname));
  }

  /** What registerMetric receives for one field: its type and label. */
  datatype FieldSpec = FieldSpec(name: string, ftype: string, title: string)

  /** The registration inskInitAutoMetrics makes for a descriptor, or None where it panics. */
  datatype Registration = Registration(modname: string, stat: string, title: string, mtype: string,
                                       fields: seq<FieldSpec>, desc: MetricDesc)

  function Specs(fs: seq<FieldDecl>): (r: seq<FieldSpec>)
    ensures |r| == |fs|
    ensures forall j :: 0 <= j < |fs| ==> r[j] == FieldSpec(fs[j].name, fs[j].info.ftype, fs[j].info.title)
  {
    if fs == [] then [] else [FieldSpec(fs[0].name, fs[0].info.ftype, fs[0].info.title)] + Specs(fs[1..])
  }

  function Prepare(d: MetricDesc, hostname: string): Option<Registration>
  {
    var full := WithHostname(d, hostname);
    if ValidDescriptor(full) then
      Some(Registration(full.modname, full.stat, full.title, full.mtype, Specs(full.fields), full))
    else None
  }

  /**
   * Registration happens exactly for descriptors that validate once the hostname field is
   * added; it then advertises every field (hostname included) with its type and label.
   */
  lemma PrepareFacts(d: MetricDesc, hostname: string)
    requires DistinctNames(d.fields)
    ensures Prepare(d, hostname).Some? <==> ValidDescriptor(WithHostname(d, hostname))
    ensures Prepare(d, hostname).Some? ==>
      var reg := Prepare(d, hostname).value;
      && reg.modname == d.modname && reg.stat == d.stat
      && FieldSpec("hostname", TypeString, "hostname") in reg.fields
      && |reg.fields| == |reg.desc.fields|
      && (forall j :: 0 <= j < |d.fields| && d.fields[j].name != "hostname" ==>
            FieldSpec(d.fields[j].name, d.fields[j].info.ftype, d.fields[j].info.title) in reg.fields)
  {
    WithHostnameValid(d, hostname);
    SetFieldFacts(d.fields, "hostname", HostnameField(hostname));
    var full := WithHostname(d, hostname);
    var k :| 0 <= k < |full.fields| && full.fields[k] == FieldDecl("hostname", HostnameField(hostname));
    assert Specs(full.fields)[k] == FieldSpec("hostname", TypeString, "hostname");
    forall j | 0 <= j < |d.fields| && d.fields[j].name != "hostname"
      ensures FieldSpec(d.fields[j].name, d.fields[j].info.ftype, d.fields[j].info.title) in Specs(full.fields)
    {
      assert d.fields[j] in full.fields;
      var m :| 0 <= m < |full.fields| && full.fields[m] == d.fields[j];
      assert Specs(full.fields)[m] == FieldSpec(d.fields[j].name, d.fields[j].info.ftype, d.fields[j].info.title);
    }
  }

  // ---------------------------------------------------------------------------
  // Data points (kstatDataPointsFrom, kstatDataPoints)
  // ---------------------------------------------------------------------------

  /** A data point: an assignment of values to fields and the metric's value for it. */
  datatype DataPoint = DataPoint(fields: map<string, Val>, value: int)

  /** The values of a field for a kstat: its values function, or else its own name. */
  function ValuesOf(f: FieldDecl, k: Kstat, kl: Kstat, iv: int): ValueList
  {
    match f.info.values
    case Some(values) => values(k, kl, iv)
    case None => [Str(f.name)]
  }

  /** An assignment extended (or overwritten) at one field. */
  function Put(q: map<string, Val>, name: string, v: Val): map<string, Val>
  {
    q[name := v]
  }

  function Singletons(name: string, vals: seq<Val>): seq<map<string, Val>>
  {
    seq(|vals|, j requires 0 <= j < |vals| => map[name := vals[j]])
  }

  /** Every assignment of sub with name set to v (what the loop writes into rv in place). */
  function Assign(sub: seq<map<string, Val>>, name: string, v: Val): seq<map<string, Val>>
  {
    seq(|sub|, j requires 0 <= j < |sub| => Put(sub[j], name, v))
  }

  /** Copies of q with name set to each of vals[1..], in order. */
  function Row(q: map<string, Val>, name: string, vals: seq<Val>): seq<map<string, Val>>
    requires |vals| > 0
  {
    seq(|vals| - 1, kk requires 0 <= kk < |vals| - 1 => Put(q, name, vals[kk + 1]))
  }

  /** The extra list: a row of copies per entry of sub, in the order they are pushed. */
  function Copies(sub: seq<map<string, Val>>, name: string, vals: seq<Val>): seq<map<string, Val>>
    requires |vals| > 0
  {
    if sub == [] then [] else Copies(sub[..|sub| - 1], name, vals) + Row(sub[|sub| - 1], name, vals)
  }

  function Reverse<T>(s: seq<T>): (r: seq<T>)
    ensures |r| == |s|
    ensures forall i :: 0 <= i < |s| ==> r[i] == s[|s| - 1 - i]
  {
    if s == [] then [] else [s[|s| - 1]] + Reverse(s[..|s| - 1])
  }

  /**
   * The field assignments kstatDataPointsFrom produces for the fields fs: for the last field
   * one single-key assignment per value; otherwise the assignments of the remaining fields
   * with this field set to its first value, followed by the copies for the other values in
   * the reverse of the order they were made (they are popped off the extra list).
   */
  function Expand(fs: seq<FieldDecl>, k: Kstat, kl: Kstat, iv: int): seq<map<string, Val>>
    requires |fs| > 0
    decreases |fs|
  {
    var vals := ValuesOf(fs[0], k, kl, iv);
    if |fs| == 1 then Singletons(fs[0].name, vals)
    else
      var sub := Expand(fs[1..], k, kl, iv);
      Assign(sub, fs[0].name, vals[0]) + Reverse(Copies(sub, fs[0].name, vals))
  }

  /** The product of the lengths of the fields' value lists. */
  function Product(fs: seq<FieldDecl>, k: Kstat, kl: Kstat, iv: int): nat
  {
    if fs == [] then 1 else |ValuesOf(fs[0], k, kl, iv)| * Product(fs[1..], k, kl, iv)
  }

  lemma {:induction false} CopiesLength(sub: seq<map<string, Val>>, name: string, vals: seq<Val>)
    requires |vals| > 0
    ensures |Copies(sub, name, vals)| == |sub| * (|vals| - 1)
  {
    if sub != [] {
      CopiesLength(sub[..|sub| - 1], name, vals);
      assert |sub| * (|vals| - 1) == (|sub| - 1) * (|vals| - 1) + (|vals| - 1);
    }
  }

  lemma Distribute(x: int, n: int)
    ensures x + x * (n - 1) == n * x
  {
  }

  /** As many data points as the product of the value-list lengths. */
  lemma {:induction false} ExpandCount(fs: seq<FieldDecl>, k: Kstat, kl: Kstat, iv: int)
    requires |fs| > 0
    ensures |Expand(fs, k, kl, iv)| == Product(fs, k, kl, iv)
    decreases |fs|
  {
    var vals := ValuesOf(fs[0], k, kl, iv);
    assert Product(fs, k, kl, iv) == |vals| * Product(fs[1..], k, kl, iv);
    if |fs| > 1 {
      ExpandCount(fs[1..], k, kl, iv);
      var sub := Expand(fs[1..], k, kl, iv);
      var first := Assign(sub, fs[0].name, vals[0]);
      var extra := Copies(sub, fs[0].name, vals);
      assert Expand(fs, k, kl, iv) == first + Reverse(extra);
      CopiesLength(sub, fs[0].name, vals);
      Distribute(|sub|, |vals|);
    } else {
      assert fs[1..] == [];
    }
  }

  lemma {:induction false} CopiesOf(sub: seq<map<string, Val>>, name: string, vals: seq<Val>, p: map<string, Val>)
    returns (jj: nat, kk: nat)
    requires |vals| > 0 && p in Copies(sub, name, vals)
    ensures jj < |sub| && 1 <= kk < |vals| && p == Put(sub[jj], name, vals[kk])
  {
    var init := sub[..|sub| - 1];
    var row := Row(sub[|sub| - 1], name, vals);
    if p in row {
      var t :| 0 <= t < |row| && row[t] == p;
      jj, kk := |sub| - 1, t + 1;
    } else {
      jj, kk := CopiesOf(init, name, vals, p);
      assert init[jj] == sub[jj];
    }
  }

  lemma {:induction false} CopiesFrom(sub: seq<map<string, Val>>, name: string, vals: seq<Val>, jj: nat, kk: nat)
    requires 0 <= jj < |sub| && 1 <= kk < |vals|
    ensures Put(sub[jj], name, vals[kk]) in Copies(sub, name, vals)
  {
    var init := sub[..|sub| - 1];
    if jj == |sub| - 1 {
      assert Row(sub[jj], name, vals)[kk - 1] == Put(sub[jj], name, vals[kk]);
    } else {
      CopiesFrom(init, name, vals, jj, kk);
      assert init[jj] == sub[jj];
    }
  }

  lemma ReverseMember<T>(s: seq<T>, x: T)
    ensures x in Reverse(s) <==> x in s
  {
    var rev := Reverse(s);
    if x in rev {
      var t :| 0 <= t < |rev| && rev[t] == x;
      assert s[|s| - 1 - t] == x;
    }
    if x in s {
      var t :| 0 <= t < |s| && s[t] == x;
      assert rev[|s| - 1 - t] == x;
    }
  }

  /** A data point of fs is an assignment of the remaining fields with fs[0] set to one of its values, */
  lemma ExpandOf(fs: seq<FieldDecl>, k: Kstat, kl: Kstat, iv: int, p: map<string, Val>) returns (jj: nat, kk: nat)
    requires |fs| > 1 && p in Expand(fs, k, kl, iv)
    ensures jj < |Expand(fs[1..], k, kl, iv)| && kk < |ValuesOf(fs[0], k, kl, iv)|
    ensures p == Put(Expand(fs[1..], k, kl, iv)[jj], fs[0].name, ValuesOf(fs[0], k, kl, iv)[kk])
  {
    var sub := Expand(fs[1..], k, kl, iv);
    var vals := ValuesOf(fs[0], k, kl, iv);
    var name := fs[0].name;
    var first := Assign(sub, name, vals[0]);
    var extra := Copies(sub, name, vals);
    assert Expand(fs, k, kl, iv) == first + Reverse(extra);
    if p in first {
      var t :| 0 <= t < |first| && first[t] == p;
      jj, kk := t, 0;
    } else {
      ReverseMember(extra, p);
      jj, kk := CopiesOf(sub, name, vals, p);
    }
  }

  /** and every such assignment is a data point. */
  lemma ExpandFrom(fs: seq<FieldDecl>, k: Kstat, kl: Kstat, iv: int, jj: nat, kk: nat)
    requires |fs| > 1
    requires jj < |Expand(fs[1..], k, kl, iv)| && kk < |ValuesOf(fs[0], k, kl, iv)|
    ensures Put(Expand(fs[1..], k, kl, iv)[jj], fs[0].name, ValuesOf(fs[0], k, kl, iv)[kk]) in Expand(fs, k, kl, iv)
  {
    var sub := Expand(fs[1..], k, kl, iv);
    var vals := ValuesOf(fs[0], k, kl, iv);
    var name := fs[0].name;
    var first := Assign(sub, name, vals[0]);
    var extra := Copies(sub, name, vals);
    assert Expand(fs, k, kl, iv) == first + Reverse(extra);
    if kk == 0 {
      assert first[jj] == Put(sub[jj], name, vals[kk]);
    } else {
      CopiesFrom(sub, name, vals, jj, kk);
      ReverseMember(extra, Put(sub[jj], name, vals[kk]));
    }
  }

  /** Every data point assigns exactly the fields' names. */
  lemma {:induction false} ExpandKeys(fs: seq<FieldDecl>, k: Kstat, kl: Kstat, iv: int, p: map<string, Val>)
    requires |fs| > 0 && p in Expand(fs, k, kl, iv)
    ensures p.Keys == Names(fs)
    decreases |fs|
  {
    var vals := ValuesOf(fs[0], k, kl, iv);
    if |fs| == 1 {
      var sing := Singletons(fs[0].name, vals);
      var t :| 0 <= t < |sing| && sing[t] == p;
      assert fs[1..] == [];
    } else {
      var sub := Expand(fs[1..], k, kl, iv);
      var jj, kk := ExpandOf(fs, k, kl, iv, p);
      ExpandKeys(fs[1..], k, kl, iv, sub[jj]);
    }
  }

  /** With distinct names, every data point gives each field one of that field's values. */
  lemma {:induction false} ExpandValues(fs: seq<FieldDecl>, k: Kstat, kl: Kstat, iv: int, p: map<string, Val>, i: nat)
    requires |fs| > 0 && DistinctNames(fs) && p in Expand(fs, k, kl, iv) && i < |fs|
    ensures fs[i].name in p && p[fs[i].name] in ValuesOf(fs[i], k, kl, iv)
    decreases |fs|
  {
    ExpandKeys(fs, k, kl, iv, p);
    NamesMember(fs, fs[i].name);
    var vals := ValuesOf(fs[0], k, kl, iv);
    if |fs| == 1 {
      var sing := Singletons(fs[0].name, vals);
      var t :| 0 <= t < |sing| && sing[t] == p;
    } else {
      var sub := Expand(fs[1..], k, kl, iv);
      var jj, kk := ExpandOf(fs, k, kl, iv, p);
      if i > 0 {
        ExpandValues(fs[1..], k, kl, iv, sub[jj], i - 1);
        assert fs[1..][i - 1] == fs[i];
        assert fs[i].name != fs[0].name;
      }
    }
  }

  /** A field without a values function contributes its own name as its only value. */
  lemma NameAsValue(fs: seq<FieldDecl>, k: Kstat, kl: Kstat, iv: int, p: map<string, Val>, i: nat)
    requires |fs| > 0 && DistinctNames(fs) && p in Expand(fs, k, kl, iv) && i < |fs|
    requires fs[i].info.values.None?
    ensures fs[i].name in p && p[fs[i].name] == Str(fs[i].name)
  {
    ExpandValues(fs, k, kl, iv, p, i);
  }

  /** With distinct names, every assignment picking one value per field is a data point. */
  lemma {:induction false} ExpandComplete(fs: seq<FieldDecl>, k: Kstat, kl: Kstat, iv: int, a: map<string, Val>)
    requires |fs| > 0 && DistinctNames(fs)
    requires a.Keys == Names(fs)
    requires forall i :: 0 <= i < |fs| ==> fs[i].name in a && a[fs[i].name] in ValuesOf(fs[i], k, kl, iv)
    ensures a in Expand(fs, k, kl, iv)
    decreases |fs|
  {
    var name := fs[0].name;
    var vals := ValuesOf(fs[0], k, kl, iv);
    NamesMember(fs, name);
    assert a[fs[0].name] in vals;
    var kk :| 0 <= kk < |vals| && vals[kk] == a[name];
    if |fs| == 1 {
      assert fs[1..] == [];
      assert a == map[name := vals[kk]];
      assert Singletons(name, vals)[kk] == a;
    } else {
      var rest := fs[1..];
      var q := a - {name};
      NamesMember(rest, name);
      assert name !in Names(rest) by {
        forall j | 0 <= j < |rest| ensures rest[j].name != name {
          assert rest[j] == fs[j + 1];
        }
      }
      assert q.Keys == Names(rest);
      forall i | 0 <= i < |rest| ensures rest[i].name in q && q[rest[i].name] in ValuesOf(rest[i], k, kl, iv) {
        assert rest[i] == fs[i + 1];
        assert rest[i].name != name;
      }
      assert DistinctNames(rest) by {
        forall i, j | 0 <= i < j < |rest| ensures rest[i].name != rest[j].name {
          assert rest[i] == fs[i + 1] && rest[j] == fs[j + 1];
        }
      }
      ExpandComplete(rest, k, kl, iv, q);
      var sub := Expand(rest, k, kl, iv);
      var jj :| 0 <= jj < |sub| && sub[jj] == q;
      assert a == Put(q, name, vals[kk]);
      ExpandFrom(fs, k, kl, iv, jj, kk);
    }
  }

  /** The last field's case: one single-key assignment per value. */
  method SingleAssignments(name: string, vals: seq<Val>) returns (rv: seq<map<string, Val>>)
    ensures rv == Singletons(name, vals)
  {
    rv := [];
    var jj := 0;
    while jj < |vals|
      invariant 0 <= jj <= |vals|
      invariant |rv| == jj
      invariant forall t :: 0 <= t < jj ==> rv[t] == map[name := vals[t]]
    {
      rv := rv + [map[name := vals[jj]]];
      jj := jj + 1;
    }
  }

  /**
   * The loop over the remaining fields' assignments: write the first value into each in
   * place and collect a copy for every further value on the extra list.
   */
  method AssignField(sub: seq<map<string, Val>>, name: string, vals: seq<Val>)
    returns (rv: seq<map<string, Val>>, extra: seq<map<string, Val>>)
    requires |vals| > 0
    ensures rv == Assign(sub, name, vals[0])
    ensures extra == Copies(sub, name, vals)
  {
    rv := sub;
    extra := [];
    var jj := 0;
    while jj < |rv|
      invariant |rv| == |sub| && 0 <= jj <= |rv|
      invariant forall t :: 0 <= t < jj ==> rv[t] == Put(sub[t], name, vals[0])
      invariant forall t :: jj <= t < |rv| ==> rv[t] == sub[t]
      invariant extra == Copies(sub[..jj], name, vals)
    {
      rv := rv[jj := rv[jj][name := vals[0]]];
      var kk := 1;
      while kk < |vals|
        invariant 1 <= kk <= |vals|
        invariant extra == Copies(sub[..jj], name, vals) + Row(sub[jj], name, vals[..kk])
      {
        var dpfields := rv[jj][name := vals[kk]];
        assert dpfields == Put(sub[jj], name, vals[kk]);
        assert Row(sub[jj], name, vals[..kk + 1]) == Row(sub[jj], name, vals[..kk]) + [dpfields];
        extra := extra + [dpfields];
        kk := kk + 1;
      }
      assert vals[..kk] == vals;
      assert sub[..jj + 1][..jj] == sub[..jj];
      jj := jj + 1;
    }
    assert sub[..jj] == sub;
  }

  /** while (extra.length > 0) rv.push(extra.pop()): the extra list lands reversed. */
  method PopOnto(rv0: seq<map<string, Val>>, extra0: seq<map<string, Val>>) returns (rv: seq<map<string, Val>>)
    ensures rv == rv0 + Reverse(extra0)
  {
    rv := rv0;
    var extra := extra0;
    while |extra| > 0
      invariant |extra| <= |extra0|
      invariant extra == extra0[..|extra|]
      invariant rv == rv0 + Reverse(extra0)[..|extra0| - |extra|]
    {
      var m := |extra0| - |extra|;
      assert Reverse(extra0)[..m + 1] == Reverse(extra0)[..m] + [extra0[|extra| - 1]];
      rv := rv + [extra[|extra| - 1]];
      extra := extra[..|extra| - 1];
    }
    assert Reverse(extra0)[..|extra0|] == Reverse(extra0);
  }

  /**
   * kstatDataPointsFrom for fields[ii..]: the last field gives single-key assignments;
   * otherwise the remaining fields are expanded first and this field is combined with them.
   */
  method DataPointsFrom(fs: seq<FieldDecl>, k: Kstat, kl: Kstat, iv: int, ii: nat) returns (rv: seq<map<string, Val>>)
    requires ii < |fs|
    ensures rv == Expand(fs[ii..], k, kl, iv)
    decreases |fs| - ii
  {
    var name := fs[ii].name;
    var vals := ValuesOf(fs[ii], k, kl, iv);
    assert fs[ii..][0] == fs[ii];
    if ii == |fs| - 1 {
      rv := SingleAssignments(name, vals);
      return;
    }
    assert fs[ii..][1..] == fs[ii + 1..];
    var sub := DataPointsFrom(fs, k, kl, iv, ii + 1);
    var extra;
    rv, extra := AssignField(sub, name, vals);
    rv := PopOnto(rv, extra);
  }

  /** The data points of one kstat: every assignment with the metric's extract for it. */
  function Points(fs: seq<FieldDecl>, extract: ExtractFn, k: Kstat, kl: Kstat, iv: int): seq<DataPoint>
    requires |fs| > 0
  {
    var e := Expand(fs, k, kl, iv);
    seq(|e|, j requires 0 <= j < |e| => DataPoint(e[j], extract(e[j], k, kl, iv)))
  }

  /** kstatDataPoints: expand from the first field, then pair each assignment with its value. */
  method KstatDataPoints(fs: seq<FieldDecl>, extract: ExtractFn, k: Kstat, kl: Kstat, iv: int) returns (pts: seq<DataPoint>)
    requires |fs| > 0
    ensures pts == Points(fs, extract, k, kl, iv)
  {
    var rv := DataPointsFrom(fs, k, kl, iv, 0);
    assert fs[0..] == fs;
    pts := [];
    var ii := 0;
    while ii < |rv|
      invariant 0 <= ii <= |rv| && |pts| == ii
      invariant forall t :: 0 <= t < ii ==> pts[t] == DataPoint(rv[t], extract(rv[t], k, kl, iv))
    {
      pts := pts + [DataPoint(rv[ii], extract(rv[ii], k, kl, iv))];
      ii := ii + 1;
    }
  }

  /**
   * The data points of a kstat with distinct field names: one per combination of field
   * values (the product of the list lengths), each assigning every field exactly once and
   * carrying extract's value; and every combination occurs.
   */
  lemma PointsFacts(fs: seq<FieldDecl>, extract: ExtractFn, k: Kstat, kl: Kstat, iv: int)
    requires |fs| > 0 && DistinctNames(fs)
    ensures var pts := Points(fs, extract, k, kl, iv);
      && |pts| == Product(fs, k, kl, iv)
      && (forall j :: 0 <= j < |pts| ==> pts[j].fields.Keys == Names(fs))
      && (forall j, i :: 0 <= j < |pts| && 0 <= i < |fs| ==>
            fs[i].name in pts[j].fields && pts[j].fields[fs[i].name] in ValuesOf(fs[i], k, kl, iv))
      && (forall j :: 0 <= j < |pts| ==> pts[j].value == extract(pts[j].fields, k, kl, iv))
      && (forall a: map<string, Val> ::
            a.Keys == Names(fs) &&
            (forall i :: 0 <= i < |fs| ==> fs[i].name in a && a[fs[i].name] in ValuesOf(fs[i], k, kl, iv))
            ==> DataPoint(a, extract(a, k, kl, iv)) in pts)
  {
    var e := Expand(fs, k, kl, iv);
    var pts := Points(fs, extract, k, kl, iv);
    ExpandCount(fs, k, kl, iv);
    forall j | 0 <= j < |pts| ensures pts[j].fields.Keys == Names(fs) {
      ExpandKeys(fs, k, kl, iv, e[j]);
    }
    forall j, i | 0 <= j < |pts| && 0 <= i < |fs|
      ensures fs[i].name in pts[j].fields && pts[j].fields[fs[i].name] in ValuesOf(fs[i], k, kl, iv)
    {
      ExpandValues(fs, k, kl, iv, e[j], i);
    }
    forall a: map<string, Val> |
      a.Keys == Names(fs) &&
      (forall i :: 0 <= i < |fs| ==> fs[i].name in a && a[fs[i].name] in ValuesOf(fs[i], k, kl, iv))
      ensures DataPoint(a, extract(a, k, kl, iv)) in pts
    {
      ExpandComplete(fs, k, kl, iv, a);
      var j :| 0 <= j < |e| && e[j] == a;
      assert pts[j] == DataPoint(a, extract(a, k, kl, iv));
    }
  }

  // ---------------------------------------------------------------------------
  // The decomposition fold (addDecompositions)
  // ---------------------------------------------------------------------------

  /** A metric value: a scalar, a distribution, or a map from field value to nested value. */
  datatype MetricValue = Scalar(n: int) | Dist(buckets: seq<Bucket>) | Keyed(entries: seq<Entry>)

  /** One key of a keyed value, in the order the key was first observed. */
  datatype Entry = Entry(key: Val, value: MetricValue)

  /** datapts[jj]['fields'][name]: undefined where the point does not assign the field. */
  function FieldOf(p: DataPoint, name: string): Val
  {
    if name in p.fields then p.fields[name] else Undefined
  }

  /** The number a bucketizer receives; only numbers are modelled (anything else counts as 0). */
  function NumOf(v: Val): int
  {
    match v
    case Num(n) => n
    case _ => 0
  }

  function Sum(pts: seq<DataPoint>): int
  {
    if pts == [] then 0 else pts[0].value + Sum(pts[1..])
  }

  predicate Distinct<T(==)>(s: seq<T>)
  {
    forall i, j :: 0 <= i < j < |s| ==> s[i] != s[j]
  }

  /** The points whose field name equals key (datapts.filter). */
  function Matching(pts: seq<DataPoint>, name: string, key: Val): (r: seq<DataPoint>)
    ensures forall p :: p in r <==> p in pts && FieldOf(p, name) == key
  {
    if pts == [] then []
    else (if FieldOf(pts[0], name) == key then [pts[0]] else []) + Matching(pts[1..], name, key)
  }

  /** The values of field name among the points, once each, in order of first occurrence. */
  function Observed(pts: seq<DataPoint>, name: string): (r: seq<Val>)
    ensures Distinct(r)
    ensures forall v :: v in r <==> exists j :: 0 <= j < |pts| && FieldOf(pts[j], name) == v
  {
    if pts == [] then []
    else
      var init := pts[..|pts| - 1];
      var ks := Observed(init, name);
      var v := FieldOf(pts[|pts| - 1], name);
      assert forall j :: 0 <= j < |init| ==> init[j] == pts[j];
      if v in ks then ks else ks + [v]
  }

  /** The numeric branch: every point bucketized in order, starting from the list rv. */
  function BucketizeAll(b: GoodBucketizer, rv: seq<Bucket>, pts: seq<DataPoint>, name: string): seq<Bucket>
    decreases pts
  {
    if pts == [] then rv
    else BucketizeAll(b, Bucketize(b, rv, NumOf(FieldOf(pts[0], name)), pts[0].value), pts[1..], name)
  }

  function ArityOf(fs: seq<FieldDecl>, name: string): Option<Arity>
  {
    match Lookup(fs, name)
    case None => None
    case Some(info) => TypeArity(info.ftype)
  }

  /**
   * What addDecompositions relies on: every decomposition names a declared, valid field,
   * and a numeric one can only come last.
   */
  predicate Plan(fs: seq<FieldDecl>, decomps: seq<string>)
  {
    forall i :: 0 <= i < |decomps| ==>
      && Lookup(fs, decomps[i]).Some?
      && ValidField(Lookup(fs, decomps[i]).value)
      && (ArityOf(fs, decomps[i]) == Some(Numeric) ==> i == |decomps| - 1)
  }

  /**
   * addDecompositions(datapts, decomps, ii): the sum when no decomposition is left; for a
   * numeric field the distribution of the points' (field value, value) pairs; for a
   * discrete field one entry per observed value holding the fold of the matching points.
   */
  function AddDecompositions(pts: seq<DataPoint>, fs: seq<FieldDecl>, decomps: seq<string>, ii: nat): MetricValue
    requires Plan(fs, decomps) && ii <= |decomps|
    decreases |decomps| - ii, 1
  {
    if ii == |decomps| then Scalar(Sum(pts))
    else
      var info := Lookup(fs, decomps[ii]).value;
      if TypeArity(info.ftype) == Some(Numeric) then Dist(BucketizeAll(info.bucketize.value, [], pts, decomps[ii]))
      else Keyed(EntriesFor(pts, fs, decomps, ii, Observed(pts, decomps[ii])))
  }

  function EntriesFor(pts: seq<DataPoint>, fs: seq<FieldDecl>, decomps: seq<string>, ii: nat, keys: seq<Val>): seq<Entry>
    requires Plan(fs, decomps) && ii < |decomps|
    decreases |decomps| - ii, 0
  {
    seq(|keys|, j requires 0 <= j < |keys| =>
      Entry(keys[j], AddDecompositions(Matching(pts, decomps[ii], keys[j]), fs, decomps, ii + 1)))
  }

  /** The sum of every leaf of a value: scalars, bucket weights and nested entries. */
  function Total(v: MetricValue): int
    decreases v, 1
  {
    match v
    case Scalar(n) => n
    case Dist(b) => Weight(b)
    case Keyed(es) => TotalEntries(v, es)
  }

  /** The totals of entries es of the keyed value parent. */
  function TotalEntries(ghost parent: MetricValue, es: seq<Entry>): int
    requires forall i :: 0 <= i < |es| ==> es[i] < parent
    decreases parent, 0, |es|
  {
    if es == [] then 0 else Total(es[0].value) + TotalEntries(parent, es[1..])
  }

  /** The sums of the matching points, key by key. */
  function SumOver(pts: seq<DataPoint>, name: string, keys: seq<Val>): int
  {
    if keys == [] then 0 else Sum(Matching(pts, name, keys[0])) + SumOver(pts, name, keys[1..])
  }

  lemma {:induction false} SumOverEmpty(name: string, keys: seq<Val>)
    ensures SumOver([], name, keys) == 0
  {
    if keys != [] {
      SumOverEmpty(name, keys[1..]);
    }
  }

  /** Over distinct keys, a point counts once if its value is among them and not at all otherwise. */
  lemma {:induction false} SumOverCons(p: DataPoint, rest: seq<DataPoint>, name: string, keys: seq<Val>)
    requires Distinct(keys)
    ensures SumOver([p] + rest, name, keys) == (if FieldOf(p, name) in keys then p.value else 0) + SumOver(rest, name, keys)
  {
    if keys != [] {
      assert ([p] + rest)[1..] == rest;
      var m := Matching(rest, name, keys[0]);
      if FieldOf(p, name) == keys[0] {
        assert Matching([p] + rest, name, keys[0]) == [p] + m;
        assert ([p] + m)[1..] == m;
      } else {
        assert Matching([p] + rest, name, keys[0]) == m;
      }
      assert Distinct(keys[1..]) by {
        forall i, j | 0 <= i < j < |keys| - 1 ensures keys[1..][i] != keys[1..][j] {
          assert keys[1..][i] == keys[i + 1] && keys[1..][j] == keys[j + 1];
        }
      }
      assert FieldOf(p, name) == keys[0] ==> FieldOf(p, name) !in keys[1..] by {
        forall j | 0 <= j < |keys| - 1 ensures keys[1..][j] != keys[0] {
          assert keys[1..][j] == keys[j + 1];
        }
      }
      assert FieldOf(p, name) in keys <==> FieldOf(p, name) == keys[0] || FieldOf(p, name) in keys[1..];
      SumOverCons(p, rest, name, keys[1..]);
    }
  }

  /** Partitioning the points by distinct keys that cover every point's value loses nothing. */
  lemma {:induction false} PartitionSum(pts: seq<DataPoint>, name: string, keys: seq<Val>)
    requires Distinct(keys)
    requires forall j :: 0 <= j < |pts| ==> FieldOf(pts[j], name) in keys
    ensures SumOver(pts, name, keys) == Sum(pts)
  {
    if pts == [] {
      SumOverEmpty(name, keys);
    } else {
      assert pts == [pts[0]] + pts[1..];
      SumOverCons(pts[0], pts[1..], name, keys);
      assert forall j :: 0 <= j < |pts| - 1 ==> pts[1..][j] == pts[j + 1];
      PartitionSum(pts[1..], name, keys);
    }
  }

  /** Bucketizing adds each point's value to the total weight. */
  lemma {:induction false} BucketizeAllWeight(b: GoodBucketizer, rv: seq<Bucket>, pts: seq<DataPoint>, name: string)
    ensures Weight(BucketizeAll(b, rv, pts, name)) == Weight(rv) + Sum(pts)
    decreases pts
  {
    if pts != [] {
      var v := NumOf(FieldOf(pts[0], name));
      BucketizeWeight(b, rv, v, pts[0].value);
      BucketizeAllWeight(b, Bucketize(b, rv, v, pts[0].value), pts[1..], name);
    }
  }

  /**
   * Conservation: the leaves of a decomposed value (scalars, bucket weights) add up to the
   * plain sum of the points it was computed from.
   */
  lemma {:induction false} Conservation(pts: seq<DataPoint>, fs: seq<FieldDecl>, decomps: seq<string>, ii: nat)
    requires Plan(fs, decomps) && ii <= |decomps|
    ensures Total(AddDecompositions(pts, fs, decomps, ii)) == Sum(pts)
    decreases |decomps| - ii, 1
  {
    if ii < |decomps| {
      var d := decomps[ii];
      var info := Lookup(fs, d).value;
      if TypeArity(info.ftype) == Some(Numeric) {
        BucketizeAllWeight(info.bucketize.value, [], pts, d);
      } else {
        var keys := Observed(pts, d);
        var v := AddDecompositions(pts, fs, decomps, ii);
        var es := EntriesFor(pts, fs, decomps, ii, keys);
        assert v == Keyed(es);
        EntriesTotal(v, pts, fs, decomps, ii, keys, es);
        PartitionSum(pts, d, keys);
      }
    }
  }

  lemma {:induction false} EntriesTotal(parent: MetricValue, pts: seq<DataPoint>, fs: seq<FieldDecl>, decomps: seq<string>,
                                        ii: nat, keys: seq<Val>, es: seq<Entry>)
    requires Plan(fs, decomps) && ii < |decomps|
    requires es == EntriesFor(pts, fs, decomps, ii, keys)
    requires forall i :: 0 <= i < |es| ==> es[i] < parent
    ensures TotalEntries(parent, es) == SumOver(pts, decomps[ii], keys)
    decreases |decomps| - ii, 0, |keys|
  {
    if keys != [] {
      var m := Matching(pts, decomps[ii], keys[0]);
      assert es[0].value == AddDecompositions(m, fs, decomps, ii + 1);
      assert es[1..] == EntriesFor(pts, fs, decomps, ii, keys[1..]);
      assert TotalEntries(parent, es) == Total(es[0].value) + TotalEntries(parent, es[1..]);
      Conservation(m, fs, decomps, ii + 1);
      EntriesTotal(parent, pts, fs, decomps, ii, keys[1..], es[1..]);
    }
  }

  /**
   * A discrete decomposition yields one entry per distinct observed value of the field (the
   * keys are Observed(pts, d), whose contract says they are exactly the observed values, each
   * once), in order of first occurrence, each holding the fold of the points carrying that value.
   */
  lemma DiscreteShape(pts: seq<DataPoint>, fs: seq<FieldDecl>, decomps: seq<string>, ii: nat)
    requires Plan(fs, decomps) && ii < |decomps| && ArityOf(fs, decomps[ii]) == Some(Discrete)
    ensures var r := AddDecompositions(pts, fs, decomps, ii);
      var keys := Observed(pts, decomps[ii]);
      && r.Keyed? && |r.entries| == |keys|
      && forall j :: 0 <= j < |keys| ==>
           r.entries[j] == Entry(keys[j], AddDecompositions(Matching(pts, decomps[ii], keys[j]), fs, decomps, ii + 1))
  {
  }

  /** Each entry of a discrete decomposition folds at least one point. */
  lemma MatchingNonEmpty(pts: seq<DataPoint>, name: string, t: nat)
    requires t < |pts|
    ensures |Matching(pts, name, FieldOf(pts[t], name))| > 0
  {
    assert pts[t] in pts;
    assert pts[t] in Matching(pts, name, FieldOf(pts[t], name));
  }

  /** Bucketizing values in the bucketizer's domain keeps a distribution ordered and canonical. */
  lemma {:induction false} BucketizeAllOrdered(b: GoodBucketizer, rv: seq<Bucket>, pts: seq<DataPoint>, name: string)
    requires Ordered(rv) && Canonical(b, rv)
    requires forall j :: 0 <= j < |pts| ==> InDomain(b, NumOf(FieldOf(pts[j], name)))
    ensures Ordered(BucketizeAll(b, rv, pts, name)) && Canonical(b, BucketizeAll(b, rv, pts, name))
    decreases pts
  {
    if pts != [] {
      var v := NumOf(FieldOf(pts[0], name));
      BucketizePreserves(b, rv, v, pts[0].value);
      assert forall j :: 0 <= j < |pts| - 1 ==> pts[1..][j] == pts[j + 1];
      BucketizeAllOrdered(b, Bucketize(b, rv, v, pts[0].value), pts[1..], name);
    }
  }

  /**
   * A numeric decomposition yields the distribution built by bucketizing every point's
   * (field value, value) pair: sorted, disjoint, and weighing the points' sum.
   */
  lemma NumericShape(pts: seq<DataPoint>, fs: seq<FieldDecl>, decomps: seq<string>, ii: nat)
    requires Plan(fs, decomps) && ii < |decomps| && ArityOf(fs, decomps[ii]) == Some(Numeric)
    requires forall j :: 0 <= j < |pts| ==> InDomain(Lookup(fs, decomps[ii]).value.bucketize.value, NumOf(FieldOf(pts[j], decomps[ii])))
    ensures ii == |decomps| - 1
    ensures var r := AddDecompositions(pts, fs, decomps, ii);
      && r == Dist(BucketizeAll(Lookup(fs, decomps[ii]).value.bucketize.value, [], pts, decomps[ii]))
      && Ordered(r.buckets) && Weight(r.buckets) == Sum(pts)
  {
    var b := Lookup(fs, decomps[ii]).value.bucketize.value;
    BucketizeAllOrdered(b, [], pts, decomps[ii]);
    BucketizeAllWeight(b, [], pts, decomps[ii]);
  }

  /** The empty input folds to a zero of the right shape. */
  function ZeroOf(ndiscrete: nat, nnumeric: nat): MetricValue
  {
    if ndiscrete > 0 then Keyed([]) else if nnumeric > 0 then Dist([]) else Scalar(0)
  }

  // ---------------------------------------------------------------------------
  // Ordering the decompositions (the insKstatAutoMetric constructor)
  // ---------------------------------------------------------------------------

  predicate IsDiscrete(fs: seq<FieldDecl>, name: string)
  {
    ArityOf(fs, name) == Some(Discrete)
  }

  /** The discrete decompositions among ds, in request order. */
  function Discretes(fs: seq<FieldDecl>, ds: seq<string>): seq<string>
  {
    if ds == [] then []
    else
      var init := Discretes(fs, ds[..|ds| - 1]);
      if IsDiscrete(fs, ds[|ds| - 1]) then init + [ds[|ds| - 1]] else init
  }

  /** The other decompositions among ds, in request order. */
  function Numerics(fs: seq<FieldDecl>, ds: seq<string>): seq<string>
  {
    if ds == [] then []
    else
      var init := Numerics(fs, ds[..|ds| - 1]);
      if IsDiscrete(fs, ds[|ds| - 1]) then init else init + [ds[|ds| - 1]]
  }

  /** iam_decompositions: discrete fields unshifted (so reversed), the others pushed after them. */
  function Arranged(fs: seq<FieldDecl>, ds: seq<string>): seq<string>
  {
    Reverse(Discretes(fs, ds)) + Numerics(fs, ds)
  }

  /** Together the two halves hold every request exactly as often as it was made. */
  lemma {:induction false} SplitCount(fs: seq<FieldDecl>, ds: seq<string>)
    ensures multiset(Discretes(fs, ds)) + multiset(Numerics(fs, ds)) == multiset(ds)
  {
    if ds != [] {
      var init := ds[..|ds| - 1];
      SplitCount(fs, init);
      assert ds == init + [ds[|ds| - 1]];
    }
  }

  /** Each half holds only requests of its own kind. */
  lemma {:induction false} SplitKinds(fs: seq<FieldDecl>, ds: seq<string>)
    ensures forall x :: x in Discretes(fs, ds) ==> x in ds && IsDiscrete(fs, x)
    ensures forall x :: x in Numerics(fs, ds) ==> x in ds && !IsDiscrete(fs, x)
  {
    if ds != [] {
      var init := ds[..|ds| - 1];
      SplitKinds(fs, init);
      assert forall x :: x in init ==> x in ds;
    }
  }

  lemma SplitMultiset(fs: seq<FieldDecl>, ds: seq<string>)
    ensures multiset(Discretes(fs, ds)) + multiset(Numerics(fs, ds)) == multiset(ds)
    ensures forall x :: x in Discretes(fs, ds) ==> IsDiscrete(fs, x)
    ensures forall x :: x in Numerics(fs, ds) ==> x in ds && !IsDiscrete(fs, x)
  {
    SplitCount(fs, ds);
    SplitKinds(fs, ds);
  }

  lemma ReverseMultiset<T>(s: seq<T>)
    ensures multiset(Reverse(s)) == multiset(s)
  {
    if s != [] {
      ReverseMultiset(s[..|s| - 1]);
      assert s == s[..|s| - 1] + [s[|s| - 1]];
    }
  }

  /** The constructor's order is a permutation of the requested decompositions. */
  lemma ArrangedPermutation(fs: seq<FieldDecl>, ds: seq<string>)
    ensures multiset(Arranged(fs, ds)) == multiset(ds)
  {
    SplitMultiset(fs, ds);
    ReverseMultiset(Discretes(fs, ds));
  }

  /** In the constructor's order the discrete fields come first, then the others. */
  lemma ArrangedOrder(fs: seq<FieldDecl>, ds: seq<string>)
    ensures var a := Arranged(fs, ds);
      && (forall i :: 0 <= i < |Discretes(fs, ds)| ==> IsDiscrete(fs, a[i]))
      && (forall j :: |Discretes(fs, ds)| <= j < |a| ==> a[j] in ds && !IsDiscrete(fs, a[j]))
  {
    var a := Arranged(fs, ds);
    var rd := Reverse(Discretes(fs, ds));
    SplitKinds(fs, ds);
    forall i | 0 <= i < |rd| ensures IsDiscrete(fs, a[i]) {
      assert a[i] == rd[i] && rd[i] in Discretes(fs, ds);
    }
    forall j | |rd| <= j < |a| ensures a[j] in ds && !IsDiscrete(fs, a[j]) {
      assert a[j] == Numerics(fs, ds)[j - |rd|];
    }
  }

  /**
   * With every requested field declared and valid and at most one numeric among them, the
   * constructor's order is a plan addDecompositions accepts.
   */
  lemma ArrangedPlan(fs: seq<FieldDecl>, ds: seq<string>)
    requires forall i :: 0 <= i < |ds| ==> Lookup(fs, ds[i]).Some? && ValidField(Lookup(fs, ds[i]).value)
    requires |Numerics(fs, ds)| <= 1
    ensures Plan(fs, Arranged(fs, ds))
  {
    var a := Arranged(fs, ds);
    ArrangedOrder(fs, ds);
    ArrangedPermutation(fs, ds);
    forall i | 0 <= i < |a| ensures a[i] in ds {
      assert a[i] in multiset(a);
    }
  }

  /** The zero value is what folding no points at all yields; it totals 0. */
  lemma ZeroIsEmptyFold(fs: seq<FieldDecl>, ds: seq<string>)
    requires Plan(fs, Arranged(fs, ds))
    ensures AddDecompositions([], fs, Arranged(fs, ds), 0) == ZeroOf(|Discretes(fs, ds)|, |Numerics(fs, ds)|)
    ensures Total(ZeroOf(|Discretes(fs, ds)|, |Numerics(fs, ds)|)) == 0
  {
    var a := Arranged(fs, ds);
    SplitMultiset(fs, ds);
    if |Discretes(fs, ds)| > 0 {
      assert a[0] == Discretes(fs, ds)[|Discretes(fs, ds)| - 1];
      assert a[0] in Discretes(fs, ds);
    } else if |Numerics(fs, ds)| > 0 {
      assert a[0] == Numerics(fs, ds)[0];
      assert a[0] in Numerics(fs, ds);
    }
  }

  /** The constructor's loop: unshift discrete fields, push the others, count both. */
  method Arrange(fs: seq<FieldDecl>, ds: seq<string>) returns (r: seq<string>, ndiscrete: nat, nnumeric: nat)
    ensures r == Arranged(fs, ds)
    ensures ndiscrete == |Discretes(fs, ds)| && nnumeric == |Numerics(fs, ds)|
  {
    r, ndiscrete, nnumeric := [], 0, 0;
    var ii := 0;
    while ii < |ds|
      invariant 0 <= ii <= |ds|
      invariant r == Arranged(fs, ds[..ii])
      invariant ndiscrete == |Discretes(fs, ds[..ii])| && nnumeric == |Numerics(fs, ds[..ii])|
    {
      assert ds[..ii + 1][..ii] == ds[..ii];
      if ArityOf(fs, ds[ii]) == Some(Discrete) {
        r := [ds[ii]] + r;
        ndiscrete := ndiscrete + 1;
      } else {
        r := r + [ds[ii]];
        nnumeric := nnumeric + 1;
      }
      ii := ii + 1;
    }
    assert ds[..ii] == ds;
  }

  // ---------------------------------------------------------------------------
  // Snapshots and value()
  // ---------------------------------------------------------------------------

  /** What read() returns: kstats by key, keys in enumeration order. */
  datatype Snapshot = Snapshot(keys: seq<string>, stats: map<string, Kstat>)

  ghost predicate WfSnapshot(s: Snapshot)
  {
    (forall i, j :: 0 <= i < j < |s.keys| ==> s.keys[i] != s.keys[j]) &&
    (forall key :: key in s.stats <==> key in s.keys)
  }

  /** The points of one kstat key: none unless the previous snapshot has it too. */
  function PointsForKey(fs: seq<FieldDecl>, extract: ExtractFn, kdata: Snapshot, klast: Snapshot, key: string): seq<DataPoint>
    requires |fs| > 0 && key in kdata.stats
  {
    if key !in klast.stats then []
    else
      var k := kdata.stats[key];
      var kl := klast.stats[key];
      Points(fs, extract, k, kl, k.snaptime - kl.snaptime)
  }

  /** The data points of the keys in turn, concatenated. */
  function Gather(fs: seq<FieldDecl>, extract: ExtractFn, kdata: Snapshot, klast: Snapshot, keys: seq<string>): seq<DataPoint>
    requires |fs| > 0 && forall j :: 0 <= j < |keys| ==> keys[j] in kdata.stats
  {
    if keys == [] then []
    else
      var init := keys[..|keys| - 1];
      assert forall j :: 0 <= j < |init| ==> init[j] == keys[j];
      Gather(fs, extract, kdata, klast, init) + PointsForKey(fs, extract, kdata, klast, keys[|keys| - 1])
  }

  /** applyPredicate: the points whose fields satisfy the predicate, in order. */
  function Filter(pts: seq<DataPoint>, pred: Predicate): (r: seq<DataPoint>)
    ensures |r| <= |pts|
    ensures forall p :: p in r <==> p in pts && pred(p.fields)
  {
    if pts == [] then []
    else (if pred(pts[0].fields) then [pts[0]] else []) + Filter(pts[1..], pred)
  }

  /** Every gathered point comes from a key present in both snapshots. */
  lemma {:induction false} GatherFrom(fs: seq<FieldDecl>, extract: ExtractFn, kdata: Snapshot, klast: Snapshot,
                                      keys: seq<string>, p: DataPoint) returns (key: string)
    requires |fs| > 0 && forall j :: 0 <= j < |keys| ==> keys[j] in kdata.stats
    requires p in Gather(fs, extract, kdata, klast, keys)
    ensures key in keys && key in klast.stats
    ensures p in PointsForKey(fs, extract, kdata, klast, key)
  {
    var init := keys[..|keys| - 1];
    var final := keys[|keys| - 1];
    assert forall j :: 0 <= j < |init| ==> init[j] == keys[j];
    assert forall key :: key in init ==> key in keys;
    var front := Gather(fs, extract, kdata, klast, init);
    var back := PointsForKey(fs, extract, kdata, klast, final);
    assert Gather(fs, extract, kdata, klast, keys) == front + back;
    if p in front {
      key := GatherFrom(fs, extract, kdata, klast, init, p);
    } else {
      assert p in back;
      key := final;
    }
  }

  /** Every point of a key present in both snapshots is gathered. */
  lemma {:induction false} GatherOf(fs: seq<FieldDecl>, extract: ExtractFn, kdata: Snapshot, klast: Snapshot,
                                    keys: seq<string>, key: string, p: DataPoint)
    requires |fs| > 0 && forall j :: 0 <= j < |keys| ==> keys[j] in kdata.stats
    requires key in keys
    requires p in PointsForKey(fs, extract, kdata, klast, key)
    ensures p in Gather(fs, extract, kdata, klast, keys)
  {
    var init := keys[..|keys| - 1];
    assert forall j :: 0 <= j < |init| ==> init[j] == keys[j];
    if key != keys[|keys| - 1] {
      assert key in init by {
        var t :| 0 <= t < |keys| && keys[t] == key;
        assert init[t] == key;
      }
      GatherOf(fs, extract, kdata, klast, init, key, p);
    }
  }

  lemma GatherStep(fs: seq<FieldDecl>, extract: ExtractFn, kdata: Snapshot, klast: Snapshot, i: nat)
    requires |fs| > 0 && WfSnapshot(kdata) && i < |kdata.keys|
    ensures Gather(fs, extract, kdata, klast, kdata.keys[..i + 1]) ==
            Gather(fs, extract, kdata, klast, kdata.keys[..i]) + PointsForKey(fs, extract, kdata, klast, kdata.keys[i])
  {
    assert kdata.keys[..i + 1][..i] == kdata.keys[..i];
  }

  /** The points of one key of the new snapshot, if the previous snapshot has that kstat too. */
  method KeyPoints(fs: seq<FieldDecl>, extract: ExtractFn, kdata: Snapshot, klast: Snapshot, key: string)
    returns (more: seq<DataPoint>)
    requires |fs| > 0 && key in kdata.stats
    ensures more == PointsForKey(fs, extract, kdata, klast, key)
  {
    more := [];
    if key in klast.stats {
      var interval := kdata.stats[key].snaptime - klast.stats[key].snaptime;
      more := KstatDataPoints(fs, extract, kdata.stats[key], klast.stats[key], interval);
    }
  }

  /** value()'s loop over the keys of the new snapshot. */
  method GatherPoints(fs: seq<FieldDecl>, extract: ExtractFn, kdata: Snapshot, klast: Snapshot) returns (datapts: seq<DataPoint>)
    requires |fs| > 0 && WfSnapshot(kdata)
    ensures datapts == Gather(fs, extract, kdata, klast, kdata.keys)
  {
    datapts := [];
    var i := 0;
    while i < |kdata.keys|
      invariant 0 <= i <= |kdata.keys|
      invariant datapts == Gather(fs, extract, kdata, klast, kdata.keys[..i])
    {
      GatherStep(fs, extract, kdata, klast, i);
      var more := KeyPoints(fs, extract, kdata, klast, kdata.keys[i]);
      datapts := datapts + more;
      i := i + 1;
    }
    assert kdata.keys[..i] == kdata.keys;
  }

  /** A later call's result: fold the predicate-filtered points of the shared keys. */
  function Evaluate(fs: seq<FieldDecl>, extract: ExtractFn, pred: Predicate, decomps: seq<string>,
                    kdata: Snapshot, klast: Snapshot): MetricValue
    requires |fs| > 0 && Plan(fs, decomps) && WfSnapshot(kdata)
  {
    AddDecompositions(Filter(Gather(fs, extract, kdata, klast, kdata.keys), pred), fs, decomps, 0)
  }

  /** The value of a later call totals the sum over exactly the points that pass the predicate. */
  lemma EvaluateTotal(fs: seq<FieldDecl>, extract: ExtractFn, pred: Predicate, decomps: seq<string>,
                      kdata: Snapshot, klast: Snapshot)
    requires |fs| > 0 && Plan(fs, decomps) && WfSnapshot(kdata)
    ensures Total(Evaluate(fs, extract, pred, decomps, kdata, klast)) ==
            Sum(Filter(Gather(fs, extract, kdata, klast, kdata.keys), pred))
  {
    Conservation(Filter(Gather(fs, extract, kdata, klast, kdata.keys), pred), fs, decomps, 0);
  }

  /** One instrumentation of a kstat metric and its previous snapshot (iam_last). */
  class KstatMetric {
    const fields: seq<FieldDecl>
    const extract: ExtractFn
    const pred: Predicate
    const decompositions: seq<string>
    const zero: MetricValue
    var last: Option<Snapshot>

    ghost predicate Valid()
      reads this
    {
      |fields| > 0 && Plan(fields, decompositions) && (last.Some? ==> WfSnapshot(last.value))
    }

    /**
     * insKstatAutoMetric(desc, metric): every decomposition must be a declared field and at
     * most one may be numeric; discrete ones go first in reverse order, and the zero value
     * has the shape of the first decomposition.
     */
    constructor (d: MetricDesc, decomposition: seq<string>, pred: Predicate)
      requires ValidDescriptor(d) && |d.fields| > 0
      requires forall i :: 0 <= i < |decomposition| ==> Lookup(d.fields, decomposition[i]).Some?
      requires |Numerics(d.fields, decomposition)| <= 1
      ensures Valid() && last == None
      ensures fields == d.fields && extract == d.extract.value && this.pred == pred
      ensures decompositions == Arranged(d.fields, decomposition)
      ensures zero == ZeroOf(|Discretes(d.fields, decomposition)|, |Numerics(d.fields, decomposition)|)
      ensures zero == AddDecompositions([], fields, decompositions, 0)
    {
      fields := d.fields;
      extract := d.extract.value;
      this.pred := pred;
      var ds, ndiscrete, nnumeric := Arrange(d.fields, decomposition);
      forall i | 0 <= i < |decomposition| ensures ValidField(Lookup(d.fields, decomposition[i]).value) {
        var r := Lookup(d.fields, decomposition[i]);
        var j :| 0 <= j < |d.fields| && d.fields[j] == FieldDecl(decomposition[i], r.value);
      }
      ArrangedPlan(d.fields, decomposition);
      ZeroIsEmptyFold(d.fields, decomposition);
      decompositions := ds;
      zero := if ndiscrete > 0 then Keyed([]) else if nnumeric > 0 then Dist([]) else Scalar(0);
      last := None;
    }

    /**
     * value(): the new snapshot always replaces the previous one; the first call returns the
     * zero value, a later one the fold of the points of the keys both snapshots share.
     */
    method Value(kdata: Snapshot) returns (r: MetricValue)
      requires Valid() && WfSnapshot(kdata)
      modifies this
      ensures Valid() && last == Some(kdata)
      ensures old(last).None? ==> r == zero
      ensures old(last).Some? ==> r == Evaluate(fields, extract, pred, decompositions, kdata, old(last).value)
    {
      var klast := last;
      last := Some(kdata);
      if klast.None? {
        return zero;
      }
      var datapts := GatherPoints(fields, extract, kdata, klast.value);
      datapts := Filter(datapts, pred);
      r := AddDecompositions(datapts, fields, decompositions, 0);
    }
  }
}
