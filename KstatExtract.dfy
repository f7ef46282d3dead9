/**
 * The metric table of the kstat backend (cmd/cainst/modules/kstat.js): the field value
 * functions, the extract functions of disk.physio_ops and of the three tcp metrics, and
 * the descriptors that use them.
 */
module KstatExtract {
  import opened Wrappers
  import opened Buckets
  import opened KstatEngine

  // ---------------------------------------------------------------------------
  // Decimal strings ('cpu' + kstat['instance'])
  // ---------------------------------------------------------------------------

  function Digit(d: nat): char
    requires d < 10
  {
    "0123456789"[d]
  }

  /** The decimal digits of n, without leading zeros. */
  function NatDigits(n: nat): (s: string)
    ensures |s| > 0 && forall i :: 0 <= i < |s| ==> '0' <= s[i] <= '9'
    ensures |s| > 1 ==> s[0] != '0'
  {
    if n < 10 then [Digit(n)] else NatDigits(n / 10) + [Digit(n % 10)]
  }

  /** String(n) for an integer. */
  function Decimal(n: int): string
  {
    if n < 0 then "-" + NatDigits(-n) else NatDigits(n)
  }

  /** The value of a string of decimal digits. */
  function DigitsValue(s: string): int
  {
    if s == [] then 0 else 10 * DigitsValue(s[..|s| - 1]) + (s[|s| - 1] as int - '0' as int)
  }

  /** Reading a number back from its decimal string. */
  function ParseDecimal(s: string): int
  {
    if |s| > 0 && s[0] == '-' then -DigitsValue(s[1..]) else DigitsValue(s)
  }

  lemma {:induction false} NatDigitsRoundTrip(n: nat)
    ensures DigitsValue(NatDigits(n)) == n
  {
    if n >= 10 {
      NatDigitsRoundTrip(n / 10);
      var s := NatDigits(n / 10) + [Digit(n % 10)];
      assert s[..|s| - 1] == NatDigits(n / 10);
    }
  }

  /** String(n) reads back as n, so distinct instances get distinct names. */
  lemma DecimalRoundTrip(n: int)
    ensures ParseDecimal(Decimal(n)) == n
  {
    NatDigitsRoundTrip(if n < 0 then -n else n);
    if n < 0 {
      assert Decimal(n)[1..] == NatDigits(-n);
    }
  }

  lemma DecimalInjective(a: int, b: int)
    ensures Decimal(a) == Decimal(b) ==> a == b
  {
    DecimalRoundTrip(a);
    DecimalRoundTrip(b);
  }

  /** A name prefix followed by the instance number names instances apart. */
  lemma InstanceNamesDistinct(prefix: string, a: int, b: int)
    ensures prefix + Decimal(a) == prefix + Decimal(b) ==> a == b
  {
    if prefix + Decimal(a) == prefix + Decimal(b) {
      assert Decimal(a) == (prefix + Decimal(a))[|prefix|..];
      assert Decimal(b) == (prefix + Decimal(b))[|prefix|..];
      DecimalInjective(a, b);
    }
  }

  // ---------------------------------------------------------------------------
  // Counters and field values
  // ---------------------------------------------------------------------------

  /** kstat['data'][key]; a counter the kstat lacks reads as 0. */
  function Counter(k: Kstat, key: string): int
  {
    if key in k.data then k.data[key] else 0
  }

  /** The growth of a counter between the previous and the current kstat. */
  function Delta(k: Kstat, kl: Kstat, key: string): int
  {
    Counter(k, key) - Counter(kl, key)
  }

  /** fields[name] of a data point. */
  function FieldValue(fields: map<string, Val>, name: string): Val
  {
    if name in fields then fields[name] else Undefined
  }

  /** A value as string concatenation renders it. */
  function ValString(v: Val): string
  {
    match v
    case Str(s) => s
    case Num(n) => Decimal(n)
    case Undefined => "undefined"
  }

  // ---------------------------------------------------------------------------
  // Extract functions
  // ---------------------------------------------------------------------------

  /** disk.physio_ops: reads for optype 'read', writes for anything else. */
  function PhysioExtract(fields: map<string, Val>, k: Kstat, kl: Kstat, iv: int): int
  {
    Delta(k, kl, if FieldValue(fields, "optype") == Str("read") then "reads" else "writes")
  }

  /** inskTcpConnectionsExtract: the <conntype>Opens counter. */
  function ConnectionsExtract(fields: map<string, Val>, k: Kstat, kl: Kstat, iv: int): int
  {
    Delta(k, kl, ValString(FieldValue(fields, "conntype")) + "Opens")
  }

  /** inskTcpSegmentsExtract: outSegs for direction 'sent', inSegs for anything else. */
  function SegmentsExtract(fields: map<string, Val>, k: Kstat, kl: Kstat, iv: int): int
  {
    Delta(k, kl, if FieldValue(fields, "direction") == Str("sent") then "outSegs" else "inSegs")
  }

  /** inskTcpErrors: counter name and description, in key order. */
  const TcpErrors: seq<(string, string)> := [
    ("attemptFails", "failed connection attempt"),
    ("retransSegs", "retransmitted segment"),
    ("inDupAck", "duplicate ACK"),
    ("listenDrop", "connection refused because backlog full"),
    ("listenDropQ0", "connection refused from full half-open queue"),
    ("halfOpenDrop", "connection dropped from a full half-open queue"),
    ("timRetransDrop", "connection dropped due to retransmit timeout")
  ]

  /**
   * The counter whose description is errtype, searching the table from index i; when none
   * matches the loop runs out on the last key.
   */
  function ErrKeyFrom(errtype: Val, i: nat): string
    requires i < |TcpErrors|
    decreases |TcpErrors| - i
  {
    if Str(TcpErrors[i].1) == errtype || i == |TcpErrors| - 1 then TcpErrors[i].0
    else ErrKeyFrom(errtype, i + 1)
  }

  function ErrKey(errtype: Val): string
  {
    ErrKeyFrom(errtype, 0)
  }

  /** inskTcpErrorExtract's search loop: stop at the matching description, else at the last key. */
  method ErrorKey(errtype: Val) returns (key: string)
    ensures key == ErrKey(errtype)
  {
    var i := 0;
    key := TcpErrors[0].0;
    while i < |TcpErrors|
      invariant 0 <= i <= |TcpErrors|
      invariant i < |TcpErrors| ==> ErrKeyFrom(errtype, i) == ErrKey(errtype)
      invariant i == |TcpErrors| ==> key == ErrKey(errtype)
    {
      key := TcpErrors[i].0;
      if Str(TcpErrors[i].1) == errtype {
        break;
      }
      i := i + 1;
    }
  }

  /** The descriptions are distinct, so each one leads back to its own counter. */
  lemma ErrKeyRoundTrip(i: nat)
    requires i < |TcpErrors|
    ensures ErrKey(Str(TcpErrors[i].1)) == TcpErrors[i].0
  {
    var e := Str(TcpErrors[i].1);
    assert ErrKeyFrom(e, 6) == TcpErrors[6].0;
    assert i <= 5 ==> ErrKeyFrom(e, 5) == (if i == 5 then TcpErrors[5].0 else ErrKeyFrom(e, 6));
    assert i <= 4 ==> ErrKeyFrom(e, 4) == (if i == 4 then TcpErrors[4].0 else ErrKeyFrom(e, 5));
    assert i <= 3 ==> ErrKeyFrom(e, 3) == (if i == 3 then TcpErrors[3].0 else ErrKeyFrom(e, 4));
    assert i <= 2 ==> ErrKeyFrom(e, 2) == (if i == 2 then TcpErrors[2].0 else ErrKeyFrom(e, 3));
    assert i <= 1 ==> ErrKeyFrom(e, 1) == (if i == 1 then TcpErrors[1].0 else ErrKeyFrom(e, 2));
  }

  /** An error type that is no description falls through to the last counter. */
  lemma ErrKeyFallback(errtype: Val)
    requires forall i :: 0 <= i < |TcpErrors| ==> Str(TcpErrors[i].1) != errtype
    ensures ErrKey(errtype) == "timRetransDrop"
  {
    assert ErrKeyFrom(errtype, 5) == ErrKeyFrom(errtype, 6);
    assert ErrKeyFrom(errtype, 3) == ErrKeyFrom(errtype, 4) == ErrKeyFrom(errtype, 5);
    assert ErrKeyFrom(errtype, 1) == ErrKeyFrom(errtype, 2) == ErrKeyFrom(errtype, 3);
    assert ErrKeyFrom(errtype, 0) == ErrKeyFrom(errtype, 1);
  }

  /** inskTcpErrorExtract: the counter named by the errtype field's description. */
  function ErrorExtract(fields: map<string, Val>, k: Kstat, kl: Kstat, iv: int): int
  {
    Delta(k, kl, ErrKey(FieldValue(fields, "errtype")))
  }

  // ---------------------------------------------------------------------------
  // Values functions
  // ---------------------------------------------------------------------------

  /** A constant list of string values. */
  function Constant(names: seq<string>): seq<Val>
  {
    seq(|names|, i requires 0 <= i < |names| => Str(names[i]))
  }

  /** inskTcpErrtypeValues: the descriptions in key order. */
  function ErrtypeValues(): (r: seq<Val>)
    ensures |r| == |TcpErrors| && forall i :: 0 <= i < |r| ==> r[i] == Str(TcpErrors[i].1)
  {
    seq(|TcpErrors|, i requires 0 <= i < |TcpErrors| => Str(TcpErrors[i].1))
  }

  /** The value of an errtype field always names the counter it came from. */
  lemma ErrtypeValuesRoundTrip(j: nat)
    requires j < |ErrtypeValues()|
    ensures ErrKey(ErrtypeValues()[j]) == TcpErrors[j].0
  {
    ErrKeyRoundTrip(j);
  }

  function Field(name: string, title: string, values: ValuesFn): FieldDecl
  {
    FieldDecl(name, FieldInfo(title, TypeString, Some(values), None))
  }

  /** A numeric field bucketized log-linearly with the parameters the table uses. */
  function Throughput(name: string, title: string, values: ValuesFn): FieldDecl
  {
    ShippedLogParams();
    FieldDecl(name, FieldInfo(title, TypeNumber, Some(values), Some(LogLinear(10, 2, 11, 100))))
  }

  function Sum2(k: Kstat, kl: Kstat, a: string, b: string): int
  {
    Delta(k, kl, a) + Delta(k, kl, b)
  }

  // ---------------------------------------------------------------------------
  // Descriptors
  // ---------------------------------------------------------------------------

  function One(fields: map<string, Val>, k: Kstat, kl: Kstat, iv: int): int
  {
    1
  }

  const NicsDesc := MetricDesc("nic", "nics", "NICs", "size", map["module" := "link", "class" := "net"], Some(One), [
    Field("nic", "NIC name", (k: Kstat, kl: Kstat, iv: int) => [Str(k.name)]),
    Throughput("throughput", "total throughput", (k: Kstat, kl: Kstat, iv: int) => [Num(Sum2(k, kl, "rbytes64", "obytes64"))]),
    Throughput("in_throughput", "inbound throughput", (k: Kstat, kl: Kstat, iv: int) => [Num(Delta(k, kl, "rbytes64"))]),
    Throughput("out_throughput", "outbound throughput", (k: Kstat, kl: Kstat, iv: int) => [Num(Delta(k, kl, "obytes64"))])
  ])

  const DisksDesc := MetricDesc("disk", "disks", "disks", "size", map["class" := "disk"], Some(One), [
    Field("disk", "device name", (k: Kstat, kl: Kstat, iv: int) => [Str(k.name)]),
    Throughput("iops", "number of I/O operations", (k: Kstat, kl: Kstat, iv: int) => [Num(Sum2(k, kl, "writes", "reads"))]),
    Throughput("bytes", "total bytes transferred", (k: Kstat, kl: Kstat, iv: int) => [Num(Sum2(k, kl, "nwritten", "nread"))]),
    Throughput("bytes_read", "bytes read", (k: Kstat, kl: Kstat, iv: int) => [Num(Delta(k, kl, "nread"))]),
    Throughput("bytes_written", "bytes written", (k: Kstat, kl: Kstat, iv: int) => [Num(Delta(k, kl, "nwritten"))])
  ])

  const PhysioDesc := MetricDesc("disk", "physio_ops", "operations", "ops", map["class" := "disk"], Some(PhysioExtract), [
    Field("optype", "type", (k: Kstat, kl: Kstat, iv: int) => Constant(["read", "write"])),
    Field("disk", "device name", (k: Kstat, kl: Kstat, iv: int) => [Str(k.name)])
  ])

  function TcpStack(): FieldDecl
  {
    Field("tcpstack", "tcp instance", (k: Kstat, kl: Kstat, iv: int) => [Str("tcp" + Decimal(k.instance))])
  }

  const ConnectionsDesc := MetricDesc("tcp", "connections", "connections", "ops", map["module" := "tcp", "class" := "mib2"],
    Some(ConnectionsExtract), [
    TcpStack(),
    Field("conntype", "active/passive", (k: Kstat, kl: Kstat, iv: int) => Constant(["active", "passive"]))
  ])

  const SegmentsDesc := MetricDesc("tcp", "segments", "segments", "ops", map["module" := "tcp", "class" := "mib2"],
    Some(SegmentsExtract), [
    TcpStack(),
    Field("direction", "sent/received", (k: Kstat, kl: Kstat, iv: int) => Constant(["sent", "received"]))
  ])

  const ErrorsDesc := MetricDesc("tcp", "errors", "errors", "ops", map["module" := "tcp", "class" := "mib2"],
    Some(ErrorExtract), [
    TcpStack(),
    Field("errtype", "error type", (k: Kstat, kl: Kstat, iv: int) => ErrtypeValues())
  ])

  lemma ThroughputValid()
    ensures forall name, title, values :: |title| > 0 ==> ValidField(Throughput(name, title, values).info)
  {
    ShippedLogParams();
    assert TypeNumber[0] != TypeString[0];
    assert TypeArity(TypeNumber) == Some(Numeric);
  }

  lemma FieldValid()
    ensures forall name, title, values :: |title| > 0 ==> ValidField(Field(name, title, values).info)
  {
  }

  /** The nics descriptor validates once it has its hostname field. */
  lemma NicsValid(hostname: string)
    ensures ValidDescriptor(WithHostname(NicsDesc, hostname))
  {
    var fs := NicsDesc.fields;
    FieldValid();
    ThroughputValid();
    assert |fs| == 4;
    assert forall i :: 0 <= i < |fs| ==> |fs[i].name| != 8;
    AddHostnameValid(NicsDesc, hostname);
  }

  /** The disks descriptor validates once it has its hostname field. */
  lemma DisksValid(hostname: string)
    ensures ValidDescriptor(WithHostname(DisksDesc, hostname))
  {
    var fs := DisksDesc.fields;
    FieldValid();
    ThroughputValid();
    assert |fs| == 5;
    assert forall i :: 0 <= i < |fs| ==> |fs[i].name| != 8;
    AddHostnameValid(DisksDesc, hostname);
  }

  /** The physio descriptor validates once it has its hostname field. */
  lemma PhysioValid(hostname: string)
    ensures ValidDescriptor(WithHostname(PhysioDesc, hostname))
  {
    FieldValid();
    AddHostnameValid(PhysioDesc, hostname);
  }

  /** The tcp instance field is valid and is not the hostname field. */
  lemma TcpStackValid()
    ensures ValidField(TcpStack().info) && TcpStack().name != "hostname"
  {
    assert TcpStack().name[0] != "hostname"[0];
  }

  /** The connections descriptor validates once it has its hostname field. */
  lemma ConnectionsValid(hostname: string)
    ensures ValidDescriptor(WithHostname(ConnectionsDesc, hostname))
  {
    FieldValid();
    TcpStackValid();
    assert "conntype"[0] != "hostname"[0];
    AddHostnameValid(ConnectionsDesc, hostname);
  }

  /** The segments descriptor validates once it has its hostname field. */
  lemma SegmentsValid(hostname: string)
    ensures ValidDescriptor(WithHostname(SegmentsDesc, hostname))
  {
    FieldValid();
    TcpStackValid();
    AddHostnameValid(SegmentsDesc, hostname);
  }

  /** The errors descriptor validates once it has its hostname field. */
  lemma ErrorsValid(hostname: string)
    ensures ValidDescriptor(WithHostname(ErrorsDesc, hostname))
  {
    FieldValid();
    TcpStackValid();
    AddHostnameValid(ErrorsDesc, hostname);
  }

  // ---------------------------------------------------------------------------
  // What the extract functions add up to
  // ---------------------------------------------------------------------------

  /** A field list whose leading field has two values and whose other fields have one each. */
  lemma {:induction false} LeadingPair(fs: seq<FieldDecl>, k: Kstat, kl: Kstat, iv: int, a: Val, b: Val)
    requires |fs| >= 2 && |Expand(fs[1..], k, kl, iv)| == 1 && ValuesOf(fs[0], k, kl, iv) == [a, b]
    ensures var q := Expand(fs[1..], k, kl, iv)[0];
      Expand(fs, k, kl, iv) == [Put(q, fs[0].name, a), Put(q, fs[0].name, b)]
  {
    var sub := Expand(fs[1..], k, kl, iv);
    var vals := ValuesOf(fs[0], k, kl, iv);
    assert sub[..0] == [];
    assert Copies(sub, fs[0].name, vals) == Row(sub[0], fs[0].name, vals);
  }

  /** Two single-valued fields expand to one assignment. */
  lemma {:induction false} SinglePair(fs: seq<FieldDecl>, k: Kstat, kl: Kstat, iv: int, a: Val, b: Val)
    requires |fs| == 2 && ValuesOf(fs[0], k, kl, iv) == [a] && ValuesOf(fs[1], k, kl, iv) == [b]
    ensures Expand(fs, k, kl, iv) == [Put(map[fs[1].name := b], fs[0].name, a)]
  {
    var sub := Expand(fs[1..], k, kl, iv);
    assert fs[1..] == [fs[1]];
    assert sub == Singletons(fs[1].name, [b]);
    assert sub == [map[fs[1].name := b]];
    SingleLead(fs, k, kl, iv, a);
    assert Assign(sub, fs[0].name, a) == [Put(sub[0], fs[0].name, a)];
  }

  /** A leading field with a single value is written into every assignment of the rest. */
  lemma {:induction false} SingleLead(fs: seq<FieldDecl>, k: Kstat, kl: Kstat, iv: int, a: Val)
    requires |fs| >= 2 && ValuesOf(fs[0], k, kl, iv) == [a]
    ensures Expand(fs, k, kl, iv) == Assign(Expand(fs[1..], k, kl, iv), fs[0].name, a)
  {
    var sub := Expand(fs[1..], k, kl, iv);
    CopiesLength(sub, fs[0].name, [a]);
    assert Copies(sub, fs[0].name, [a]) == [];
    assert Reverse(Copies(sub, fs[0].name, [a])) == [];
    assert Expand(fs, k, kl, iv) == Assign(sub, fs[0].name, a) + Reverse(Copies(sub, fs[0].name, [a]));
  }

  /** Two data points sum to the extract of each. */
  lemma SumTwo(fs: seq<FieldDecl>, extract: ExtractFn, k: Kstat, kl: Kstat, iv: int)
    requires |fs| > 0 && |Expand(fs, k, kl, iv)| == 2
    ensures var e := Expand(fs, k, kl, iv);
      Sum(Points(fs, extract, k, kl, iv)) == extract(e[0], k, kl, iv) + extract(e[1], k, kl, iv)
  {
    var e := Expand(fs, k, kl, iv);
    var pts := Points(fs, extract, k, kl, iv);
    assert pts[0].value == extract(e[0], k, kl, iv) && pts[1].value == extract(e[1], k, kl, iv);
    assert pts[1..][0] == pts[1] && pts[1..][1..] == [];
    assert Sum(pts[1..]) == pts[1].value + Sum(pts[1..][1..]);
  }

  /** A kstat that expands to exactly two assignments contributes their two extracts. */
  lemma SumPair(fs: seq<FieldDecl>, extract: ExtractFn, k: Kstat, kl: Kstat, iv: int, e0: map<string, Val>, e1: map<string, Val>)
    requires |fs| > 0 && Expand(fs, k, kl, iv) == [e0, e1]
    ensures Sum(Points(fs, extract, k, kl, iv)) == extract(e0, k, kl, iv) + extract(e1, k, kl, iv)
  {
    SumTwo(fs, extract, k, kl, iv);
  }

  /** Any field list expanding to one read and one write assignment sums the two counters. */
  lemma PhysioSum(fs: seq<FieldDecl>, q: map<string, Val>, k: Kstat, kl: Kstat, iv: int)
    requires |fs| > 0 && Expand(fs, k, kl, iv) == [Put(q, "optype", Str("read")), Put(q, "optype", Str("write"))]
    ensures Sum(Points(fs, PhysioExtract, k, kl, iv)) == Delta(k, kl, "reads") + Delta(k, kl, "writes")
  {
    SumPair(fs, PhysioExtract, k, kl, iv, Put(q, "optype", Str("read")), Put(q, "optype", Str("write")));
    assert Str("write") != Str("read");
  }

  /** disk.physio_ops counts a disk's reads and writes, one data point for each. */
  lemma PhysioTotal(hostname: string, k: Kstat, kl: Kstat, iv: int)
    ensures var fs := WithHostname(PhysioDesc, hostname).fields;
      Sum(Points(fs, PhysioExtract, k, kl, iv)) == Delta(k, kl, "reads") + Delta(k, kl, "writes")
  {
    var fs := WithHostname(PhysioDesc, hostname).fields;
    SetFieldAppends(PhysioDesc.fields, "hostname", HostnameField(hostname));
    SinglePair(fs[1..], k, kl, iv, Str(k.name), Str(hostname));
    LeadingPair(fs, k, kl, iv, Str("read"), Str("write"));
    PhysioSum(fs, Expand(fs[1..], k, kl, iv)[0], k, kl, iv);
  }

  lemma ConnectionsAt(q: map<string, Val>, t: Val, c: string, k: Kstat, kl: Kstat, iv: int)
    ensures ConnectionsExtract(Put(Put(q, "conntype", Str(c)), "tcpstack", t), k, kl, iv) == Delta(k, kl, c + "Opens")
  {
    assert "tcpstack"[0] != "conntype"[0];
  }

  /** The assignments of tcp.connections: one per connection type. */
  lemma ConnectionsExpand(hostname: string, k: Kstat, kl: Kstat, iv: int)
    ensures var fs := WithHostname(ConnectionsDesc, hostname).fields;
      var q := map["hostname" := Str(hostname)];
      var t := Str("tcp" + Decimal(k.instance));
      Expand(fs, k, kl, iv) == [Put(Put(q, "conntype", Str("active")), "tcpstack", t),
                                Put(Put(q, "conntype", Str("passive")), "tcpstack", t)]
  {
    var fs := WithHostname(ConnectionsDesc, hostname).fields;
    TcpStackValid();
    assert "conntype"[0] != "hostname"[0];
    SetFieldAppends(ConnectionsDesc.fields, "hostname", HostnameField(hostname));
    assert fs[1..][1..] == [fs[2]];
    LeadingPair(fs[1..], k, kl, iv, Str("active"), Str("passive"));
    SingleLead(fs, k, kl, iv, Str("tcp" + Decimal(k.instance)));
  }

  /** Any field list expanding to one active and one passive assignment sums the two open counters. */
  lemma ConnectionsSum(fs: seq<FieldDecl>, q: map<string, Val>, t: Val, k: Kstat, kl: Kstat, iv: int)
    requires |fs| > 0
    requires Expand(fs, k, kl, iv) == [Put(Put(q, "conntype", Str("active")), "tcpstack", t),
                                       Put(Put(q, "conntype", Str("passive")), "tcpstack", t)]
    ensures Sum(Points(fs, ConnectionsExtract, k, kl, iv)) == Delta(k, kl, "activeOpens") + Delta(k, kl, "passiveOpens")
  {
    SumPair(fs, ConnectionsExtract, k, kl, iv, Put(Put(q, "conntype", Str("active")), "tcpstack", t),
            Put(Put(q, "conntype", Str("passive")), "tcpstack", t));
    ConnectionsAt(q, t, "active", k, kl, iv);
    ConnectionsAt(q, t, "passive", k, kl, iv);
    OpensKeys();
  }

  lemma OpensKeys()
    ensures "active" + "Opens" == "activeOpens" && "passive" + "Opens" == "passiveOpens"
  {
  }

  /** tcp.connections counts the active and the passive opens of a TCP instance. */
  lemma ConnectionsTotal(hostname: string, k: Kstat, kl: Kstat, iv: int)
    ensures var fs := WithHostname(ConnectionsDesc, hostname).fields;
      Sum(Points(fs, ConnectionsExtract, k, kl, iv)) == Delta(k, kl, "activeOpens") + Delta(k, kl, "passiveOpens")
  {
    ConnectionsExpand(hostname, k, kl, iv);
    ConnectionsSum(WithHostname(ConnectionsDesc, hostname).fields, map["hostname" := Str(hostname)],
                   Str("tcp" + Decimal(k.instance)), k, kl, iv);
  }

  /** tcp.segments counts the segments a TCP instance sent and received. */
  lemma SegmentsTotal(hostname: string, k: Kstat, kl: Kstat, iv: int)
    ensures var fs := WithHostname(SegmentsDesc, hostname).fields;
      Sum(Points(fs, SegmentsExtract, k, kl, iv)) == Delta(k, kl, "outSegs") + Delta(k, kl, "inSegs")
  {
    var fs := WithHostname(SegmentsDesc, hostname).fields;
    TcpStackValid();
    SetFieldAppends(SegmentsDesc.fields, "hostname", HostnameField(hostname));
    assert fs[1..][1..] == [fs[2]];
    LeadingPair(fs[1..], k, kl, iv, Str("sent"), Str("received"));
    SingleLead(fs, k, kl, iv, Str("tcp" + Decimal(k.instance)));
    SumTwo(fs, SegmentsExtract, k, kl, iv);
  }
}
