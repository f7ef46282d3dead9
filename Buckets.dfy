/**
 * Histogram bucketization used by numeric decompositions (cmd/cainst/modules/kstat.js,
 * caLinearBucketize and caLogLinearBucketize).
 *
 * A distribution is a list of [[lo, hi], weight] entries.  Both bucketizers walk the
 * list until they find the entry whose inclusive range holds the value (and add the
 * weight there) or the first entry lying above it (and splice a new entry in front of
 * it).  They differ only in the range a new entry gets.  The JavaScript mutates the
 * list in place; here each operation returns the new list.
 */
module Buckets {

  /** The inclusive range [lo, hi] of one entry. */
  datatype Range = Range(lo: int, hi: int)

  /** One entry [[lo, hi], weight] of a distribution. */
  datatype Bucket = Bucket(range: Range, weight: int)

  predicate Contains(r: Range, v: int)
  {
    r.lo <= v <= r.hi
  }

  /** r lies wholly below or wholly above q. */
  predicate Separate(r: Range, q: Range)
  {
    r.hi < q.lo || q.hi < r.lo
  }

  /** Every range is non-empty and each lies wholly below the next: sorted and disjoint. */
  ghost predicate Ordered(s: seq<Bucket>)
  {
    && (forall i :: 0 <= i < |s| ==> s[i].range.lo <= s[i].range.hi)
    && (forall i, j :: 0 <= i < j < |s| ==> s[i].range.hi < s[j].range.lo)
  }

  /** Lower bounds strictly increase along the list. */
  ghost predicate SortedByLo(s: seq<Bucket>)
  {
    forall i, j :: 0 <= i < j < |s| ==> s[i].range.lo < s[j].range.lo
  }

  /** Total weight of a distribution. */
  function Weight(s: seq<Bucket>): int
  {
    if s == [] then 0 else s[0].weight + Weight(s[1..])
  }

  /**
   * Where the search loop of both bucketizers stops: the first entry that holds v or
   * lies above it, or the end of the list.  Every entry passed over lies below v.
   */
  function Slot(s: seq<Bucket>, v: int): (i: nat)
    ensures i <= |s|
    ensures forall j :: 0 <= j < i ==> s[j].range.lo <= v && s[j].range.hi < v
    ensures i < |s| ==> Contains(s[i].range, v) || v < s[i].range.lo
  {
    if s == [] || Contains(s[0].range, v) || v < s[0].range.lo then 0
    else 1 + Slot(s[1..], v)
  }

  /**
   * The common update: add weight c to the entry found by the search when it holds v,
   * otherwise splice the entry (r, c) in at the place where the search stopped.
   */
  function Insert(s: seq<Bucket>, v: int, c: int, r: Range): seq<Bucket>
  {
    var i := Slot(s, v);
    if i < |s| && Contains(s[i].range, v) then s[i := Bucket(s[i].range, s[i].weight + c)]
    else s[..i] + [Bucket(r, c)] + s[i..]
  }

  // ---------------------------------------------------------------------------
  // Facts about the common update
  // ---------------------------------------------------------------------------

  lemma {:induction false} WeightAppend(a: seq<Bucket>, b: seq<Bucket>)
    ensures Weight(a + b) == Weight(a) + Weight(b)
  {
    if a == [] {
      assert a + b == b;
    } else {
      assert (a + b)[1..] == a[1..] + b;
      WeightAppend(a[1..], b);
    }
  }

  lemma {:induction false} WeightUpdate(s: seq<Bucket>, i: nat, b: Bucket)
    requires i < |s|
    ensures Weight(s[i := b]) == Weight(s) - s[i].weight + b.weight
  {
    if i > 0 {
      assert s[i := b][1..] == s[1..][i - 1 := b];
      WeightUpdate(s[1..], i - 1, b);
    }
  }

  /** Whatever the list, the update adds exactly c to the total weight. */
  lemma InsertWeight(s: seq<Bucket>, v: int, c: int, r: Range)
    ensures Weight(Insert(s, v, c, r)) == Weight(s) + c
  {
    var i := Slot(s, v);
    if i < |s| && Contains(s[i].range, v) {
      WeightUpdate(s, i, Bucket(s[i].range, s[i].weight + c));
    } else {
      assert s == s[..i] + s[i..];
      WeightAppend(s[..i], s[i..]);
      WeightAppend(s[..i] + [Bucket(r, c)], s[i..]);
      WeightAppend(s[..i], [Bucket(r, c)]);
      assert Weight([Bucket(r, c)]) == c;
    }
  }

  /** On an ordered list, an entry holding v is the one the search finds. */
  lemma InsertMerges(s: seq<Bucket>, v: int, c: int, r: Range, i: nat)
    requires Ordered(s) && i < |s| && Contains(s[i].range, v)
    ensures Slot(s, v) == i
    ensures Insert(s, v, c, r) == s[i := Bucket(s[i].range, s[i].weight + c)]
  {
    forall j | 0 <= j < i ensures s[j].range.lo <= v && s[j].range.hi < v {
      assert s[j].range.hi < s[i].range.lo;
    }
    SlotIs(s, v, i);
  }

  /**
   * The new entry (r, c) keeps an ordered list ordered, provided r holds v and every
   * existing range either is r or lies wholly on one side of it.
   */
  lemma InsertOrdered(s: seq<Bucket>, v: int, c: int, r: Range)
    requires Ordered(s) && Contains(r, v)
    requires forall j :: 0 <= j < |s| ==> s[j].range == r || Separate(s[j].range, r)
    ensures Ordered(Insert(s, v, c, r))
  {
    var i := Slot(s, v);
    if !(i < |s| && Contains(s[i].range, v)) {
      assert forall j :: 0 <= j < i ==> s[j].range.hi < r.lo by {
        forall j | 0 <= j < i ensures s[j].range.hi < r.lo {
          assert !Contains(s[j].range, v);
        }
      }
      assert forall j :: i <= j < |s| ==> r.hi < s[j].range.lo by {
        forall j | i <= j < |s| ensures r.hi < s[j].range.lo {
          assert v < s[i].range.lo <= s[j].range.lo;
          assert !Contains(s[j].range, v);
        }
      }
      SpliceOrdered(s, i, Bucket(r, c));
    }
  }

  /** Splicing an entry between the entries wholly below it and those wholly above it keeps a list ordered. */
  lemma SpliceOrdered(s: seq<Bucket>, i: nat, b: Bucket)
    requires Ordered(s) && i <= |s| && b.range.lo <= b.range.hi
    requires forall j :: 0 <= j < i ==> s[j].range.hi < b.range.lo
    requires forall j :: i <= j < |s| ==> b.range.hi < s[j].range.lo
    ensures Ordered(s[..i] + [b] + s[i..])
  {
    var t := s[..i] + [b] + s[i..];
    forall j | 0 <= j < |t| ensures t[j] == if j < i then s[j] else if j == i then b else s[j - 1] {
    }
  }

  /** Splicing an entry whose lower bound lies between its neighbours' keeps lower bounds increasing. */
  lemma SpliceSorted(s: seq<Bucket>, i: nat, b: Bucket)
    requires SortedByLo(s) && i <= |s|
    requires forall j :: 0 <= j < i ==> s[j].range.lo < b.range.lo
    requires forall j :: i <= j < |s| ==> b.range.lo < s[j].range.lo
    ensures SortedByLo(s[..i] + [b] + s[i..])
  {
    var t := s[..i] + [b] + s[i..];
    forall j | 0 <= j < |t| ensures t[j] == if j < i then s[j] else if j == i then b else s[j - 1] {
    }
  }

  /**
   * The new entry keeps lower bounds strictly increasing, provided r holds v and its
   * lower bound is above that of every entry the search passed over.
   */
  lemma InsertSortedByLo(s: seq<Bucket>, v: int, c: int, r: Range)
    requires SortedByLo(s) && Contains(r, v)
    requires forall j :: 0 <= j < Slot(s, v) ==> s[j].range.lo < r.lo
    ensures SortedByLo(Insert(s, v, c, r))
  {
    var i := Slot(s, v);
    if !(i < |s| && Contains(s[i].range, v)) {
      assert forall j :: i <= j < |s| ==> r.lo < s[j].range.lo by {
        forall j | i <= j < |s| ensures r.lo < s[j].range.lo {
          assert v < s[i].range.lo;
          assert j > i ==> s[i].range.lo < s[j].range.lo;
        }
      }
      SpliceSorted(s, i, Bucket(r, c));
    }
  }

  /** The ranges of a list. */
  ghost function RangesOf(s: seq<Bucket>): set<Range>
  {
    set k | 0 <= k < |s| :: s[k].range
  }

  /** After the update every range is r or was already a range of the list. */
  lemma InsertRanges(s: seq<Bucket>, v: int, c: int, r: Range)
    ensures var t := Insert(s, v, c, r);
      forall j :: 0 <= j < |t| ==> t[j].range == r || t[j].range in RangesOf(s)
  {
    var i := Slot(s, v);
    var t := Insert(s, v, c, r);
    forall j | 0 <= j < |t| ensures t[j].range == r || t[j].range in RangesOf(s) {
      if i < |s| && Contains(s[i].range, v) {
        assert t[j].range == s[j].range;
      } else if j < i {
        assert t[j] == s[j];
      } else if j > i {
        assert t[j] == s[j - 1];
      }
    }
  }

  /** When r holds v, some entry of the result holds v. */
  lemma InsertHolds(s: seq<Bucket>, v: int, c: int, r: Range)
    requires Contains(r, v)
    ensures var t := Insert(s, v, c, r);
      exists j :: 0 <= j < |t| && Contains(t[j].range, v)
  {
    var i := Slot(s, v);
    var t := Insert(s, v, c, r);
    if i < |s| && Contains(s[i].range, v) {
      assert Contains(t[i].range, v);
    } else {
      assert t[i] == Bucket(r, c);
    }
  }

  /** The search loop as the bucketizers run it stops exactly at Slot. */
  lemma {:induction false} SlotIs(s: seq<Bucket>, v: int, i: nat)
    requires i <= |s|
    requires forall j :: 0 <= j < i ==> s[j].range.lo <= v && s[j].range.hi < v
    requires i < |s| ==> Contains(s[i].range, v) || v < s[i].range.lo
    ensures Slot(s, v) == i
  {
    if i > 0 {
      assert !Contains(s[0].range, v) && !(v < s[0].range.lo);
      SlotIs(s[1..], v, i - 1);
    }
  }

  // ---------------------------------------------------------------------------
  // Linear bucketization (kstat.js caLinearBucketize)
  // ---------------------------------------------------------------------------

  /** [floor(v / step) * step, lo + step - 1]; with a positive step Dafny's division floors. */
  function LinearRange(v: int, step: int): Range
    requires step > 0
  {
    var lo := (v / step) * step;
    Range(lo, lo + step - 1)
  }

  /** Every entry has the range the linear bucketizer gives its own lower bound. */
  ghost predicate Aligned(s: seq<Bucket>, step: int)
    requires step > 0
  {
    forall j :: 0 <= j < |s| ==> s[j].range == LinearRange(s[j].range.lo, step)
  }

  function LinearInsert(s: seq<Bucket>, v: int, c: int, step: int): seq<Bucket>
    requires step > 0
  {
    Insert(s, v, c, LinearRange(v, step))
  }

  lemma LinearRangeContains(v: int, step: int)
    requires step > 0
    ensures Contains(LinearRange(v, step), v)
    ensures LinearRange(v, step).hi - LinearRange(v, step).lo == step - 1
  {
  }

  /** Multiplying by a non-negative factor preserves order. */
  lemma MulLe(x: int, y: int, d: int)
    ensures x <= y && d >= 0 ==> x * d <= y * d
  {
    assert (y - x) * d == y * d - x * d;
    assert x <= y && d >= 0 ==> (y - x) * d >= 0;
  }

  /** The quotient a / d is the one q with q*d <= a < q*d + d. */
  lemma DivUnique(a: int, d: int, q: int)
    requires d > 0 && q * d <= a < q * d + d
    ensures a / d == q
  {
    var r := a / d;
    assert r * d <= a < r * d + d;
    MulLe(q + 1, r, d);
    MulLe(r + 1, q, d);
    assert (q + 1) * d == q * d + d;
    assert (r + 1) * d == r * d + d;
  }

  lemma MulDiv(q: int, d: int)
    requires d > 0
    ensures (q * d) / d == q
  {
    DivUnique(q * d, d, q);
  }

  /** Two linear ranges coincide or are disjoint: the ranges tile the integers. */
  lemma LinearRangePartition(x: int, y: int, step: int)
    requires step > 0
    ensures LinearRange(x, step) == LinearRange(y, step) || Separate(LinearRange(x, step), LinearRange(y, step))
  {
    var qx, qy := x / step, y / step;
    MulLe(qx + 1, qy, step);
    MulLe(qy + 1, qx, step);
    assert (qx + 1) * step == qx * step + step;
    assert (qy + 1) * step == qy * step + step;
  }

  /**
   * Linear bucketization of an aligned, ordered list keeps it aligned and ordered, adds
   * exactly c to the total weight, and leaves an entry holding v.
   */
  lemma LinearInsertPreserves(s: seq<Bucket>, v: int, c: int, step: int)
    requires step > 0 && Ordered(s) && Aligned(s, step)
    ensures var r := LinearInsert(s, v, c, step);
      Ordered(r) && Aligned(r, step) && Weight(r) == Weight(s) + c &&
      exists j :: 0 <= j < |r| && Contains(r[j].range, v)
  {
    var nr := LinearRange(v, step);
    LinearRangeContains(v, step);
    forall j | 0 <= j < |s| ensures s[j].range == nr || Separate(s[j].range, nr) {
      LinearRangePartition(s[j].range.lo, v, step);
    }
    InsertOrdered(s, v, c, nr);
    InsertWeight(s, v, c, nr);
    MulDiv(v / step, step);
    assert LinearRange(nr.lo, step) == nr;
    InsertRanges(s, v, c, nr);
    InsertHolds(s, v, c, nr);
    var r := LinearInsert(s, v, c, step);
    forall j | 0 <= j < |r| ensures r[j].range == LinearRange(r[j].range.lo, step) {
      if r[j].range != nr {
        var k :| 0 <= k < |s| && s[k].range == r[j].range;
      }
    }
  }

  /** If an entry of an ordered list holds v, only that entry's weight changes, by c. */
  lemma LinearInsertMerges(s: seq<Bucket>, v: int, c: int, step: int, i: nat)
    requires step > 0 && Ordered(s) && i < |s| && Contains(s[i].range, v)
    ensures LinearInsert(s, v, c, step) == s[i := Bucket(s[i].range, s[i].weight + c)]
  {
    InsertMerges(s, v, c, LinearRange(v, step), i);
  }

  /**
   * If no entry holds v, the entry [floor(v/step)*step, lo+step-1] with weight c is spliced
   * in before the first entry whose lower bound exceeds v, after every entry below v.
   */
  lemma LinearInsertSplices(s: seq<Bucket>, v: int, c: int, step: int)
    requires step > 0 && Ordered(s)
    requires forall j :: 0 <= j < |s| ==> !Contains(s[j].range, v)
    ensures var k := Slot(s, v);
      && LinearInsert(s, v, c, step) == s[..k] + [Bucket(Range((v / step) * step, (v / step) * step + step - 1), c)] + s[k..]
      && (forall j :: 0 <= j < k ==> s[j].range.hi < v)
      && (forall j :: k <= j < |s| ==> v < s[j].range.lo)
  {
    var k := Slot(s, v);
    forall j | k <= j < |s| ensures v < s[j].range.lo {
      assert v < s[k].range.lo;
      assert j > k ==> s[k].range.hi < s[j].range.lo;
    }
  }

  /**
   * The search loop both bucketizers open with: stop at the entry holding value or at the
   * first entry above it.  The two assertions that follow the loop in kstat.js (the
   * stopping entry lies above value, the one before it below value) are checked here.
   */
  method Search(rv: seq<Bucket>, value: int) returns (ii: nat, found: bool)
    ensures ii == Slot(rv, value)
    ensures found <==> ii < |rv| && Contains(rv[ii].range, value)
  {
    ii := 0;
    while ii < |rv|
      invariant 0 <= ii <= |rv|
      invariant forall j :: 0 <= j < ii ==> rv[j].range.lo <= value && rv[j].range.hi < value
    {
      if value >= rv[ii].range.lo && value <= rv[ii].range.hi {
        SlotIs(rv, value, ii);
        return ii, true;
      }
      if value < rv[ii].range.lo {
        break;
      }
      ii := ii + 1;
    }
    assert ii == |rv| || value < rv[ii].range.lo;
    assert ii == 0 || value > rv[ii - 1].range.hi;
    SlotIs(rv, value, ii);
    found := false;
  }

  /** caLinearBucketize: add to the entry found, or splice in [floor(v/step)*step, lo+step-1]. */
  method LinearBucketize(rv: seq<Bucket>, value: int, card: int, step: int) returns (r: seq<Bucket>)
    requires step > 0
    ensures r == LinearInsert(rv, value, card, step)
  {
    var ii, found := Search(rv, value);
    if found {
      r := rv[ii := Bucket(rv[ii].range, rv[ii].weight + card)];
    } else {
      var lo := (value / step) * step;
      r := rv[..ii] + [Bucket(Range(lo, lo + step - 1), card)] + rv[ii..];
    }
  }

  // ---------------------------------------------------------------------------
  // Exact powers and floor logarithms
  // ---------------------------------------------------------------------------

  function Pow(b: int, e: nat): int
  {
    if e == 0 then 1 else b * Pow(b, e - 1)
  }

  lemma {:induction false} PowPositive(b: int, e: nat)
    requires b >= 2
    ensures Pow(b, e) >= 1
  {
    if e > 0 {
      PowPositive(b, e - 1);
    }
  }

  lemma {:induction false} PowMonotone(b: int, e1: nat, e2: nat)
    requires b >= 2 && e1 <= e2
    ensures Pow(b, e1) <= Pow(b, e2)
  {
    if e1 < e2 {
      PowMonotone(b, e1, e2 - 1);
      PowPositive(b, e2 - 1);
    }
  }

  lemma {:induction false} PowAdd(b: int, e1: nat, e2: nat)
    ensures Pow(b, e1 + e2) == Pow(b, e1) * Pow(b, e2)
  {
    if e2 > 0 {
      PowAdd(b, e1, e2 - 1);
      assert Pow(b, e1 + e2) == b * Pow(b, e1 + e2 - 1);
    }
  }

  /** Dividing v >= b by b >= 2 gives a positive quotient below v. */
  lemma DivShrinks(v: int, b: int)
    requires b >= 2 && v >= b
    ensures 1 <= v / b < v
    ensures (v / b) * b <= v < (v / b) * b + b
  {
    var q := v / b;
    assert q * b <= v < q * b + b;
    MulLe(q, 0, b);
    MulLe(2, b, q);
  }

  /** The exponent k with b^k <= v < b^(k+1); stands for floor(log(v) / log(b)). */
  function FloorLog(b: int, v: int): (k: nat)
    requires b >= 2 && v >= 1
    ensures Pow(b, k) <= v < Pow(b, k + 1)
    decreases v
  {
    if v < b then 0
    else
      DivShrinks(v, b);
      var k := FloorLog(b, v / b);
      MulLe(Pow(b, k), v / b, b);
      MulLe(v / b + 1, Pow(b, k + 1), b);
      assert (v / b + 1) * b == (v / b) * b + b;
      1 + k
  }

  lemma FloorLogUnique(b: int, v: int, k: nat)
    requires b >= 2 && Pow(b, k) <= v < Pow(b, k + 1)
    ensures FloorLog(b, v) == k
  {
    PowPositive(b, k);
    var f := FloorLog(b, v);
    if f < k {
      PowMonotone(b, f + 1, k);
    } else if f > k {
      PowMonotone(b, k + 1, f);
    }
  }

  // ---------------------------------------------------------------------------
  // Log-linear bucketization (kstat.js caLogLinearBucketize)
  // ---------------------------------------------------------------------------

  /**
   * Parameters for which every power range [base^k, base^(k+1)), k >= min, splits into
   * sub-ranges of integral width base^(k+1)/nbuckets that tile it exactly.  The shipped
   * metrics use base 10, min 2, nbuckets 100 (see ShippedLogParams).
   */
  predicate LogParams(base: int, min: nat, nbuckets: int)
  {
    base >= 2 && nbuckets >= 1 && nbuckets % base == 0 && Pow(base, min) % (nbuckets / base) == 0
  }

  lemma ShippedLogParams()
    ensures LogParams(10, 2, 100)
  {
    assert Pow(10, 2) == 100;
  }

  /** Width of a sub-range in the power range [base^k, base^(k+1)). */
  function DecadeStep(base: int, nbuckets: int, k: nat): int
    requires nbuckets >= 1
  {
    Pow(base, k + 1) / nbuckets
  }

  /** The arithmetic behind DecadeFacts, over plain integers: base^k = m*t*q, base^(k+1) = base*base^k. */
  lemma DecadeArith(base: int, m: int, nbuckets: int, t: int, q: int, pk: int, pk1: int)
    requires base >= 2 && nbuckets >= 1 && nbuckets == base * m
    requires pk == (m * t) * q && pk1 == base * pk && pk >= 1
    ensures m >= 1 && pk1 / nbuckets == t * q && t * q >= 1
    ensures pk == m * (t * q)
    ensures pk1 - pk == (base - 1) * m * (t * q)
  {
    MulLe(m, 0, base);
    var u := t * q;
    assert (m * t) * q == m * u;
    assert pk1 == (base * m) * u;
    MulDiv(u, nbuckets);
    MulLe(u, 0, m);
    assert (base - 1) * m * u == base * m * u - m * u;
  }

  lemma DecadeFacts(base: int, min: nat, nbuckets: int, k: nat)
    requires LogParams(base, min, nbuckets) && k >= min
    ensures DecadeStep(base, nbuckets, k) >= 1
    ensures Pow(base, k) == (nbuckets / base) * DecadeStep(base, nbuckets, k)
    ensures Pow(base, k + 1) - Pow(base, k) == (base - 1) * (nbuckets / base) * DecadeStep(base, nbuckets, k)
  {
    var m := nbuckets / base;
    assert nbuckets == base * m;
    MulLe(m, 0, base);
    var t := Pow(base, min) / m;
    assert Pow(base, min) == m * t;
    PowAdd(base, min, k - min);
    PowPositive(base, k);
    DecadeArith(base, m, nbuckets, t, Pow(base, k - min), Pow(base, k), Pow(base, k + 1));
  }

  lemma FloorLogAtLeast(base: int, min: nat, v: int)
    requires base >= 2 && v >= Pow(base, min)
    ensures Pow(base, min) >= 1 && FloorLog(base, v) >= min
  {
    PowPositive(base, min);
    var k := FloorLog(base, v);
    if k < min {
      PowMonotone(base, k + 1, min);
    }
  }

  /**
   * The range of a new entry at or above base^min: with k = floor(log_base v) and
   * step = base^(k+1)/nbuckets, lo = base^k + floor((v - base^k)/step)*step, hi = lo + step - 1.
   */
  function RegularRange(v: int, base: int, min: nat, nbuckets: int): Range
    requires LogParams(base, min, nbuckets) && v >= Pow(base, min)
  {
    FloorLogAtLeast(base, min, v);
    var k := FloorLog(base, v);
    DecadeFacts(base, min, nbuckets, k);
    var step := Pow(base, k + 1) / nbuckets;
    var lo := Pow(base, k) + ((v - Pow(base, k)) / step) * step;
    Range(lo, lo + step - 1)
  }

  /** As kstat.js computes it: below base^min the new entry is [0, base^min], upper bound included. */
  function LogRangeAsWritten(v: int, base: int, min: nat, nbuckets: int): Range
    requires LogParams(base, min, nbuckets)
  {
    if v < Pow(base, min) then Range(0, Pow(base, min)) else RegularRange(v, base, min, nbuckets)
  }

  /** The evidently intended range: the underflow entry is [0, base^min - 1]. */
  function LogRange(v: int, base: int, min: nat, nbuckets: int): Range
    requires LogParams(base, min, nbuckets)
  {
    if v < Pow(base, min) then Range(0, Pow(base, min) - 1) else RegularRange(v, base, min, nbuckets)
  }

  /** Splitting an offset below n*step into sub-ranges of width step. */
  lemma SubRange(off: int, step: int, n: int)
    requires step >= 1 && 0 <= off < n * step
    ensures var j := off / step;
      0 <= j && j * step <= off < j * step + step && j * step + step <= n * step
  {
    var j := off / step;
    assert j * step <= off < j * step + step;
    MulLe(j, -1, step);
    MulLe(n, j, step);
    MulLe(j + 1, n, step);
    assert (j + 1) * step == j * step + step;
  }

  /** A value in the sub-range of an offset lies in the same sub-range, inside the decade. */
  lemma SubRangeStable(p: int, step: int, n: int, off: int, y: int)
    requires step >= 1 && 0 <= off < n * step
    requires p + (off / step) * step <= y <= p + (off / step) * step + step - 1
    ensures p <= y < p + n * step
    ensures (y - p) / step == off / step
  {
    SubRange(off, step, n);
    DivUnique(y - p, step, off / step);
  }

  /** A value in a regular range lies in the same power range and the same sub-range. */
  lemma RegularStable(v: int, y: int, base: int, min: nat, nbuckets: int)
    requires LogParams(base, min, nbuckets) && v >= Pow(base, min)
    requires Contains(RegularRange(v, base, min, nbuckets), y)
    ensures y >= Pow(base, min)
    ensures RegularRange(y, base, min, nbuckets) == RegularRange(v, base, min, nbuckets)
  {
    FloorLogAtLeast(base, min, v);
    var k := FloorLog(base, v);
    DecadeFacts(base, min, nbuckets, k);
    var p := Pow(base, k);
    var step := Pow(base, k + 1) / nbuckets;
    var n := (base - 1) * (nbuckets / base);
    assert Pow(base, k + 1) == p + n * step;
    SubRangeStable(p, step, n, v - p, y);
    PowMonotone(base, min, k);
    FloorLogUnique(base, y, k);
  }

  lemma LogRangeContains(v: int, base: int, min: nat, nbuckets: int)
    requires LogParams(base, min, nbuckets) && v >= 0
    ensures Contains(LogRange(v, base, min, nbuckets), v)
    ensures Contains(LogRangeAsWritten(v, base, min, nbuckets), v)
    ensures LogRange(v, base, min, nbuckets).lo >= 0
    ensures v >= Pow(base, min) ==> LogRange(v, base, min, nbuckets).lo >= Pow(base, min)
  {
    PowPositive(base, min);
    if v >= Pow(base, min) {
      RegularContains(v, base, min, nbuckets);
    }
  }

  /** A regular bucket holds its value and lies at or above the underflow bound. */
  lemma RegularContains(v: int, base: int, min: nat, nbuckets: int)
    requires LogParams(base, min, nbuckets) && v >= Pow(base, min)
    ensures Contains(RegularRange(v, base, min, nbuckets), v)
    ensures RegularRange(v, base, min, nbuckets).lo >= Pow(base, min)
  {
    FloorLogAtLeast(base, min, v);
    var k := FloorLog(base, v);
    DecadeFacts(base, min, nbuckets, k);
    var p := Pow(base, k);
    var step := Pow(base, k + 1) / nbuckets;
    var n := (base - 1) * (nbuckets / base);
    assert Pow(base, k + 1) == p + n * step;
    SubRange(v - p, step, n);
    PowMonotone(base, min, k);
  }

  /** Every value of a corrected log-linear range has that same range. */
  lemma LogRangeStable(v: int, y: int, base: int, min: nat, nbuckets: int)
    requires LogParams(base, min, nbuckets) && v >= 0
    requires Contains(LogRange(v, base, min, nbuckets), y)
    ensures LogRange(y, base, min, nbuckets) == LogRange(v, base, min, nbuckets)
  {
    if v >= Pow(base, min) {
      RegularStable(v, y, base, min, nbuckets);
    }
  }

  /** Corrected log-linear ranges of non-negative values coincide or are disjoint. */
  lemma LogRangePartition(x: int, y: int, base: int, min: nat, nbuckets: int)
    requires LogParams(base, min, nbuckets) && x >= 0 && y >= 0
    ensures LogRange(x, base, min, nbuckets) == LogRange(y, base, min, nbuckets)
         || Separate(LogRange(x, base, min, nbuckets), LogRange(y, base, min, nbuckets))
  {
    var rx, ry := LogRange(x, base, min, nbuckets), LogRange(y, base, min, nbuckets);
    if !Separate(rx, ry) {
      LogRangeContains(x, base, min, nbuckets);
      LogRangeContains(y, base, min, nbuckets);
      var z := if rx.lo < ry.lo then ry.lo else rx.lo;
      LogRangeStable(x, z, base, min, nbuckets);
      LogRangeStable(y, z, base, min, nbuckets);
    }
  }

  /** Every entry has the corrected log-linear range of its own (non-negative) lower bound. */
  ghost predicate LogCanonical(s: seq<Bucket>, base: int, min: nat, nbuckets: int)
    requires LogParams(base, min, nbuckets)
  {
    forall j :: 0 <= j < |s| ==> s[j].range.lo >= 0 && s[j].range == LogRange(s[j].range.lo, base, min, nbuckets)
  }

  /** Every entry has the as-written log-linear range of its own (non-negative) lower bound. */
  ghost predicate LogCanonicalAsWritten(s: seq<Bucket>, base: int, min: nat, nbuckets: int)
    requires LogParams(base, min, nbuckets)
  {
    forall j :: 0 <= j < |s| ==> s[j].range.lo >= 0 && s[j].range == LogRangeAsWritten(s[j].range.lo, base, min, nbuckets)
  }

  /** The corrected log-linear update, which the decomposition engine uses. */
  function LogInsert(s: seq<Bucket>, v: int, c: int, base: int, min: nat, nbuckets: int): seq<Bucket>
    requires LogParams(base, min, nbuckets)
  {
    Insert(s, v, c, LogRange(v, base, min, nbuckets))
  }

  /** The log-linear update as kstat.js performs it. */
  function LogInsertAsWritten(s: seq<Bucket>, v: int, c: int, base: int, min: nat, nbuckets: int): seq<Bucket>
    requires LogParams(base, min, nbuckets)
  {
    Insert(s, v, c, LogRangeAsWritten(v, base, min, nbuckets))
  }

  /**
   * Corrected log-linear bucketization of a non-negative value keeps a canonical list
   * ordered (sorted and disjoint), adds exactly c, and leaves an entry holding v.
   */
  lemma LogInsertPreserves(s: seq<Bucket>, v: int, c: int, base: int, min: nat, nbuckets: int)
    requires LogParams(base, min, nbuckets) && v >= 0
    requires Ordered(s) && LogCanonical(s, base, min, nbuckets)
    ensures var r := LogInsert(s, v, c, base, min, nbuckets);
      Ordered(r) && LogCanonical(r, base, min, nbuckets) && Weight(r) == Weight(s) + c &&
      exists j :: 0 <= j < |r| && Contains(r[j].range, v)
  {
    var nr := LogRange(v, base, min, nbuckets);
    LogRangeContains(v, base, min, nbuckets);
    forall j | 0 <= j < |s| ensures s[j].range == nr || Separate(s[j].range, nr) {
      LogRangePartition(s[j].range.lo, v, base, min, nbuckets);
    }
    InsertOrdered(s, v, c, nr);
    InsertWeight(s, v, c, nr);
    LogRangeStable(v, nr.lo, base, min, nbuckets);
    InsertRanges(s, v, c, nr);
    InsertHolds(s, v, c, nr);
    var r := LogInsert(s, v, c, base, min, nbuckets);
    forall j | 0 <= j < |r| ensures r[j].range.lo >= 0 && r[j].range == LogRange(r[j].range.lo, base, min, nbuckets) {
      if r[j].range != nr {
        var k :| 0 <= k < |s| && s[k].range == r[j].range;
      }
    }
  }

  /** As written, an entry lying wholly below v has a lower bound below that of v's new entry. */
  lemma AsWrittenBelow(w: int, v: int, base: int, min: nat, nbuckets: int)
    requires LogParams(base, min, nbuckets) && w >= 0 && v >= 0
    requires LogRangeAsWritten(w, base, min, nbuckets).hi < v
    ensures LogRangeAsWritten(w, base, min, nbuckets).lo < LogRangeAsWritten(v, base, min, nbuckets).lo
  {
    PowPositive(base, min);
    LogRangeContains(w, base, min, nbuckets);
    LogRangeContains(v, base, min, nbuckets);
    if w >= Pow(base, min) {
      LogRangePartition(w, v, base, min, nbuckets);
    }
  }

  /**
   * As written, log-linear bucketization of a non-negative value still puts it in a range
   * holding it, keeps lower bounds strictly increasing and adds exactly c; what it loses
   * is disjointness (see AsWrittenOverlap).
   */
  lemma LogInsertAsWrittenSorted(s: seq<Bucket>, v: int, c: int, base: int, min: nat, nbuckets: int)
    requires LogParams(base, min, nbuckets) && v >= 0
    requires SortedByLo(s) && LogCanonicalAsWritten(s, base, min, nbuckets)
    ensures var r := LogInsertAsWritten(s, v, c, base, min, nbuckets);
      SortedByLo(r) && LogCanonicalAsWritten(r, base, min, nbuckets) && Weight(r) == Weight(s) + c &&
      Contains(LogRangeAsWritten(v, base, min, nbuckets), v)
  {
    var nr := LogRangeAsWritten(v, base, min, nbuckets);
    LogRangeContains(v, base, min, nbuckets);
    forall j | 0 <= j < Slot(s, v) ensures s[j].range.lo < nr.lo {
      AsWrittenBelow(s[j].range.lo, v, base, min, nbuckets);
    }
    InsertSortedByLo(s, v, c, nr);
    InsertWeight(s, v, c, nr);
    PowPositive(base, min);
    if v >= Pow(base, min) {
      RegularStable(v, nr.lo, base, min, nbuckets);
    }
    InsertRanges(s, v, c, nr);
    var r := LogInsertAsWritten(s, v, c, base, min, nbuckets);
    forall j | 0 <= j < |r| ensures r[j].range.lo >= 0 && r[j].range == LogRangeAsWritten(r[j].range.lo, base, min, nbuckets) {
      if r[j].range != nr {
        var k :| 0 <= k < |s| && s[k].range == r[j].range;
      }
    }
  }

  /**
   * The as-written underflow entry [0, 100] overlaps the regular entry [100, 109] (base 10,
   * min 2, 100 buckets): after inserting 100 and then 50 both entries hold 100, while
   * inserting 50 first sends 100 into the underflow entry.
   */
  lemma AsWrittenOverlap()
    ensures LogParams(10, 2, 100)
    ensures var s := LogInsertAsWritten(LogInsertAsWritten([], 100, 1, 10, 2, 100), 50, 1, 10, 2, 100);
      s == [Bucket(Range(0, 100), 1), Bucket(Range(100, 109), 1)] && !Ordered(s)
    ensures LogInsertAsWritten(LogInsertAsWritten([], 50, 1, 10, 2, 100), 100, 1, 10, 2, 100)
         == [Bucket(Range(0, 100), 2)]
  {
    ShippedLogParams();
    assert Pow(10, 2) == 100 && Pow(10, 3) == 1000;
    FloorLogUnique(10, 100, 2);
    assert RegularRange(100, 10, 2, 100) == Range(100, 109);
    var s1 := LogInsertAsWritten([], 100, 1, 10, 2, 100);
    assert s1 == [Bucket(Range(100, 109), 1)];
    var s := LogInsertAsWritten(s1, 50, 1, 10, 2, 100);
    assert Slot(s1, 50) == 0;
    assert s == [Bucket(Range(0, 100), 1), Bucket(Range(100, 109), 1)];
    assert s[0].range.hi >= s[1].range.lo;
    var t1 := LogInsertAsWritten([], 50, 1, 10, 2, 100);
    assert t1 == [Bucket(Range(0, 100), 1)];
    assert Slot(t1, 100) == 0;
  }

  /** With the intended underflow entry [0, 99], both insertion orders give the same histogram. */
  lemma CorrectedNoOverlap()
    ensures LogParams(10, 2, 100)
    ensures var s := LogInsert(LogInsert([], 100, 1, 10, 2, 100), 50, 1, 10, 2, 100);
      s == [Bucket(Range(0, 99), 1), Bucket(Range(100, 109), 1)] && Ordered(s)
    ensures LogInsert(LogInsert([], 50, 1, 10, 2, 100), 100, 1, 10, 2, 100)
         == [Bucket(Range(0, 99), 1), Bucket(Range(100, 109), 1)]
  {
    ShippedLogParams();
    assert Pow(10, 2) == 100 && Pow(10, 3) == 1000;
    FloorLogUnique(10, 100, 2);
    assert RegularRange(100, 10, 2, 100) == Range(100, 109);
    var s1 := LogInsert([], 100, 1, 10, 2, 100);
    assert s1 == [Bucket(Range(100, 109), 1)];
    assert Slot(s1, 50) == 0;
    var t1 := LogInsert([], 50, 1, 10, 2, 100);
    assert t1 == [Bucket(Range(0, 99), 1)];
    assert Slot(t1, 100) == 1;
  }

  /**
   * A negative value (such as a counter delta across a counter reset) gets the underflow
   * range, in both versions, and that range does not hold it.
   */
  lemma NegativeUnderflow(v: int, base: int, min: nat, nbuckets: int)
    requires LogParams(base, min, nbuckets) && v < 0
    ensures LogRange(v, base, min, nbuckets) == Range(0, Pow(base, min) - 1)
    ensures LogRangeAsWritten(v, base, min, nbuckets) == Range(0, Pow(base, min))
    ensures !Contains(LogRange(v, base, min, nbuckets), v) && !Contains(LogRangeAsWritten(v, base, min, nbuckets), v)
  {
    PowPositive(base, min);
  }

  /**
   * Two negative values therefore leave two copies of the underflow entry, and the list
   * is no longer ordered (base 10, min 2, 100 buckets).
   */
  lemma NegativeDuplicates()
    ensures LogParams(10, 2, 100)
    ensures var s := LogInsert(LogInsert([], -5, 1, 10, 2, 100), -3, 1, 10, 2, 100);
      s == [Bucket(Range(0, 99), 1), Bucket(Range(0, 99), 1)] && !Ordered(s)
  {
    ShippedLogParams();
    assert Pow(10, 2) == 100;
    var s1 := LogInsert([], -5, 1, 10, 2, 100);
    assert s1 == [Bucket(Range(0, 99), 1)];
    assert Slot(s1, -3) == 0;
    var s := LogInsert(s1, -3, 1, 10, 2, 100);
    assert s[0].range.hi >= s[1].range.lo;
  }

  /**
   * The exponent kstat.js:869 computes in double arithmetic, Math.floor(Math.log(v) /
   * Math.log(base)).  At an exact power of the base the quotient can fall just short of
   * the integer (for base 10 it is 2.9999999999999996 at 1000), and the floor is then one
   * less.  `low` holds the powers at which that happens; powers up to base^min are left
   * exact.
   */
  function FloorLogRounded(base: int, min: nat, v: int, low: set<int>): (k: nat)
    requires base >= 2 && v >= Pow(base, min)
    ensures 1 <= Pow(base, min) <= v && k >= min
    ensures k == FloorLog(base, v) || (v in low && v == Pow(base, k + 1))
  {
    FloorLogAtLeast(base, min, v);
    var e := FloorLog(base, v);
    if v in low && e > min && v == Pow(base, e) then e - 1 else e
  }

  /** kstat.js:870-875 on the exponent as the double arithmetic computes it. */
  function LogRangeRounded(v: int, base: int, min: nat, nbuckets: int, low: set<int>): Range
    requires LogParams(base, min, nbuckets)
  {
    if v < Pow(base, min) then Range(0, Pow(base, min))
    else
      var k := FloorLogRounded(base, min, v, low);
      DecadeFacts(base, min, nbuckets, k);
      var step := Pow(base, k + 1) / nbuckets;
      var lo := Pow(base, k) + ((v - Pow(base, k)) / step) * step;
      Range(lo, lo + step - 1)
  }

  /** The log-linear update as kstat.js performs it, rounding included. */
  function LogInsertRounded(s: seq<Bucket>, v: int, c: int, base: int, min: nat, nbuckets: int, low: set<int>): seq<Bucket>
    requires LogParams(base, min, nbuckets)
  {
    Insert(s, v, c, LogRangeRounded(v, base, min, nbuckets, low))
  }

  /** Where the quotient does not round down, the rounded exponent is the exact one. */
  lemma RoundedAgrees(v: int, base: int, min: nat, nbuckets: int, low: set<int>)
    requires LogParams(base, min, nbuckets) && v !in low
    ensures LogRangeRounded(v, base, min, nbuckets, low) == LogRangeAsWritten(v, base, min, nbuckets)
  {
  }

  /**
   * With the quotient rounding down at 1000 (base 10, min 2, 100 buckets), 1000 gets the
   * entry [1000, 1009] and 1050 the entry [1000, 1099]: inserting 1000 and then 1050
   * leaves two overlapping entries, where the exact exponent puts both in [1000, 1099].
   */
  lemma MisroundedOverlap()
    ensures LogParams(10, 2, 100)
    ensures LogRangeRounded(1000, 10, 2, 100, {1000}) == Range(1000, 1009)
    ensures LogRangeRounded(1050, 10, 2, 100, {1000}) == Range(1000, 1099)
    ensures var s := LogInsertRounded(LogInsertRounded([], 1000, 1, 10, 2, 100, {1000}), 1050, 1, 10, 2, 100, {1000});
      s == [Bucket(Range(1000, 1009), 1), Bucket(Range(1000, 1099), 1)] && !Ordered(s)
    ensures LogInsert(LogInsert([], 1000, 1, 10, 2, 100), 1050, 1, 10, 2, 100) == [Bucket(Range(1000, 1099), 2)]
  {
    ShippedLogParams();
    assert Pow(10, 2) == 100 && Pow(10, 3) == 1000 && Pow(10, 4) == 10000;
    FloorLogUnique(10, 1000, 3);
    FloorLogUnique(10, 1050, 3);
    assert FloorLogRounded(10, 2, 1000, {1000}) == 2;
    assert FloorLogRounded(10, 2, 1050, {1000}) == 3;
    var r1 := LogRangeRounded(1000, 10, 2, 100, {1000});
    assert r1 == Range(1000, 1009);
    assert LogRangeRounded(1050, 10, 2, 100, {1000}) == Range(1000, 1099);
    var s1 := LogInsertRounded([], 1000, 1, 10, 2, 100, {1000});
    assert s1 == [Bucket(Range(1000, 1009), 1)];
    assert Slot(s1, 1050) == 1;
    var s := LogInsertRounded(s1, 1050, 1, 10, 2, 100, {1000});
    assert s[0].range.hi >= s[1].range.lo;
    assert RegularRange(1000, 10, 2, 100) == Range(1000, 1099);
    assert RegularRange(1050, 10, 2, 100) == Range(1000, 1099);
    var t1 := LogInsert([], 1000, 1, 10, 2, 100);
    assert t1 == [Bucket(Range(1000, 1099), 1)];
    assert Slot(t1, 1050) == 0;
  }

  /** The range of a new entry at or above base^min, computed step by step as kstat.js does. */
  method RegularBucket(value: int, base: int, min: nat, nbuckets: int) returns (lo: int, hi: int)
    requires LogParams(base, min, nbuckets) && value >= Pow(base, min)
    ensures Range(lo, hi) == RegularRange(value, base, min, nbuckets)
  {
    FloorLogAtLeast(base, min, value);
    var logbase := FloorLog(base, value);
    DecadeFacts(base, min, nbuckets, logbase);
    var step := Pow(base, logbase + 1) / nbuckets;
    var offset := value - Pow(base, logbase);
    lo := Pow(base, logbase) + (offset / step) * step;
    hi := lo + step - 1;
  }

  /**
   * caLogLinearBucketize as written (Math.pow and Math.log replaced by Pow and FloorLog):
   * below base^min the new entry is [0, base^min].
   */
  method LogLinearBucketizeAsWritten(rv: seq<Bucket>, value: int, card: int, base: int, min: nat, max: int, nbuckets: int)
    returns (r: seq<Bucket>)
    requires LogParams(base, min, nbuckets)
    ensures r == LogInsertAsWritten(rv, value, card, base, min, nbuckets)
  {
    var ii, found := Search(rv, value);
    if found {
      r := rv[ii := Bucket(rv[ii].range, rv[ii].weight + card)];
      return;
    }
    var lo, hi;
    if value < Pow(base, min) {
      lo, hi := 0, Pow(base, min);
    } else {
      lo, hi := RegularBucket(value, base, min, nbuckets);
    }
    r := rv[..ii] + [Bucket(Range(lo, hi), card)] + rv[ii..];
  }

  /** caLogLinearBucketize with the underflow entry [0, base^min - 1]. */
  method LogLinearBucketize(rv: seq<Bucket>, value: int, card: int, base: int, min: nat, max: int, nbuckets: int)
    returns (r: seq<Bucket>)
    requires LogParams(base, min, nbuckets)
    ensures r == LogInsert(rv, value, card, base, min, nbuckets)
  {
    var ii, found := Search(rv, value);
    if found {
      r := rv[ii := Bucket(rv[ii].range, rv[ii].weight + card)];
      return;
    }
    var lo, hi;
    if value < Pow(base, min) {
      lo, hi := 0, Pow(base, min) - 1;
    } else {
      lo, hi := RegularBucket(value, base, min, nbuckets);
    }
    r := rv[..ii] + [Bucket(Range(lo, hi), card)] + rv[ii..];
  }

  // ---------------------------------------------------------------------------
  // Bucketizer configurations (caMakeLinearBucketize, caMakeLogLinearBucketize)
  // ---------------------------------------------------------------------------

  /** The bucketize function a numeric field declares; max is accepted but never used. */
  datatype Bucketizer =
    | Linear(step: int)
    | LogLinear(base: int, min: nat, max: int, nbuckets: int)

  predicate ValidBucketizer(b: Bucketizer)
  {
    match b
    case Linear(step) => step > 0
    case LogLinear(base, min, _, nbuckets) => LogParams(base, min, nbuckets)
  }

  /** Add value v with weight c to distribution s as the configured bucketizer does. */
  function Bucketize(b: Bucketizer, s: seq<Bucket>, v: int, c: int): seq<Bucket>
    requires ValidBucketizer(b)
  {
    match b
    case Linear(step) => LinearInsert(s, v, c, step)
    case LogLinear(base, min, _, nbuckets) => LogInsert(s, v, c, base, min, nbuckets)
  }

  /** The lists a bucketizer can build from the empty list. */
  ghost predicate Canonical(b: Bucketizer, s: seq<Bucket>)
    requires ValidBucketizer(b)
  {
    match b
    case Linear(step) => Aligned(s, step)
    case LogLinear(base, min, _, nbuckets) => LogCanonical(s, base, min, nbuckets)
  }

  /** Values a bucketizer places correctly: any value for linear, a non-negative one for log-linear. */
  predicate InDomain(b: Bucketizer, v: int)
  {
    b.Linear? || v >= 0
  }

  lemma BucketizePreserves(b: Bucketizer, s: seq<Bucket>, v: int, c: int)
    requires ValidBucketizer(b) && InDomain(b, v) && Ordered(s) && Canonical(b, s)
    ensures var r := Bucketize(b, s, v, c);
      Ordered(r) && Canonical(b, r) && Weight(r) == Weight(s) + c
  {
    match b
    case Linear(step) => LinearInsertPreserves(s, v, c, step);
    case LogLinear(base, min, _, nbuckets) => LogInsertPreserves(s, v, c, base, min, nbuckets);
  }

  /** Every bucketizer adds exactly the weight it is given. */
  lemma BucketizeWeight(b: Bucketizer, s: seq<Bucket>, v: int, c: int)
    requires ValidBucketizer(b)
    ensures Weight(Bucketize(b, s, v, c)) == Weight(s) + c
  {
    match b
    case Linear(step) => InsertWeight(s, v, c, LinearRange(v, step));
    case LogLinear(base, min, _, nbuckets) => InsertWeight(s, v, c, LogRange(v, base, min, nbuckets));
  }

  /** Runs the configured bucketizer on one value. */
  method BucketizeValue(b: Bucketizer, rv: seq<Bucket>, value: int, card: int) returns (r: seq<Bucket>)
    requires ValidBucketizer(b)
    ensures r == Bucketize(b, rv, value, card)
  {
    match b
    case Linear(step) =>
      r := LinearBucketize(rv, value, card, step);
    case LogLinear(base, min, max, nbuckets) =>
      r := LogLinearBucketize(rv, value, card, base, min, max, nbuckets);
  }

  /** Linear buckets of width 10 fed 3, 3 and 15: [0, 9] with weight 2, then [10, 19] with weight 1. */
  lemma LinearExample()
    ensures LinearInsert(LinearInsert(LinearInsert([], 3, 1, 10), 3, 1, 10), 15, 1, 10)
         == [Bucket(Range(0, 9), 2), Bucket(Range(10, 19), 1)]
  {
    var s1 := LinearInsert([], 3, 1, 10);
    assert s1 == [Bucket(Range(0, 9), 1)];
    var s2 := LinearInsert(s1, 3, 1, 10);
    assert Slot(s1, 3) == 0;
    assert s2 == [Bucket(Range(0, 9), 2)];
    assert Slot(s2, 15) == 1;
  }
}
