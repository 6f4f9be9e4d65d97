/** The elite map of the MAP-Elites optimiser: a grid with one cell per
    combination of behaviour-descriptor buckets, each cell holding the best
    solution seen whose behaviours fall into it. Behaviours are bucketed per
    descriptor, the bucket indexes are packed into one cell index in mixed
    radix, and a cell index unpacks back into one bucket per descriptor. */
module MapElites {
  import opened Wrappers
  import opened JavaInt

  // ---------------------------------------------------------------------
  // Behaviour values and descriptors.

  /** A behaviour value: a Java `Number` (held as its mathematical value) or
      any other object (compared by identity of `id`, as `equals` would). */
  datatype Value = Number(x: real) | Other(id: string)

  /** One behaviour descriptor: its name and its bucket values. The
      descriptor map is the sequence of its entries in descending key order,
      the order of the `descendingKeySet()` loops of `findIndex` and
      `findBehavioursByIndex`. */
  datatype Descriptor = Descriptor(name: string, values: seq<Value>)

  /** Keys of the descriptor map are distinct. */
  predicate DistinctNames(ds: seq<Descriptor>)
  {
    forall i, j :: 0 <= i < j < |ds| ==> ds[i].name != ds[j].name
  }

  /** `Number.intValue()`: the integer part, truncated toward zero. */
  function IntValue(x: real): (n: int)
    ensures 0.0 <= x ==> 0 <= n && n as real <= x < n as real + 1.0
    ensures x < 0.0 ==> n <= 0 && n as real - 1.0 < x <= n as real
  {
    if x >= 0.0 then x.Floor else -((-x).Floor)
  }

  /** `behaviours.get(name)`: a missing key reads as `null`. */
  function Lookup(behaviours: map<string, Value>, name: string): Option<Value>
  {
    if name in behaviours then Some(behaviours[name]) else None
  }

  /** A numeric value can only be compared with numeric bucket values: any
      other entry it reached would be a failed cast in the source. */
  predicate Comparable(values: seq<Value>, v: Option<Value>)
  {
    v.Some? && v.value.Number? ==> forall i :: 0 <= i < |values| ==> values[i].Number?
  }

  /** Whether bucket value `entry` takes value `v`: a number falls into the
      first bucket whose integer part is at least its own, anything else
      into the first bucket equal to it, and `null` into none. */
  predicate Matches(v: Option<Value>, entry: Value)
    requires v.Some? && v.value.Number? ==> entry.Number?
  {
    match v
    case None => false
    case Some(Number(x)) => IntValue(x) <= IntValue(entry.x)
    case Some(Other(_)) => entry == v.value
  }

  /** The first bucket from `from` on that takes `v`, else the last bucket. */
  function FirstMatch(values: seq<Value>, v: Option<Value>, from: nat): (i: int)
    requires from <= |values| && Comparable(values, v)
    ensures i == |values| - 1 || (from <= i < |values| && Matches(v, values[i]))
    ensures from < |values| ==> from <= i < |values|
    ensures forall j :: from <= j < |values| && j < i ==> !Matches(v, values[j])
    ensures (forall j :: from <= j < |values| ==> !Matches(v, values[j])) ==> i == |values| - 1
    decreases |values| - from
  {
    if from == |values| then |values| - 1
    else if Matches(v, values[from]) then from
    else FirstMatch(values, v, from + 1)
  }

  /** `findIndex(behaviour, value)`: the bucket of `v` among `values`. It is
      the first bucket that takes `v` or, when none does, the last bucket,
      so it is a valid bucket whenever there is one; with no bucket values
      at all it is -1. */
  function Bucket(values: seq<Value>, v: Option<Value>): (i: int)
    requires Comparable(values, v)
    ensures |values| == 0 ==> i == -1
    ensures |values| > 0 ==> 0 <= i < |values|
    ensures forall j :: 0 <= j < i ==> !Matches(v, values[j])
    ensures 0 <= i ==> (Matches(v, values[i]) ||
              (i == |values| - 1 && forall j :: 0 <= j < |values| ==> !Matches(v, values[j])))
  {
    FirstMatch(values, v, 0)
  }

  /** A numeric value falls into the first bucket whose integer part is at
      least its own, and into the last bucket when it exceeds them all. */
  lemma NumericBucket(values: seq<Value>, x: real)
    requires |values| > 0 && Comparable(values, Some(Number(x)))
    ensures var i := Bucket(values, Some(Number(x)));
            (forall j :: 0 <= j < i ==> IntValue(values[j].x) < IntValue(x)) &&
            (IntValue(x) <= IntValue(values[i].x) ||
             (i == |values| - 1 && forall j :: 0 <= j < |values| ==> IntValue(values[j].x) < IntValue(x)))
  {
  }

  /** `findIndex(behaviour, value)` as the loop it is. */
  method FindBucket(allValues: seq<Value>, value: Option<Value>) returns (i: int)
    requires Comparable(allValues, value)
    ensures i == Bucket(allValues, value)
  {
    var k := 0;
    while k < |allValues|
      invariant 0 <= k <= |allValues|
      invariant FirstMatch(allValues, value, k) == Bucket(allValues, value)
    {
      if value.Some? && value.value.Number? {
        var val1 := IntValue(value.value.x);
        var val2 := IntValue(allValues[k].x);
        if val1 <= val2 {
          return k;
        }
      } else if value.Some? && allValues[k] == value.value {
        return k;
      }
      k := k + 1;
    }
    return |allValues| - 1;
  }

  // ---------------------------------------------------------------------
  // Mixed-radix cell indexes.

  function Prod(ls: seq<int>): int
  {
    if |ls| == 0 then 1 else ls[0] * Prod(ls[1..])
  }

  lemma {:induction false} ProdPositive(ls: seq<int>)
    requires forall k :: 0 <= k < |ls| ==> ls[k] > 0
    ensures Prod(ls) > 0
  {
    if |ls| > 0 {
      ProdPositive(ls[1..]);
    }
  }

  lemma {:induction false} ProdSnoc(ls: seq<int>, l: int)
    ensures Prod(ls + [l]) == Prod(ls) * l
  {
    if |ls| > 0 {
      assert (ls + [l])[1..] == ls[1..] + [l];
      ProdSnoc(ls[1..], l);
      assert Prod(ls + [l]) == ls[0] * (Prod(ls[1..]) * l);
    } else {
      assert ls + [l] == [l];
    }
  }

  /** The cell of bucket indexes `ix`: `ix[0] + ls[0] * (ix[1] + ls[1] * ...)`. */
  function Encode(ix: seq<int>, ls: seq<int>): int
    requires |ix| == |ls|
  {
    if |ix| == 0 then 0 else ix[0] + ls[0] * Encode(ix[1..], ls[1..])
  }

  /** The first `n` terms of the sum the source accumulates:
      the sum over i < n of `ix[i]` times the product of `ls[..i]`. */
  function EncodeSum(ix: seq<int>, ls: seq<int>, n: nat): int
    requires n <= |ix| == |ls|
  {
    if n == 0 then 0 else EncodeSum(ix, ls, n - 1) + ix[n - 1] * Prod(ls[..n - 1])
  }

  lemma MulAssoc(a: int, b: int, c: int)
    ensures a * b * c == a * (b * c)
  {
  }

  lemma {:induction false} EncodeSnoc(ix: seq<int>, ls: seq<int>, i: int, l: int)
    requires |ix| == |ls|
    ensures Encode(ix + [i], ls + [l]) == Encode(ix, ls) + i * Prod(ls)
  {
    if |ix| == 0 {
      assert ix + [i] == [i] && ls + [l] == [l];
    } else {
      assert (ix + [i])[1..] == ix[1..] + [i];
      assert (ls + [l])[1..] == ls[1..] + [l];
      EncodeSnoc(ix[1..], ls[1..], i, l);
      var e := Encode(ix[1..], ls[1..]);
      assert Encode(ix + [i], ls + [l]) == ix[0] + ls[0] * (e + i * Prod(ls[1..]));
      assert ls[0] * (e + i * Prod(ls[1..])) == ls[0] * e + i * (ls[0] * Prod(ls[1..]));
    }
  }

  /** The running sum of the source is the mixed-radix encoding of the
      first `n` bucket indexes. */
  lemma {:induction false} EncodeSumIsEncode(ix: seq<int>, ls: seq<int>, n: nat)
    requires n <= |ix| == |ls|
    ensures EncodeSum(ix, ls, n) == Encode(ix[..n], ls[..n])
  {
    if n > 0 {
      EncodeSumIsEncode(ix, ls, n - 1);
      assert ix[..n] == ix[..n - 1] + [ix[n - 1]];
      assert ls[..n] == ls[..n - 1] + [ls[n - 1]];
      EncodeSnoc(ix[..n - 1], ls[..n - 1], ix[n - 1], ls[n - 1]);
    }
  }

  /** Entries past `n` whose bucket index is 0 add nothing to the sum. */
  lemma {:induction false} EncodeSumZeroTail(ix: seq<int>, ls: seq<int>, n: nat, m: nat)
    requires n <= m <= |ix| == |ls|
    requires forall k :: n <= k < |ix| ==> ix[k] == 0
    ensures EncodeSum(ix, ls, m) == EncodeSum(ix, ls, n)
    decreases m
  {
    if m > n {
      EncodeSumZeroTail(ix, ls, n, m - 1);
    }
  }

  /** Trailing bucket indexes of 0 do not change the cell. */
  lemma EncodeZeroTail(ix: seq<int>, ls: seq<int>, n: nat)
    requires n <= |ix| == |ls|
    requires forall k :: n <= k < |ix| ==> ix[k] == 0
    ensures Encode(ix, ls) == Encode(ix[..n], ls[..n])
  {
    EncodeSumIsEncode(ix, ls, |ix|);
    assert ix[..|ix|] == ix && ls[..|ls|] == ls;
    EncodeSumZeroTail(ix, ls, n, |ix|);
    EncodeSumIsEncode(ix, ls, n);
  }

  /** Bucket indexes within their bucket counts give a cell of the grid. */
  lemma {:induction false} EncodeInRange(ix: seq<int>, ls: seq<int>)
    requires |ix| == |ls|
    requires forall k :: 0 <= k < |ix| ==> 0 <= ix[k] < ls[k]
    ensures 0 <= Encode(ix, ls) < Prod(ls)
  {
    if |ix| > 0 {
      EncodeInRange(ix[1..], ls[1..]);
      ScaledBelow(ls[0], Encode(ix[1..], ls[1..]), Prod(ls[1..]));
    }
  }

  /** `a * e` for `0 <= e < p` leaves room for one more `a` below `a * p`. */
  lemma ScaledBelow(a: int, e: int, p: int)
    requires a > 0 && 0 <= e < p
    ensures 0 <= a * e && a * e + a <= a * p
  {
    MulAtLeast(p - e, a);
    assert a * p - a * e == (p - e) * a;
  }

  /** `findBehavioursByIndex`'s arithmetic: repeated `% ls[i]`, `/ ls[i]`. */
  function Decode(idx: int, ls: seq<int>): (ix: seq<int>)
    requires forall k :: 0 <= k < |ls| ==> ls[k] != 0
    ensures |ix| == |ls|
    decreases |ls|
  {
    if |ls| == 0 then [] else [Rem(idx, ls[0])] + Decode(Div(idx, ls[0]), ls[1..])
  }

  /** Decoding a non-negative cell gives a bucket index within range for
      every descriptor. */
  lemma {:induction false} DecodeInRange(idx: int, ls: seq<int>)
    requires idx >= 0 && forall k :: 0 <= k < |ls| ==> ls[k] > 0
    ensures forall k :: 0 <= k < |ls| ==> 0 <= Decode(idx, ls)[k] < ls[k]
  decreases |ls|
  {
    if |ls| > 0 {
      NonNegativeDivRem(idx, ls[0]);
      DecodeInRange(Div(idx, ls[0]), ls[1..]);
      var ix := Decode(idx, ls);
      forall k | 0 <= k < |ls| ensures 0 <= ix[k] < ls[k] {
        if k > 0 {
          assert ix[k] == Decode(Div(idx, ls[0]), ls[1..])[k - 1];
        }
      }
    }
  }

  /** Whatever the sign of the cell, every decoded bucket index is below
      its bucket count. */
  lemma {:induction false} DecodeBelow(idx: int, ls: seq<int>)
    requires forall k :: 0 <= k < |ls| ==> ls[k] > 0
    ensures forall k :: 0 <= k < |ls| ==> Decode(idx, ls)[k] < ls[k]
    decreases |ls|
  {
    if |ls| > 0 {
      DecodeBelow(Div(idx, ls[0]), ls[1..]);
      var ix := Decode(idx, ls);
      forall k | 0 <= k < |ls| ensures ix[k] < ls[k] {
        if k > 0 {
          assert ix[k] == Decode(Div(idx, ls[0]), ls[1..])[k - 1];
        }
      }
    }
  }

  /** A negative cell can still decode to valid bucket indexes: with
      bucket counts 3 and 2, cell -6 is buckets 0 and 0. */
  lemma NegativeCellExample()
    ensures Decode(-6, [3, 2]) == [0, 0]
  {
    assert Rem(-6, 3) == 0 && Div(-6, 3) == -2;
    assert Rem(-2, 2) == 0;
  }

  /** Round trip one way: decoding an encoded cell recovers the bucket
      indexes. */
  lemma {:induction false} DecodeEncode(ix: seq<int>, ls: seq<int>)
    requires |ix| == |ls|
    requires forall k :: 0 <= k < |ls| ==> 0 <= ix[k] < ls[k]
    ensures Decode(Encode(ix, ls), ls) == ix
  {
    if |ix| > 0 {
      var e := Encode(ix[1..], ls[1..]);
      EncodeInRange(ix[1..], ls[1..]);
      var n := Encode(ix, ls);
      assert ls[0] * e >= 0;
      assert n == e * ls[0] + ix[0];
      NonNegativeDivRem(n, ls[0]);
      DivModOf(n, ls[0], e, ix[0]);
      DecodeEncode(ix[1..], ls[1..]);
      assert Decode(n, ls) == [ix[0]] + ix[1..];
    }
  }

  /** A cell below `l * p` has its quotient by `l` below `p`, and is that
      quotient times `l` plus the remainder. */
  lemma QuotientInRange(idx: int, l: int, p: int)
    requires l > 0 && 0 <= idx < l * p
    ensures 0 <= idx / l < p && idx == l * (idx / l) + idx % l
  {
    var q := idx / l;
    assert q * l <= idx;
    assert (p - q) * l > 0;
  }

  /** Round trip the other way: every cell of the grid is the encoding of
      its decoded bucket indexes. */
  lemma {:induction false} EncodeDecode(idx: int, ls: seq<int>)
    requires forall k :: 0 <= k < |ls| ==> ls[k] > 0
    requires 0 <= idx < Prod(ls)
    ensures Encode(Decode(idx, ls), ls) == idx
  decreases |ls|
  {
    if |ls| > 0 {
      var l, p := ls[0], Prod(ls[1..]);
      NonNegativeDivRem(idx, l);
      var q, r := Div(idx, l), Rem(idx, l);
      QuotientInRange(idx, l, p);
      EncodeDecode(q, ls[1..]);
      assert Decode(idx, ls) == [r] + Decode(q, ls[1..]);
      assert Encode(Decode(idx, ls), ls) == r + l * q;
    }
  }

  // ---------------------------------------------------------------------
  // From behaviours to cells and back.

  function Lengths(ds: seq<Descriptor>): (ls: seq<int>)
    ensures |ls| == |ds|
    ensures forall k :: 0 <= k < |ds| ==> ls[k] == |ds[k].values|
  {
    if |ds| == 0 then [] else [|ds[0].values|] + Lengths(ds[1..])
  }

  /** Every behaviour that is a number is bucketed among numbers only. */
  predicate AllComparable(ds: seq<Descriptor>, behaviours: map<string, Value>)
  {
    forall k :: 0 <= k < |ds| ==> Comparable(ds[k].values, Lookup(behaviours, ds[k].name))
  }

  /** The bucket of each descriptor, in descriptor order. */
  function BucketIndexes(ds: seq<Descriptor>, behaviours: map<string, Value>): (ix: seq<int>)
    requires AllComparable(ds, behaviours)
    ensures |ix| == |ds|
  {
    if |ds| == 0 then []
    else
      assert AllComparable(ds[1..], behaviours) by {
        forall k | 0 <= k < |ds| - 1
          ensures Comparable(ds[1..][k].values, Lookup(behaviours, ds[1..][k].name))
        {
          assert ds[1..][k] == ds[k + 1];
        }
      }
      [Bucket(ds[0].values, Lookup(behaviours, ds[0].name))] + BucketIndexes(ds[1..], behaviours)
  }

  /** Entry `k` of `BucketIndexes` is descriptor k's bucket of its own
      behaviour. */
  lemma {:induction false} BucketIndexesAt(ds: seq<Descriptor>, behaviours: map<string, Value>, k: int)
    requires AllComparable(ds, behaviours) && 0 <= k < |ds|
    ensures Comparable(ds[k].values, Lookup(behaviours, ds[k].name))
    ensures BucketIndexes(ds, behaviours)[k] == Bucket(ds[k].values, Lookup(behaviours, ds[k].name))
    decreases k
  {
    if k > 0 {
      assert AllComparable(ds[1..], behaviours) by {
        forall j | 0 <= j < |ds| - 1
          ensures Comparable(ds[1..][j].values, Lookup(behaviours, ds[1..][j].name))
        {
          assert ds[1..][j] == ds[j + 1];
        }
      }
      BucketIndexesAt(ds[1..], behaviours, k - 1);
      assert ds[1..][k - 1] == ds[k];
    }
  }

  /** `findIndex(behaviours)`: the cell the behaviours fall into. */
  function CellIndex(ds: seq<Descriptor>, behaviours: map<string, Value>): int
    requires AllComparable(ds, behaviours)
  {
    Encode(BucketIndexes(ds, behaviours), Lengths(ds))
  }

  /** With at least one bucket value per descriptor, any behaviours at all
      (missing ones included) fall into a cell of the grid. */
  lemma CellIndexInRange(ds: seq<Descriptor>, behaviours: map<string, Value>)
    requires AllComparable(ds, behaviours)
    requires forall k :: 0 <= k < |ds| ==> |ds[k].values| > 0
    ensures 0 <= CellIndex(ds, behaviours) < Prod(Lengths(ds))
  {
    var ix := BucketIndexes(ds, behaviours);
    forall k | 0 <= k < |ix| ensures 0 <= ix[k] < Lengths(ds)[k] {
      BucketIndexesAt(ds, behaviours, k);
    }
    EncodeInRange(ix, Lengths(ds));
  }

  /** The behaviours `findBehavioursByIndex` puts into its result map, one
      descriptor after the other: descriptor k's bucket value `ix[k]`. */
  function BehavioursAt(ds: seq<Descriptor>, ix: seq<int>): map<string, Value>
    requires |ix| == |ds|
    requires forall k :: 0 <= k < |ds| ==> 0 <= ix[k] < |ds[k].values|
  {
    if |ds| == 0 then map[]
    else
      var n := |ds| - 1;
      BehavioursAt(ds[..n], ix[..n])[ds[n].name := ds[n].values[ix[n]]]
  }

  /** Each descriptor's name maps to the bucket value the index selects. */
  lemma {:induction false} BehavioursAtLookup(ds: seq<Descriptor>, ix: seq<int>, k: int)
    requires |ix| == |ds| && DistinctNames(ds)
    requires forall j :: 0 <= j < |ds| ==> 0 <= ix[j] < |ds[j].values|
    requires 0 <= k < |ds|
    ensures ds[k].name in BehavioursAt(ds, ix)
    ensures BehavioursAt(ds, ix)[ds[k].name] == ds[k].values[ix[k]]
  {
    var n := |ds| - 1;
    if k < n {
      BehavioursAtLookup(ds[..n], ix[..n], k);
      assert ds[k].name != ds[n].name;
    }
  }

  /** The result map holds exactly the descriptors' names and no other key. */
  lemma {:induction false} BehavioursAtKeys(ds: seq<Descriptor>, ix: seq<int>)
    requires |ix| == |ds|
    requires forall j :: 0 <= j < |ds| ==> 0 <= ix[j] < |ds[j].values|
    ensures BehavioursAt(ds, ix).Keys == set k | 0 <= k < |ds| :: ds[k].name
  {
    if |ds| > 0 {
      var n := |ds| - 1;
      BehavioursAtKeys(ds[..n], ix[..n]);
      var front := set k | 0 <= k < n :: ds[..n][k].name;
      assert front == set k | 0 <= k < n :: ds[k].name by {
        forall k | 0 <= k < n ensures ds[..n][k] == ds[k] { }
      }
      assert (set k | 0 <= k < |ds| :: ds[k].name) == front + {ds[n].name};
    }
  }

  /** Bucket values that each take themselves: strictly increasing numbers
      with distinct integer parts, or pairwise distinct other values. */
  predicate SelfBucketing(values: seq<Value>)
  {
    ((forall i :: 0 <= i < |values| ==> values[i].Number?) &&
     (forall i, j :: 0 <= i < j < |values| ==> IntValue(values[i].x) < IntValue(values[j].x)))
    ||
    ((forall i :: 0 <= i < |values| ==> values[i].Other?) &&
     (forall i, j :: 0 <= i < j < |values| ==> values[i] != values[j]))
  }

  lemma BucketOfOwnValue(values: seq<Value>, i: int)
    requires SelfBucketing(values) && 0 <= i < |values|
    ensures Comparable(values, Some(values[i]))
    ensures Bucket(values, Some(values[i])) == i
  {
    var v := Some(values[i]);
    forall j | 0 <= j < i ensures !Matches(v, values[j]) {
      assert values[j] != values[i];
    }
    assert Matches(v, values[i]);
  }

  /** Full round trip: the behaviours `findBehavioursByIndex` gives for a
      cell fall back into that cell under `findIndex`, provided every
      descriptor's bucket values each take themselves. */
  lemma CellOfBehavioursAt(ds: seq<Descriptor>, idx: int)
    requires DistinctNames(ds)
    requires forall k :: 0 <= k < |ds| ==> |ds[k].values| > 0 && SelfBucketing(ds[k].values)
    requires 0 <= idx < Prod(Lengths(ds))
    ensures var ix := Decode(idx, Lengths(ds));
            (forall k :: 0 <= k < |ds| ==> 0 <= ix[k] < |ds[k].values|) &&
            AllComparable(ds, BehavioursAt(ds, ix)) &&
            CellIndex(ds, BehavioursAt(ds, ix)) == idx
  {
    var ls := Lengths(ds);
    var ix := Decode(idx, ls);
    DecodeInRange(idx, ls);
    var b := BehavioursAt(ds, ix);
    forall k | 0 <= k < |ds|
      ensures Comparable(ds[k].values, Lookup(b, ds[k].name))
    {
      BehavioursAtLookup(ds, ix, k);
      BucketOfOwnValue(ds[k].values, ix[k]);
    }
    forall k | 0 <= k < |ds| ensures BucketIndexes(ds, b)[k] == ix[k] {
      BehavioursAtLookup(ds, ix, k);
      BucketOfOwnValue(ds[k].values, ix[k]);
      BucketIndexesAt(ds, b, k);
    }
    assert BucketIndexes(ds, b) == ix;
    EncodeDecode(idx, ls);
  }

  // ---------------------------------------------------------------------
  // Best elite.

  const TwoTo64: real := 18446744073709551616.0
  const TwoTo256: real := TwoTo64 * TwoTo64 * TwoTo64 * TwoTo64
  const TwoTo1024: real := TwoTo256 * TwoTo256 * TwoTo256 * TwoTo256
  /** 2^1074 = 2^1024 * 2^50. */
  const TwoTo1074: real := TwoTo1024 * 1125899906842624.0

  /** Java's `Double.MIN_VALUE`, the smallest positive double, 2^-1074. */
  const MinDouble: real := 1.0 / TwoTo1074

  /** The index the `getBestOfSampled` scan of the first `n` values ends
      with: the first index holding the strictly greatest value above
      `-Double.MIN_VALUE`, or -1 when no value is above it. */
  function BestIndex(vs: seq<real>, n: nat): (b: int)
    requires n <= |vs|
    ensures -1 <= b < n
    ensures b == -1 <==> forall j :: 0 <= j < n ==> vs[j] <= -MinDouble
    ensures b >= 0 ==> vs[b] > -MinDouble
    ensures b >= 0 ==> forall j :: 0 <= j < n ==> vs[j] <= vs[b]
    ensures b >= 0 ==> forall j :: 0 <= j < b ==> vs[j] < vs[b]
  {
    if n == 0 then -1
    else
      var b := BestIndex(vs, n - 1);
      var best := if b == -1 then -MinDouble else vs[b];
      if vs[n - 1] > best then n - 1 else b
  }

  /** What `getBestOfSampled` returns: the solution at the best index (a
      Java `null` when that cell is empty), or the index error it raises
      when no value is above the starting bound. */
  datatype Sampled = IndexOutOfBounds | Solution(solution: Option<seq<real>>)

  /** A solution converted element-wise from `int` to `double`. */
  function ToReals(ints: seq<int>): (r: seq<real>)
    ensures |r| == |ints|
    ensures forall i :: 0 <= i < |ints| ==> r[i] == ints[i] as real
  {
    if |ints| == 0 then [] else [ints[0] as real] + ToReals(ints[1..])
  }

  // ---------------------------------------------------------------------
  // The elite map object.

  class EliteMap {
    const descriptors: seq<Descriptor>
    var solutionMap: array<Option<seq<real>>>
    var valueMap: array<real>

    /** One cell per combination of buckets; a cell no point has reached
        holds no solution and keeps the array default of 0.0. */
    ghost predicate Valid()
      reads this, solutionMap, valueMap
    {
      DistinctNames(descriptors) &&
      solutionMap.Length == valueMap.Length == Prod(Lengths(descriptors)) &&
      forall i :: 0 <= i < solutionMap.Length && solutionMap[i].None? ==> valueMap[i] == 0.0
    }

    /** The map size is the product of the descriptors' bucket counts,
        taken in the map's value order (ascending keys). */
    constructor (behaviourDescriptors: seq<Descriptor>)
      requires DistinctNames(behaviourDescriptors)
      ensures Valid() && fresh(solutionMap) && fresh(valueMap)
      ensures descriptors == behaviourDescriptors
      ensures solutionMap.Length == Prod(Lengths(descriptors))
      ensures forall i :: 0 <= i < solutionMap.Length ==> solutionMap[i].None? && valueMap[i] == 0.0
    {
      var ls := Lengths(behaviourDescriptors);
      var mapSize := 1;
      var k := |behaviourDescriptors|;
      while k > 0
        invariant 0 <= k <= |behaviourDescriptors|
        invariant mapSize == Prod(ls[k..])
      {
        k := k - 1;
        assert ls[k..][1..] == ls[k + 1..];
        mapSize := mapSize * |behaviourDescriptors[k].values|;
      }
      assert ls[0..] == ls;
      assert mapSize >= 0 by { LengthsProdNonNegative(ls); }
      descriptors := behaviourDescriptors;
      solutionMap := new Option<seq<real>>[mapSize](_ => None);
      valueMap := new real[mapSize](_ => 0.0);
    }

    /** The first loop of `findIndex(behaviours)`: the bucket index and the
        bucket count of each descriptor, in descending key order, in arrays
        of `size` entries whose remaining entries stay 0. The source fills
        both arrays in one pass; here each is filled by its own pass. */
    method BucketArrays(behaviours: map<string, Value>, size: nat)
      returns (indexes: array<int>, lengths: array<int>)
      requires size >= |descriptors|
      requires AllComparable(descriptors, behaviours)
      ensures fresh(indexes) && fresh(lengths)
      ensures indexes.Length == lengths.Length == size
      ensures indexes[..|descriptors|] == BucketIndexes(descriptors, behaviours)
      ensures lengths[..|descriptors|] == Lengths(descriptors)
      ensures forall k :: |descriptors| <= k < size ==> indexes[k] == 0 && lengths[k] == 0
    {
      indexes := IndexesArray(behaviours, size);
      lengths := PaddedLengths(size);
    }

    /** The bucket index of each descriptor, then zeros up to `size`. */
    method IndexesArray(behaviours: map<string, Value>, size: nat) returns (indexes: array<int>)
      requires size >= |descriptors|
      requires AllComparable(descriptors, behaviours)
      ensures fresh(indexes) && indexes.Length == size
      ensures indexes[..|descriptors|] == BucketIndexes(descriptors, behaviours)
      ensures forall k :: |descriptors| <= k < size ==> indexes[k] == 0
    {
      indexes := new int[size](_ => 0);
      ghost var bix := BucketIndexes(descriptors, behaviours);
      var count := 0;
      while count < |descriptors|
        invariant 0 <= count <= |descriptors|
        invariant indexes[..count] == bix[..count]
        invariant forall k :: count <= k < size ==> indexes[k] == 0
        modifies indexes
      {
        var b := DescriptorBucket(behaviours, count);
        indexes[count] := b;
        assert indexes[..count + 1] == indexes[..count] + [b];
        assert bix[..count + 1] == bix[..count] + [b];
        count := count + 1;
      }
      assert bix[..|descriptors|] == bix;
    }

    /** The bucket count of each descriptor, then zeros up to `size`. */
    method PaddedLengths(size: nat) returns (lengths: array<int>)
      requires size >= |descriptors|
      ensures fresh(lengths) && lengths.Length == size
      ensures lengths[..|descriptors|] == Lengths(descriptors)
      ensures forall k :: |descriptors| <= k < size ==> lengths[k] == 0
    {
      lengths := new int[size](_ => 0);
      var count := 0;
      while count < |descriptors|
        invariant 0 <= count <= |descriptors|
        invariant forall k :: 0 <= k < count ==> lengths[k] == |descriptors[k].values|
        invariant forall k :: count <= k < size ==> lengths[k] == 0
        modifies lengths
      {
        lengths[count] := |descriptors[count].values|;
        count := count + 1;
      }
    }

    /** One step of that loop: `findIndex(s, behaviours.get(s))` for the
        descriptor at position `k`. */
    method DescriptorBucket(behaviours: map<string, Value>, k: nat) returns (b: int)
      requires k < |descriptors|
      requires AllComparable(descriptors, behaviours)
      ensures b == BucketIndexes(descriptors, behaviours)[k]
    {
      var d := descriptors[k];
      BucketIndexesAt(descriptors, behaviours, k);
      b := FindBucket(d.values, Lookup(behaviours, d.name));
    }

    /** `findIndex(behaviours)`: the cell the behaviours fall into. The
        arrays are as long as the behaviour map; entries past the last
        descriptor are 0 and add nothing. */
    method FindIndex(behaviours: map<string, Value>) returns (idx: int)
      requires |behaviours| >= |descriptors| && |behaviours| > 0
      requires AllComparable(descriptors, behaviours)
      ensures idx == CellIndex(descriptors, behaviours)
    {
      var indexes, lengths := BucketArrays(behaviours, |behaviours|);
      idx := PackIndex(indexes, lengths);
      EncodeZeroTail(indexes[..], lengths[..], |descriptors|);
    }

    /** The bucket counts of the descriptors, in descending key order. */
    method LengthsArray() returns (lengths: array<int>)
      ensures fresh(lengths)
      ensures lengths[..] == Lengths(descriptors)
    {
      lengths := new int[|descriptors|](_ => 0);
      var count := 0;
      while count < |descriptors|
        invariant 0 <= count <= |descriptors|
        invariant forall k :: 0 <= k < count ==> lengths[k] == |descriptors[k].values|
        modifies lengths
      {
        lengths[count] := |descriptors[count].values|;
        count := count + 1;
      }
    }

    /** `findBehavioursByIndex(idx)`: unpack the cell into one bucket index
        per descriptor and map each descriptor to its bucket value. Java's
        remainder is never as large as the bucket count, but it is negative
        for some negative cells, and a negative bucket index is an index
        error in the source; the precondition excludes exactly those cells.
        Every non-negative cell meets it (`DecodeInRange`). */
    method FindBehavioursByIndex(idx: int) returns (m: map<string, Value>)
      requires forall k :: 0 <= k < |descriptors| ==> |descriptors[k].values| > 0
      requires forall k :: 0 <= k < |descriptors| ==> 0 <= Decode(idx, Lengths(descriptors))[k]
      ensures var ix := Decode(idx, Lengths(descriptors));
              (forall k :: 0 <= k < |descriptors| ==> 0 <= ix[k] < |descriptors[k].values|) &&
              m == BehavioursAt(descriptors, ix)
    {
      var lengths := LengthsArray();
      var indexes := DecodeArray(idx, lengths);
      DecodeBelow(idx, lengths[..]);
      m := BehavioursMap(indexes);
    }

    /** The last loop of `findBehavioursByIndex`: each descriptor, in
        descending key order, to the bucket value its index selects. */
    method BehavioursMap(indexes: array<int>) returns (m: map<string, Value>)
      requires indexes.Length == |descriptors|
      requires forall k :: 0 <= k < |descriptors| ==> 0 <= indexes[k] < |descriptors[k].values|
      ensures m == BehavioursAt(descriptors, indexes[..])
    {
      ghost var decoded := indexes[..];
      m := map[];
      var count := 0;
      while count < |descriptors|
        invariant 0 <= count <= |descriptors|
        invariant m == BehavioursAt(descriptors[..count], decoded[..count])
        modifies {}
      {
        assert descriptors[..count + 1][..count] == descriptors[..count];
        assert decoded[..count + 1][..count] == decoded[..count];
        m := m[descriptors[count].name := descriptors[count].values[indexes[count]]];
        count := count + 1;
      }
      assert descriptors[..count] == descriptors;
      assert decoded[..count] == decoded;
    }

    /** `addPoint(point, performance, behaviours)`: the cell the behaviours
        fall into takes the point, as doubles, when it is empty or the new
        performance is strictly greater; no other cell changes. */
    method AddPoint(ints: seq<int>, performance: real, behaviours: map<string, Value>)
      requires Valid()
      requires |behaviours| >= |descriptors| && |behaviours| > 0
      requires AllComparable(descriptors, behaviours)
      requires 0 <= CellIndex(descriptors, behaviours) < solutionMap.Length
      modifies solutionMap, valueMap
      ensures Valid()
      ensures var idx := CellIndex(descriptors, behaviours);
              var replace := old(solutionMap[idx]).None? || old(valueMap[idx]) < performance;
              solutionMap[..] == (if replace then old(solutionMap[..])[idx := Some(ToReals(ints))]
                                  else old(solutionMap[..])) &&
              valueMap[..] == (if replace then old(valueMap[..])[idx := performance]
                               else old(valueMap[..]))
      ensures var idx := CellIndex(descriptors, behaviours);
              old(solutionMap[idx]).Some? ==>
                valueMap[idx] == if old(valueMap[idx]) < performance then performance
                                 else old(valueMap[idx])
      ensures forall i :: 0 <= i < valueMap.Length && old(solutionMap[i]).Some? ==>
                solutionMap[i].Some? && old(valueMap[i]) <= valueMap[i]
    {
      var idx := FindIndex(behaviours);
      if solutionMap[idx].None? || valueMap[idx] < performance {
        solutionMap[idx] := Some(ToReals(ints));
        valueMap[idx] := performance;
      }
    }

    /** `getBestOfSampled`: scan for the first strictly greatest value and
        return the solution stored at its index. */
    method GetBestOfSampled() returns (r: Sampled)
      requires solutionMap.Length == valueMap.Length
      ensures var b := BestIndex(valueMap[..], valueMap.Length);
              r == if b == -1 then IndexOutOfBounds else Solution(solutionMap[b])
      /** In a valid map whose elites all score below zero, an empty cell
          (value `0.0`) wins and the "best" solution is `null`. */
      ensures Valid() && (exists e :: 0 <= e < solutionMap.Length && solutionMap[e].None?) &&
              (forall i :: 0 <= i < solutionMap.Length && solutionMap[i].Some? ==> valueMap[i] < 0.0)
              ==> r == Solution(None)
    {
      var bestIdx := BestCell();
      if Valid() && (exists e :: 0 <= e < solutionMap.Length && solutionMap[e].None?) &&
         (forall i :: 0 <= i < solutionMap.Length && solutionMap[i].Some? ==> valueMap[i] < 0.0)
      {
        var e :| 0 <= e < solutionMap.Length && solutionMap[e].None?;
        BestIsEmptyCellWhenElitesNegative(solutionMap[..], valueMap[..], e);
      }
      if bestIdx == -1 {
        return IndexOutOfBounds;
      }
      return Solution(solutionMap[bestIdx]);
    }

    /** The scan of `getBestOfSampled`: the index of the first strictly
        greatest value above `-Double.MIN_VALUE`, or -1. */
    method BestCell() returns (bestIdx: int)
      ensures bestIdx == BestIndex(valueMap[..], valueMap.Length)
    {
      bestIdx := -1;
      var bestValue := -MinDouble;
      var i := 0;
      while i < valueMap.Length
        invariant 0 <= i <= valueMap.Length
        invariant bestIdx == BestIndex(valueMap[..], i)
        invariant bestValue == if bestIdx == -1 then -MinDouble else valueMap[bestIdx]
      {
        if valueMap[i] > bestValue {
          bestValue := valueMap[i];
          bestIdx := i;
        }
        i := i + 1;
      }
    }
  }

  /** The second loop of `findIndex(behaviours)`: `indexes[0]` plus, for
      every later i, `indexes[i]` times each of `lengths[0..i-1]`. It is
      the mixed-radix encoding of the bucket indexes. */
  method PackIndex(indexes: array<int>, lengths: array<int>) returns (idx: int)
    requires indexes.Length == lengths.Length > 0
    ensures idx == Encode(indexes[..], lengths[..])
  {
    ghost var ix := indexes[..];
    ghost var ls := lengths[..];
    idx := indexes[0];
    var i := 1;
    while i < indexes.Length
      invariant 1 <= i <= indexes.Length
      invariant idx == EncodeSum(ix, ls, i)
    {
      var mult := indexes[i];
      assert ls[..0] == [];
      var j := 0;
      while j < i
        invariant 0 <= j <= i
        invariant mult == ix[i] * Prod(ls[..j])
      {
        assert ls[..j + 1] == ls[..j] + [ls[j]];
        ProdSnoc(ls[..j], ls[j]);
        MulAssoc(ix[i], Prod(ls[..j]), ls[j]);
        mult := mult * lengths[j];
        j := j + 1;
      }
      idx := idx + mult;
      i := i + 1;
    }
    EncodeSumIsEncode(ix, ls, |ix|);
    assert ix[..|ix|] == ix && ls[..|ls|] == ls;
  }

  /** The `findBehavioursByIndex` loop that unpacks a cell: each bucket
      index is the remainder by that descriptor's bucket count, and the
      quotient carries on to the next descriptor. */
  method DecodeArray(idx: int, lengths: array<int>) returns (indexes: array<int>)
    requires forall k :: 0 <= k < lengths.Length ==> lengths[k] != 0
    ensures fresh(indexes)
    ensures indexes[..] == Decode(idx, lengths[..])
  {
    ghost var ls := lengths[..];
    ghost var decoded := Decode(idx, ls);
    indexes := new int[lengths.Length](_ => 0);
    var rest := idx;
    var i := 0;
    while i < lengths.Length
      invariant 0 <= i <= lengths.Length
      invariant lengths[..] == ls
      invariant indexes[..i] + Decode(rest, ls[i..]) == decoded
      modifies indexes
    {
      ghost var prefix := indexes[..i];
      DecodeStep(prefix, rest, ls, decoded);
      var digit := Rem(rest, lengths[i]);
      indexes[i] := digit;
      assert indexes[..i + 1] == prefix + [digit];
      rest := Div(rest, lengths[i]);
      i := i + 1;
    }
    assert indexes[..] == indexes[..lengths.Length];
  }

  /** One step of the decoding loop: the digit at `|prefix|` joins the
      prefix and the quotient carries the rest. */
  lemma DecodeStep(prefix: seq<int>, rest: int, ls: seq<int>, decoded: seq<int>)
    requires |prefix| < |ls| && forall k :: 0 <= k < |ls| ==> ls[k] != 0
    requires prefix + Decode(rest, ls[|prefix|..]) == decoded
    ensures var i := |prefix|;
            (prefix + [Rem(rest, ls[i])]) + Decode(Div(rest, ls[i]), ls[i + 1..]) == decoded
  {
    var i := |prefix|;
    assert ls[i..][1..] == ls[i + 1..];
  }

  lemma {:induction false} LengthsProdNonNegative(ls: seq<int>)
    requires forall k :: 0 <= k < |ls| ==> ls[k] >= 0
    ensures Prod(ls) >= 0
  {
    if |ls| > 0 {
      LengthsProdNonNegative(ls[1..]);
    }
  }

  /** An empty cell keeps 0.0, so while every stored elite has a negative
      performance the scan settles on the first empty cell and
      `getBestOfSampled` returns `null` rather than an elite. */
  lemma BestIsEmptyCellWhenElitesNegative(sols: seq<Option<seq<real>>>, vs: seq<real>, e: int)
    requires |sols| == |vs| && 0 <= e < |vs| && sols[e].None?
    requires forall i :: 0 <= i < |vs| && sols[i].None? ==> vs[i] == 0.0
    requires forall i :: 0 <= i < |vs| && sols[i].Some? ==> vs[i] < 0.0
    ensures var b := BestIndex(vs, |vs|);
            b >= 0 && sols[b].None? && forall i :: 0 <= i < b ==> sols[i].Some?
  {
    var b := BestIndex(vs, |vs|);
    assert vs[e] == 0.0 > -MinDouble;
    assert vs[b] >= vs[e];
    assert sols[b].None?;
    forall i | 0 <= i < b ensures sols[i].Some? {
      assert vs[i] < vs[b];
    }
  }
}
