/** The metric primitives of include/anp_metrics.h: histogram buckets with
    half-open ranges, the fixed-size ring buffer of samples that is tallied
    into those buckets, and the log2-bucketed completion-time histogram. */
module Metrics {
  import opened Text

  /** 2^64: the modulus of uint64_t and size_t arithmetic. */
  const Two64: int := 0x1_0000_0000_0000_0000

  function Pow2(k: nat): (r: nat)
    ensures r >= 1
  {
    if k == 0 then 1 else 2 * Pow2(k - 1)
  }

  // ---------------------------------------------------------------------
  // bucket_s and metric_config_s

  /** One histogram bucket: the range [min, max) and its sample count. */
  datatype Bucket = Bucket(min: int, max: int, count: nat)

  /** bucket_s::contains: the lower bound is inclusive, the upper one is not. */
  predicate Contains(b: Bucket, v: int) {
    b.min <= v && v < b.max
  }

  /** Half-open ranges: a bucket never holds its own upper bound, and two
      buckets that meet at a bound never both hold a value. */
  lemma AdjacentBucketsDisjoint(lo: Bucket, hi: Bucket, v: int)
    requires lo.min <= lo.max == hi.min <= hi.max
    ensures !Contains(lo, lo.max)
    ensures !(Contains(lo, v) && Contains(hi, v))
    ensures Contains(lo, v) || Contains(hi, v) <==> lo.min <= v < hi.max
  {
  }

  /** The index find_bucket_index returns, scanning from position `from`:
      the first bucket holding v, else the last index |buckets| - 1 (which
      is -1, the int conversion of size_t 0 - 1, when there are none). */
  function FirstContaining(buckets: seq<Bucket>, v: int, from: nat): (r: int)
    requires from <= |buckets|
    ensures from <= r < |buckets| || r == |buckets| - 1
    ensures from <= r < |buckets| && Contains(buckets[r], v) ==>
              forall j :: from <= j < r ==> !Contains(buckets[j], v)
    ensures (exists j :: from <= j < |buckets| && Contains(buckets[j], v)) ==>
              from <= r < |buckets| && Contains(buckets[r], v)
    ensures (forall j :: from <= j < |buckets| ==> !Contains(buckets[j], v)) ==>
              r == |buckets| - 1
    decreases |buckets| - from
  {
    if from == |buckets| then |buckets| - 1
    else if Contains(buckets[from], v) then from
    else FirstContaining(buckets, v, from + 1)
  }

  /** The bucket a value is tallied into. */
  function BucketIndexOf(buckets: seq<Bucket>, v: int): int {
    FirstContaining(buckets, v, 0)
  }

  /** find_bucket_index's result: the first bucket containing the value if
      any does, and the last bucket otherwise (the overflow bucket). */
  lemma BucketIndexOfSpec(buckets: seq<Bucket>, v: int)
    ensures var r := BucketIndexOf(buckets, v);
      (0 <= r < |buckets| && Contains(buckets[r], v) &&
         forall j :: 0 <= j < r ==> !Contains(buckets[j], v))
      || (r == |buckets| - 1 && forall j :: 0 <= j < |buckets| ==> !Contains(buckets[j], v))
  {
  }

  /** The bucket index depends only on the ranges, not on the counts. */
  predicate SameRanges(a: seq<Bucket>, b: seq<Bucket>) {
    |a| == |b| && forall i :: 0 <= i < |a| ==> a[i].min == b[i].min && a[i].max == b[i].max
  }

  lemma {:induction false} SameRangesSameIndex(a: seq<Bucket>, b: seq<Bucket>, v: int, from: nat)
    requires SameRanges(a, b) && from <= |a|
    ensures FirstContaining(a, v, from) == FirstContaining(b, v, from)
    decreases |a| - from
  {
    if from < |a| {
      SameRangesSameIndex(a, b, v, from + 1);
    }
  }

  /** buffer_s::find_bucket_index. */
  method FindBucketIndex(buckets: seq<Bucket>, v: int) returns (index: int)
    ensures index == BucketIndexOf(buckets, v)
  {
    var i := 0;
    while i < |buckets|
      invariant 0 <= i <= |buckets|
      invariant FirstContaining(buckets, v, i) == BucketIndexOf(buckets, v)
    {
      if Contains(buckets[i], v) {
        return i;
      }
      i := i + 1;
    }
    return |buckets| - 1;
  }

  /** metric_config_s::reset_counts: every count becomes zero, every range
      stays as it was. */
  method ResetCounts(buckets: array<Bucket>)
    modifies buckets
    ensures forall i :: 0 <= i < buckets.Length ==> buckets[i] == old(buckets[i]).(count := 0)
  {
    var i := 0;
    while i < buckets.Length
      invariant 0 <= i <= buckets.Length
      invariant forall j :: 0 <= j < i ==> buckets[j] == old(buckets[j]).(count := 0)
      invariant forall j :: i <= j < buckets.Length ==> buckets[j] == old(buckets[j])
    {
      buckets[i] := buckets[i].(count := 0);
      i := i + 1;
    }
  }

  /** The sum of all bucket counts. */
  function TotalCount(buckets: seq<Bucket>): nat {
    if buckets == [] then 0 else TotalCount(buckets[..|buckets| - 1]) + buckets[|buckets| - 1].count
  }

  /** One more sample in bucket k. */
  function Bump(buckets: seq<Bucket>, k: nat): (r: seq<Bucket>)
    requires k < |buckets|
    ensures |r| == |buckets|
  {
    buckets[k := buckets[k].(count := buckets[k].count + 1)]
  }

  lemma {:induction false} BumpTotal(buckets: seq<Bucket>, k: nat)
    requires k < |buckets|
    ensures TotalCount(Bump(buckets, k)) == TotalCount(buckets) + 1
    decreases |buckets|
  {
    var r := Bump(buckets, k);
    var n := |buckets|;
    if k == n - 1 {
      assert r[..n - 1] == buckets[..n - 1];
    } else {
      assert r[..n - 1] == Bump(buckets[..n - 1], k);
      BumpTotal(buckets[..n - 1], k);
    }
  }

  /** The buckets after tallying `values` in order, each into the bucket
      find_bucket_index picks for it. */
  function Tally(buckets: seq<Bucket>, values: seq<int>): (r: seq<Bucket>)
    requires values != [] ==> buckets != []
    ensures SameRanges(buckets, r)
  {
    if values == [] then buckets
    else
      var k := BucketIndexOf(buckets, values[|values| - 1]);
      BucketIndexOfSpec(buckets, values[|values| - 1]);
      Bump(Tally(buckets, values[..|values| - 1]), k)
  }

  /** Tallying raises the total count by exactly the number of values. */
  lemma {:induction false} TallyTotal(buckets: seq<Bucket>, values: seq<int>)
    requires values != [] ==> buckets != []
    ensures TotalCount(Tally(buckets, values)) == TotalCount(buckets) + |values|
    decreases |values|
  {
    if values != [] {
      var v := values[|values| - 1];
      BucketIndexOfSpec(buckets, v);
      TallyTotal(buckets, values[..|values| - 1]);
      BumpTotal(Tally(buckets, values[..|values| - 1]), BucketIndexOf(buckets, v));
    }
  }

  /** How many of the values belong in bucket k. */
  function CountInto(buckets: seq<Bucket>, values: seq<int>, k: int): nat {
    if values == [] then 0
    else
      var last := if BucketIndexOf(buckets, values[|values| - 1]) == k then 1 else 0;
      CountInto(buckets, values[..|values| - 1], k) + last
  }

  /** Each bucket gains exactly the number of values that belong in it. */
  lemma {:induction false} TallyCount(buckets: seq<Bucket>, values: seq<int>, k: nat)
    requires values != [] ==> buckets != []
    requires k < |buckets|
    ensures Tally(buckets, values)[k].count == buckets[k].count + CountInto(buckets, values, k)
    decreases |values|
  {
    if values != [] {
      BucketIndexOfSpec(buckets, values[|values| - 1]);
      TallyCount(buckets, values[..|values| - 1], k);
    }
  }

  // ---------------------------------------------------------------------
  // buffer_s

  /** buffer_s: a fixed-size ring of samples. `pushes` is the history of
      every value pushed, which the buffer's fields summarise. */
  class RingBuffer {
    const size: nat
    const buffer: array<int>
    var count: nat
    var writeIndex: nat
    var rolloverCount: nat
    ghost var pushes: seq<int>

    ghost predicate Valid()
      reads this, buffer
    {
      buffer.Length == size
      && count <= size
      && (size > 0 ==> writeIndex < size && writeIndex == |pushes| % size)
      && (size == 0 ==> writeIndex == 0 && pushes == [])
      && count == Min(|pushes|, size)
      && count + rolloverCount == |pushes|
      && (forall j :: 0 <= j < |pushes| && |pushes| - size <= j ==> buffer[j % size] == pushes[j])
    }

    constructor (n: nat)
      ensures Valid() && fresh(buffer)
      ensures size == n && pushes == [] && count == 0 && writeIndex == 0 && rolloverCount == 0
    {
      size := n;
      buffer := new int[n];
      count := 0;
      writeIndex := 0;
      rolloverCount := 0;
      pushes := [];
    }

    /** push: store the value at the write index and advance that index
        modulo the size; the count grows until the buffer is full, after
        which every push is a rollover that overwrites the oldest sample. */
    method Push(value: int)
      requires Valid() && size > 0
      modifies this, buffer
      ensures Valid()
      ensures pushes == old(pushes) + [value]
      ensures buffer[old(writeIndex)] == value
      ensures forall i :: 0 <= i < size && i != old(writeIndex) ==> buffer[i] == old(buffer[i])
      ensures writeIndex == (old(writeIndex) + 1) % size
      ensures old(count) == size ==> count == size && rolloverCount == old(rolloverCount) + 1
      ensures old(count) < size ==> count == old(count) + 1 && rolloverCount == old(rolloverCount)
    {
      ghost var n := |pushes|;
      buffer[writeIndex] := value;
      writeIndex := (writeIndex + 1) % size;
      if count == size {
        rolloverCount := rolloverCount + 1;
      } else {
        count := count + 1;
      }
      pushes := pushes + [value];
      ModSucc(n, size);
      forall j | 0 <= j < |pushes| && |pushes| - size <= j
        ensures buffer[j % size] == pushes[j]
      {
        if j < n {
          ModDistinct(n, j, size);
        }
      }
    }

    /** get_values: the first `count` slots. */
    function Values(): (r: seq<int>)
      reads this, buffer
      requires Valid()
      ensures |r| == count
      ensures forall i :: 0 <= i < |r| ==> r[i] == buffer[i]
    {
      buffer[..count]
    }

    /** Before the first rollover get_values returns every pushed value in
        push order; afterwards it holds exactly the last `size` pushes,
        oldest first from the write index round to the slot before it. */
    lemma ValuesAreRecentPushes()
      requires Valid()
      ensures |pushes| <= size ==> Values() == pushes
      ensures |pushes| > size ==>
                Values()[writeIndex..] + Values()[..writeIndex] == pushes[|pushes| - size..]
    {
      var r := Values();
      var n := |pushes|;
      if n <= size {
        forall i | 0 <= i < n
          ensures r[i] == pushes[i]
        {
          ModSmall(i, size);
        }
      } else {
        var w := writeIndex;
        var rot := r[w..] + r[..w];
        var tail := pushes[n - size..];
        assert |rot| == size == |tail|;
        forall i | 0 <= i < size
          ensures rot[i] == tail[i]
        {
          var j := n - size + i;
          assert buffer[j % size] == pushes[j];
          ModOfShift(n, size, i);
          RotationIndex(r, w, size, i);
        }
      }
    }

    /** process_ring_buffer: every stored sample (the first `count` slots)
        is added to the bucket find_bucket_index chooses for it. */
    method ProcessRingBuffer(buckets: array<Bucket>)
      requires Valid()
      requires count == 0 || buckets.Length > 0
      modifies buckets
      ensures buckets[..] == Tally(old(buckets[..]), Values())
      ensures TotalCount(buckets[..]) == TotalCount(old(buckets[..])) + count
    {
      ghost var start := buckets[..];
      var i := 0;
      while i < count
        invariant 0 <= i <= count
        invariant buckets[..] == Tally(start, buffer[..i])
      {
        var entry := buffer[i];
        var index := FindBucketIndex(buckets[..], entry);
        SameRangesSameIndex(buckets[..], start, entry, 0);
        BucketIndexOfSpec(start, entry);
        assert buffer[..i + 1][..i] == buffer[..i];
        buckets[index] := buckets[index].(count := buckets[index].count + 1);
        i := i + 1;
      }
      assert buffer[..i] == Values();
      TallyTotal(start, Values());
    }
  }

  /** Reading the slots from index w round to w - 1 visits slot (w + i) % size at step i. */
  lemma RotationIndex(r: seq<int>, w: nat, size: nat, i: nat)
    requires |r| == size && w < size && i < size
    ensures (r[w..] + r[..w])[i] == r[(w + i) % size]
  {
    if w + i < size {
      ModSmall(w + i, size);
    } else {
      DivModUnique(w + i, size, 1, w + i - size);
    }
  }

  lemma ModSucc(n: nat, size: nat)
    requires size > 0
    ensures (n % size + 1) % size == (n + 1) % size
  {
    var q, r := n / size, n % size;
    assert n == q * size + r;
    if r + 1 < size {
      DivModUnique(n + 1, size, q, r + 1);
      DivModUnique(r + 1, size, 0, r + 1);
    } else {
      DivModUnique(n + 1, size, q + 1, 0);
      DivModUnique(r + 1, size, 1, 0);
    }
  }

  lemma ModSmall(i: nat, size: nat)
    requires i < size
    ensures i % size == i
  {
    DivModUnique(i, size, 0, i);
  }

  lemma ModDistinct(a: nat, b: nat, size: nat)
    requires b < a < b + size
    ensures a % size != b % size
  {
    var qa, qb := a / size, b / size;
    assert a == qa * size + a % size;
    assert b == qb * size + b % size;
    if a % size == b % size {
      assert a - b == (qa - qb) * size;
      if qa - qb <= 0 {
        MulMono(qa - qb, 0, size);
      } else {
        MulMono(1, qa - qb, size);
      }
    }
  }

  /** Slot n - size + i holds push (n % size + i) mod size. */
  lemma ModOfShift(n: nat, size: nat, i: nat)
    requires 0 < size < n && i < size
    ensures (n - size + i) % size == (n % size + i) % size
  {
    var q, r := n / size, n % size;
    assert n == q * size + r;
    if r + i < size {
      assert n - size + i == (q - 1) * size + (r + i);
      DivModUnique(n - size + i, size, q - 1, r + i);
      DivModUnique(r + i, size, 0, r + i);
    } else {
      assert n - size + i == q * size + (r + i - size);
      DivModUnique(n - size + i, size, q, r + i - size);
      DivModUnique(r + i, size, 1, r + i - size);
    }
  }

  // ---------------------------------------------------------------------
  // time_histogram_s

  /** C int, the type of max_buckets. */
  predicate IsInt32(x: int) {
    -0x8000_0000 <= x < 0x8000_0000
  }

  /** The usual arithmetic conversion of a (non-overflowed) int to uint64. */
  function ToU64(x: int): (u: nat)
    requires -Two64 <= x < Two64
    ensures u < Two64
  {
    if x >= 0 then x else x + Two64
  }

  /** The key log_time increments: the time shifted right by the bucket
      width's log2, capped at max_buckets - 1. The comparison converts the
      int max_buckets to uint64, and so does the fallback value, so a
      max_buckets below 1 wraps round 2^64. */
  function LogKey(time: nat, bucketSzLog2: nat, maxBuckets: int): nat
    requires time < Two64 && IsInt32(maxBuckets - 1)
  {
    var p := Pow2(bucketSzLog2);
    DivBounds(time, p);
    var index := time / p;
    if index < ToU64(maxBuckets) then index else ToU64(maxBuckets - 1)
  }

  /** For a positive max_buckets the key is min(time >> log2, max_buckets - 1),
      so it is always below max_buckets. */
  lemma LogKeyCapped(time: nat, bucketSzLog2: nat, maxBuckets: int)
    requires time < Two64 && IsInt32(maxBuckets) && maxBuckets >= 1
    ensures LogKey(time, bucketSzLog2, maxBuckets) == Min(time / Pow2(bucketSzLog2), maxBuckets - 1)
    ensures LogKey(time, bucketSzLog2, maxBuckets) < maxBuckets
  {
  }

  /** A max_buckets of 0 never passes the comparison, and the fallback
      -1 converts to the largest uint64: every time lands in that key. */
  lemma LogKeyZeroBuckets(time: nat, bucketSzLog2: nat)
    requires time < Two64
    ensures LogKey(time, bucketSzLog2, 0) == Two64 - 1
  {
  }

  /** Times within the same 2^log2-wide interval share a key. */
  lemma LogKeyInterval(time: nat, bucketSzLog2: nat, maxBuckets: int, b: nat)
    requires time < Two64 && IsInt32(maxBuckets) && 0 <= b < maxBuckets - 1
    ensures LogKey(time, bucketSzLog2, maxBuckets) == b <==>
              b * Pow2(bucketSzLog2) <= time < (b + 1) * Pow2(bucketSzLog2)
  {
    var p := Pow2(bucketSzLog2);
    var q := time / p;
    assert time == q * p + time % p;
    if q < b {
      assert (q + 1) * p == q * p + p;
      MulMono(q + 1, b, p);
    } else if q > b {
      MulMono(b + 1, q, p);
    } else {
      assert (b + 1) * p == b * p + p;
    }
  }

  /** time_histogram_s: completion-time counts keyed by bucket number. */
  class TimeHistogram {
    var bucketSzLog2: nat
    var maxBuckets: int
    var buckets: map<nat, nat>

    constructor (maxBuckets: int, bucketSzLog2: nat)
      ensures this.maxBuckets == maxBuckets && this.bucketSzLog2 == bucketSzLog2
      ensures buckets == map[]
    {
      this.maxBuckets := maxBuckets;
      this.bucketSzLog2 := bucketSzLog2;
      buckets := map[];
    }

    /** Every key names one of the max_buckets buckets. */
    predicate KeysInRange()
      reads this
    {
      forall k :: k in buckets ==> k < maxBuckets
    }

    /** log_time: the one key LogKey picks gains a count (a missing key
        starts from zero) and no other key changes. */
    method LogTime(time: nat)
      requires time < Two64 && bucketSzLog2 < 64
      requires IsInt32(maxBuckets) && IsInt32(maxBuckets - 1)
      modifies this
      ensures bucketSzLog2 == old(bucketSzLog2) && maxBuckets == old(maxBuckets)
      ensures var k := LogKey(time, bucketSzLog2, maxBuckets);
        buckets == old(buckets)[k := (if k in old(buckets) then old(buckets)[k] else 0) + 1]
      ensures maxBuckets >= 1 && old(KeysInRange()) ==> KeysInRange()
    {
      var k := LogKey(time, bucketSzLog2, maxBuckets);
      var c := if k in buckets then buckets[k] else 0;
      buckets := buckets[k := c + 1];
      if maxBuckets >= 1 {
        LogKeyCapped(time, bucketSzLog2, maxBuckets);
      }
    }
  }
}
