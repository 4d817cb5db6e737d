/**
 * The Snowflake ID generator of src/modules/uuid/snowflake.ts.
 *
 * A generator is an immutable value: `NextId` returns the successor state
 * with the issued ID instead of mutating fields.  The wall clock is an input:
 * `now` is the first `Date.now()` reading of a call and `later` are the
 * readings the busy-wait of `tilNextMillis` would observe, in order.
 *
 * IDs are JavaScript BigInts, i.e. unbounded integers; the final
 * `& MAX_UINT64` is a Euclidean `% 2^64` (two's complement masking of a
 * negative BigInt gives the same value).  Shifting left by k is
 * multiplication by 2^k, shifting right is floor division, and masking with
 * 2^k - 1 is `% 2^k`.  The four fields occupy disjoint bit ranges whenever
 * the worker id, datacenter id and sequence are in range (which `Valid`
 * guarantees), so the bitwise `|` of the packed fields is their sum.
 */
module Snowflake {
  import opened Wrappers

  // Bit layout (snowflake.ts:30-90).
  const WorkerIdBits: nat := 5
  const DatacenterIdBits: nat := 5
  const SequenceBits: nat := 12
  /** `~(-1 << 5)` */
  const MaxWorkerId: int := 31
  const MaxDatacenterId: int := 31
  /** `~(-1 << 12)` */
  const SequenceMask: int := 4095
  /** 2^12: one past the largest sequence number. */
  const SequenceModulus: int := 4096
  /** 2^12 = `1 << workerIdShift` */
  const WorkerUnit: int := 4096
  /** 2^17 = `1 << datacenterIdShift` */
  const DatacenterUnit: int := 131072
  /** 2^22 = `1 << timestampLeftShift` */
  const TimestampUnit: int := 4194304
  /** 2^42: the timestamp offsets that fit above bit 22 of a 64-bit ID. */
  const TimestampRange: int := 0x400_0000_0000
  /** 2^64 = `MAX_UINT64 + 1` */
  const Uint64Modulus: int := 0x1_0000_0000_0000_0000

  /** 2025-01-01T00:00:00Z in milliseconds. */
  const DefaultEpoch: int := 1735660800000
  const DefaultWorkerId: int := 1
  const DefaultDatacenterId: int := 1

  /** The optional constructor argument `{ workerId?, datacenterId?, epoch? }`. */
  datatype Config = Config(workerId: Option<int>, datacenterId: Option<int>, epoch: Option<int>)

  /** The mutable fields of a `Snowflake` instance. */
  datatype Generator = Generator(
    epoch: int,
    workerId: int,
    datacenterId: int,
    sequence: int,
    lastTimestamp: int)

  datatype Error =
    | WorkerIdOutOfRange(workerId: int)
    | DatacenterIdOutOfRange(datacenterId: int)
    | ClockMovedBackwards(millis: int)
      /** The busy-wait of `tilNextMillis` is still spinning after every supplied reading. */
    | ClockStalled

  /** What `nextId` returns together with the generator's new state. */
  datatype Issued = Issued(next: Generator, id: int)

  /** The decoded fields returned by `parseId`. */
  datatype Parsed = Parsed(timestamp: int, datacenterId: int, workerId: int, sequence: int)

  /** The state invariant every constructed generator keeps. */
  predicate Valid(g: Generator) {
    && 0 <= g.workerId <= MaxWorkerId
    && 0 <= g.datacenterId <= MaxDatacenterId
    && 0 <= g.sequence <= SequenceMask
  }

  /** The constructor: range checks of snowflake.ts:99-119, worker id first. */
  function New(cfg: Config): (r: Result<Generator, Error>)
    ensures r.Ok? <==>
              && (cfg.workerId.Some? ==> 0 <= cfg.workerId.value <= MaxWorkerId)
              && (cfg.datacenterId.Some? ==> 0 <= cfg.datacenterId.value <= MaxDatacenterId)
    ensures cfg.workerId.Some? && !(0 <= cfg.workerId.value <= MaxWorkerId) ==>
              r == Err(WorkerIdOutOfRange(cfg.workerId.value))
    // With the worker id accepted, the datacenter id is checked next.
    ensures (cfg.workerId.Some? ==> 0 <= cfg.workerId.value <= MaxWorkerId) &&
            cfg.datacenterId.Some? && !(0 <= cfg.datacenterId.value <= MaxDatacenterId) ==>
              r == Err(DatacenterIdOutOfRange(cfg.datacenterId.value))
    ensures r.Ok? ==>
              && Valid(r.value)
              && r.value.workerId == (if cfg.workerId.Some? then cfg.workerId.value else 1)
              && r.value.datacenterId == (if cfg.datacenterId.Some? then cfg.datacenterId.value else 1)
              && r.value.epoch == (if cfg.epoch.Some? then cfg.epoch.value else 1735660800000)
              && r.value.sequence == 0
              && r.value.lastTimestamp == -1
  {
    var workerId :=
      if cfg.workerId.Some? then cfg.workerId.value else DefaultWorkerId;
    var datacenterId :=
      if cfg.datacenterId.Some? then cfg.datacenterId.value else DefaultDatacenterId;
    var epoch := if cfg.epoch.Some? then cfg.epoch.value else DefaultEpoch;
    if workerId > MaxWorkerId || workerId < 0 then
      Err(WorkerIdOutOfRange(workerId))
    else if datacenterId > MaxDatacenterId || datacenterId < 0 then
      Err(DatacenterIdOutOfRange(datacenterId))
    else
      Ok(Generator(epoch, workerId, datacenterId, 0, -1))
  }

  /**
   * `tilNextMillis`: the first clock reading strictly after `last`, or
   * `None` when none of the supplied readings gets there.
   */
  function TilNextMillis(last: int, readings: seq<int>): (r: Option<int>)
    ensures r.Some? ==> r.value > last && r.value in readings
    ensures r.Some? <==> exists i :: 0 <= i < |readings| && readings[i] > last
    ensures r.Some? ==> exists i :: 0 <= i < |readings| && readings[i] == r.value &&
                          forall j :: 0 <= j < i ==> readings[j] <= last
  {
    if |readings| == 0 then None
    else if readings[0] > last then Some(readings[0])
    else
      var r := TilNextMillis(last, readings[1..]);
      assert forall i :: 1 <= i < |readings| ==> readings[i] == readings[1..][i - 1];
      if r.Some? then
        var k :| 0 <= k < |readings[1..]| && readings[1..][k] == r.value &&
                 forall j :: 0 <= j < k ==> readings[1..][j] <= last;
        assert readings[k + 1] == r.value;
        r
      else
        r
  }

  /** The packed, unmasked ID: `(t << 22) | (dc << 17) | (worker << 12) | seq` for disjoint fields. */
  function Pack(offset: int, datacenterId: int, workerId: int, sequence: int): int {
    offset * TimestampUnit + datacenterId * DatacenterUnit + workerId * WorkerUnit + sequence
  }

  /** The ID a generator's current state stands for (`& MAX_UINT64` included). */
  function IdOf(g: Generator): int {
    Pack(g.lastTimestamp - g.epoch, g.datacenterId, g.workerId, g.sequence) % Uint64Modulus
  }

  /** `nextId` (snowflake.ts:139-163) with its clock readings supplied. */
  function NextId(g: Generator, now: int, later: seq<int>): (r: Result<Issued, Error>)
    requires Valid(g)
    ensures now < g.lastTimestamp <==> r == Err(ClockMovedBackwards(g.lastTimestamp - now))
    ensures r.Ok? ==>
              && Valid(r.value.next)
              && r.value.next.epoch == g.epoch
              && r.value.next.workerId == g.workerId
              && r.value.next.datacenterId == g.datacenterId
              && r.value.id == IdOf(r.value.next)
              && 0 <= r.value.id < Uint64Modulus
    // A new millisecond restarts the sequence at the reading taken.
    ensures now > g.lastTimestamp ==>
              r.Ok? && r.value.next.sequence == 0 && r.value.next.lastTimestamp == now
    // The same millisecond with room left: the sequence advances by one.
    ensures now == g.lastTimestamp && g.sequence < SequenceMask ==>
              r.Ok? && r.value.next.sequence == g.sequence + 1 && r.value.next.lastTimestamp == now
    // The sequence wraps: wait for a strictly later millisecond.
    ensures now == g.lastTimestamp && g.sequence == SequenceMask ==>
              && (r.Ok? <==> exists i :: 0 <= i < |later| && later[i] > g.lastTimestamp)
              && (r.Ok? ==> r.value.next.sequence == 0 && r.value.next.lastTimestamp > g.lastTimestamp
                            && r.value.next.lastTimestamp in later)
              && (!r.Ok? ==> r == Err(ClockStalled))
  {
    if now < g.lastTimestamp then
      Err(ClockMovedBackwards(g.lastTimestamp - now))
    else if now == g.lastTimestamp then
      // `(sequence + 1) & sequenceMask`
      var sequence := (g.sequence + 1) % SequenceModulus;
      if sequence == 0 then
        match TilNextMillis(g.lastTimestamp, later)
        case None => Err(ClockStalled)
        case Some(timestamp) => Ok(Issue(g, sequence, timestamp))
      else
        Ok(Issue(g, sequence, now))
    else
      Ok(Issue(g, 0, now))
  }

  /** Records the sequence and timestamp used and returns the ID they make. */
  function Issue(g: Generator, sequence: int, timestamp: int): Issued {
    var next := g.(sequence := sequence, lastTimestamp := timestamp);
    Issued(next, IdOf(next))
  }

  /** `parseId` (snowflake.ts:188-201): right shifts and masks of the ID. */
  function ParseId(g: Generator, id: int): (p: Parsed)
    ensures 0 <= p.datacenterId <= MaxDatacenterId
    ensures 0 <= p.workerId <= MaxWorkerId
    ensures 0 <= p.sequence <= SequenceMask
  {
    Parsed(
      id / TimestampUnit + g.epoch,
      (id / DatacenterUnit) % (MaxDatacenterId + 1),
      (id / WorkerUnit) % (MaxWorkerId + 1),
      id % SequenceModulus)
  }

  /** Every in-range field combination packs to a 64-bit value. */
  lemma PackInRange(offset: int, datacenterId: int, workerId: int, sequence: int)
    requires 0 <= offset < TimestampRange
    requires 0 <= datacenterId <= MaxDatacenterId && 0 <= workerId <= MaxWorkerId
    requires 0 <= sequence <= SequenceMask
    ensures 0 <= Pack(offset, datacenterId, workerId, sequence) < Uint64Modulus
    ensures Pack(offset, datacenterId, workerId, sequence) % Uint64Modulus
            == Pack(offset, datacenterId, workerId, sequence)
  {
  }

  /** `parseId` inverts the bit layout for every in-range field combination. */
  lemma ParseInvertsPack(g: Generator, offset: int, datacenterId: int, workerId: int, sequence: int)
    requires 0 <= offset < TimestampRange
    requires 0 <= datacenterId <= MaxDatacenterId && 0 <= workerId <= MaxWorkerId
    requires 0 <= sequence <= SequenceMask
    ensures ParseId(g, Pack(offset, datacenterId, workerId, sequence) % Uint64Modulus)
            == Parsed(offset + g.epoch, datacenterId, workerId, sequence)
  {
    PackInRange(offset, datacenterId, workerId, sequence);
    var id := Pack(offset, datacenterId, workerId, sequence);
    var low := datacenterId * DatacenterUnit + workerId * WorkerUnit + sequence;
    assert 0 <= low < TimestampUnit;
    DivModUnique(id, TimestampUnit, offset, low);
    var mid := workerId * WorkerUnit + sequence;
    assert 0 <= mid < DatacenterUnit;
    DivModUnique(id, DatacenterUnit, offset * 32 + datacenterId, mid);
    DivModUnique(offset * 32 + datacenterId, 32, offset, datacenterId);
    DivModUnique(id, WorkerUnit, offset * 1024 + datacenterId * 32 + workerId, sequence);
    DivModUnique(offset * 1024 + datacenterId * 32 + workerId, 32, offset * 32 + datacenterId, workerId);
  }

  /** Quotient and remainder are determined by any decomposition with a remainder in range. */
  lemma DivModUnique(x: int, d: int, q: int, r: int)
    requires d > 0 && 0 <= r < d && x == q * d + r
    ensures x / d == q && x % d == r
  {
    var q', r' := x / d, x % d;
    assert x == q' * d + r';
    if q' > q {
      MulMonotone(q + 1, q', d);
      assert false;
    } else if q' < q {
      MulMonotone(q' + 1, q, d);
      assert false;
    }
  }

  lemma MulMonotone(a: int, b: int, d: int)
    requires a <= b && d > 0
    ensures a * d <= b * d
  {
  }

  /** An ID issued while the timestamp offset fits 42 bits parses back to the state that issued it. */
  lemma NextIdRoundTrip(g: Generator, now: int, later: seq<int>)
    requires Valid(g)
    requires NextId(g, now, later).Ok?
    requires 0 <= NextId(g, now, later).value.next.lastTimestamp - g.epoch < TimestampRange
    ensures var n := NextId(g, now, later).value;
            ParseId(g, n.id) ==
              Parsed(n.next.lastTimestamp, g.datacenterId, g.workerId, n.next.sequence)
  {
    var n := NextId(g, now, later).value;
    ParseInvertsPack(g, n.next.lastTimestamp - g.epoch, g.datacenterId, g.workerId, n.next.sequence);
  }

  /** The ID of a state is ordered first by timestamp, then by sequence. */
  lemma IdOrder(a: Generator, b: Generator)
    requires Valid(a) && Valid(b)
    requires a.epoch == b.epoch && a.workerId == b.workerId && a.datacenterId == b.datacenterId
    requires 0 <= a.lastTimestamp - a.epoch < TimestampRange
    requires 0 <= b.lastTimestamp - b.epoch < TimestampRange
    requires a.lastTimestamp < b.lastTimestamp
             || (a.lastTimestamp == b.lastTimestamp && a.sequence < b.sequence)
    ensures IdOf(a) < IdOf(b)
  {
    PackInRange(a.lastTimestamp - a.epoch, a.datacenterId, a.workerId, a.sequence);
    PackInRange(b.lastTimestamp - b.epoch, b.datacenterId, b.workerId, b.sequence);
  }

  /** Two successive successful calls on one generator issue strictly increasing IDs. */
  lemma SuccessiveIdsIncrease(g: Generator, now1: int, later1: seq<int>, now2: int, later2: seq<int>)
    requires Valid(g)
    requires NextId(g, now1, later1).Ok?
    requires NextId(NextId(g, now1, later1).value.next, now2, later2).Ok?
    requires 0 <= NextId(g, now1, later1).value.next.lastTimestamp - g.epoch
    requires NextId(NextId(g, now1, later1).value.next, now2, later2).value.next.lastTimestamp - g.epoch
             < TimestampRange
    ensures NextId(g, now1, later1).value.id
            < NextId(NextId(g, now1, later1).value.next, now2, later2).value.id
  {
    var a := NextId(g, now1, later1).value.next;
    var b := NextId(a, now2, later2).value.next;
    assert a.lastTimestamp <= b.lastTimestamp;
    IdOrder(a, b);
  }

  /** One `nextId` call: the first reading and the busy-wait readings after it. */
  datatype Reading = Reading(now: int, later: seq<int>)

  /** The readings of one call all lie in the representable window after the epoch. */
  predicate InWindow(epoch: int, rd: Reading) {
    && epoch <= rd.now < epoch + TimestampRange
    && forall i :: 0 <= i < |rd.later| ==> epoch <= rd.later[i] < epoch + TimestampRange
  }

  /**
   * Calls `nextId` once per reading until one throws, as the uniqueness
   * tests of snowflake.test.ts do; every issued ID exceeds the one before.
   */
  method IssueMany(g: Generator, readings: seq<Reading>) returns (ids: seq<int>, states: seq<Generator>, last: Generator)
    requires Valid(g)
    requires forall k :: 0 <= k < |readings| ==> InWindow(g.epoch, readings[k])
    ensures Valid(last) && last.epoch == g.epoch
    ensures |ids| <= |readings|
    // The generator states the calls went through, from `g` to `last`.
    ensures |states| == |ids| + 1 && states[0] == g && states[|ids|] == last
    ensures forall i :: 0 <= i <= |ids| ==> Valid(states[i])
    // The i-th ID is what `nextId` returns on the i-th state with the i-th reading.
    ensures forall i :: 0 <= i < |ids| ==>
              && NextId(states[i], readings[i].now, readings[i].later).Ok?
              && NextId(states[i], readings[i].now, readings[i].later).value == Issued(states[i + 1], ids[i])
    // Issuing stops early only at a call that throws.
    ensures |ids| < |readings| ==> NextId(last, readings[|ids|].now, readings[|ids|].later).Err?
    ensures forall i, j :: 0 <= i < j < |ids| ==> ids[i] < ids[j]
    ensures forall i :: 0 <= i < |ids| ==> 0 <= ids[i] < Uint64Modulus
    ensures |ids| > 0 ==> ids[|ids| - 1] == IdOf(last)
  {
    ids := [];
    states := [g];
    last := g;
    var k := 0;
    while k < |readings|
      invariant 0 <= k <= |readings|
      invariant |ids| == k
      invariant Valid(last)
      invariant |states| == |ids| + 1 && states[0] == g && states[|ids|] == last
      invariant forall i :: 0 <= i <= |ids| ==> Valid(states[i])
      invariant forall i :: 0 <= i < |ids| ==>
                  && NextId(states[i], readings[i].now, readings[i].later).Ok?
                  && NextId(states[i], readings[i].now, readings[i].later).value == Issued(states[i + 1], ids[i])
      invariant last.epoch == g.epoch && last.workerId == g.workerId
      invariant last.datacenterId == g.datacenterId
      invariant forall i, j :: 0 <= i < j < |ids| ==> ids[i] < ids[j]
      invariant forall i :: 0 <= i < |ids| ==> 0 <= ids[i] < Uint64Modulus
      invariant |ids| > 0 ==> ids[|ids| - 1] == IdOf(last)
      invariant |ids| > 0 ==> 0 <= last.lastTimestamp - last.epoch < TimestampRange
    {
      var r := NextId(last, readings[k].now, readings[k].later);
      if r.Err? {
        return;
      }
      var next := r.value.next;
      assert InWindow(g.epoch, readings[k]);
      assert 0 <= next.lastTimestamp - next.epoch < TimestampRange;
      if |ids| > 0 {
        IdOrder(last, next);
      }
      ids := ids + [r.value.id];
      states := states + [next];
      last := next;
      k := k + 1;
    }
  }
}
