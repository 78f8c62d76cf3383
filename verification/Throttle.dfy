/** The slice-based I/O limiter: what one check does, how slices stretch, and
    how limits change while the guest runs.  double is modelled as real and a
    cast to uint64_t as floor. */
module Throttle {
  import opened Common

  const NANOSECONDS_PER_SECOND: int := 1000000000
  const BLOCK_IO_SLICE_TIME: int := 100000000
  const SECTOR: int := 512

  /** bps[] or iops[] of BlockIOLimit; 0 means unlimited. */
  datatype Caps = Caps(total: int, read: int, write: int) {
    function Dir(isWrite: bool): int { if isWrite then write else read }

    /** The cap a request in this direction is held to, 0 if none. */
    function For(isWrite: bool): int { if total != 0 then total else Dir(isWrite) }
  }

  datatype Limits = Limits(bps: Caps, iops: Caps)

  /** slice_submitted.bytes[] or .ios[] */
  datatype Counts = Counts(read: nat, write: nat) {
    function Dir(isWrite: bool): nat { if isWrite then write else read }

    function Add(isWrite: bool, n: nat): Counts {
      if isWrite then this.(write := write + n) else this.(read := read + n)
    }

    /** What counts against a request in this direction. */
    function Base(caps: Caps, isWrite: bool): nat {
      if caps.total != 0 then read + write else Dir(isWrite)
    }
  }

  datatype Slice = Slice(start: int, end: int, bytes: Counts, ios: Counts) {
    function Length(): int { end - start }
  }

  function Seconds(ns: int): real { ns as real / NANOSECONDS_PER_SECOND as real }

  /** The test both checks start with. */
  predicate Within(demand: nat, cap: int, slice: Slice) {
    demand as real <= cap as real * Seconds(slice.Length())
  }

  /** Seconds it takes to serve demand at rate cap. */
  function ServiceTime(demand: nat, cap: int): real
    requires cap != 0
  {
    demand as real / cap as real
  }

  /** A time in seconds, cast to whole nanoseconds. */
  function Nanoseconds(t: real): int { (t * NANOSECONDS_PER_SECOND as real).Floor }

  function DivRoundUp(n: int, d: int): int
    requires d > 0
  {
    (n + d - 1) / d
  }

  datatype Verdict = Verdict(refused: bool, wait: int, end: int)

  /** bdrv_exceed_bps_limits */
  function ExceedBps(limits: Limits, slice: Slice, nb: nat, isWrite: bool, elapsed: real): Verdict {
    var cap := limits.bps.For(isWrite);
    if cap == 0 then Verdict(false, 0, slice.end)
    else
      var demand := slice.bytes.Base(limits.bps, isWrite) + nb * SECTOR;
      if Within(demand, cap, slice) then Verdict(false, 0, slice.end)
      else
        var wait := Nanoseconds(ServiceTime(demand, cap) - elapsed);
        Verdict(true, wait, slice.end + DivRoundUp(wait, BLOCK_IO_SLICE_TIME) * BLOCK_IO_SLICE_TIME)
  }

  /** bdrv_exceed_iops_limits */
  function ExceedIops(limits: Limits, slice: Slice, isWrite: bool, elapsed: real): Verdict {
    var cap := limits.iops.For(isWrite);
    if cap == 0 then Verdict(false, 0, slice.end)
    else
      var demand := slice.ios.Base(limits.iops, isWrite) + 1;
      if Within(demand, cap, slice) then Verdict(false, 0, slice.end)
      else
        var full := ServiceTime(demand, cap);
        var waitTime := if full > elapsed then full - elapsed else 0.0;
        Verdict(true, Nanoseconds(waitTime), slice.end + BLOCK_IO_SLICE_TIME)
  }

  /** The slice a check at time now works on. */
  function Current(slice: Slice, now: int): Slice {
    if now > slice.end then Slice(now, now + BLOCK_IO_SLICE_TIME, Counts(0, 0), Counts(0, 0)) else slice
  }

  /** The running slice, or a fresh one of a tenth of a second if it is over. */
  function Renewed(slice: Slice, now: int): (s: Slice)
    ensures now <= slice.end ==> s == slice
    ensures now > slice.end ==> s.start == now && s.end == now + 100000000
    ensures now > slice.end ==> s.bytes.read == s.bytes.write == s.ios.read == s.ios.write == 0
  {
    Current(slice, now)
  }

  datatype Outcome = Outcome(refused: bool, wait: int, slice: Slice)

  /** bdrv_exceed_io_limits; the clock reads now on entry and later on a refusal. */
  function Check(limits: Limits, slice: Slice, nb: nat, isWrite: bool, now: int, later: int): Outcome {
    var s := Current(slice, now);
    var elapsed := Seconds(now - s.start);
    var b := ExceedBps(limits, s, nb, isWrite, elapsed);
    var i := ExceedIops(limits, s.(end := b.end), isWrite, elapsed);
    if b.refused || i.refused then
      var maxWait := Max(b.wait, i.wait);
      Outcome(true, maxWait, s.(end := Max(i.end, later + maxWait)))
    else
      Outcome(false, 0, s.(bytes := s.bytes.Add(isWrite, nb * SECTOR), ios := s.ios.Add(isWrite, 1)))
  }

  // ---- real arithmetic, once

  lemma SecondsInverse(ns: int)
    ensures Seconds(ns) * NANOSECONDS_PER_SECOND as real == ns as real
  {
  }

  /** The test in whole numbers. */
  lemma WithinExact(demand: nat, cap: int, slice: Slice)
    requires cap > 0
    ensures Within(demand, cap, slice) <==> demand * NANOSECONDS_PER_SECOND <= cap * slice.Length()
  {
    var t := Seconds(slice.Length());
    SecondsInverse(slice.Length());
    var ns := NANOSECONDS_PER_SECOND as real;
    assert (cap as real * t) * ns == cap as real * (t * ns);
    assert (cap * slice.Length()) as real == cap as real * slice.Length() as real;
    assert (demand * NANOSECONDS_PER_SECOND) as real == demand as real * ns;
  }

  /** Nanoseconds of slice that demand needs at rate cap. */
  function Needed(demand: nat, cap: int): real
    requires cap > 0
  {
    (demand * NANOSECONDS_PER_SECOND) as real / cap as real
  }

  lemma DivisionBound(x: real, c: real, y: real)
    requires c > 0.0
    ensures x <= c * y <==> x / c <= y
  {
    assert x == c * (x / c);
    assert c * y - x == c * (y - x / c);
    assert y - x / c >= 0.0 ==> c * (y - x / c) >= 0.0;
    assert y - x / c < 0.0 ==> c * (y - x / c) < 0.0;
  }

  lemma WithinNeeded(demand: nat, cap: int, slice: Slice)
    requires cap > 0
    ensures Within(demand, cap, slice) <==> Needed(demand, cap) <= slice.Length() as real
  {
    WithinExact(demand, cap, slice);
    DivisionBound((demand * NANOSECONDS_PER_SECOND) as real, cap as real, slice.Length() as real);
    assert (cap * slice.Length()) as real == cap as real * slice.Length() as real;
  }

  /** The wait, in nanoseconds: what is needed beyond what has elapsed. */
  lemma WaitNanoseconds(demand: nat, cap: int, ns: int)
    requires cap > 0
    ensures (demand as real / cap as real - Seconds(ns)) * NANOSECONDS_PER_SECOND as real
            == Needed(demand, cap) - ns as real
  {
    SecondsInverse(ns);
    var n := NANOSECONDS_PER_SECOND as real;
    var c := cap as real;
    assert (demand * NANOSECONDS_PER_SECOND) as real == demand as real * n;
    QuotientScaled(demand as real, c, n);
  }

  lemma QuotientScaled(x: real, c: real, n: real)
    requires c > 0.0
    ensures x / c * n == (x * n) / c
  {
    var q := x / c;
    assert q * c == x;
    assert (q * n) * c == x * n;
  }

  // ---- do_check_io_limits and qmp_block_set_io_throttle

  /** do_check_io_limits */
  predicate Accepted(l: Limits) {
    var bpsFlag := l.bps.total != 0 && (l.bps.read != 0 || l.bps.write != 0);
    var iopsFlag := l.iops.total != 0 && (l.iops.read != 0 || l.iops.write != 0);
    if bpsFlag || iopsFlag then false
    else if l.bps.total < 0 || l.bps.write < 0 || l.bps.read < 0 ||
            l.iops.total < 0 || l.iops.write < 0 || l.iops.read < 0 then false
    else true
  }

  /** bdrv_io_limits_enabled */
  predicate AnyLimit(l: Limits) {
    l.bps.read != 0 || l.bps.write != 0 || l.bps.total != 0 ||
    l.iops.read != 0 || l.iops.write != 0 || l.iops.total != 0
  }

  // ---- one check

  /** The wait of a refused bps check is never negative: it exceeds what is
      left of the slice. */
  lemma BpsWaitNonNegative(limits: Limits, slice: Slice, nb: nat, isWrite: bool, now: int)
    requires Accepted(limits) && now <= slice.end
    ensures var v := ExceedBps(limits, slice, nb, isWrite, Seconds(now - slice.start));
      v.refused ==> v.wait >= slice.end - now && v.wait >= 0 && v.end >= slice.end + v.wait
  {
    var v := ExceedBps(limits, slice, nb, isWrite, Seconds(now - slice.start));
    if v.refused {
      var cap := limits.bps.For(isWrite);
      var demand := slice.bytes.Base(limits.bps, isWrite) + nb * SECTOR;
      WithinNeeded(demand, cap, slice);
      WaitNanoseconds(demand, cap, now - slice.start);
      assert v.wait == (Needed(demand, cap) - (now - slice.start) as real).Floor;
      RoundedUp(v.wait);
    }
  }

  lemma RoundedUp(wait: int)
    requires wait >= 0
    ensures DivRoundUp(wait, BLOCK_IO_SLICE_TIME) * BLOCK_IO_SLICE_TIME >= wait
    ensures wait % BLOCK_IO_SLICE_TIME == 0 ==> DivRoundUp(wait, BLOCK_IO_SLICE_TIME) * BLOCK_IO_SLICE_TIME == wait
    ensures wait % BLOCK_IO_SLICE_TIME != 0 ==> DivRoundUp(wait, BLOCK_IO_SLICE_TIME) * BLOCK_IO_SLICE_TIME >= wait + 1
  {
  }

  lemma FloorNeeded(demand: nat, cap: int)
    requires cap > 0
    ensures var n := demand * NANOSECONDS_PER_SECOND;
      Needed(demand, cap).Floor == n / cap &&
      (Needed(demand, cap) == (n / cap) as real <==> n % cap == 0)
  {
    var n := demand * NANOSECONDS_PER_SECOND;
    var q, r := n / cap, n % cap;
    assert n == cap * q + r;
    var c := cap as real;
    var f := Needed(demand, cap) - q as real;
    assert f * c == r as real by {
      assert Needed(demand, cap) * c == n as real;
      assert n as real == c * q as real + r as real;
    }
    UnitInterval(f, c, r as real);
    assert q as real <= Needed(demand, cap) < (q + 1) as real;
  }

  lemma UnitInterval(f: real, c: real, r: real)
    requires c > 0.0 && f * c == r && 0.0 <= r < c
    ensures 0.0 <= f < 1.0 && (f == 0.0 <==> r == 0.0)
  {
    assert f < 0.0 ==> f * c < 0.0;
    assert f >= 1.0 ==> f * c >= c;
  }

  /** Demand and cap of the two checks of one request. */
  function BpsDemand(limits: Limits, slice: Slice, nb: nat, isWrite: bool): nat {
    slice.bytes.Base(limits.bps, isWrite) + nb * SECTOR
  }

  function IopsDemand(limits: Limits, slice: Slice, isWrite: bool): nat {
    slice.ios.Base(limits.iops, isWrite) + 1
  }

  function BpsVerdict(limits: Limits, slice: Slice, nb: nat, isWrite: bool, now: int): Verdict {
    var s := Current(slice, now);
    ExceedBps(limits, s, nb, isWrite, Seconds(now - s.start))
  }

  function IopsVerdict(limits: Limits, slice: Slice, nb: nat, isWrite: bool, now: int): Verdict {
    var s := Current(slice, now);
    ExceedIops(limits, s.(end := BpsVerdict(limits, slice, nb, isWrite, now).end), isWrite, Seconds(now - s.start))
  }

  lemma BpsWaitExact(limits: Limits, slice: Slice, nb: nat, isWrite: bool, now: int)
    requires Accepted(limits) && BpsVerdict(limits, slice, nb, isWrite, now).refused
    ensures var s := Current(slice, now);
      var v := BpsVerdict(limits, slice, nb, isWrite, now);
      var cap := limits.bps.For(isWrite);
      var n := BpsDemand(limits, s, nb, isWrite) * NANOSECONDS_PER_SECOND;
      cap > 0 && v.wait == n / cap - (now - s.start) && v.wait >= 0 &&
      v.end == s.end + DivRoundUp(v.wait, BLOCK_IO_SLICE_TIME) * BLOCK_IO_SLICE_TIME
  {
    var s := Current(slice, now);
    var cap := limits.bps.For(isWrite);
    var demand := BpsDemand(limits, s, nb, isWrite);
    BpsWaitNonNegative(limits, s, nb, isWrite, now);
    WaitNanoseconds(demand, cap, now - s.start);
    FloorNeeded(demand, cap);
  }

  // ---- the verdict in whole numbers

  /** Asking for n more keeps within caps over a slice of so many nanoseconds,
      of which read and written have been submitted: a total cap is compared
      with both directions together, a direction cap, in the absence of a
      total one, with its own direction alone. */
  predicate Affordable(caps: Caps, read: nat, written: nat, isWrite: bool, n: nat, length: int) {
    var own, cap := if isWrite then written else read, if isWrite then caps.write else caps.read;
    if caps.total != 0 then (read + written + n) * 1000000000 <= caps.total * length
    else cap != 0 ==> (own + n) * 1000000000 <= cap * length
  }

  /** A request is admitted if and only if both its bytes and one operation are
      affordable, in the running slice or, if that is over, in a fresh one. */
  lemma AdmittedIff(limits: Limits, slice: Slice, nb: nat, isWrite: bool, now: int, later: int)
    requires Accepted(limits)
    ensures !Check(limits, slice, nb, isWrite, now, later).refused <==>
      if now > slice.end then
        Affordable(limits.bps, 0, 0, isWrite, nb * 512, 100000000) && Affordable(limits.iops, 0, 0, isWrite, 1, 100000000)
      else
        && Affordable(limits.bps, slice.bytes.read, slice.bytes.write, isWrite, nb * 512, slice.end - slice.start)
        && Affordable(limits.iops, slice.ios.read, slice.ios.write, isWrite, 1, slice.end - slice.start)
  {
    hide Within;
    var s := Current(slice, now);
    var elapsed := Seconds(now - s.start);
    var b := ExceedBps(limits, s, nb, isWrite, elapsed);
    BpsPassesIff(limits, s, nb, isWrite, elapsed);
    if !b.refused {
      IopsPassesIff(limits, s, isWrite, elapsed);
    }
  }

  lemma BpsPassesIff(limits: Limits, s: Slice, nb: nat, isWrite: bool, elapsed: real)
    requires Accepted(limits)
    ensures !ExceedBps(limits, s, nb, isWrite, elapsed).refused <==>
      Affordable(limits.bps, s.bytes.read, s.bytes.write, isWrite, nb * 512, s.end - s.start)
    ensures !ExceedBps(limits, s, nb, isWrite, elapsed).refused ==> ExceedBps(limits, s, nb, isWrite, elapsed).end == s.end
  {
    hide Within;
    var cap := limits.bps.For(isWrite);
    if cap != 0 {
      WithinExact(s.bytes.Base(limits.bps, isWrite) + nb * SECTOR, cap, s);
    }
  }

  lemma IopsPassesIff(limits: Limits, s: Slice, isWrite: bool, elapsed: real)
    requires Accepted(limits)
    ensures !ExceedIops(limits, s, isWrite, elapsed).refused <==>
      Affordable(limits.iops, s.ios.read, s.ios.write, isWrite, 1, s.end - s.start)
  {
    hide Within;
    var cap := limits.iops.For(isWrite);
    if cap != 0 {
      WithinExact(s.ios.Base(limits.iops, isWrite) + 1, cap, s);
    }
  }

  /** Under direction caps alone, what went the other way never matters. */
  lemma DirectionsIndependent(limits: Limits, slice: Slice, other: Slice, nb: nat, isWrite: bool, now: int, later: int, later': int)
    requires Accepted(limits) && limits.bps.total == 0 == limits.iops.total
    requires slice.start == other.start && slice.end == other.end
    requires slice.bytes.Dir(isWrite) == other.bytes.Dir(isWrite) && slice.ios.Dir(isWrite) == other.ios.Dir(isWrite)
    ensures Check(limits, slice, nb, isWrite, now, later).refused == Check(limits, other, nb, isWrite, now, later').refused
  {
    AdmittedIff(limits, slice, nb, isWrite, now, later);
    AdmittedIff(limits, other, nb, isWrite, now, later');
    hide Check;
  }

  /** Accepted limits hold a request to the cap of its direction, if there is
      one, and to no total beside it. */
  lemma DirectionCapHolds(limits: Limits, isWrite: bool)
    requires Accepted(limits)
    ensures limits.bps.Dir(isWrite) != 0 ==> limits.bps.total == 0 && limits.bps.For(isWrite) == limits.bps.Dir(isWrite) > 0
    ensures limits.iops.Dir(isWrite) != 0 ==> limits.iops.total == 0 && limits.iops.For(isWrite) == limits.iops.Dir(isWrite) > 0
  {
  }

  /** The wait of a refused operation check: the time one more operation needs
      at the cap, rounded down, beyond the time gone by; and the slice grows
      by one slice time. */
  lemma IopsWaitExact(limits: Limits, slice: Slice, isWrite: bool, now: int)
    requires Accepted(limits) && now <= slice.end && ExceedIops(limits, slice, isWrite, Seconds(now - slice.start)).refused
    ensures var v := ExceedIops(limits, slice, isWrite, Seconds(now - slice.start));
      var cap := if limits.iops.total != 0 then limits.iops.total else limits.iops.Dir(isWrite);
      var count := if limits.iops.total != 0 then slice.ios.read + slice.ios.write else slice.ios.Dir(isWrite);
      cap > 0 && v.wait == (count + 1) * NANOSECONDS_PER_SECOND / cap - (now - slice.start) && v.end == slice.end + 100000000
  {
    var cap := limits.iops.For(isWrite);
    var demand := IopsDemand(limits, slice, isWrite);
    WithinNeeded(demand, cap, slice);
    WaitNanoseconds(demand, cap, now - slice.start);
    FloorNeeded(demand, cap);
    var elapsed := Seconds(now - slice.start);
    assert (ServiceTime(demand, cap) - elapsed) * NANOSECONDS_PER_SECOND as real == Needed(demand, cap) - (now - slice.start) as real;
    assert ServiceTime(demand, cap) > elapsed;
  }

  /** What a refusal leaves behind: the same counts, and a slice that ends no
      earlier than the moment the request is told to come back. */
  lemma RefusalReachesRetry(limits: Limits, slice: Slice, nb: nat, isWrite: bool, now: int, later: int)
    requires Accepted(limits) && now <= later && Check(limits, slice, nb, isWrite, now, later).refused
    ensures var out := Check(limits, slice, nb, isWrite, now, later);
      var s := Current(slice, now);
      out.wait >= 0 && out.slice == s.(end := out.slice.end) &&
      out.slice.end >= later + out.wait && out.slice.end >= s.end
  {
    var s := Current(slice, now);
    BpsWaitNonNegative(limits, s, nb, isWrite, now);
  }

  /** When the bps check of a retry in the same slice still refuses: only if
      the refusal came on the last nanosecond of the slice, the clock did not
      advance, the operation check let the request pass, and the whole part
      of a fractional wait was a multiple of the slice time. */
  predicate BpsStalls(limits: Limits, slice: Slice, nb: nat, isWrite: bool, now: int, later: int)
    requires limits.bps.For(isWrite) > 0
  {
    var s := Current(slice, now);
    var cap := limits.bps.For(isWrite);
    var n := BpsDemand(limits, s, nb, isWrite) * NANOSECONDS_PER_SECOND;
    now == s.end && later == now && !IopsVerdict(limits, slice, nb, isWrite, now).refused &&
    n % cap != 0 && (n / cap - (now - s.start)) % BLOCK_IO_SLICE_TIME == 0
  }

  lemma BpsRetry(limits: Limits, slice: Slice, nb: nat, isWrite: bool, now: int, later: int)
    requires Accepted(limits) && now <= later && BpsVerdict(limits, slice, nb, isWrite, now).refused
    ensures limits.bps.For(isWrite) > 0
    ensures var out := Check(limits, slice, nb, isWrite, now, later);
      Within(BpsDemand(limits, out.slice, nb, isWrite), limits.bps.For(isWrite), out.slice)
      <==> !BpsStalls(limits, slice, nb, isWrite, now, later)
  {
    var s := Current(slice, now);
    var cap := limits.bps.For(isWrite);
    var v := BpsVerdict(limits, slice, nb, isWrite, now);
    var i := IopsVerdict(limits, slice, nb, isWrite, now);
    var out := Check(limits, slice, nb, isWrite, now, later);
    BpsWaitExact(limits, slice, nb, isWrite, now);
    RoundedUp(v.wait);
    var demand := BpsDemand(limits, s, nb, isWrite);
    var n := demand * NANOSECONDS_PER_SECOND;
    assert BpsDemand(limits, out.slice, nb, isWrite) == demand;
    WithinExact(demand, cap, out.slice);
    ExactFit(n, cap, out.slice.Length());
    assert out.slice.end == Max(i.end, later + Max(v.wait, i.wait));
    if i.refused {
      assert out.slice.end >= s.end + v.wait + BLOCK_IO_SLICE_TIME;
    }
  }

  /** The stalling case exists: a write of 19532 sectors held to 100003839
      bytes a second, checked on the last nanosecond of a fresh slice, is
      refused with a wait of nothing and leaves the slice as it was, so that
      coming back at once it is refused again, and again. */
  lemma RetryStalls()
    ensures var limits := Limits(Caps(100003839, 0, 0), Caps(0, 0, 0));
      var slice := Slice(0, BLOCK_IO_SLICE_TIME, Counts(0, 0), Counts(0, 0));
      var now := BLOCK_IO_SLICE_TIME;
      Accepted(limits) && BpsStalls(limits, slice, 19532, true, now, now) &&
      Check(limits, slice, 19532, true, now, now) == Outcome(true, 0, slice)
  {
    var limits := Limits(Caps(100003839, 0, 0), Caps(0, 0, 0));
    var slice := Slice(0, BLOCK_IO_SLICE_TIME, Counts(0, 0), Counts(0, 0));
    var now := BLOCK_IO_SLICE_TIME;
    WithinExact(19532 * SECTOR, 100003839, slice);
    assert BpsVerdict(limits, slice, 19532, true, now).refused;
    BpsWaitExact(limits, slice, 19532, true, now);
    assert 19532 * SECTOR * NANOSECONDS_PER_SECOND == 100003839 * 100000000 + 100000000;
  }

  /** n units fit into len nanoseconds iff len reaches the rounded-up quotient. */
  lemma ExactFit(n: int, cap: int, len: int)
    requires cap > 0
    ensures n <= cap * len <==> len >= n / cap + if n % cap != 0 then 1 else 0
  {
    var q, r := n / cap, n % cap;
    assert n == cap * q + r;
    var d := len - q;
    assert cap * len == cap * q + cap * d;
    assert d >= 1 ==> cap * d >= cap;
    assert d <= 0 ==> cap * d <= 0;
    assert d <= -1 ==> cap * d <= -cap;
  }

  /** A request refused by the bps check strictly before the end of the slice
      passes that check on any retry in the same slice, if nothing else was
      admitted meanwhile. */
  lemma BpsPassesOnRetry(limits: Limits, slice: Slice, nb: nat, isWrite: bool, now: int, later: int, retry: int)
    requires Accepted(limits) && now <= later && BpsVerdict(limits, slice, nb, isWrite, now).refused
    requires now < Current(slice, now).end
    ensures var out := Check(limits, slice, nb, isWrite, now, later);
      out.refused &&
      (retry <= out.slice.end ==> !BpsVerdict(limits, out.slice, nb, isWrite, retry).refused)
  {
    BpsRetry(limits, slice, nb, isWrite, now, later);
  }

  /** A slice long enough for the demand lets the request pass. */
  lemma IopsFits(limits: Limits, slice: Slice, nb: nat, isWrite: bool, retry: int)
    requires Accepted(limits) && retry <= slice.end
    requires limits.iops.For(isWrite) > 0 ==>
      Needed(IopsDemand(limits, slice, isWrite), limits.iops.For(isWrite)) <= slice.Length() as real
    ensures !IopsVerdict(limits, slice, nb, isWrite, retry).refused
  {
    if limits.iops.For(isWrite) > 0 {
      BpsWaitNonNegative(limits, slice, nb, isWrite, retry);
      var v := BpsVerdict(limits, slice, nb, isWrite, retry);
      WithinNeeded(IopsDemand(limits, slice, isWrite), limits.iops.For(isWrite), slice.(end := v.end));
    }
  }

  /** A refusal by the operation check stretches the slice by a slice time. */
  lemma IopsStretches(limits: Limits, slice: Slice, nb: nat, isWrite: bool, now: int, later: int)
    requires Accepted(limits) && now <= later && IopsVerdict(limits, slice, nb, isWrite, now).refused
    ensures var out := Check(limits, slice, nb, isWrite, now, later);
      out.refused && out.slice == Current(slice, now).(end := out.slice.end) &&
      out.slice.end >= Current(slice, now).end + BLOCK_IO_SLICE_TIME
  {
    BpsWaitNonNegative(limits, Current(slice, now), nb, isWrite, now);
  }

  /** The operation check falls short by at most one nanosecond after one
      refusal, and passes after two, whatever the bps check does. */
  lemma IopsRefusesAtMostTwice(limits: Limits, slice: Slice, nb: nat, isWrite: bool,
                               now: int, later: int, now': int, later': int, retry: int)
    requires Accepted(limits) && now <= later && now' <= later'
    requires IopsVerdict(limits, slice, nb, isWrite, now).refused
    ensures var out := Check(limits, slice, nb, isWrite, now, later);
      out.refused &&
      (now' <= out.slice.end && IopsVerdict(limits, out.slice, nb, isWrite, now').refused ==>
        var out' := Check(limits, out.slice, nb, isWrite, now', later');
        out'.refused &&
        (retry <= out'.slice.end ==> !IopsVerdict(limits, out'.slice, nb, isWrite, retry).refused))
  {
    IopsShortfall(limits, slice, nb, isWrite, now, later);
    hide Check, IopsVerdict, Needed;
    var out := Check(limits, slice, nb, isWrite, now, later);
    if now' <= out.slice.end && IopsVerdict(limits, out.slice, nb, isWrite, now').refused {
      var out' := Check(limits, out.slice, nb, isWrite, now', later');
      IopsStretches(limits, out.slice, nb, isWrite, now', later');
      if retry <= out'.slice.end {
        IopsFits(limits, out'.slice, nb, isWrite, retry);
      }
    }
  }

  lemma BpsFits(limits: Limits, slice: Slice, nb: nat, isWrite: bool, more: Slice, retry: int)
    requires Accepted(limits) && retry <= more.end && more == slice.(end := more.end) && slice.end <= more.end
    requires limits.bps.For(isWrite) == 0 || Within(BpsDemand(limits, slice, nb, isWrite), limits.bps.For(isWrite), slice)
    ensures !BpsVerdict(limits, more, nb, isWrite, retry).refused
  {
    if limits.bps.For(isWrite) > 0 {
      WithinNeeded(BpsDemand(limits, slice, nb, isWrite), limits.bps.For(isWrite), slice);
      WithinNeeded(BpsDemand(limits, slice, nb, isWrite), limits.bps.For(isWrite), more);
    }
  }

  /** After one refusal strictly before the end of the slice, the bps check is
      no longer what stops the request. */
  lemma BpsSettles(limits: Limits, slice: Slice, nb: nat, isWrite: bool, now: int, later: int, retry: int)
    requires Accepted(limits) && now < Current(slice, now).end && now <= later
    requires Check(limits, slice, nb, isWrite, now, later).refused
    requires retry <= Check(limits, slice, nb, isWrite, now, later).slice.end
    ensures !BpsVerdict(limits, Check(limits, slice, nb, isWrite, now, later).slice, nb, isWrite, retry).refused
  {
    var out := Check(limits, slice, nb, isWrite, now, later);
    RefusalReachesRetry(limits, slice, nb, isWrite, now, later);
    if BpsVerdict(limits, slice, nb, isWrite, now).refused {
      BpsRetry(limits, slice, nb, isWrite, now, later);
      BpsFits(limits, out.slice, nb, isWrite, out.slice, retry);
    } else {
      BpsFits(limits, Current(slice, now), nb, isWrite, out.slice, retry);
    }
  }

  /** An operation check once passed stays passed while the slice only grows. */
  lemma IopsStaysPassed(limits: Limits, slice: Slice, nb: nat, isWrite: bool, now: int, later: int, retry: int)
    requires Accepted(limits) && now <= later && Check(limits, slice, nb, isWrite, now, later).refused
    requires !IopsVerdict(limits, slice, nb, isWrite, now).refused
    requires retry <= Check(limits, slice, nb, isWrite, now, later).slice.end
    ensures !IopsVerdict(limits, Check(limits, slice, nb, isWrite, now, later).slice, nb, isWrite, retry).refused
  {
    var out := Check(limits, slice, nb, isWrite, now, later);
    var s := Current(slice, now);
    RefusalReachesRetry(limits, slice, nb, isWrite, now, later);
    if limits.iops.For(isWrite) > 0 {
      var v := BpsVerdict(limits, slice, nb, isWrite, now);
      WithinNeeded(IopsDemand(limits, s, isWrite), limits.iops.For(isWrite), s.(end := v.end));
    }
    IopsFits(limits, out.slice, nb, isWrite, retry);
  }

  lemma RefusedByOne(limits: Limits, slice: Slice, nb: nat, isWrite: bool, now: int, later: int)
    ensures Check(limits, slice, nb, isWrite, now, later).refused <==>
      BpsVerdict(limits, slice, nb, isWrite, now).refused || IopsVerdict(limits, slice, nb, isWrite, now).refused
  {
  }

  /** Progress: refused strictly before the end of the slice, a request is
      admitted at the latest on its second retry, if the retries fall in the
      slice and nothing else is admitted. */
  lemma AdmittedByThirdTry(limits: Limits, slice: Slice, nb: nat, isWrite: bool,
                           t0: int, u0: int, t1: int, u1: int, t2: int, u2: int)
    requires Accepted(limits) && t0 < Current(slice, t0).end && t0 <= u0 && t1 <= u1 && t2 <= u2
    ensures var a := Check(limits, slice, nb, isWrite, t0, u0);
      a.refused && t1 < a.slice.end ==>
        var b := Check(limits, a.slice, nb, isWrite, t1, u1);
        b.refused && t2 <= b.slice.end ==> !Check(limits, b.slice, nb, isWrite, t2, u2).refused
  {
    var a := Check(limits, slice, nb, isWrite, t0, u0);
    if a.refused && t1 < a.slice.end {
      var b := Check(limits, a.slice, nb, isWrite, t1, u1);
      if b.refused && t2 <= b.slice.end {
        assert Current(a.slice, t1) == a.slice;
        hide Check, BpsVerdict, IopsVerdict, Accepted, Current;
        BpsSettles(limits, slice, nb, isWrite, t0, u0, t1);
        BpsSettles(limits, a.slice, nb, isWrite, t1, u1, t2);
        RefusedByOne(limits, a.slice, nb, isWrite, t1, u1);
        if !IopsVerdict(limits, slice, nb, isWrite, t0).refused {
          IopsStaysPassed(limits, slice, nb, isWrite, t0, u0, t1);
          assert false;
        }
        IopsRefusesAtMostTwice(limits, slice, nb, isWrite, t0, u0, t1, u1, t2);
        RefusedByOne(limits, b.slice, nb, isWrite, t2, u2);
      }
    }
  }

  lemma IopsShortfall(limits: Limits, slice: Slice, nb: nat, isWrite: bool, now: int, later: int)
    requires Accepted(limits) && now <= later
    requires IopsVerdict(limits, slice, nb, isWrite, now).refused
    ensures limits.iops.For(isWrite) > 0
    ensures var out := Check(limits, slice, nb, isWrite, now, later);
      out.refused && out.slice == Current(slice, now).(end := out.slice.end) &&
      Needed(IopsDemand(limits, Current(slice, now), isWrite), limits.iops.For(isWrite)) < (out.slice.Length() + 1) as real
  {
    var s := Current(slice, now);
    var cap := limits.iops.For(isWrite);
    var demand := IopsDemand(limits, s, isWrite);
    var v := BpsVerdict(limits, slice, nb, isWrite, now);
    var i := IopsVerdict(limits, slice, nb, isWrite, now);
    BpsWaitNonNegative(limits, s, nb, isWrite, now);
    WithinNeeded(demand, cap, s.(end := v.end));
    WaitNanoseconds(demand, cap, now - s.start);
    var elapsed := Seconds(now - s.start);
    var full := demand as real / cap as real;
    assert (full - elapsed) * NANOSECONDS_PER_SECOND as real == Needed(demand, cap) - (now - s.start) as real;
    assert full > elapsed;
    assert i.wait == (Needed(demand, cap) - (now - s.start) as real).Floor;
    RefusalReachesRetry(limits, slice, nb, isWrite, now, later);
  }

  lemma NotNegative(seconds: real)
    requires seconds >= 0.0
    ensures Nanoseconds(seconds) >= 0
  {
  }

  lemma PassedKeepsSlice(limits: Limits, slice: Slice, nb: nat, isWrite: bool, elapsed: real)
    ensures var b := ExceedBps(limits, slice, nb, isWrite, elapsed);
      (!b.refused ==> b.wait == 0 && b.end == slice.end) &&
      var i := ExceedIops(limits, slice.(end := b.end), isWrite, elapsed);
      (!i.refused ==> i.wait == 0 && i.end == b.end)
  {
    hide Within, Nanoseconds, ServiceTime;
  }

  // ---- the device fields, updated in place

  class ThrottledDevice {
    var ioLimits: Limits
    var ioLimitsEnabled: bool
    var sliceStart: int
    var sliceEnd: int
    var submittedBytes: Counts
    var submittedIos: Counts

    function Abs(): Slice
      reads this
    {
      Slice(sliceStart, sliceEnd, submittedBytes, submittedIos)
    }

    constructor (limits: Limits)
      ensures ioLimits == limits && ioLimitsEnabled == AnyLimit(limits)
      ensures Abs() == Slice(0, 0, Counts(0, 0), Counts(0, 0))
    {
      ioLimits := limits;
      ioLimitsEnabled := AnyLimit(limits);
      sliceStart, sliceEnd := 0, 0;
      submittedBytes, submittedIos := Counts(0, 0), Counts(0, 0);
    }

    method ExceedBpsLimits(nb: nat, isWrite: bool, elapsed: real) returns (exceeded: bool, wait: int)
      modifies this`sliceEnd
      ensures Verdict(exceeded, wait, sliceEnd) == ExceedBps(ioLimits, old(Abs()), nb, isWrite, elapsed)
      ensures Accepted(ioLimits) ==>
        (exceeded <==> !Affordable(ioLimits.bps, submittedBytes.read, submittedBytes.write, isWrite, nb * 512, old(sliceEnd) - sliceStart))
      ensures !exceeded ==> sliceEnd == old(sliceEnd) && wait == 0
    {
      if Accepted(ioLimits) {
        BpsPassesIff(ioLimits, Abs(), nb, isWrite, elapsed);
      }
      hide Within, Nanoseconds, ServiceTime, DivRoundUp, Affordable, Accepted;
      var bpsLimit := 0;
      if ioLimits.bps.total != 0 {
        bpsLimit := ioLimits.bps.total;
      } else if ioLimits.bps.Dir(isWrite) != 0 {
        bpsLimit := ioLimits.bps.Dir(isWrite);
      } else {
        return false, 0;
      }
      var bytesBase := submittedBytes.Dir(isWrite);
      if ioLimits.bps.total != 0 {
        bytesBase := bytesBase + submittedBytes.Dir(!isWrite);
      }
      var bytesRes := nb * SECTOR;
      if Within(bytesBase + bytesRes, bpsLimit, Abs()) {
        return false, 0;
      }
      var waitTime := ServiceTime(bytesBase + bytesRes, bpsLimit) - elapsed;
      var extension := Nanoseconds(waitTime);
      extension := DivRoundUp(extension, BLOCK_IO_SLICE_TIME) * BLOCK_IO_SLICE_TIME;
      sliceEnd := sliceEnd + extension;
      return true, Nanoseconds(waitTime);
    }

    method ExceedIopsLimits(isWrite: bool, elapsed: real) returns (exceeded: bool, wait: int)
      modifies this`sliceEnd
      ensures Verdict(exceeded, wait, sliceEnd) == ExceedIops(ioLimits, old(Abs()), isWrite, elapsed)
      ensures Accepted(ioLimits) ==>
        (exceeded <==> !Affordable(ioLimits.iops, submittedIos.read, submittedIos.write, isWrite, 1, old(sliceEnd) - sliceStart))
      ensures !exceeded ==> sliceEnd == old(sliceEnd) && wait == 0
      ensures exceeded ==> sliceEnd == old(sliceEnd) + 100000000 && wait >= 0
    {
      if Accepted(ioLimits) {
        IopsPassesIff(ioLimits, Abs(), isWrite, elapsed);
      }
      hide Within, Nanoseconds, ServiceTime, Affordable, Accepted;
      var iopsLimit := 0;
      if ioLimits.iops.total != 0 {
        iopsLimit := ioLimits.iops.total;
      } else if ioLimits.iops.Dir(isWrite) != 0 {
        iopsLimit := ioLimits.iops.Dir(isWrite);
      } else {
        return false, 0;
      }
      var iosBase := submittedIos.Dir(isWrite);
      if ioLimits.iops.total != 0 {
        iosBase := iosBase + submittedIos.Dir(!isWrite);
      }
      if Within(iosBase + 1, iopsLimit, Abs()) {
        return false, 0;
      }
      var waitTime := ServiceTime(iosBase + 1, iopsLimit);
      if waitTime > elapsed {
        waitTime := waitTime - elapsed;
      } else {
        waitTime := 0.0;
      }
      sliceEnd := sliceEnd + BLOCK_IO_SLICE_TIME;
      NotNegative(waitTime);
      return true, Nanoseconds(waitTime);
    }

    /** bdrv_exceed_io_limits */
    method ExceedIoLimits(nb: nat, isWrite: bool, now: int, later: int) returns (exceeded: bool, wait: int)
      modifies this
      ensures ioLimits == old(ioLimits) && ioLimitsEnabled == old(ioLimitsEnabled)
      ensures Outcome(exceeded, wait, Abs()) == Check(ioLimits, old(Abs()), nb, isWrite, now, later)
      ensures Accepted(ioLimits) ==>
        var s := Renewed(old(Abs()), now);
        (exceeded <==> !(Affordable(ioLimits.bps, s.bytes.read, s.bytes.write, isWrite, nb * 512, s.end - s.start) &&
                         Affordable(ioLimits.iops, s.ios.read, s.ios.write, isWrite, 1, s.end - s.start)))
      ensures var s := Renewed(old(Abs()), now);
        && sliceStart == s.start
        && (!exceeded ==> sliceEnd == s.end && wait == 0)
        && submittedBytes.read == s.bytes.read + (if !exceeded && !isWrite then nb * 512 else 0)
        && submittedBytes.write == s.bytes.write + (if !exceeded && isWrite then nb * 512 else 0)
        && submittedIos.read == s.ios.read + (if !exceeded && !isWrite then 1 else 0)
        && submittedIos.write == s.ios.write + (if !exceeded && isWrite then 1 else 0)
    {
      hide ExceedBps, ExceedIops, Seconds, Affordable, Accepted;
      if Accepted(ioLimits) {
        AdmittedIff(ioLimits, Abs(), nb, isWrite, now, later);
      }
      PassedKeepsSlice(ioLimits, Current(Abs(), now), nb, isWrite, Seconds(now - Current(Abs(), now).start));
      if now > sliceEnd {
        sliceStart := now;
        sliceEnd := now + BLOCK_IO_SLICE_TIME;
        submittedBytes, submittedIos := Counts(0, 0), Counts(0, 0);
      }
      var elapsed := Seconds(now - sliceStart);
      var bpsRet, bpsWait := ExceedBpsLimits(nb, isWrite, elapsed);
      var iopsRet, iopsWait := ExceedIopsLimits(isWrite, elapsed);
      if bpsRet || iopsRet {
        var maxWait := if bpsWait > iopsWait then bpsWait else iopsWait;
        if sliceEnd < later + maxWait {
          sliceEnd := later + maxWait;
        }
        return true, maxWait;
      }
      submittedBytes := submittedBytes.Add(isWrite, nb * SECTOR);
      submittedIos := submittedIos.Add(isWrite, 1);
      return false, 0;
    }

    /** qmp_block_set_io_throttle: rejected limits change nothing; a change
        keeps the slice unless it switches throttling off. */
    method SetIoThrottle(limits: Limits) returns (ok: bool)
      modifies this
      ensures ok == Accepted(limits)
      ensures ok <==>
        && limits.bps.total >= 0 && limits.bps.read >= 0 && limits.bps.write >= 0
        && limits.iops.total >= 0 && limits.iops.read >= 0 && limits.iops.write >= 0
        && (limits.bps.total == 0 || (limits.bps.read == 0 && limits.bps.write == 0))
        && (limits.iops.total == 0 || (limits.iops.read == 0 && limits.iops.write == 0))
      ensures ok ==> (ioLimitsEnabled <==>
        !(limits.bps.total == limits.bps.read == limits.bps.write == 0 && limits.iops.total == limits.iops.read == limits.iops.write == 0))
      ensures !ok ==> ioLimits == old(ioLimits) && ioLimitsEnabled == old(ioLimitsEnabled) && Abs() == old(Abs())
      ensures ok ==> ioLimits == limits && ioLimitsEnabled == AnyLimit(limits)
      ensures ok && !(old(ioLimitsEnabled) && !AnyLimit(limits)) ==> Abs() == old(Abs())
      ensures ok && old(ioLimitsEnabled) && !AnyLimit(limits) ==>
        !ioLimitsEnabled && Abs() == old(Abs()).(start := 0, end := 0)
    {
      if !Accepted(limits) {
        return false;
      }
      ioLimits := limits;
      if !ioLimitsEnabled && AnyLimit(limits) {
        ioLimitsEnabled := true;
      } else if ioLimitsEnabled && !AnyLimit(limits) {
        ioLimitsEnabled := false;
        sliceStart, sliceEnd := 0, 0;
      }
      return true;
    }
  }
}
