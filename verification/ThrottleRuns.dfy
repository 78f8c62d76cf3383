/** Whole runs of the limiter: requests at any times, limits changed while the
    guest runs, requests woken when throttling is switched off.  What has been
    admitted never exceeds the highest limit in force times the length of the
    slices; slices of an uninterrupted run do not overlap. */
module ThrottleRuns {
  import opened Common
  import opened Throttle

  /** The throttle fields of the device, and the history of a run: everything
      admitted, everything admitted before the current slice, and where the
      slices have been. */
  datatype Run = Run(
    limits: Limits,
    enabled: bool,
    slice: Slice,
    bytes: Counts,
    ios: Counts,
    bytesBefore: Counts,
    iosBefore: Counts,
    started: bool,
    first: int,       // start of the first slice
    closed: int,      // total length of the slices that are over
    horizon: int,     // latest end of any of them
    dropped: bool)    // throttling was switched off since the last check

  datatype Event =
    | Submit(nb: nat, isWrite: bool, now: int, later: int)   // a request reaches the throttle
    | Woken(nb: nat, isWrite: bool, now: int, later: int)    // a request that waited in it is woken
    | SetLimits(limits: Limits)

  predicate Plausible(e: Event) { !e.SetLimits? ==> e.now <= e.later }

  /** The event makes a check: a new request only while throttling is on, a
      woken one always, also after throttling was switched off. */
  predicate Checks(r: Run, e: Event) { e.Woken? || (e.Submit? && r.enabled) }

  function Closing(r: Run): Run {
    r.(closed := r.closed + r.slice.Length(), horizon := Max(r.horizon, r.slice.end),
       bytesBefore := r.bytes, iosBefore := r.ios)
  }

  /** The run when a check at time now has chosen its slice. */
  function Opened(r: Run, now: int): Run {
    var m := if now > r.slice.end then Closing(r) else r;
    var s := Current(r.slice, now);
    m.(slice := s, started := true, dropped := false, first := if r.started then r.first else s.start,
       closed := if r.started then m.closed else 0)
  }

  /** A check; what passes it counts as admitted by the throttle while that is
      on. */
  function Checked(r: Run, nb: nat, isWrite: bool, now: int, later: int): Run {
    var out := Check(r.limits, r.slice, nb, isWrite, now, later);
    var m := Opened(r, now).(slice := out.slice);
    if out.refused || !r.enabled then m
    else m.(bytes := m.bytes.Add(isWrite, nb * SECTOR), ios := m.ios.Add(isWrite, 1))
  }

  function Step(r: Run, e: Event): Run {
    match e
    case Submit(nb, isWrite, now, later) =>
      // bdrv_co_do_preadv / pwritev skip the throttle while it is off
      if !r.enabled then r else Checked(r, nb, isWrite, now, later)
    case Woken(nb, isWrite, now, later) => Checked(r, nb, isWrite, now, later)
    case SetLimits(l) =>
      // qmp_block_set_io_throttle
      if !Accepted(l) then r
      else if !r.enabled && AnyLimit(l) then r.(limits := l, enabled := true)
      else if r.enabled && !AnyLimit(l) then
        Closing(r).(limits := l, enabled := false, dropped := true, slice := r.slice.(start := 0, end := 0))
      else r.(limits := l)
  }

  function Exec(r: Run, es: seq<Event>): Run
    decreases |es|
  {
    if es == [] then r else Exec(Step(r, es[0]), es[1..])
  }

  /** A device that has not throttled anything yet. */
  function Initial(l: Limits): Run {
    var zero := Counts(0, 0);
    Run(l, AnyLimit(l), Slice(0, 0, zero, zero), zero, zero, zero, zero, false, 0, 0, 0, false)
  }

  // ---- what is bounded

  datatype Resource = Bytes | Ops
  datatype Group = Both | Only(isWrite: bool)

  function Amount(c: Counts, g: Group): nat {
    match g
    case Both => c.read + c.write
    case Only(w) => c.Dir(w)
  }

  function CapsOf(l: Limits, k: Resource): Caps { if k.Bytes? then l.bps else l.iops }

  /** The limits hold group g to at most bound. */
  predicate Guards(l: Limits, k: Resource, g: Group, bound: int) {
    match g
    case Both => 0 < CapsOf(l, k).total <= bound
    case Only(w) => 0 < CapsOf(l, k).For(w) <= bound
  }

  function Admitted(r: Run, k: Resource): Counts { if k.Bytes? then r.bytes else r.ios }
  function Before(r: Run, k: Resource): Counts { if k.Bytes? then r.bytesBefore else r.iosBefore }
  function Submitted(s: Slice, k: Resource): Counts { if k.Bytes? then s.bytes else s.ios }

  predicate Sound(r: Run) {
    && Accepted(r.limits) && r.slice.start <= r.slice.end && r.closed >= 0
    && (!r.started ==> r.bytes == Counts(0, 0) == r.bytesBefore && r.ios == Counts(0, 0) == r.iosBefore &&
                       r.closed == 0 && r.slice.start == 0 == r.slice.end && r.horizon == 0)
    && (r.dropped ==> r.slice.start == 0 == r.slice.end)
  }

  /** Admitted before the current slice: within the closed slices.  Admitted
      in it: counted in it, and within its length. */
  predicate Bounded(r: Run, k: Resource, g: Group, bound: int) {
    var before, all := Amount(Before(r, k), g), Amount(Admitted(r, k), g);
    && before <= all
    && before * NANOSECONDS_PER_SECOND <= bound * r.closed
    && all - before <= Amount(Submitted(r.slice, k), g)
    && (all - before) * NANOSECONDS_PER_SECOND <= bound * r.slice.Length()
  }

  // ---- one event

  lemma StepSound(r: Run, e: Event)
    requires Sound(r) && Plausible(e)
    ensures Sound(Step(r, e))
  {
    if Checks(r, e) {
      var out := Check(r.limits, r.slice, e.nb, e.isWrite, e.now, e.later);
      if out.refused {
        RefusalReachesRetry(r.limits, r.slice, e.nb, e.isWrite, e.now, e.later);
      }
    }
  }

  lemma MonotoneProduct(b: int, x: int, y: int)
    requires b >= 0 && x <= y
    ensures b * x <= b * y
  {
  }

  lemma Distribute(b: int, x: int, y: int)
    ensures b * (x + y) == b * x + b * y
  {
  }

  lemma ClosingBounded(r: Run, k: Resource, g: Group, bound: int)
    requires Bounded(r, k, g, bound)
    ensures var before := Amount(Before(Closing(r), k), g);
      before == Amount(Admitted(r, k), g) && before * NANOSECONDS_PER_SECOND <= bound * Closing(r).closed
  {
    Distribute(bound, r.closed, r.slice.Length());
  }

  lemma OpenedBounded(r: Run, now: int, k: Resource, g: Group, bound: int)
    requires Bounded(r, k, g, bound) && Sound(r) && bound >= 0
    ensures Bounded(Opened(r, now), k, g, bound) && Opened(r, now).closed >= 0
  {
    ClosingBounded(r, k, g, bound);
    var o := Opened(r, now);
    MonotoneProduct(bound, 0, o.slice.Length());
    MonotoneProduct(bound, 0, r.slice.Length());
  }

  predicate InGroup(g: Group, isWrite: bool) { g.Both? || g.isWrite == isWrite }

  /** A live limit binds at once: whatever was submitted to the slice under
      earlier limits, an admission leaves the slice total, in every group the
      limits in force hold to some bound, within that bound times the length
      of the slice. */
  lemma AdmissionWithinLimit(limits: Limits, slice: Slice, nb: nat, isWrite: bool, now: int, later: int,
                             k: Resource, g: Group, bound: int)
    requires Accepted(limits) && slice.start <= slice.end && Guards(limits, k, g, bound) && InGroup(g, isWrite)
    requires !Check(limits, slice, nb, isWrite, now, later).refused
    ensures var s := Check(limits, slice, nb, isWrite, now, later).slice;
      Amount(Submitted(s, k), g) * NANOSECONDS_PER_SECOND <= bound * s.Length()
  {
    var s := Current(slice, now);
    var cap := CapsOf(limits, k).For(isWrite);
    var n := if k.Bytes? then nb * SECTOR else 1;
    var demand := Submitted(s, k).Base(CapsOf(limits, k), isWrite) + n;
    assert Within(demand, cap, s);
    WithinExact(demand, cap, s);
    MonotoneSum(cap, bound, s.Length());
    assert Amount(Submitted(s, k).Add(isWrite, n), g) <= demand;
  }

  lemma MonotoneSum(a: int, b: int, x: int)
    requires a <= b && x >= 0
    ensures a * x <= b * x
  {
  }

  /** A slice may grow, and be charged for more, without harm. */
  lemma StretchedBounded(o: Run, slice: Slice, k: Resource, g: Group, bound: int)
    requires Bounded(o, k, g, bound) && bound >= 0 && slice.Length() >= o.slice.Length()
    requires Amount(Submitted(slice, k), g) >= Amount(Submitted(o.slice, k), g)
    ensures Bounded(o.(slice := slice), k, g, bound)
  {
    MonotoneProduct(bound, o.slice.Length(), slice.Length());
  }

  /** What a check makes of the slice it works on. */
  lemma CheckedSlice(limits: Limits, slice: Slice, nb: nat, isWrite: bool, now: int, later: int, k: Resource, g: Group)
    requires Accepted(limits) && now <= later
    ensures var s, t := Current(slice, now), Check(limits, slice, nb, isWrite, now, later).slice;
      t.Length() >= s.Length() && Amount(Submitted(t, k), g) >= Amount(Submitted(s, k), g)
  {
    hide Within, Nanoseconds, ServiceTime, Accepted;
    if Check(limits, slice, nb, isWrite, now, later).refused {
      RefusalReachesRetry(limits, slice, nb, isWrite, now, later);
    }
  }

  lemma SubmitBounded(r: Run, e: Event, k: Resource, g: Group, bound: int)
    requires Sound(r) && Bounded(r, k, g, bound) && Plausible(e) && Checks(r, e) && bound >= 0
    requires r.enabled ==> Guards(r.limits, k, g, bound)
    ensures Bounded(Step(r, e), k, g, bound)
  {
    hide Check, Bounded, Guards;
    OpenedBounded(r, e.now, k, g, bound);
    var out := Check(r.limits, r.slice, e.nb, e.isWrite, e.now, e.later);
    if out.refused || !r.enabled {
      CheckedSlice(r.limits, r.slice, e.nb, e.isWrite, e.now, e.later, k, g);
      StretchedBounded(Opened(r, e.now), out.slice, k, g, bound);
    } else {
      AdmittedBounded(r, e, k, g, bound);
    }
  }

  lemma AdmittedBounded(r: Run, e: Event, k: Resource, g: Group, bound: int)
    requires Sound(r) && Checks(r, e) && r.enabled && Guards(r.limits, k, g, bound)
    requires Bounded(Opened(r, e.now), k, g, bound)
    requires !Check(r.limits, r.slice, e.nb, e.isWrite, e.now, e.later).refused
    ensures Bounded(Step(r, e), k, g, bound)
  {
    var o := Opened(r, e.now);
    var t := Step(r, e);
    var n := if k.Bytes? then e.nb * SECTOR else 1;
    assert t.slice.Length() == o.slice.Length();
    assert Admitted(t, k) == Admitted(o, k).Add(e.isWrite, n);
    assert Submitted(t.slice, k) == Submitted(o.slice, k).Add(e.isWrite, n);
    if InGroup(g, e.isWrite) {
      AdmissionWithinLimit(r.limits, r.slice, e.nb, e.isWrite, e.now, e.later, k, g, bound);
      var inSlice := Amount(Admitted(t, k), g) - Amount(Before(t, k), g);
      assert inSlice <= Amount(Submitted(t.slice, k), g);
    }
  }

  lemma SetLimitsBounded(r: Run, e: Event, k: Resource, g: Group, bound: int)
    requires Sound(r) && Bounded(r, k, g, bound) && e.SetLimits? && bound >= 0
    ensures Bounded(Step(r, e), k, g, bound)
  {
    hide Accepted, AnyLimit;
    ClosingBounded(r, k, g, bound);
    var t := Step(r, e);
    assert Admitted(t, k) == Admitted(r, k);
    if r.enabled && !t.enabled {
      assert Before(t, k) == Admitted(r, k) && t.slice.Length() == 0 && t.closed == Closing(r).closed;
    }
  }

  // ---- whole runs

  /** Every throttled request of the run is checked under limits that hold
      group g to at most bound. */
  predicate Guarded(r: Run, es: seq<Event>, k: Resource, g: Group, bound: int)
    decreases |es|
  {
    es == [] ||
    (Plausible(es[0]) && (Checks(r, es[0]) && r.enabled ==> Guards(r.limits, k, g, bound)) &&
     Guarded(Step(r, es[0]), es[1..], k, g, bound))
  }

  lemma {:induction false} ExecBounded(r: Run, es: seq<Event>, k: Resource, g: Group, bound: int)
    requires Sound(r) && Bounded(r, k, g, bound) && bound >= 0 && Guarded(r, es, k, g, bound)
    ensures Sound(Exec(r, es)) && Bounded(Exec(r, es), k, g, bound)
    decreases |es|
  {
    hide Bounded, Check;
    if es != [] {
      StepSound(r, es[0]);
      if es[0].SetLimits? {
        SetLimitsBounded(r, es[0], k, g, bound);
      } else if Checks(r, es[0]) {
        SubmitBounded(r, es[0], k, g, bound);
      }
      ExecBounded(Step(r, es[0]), es[1..], k, g, bound);
    }
  }

  /** Bytes (or operations) admitted in a run, limits changing, throttling
      going off and on: at most bound times the total length of the slices. */
  lemma SlicesBound(l: Limits, es: seq<Event>, k: Resource, g: Group, bound: int)
    requires Accepted(l) && bound >= 0 && Guarded(Initial(l), es, k, g, bound)
    ensures var r := Exec(Initial(l), es);
      Amount(Admitted(r, k), g) * NANOSECONDS_PER_SECOND <= bound * (r.closed + r.slice.Length())
  {
    ExecBounded(Initial(l), es, k, g, bound);
    var r := Exec(Initial(l), es);
    Distribute(bound, r.closed, r.slice.Length());
  }

  // ---- where the slices lie

  /** No check of the run works on a slice that starts before an earlier slice
      was to end.  Only switching throttling off and on again can break this:
      it drops a slice that may still be running. */
  predicate Clear(r: Run, es: seq<Event>)
    decreases |es|
  {
    es == [] ||
    (Plausible(es[0]) &&
     (Checks(r, es[0]) ==> Current(r.slice, es[0].now).start >= r.horizon) &&
     Clear(Step(r, es[0]), es[1..]))
  }

  /** The closed slices lie one after the other, before the current one. */
  predicate Tiled(r: Run) {
    r.started ==> if r.dropped then r.closed <= r.horizon - r.first
                  else r.closed <= r.slice.start - r.first && r.horizon <= r.slice.start
  }

  lemma StepTiled(r: Run, e: Event)
    requires Sound(r) && Tiled(r) && Plausible(e)
    requires Checks(r, e) ==> Current(r.slice, e.now).start >= r.horizon
    ensures Tiled(Step(r, e))
  {
    if Checks(r, e) {
      var out := Check(r.limits, r.slice, e.nb, e.isWrite, e.now, e.later);
      assert out.slice.start == Current(r.slice, e.now).start;
    }
  }

  lemma {:induction false} ExecTiled(r: Run, es: seq<Event>)
    requires Sound(r) && Tiled(r) && Clear(r, es)
    ensures Tiled(Exec(r, es))
    decreases |es|
  {
    hide Step, Tiled;
    if es != [] {
      StepSound(r, es[0]);
      StepTiled(r, es[0]);
      ExecTiled(Step(r, es[0]), es[1..]);
    }
  }

  /** The rate over a whole run: with limits that hold group g to at most
      bound, whatever has been admitted since the first slice never exceeds
      bound times the time from the start of that slice to the latest end of
      any slice so far. */
  lemma RateBound(l: Limits, es: seq<Event>, k: Resource, g: Group, bound: int)
    requires Accepted(l) && bound >= 0 && Guarded(Initial(l), es, k, g, bound) && Clear(Initial(l), es)
    ensures var r := Exec(Initial(l), es);
      r.started ==>
        Amount(Admitted(r, k), g) * NANOSECONDS_PER_SECOND <= bound * (Max(r.horizon, r.slice.end) - r.first)
  {
    SlicesBound(l, es, k, g, bound);
    ExecTiled(Initial(l), es);
    ExecBounded(Initial(l), es, k, g, bound);
    var r := Exec(Initial(l), es);
    if r.started {
      MonotoneProduct(bound, r.closed + r.slice.Length(), Max(r.horizon, r.slice.end) - r.first);
    }
  }

  /** No event of the run switches throttling off. */
  predicate Uninterrupted(r: Run, es: seq<Event>)
    decreases |es|
  {
    es == [] ||
    (Plausible(es[0]) && !(r.enabled && !Step(r, es[0]).enabled) && Uninterrupted(Step(r, es[0]), es[1..]))
  }

  /** Runs that never switch throttling off are clear, however the limits
      change, and the latest slice is the current one. */
  lemma {:induction false} UninterruptedIsClear(r: Run, es: seq<Event>)
    requires Sound(r) && Tiled(r) && !r.dropped && Uninterrupted(r, es)
    ensures Clear(r, es) && !Exec(r, es).dropped
    ensures Exec(r, es).started ==> Exec(r, es).horizon <= Exec(r, es).slice.end
    decreases |es|
  {
    if es != [] {
      StepSound(r, es[0]);
      StepTiled(r, es[0]);
      UninterruptedIsClear(Step(r, es[0]), es[1..]);
    }
  }

  lemma UninterruptedRateBound(l: Limits, es: seq<Event>, k: Resource, g: Group, bound: int)
    requires Accepted(l) && bound >= 0 && Guarded(Initial(l), es, k, g, bound) && Uninterrupted(Initial(l), es)
    ensures var r := Exec(Initial(l), es);
      r.started ==> Amount(Admitted(r, k), g) * NANOSECONDS_PER_SECOND <= bound * (r.slice.end - r.first)
  {
    UninterruptedIsClear(Initial(l), es);
    RateBound(l, es, k, g, bound);
  }

  const OFF := Limits(Caps(0, 0, 0), Caps(0, 0, 0))
  const TEN_SECTORS := Limits(Caps(5120, 0, 0), Caps(0, 0, 0))

  /** At ten sectors a second, a fresh slice admits exactly one sector. */
  lemma FreshSliceAdmits(r: Run, now: int)
    requires r.limits == TEN_SECTORS && r.enabled && now > r.slice.end
    ensures var t := Step(r, Submit(1, true, now, now));
      t.enabled && t.limits == r.limits && t.bytes == r.bytes.Add(true, 512) &&
      t.slice.start == now && t.slice.end == now + BLOCK_IO_SLICE_TIME &&
      t.started && t.first == if r.started then r.first else now
  {
    var s := Current(r.slice, now);
    WithinExact(512, 5120, s);
  }

  /** Switching throttling off drops the slice, so the rate bound does not
      survive it: two sectors admitted within a slice time that allows one. */
  lemma InterruptedRunExceedsRate(l: Limits, es: seq<Event>)
    requires l == TEN_SECTORS
    requires es == [Submit(1, true, 1, 1), SetLimits(OFF), SetLimits(TEN_SECTORS), Submit(1, true, 3, 3)]
    ensures Accepted(l) && Guarded(Initial(l), es, Bytes, Both, 5120)
    ensures var r := Exec(Initial(l), es);
      r.started && Amount(Admitted(r, Bytes), Both) * NANOSECONDS_PER_SECOND > 5120 * (r.slice.end - r.first)
  {
    hide Step, Exec, Guarded;
    var r := Initial(l);
    TwoSectors(r, es[0], es[1], es[2], es[3]);
    ExecFour(r, es);
    GuardedFour(r, es);
  }

  lemma TwoSectors(r: Run, e0: Event, e1: Event, e2: Event, e3: Event)
    requires r.limits == TEN_SECTORS && r.enabled && r.slice.end == 0 && !r.started && r.bytes == Counts(0, 0)
    requires e0 == Submit(1, true, 1, 1) && e1 == SetLimits(OFF) && e2 == SetLimits(TEN_SECTORS) && e3 == Submit(1, true, 3, 3)
    ensures var m := Step(Step(Step(r, e0), e1), e2);
      var t := Step(m, e3);
      m.limits == TEN_SECTORS && t.started && t.bytes == Counts(0, 1024) &&
      t.slice.end == 3 + BLOCK_IO_SLICE_TIME && t.first == 1
  {
    hide Step;
    FreshSliceAdmits(r, 1);
    OffAndOn(Step(r, e0));
    FreshSliceAdmits(Step(Step(Step(r, e0), e1), e2), 3);
  }

  lemma OffAndOn(r: Run)
    requires r.enabled && r.limits == TEN_SECTORS
    ensures var t := Step(Step(r, SetLimits(OFF)), SetLimits(TEN_SECTORS));
      t.enabled && t.limits == TEN_SECTORS && t.slice.end == 0 && t.bytes == r.bytes &&
      t.started == r.started && t.first == r.first
  {
  }

  lemma ExecFour(r: Run, es: seq<Event>)
    requires |es| == 4
    ensures Exec(r, es) == Step(Step(Step(Step(r, es[0]), es[1]), es[2]), es[3])
  {
    hide Step;
    var e1, e2, e3 := es[1..], es[1..][1..], es[1..][1..][1..];
    var r1 := Step(r, es[0]);
    var r2 := Step(r1, e1[0]);
    var r3 := Step(r2, e2[0]);
    assert e3[1..] == [];
    assert Exec(r3, e3) == Step(r3, e3[0]);
    assert Exec(r2, e2) == Exec(r3, e3);
    assert Exec(r1, e1) == Exec(r2, e2);
  }

  lemma GuardedFour(r: Run, es: seq<Event>)
    requires |es| == 4 && es[0].Submit? && es[1].SetLimits? && es[2].SetLimits? && es[3].Submit?
    requires Plausible(es[0]) && Plausible(es[3])
    requires Guards(r.limits, Bytes, Both, 5120)
    requires Guards(Step(Step(Step(r, es[0]), es[1]), es[2]).limits, Bytes, Both, 5120)
    ensures Guarded(r, es, Bytes, Both, 5120)
  {
    hide Step;
    var e1, e2, e3 := es[1..], es[1..][1..], es[1..][1..][1..];
    var r1 := Step(r, es[0]);
    var r2 := Step(r1, e1[0]);
    var r3 := Step(r2, e2[0]);
    assert e3[1..] == [];
    assert Guarded(r3, e3, Bytes, Both, 5120);
    assert Guarded(r2, e2, Bytes, Both, 5120);
    assert Guarded(r1, e1, Bytes, Both, 5120);
  }
}
