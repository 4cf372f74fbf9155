/** The one-shot over whole runs: it always serves the earliest deadline, and every sleeping guest's deadline is
    reached and not slept through. */
module Deadlines {
  import opened Wrappers
  import opened Bits
  import opened Cpu
  import opened Mmio
  import opened Vcpu
  import opened Virq
  import opened Timers
  import opened SchedulerSpec
  import opened Rescheduling
  import opened Handlers
  import opened Steps
  import opened Traps
  import opened Runs
  import opened TrapEffects
  import opened Wakeup

  // ----- The one-shot -----

  /** The timers that the one-shot serves are the same in both. */
  predicate SameTimers(vs: seq<VcpuVal>, vs': seq<VcpuVal>) {
    |vs| == |vs'| >= 1 &&
    forall i :: 0 <= i < |vs| - 1 ==> (HasDeadline(vs[i]) <==> HasDeadline(vs'[i])) && vs[i].timer == vs'[i].timer
  }

  lemma {:induction false} SameEarliest(vs: seq<VcpuVal>, vs': seq<VcpuVal>, n: nat)
    requires SameTimers(vs, vs') && n < |vs|
    ensures Earliest(vs, n) == Earliest(vs', n)
  {
    if n > 0 {
      SameEarliest(vs, vs', n - 1);
    }
  }

  /** The traps whose handler rearms the one-shot. */
  predicate Rearms(m: Machine, t: Trap)
    requires m.Shape()
  {
    IsTimerTrap(t) || IsExit(t) || IsDelay(t) || (IsAbort(t) && m.sched.cur < m.sched.Guests() && !Emulated(m, t).ok)
  }

  /** A handler rearms the one-shot for the timers it leaves, or touches neither the one-shot nor a timer. */
  predicate ArmsIf(s: Sched, s': Sched, now: nat, rearms: bool) {
    |s'.vcpus| == |s.vcpus| >= 1 &&
    if rearms then s'.cpu.oneShot == Rearmed(s'.vcpus, s'.Guests(), now)
    else s'.cpu.oneShot == s.cpu.oneShot && SameTimers(s.vcpus, s'.vcpus)
  }

  lemma HypercallArms(m: Machine, t: Trap)
    requires m.Shape() && Hypercall(m, t).1 != Halt && !m.Current().IsIdleVcpu()
    ensures var (call, arg) := (m.Frame().r[0], m.Frame().r[1]);
      ArmsIf(m.sched, Hypercall(m, t).0.sched, t.later,
             call == CALL_EXIT || (call == CALL_TIMER_DELAY_TICKS && arg != 0))
  {
    hide With, Earliest, VcpuVal.Frequency, LowestFrom, IsSet, SetBit, ClearBit, Rearmed;
  }

  lemma AbortArms(m: Machine, t: Trap)
    requires m.Shape() && GuestAbort(m, t).1 != Halt
    ensures ArmsIf(m.sched, GuestAbort(m, t).0.sched, t.later, GuestAbort(m, t).1 == ToAdvance)
  {
    hide With, HandleFault, DecodeFault, Earliest, Rearmed, Frame.Advanced;
  }

  lemma TimerArms(m: Machine, t: Trap)
    requires m.Shape()
    ensures ArmsIf(m.sched, TimerIrq(m, t).0.sched, t.later, true)
  {
    hide With, DeliverOne, AnyDelivered, Rearmed;
  }

  lemma WfiArms(s: Sched, now: nat)
    requires s.Shape() && (s.Current().IsIdleVcpu() || s.Current().state == Running)
    ensures ArmsIf(s, Wfi(s).0, now, false)
  {
    hide With, Frame.Advanced;
  }

  lemma LocalArms(m: Machine, t: Trap)
    requires InvM(m) && Possible(m, t) && Local(m, t).1 != Halt
    ensures ArmsIf(m.sched, Local(m, t).0.sched, t.later, Rearms(m, t))
  {
    hide HsrEc, HsrIss, And, FlagsOk, NoneRunnable, Virq.Disjoint, Rearmed, Hypercall, GuestAbort, TimerIrq, Wfi;
    hide Emulated;
    IdleIsLast(m.sched);
    var e := Enter(m, t);
    if m.sched.cur < m.sched.Guests() {
      AbortAsks(m, t);
    }
    AbortsHalt(e, t);
    TimerArms(e, t);
    WfiArms(e.sched, t.later);
    if !m.Current().IsIdleVcpu() && Hypercall(e, t).1 != Halt {
      HypercallArms(e, t);
    }
    if GuestAbort(e, t).1 != Halt {
      AbortArms(e, t);
    }
  }

  lemma RescheduledKeepsTimers(s: Sched, s': Sched)
    requires Ready(s) && Rescheduled(s, s')
    ensures SameTimers(s.vcpus, s'.vcpus)
  {
    hide RegsOf, Covered, Virq.Disjoint;
    forall i | 0 <= i < |s.vcpus| - 1
      ensures (HasDeadline(s.vcpus[i]) <==> HasDeadline(s'.vcpus[i])) && s.vcpus[i].timer == s'.vcpus[i].timer
    {
      assert VcpuOk(s.vcpus[i], i, s.Guests()) && SameBut(s.vcpus[i], s'.vcpus[i]);
    }
  }

  lemma StepArms(m: Machine, t: Trap, m': Machine)
    requires InvM(m) && Returns(m, t, m')
    ensures ArmsIf(m.sched, m'.sched, t.later, Rearms(m, t))
  {
    hide Local, Step, Possible, FlagsOk, Covered, Rearmed, HasDeadline, NoneRunnable, Rearms;
    StepInv(m, t);
    LocalArms(m, t);
    var (l, d) := Local(m, t);
    if d != Resume {
      RescheduledKeepsTimers(l.sched, m'.sched);
      SameRearmed(l.sched.vcpus, m'.sched.vcpus, t.later);
    }
  }

  lemma SameRearmed(vs: seq<VcpuVal>, vs': seq<VcpuVal>, now: nat)
    requires SameTimers(vs, vs')
    ensures Rearmed(vs, |vs| - 1, now) == Rearmed(vs', |vs'| - 1, now)
  {
    SameEarliest(vs, vs', |vs| - 1);
  }

  /** The clock from which the one-shot is reckoned at point n of a run: that of the last trap that rearmed it
      or, before any did, the clock r0 of the boot sequence. */
  ghost function ArmedAt(ms: seq<Machine>, ts: seq<Trap>, r0: nat, n: nat): nat
    requires IsRun(ms, ts) && n <= |ts|
  {
    if n == 0 then r0
    else
      assert Returns(ms[n - 1], ts[n - 1], ms[n]);
      if Rearms(ms[n - 1], ts[n - 1]) then ts[n - 1].later else ArmedAt(ms, ts, r0, n - 1)
  }

  /** The boot sequence armed the one-shot at clock r0. */
  ghost predicate ArmedFrom(ms: seq<Machine>, r0: nat) {
    ms != [] && |ms[0].sched.vcpus| >= 1 &&
    ms[0].sched.cpu.oneShot == Rearmed(ms[0].sched.vcpus, ms[0].sched.Guests(), r0)
  }

  /** At every point of a run the one-shot is armed for the timers as they are now. */
  lemma {:induction false} AlwaysArmed(ms: seq<Machine>, ts: seq<Trap>, r0: nat, n: nat)
    requires IsRun(ms, ts) && n <= |ts| && ArmedFrom(ms, r0)
    ensures ms[n].Shape()
    ensures ms[n].sched.cpu.oneShot == Rearmed(ms[n].sched.vcpus, ms[n].sched.Guests(), ArmedAt(ms, ts, r0, n))
    decreases n
  {
    hide Returns, Inv, Rearmed, HasDeadline, Rearms;
    RunInv(ms, ts, n);
    if n > 0 {
      AlwaysArmed(ms, ts, r0, n - 1);
      RunInv(ms, ts, n - 1);
      assert Returns(ms[n - 1], ts[n - 1], ms[n]);
      StepArms(ms[n - 1], ts[n - 1], ms[n]);
      if !Rearms(ms[n - 1], ts[n - 1]) {
        SameRearmed(ms[n - 1].sched.vcpus, ms[n].sched.vcpus, ArmedAt(ms, ts, r0, n - 1));
      }
    }
  }

  // ----- The hardware clock and the hardware timer -----

  /** The clock does not run backwards, within a handler or between two. */
  ghost predicate Clocked(ts: seq<Trap>, r0: nat) {
    (forall k :: 0 <= k < |ts| ==> ts[k].now <= ts[k].later) &&
    (ts != [] ==> r0 <= ts[0].now) &&
    forall j, k :: 0 <= j < k < |ts| ==> ts[j].later <= ts[k].now
  }

  /** now is no sooner than a one-shot armed at clock r can fire: a tick is 256/250 microseconds. */
  predicate NotBefore(o: OneShot, r: nat, now: nat) {
    o.Armed? ==> 256 * o.ticks <= 250 * (now - r)
  }

  /** A timer interrupt comes no sooner than it was armed for. */
  ghost predicate NeverEarly(ms: seq<Machine>, ts: seq<Trap>, r0: nat)
    requires IsRun(ms, ts)
  {
    forall k :: 0 <= k < |ts| && IsTimerTrap(ts[k]) ==>
      NotBefore(ms[k].sched.cpu.oneShot, ArmedAt(ms, ts, r0, k), ts[k].now)
  }

  /** now is no later than slack microseconds after the one-shot fires. */
  predicate NotAfter(o: OneShot, r: nat, now: nat, slack: nat) {
    o.Armed? ==> 250 * (now - r) <= 256 * o.ticks + 250 * slack
  }

  /** No trap is taken more than slack microseconds after the timer interrupt has become due: that interrupt
      comes first. */
  ghost predicate Prompt(ms: seq<Machine>, ts: seq<Trap>, r0: nat, slack: nat)
    requires IsRun(ms, ts)
  {
    forall k :: 0 <= k < |ts| ==> NotAfter(ms[k].sched.cpu.oneShot, ArmedAt(ms, ts, r0, k), ts[k].now, slack)
  }

  /** The one-shot was last armed before the next trap and not before boot. */
  lemma {:induction false} ArmedBefore(ms: seq<Machine>, ts: seq<Trap>, r0: nat, n: nat)
    requires IsRun(ms, ts) && n <= |ts| && Clocked(ts, r0)
    ensures r0 <= ArmedAt(ms, ts, r0, n)
    ensures n < |ts| ==> ArmedAt(ms, ts, r0, n) <= ts[n].now
    decreases n
  {
    hide Returns, Rearms;
    if n > 0 {
      ArmedBefore(ms, ts, r0, n - 1);
      assert Returns(ms[n - 1], ts[n - 1], ms[n]);
    }
  }

  // ----- Deadlines are reached -----

  /** Whether the timer trap at point k delivers to some guest. */
  predicate DeliversAny(m: Machine, t: Trap) {
    |m.sched.vcpus| >= 1 && AnyDelivered(m.sched.vcpus, m.sched.Guests(), t.now)
  }

  /** How far the timer traps among the first n bring the clock: by at least one microsecond each, and by the
      maximum delta if they deliver nothing. */
  function Progress(ms: seq<Machine>, ts: seq<Trap>, n: nat): nat
    requires n <= |ts| <= |ms|
  {
    if n == 0 then 0
    else Progress(ms, ts, n - 1) +
         if !IsTimerTrap(ts[n - 1]) then 0
         else if DeliversAny(ms[n - 1], ts[n - 1]) then 1
         else TIM_ARM_TIMER_MAX_DELTA_US
  }

  function TimerTraps(ts: seq<Trap>, n: nat): nat
    requires n <= |ts|
  {
    if n == 0 then 0 else TimerTraps(ts, n - 1) + if IsTimerTrap(ts[n - 1]) then 1 else 0
  }

  lemma {:induction false} TrapsAreProgress(ms: seq<Machine>, ts: seq<Trap>, n: nat)
    requires n <= |ts| <= |ms|
    ensures TimerTraps(ts, n) <= Progress(ms, ts, n)
  {
    hide IsTimerTrap, DeliversAny;
    if n > 0 {
      TrapsAreProgress(ms, ts, n - 1);
    }
  }

  /** One timer interrupt, with some guest's timer enabled. */
  lemma FiringAdvances(vs: seq<VcpuVal>, n: nat, r: nat, now: nat, i: nat)
    requires n <= |vs| && i < n && HasDeadline(vs[i]) && r <= now && NotBefore(Rearmed(vs, n, r), r, now)
    ensures now >= r + if AnyDelivered(vs, n, now) then 1 else TIM_ARM_TIMER_MAX_DELTA_US
  {
    RearmBound(vs, n, r);
    EarliestIsMin(vs, n);
    var e := Earliest(vs, n).value;
    var wait := Delta(e, r);
    assert 250 * wait <= 250 * (now - r);
    var j :| 0 <= j < n && HasDeadline(vs[j]) && vs[j].timer.deadline == e;
    assert now >= e ==> Delivers(vs[j], now);
  }

  /** A blocked guest that can be woken, seen at a later point of the run. */
  lemma StillAsleep(ms: seq<Machine>, ts: seq<Trap>, i: nat, n: nat)
    requires IsRun(ms, ts) && n <= |ts| && i < ms[0].sched.Guests()
    requires Asleep(ms[0].sched.vcpus[i]) && BlockedThrough(ms, i, n)
    ensures i < ms[n].sched.Guests() && HasDeadline(ms[n].sched.vcpus[i])
    ensures ms[n].sched.vcpus[i].timer == ms[0].sched.vcpus[i].timer
  {
    hide Returns, InvM, IsTimerTrap, IsSet;
    WokenExactly(ms, ts, i, n);
  }

  lemma BlockedBefore(ms: seq<Machine>, i: nat, n: nat)
    requires n > 0 && BlockedThrough(ms, i, n)
    ensures BlockedThrough(ms, i, n - 1)
  {
  }

  /** While a guest sleeps, the clock has come at least as far as the timer interrupts bring it. */
  lemma {:induction false} ClockProgress(ms: seq<Machine>, ts: seq<Trap>, r0: nat, i: nat, n: nat)
    requires IsRun(ms, ts) && n <= |ts| && ArmedFrom(ms, r0) && Clocked(ts, r0) && NeverEarly(ms, ts, r0)
    requires i < ms[0].sched.Guests() && Asleep(ms[0].sched.vcpus[i]) && BlockedThrough(ms, i, n)
    ensures ArmedAt(ms, ts, r0, n) >= r0 + Progress(ms, ts, n)
    ensures n > 0 && IsTimerTrap(ts[n - 1]) ==> ts[n - 1].now >= r0 + Progress(ms, ts, n)
    decreases n
  {
    hide Returns, Rearmed, Asleep, AnyDelivered, HasDeadline, NotBefore, Local, IsExit, IsDelay, IsAbort;
    if n > 0 {
      BlockedBefore(ms, i, n);
      ClockProgress(ms, ts, r0, i, n - 1);
      assert Returns(ms[n - 1], ts[n - 1], ms[n]);
      ArmedBefore(ms, ts, r0, n - 1);
      ArmedBefore(ms, ts, r0, n);
      if IsTimerTrap(ts[n - 1]) {
        AlwaysArmed(ms, ts, r0, n - 1);
        StillAsleep(ms, ts, i, n - 1);
        var s := ms[n - 1].sched;
        FiringAdvances(s.vcpus, s.Guests(), ArmedAt(ms, ts, r0, n - 1), ts[n - 1].now, i);
      }
    }
  }

  lemma {:induction false} LastTimerTrap(ms: seq<Machine>, ts: seq<Trap>, n: nat) returns (k: nat)
    requires n <= |ts| <= |ms| && Progress(ms, ts, n) > 0
    ensures k < n && IsTimerTrap(ts[k]) && Progress(ms, ts, k + 1) == Progress(ms, ts, n)
    decreases n
  {
    hide IsTimerTrap, DeliversAny;
    if IsTimerTrap(ts[n - 1]) {
      k := n - 1;
    } else {
      k := LastTimerTrap(ms, ts, n - 1);
    }
  }

  lemma BlockedUpTo(ms: seq<Machine>, i: nat, k: nat, n: nat)
    requires k <= n && BlockedThrough(ms, i, n)
    ensures BlockedThrough(ms, i, k)
  {
  }

  /** Far deadlines are reached, whatever other timers share the one-shot: a sleeping guest is awake once the
      timer interrupts have brought the clock from r0 to its deadline, each by a microsecond at least, and by
      the maximum delta if it delivered nothing. */
  lemma FarDeadlineReached(ms: seq<Machine>, ts: seq<Trap>, r0: nat, i: nat, n: nat)
    requires IsRun(ms, ts) && n <= |ts| && ArmedFrom(ms, r0) && Clocked(ts, r0) && NeverEarly(ms, ts, r0)
    requires i < ms[0].sched.Guests() && Asleep(ms[0].sched.vcpus[i])
    requires Progress(ms, ts, n) > 0 && r0 + Progress(ms, ts, n) >= ms[0].sched.vcpus[i].timer.deadline
    ensures !BlockedThrough(ms, i, n)
    ensures exists k :: 0 <= k < n && Due(ms[0].sched.vcpus[i], ts[k])
  {
    hide Returns, Inv, Rearmed, Progress, NeverEarly, Clocked, ArmedFrom, IsSet;
    WokenExactly(ms, ts, i, n);
    if BlockedThrough(ms, i, n) {
      var k := LastTimerTrap(ms, ts, n);
      BlockedUpTo(ms, i, k + 1, n);
      ClockProgress(ms, ts, r0, i, k + 1);
    }
  }

  /** So finitely many timer interrupts are enough, however the other guests use their timers. */
  lemma FinitelyManyInterrupts(ms: seq<Machine>, ts: seq<Trap>, r0: nat, i: nat, n: nat)
    requires IsRun(ms, ts) && n <= |ts| && ArmedFrom(ms, r0) && Clocked(ts, r0) && NeverEarly(ms, ts, r0)
    requires i < ms[0].sched.Guests() && Asleep(ms[0].sched.vcpus[i])
    requires TimerTraps(ts, n) > 0 && r0 + TimerTraps(ts, n) >= ms[0].sched.vcpus[i].timer.deadline
    ensures !BlockedThrough(ms, i, n)
  {
    hide Returns, Inv, Rearmed, Progress, TimerTraps, NeverEarly, Clocked, ArmedFrom, Asleep, BlockedThrough;
    TrapsAreProgress(ms, ts, n);
    FarDeadlineReached(ms, ts, r0, i, n);
  }

  // ----- From any point of a run -----

  /** The clock of the last rearming is the same, told from point k on. */
  lemma {:induction false} SuffixArmedAt(ms: seq<Machine>, ts: seq<Trap>, r0: nat, k: nat, n: nat)
    requires IsRun(ms, ts) && k + n <= |ts| && IsRun(ms[k..], ts[k..])
    ensures ArmedAt(ms[k..], ts[k..], ArmedAt(ms, ts, r0, k), n) == ArmedAt(ms, ts, r0, k + n)
    decreases n
  {
    hide Returns, InvM, Rearms;
    if n > 0 {
      SuffixArmedAt(ms, ts, r0, k, n - 1);
      assert Returns(ms[k + n - 1], ts[k + n - 1], ms[k + n]);
      assert ms[k..][n - 1] == ms[k + n - 1] && ts[k..][n - 1] == ts[k + n - 1];
    }
  }

  lemma SuffixClocked(ms: seq<Machine>, ts: seq<Trap>, r0: nat, k: nat)
    requires IsRun(ms, ts) && k <= |ts| && Clocked(ts, r0)
    ensures Clocked(ts[k..], ArmedAt(ms, ts, r0, k))
  {
    hide IsRun, ArmedAt;
    ArmedBefore(ms, ts, r0, k);
  }

  lemma SuffixNeverEarly(ms: seq<Machine>, ts: seq<Trap>, r0: nat, k: nat)
    requires IsRun(ms, ts) && k <= |ts| && IsRun(ms[k..], ts[k..]) && NeverEarly(ms, ts, r0)
    ensures NeverEarly(ms[k..], ts[k..], ArmedAt(ms, ts, r0, k))
  {
    hide Returns, InvM, ArmedAt, NotBefore, IsTimerTrap;
    forall n | 0 <= n < |ts[k..]| && IsTimerTrap(ts[k..][n])
      ensures NotBefore(ms[k..][n].sched.cpu.oneShot, ArmedAt(ms[k..], ts[k..], ArmedAt(ms, ts, r0, k), n),
                        ts[k..][n].now)
    {
      SuffixArmedAt(ms, ts, r0, k, n);
      assert ts[k..][n] == ts[k + n] && ms[k..][n] == ms[k + n];
    }
  }

  /** A guest that falls asleep at any point of a run is awake again after finitely many timer interrupts. */
  lemma EverySleeperWakes(ms: seq<Machine>, ts: seq<Trap>, r0: nat, i: nat, k: nat, n: nat)
    requires IsRun(ms, ts) && k + n <= |ts| && ArmedFrom(ms, r0) && Clocked(ts, r0) && NeverEarly(ms, ts, r0)
    requires i < ms[k].sched.Guests() && Asleep(ms[k].sched.vcpus[i])
    requires Progress(ms[k..], ts[k..], n) > 0
    requires ArmedAt(ms, ts, r0, k) + Progress(ms[k..], ts[k..], n) >= ms[k].sched.vcpus[i].timer.deadline
    ensures !BlockedThrough(ms[k..], i, n)
  {
    hide Returns, Rearmed, Progress, Asleep, BlockedThrough, NeverEarly, Clocked, ArmedAt;
    SuffixIsRun(ms, ts, k);
    AlwaysArmed(ms, ts, r0, k);
    SuffixClocked(ms, ts, r0, k);
    SuffixNeverEarly(ms, ts, r0, k);
    FarDeadlineReached(ms[k..], ts[k..], ArmedAt(ms, ts, r0, k), i, n);
  }

  // ----- Deadlines are not slept through -----

  lemma FiringIsPrompt(vs: seq<VcpuVal>, n: nat, r: nat, now: nat, slack: nat, i: nat)
    requires n <= |vs| && i < n && HasDeadline(vs[i]) && NotAfter(Rearmed(vs, n, r), r, now, slack)
    ensures var d := vs[i].timer.deadline;
      if r < d then 250 * (now - d) < 256 + 250 * slack else 250 * (now - r) < 506 + 250 * slack
  {
    RearmBound(vs, n, r);
    EarliestIsMin(vs, n);
  }

  /** Wake latency: a guest that still sleeps at a trap is less than one tick (and the slack of the hardware) past
      its deadline. If another handler rearmed the one-shot at or after the deadline, that holds of the
      rearming, with one more microsecond. */
  lemma NotSleptThrough(ms: seq<Machine>, ts: seq<Trap>, r0: nat, slack: nat, i: nat, n: nat)
    requires IsRun(ms, ts) && n < |ts| && ArmedFrom(ms, r0) && Prompt(ms, ts, r0, slack)
    requires i < ms[0].sched.Guests() && Asleep(ms[0].sched.vcpus[i]) && BlockedThrough(ms, i, n)
    ensures var (d, r, now) := (ms[0].sched.vcpus[i].timer.deadline, ArmedAt(ms, ts, r0, n), ts[n].now);
      if r < d then 250 * (now - d) < 256 + 250 * slack else 250 * (now - r) < 506 + 250 * slack
  {
    hide Returns, Inv, Rearmed, Asleep, BlockedThrough, NotAfter, HasDeadline;
    AlwaysArmed(ms, ts, r0, n);
    StillAsleep(ms, ts, i, n);
    var s := ms[n].sched;
    FiringIsPrompt(s.vcpus, s.Guests(), ArmedAt(ms, ts, r0, n), ts[n].now, slack, i);
  }
}
