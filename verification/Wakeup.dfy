/** Virtual timers over whole runs: which blocked guests are woken, and when. */
module Wakeup {
  import opened Wrappers
  import opened Bits
  import opened Cpu
  import opened Mmio
  import opened Vcpu
  import opened Virq
  import opened Timers
  import opened SchedulerSpec
  import opened Rescheduling
  import opened Handlers
  import opened Steps
  import opened Traps
  import opened Runs
  import opened TrapEffects

  /** A guest that does not run now, after a trap of another vCPU. */
  function Bystander(m: Machine, t: Trap, i: nat): VcpuVal
    requires i < |m.sched.vcpus|
  {
    if IsTimerTrap(t) then DeliverOne(m.sched.vcpus[i], t.now) else m.sched.vcpus[i]
  }

  /** v' has the timer and the interrupts of v, and its state unless it was woken and may now run. */
  predicate Became(v: VcpuVal, v': VcpuVal) {
    v'.timer == v.timer && v'.pending == v.pending && v'.active == v.active &&
    if v.state in {Runnable, Running} then v'.state in {Runnable, Running} else v'.state == v.state
  }

  lemma StepOther(m: Machine, t: Trap, m': Machine, i: nat)
    requires InvM(m) && Returns(m, t, m') && i < m.sched.Guests() && i != m.sched.cur
    ensures |m'.sched.vcpus| == |m.sched.vcpus| && Became(Bystander(m, t, i), m'.sched.vcpus[i])
  {
    hide Local, Step, Possible, IsTimerTrap, DeliverOne, Ready, FlagsOk, NoneRunnable, RegsOf;
    StepInv(m, t);
    LocalOthers(m, t, i);
    LocalIdIsKept(m, t, i);
  }

  lemma LocalIdIsKept(m: Machine, t: Trap, i: nat)
    requires InvM(m) && Possible(m, t) && Local(m, t).1 != Halt && i < m.sched.Guests()
    ensures !Local(m, t).0.sched.vcpus[i].IsIdleVcpu()
  {
    hide Local, FlagsOk, NoneRunnable, Virq.Disjoint;
    LocalPrepared(m, t);
    assert VcpuOk(Local(m, t).0.sched.vcpus[i], i, m.sched.Guests());
  }

  lemma NotRunning(m: Machine, i: nat)
    requires InvM(m) && i < m.sched.Guests() && m.sched.vcpus[i].state != Running
    ensures i != m.sched.cur
  {
  }

  // ----- Exited guests -----

  /** EXITED is never left. */
  lemma {:induction false} ExitedForever(ms: seq<Machine>, ts: seq<Trap>, i: nat, n: nat)
    requires IsRun(ms, ts) && n <= |ts| && i < ms[0].sched.Guests() && ms[0].sched.vcpus[i].state == Exited
    ensures i < ms[n].sched.Guests() && ms[n].sched.vcpus[i].state == Exited
    decreases n
  {
    hide InvM, Returns, IsTimerTrap;
    if n > 0 {
      ExitedForever(ms, ts, i, n - 1);
      RunInv(ms, ts, n - 1);
      assert Returns(ms[n - 1], ts[n - 1], ms[n]);
      NotRunning(ms[n - 1], i);
      StepOther(ms[n - 1], ts[n - 1], ms[n], i);
    }
  }

  // ----- Blocked guests -----

  /** Whether the timer's interrupt is already pending or being handled. */
  predicate TimerBusy(v: VcpuVal) {
    IsSet(v.pending, VIRQ_TIMER) || IsSet(v.active, VIRQ_TIMER)
  }

  /** A blocked guest that its timer can wake. */
  predicate Asleep(v: VcpuVal) {
    v.state == Blocked && v.timer.enabled && !TimerBusy(v)
  }

  /** A blocked guest that nothing will wake. */
  predicate Stuck(v: VcpuVal) {
    v.state == Blocked && (!v.timer.enabled || TimerBusy(v))
  }

  /** Whether trap t is a timer interrupt at or past v's deadline. */
  predicate Due(v: VcpuVal, t: Trap) {
    IsTimerTrap(t) && t.now >= v.timer.deadline
  }

  lemma DeliverBlocked(v: VcpuVal, now: nat)
    requires v.state == Blocked
    ensures var w := DeliverOne(v, now);
      (Stuck(v) ==> Stuck(w)) &&
      (Asleep(v) ==> if now >= v.timer.deadline then w.state == Runnable else w == v)
  {
    hide SetBit, NextDeadline;
  }

  /** One trap of another vCPU, seen by a blocked guest. */
  lemma StepBlocked(m: Machine, t: Trap, m': Machine, i: nat)
    requires InvM(m) && Returns(m, t, m') && i < m.sched.Guests() && m.sched.vcpus[i].state == Blocked
    ensures |m'.sched.vcpus| == |m.sched.vcpus|
    ensures var (v, v') := (m.sched.vcpus[i], m'.sched.vcpus[i]);
      if Stuck(v) then Stuck(v')
      else if Due(v, t) then v'.state in {Runnable, Running}
      else Asleep(v') && v'.timer == v.timer
  {
    hide InvM, Returns, IsSet, DeliverOne;
    NotRunning(m, i);
    StepOther(m, t, m', i);
    DeliverBlocked(m.sched.vcpus[i], t.now);
  }

  /** The first n traps leave guest i blocked. */
  ghost predicate BlockedThrough(ms: seq<Machine>, i: nat, n: nat) {
    n < |ms| && forall k :: 0 <= k <= n ==> i < |ms[k].sched.vcpus| && ms[k].sched.vcpus[i].state == Blocked
  }

  /** No lost wakeup, exactly: a blocked guest is woken by the first timer interrupt at or past its deadline
      if, when it blocked, its timer was enabled and VIRQ_TIMER neither pending nor active. Otherwise
      nothing ever wakes it. */
  lemma {:induction false} WokenExactly(ms: seq<Machine>, ts: seq<Trap>, i: nat, n: nat)
    requires IsRun(ms, ts) && n <= |ts| && i < ms[0].sched.Guests() && ms[0].sched.vcpus[i].state == Blocked
    ensures var v := ms[0].sched.vcpus[i];
      BlockedThrough(ms, i, n) <==> Stuck(v) || forall k :: 0 <= k < n ==> !Due(v, ts[k])
    ensures BlockedThrough(ms, i, n) ==> i < ms[n].sched.Guests()
    ensures BlockedThrough(ms, i, n) ==>
      var (v, v') := (ms[0].sched.vcpus[i], ms[n].sched.vcpus[i]);
      if Stuck(v) then Stuck(v') else Asleep(v') && v'.timer == v.timer
    decreases n
  {
    hide InvM, Returns, IsTimerTrap, IsSet;
    if n > 0 {
      WokenExactly(ms, ts, i, n - 1);
      if BlockedThrough(ms, i, n - 1) {
        RunInv(ms, ts, n - 1);
        assert Returns(ms[n - 1], ts[n - 1], ms[n]);
        StepBlocked(ms[n - 1], ts[n - 1], ms[n], i);
      }
    }
  }

  lemma LocalBlocks(m: Machine, t: Trap)
    requires InvM(m) && m.sched.cur < m.sched.Guests() && (IsDelay(t) || (IsWfi(t) && m.Current().pending == 0))
    ensures var v, w := m.Current(), Local(m, t).0.Current();
      Local(m, t).1 == ToAdvance && w == v.(state := Blocked, timer := w.timer) &&
      w.timer == if IsDelay(t) then v.timer.(enabled := true, deadline := t.now + t.frame.r[1]) else v.timer
  {
    hide With, HsrEc, HsrIss, And, Rearmed, FlagsOk, NoneRunnable, Virq.Disjoint;
    NotIdle(m.sched);
  }

  /** A delay always blocks the guest, and a wait exactly if no interrupt is pending. One that delays is woken at its
      deadline exactly if VIRQ_TIMER is neither pending nor active when it asks; one that waits, exactly if its timer
      is enabled and VIRQ_TIMER not active. */
  lemma BlocksSafelyIff(m: Machine, t: Trap, m': Machine)
    requires InvM(m) && Returns(m, t, m') && m.sched.cur < m.sched.Guests() && (IsDelay(t) || IsWfi(t))
    ensures |m'.sched.vcpus| == |m.sched.vcpus|
    ensures var (v, v') := (m.Current(), m'.sched.vcpus[m.sched.cur]);
      (v'.state == Blocked <==> IsDelay(t) || v.pending == 0) &&
      (v'.state == Blocked ==> (Asleep(v') <==> !TimerBusy(v) && (IsDelay(t) || v.timer.enabled))) &&
      v'.timer == if IsDelay(t) then Timer(true, t.now + t.frame.r[1], v.timer.period) else v.timer
  {
    hide Local, Step, Possible, IsSet, HsrEc, HsrIss, And, FlagsOk, NoneRunnable, Virq.Disjoint, RegsOf;
    if IsDelay(t) || m.Current().pending == 0 {
      StepInv(m, t);
      LocalBlocks(m, t);
      LocalIdIsKept(m, t, m.sched.cur);
    } else {
      WfiWaits(m, t, m');
    }
  }

  // ----- The timer interrupt -----

  /** Every guest, running or not, after a timer interrupt. */
  lemma TimerStep(m: Machine, t: Trap, m': Machine, i: nat)
    requires InvM(m) && Returns(m, t, m') && IsTimerTrap(t) && i < m.sched.Guests()
    ensures |m'.sched.vcpus| == |m.sched.vcpus| && Became(DeliverOne(m.sched.vcpus[i], t.now), m'.sched.vcpus[i])
  {
    hide Local, Step, Possible, DeliverOne, Ready, FlagsOk, NoneRunnable, RegsOf;
    StepInv(m, t);
    if i != m.sched.cur {
      StepOther(m, t, m', i);
    } else {
      NotIdle(m.sched);
      LocalTimer(m, t);
    }
  }

  /** The timer interrupt serves every guest. One whose timer has reached its deadline finds the timer off, if it was a
      one-shot, or else moved by whole periods into the next period from now; its line 0 is pending unless it was
      being handled, and if it was blocked it may run again exactly if line 0 is new. Every other guest finds its timer
      and its interrupts as they were, and is not woken. */
  lemma TimersServed(m: Machine, t: Trap, m': Machine, i: nat)
    requires InvM(m) && Returns(m, t, m') && IsTimerTrap(t) && i < m.sched.Guests()
    ensures |m'.sched.vcpus| == |m.sched.vcpus|
    ensures var (v, v') := (m.sched.vcpus[i], m'.sched.vcpus[i]);
      var isNew := 0 !in Lines(v.pending) && 0 !in Lines(v.active);
      v'.active == v.active &&
      if HasExpired(v, t.now) then
        Rolled(v.timer, v'.timer, t.now) && Lines(v'.pending) == Lines(v.pending) + (if isNew then {0} else {}) &&
        (v.state == Blocked ==> v'.state in {Blocked, Runnable, Running} && (v'.state == Blocked <==> !isNew))
      else v'.timer == v.timer && v'.pending == v.pending && (v.state == Blocked ==> v'.state == Blocked)
  {
    hide InvM, Returns, IsTimerTrap, DeliverOne, Rolled, Lines;
    TimerStep(m, t, m', i);
    DeliveryIs(m.sched.vcpus[i], t.now);
  }

  lemma LocalTimer(m: Machine, t: Trap)
    requires m.Shape() && IsTimerTrap(t) && m.sched.cur < m.sched.Guests() && !m.Current().IsIdleVcpu()
    ensures Local(m, t).1 == Resume && Local(m, t).0.Current() == DeliverOne(m.Current(), t.now)
  {
    hide With, DeliverOne, Rearmed;
  }

  /** After a timer interrupt no guest has an expired timer, and each timer that had expired is pending or
      being handled. */
  lemma NothingExpired(m: Machine, t: Trap, m': Machine, i: nat)
    requires InvM(m) && Returns(m, t, m') && IsTimerTrap(t) && i < m.sched.Guests()
    ensures |m'.sched.vcpus| == |m.sched.vcpus| && !HasExpired(m'.sched.vcpus[i], t.now)
    ensures HasExpired(m.sched.vcpus[i], t.now) ==> TimerBusy(m'.sched.vcpus[i])
  {
    hide InvM, Returns, IsTimerTrap, DeliverOne, IsSet;
    TimerStep(m, t, m', i);
    DeliveryLeavesNothing(m.sched.vcpus[i], t.now);
  }

  // ----- The lost wakeup -----

  lemma SuffixIsRun(ms: seq<Machine>, ts: seq<Trap>, k: nat)
    requires IsRun(ms, ts) && k <= |ts|
    ensures IsRun(ms[k..], ts[k..])
  {
    hide InvM, Returns;
    RunInv(ms, ts, k);
    forall j | 0 <= j < |ts[k..]|
      ensures Returns(ms[k..][j], ts[k..][j], ms[k..][j + 1])
    {
      assert Returns(ms[k + j], ts[k + j], ms[k + j + 1]);
    }
  }

  /** A guest whose timer goes off just before it asks for a delay is never woken: the interrupt it has not
      claimed makes every later one BUSY, and that branch does not wake. */
  lemma DelayAfterTickHangs(ms: seq<Machine>, ts: seq<Trap>, i: nat, n: nat)
    requires IsRun(ms, ts) && 2 <= n <= |ts| && ms[0].sched.cur == i < ms[0].sched.Guests()
    requires ms[0].sched.vcpus[i].timer.enabled && Due(ms[0].sched.vcpus[i], ts[0]) && IsDelay(ts[1])
    ensures BlockedThrough(ms[2..], i, n - 2)
  {
    hide InvM, Returns, IsTimerTrap, DeliverOne, TimerBusy, IsDelay;
    assert Returns(ms[0], ts[0], ms[1]) && Returns(ms[1], ts[1], ms[2]);
    RunInv(ms, ts, 0);
    RunInv(ms, ts, 1);
    RunningIsEligible(ms[0], ts[0]);
    NothingExpired(ms[0], ts[0], ms[1], i);
    TimerKeepsCurrent(ms[0], ts[0], ms[1]);
    BlocksSafelyIff(ms[1], ts[1], ms[2]);
    SuffixIsRun(ms, ts, 2);
    WokenExactly(ms[2..], ts[2..], i, n - 2);
  }

  lemma RunningIsEligible(m: Machine, t: Trap)
    requires InvM(m) && m.sched.cur < m.sched.Guests() && m.Current().timer.enabled && Due(m.Current(), t)
    ensures HasExpired(m.Current(), t.now)
  {
  }

  lemma TimerKeepsCurrent(m: Machine, t: Trap, m': Machine)
    requires InvM(m) && Returns(m, t, m') && IsTimerTrap(t) && m.sched.cur < m.sched.Guests()
    ensures m'.sched.cur == m.sched.cur
  {
    hide Local, Possible, FlagsOk, NoneRunnable, VcpuOk, Advance, Yield, EnterIdle;
    NotIdle(m.sched);
    LocalTimer(m, t);
    StepInv(m, t);
  }

  // ----- A run that loses its wakeup -----

  /** An HVC trap, as its syndrome has it. */
  const HVC_SYNDROME: Word := 0x4800_0000

  lemma HvcFields()
    ensures HsrEc(HVC_SYNDROME) == EC_HVC_A32 && HsrIss(HVC_SYNDROME) == 0 && And(0, 0xffff) == 0
  {
    hide HsrEc, HsrIss;
    HsrFields(HVC_SYNDROME, EC_HVC_A32, 0, 0);
  }

  /** The timer interrupt at clock now, found by any guest. */
  function TickTrap(f: Frame, b: Banked, now: Word): Trap {
    Trap(f.(exceptionType := EXCEPTION_IRQ), b, 0, [], now, now, false, true)
  }

  /** A delay of one tick. */
  function DelayTrap(f: Frame, b: Banked, now: Word): Trap {
    Trap(f.(r := f.r[0 := CALL_TIMER_DELAY_TICKS][1 := 1], hsr := HVC_SYNDROME, exceptionType := EXCEPTION_LOWER_SYNC),
         b, 0, [], now, now, false, false)
  }

  /** The lost wakeup happens, from the boot sequence on: the first tick comes while guest 0 runs, and guest 0 asks
      for a delay before it claims the tick. */
  lemma LostWakeupRun(m: Machine, f: Frame, b: Banked) returns (ms: seq<Machine>, ts: seq<Trap>)
    requires InvM(m) && m.sched.cur < m.sched.Guests() && m.Current().timer.enabled
    requires m.Current().timer.deadline <= 0xffff_ffff
    ensures IsRun(ms, ts) && |ts| == 2 && ms[0] == m && Due(m.Current(), ts[0]) && IsDelay(ts[1])
    ensures m.sched.cur < |ms[2].sched.vcpus| && Stuck(ms[2].sched.vcpus[m.sched.cur])
  {
    hide InvM, Step, Local, HsrEc, HsrIss, And, IsSet;
    HvcFields();
    RunningGuest(m);
    var d := m.Current().timer.deadline;
    var t0, t1 := TickTrap(f, b, d), DelayTrap(f, b, d);
    LocalTimer(m, t0);
    var m1 := Step(m, t0);
    StepInv(m, t0);
    assert Returns(m, t0, m1);
    TimerKeepsCurrent(m, t0, m1);
    RunningIsEligible(m, t0);
    NothingExpired(m, t0, m1, m.sched.cur);
    RunningGuest(m1);
    LocalBlocks(m1, t1);
    var m2 := Step(m1, t1);
    assert Returns(m1, t1, m2);
    BlocksSafelyIff(m1, t1, m2);
    ms, ts := [m, m1, m2], [t0, t1];
  }

  lemma RunningGuest(m: Machine)
    requires InvM(m) && m.sched.cur < m.sched.Guests()
    ensures m.Shape() && !m.Current().IsIdleVcpu() && m.sched.cur < |m.sched.vcpus|
  {
    hide FlagsOk, NoneRunnable;
    NotIdle(m.sched);
  }

  /** Such a run starts at boot. */
  lemma LostWakeupAtBoot(n: nat, cpsr: Word, idleEntry: Word, idleStack: Word, now: nat, period: nat,
                         vms: seq<VmVal>, cpu: CpuVal, later: nat, line: Vuart.Line)
    returns (ms: seq<Machine>, ts: seq<Trap>)
    requires 1 <= n < IDLE_VCPU_ID && period > 0 && |vms| == n && !Has(cpu.hcr, HCR_VI) && now + period <= 0xffff_ffff
    ensures IsRun(ms, ts) && |ts| == 2
    ensures ms[0] == Boot(BootVcpus(n, cpsr, idleEntry, idleStack, now, period), vms, cpu, later, line)
    ensures |ms[2].sched.vcpus| > 0 && Stuck(ms[2].sched.vcpus[0])
  {
    hide Has, With, Rearmed, InvM, IsRun, Stuck, FreshContext;
    var vs := BootVcpus(n, cpsr, idleEntry, idleStack, now, period);
    var m := Boot(vs, vms, cpu, later, line);
    BootInv(n, cpsr, idleEntry, idleStack, now, period, vms, cpu, later, line);
    assert m.Current() == GuestAtBoot(0, cpsr, now, period);
    ms, ts := LostWakeupRun(m, m.Frame(), m.sched.cpu.banked);
  }
}
