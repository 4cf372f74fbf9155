/** Many virtual timers on one physical one-shot: TIM_Arm_Usec, hv_vtimer_rearm_physical and
    deliver_expired_timers. */
module Timers {
  import opened Wrappers
  import opened Bits
  import opened Cpu
  import opened Vcpu
  import opened Virq

  const TIM_ARM_TIMER_CLOCK_MHZ := 250
  const TIM_ARM_TIMER_PRESCALE := 256
  const TIM_LOAD_MAX := 0x7f_ffff
  const TIM_ARM_TIMER_MAX_DELTA_US := TIM_LOAD_MAX * TIM_ARM_TIMER_PRESCALE / TIM_ARM_TIMER_CLOCK_MHZ

  // ----- The one-shot -----

  /** The tick count TIM_Arm_Usec loads. */
  function Ticks(deltaUs: nat): nat {
    var ticks := Shr(deltaUs * TIM_ARM_TIMER_CLOCK_MHZ + TIM_ARM_TIMER_PRESCALE - 1, 8);
    if ticks == 0 then 1 else if ticks > TIM_LOAD_MAX then TIM_LOAD_MAX else ticks
  }

  method ArmUsec(deltaUs: nat, cpu: Cpu)
    modifies cpu`oneShot
    ensures cpu.oneShot == Armed(Ticks(deltaUs))
  {
    var timerTicks := Shr(deltaUs * TIM_ARM_TIMER_CLOCK_MHZ + TIM_ARM_TIMER_PRESCALE - 1, 8);
    if timerTicks == 0 {
      timerTicks := 1;
    } else if timerTicks > TIM_LOAD_MAX {
      timerTicks := TIM_LOAD_MAX;
    }
    cpu.oneShot := Disarmed;
    cpu.oneShot := Armed(timerTicks);
  }

  /** A tick is 256/250 microseconds. Up to the maximum delta the load is never early and under one tick
      late; beyond it the counter's 23 bits make any load early. */
  lemma TicksBound(deltaUs: nat)
    requires deltaUs >= 1
    ensures 1 <= Ticks(deltaUs) <= TIM_LOAD_MAX
    ensures 256 * Ticks(deltaUs) < 250 * deltaUs + 256
    ensures 250 * deltaUs <= 256 * Ticks(deltaUs) <==> deltaUs <= TIM_ARM_TIMER_MAX_DELTA_US
  {
    Shr8(deltaUs * TIM_ARM_TIMER_CLOCK_MHZ + TIM_ARM_TIMER_PRESCALE - 1);
  }

  // ----- The earliest deadline -----

  predicate Eligible(v: VcpuVal) {
    v.state != Idle && v.state != Exited
  }

  predicate HasDeadline(v: VcpuVal) {
    Eligible(v) && v.timer.enabled
  }

  /** The earliest deadline among the first n vCPUs, as the scan accumulates it. */
  function Earliest(vs: seq<VcpuVal>, n: nat): Option<nat>
    requires n <= |vs|
  {
    if n == 0 then None
    else
      var before := Earliest(vs, n - 1);
      if !HasDeadline(vs[n - 1]) then before
      else if before.None? || vs[n - 1].timer.deadline < before.value then Some(vs[n - 1].timer.deadline)
      else before
  }

  /** The scan finds the minimum, and nothing only if there is nothing. */
  lemma {:induction false} EarliestIsMin(vs: seq<VcpuVal>, n: nat)
    requires n <= |vs|
    ensures Earliest(vs, n).None? <==> forall i :: 0 <= i < n ==> !HasDeadline(vs[i])
    ensures Earliest(vs, n).Some? ==>
      (exists i :: 0 <= i < n && HasDeadline(vs[i]) && vs[i].timer.deadline == Earliest(vs, n).value) &&
      forall i :: 0 <= i < n && HasDeadline(vs[i]) ==> Earliest(vs, n).value <= vs[i].timer.deadline
  {
    if n > 0 {
      EarliestIsMin(vs, n - 1);
    }
  }

  /** How long hv_vtimer_rearm_physical waits for a deadline. */
  function Delta(earliest: nat, now: nat): nat {
    var delta := if earliest > now then earliest - now else 1;
    if delta > TIM_ARM_TIMER_MAX_DELTA_US then TIM_ARM_TIMER_MAX_DELTA_US else delta
  }

  function Rearmed(vs: seq<VcpuVal>, n: nat, now: nat): OneShot
    requires n <= |vs|
  {
    match Earliest(vs, n)
    case None => Disarmed
    case Some(earliest) => Armed(Ticks(Delta(earliest, now)))
  }

  /** One-shot multiplexing: if any eligible timer is enabled, the one-shot is armed for the earliest
      deadline or the maximum delta, whichever comes first; never early, and under one tick late. */
  lemma RearmBound(vs: seq<VcpuVal>, n: nat, now: nat)
    requires n <= |vs|
    ensures Rearmed(vs, n, now).Disarmed? <==> forall i :: 0 <= i < n ==> !HasDeadline(vs[i])
    ensures forall i :: 0 <= i < n ==>
      (HasDeadline(vs[i]) <==> vs[i].timer.enabled && vs[i].state in {Runnable, Running, Blocked})
    ensures Rearmed(vs, n, now).Armed? ==>
      var (t, wait) := (Rearmed(vs, n, now).ticks, Delta(Earliest(vs, n).value, now));
      1 <= t <= TIM_LOAD_MAX && 250 * wait <= 256 * t < 250 * wait + 256 &&
      (forall i :: 0 <= i < n && HasDeadline(vs[i]) && vs[i].timer.deadline > now ==>
        now + wait <= vs[i].timer.deadline) &&
      (wait == TIM_ARM_TIMER_MAX_DELTA_US || wait == 1 ||
       exists i :: 0 <= i < n && HasDeadline(vs[i]) && vs[i].timer.deadline == now + wait)
  {
    EarliestIsMin(vs, n);
    if Earliest(vs, n).Some? {
      TicksBound(Delta(Earliest(vs, n).value, now));
    }
  }

  // ----- Delivery -----

  /** One turn of deliver_expired_timers for one vCPU. */
  function DeliverOne(v: VcpuVal, now: nat): VcpuVal {
    if !Eligible(v) || !v.Expired(now) then v else RaiseOn(v, VIRQ_TIMER).TimerAdvanced(now)
  }

  predicate Delivers(v: VcpuVal, now: nat) {
    Eligible(v) && v.Expired(now)
  }

  /** The first n vCPUs after their turn. */
  function Delivered(vs: seq<VcpuVal>, n: nat, now: nat): (r: seq<VcpuVal>)
    requires n <= |vs|
    ensures |r| == |vs|
  {
    seq(|vs|, i requires 0 <= i < |vs| => if i < n then DeliverOne(vs[i], now) else vs[i])
  }

  predicate AnyDelivered(vs: seq<VcpuVal>, n: nat, now: nat)
    requires n <= |vs|
  {
    exists i :: 0 <= i < n && Delivers(vs[i], now)
  }

  /** What becomes of an expired timer: a one-shot is off; a periodic one stays on with its period, and its
      deadline has moved by whole periods into (now, now + period]. */
  ghost predicate Rolled(timer: Timer, t: Timer, now: nat) {
    if timer.period == 0 then !t.enabled
    else
      t.enabled && t.period == timer.period && now < t.deadline <= now + timer.period &&
      exists k: nat {:trigger k * timer.period} :: k >= 1 && t.deadline == timer.deadline + k * timer.period
  }

  lemma AdvancePassesNow(timer: Timer, now: nat)
    requires timer.enabled && now >= timer.deadline
    ensures Rolled(timer, AdvanceTimer(timer, now), now)
  {
    if timer.period > 0 {
      var k := NextDeadlineWindow(timer.deadline, timer.period, now);
      assert k * timer.period == k * timer.period;
    }
  }

  /** Whether v is a guest that runs or may run again and whose timer has reached its deadline. */
  predicate HasExpired(v: VcpuVal, now: nat) {
    v.state in {Runnable, Running, Blocked} && v.timer.enabled && v.timer.deadline <= now
  }

  /** What delivery makes of v: an expired timer moves on and its interrupt, line 0, is pending unless it is being
      handled; a blocked vCPU is woken only if the interrupt is new. Without an expired timer v is left alone. */
  ghost predicate GotDelivery(v: VcpuVal, w: VcpuVal, now: nat) {
    var isNew := 0 !in Lines(v.pending) && 0 !in Lines(v.active);
    if HasExpired(v, now) then
      Rolled(v.timer, w.timer, now) && w == v.(timer := w.timer, pending := w.pending, state := w.state) &&
      Lines(w.pending) == Lines(v.pending) + (if isNew then {0} else {}) &&
      w.state == if isNew && v.state == Blocked then Runnable else v.state
    else w == v
  }

  lemma DeliveryIs(v: VcpuVal, now: nat)
    ensures GotDelivery(v, DeliverOne(v, now), now)
  {
    hide IsSet, SetBit, Rolled;
    if Delivers(v, now) {
      AdvancePassesNow(v.timer, now);
      SetLines(v.pending, VIRQ_TIMER);
    }
  }

  /** Delivery leaves nothing expired, and every timer that had expired is pending or being handled. */
  lemma DeliveryLeavesNothing(v: VcpuVal, now: nat)
    ensures !HasExpired(DeliverOne(v, now), now)
    ensures HasExpired(v, now) ==> var w := DeliverOne(v, now);
      Rolled(v.timer, w.timer, now) && (IsSet(w.pending, VIRQ_TIMER) || IsSet(w.active, VIRQ_TIMER))
  {
    hide IsSet, DeliverOne;
    DeliveryIs(v, now);
  }
}
