/** vcpu.c: one virtual CPU's state, saved context and virtual timer. */
module Vcpu {
  import opened Wrappers
  import opened Bits
  import opened Cpu

  const IDLE_VCPU_ID := 0xffff_ffff
  const TIMER_TICKS_PER_SEC := 1000000

  datatype VcpuState = Idle | Runnable | Running | Blocked | Exited

  /** HvVcpuContext: vbar is kept twice, as in the source. */
  datatype Context = Context(frame: Frame, banked: Banked, vbar: Word, sysVbar: Word)

  datatype Timer = Timer(enabled: bool, deadline: nat, period: nat)

  const TIMER_OFF := Timer(false, 0, 0)

  /** HvVcpu as a value. vm is the index of the VM in the scheduler's array. */
  datatype VcpuVal = VcpuVal(id: nat, vm: Option<nat>, state: VcpuState, context: Context,
                             pending: Word, active: Word, timer: Timer)
  {
    predicate IsIdleVcpu() {
      id == IDLE_VCPU_ID
    }

    /** hv_vcpu_wake */
    function Woken(): VcpuVal {
      if state == Blocked then this.(state := Runnable) else this
    }

    /** hv_vcpu_timer_expired */
    predicate Expired(now: nat) {
      timer.enabled && now >= timer.deadline
    }

    /** hv_vcpu_timer_advance */
    function TimerAdvanced(now: nat): VcpuVal {
      this.(timer := AdvanceTimer(timer, now))
    }

    /** hv_vcpu_timer_delay */
    function Delayed(now: nat, ticks: nat): VcpuVal {
      if ticks == 0 then this
      else this.(timer := timer.(enabled := true, deadline := now + ticks), state := Blocked)
    }

    /** hv_vcpu_timer_get_frequency; the period is cut to 32 bits, and the code divides by what is left. */
    function Frequency(): nat {
      if !timer.enabled || timer.period == 0 || timer.period % 0x1_0000_0000 == 0 then 0
      else TIMER_TICKS_PER_SEC / (timer.period % 0x1_0000_0000)
    }
  }

  /** A one-shot timer goes off; a periodic one moves to its next expiry after now. */
  function AdvanceTimer(timer: Timer, now: nat): Timer {
    if !timer.enabled then timer
    else if timer.period == 0 then TIMER_OFF
    else timer.(deadline := NextDeadline(timer.deadline, timer.period, now))
  }

  /** The deadline after at least one period, and as many more as it takes to pass now. */
  function NextDeadline(deadline: nat, period: nat, now: nat): (next: nat)
    requires period > 0
    decreases now - deadline
  {
    if now >= deadline + period then NextDeadline(deadline + period, period, now) else deadline + period
  }

  /** An expired deadline moves by whole periods into (now, now + period]. */
  lemma {:induction false} NextDeadlineWindow(deadline: nat, period: nat, now: nat) returns (k: nat)
    requires period > 0 && now >= deadline
    ensures now < NextDeadline(deadline, period, now) <= now + period
    ensures k >= 1 && NextDeadline(deadline, period, now) == deadline + k * period
    decreases now - deadline
  {
    if now >= deadline + period {
      var j := NextDeadlineWindow(deadline + period, period, now);
      k := j + 1;
      assert (j + 1) * period == j * period + period;
    } else {
      k := 1;
    }
  }

  /** The frequency a guest is told: a million divided by the low 32 bits of its period, rounded down. */
  lemma FrequencyIs(v: VcpuVal)
    ensures var (p, f) := (v.timer.period % 0x1_0000_0000, v.Frequency());
      if v.timer.enabled && p != 0 then f * p <= 1_000_000 < (f + 1) * p else f == 0
  {
    var p := v.timer.period % 0x1_0000_0000;
    if v.timer.enabled && p != 0 {
      assert 1_000_000 == v.Frequency() * p + 1_000_000 % p;
    }
  }

  class HvVcpu {
    var id: nat
    var vm: Option<nat>
    var state: VcpuState
    var context: Context
    var pending: Word
    var active: Word
    var timer: Timer

    function Value(): VcpuVal
      reads this
    {
      VcpuVal(id, vm, state, context, pending, active, timer)
    }

    /** hv_vcpu_init: everything but the VM is reset. */
    method Init(id: nat, entry: Word, stackTop: Word, cpsr: Word)
      modifies this
      ensures Value() == FreshVcpu(id, old(vm), entry, stackTop, cpsr)
    {
      this.id := id;
      state := Runnable;
      pending, active := 0, 0;
      timer := TIMER_OFF;
      context := FreshContext(entry, stackTop, cpsr);
    }

    method Block()
      modifies this`state
      ensures state == Blocked
    {
      state := Blocked;
    }

    method Wake()
      modifies this`state
      ensures Value() == old(Value()).Woken()
    {
      if state == Blocked {
        state := Runnable;
      }
    }

    method TimerStartPeriodic(now: nat, period: nat)
      modifies this`timer
      ensures timer == if period == 0 then old(timer) else Timer(true, now + period, period)
    {
      if period == 0 {
        return;
      }
      timer := Timer(true, now + period, period);
    }

    method TimerDisable()
      modifies this`timer
      ensures timer == TIMER_OFF
    {
      timer := TIMER_OFF;
    }

    method TimerExpired(now: nat) returns (expired: bool)
      ensures expired == Value().Expired(now)
    {
      return timer.enabled && now >= timer.deadline;
    }

    /** hv_vcpu_timer_advance: terminates because a period is added each time round, and never holds a
        deadline beyond now + period on the way. */
    method TimerAdvance(now: nat)
      modifies this`timer
      ensures Value() == old(Value()).TimerAdvanced(now)
    {
      if !timer.enabled {
        return;
      }
      if timer.period == 0 {
        TimerDisable();
        return;
      }
      ghost var first := timer;
      timer := timer.(deadline := timer.deadline + timer.period);
      while now >= timer.deadline
        invariant timer == first.(deadline := timer.deadline) && timer.period > 0
        invariant timer.deadline <= first.deadline + first.period || timer.deadline <= now + timer.period
        invariant NextDeadline(first.deadline, first.period, now) ==
          if now >= timer.deadline then NextDeadline(timer.deadline, timer.period, now) else timer.deadline
        decreases now - timer.deadline
      {
        timer := timer.(deadline := timer.deadline + timer.period);
      }
    }

    method TimerDelay(now: nat, ticks: nat)
      modifies this`timer, this`state
      ensures Value() == old(Value()).Delayed(now, ticks)
    {
      if ticks == 0 {
        return;
      }
      timer := timer.(enabled := true, deadline := now + ticks);
      Block();
    }

    /** hv_vcpu_save */
    method Save(cpu: Cpu)
      modifies this`context
      ensures context == Context(cpu.frame, cpu.banked, cpu.vbar, cpu.vbar)
    {
      context := context.(frame := cpu.frame);
      context := context.(banked := cpu.banked);
      context := context.(vbar := cpu.vbar);
      context := context.(sysVbar := context.vbar);
    }

    /** hv_vcpu_load */
    method Load(cpu: Cpu)
      modifies this`context, cpu`frame, cpu`banked, cpu`vbar
      ensures context == old(context).(vbar := old(context).sysVbar)
      ensures cpu.frame == context.frame && cpu.banked == context.banked && cpu.vbar == context.sysVbar
    {
      cpu.banked := context.banked;
      context := context.(vbar := context.sysVbar);
      cpu.vbar := context.sysVbar;
      cpu.frame := context.frame;
    }
  }

  const NO_REGS: Regs := [0, 0, 0, 0, 0, 0, 0, 0, 0, 0, 0, 0, 0]

  function FreshContext(entry: Word, stackTop: Word, cpsr: Word): Context {
    Context(Frame(NO_REGS[0 := stackTop], 0, 0, entry, cpsr, 0, 0, 0, 0),
            Banked(stackTop, stackTop, 0, 0, 0, 0, 0), 0, 0)
  }

  function FreshVcpu(id: nat, vm: Option<nat>, entry: Word, stackTop: Word, cpsr: Word): VcpuVal {
    VcpuVal(id, vm, Runnable, FreshContext(entry, stackTop, cpsr), 0, 0, TIMER_OFF)
  }
}
