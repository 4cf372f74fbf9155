/** Virtual interrupts over whole runs: every bitmap changes only by raises, claims and completions. */
module Interrupts {
  import opened Wrappers
  import opened Bits
  import opened Cpu
  import opened Mmio
  import opened Vcpu
  import opened Virq
  import opened Timers
  import opened SchedulerSpec
  import opened Rescheduling
  import opened Handlers
  import opened Steps
  import opened Traps
  import opened Runs
  import opened Wakeup

  /** The one thing trap t does to the interrupts of vCPU i, if anything. */
  function OpsOf(m: Machine, t: Trap, i: nat): seq<Virq.Op>
    requires i < |m.sched.vcpus|
  {
    if IsTimerTrap(t) && i < m.sched.Guests() && HasExpired(m.sched.vcpus[i], t.now) then [RaiseOp(0)]
    else if i == m.sched.cur && IsHvc(t, 7) then [ClaimOp]
    else if i == m.sched.cur && IsHvc(t, 8) then [CompleteOp(t.frame.r[1])]
    else []
  }

  predicate SameBits(v: VcpuVal, w: VcpuVal) {
    v.pending == w.pending && v.active == w.active
  }

  lemma ApplyOne(v: VcpuVal, op: Virq.Op)
    ensures ApplyAll(v, [op]) == Virq.Apply(v, op)
  {
    hide Virq.Apply;
    assert [op][..0] == [];
    assert ApplyAll(v, []) == v;
  }

  lemma DeliverIsRaise(v: VcpuVal, now: nat)
    ensures SameBits(DeliverOne(v, now), if Delivers(v, now) then RaiseOn(v, VIRQ_TIMER) else v)
  {
    hide RaiseOn;
  }

  lemma LocalBits(m: Machine, t: Trap)
    requires InvM(m) && Possible(m, t) && Local(m, t).1 != Halt
    ensures SameBits(Local(m, t).0.Current(), ApplyAll(m.Current(), OpsOf(m, t, m.sched.cur)))
  {
    hide With, HsrEc, HsrIss, And, HandleFault, DecodeFault, FlagsOk, NoneRunnable, Virq.Disjoint, Rearmed, DeliverOne;
    hide VcpuVal.Frequency, ClaimOn, CompleteOn, CompleteResultOf, RaiseOn, AnyDelivered, Frame.Advanced;
    IdleIsLast(m.sched);
    DeliverIsRaise(m.Current(), t.now);
    ApplyOne(m.Current(), ClaimOp);
    ApplyOne(m.Current(), CompleteOp(t.frame.r[1]));
    ApplyOne(m.Current(), RaiseOp(VIRQ_TIMER));
  }

  lemma StepBits(m: Machine, t: Trap, m': Machine, i: nat)
    requires InvM(m) && Returns(m, t, m') && i < |m.sched.vcpus|
    ensures |m'.sched.vcpus| == |m.sched.vcpus|
    ensures SameBits(m'.sched.vcpus[i], ApplyAll(m.sched.vcpus[i], OpsOf(m, t, i)))
  {
    hide Local, Possible, FlagsOk, NoneRunnable, VcpuOk, Advance, Yield, EnterIdle, DeliverOne, RaiseOn;
    hide RegsOf;
    StepInv(m, t);
    LocalBits(m, t);
    if i != m.sched.cur {
      LocalOthers(m, t, i);
      DeliverIsRaise(m.sched.vcpus[i], t.now);
      ApplyOne(m.sched.vcpus[i], RaiseOp(VIRQ_TIMER));
    }
  }

  // ----- Runs -----

  /** Everything the first n traps do to the interrupts of vCPU i, in order. */
  ghost function RunOps(ms: seq<Machine>, ts: seq<Trap>, i: nat, n: nat): seq<Virq.Op>
    requires n <= |ts| < |ms|
  {
    if n == 0 then []
    else RunOps(ms, ts, i, n - 1) + if i < |ms[n - 1].sched.vcpus| then OpsOf(ms[n - 1], ts[n - 1], i) else []
  }

  lemma BitsDecide(v: VcpuVal, w: VcpuVal, op: Virq.Op)
    requires SameBits(v, w)
    ensures SameBits(Virq.Apply(v, op), Virq.Apply(w, op))
  {
    hide SetBit, ClearBit, IsSet, LowestFrom;
  }

  lemma {:induction false} ApplyMore(v: VcpuVal, w: VcpuVal, ops: seq<Virq.Op>, more: seq<Virq.Op>)
    requires |more| <= 1 && SameBits(ApplyAll(v, ops), w)
    ensures SameBits(ApplyAll(v, ops + more), ApplyAll(w, more))
  {
    hide Virq.Apply;
    if more == [] {
      assert ops + more == ops;
    } else {
      assert (ops + more)[..|ops + more| - 1] == ops;
      assert more == [more[0]];
      ApplyOne(w, more[0]);
      BitsDecide(ApplyAll(v, ops), w, more[0]);
    }
  }

  lemma {:induction false} RunBits(ms: seq<Machine>, ts: seq<Trap>, i: nat, n: nat)
    requires IsRun(ms, ts) && n <= |ts| && i < |ms[0].sched.vcpus|
    ensures i < |ms[n].sched.vcpus|
    ensures SameBits(ms[n].sched.vcpus[i], ApplyAll(ms[0].sched.vcpus[i], RunOps(ms, ts, i, n)))
    decreases n
  {
    hide InvM, Returns, OpsOf;
    if n > 0 {
      RunBits(ms, ts, i, n - 1);
      RunInv(ms, ts, n - 1);
      assert Returns(ms[n - 1], ts[n - 1], ms[n]);
      StepBits(ms[n - 1], ts[n - 1], ms[n], i);
      OneOp(ms[n - 1], ts[n - 1], i);
      ApplyMore(ms[0].sched.vcpus[i], ms[n - 1].sched.vcpus[i], RunOps(ms, ts, i, n - 1),
                OpsOf(ms[n - 1], ts[n - 1], i));
    }
  }

  lemma OneOp(m: Machine, t: Trap, i: nat)
    requires i < |m.sched.vcpus|
    ensures |OpsOf(m, t, i)| <= 1
  {
  }

  /** Conservation over whole runs, for each vCPU and line: what was raised is pending or was claimed, and
      what was claimed is active or was completed; no line is both pending and active. */
  lemma InterruptsConserved(ms: seq<Machine>, ts: seq<Trap>, i: nat, line: nat, n: nat)
    requires IsRun(ms, ts) && n <= |ts| && i < |ms[0].sched.vcpus|
    ensures i < |ms[n].sched.vcpus| && Virq.Disjoint(ms[n].sched.vcpus[i])
    ensures var (v, v') := (ms[0].sched.vcpus[i], ms[n].sched.vcpus[i]);
      var tally := Count(v, RunOps(ms, ts, i, n), line);
      OneIf(line in Lines(v.pending)) + tally.raises == tally.claims + OneIf(line in Lines(v'.pending)) &&
      OneIf(line in Lines(v.active)) + tally.claims == tally.completes + OneIf(line in Lines(v'.active))
  {
    hide Lines, Returns, ApplyAll, Count, FlagsOk, NoneRunnable, RunOps;
    RunBits(ms, ts, i, n);
    assert VcpuOk(ms[0].sched.vcpus[i], i, ms[0].sched.Guests());
    Conservation(ms[0].sched.vcpus[i], RunOps(ms, ts, i, n), line);
  }
}
