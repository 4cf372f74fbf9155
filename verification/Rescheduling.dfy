/** What every scheduling decision keeps: the invariant of the scheduler, each vCPU's registers, and
    round-robin order. */
module Rescheduling {
  import opened Wrappers
  import opened Bits
  import opened Tlb
  import opened Cpu
  import opened Vcpu
  import opened Virq
  import opened Timers
  import opened Mmu
  import opened SchedulerSpec

  // ----- The invariant -----

  /** vCPU i of n guests and the idle vCPU: what scheduling never changes. */
  ghost predicate VcpuOk(v: VcpuVal, i: nat, n: nat) {
    (v.IsIdleVcpu() <==> i == n) && v.vm == (if i == n then None else Some(i)) && Virq.Disjoint(v) &&
    (i == n ==> v.pending == 0 && v.active == 0 && v.timer == TIMER_OFF && v.state in {Idle, Running})
  }

  ghost predicate VcpusOk(s: Sched) {
    s.Shape() && forall i :: 0 <= i < |s.vcpus| ==> VcpuOk(s.vcpus[i], i, s.Guests())
  }

  /** If a guest waits for its timer, the one-shot is armed. */
  ghost predicate Covered(s: Sched) {
    s.cpu.oneShot.Disarmed? ==> forall i :: 0 <= i < s.Guests() ==> !HasDeadline(s.vcpus[i])
  }

  ghost predicate NoneRunningBut(vs: seq<VcpuVal>, cur: nat) {
    forall i :: 0 <= i < |vs| && i != cur ==> vs[i].state != Running
  }

  /** What a handler has to leave for the scheduler. Physical interrupts stay routed to the hypervisor (HCR.IMO). */
  ghost predicate Ready(s: Sched) {
    VcpusOk(s) && NoneRunningBut(s.vcpus, s.cur) && Covered(s) && Has(s.cpu.hcr, HCR_IMO)
  }

  /** The HCR flags and VTTBR fit the current vCPU. */
  ghost predicate FlagsOk(s: Sched)
    requires s.Shape()
  {
    (Has(s.cpu.hcr, HCR_VI) <==> s.Current().pending != 0) &&
    (Has(s.cpu.hcr, HCR_TWI) <==> s.cur != s.Guests()) &&
    (Has(s.cpu.hcr, HCR_VM) <==> s.Current().vm.Some?) &&
    (s.Current().vm.Some? ==> s.cpu.vttbr == s.vms[s.Current().vm.value].vttbr && s.cpu.vtcr == VTCR_DEFAULT)
  }

  ghost predicate NoneRunnable(vs: seq<VcpuVal>) {
    forall i: nat :: !RunnableGuest(vs, i)
  }

  /** Holds whenever a vCPU runs: exactly one vCPU is running and it is the current one, the flags fit it,
      and the idle vCPU runs only if no guest is runnable. */
  ghost predicate Inv(s: Sched) {
    Ready(s) && s.Current().state == Running && FlagsOk(s) && (s.cur == s.Guests() ==> NoneRunnable(s.vcpus))
  }

  // ----- What a decision does -----

  datatype Registers = Registers(frame: Frame, banked: Banked, vbar: Word)

  /** The registers vCPU i has, or will have when it runs next. */
  function RegsOf(s: Sched, i: nat): Registers
    requires i < |s.vcpus|
  {
    if i == s.cur then Registers(s.cpu.frame, s.cpu.banked, s.cpu.vbar)
    else
      var c := s.vcpus[i].context;
      Registers(c.frame, c.banked, c.sysVbar)
  }

  /** v' is v, but for its saved context and state. */
  predicate SameBut(v: VcpuVal, v': VcpuVal) {
    v' == v.(context := v'.context, state := v'.state)
  }

  /** A decision moves the CPU to a vCPU that may run and does nothing else: every vCPU keeps its
      registers, timer and interrupts. */
  ghost predicate Rescheduled(s: Sched, s': Sched) {
    s.cur < |s.vcpus| == |s'.vcpus| && s'.cur < |s'.vcpus| &&
    s'.vms == s.vms && s'.cpu.oneShot == s.cpu.oneShot &&
    (s'.cur != s.Guests() ==> s.vcpus[s'.cur].state in {Runnable, Running}) &&
    forall i :: 0 <= i < |s.vcpus| ==>
      RegsOf(s', i) == RegsOf(s, i) && SameBut(s.vcpus[i], s'.vcpus[i]) &&
      s'.vcpus[i].state ==
        if i == s'.cur then Running
        else if i != s.cur || s.vcpus[i].state != Running then s.vcpus[i].state
        else if s.vcpus[i].IsIdleVcpu() then Idle
        else Runnable
  }

  lemma SwitchFlags(hcr: Word, twi: bool, vm: bool, vi: bool)
    ensures var h := With(With(With(hcr, HCR_TWI, twi), HCR_VM, vm), HCR_VI, vi);
      (Has(h, HCR_TWI) <==> twi) && (Has(h, HCR_VM) <==> vm) && (Has(h, HCR_VI) <==> vi) &&
      (Has(h, HCR_IMO) <==> Has(hcr, HCR_IMO))
  {
    hide With, Has;
    var h1 := With(hcr, HCR_TWI, twi);
    var h2 := With(h1, HCR_VM, vm);
    FlagsIndependent(hcr, HCR_TWI, twi, HCR_TWI);
    FlagsIndependent(h1, HCR_VM, vm, HCR_TWI);
    FlagsIndependent(h1, HCR_VM, vm, HCR_VM);
    FlagsIndependent(h2, HCR_VI, vi, HCR_TWI);
    FlagsIndependent(h2, HCR_VI, vi, HCR_VM);
    FlagsIndependent(h2, HCR_VI, vi, HCR_VI);
    FlagsIndependent(hcr, HCR_TWI, twi, HCR_IMO);
    FlagsIndependent(h1, HCR_VM, vm, HCR_IMO);
    FlagsIndependent(h2, HCR_VI, vi, HCR_IMO);
  }

  lemma SwitchReschedules(s: Sched, next: nat)
    requires s.Shape() && next < |s.vcpus| && (next != s.Guests() ==> s.vcpus[next].state in {Runnable, Running})
    ensures SwitchTo(s, next).cur == next && Rescheduled(s, SwitchTo(s, next))
  {
    hide With;
  }

  /** Switching to a vCPU that may run establishes the invariant. */
  lemma SwitchInv(s: Sched, next: nat)
    requires Ready(s) && next < |s.vcpus|
    requires next == s.Guests() || s.vcpus[next].state in {Runnable, Running}
    requires next == s.Guests() ==> NoneRunnable(s.vcpus) && (s.cur == next || s.Current().state != Running)
    ensures Inv(SwitchTo(s, next))
  {
    hide With, Has, Virq.Disjoint;
    var s' := SwitchTo(s, next);
    SwitchReschedules(s, next);
    var vm := s.vcpus[next].vm.Some?;
    SwitchFlags(s.cpu.hcr, next != s.Guests(), vm, s'.vcpus[next].pending != 0);
    SwitchKeepsOk(s, next);
    assert FlagsOk(s');
    forall i: nat | RunnableGuest(s'.vcpus, i)
      ensures next != s.Guests()
    {
      assert SameBut(s.vcpus[i], s'.vcpus[i]);
      assert RunnableGuest(s.vcpus, i) || next != s.Guests();
    }
  }

  lemma SwitchHcr(s: Sched, next: nat)
    requires s.Shape() && next < |s.vcpus|
    ensures Has(SwitchTo(s, next).cpu.hcr, HCR_IMO) <==> Has(s.cpu.hcr, HCR_IMO)
  {
    hide With, Has;
    var v := PutBack(Saved(s)).vcpus[next];
    SwitchFlags(s.cpu.hcr, next != s.Guests(), v.vm.Some?, v.pending != 0);
  }

  lemma SwitchKeepsOk(s: Sched, next: nat)
    requires Ready(s) && next < |s.vcpus|
    requires next == s.Guests() || s.vcpus[next].state in {Runnable, Running}
    ensures Ready(SwitchTo(s, next))
  {
    hide SwitchTo, Has;
    SwitchReschedules(s, next);
    SwitchHcr(s, next);
    var s' := SwitchTo(s, next);
    forall i | 0 <= i < |s.vcpus|
      ensures VcpuOk(s'.vcpus[i], i, s'.Guests())
    {
      assert VcpuOk(s.vcpus[i], i, s.Guests());
    }
    assert Covered(s');
  }

  /** Entering the idle vCPU is right when no guest can run. */
  lemma EnterIdleInv(s: Sched)
    requires Ready(s) && NoneRunnable(s.vcpus) && (s.cur == s.Guests() || s.Current().state != Running)
    ensures Inv(EnterIdle(s)) && Rescheduled(s, EnterIdle(s)) && EnterIdle(s).cur == s.Guests()
  {
    hide With, Has, Lines;
    if s.cur != s.Guests() {
      SwitchInv(s, s.Guests());
      SwitchReschedules(s, s.Guests());
    } else {
      var idle := s.Guests();
      SwitchFlags(s.cpu.hcr, false, false, false);
      assert VcpuOk(s.vcpus[idle], idle, idle);
      var r := EnterIdle(s);
      forall i: nat | RunnableGuest(r.vcpus, i)
        ensures RunnableGuest(s.vcpus, i)
      {
      }
      assert VcpuOk(r.vcpus[idle], idle, idle);
      assert Covered(r);
    }
  }

  lemma PutBackReady(s: Sched)
    requires Ready(s)
    ensures Ready(PutBack(s)) && PutBack(s).Current().state != Running
  {
    hide Lines;
    assert VcpuOk(s.Current(), s.cur, s.Guests());
    assert VcpuOk(PutBack(s).Current(), s.cur, s.Guests());
  }

  /** A guest that may be given the CPU: runnable, or the one that is giving it up. */
  predicate Candidate(s: Sched, i: nat) {
    i < s.Guests() && (s.vcpus[i].state == Runnable || (i == s.cur && s.vcpus[i].state == Running))
  }

  /** Round robin: the vCPU chosen is the nearest candidate ahead, the idle vCPU if there is none. */
  ghost predicate Nearest(s: Sched, s': Sched)
    requires s.cur < |s.vcpus|
  {
    if s'.cur == s.Guests() then forall i: nat :: !Candidate(s, i)
    else
      Candidate(s, s'.cur) &&
      forall i: nat :: Candidate(s, i) ==> Offset(s.cur, s'.cur, |s.vcpus|) <= Offset(s.cur, i, |s.vcpus|)
  }

  lemma CandidatesAreRunnable(s: Sched)
    requires VcpusOk(s)
    ensures forall i: nat :: RunnableGuest(PutBack(s).vcpus, i) <==> Candidate(s, i)
  {
    hide Virq.Disjoint;
    assert VcpuOk(s.Current(), s.cur, s.Guests());
  }

  lemma PutBackReschedules(s: Sched, s': Sched)
    requires s.Shape() && Rescheduled(PutBack(s), s')
    ensures Rescheduled(s, s')
  {
    var p := PutBack(s);
    forall i | 0 <= i < |s.vcpus|
      ensures RegsOf(s', i) == RegsOf(s, i) && SameBut(s.vcpus[i], s'.vcpus[i])
    {
      assert RegsOf(p, i) == RegsOf(s, i) && SameBut(p.vcpus[i], s'.vcpus[i]);
    }
  }

  /** hv_scheduler_advance, from any state a handler leaves. */
  lemma AdvanceInv(s: Sched)
    requires Ready(s)
    ensures Inv(Advance(s)) && Rescheduled(s, Advance(s)) && Nearest(s, Advance(s))
  {
    hide Virq.Disjoint, SwitchTo, EnterIdle, FlagsOk, Rescheduled, PutBack, Candidate, VcpuOk;
    var p := PutBack(s);
    CandidatesAreRunnable(s);
    PutBackReady(s);
    PickNextIsNearest(p.vcpus, s.cur);
    match PickNext(p.vcpus, s.cur)
    case None =>
      EnterIdleInv(p);
      PutBackReschedules(s, Advance(s));
    case Some(next) =>
      SwitchInv(p, next);
      SwitchReschedules(p, next);
      PutBackReschedules(s, Advance(s));
  }

  /** hv_scheduler_yield, by a running guest. */
  lemma YieldInv(s: Sched)
    requires Inv(s) && s.cur < s.Guests()
    ensures Inv(Yield(s)) && Rescheduled(s, Yield(s)) && Nearest(s, Yield(s))
  {
    hide Virq.Disjoint, SwitchTo, Candidate;
    CandidatesAreRunnable(s);
    var p := PutBack(s);
    assert VcpuOk(s.Current(), s.cur, s.Guests());
    assert p == s.WithVcpu(s.cur, s.Current().(state := Runnable));
    assert RunnableGuest(p.vcpus, s.cur);
    PutBackReady(s);
    PickNextIsNearest(p.vcpus, s.cur);
    var next := PickNext(p.vcpus, s.cur).value;
    if next == s.cur {
      assert Yield(s).vcpus == s.vcpus;
    } else {
      SwitchInv(p, next);
      SwitchReschedules(p, next);
      PutBackReschedules(s, Yield(s));
    }
  }
}
