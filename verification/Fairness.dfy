/** Round robin over whole runs: a runnable guest waits for at most one decision per guest. */
module Fairness {
  import opened Wrappers
  import opened Cpu
  import opened Vcpu
  import opened Virq
  import opened Timers
  import opened SchedulerSpec
  import opened Rescheduling
  import opened Handlers
  import opened Steps
  import opened Traps
  import opened Runs
  import opened TrapEffects

  /** How far v is from its turn. */
  function Waiting(m: Machine, v: nat): int {
    Offset(m.sched.cur, v, |m.sched.vcpus|)
  }

  /** Either v has the CPU, or it waits on, strictly nearer if the scheduler was asked. */
  predicate Approaches(m: Machine, m': Machine, v: nat, decided: bool) {
    |m'.sched.vcpus| == |m.sched.vcpus| &&
    (m'.sched.cur == v ||
     (RunnableGuest(m'.sched.vcpus, v) &&
      if decided then Waiting(m', v) < Waiting(m, v) else Waiting(m', v) == Waiting(m, v)))
  }

  lemma StaysRunnable(m: Machine, t: Trap, v: nat)
    requires InvM(m) && RunnableGuest(m.sched.vcpus, v)
    ensures RunnableGuest(Local(m, t).0.sched.vcpus, v) && v != m.sched.cur
  {
    hide Local, Ready, FlagsOk, NoneRunnable, DeliverOne;
    LocalOthers(m, t, v);
    assert DeliverOne(m.sched.vcpus[v], t.now).state == Runnable by { DeliverRunnable(m.sched.vcpus[v], t.now); }
  }

  lemma DeliverRunnable(v: VcpuVal, now: nat)
    requires v.state == Runnable
    ensures DeliverOne(v, now).state == Runnable
  {
  }

  lemma RunnableCounts(vs: seq<VcpuVal>, v: nat)
    requires RunnableGuest(vs, v)
    ensures !NoneRunnable(vs)
  {
  }

  /** A decision taken while v waits brings the CPU to v or strictly nearer to it. */
  lemma DecisionApproaches(s: Sched, s': Sched, v: nat)
    requires s.Shape() && Nearest(s, s') && RunnableGuest(s.vcpus, v) && v != s.cur && Rescheduled(s, s')
    ensures s'.cur == v ||
      (RunnableGuest(s'.vcpus, v) && Offset(s'.cur, v, |s.vcpus|) < Offset(s.cur, v, |s.vcpus|))
  {
    assert Candidate(s, v);
    assert SameBut(s.vcpus[v], s'.vcpus[v]);
  }

  /** One trap while guest v is runnable: v is dispatched, or it stays runnable and comes nearer if the
      scheduler was asked, and stays where it is if not. */
  lemma StepApproaches(m: Machine, t: Trap, v: nat)
    requires InvM(m) && Possible(m, t) && Local(m, t).1 != Halt && RunnableGuest(m.sched.vcpus, v)
    ensures Approaches(m, Step(m, t), v, Asks(m, t))
  {
    hide Local, Asks, FlagsOk, VcpuOk, Rescheduled, Nearest, Advance, Yield, EnterIdle;
    StaysRunnable(m, t, v);
    AsksIff(m, t);
    LocalPrepared(m, t);
    var (l, d) := Local(m, t);
    RunnableCounts(l.sched.vcpus, v);
    if d == ToAdvance {
      AdvanceInv(l.sched);
      DecisionApproaches(l.sched, Advance(l.sched), v);
    } else if d == ToYield {
      YieldInv(l.sched);
      DecisionApproaches(l.sched, Yield(l.sched), v);
    }
    StepInv(m, t);
  }

  /** How many of the traps ask the scheduler. */
  ghost function Decisions(ms: seq<Machine>, ts: seq<Trap>, n: nat): nat
    requires IsRun(ms, ts) && n <= |ts|
  {
    if n == 0 then 0
    else
      assert Returns(ms[n - 1], ts[n - 1], ms[n]);
      Decisions(ms, ts, n - 1) + if Asks(ms[n - 1], ts[n - 1]) then 1 else 0
  }

  lemma {:induction false} WaitShrinks(ms: seq<Machine>, ts: seq<Trap>, v: nat, n: nat)
    requires IsRun(ms, ts) && n <= |ts| && RunnableGuest(ms[0].sched.vcpus, v)
    requires forall k :: 0 <= k <= n ==> ms[k].sched.cur != v
    ensures InvM(ms[n]) && RunnableGuest(ms[n].sched.vcpus, v) && |ms[n].sched.vcpus| == |ms[0].sched.vcpus|
    ensures Waiting(ms[n], v) + Decisions(ms, ts, n) <= Waiting(ms[0], v)
    decreases n
  {
    hide Asks, Inv, Step, Possible, RunnableGuest;
    if n > 0 {
      WaitShrinks(ms, ts, v, n - 1);
      assert Returns(ms[n - 1], ts[n - 1], ms[n]);
      StepApproaches(ms[n - 1], ts[n - 1], v);
      RunInv(ms, ts, n);
    }
  }

  /** Fairness: a runnable guest runs before the scheduler has decided once more than there are other
      vCPUs ahead of it, so within as many decisions as there are guests. */
  lemma Fair(ms: seq<Machine>, ts: seq<Trap>, v: nat) returns (k: nat)
    requires IsRun(ms, ts) && RunnableGuest(ms[0].sched.vcpus, v)
    requires Decisions(ms, ts, |ts|) >= |ms[0].sched.vcpus| - 1
    ensures k <= |ts| && ms[k].sched.cur == v
  {
    hide Inv, Returns;
    if forall j :: 0 <= j <= |ts| ==> ms[j].sched.cur != v {
      WaitShrinks(ms, ts, v, |ts|);
      WaitBounds(ms[0], v);
      WaitBounds(ms[|ts|], v);
      assert false;
    }
    k :| 0 <= k <= |ts| && ms[k].sched.cur == v;
  }

  lemma WaitBounds(m: Machine, v: nat)
    requires InvM(m) && RunnableGuest(m.sched.vcpus, v)
    ensures 1 <= Waiting(m, v) <= |m.sched.vcpus| - 1
  {
  }
}
