/** virq.c: a vCPU's virtual interrupt lines, kept in two 32-bit bitmaps. */
module Virq {
  import opened Wrappers
  import opened Bits
  import opened Tlb
  import opened Cpu
  import opened Vcpu

  const MAX_VIRQS := 32
  const VIRQ_TIMER := 0

  /** hv_virq_is_pending and hv_virq_is_active, on the bitmap they look at */
  predicate IsSet(bitmap: Word, line: nat) {
    line < MAX_VIRQS && And(bitmap, Shl(1, line)) != 0
  }

  function SetBit(bitmap: Word, line: nat): Word
    requires line < MAX_VIRQS
  {
    WordIsOnes();
    ShlFits(line, 32);
    OrFits(bitmap, Shl(1, line), 32);
    Or(bitmap, Shl(1, line))
  }

  function ClearBit(bitmap: Word, line: nat): Word
    requires line < MAX_VIRQS
  {
    WordIsOnes();
    ShlFits(line, 32);
    AndFits(bitmap, 0xffff_ffff - Shl(1, line));
    And(bitmap, 0xffff_ffff - Shl(1, line))
  }

  /** The lines whose bit is set. */
  function Lines(bitmap: Word): set<nat> {
    set line: nat | line < MAX_VIRQS && IsSet(bitmap, line)
  }

  lemma LinesAreBits(bitmap: Word)
    ensures forall line: nat :: line in Lines(bitmap) <==> line < 32 && BitAt(bitmap, line)
  {
    hide And, Shl, BitAt;
    forall line: nat
      ensures line in Lines(bitmap) <==> line < 32 && BitAt(bitmap, line)
    {
      AndBit(bitmap, line);
    }
  }

  lemma SetLines(bitmap: Word, line: nat)
    requires line < MAX_VIRQS
    ensures Lines(SetBit(bitmap, line)) == Lines(bitmap) + {line}
  {
    forall other: nat | other < MAX_VIRQS
      ensures IsSet(SetBit(bitmap, line), other) <==> other == line || IsSet(bitmap, other)
    {
      AndBit(SetBit(bitmap, line), other);
      AndBit(bitmap, other);
      OrBit(bitmap, line, other);
    }
  }

  lemma ClearLines(bitmap: Word, line: nat)
    requires line < MAX_VIRQS
    ensures Lines(ClearBit(bitmap, line)) == Lines(bitmap) - {line}
  {
    WordIsOnes();
    forall other: nat | other < MAX_VIRQS
      ensures IsSet(ClearBit(bitmap, line), other) <==> other != line && IsSet(bitmap, other)
    {
      AndBit(ClearBit(bitmap, line), other);
      AndBit(bitmap, other);
      AndNotBit(bitmap, line, other, 32);
    }
  }

  /** The bitmap tested against zero, as hv_virq_sync and hv_virq_claim do, tells whether any line is set. */
  lemma ZeroMeansNone(bitmap: Word)
    ensures bitmap == 0 <==> Lines(bitmap) == {}
  {
    NoneFrom(bitmap, 0);
    assert forall line :: And(0, Shl(1, line)) == 0;
  }

  // ----- The controller, on values -----

  datatype RaiseResult = Raised | RaiseBusy | RaiseInvalid
  datatype CompleteResult = Completed | CompleteNotActive | CompleteInvalid

  function RaiseResultOf(v: VcpuVal, line: nat): RaiseResult {
    if line >= MAX_VIRQS then RaiseInvalid
    else if IsSet(v.pending, line) || IsSet(v.active, line) then RaiseBusy
    else Raised
  }

  /** hv_virq_raise */
  function RaiseOn(v: VcpuVal, line: nat): VcpuVal {
    if RaiseResultOf(v, line) == Raised then v.(pending := SetBit(v.pending, line)).Woken() else v
  }

  /** hv_virq_raise, bit by bit: a new line becomes pending and wakes a blocked vCPU; a line that is pending or
      active, and one out of range, changes nothing. */
  lemma RaiseIs(v: VcpuVal, line: nat)
    ensures RaiseResultOf(v, line) ==
      if line >= 32 then RaiseInvalid else if BitAt(v.pending, line) || BitAt(v.active, line) then RaiseBusy else Raised
    ensures var w := RaiseOn(v, line);
      if RaiseResultOf(v, line) != Raised then w == v
      else
        w == v.(pending := w.pending, state := if v.state == Blocked then Runnable else v.state) &&
        forall i: nat :: BitAt(w.pending, i) <==> i == line || BitAt(v.pending, i)
  {
    hide And, Or, Shl, BitAt;
    if line < 32 {
      AndBit(v.pending, line);
      AndBit(v.active, line);
      forall i: nat
        ensures BitAt(SetBit(v.pending, line), i) <==> i == line || BitAt(v.pending, i)
      {
        OrBit(v.pending, line, i);
      }
    }
  }

  /** The line hv_virq_claim takes: the lowest pending one at or above i. */
  function LowestFrom(pending: Word, i: nat): (line: Option<nat>)
    requires i <= MAX_VIRQS
    ensures line.Some? ==> i <= line.value < MAX_VIRQS
    decreases MAX_VIRQS - i
  {
    if i == MAX_VIRQS then None
    else if IsSet(pending, i) then Some(i)
    else LowestFrom(pending, i + 1)
  }

  /** hv_virq_claim */
  function ClaimOn(v: VcpuVal): (r: (VcpuVal, Option<nat>))
    ensures r.1.Some? ==> r.1.value < MAX_VIRQS
  {
    match LowestFrom(v.pending, 0)
    case None => (v, None)
    case Some(line) => (v.(pending := ClearBit(v.pending, line), active := SetBit(v.active, line)), Some(line))
  }

  /** hv_virq_complete */
  function CompleteResultOf(v: VcpuVal, line: nat): CompleteResult {
    if line >= MAX_VIRQS then CompleteInvalid
    else if !IsSet(v.active, line) then CompleteNotActive
    else Completed
  }

  function CompleteOn(v: VcpuVal, line: nat): VcpuVal {
    if CompleteResultOf(v, line) == Completed then v.(active := ClearBit(v.active, line)) else v
  }

  /** hv_virq_complete, bit by bit: an active line is cleared, anything else is refused and changes nothing. */
  lemma CompleteIs(v: VcpuVal, line: nat)
    ensures CompleteResultOf(v, line) ==
      if line >= 32 then CompleteInvalid else if BitAt(v.active, line) then Completed else CompleteNotActive
    ensures var w := CompleteOn(v, line);
      if CompleteResultOf(v, line) != Completed then w == v
      else w == v.(active := w.active) && forall i: nat :: BitAt(w.active, i) <==> i != line && BitAt(v.active, i)
  {
    hide And, Or, Shl, BitAt;
    if line < 32 {
      AndBit(v.active, line);
      WordIsOnes();
      forall i: nat
        ensures BitAt(ClearBit(v.active, line), i) <==> i != line && BitAt(v.active, i)
      {
        AndNotBit(v.active, line, i, 32);
      }
    }
  }

  /** line is pending, and no lower line is. */
  ghost predicate IsLowest(pending: Word, line: nat) {
    line in Lines(pending) && forall other :: other in Lines(pending) ==> line <= other
  }

  /** The scan from line i finds the lowest line from i on, and finds none only if no bit is set. */
  lemma {:induction false} NoneFrom(pending: Word, i: nat)
    requires i <= MAX_VIRQS && Low(pending, i) == 0
    ensures var line := LowestFrom(pending, i);
      if line.None? then pending == 0 else IsLowest(pending, line.value)
    decreases MAX_VIRQS - i
  {
    if i == MAX_VIRQS {
      WordIsOnes();
      LowFits(pending, 32);
    } else {
      AndBit(pending, i);
      if IsSet(pending, i) {
        forall other | other in Lines(pending)
          ensures i <= other
        {
          AndBit(pending, other);
          if other < i {
            LowClearBits(pending, i, other);
          }
        }
      } else {
        LowClear(pending, i);
        NoneFrom(pending, i + 1);
      }
    }
  }

  lemma ClaimTakesLowest(v: VcpuVal)
    ensures var (v', line) := ClaimOn(v);
      if line.None? then v' == v && v.pending == 0
      else IsLowest(v.pending, line.value) &&
           Lines(v'.pending) == Lines(v.pending) - {line.value} &&
           Lines(v'.active) == Lines(v.active) + {line.value}
  {
    hide IsSet, SetBit, ClearBit;
    NoneFrom(v.pending, 0);
    var line := LowestFrom(v.pending, 0);
    if line.Some? {
      ClearLines(v.pending, line.value);
      SetLines(v.active, line.value);
    }
  }

  // ----- Conservation -----

  datatype Op = RaiseOp(line: nat) | ClaimOp | CompleteOp(line: nat)

  function Apply(v: VcpuVal, op: Op): VcpuVal {
    match op
    case RaiseOp(line) => RaiseOn(v, line)
    case ClaimOp => ClaimOn(v).0
    case CompleteOp(line) => CompleteOn(v, line)
  }

  function ApplyAll(v: VcpuVal, ops: seq<Op>): VcpuVal {
    if ops == [] then v else Apply(ApplyAll(v, ops[..|ops| - 1]), ops[|ops| - 1])
  }

  datatype Tally = Tally(raises: nat, claims: nat, completes: nat)

  /** How often line was successfully raised, claimed and completed. */
  function Count(v: VcpuVal, ops: seq<Op>, line: nat): Tally {
    if ops == [] then Tally(0, 0, 0)
    else
      var before := ApplyAll(v, ops[..|ops| - 1]);
      var n := Count(v, ops[..|ops| - 1], line);
      match ops[|ops| - 1]
      case RaiseOp(l) =>
        if l == line && RaiseResultOf(before, l) == Raised then n.(raises := n.raises + 1) else n
      case ClaimOp => if ClaimOn(before).1 == Some(line) then n.(claims := n.claims + 1) else n
      case CompleteOp(l) =>
        if l == line && CompleteResultOf(before, l) == Completed then n.(completes := n.completes + 1) else n
  }

  function OneIf(b: bool): nat {
    if b then 1 else 0
  }

  ghost predicate Disjoint(v: VcpuVal) {
    Lines(v.pending) !! Lines(v.active)
  }

  /** What a step does to the two sets of lines. */
  ghost predicate MovesLine(v: VcpuVal, v': VcpuVal, op: Op) {
    var (p, a, p', a') := (Lines(v.pending), Lines(v.active), Lines(v'.pending), Lines(v'.active));
    match op
    case RaiseOp(line) =>
      a' == a &&
      if RaiseResultOf(v, line) == Raised then line !in p && line !in a && p' == p + {line} else p' == p
    case ClaimOp =>
      (match ClaimOn(v).1
       case None => p' == p && a' == a
       case Some(line) => line in p && p' == p - {line} && a' == a + {line})
    case CompleteOp(line) =>
      p' == p && if CompleteResultOf(v, line) == Completed then line in a && a' == a - {line} else a' == a
  }

  lemma StepMovesLine(v: VcpuVal, op: Op)
    ensures MovesLine(v, Apply(v, op), op)
  {
    hide IsSet, SetBit, ClearBit, LowestFrom;
    match op
    case RaiseOp(line) =>
      if line < MAX_VIRQS {
        SetLines(v.pending, line);
      }
    case ClaimOp => ClaimTakesLowest(v);
    case CompleteOp(line) =>
      if line < MAX_VIRQS {
        ClearLines(v.active, line);
      }
  }

  /** Conservation over any run of the controller: every successful raise is still pending or was claimed,
      and every claim is still active or was completed. */
  lemma {:induction false} Conservation(v: VcpuVal, ops: seq<Op>, line: nat)
    requires Disjoint(v)
    ensures Disjoint(ApplyAll(v, ops))
    ensures var (v', n) := (ApplyAll(v, ops), Count(v, ops, line));
      OneIf(line in Lines(v.pending)) + n.raises == n.claims + OneIf(line in Lines(v'.pending)) &&
      OneIf(line in Lines(v.active)) + n.claims == n.completes + OneIf(line in Lines(v'.active))
    decreases |ops|
  {
    hide IsSet, SetBit, ClearBit, Lines, RaiseOn, ClaimOn, CompleteOn, RaiseResultOf, CompleteResultOf;
    if ops != [] {
      var before := ApplyAll(v, ops[..|ops| - 1]);
      Conservation(v, ops[..|ops| - 1], line);
      StepMovesLine(before, ops[|ops| - 1]);
    }
  }

  // ----- The controller, on the vCPU it changes -----

  method Raise(vcpu: HvVcpu, line: nat) returns (res: RaiseResult)
    modifies vcpu`pending, vcpu`state
    ensures res == RaiseResultOf(old(vcpu.Value()), line)
    ensures vcpu.Value() == RaiseOn(old(vcpu.Value()), line)
  {
    hide IsSet, SetBit;
    if line >= MAX_VIRQS {
      return RaiseInvalid;
    }
    if IsSet(vcpu.pending, line) || IsSet(vcpu.active, line) {
      return RaiseBusy;
    }
    vcpu.pending := SetBit(vcpu.pending, line);
    vcpu.Wake();
    return Raised;
  }

  method Claim(vcpu: HvVcpu) returns (claimed: Option<nat>)
    modifies vcpu`pending, vcpu`active
    ensures (vcpu.Value(), claimed) == ClaimOn(old(vcpu.Value()))
  {
    hide IsSet, SetBit, ClearBit;
    NoneFrom(vcpu.pending, 0);
    ZeroMeansNone(vcpu.pending);
    if vcpu.pending == 0 {
      assert LowestFrom(vcpu.pending, 0).None?;
      return None;
    }
    for i := 0 to MAX_VIRQS
      invariant vcpu.Value() == old(vcpu.Value())
      invariant LowestFrom(vcpu.pending, 0) == LowestFrom(vcpu.pending, i)
    {
      if IsSet(vcpu.pending, i) {
        vcpu.pending := ClearBit(vcpu.pending, i);
        vcpu.active := SetBit(vcpu.active, i);
        return Some(i);
      }
    }
    return None;
  }

  method Complete(vcpu: HvVcpu, line: nat) returns (res: CompleteResult)
    modifies vcpu`active
    ensures res == CompleteResultOf(old(vcpu.Value()), line)
    ensures vcpu.Value() == CompleteOn(old(vcpu.Value()), line)
  {
    hide IsSet, ClearBit;
    if line >= MAX_VIRQS {
      return CompleteInvalid;
    }
    if !IsSet(vcpu.active, line) {
      return CompleteNotActive;
    }
    vcpu.active := ClearBit(vcpu.active, line);
    return Completed;
  }

  /** hv_virq_sync: HCR.VI follows the pending bitmap. */
  method Sync(vcpu: HvVcpu, cpu: Cpu)
    modifies cpu`hcr, cpu`log
    ensures cpu.hcr == With(old(cpu.hcr), HCR_VI, vcpu.pending != 0)
    ensures cpu.log == old(cpu.log) + [if vcpu.pending != 0 then SetHcr(HCR_VI) else ClearHcr(HCR_VI)]
  {
    if vcpu.pending == 0 {
      cpu.ClearHcrBit(HCR_VI);
    } else {
      cpu.SetHcrBit(HCR_VI);
    }
  }
}
