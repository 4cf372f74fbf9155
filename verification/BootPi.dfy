/** bootloader main.c: the Pi's side of the boot protocol. */
module BootPi {
  import opened Wrappers
  import opened Bits
  import opened BootWire

  const UINT32_LIMIT := 0x1_0000_0000

  /** Where the bootloader itself lies: from PUT32 to __prog_end__. */
  datatype Loader = Loader(start: Word, end: Word)

  datatype PiPhase = AwaitInfo | ReadInfo | AwaitCode | ReadCode | Done | Rejected

  /** The bootloader between two bytes: seen is what it has read in this phase, replies all it has answered. */
  datatype Pi = Pi(phase: PiPhase, seen: seq<Byte>, base: Word, size: Word, mem: map<nat, Byte>, replies: seq<Byte>)

  function PiStart(mem: map<nat, Byte>): Pi {
    Pi(AwaitInfo, [], 0, 0, mem, [])
  }

  /** The collision check, in the wrapping arithmetic of uint32_t. */
  predicate Collides(base: Word, size: Word, loader: Loader) {
    !((base + size) % UINT32_LIMIT <= loader.start || base >= loader.end)
  }

  /** The address of byte i. */
  function Place(base: Word, i: nat): nat {
    (base + i) % UINT32_LIMIT
  }

  /** (2): program info, and its verdict. */
  function AfterInfo(p: Pi, info: seq<Byte>, loader: Loader): Pi
    requires |info| == 12
  {
    var base, size, crc := WordOf(info[..4]), WordOf(info[4..8]), WordOf(info[8..12]);
    if Collides(base, size, loader) then
      p.(phase := Rejected, base := base, size := size, replies := p.replies + BytesOf(BAD_CODE_ADDR))
    else
      p.(phase := AwaitCode, base := base, size := size,
         replies := p.replies + BytesOf(GET_CODE) + BytesOf(crc))
  }

  /** All of the code is there, or none of it yet. */
  function CheckDone(p: Pi): Pi {
    if |p.seen| == p.size then p.(phase := Done, replies := p.replies + BytesOf(BOOT_SUCCESS)) else p
  }

  /** What one more byte does. */
  function PiRecv(p: Pi, b: Byte, loader: Loader): Pi {
    var seen := p.seen + [b];
    match p.phase
    case AwaitInfo => if EndsWith(seen, PUT_PROG_INFO) then p.(phase := ReadInfo, seen := []) else p.(seen := seen)
    case ReadInfo => if |seen| == 12 then AfterInfo(p.(seen := []), seen, loader) else p.(seen := seen)
    case AwaitCode =>
      if EndsWith(seen, PUT_CODE) then CheckDone(p.(phase := ReadCode, seen := [])) else p.(seen := seen)
    case ReadCode => CheckDone(p.(seen := seen, mem := p.mem[Place(p.base, |p.seen|) := b]))
    case Done | Rejected => p
  }

  function PiRun(p: Pi, s: seq<Byte>, loader: Loader): Pi {
    if s == [] then p else PiRecv(PiRun(p, s[..|s| - 1], loader), s[|s| - 1], loader)
  }

  lemma {:induction false} PiRunAppend(p: Pi, s: seq<Byte>, t: seq<Byte>, loader: Loader)
    ensures PiRun(p, s + t, loader) == PiRun(PiRun(p, s, loader), t, loader)
    decreases |t|
  {
    hide PiRecv;
    if t == [] {
      assert s + t == s;
    } else {
      assert (s + t)[..|s + t| - 1] == s + t[..|t| - 1];
      PiRunAppend(p, s, t[..|t| - 1], loader);
    }
  }

  // ----- Phase by phase -----

  predicate Waits(p: Pi, op: Word) {
    p.seen == [] && ((p.phase == AwaitInfo && op == PUT_PROG_INFO) || (p.phase == AwaitCode && op == PUT_CODE))
  }

  function Found(p: Pi): Pi {
    if p.phase == AwaitInfo then p.(phase := ReadInfo) else CheckDone(p.(phase := ReadCode))
  }

  lemma WithoutPrefix(s: seq<Byte>, n: nat, op: Word)
    requires n <= |s| && forall k :: 0 <= k <= n ==> !EndsWith(s[..k], op)
    ensures Without(s[..n], op)
  {
    hide EndsWith;
    var t := s[..n];
    forall k | 0 <= k <= |t|
      ensures !EndsWith(t[..k], op)
    {
      assert t[..k] == s[..k];
    }
  }

  /** Waiting for an opcode: junk passes by ... */
  lemma {:induction false} WaitThrough(p: Pi, op: Word, s: seq<Byte>, loader: Loader)
    requires Waits(p, op) && Without(s, op)
    ensures PiRun(p, s, loader) == p.(seen := s)
    decreases |s|
  {
    hide EndsWith, BytesOf, CheckDone;
    if s == [] {
      assert p.(seen := s) == p;
    } else {
      WithoutPrefix(s, |s| - 1, op);
      WaitThrough(p, op, s[..|s| - 1], loader);
      assert s[..|s| - 1] + [s[|s| - 1]] == s == s[..|s|];
    }
  }

  /** ... and the opcode ends the wait. */
  lemma WaitFinds(p: Pi, op: Word, s: seq<Byte>, loader: Loader)
    requires Waits(p, op) && IsFirstMatch(s, op, |s|)
    ensures PiRun(p, s, loader) == Found(p)
  {
    hide EndsWith, BytesOf, CheckDone;
    var n := |s|;
    MatchNotEmpty(s, op);
    WithoutPrefix(s, n - 1, op);
    WaitThrough(p, op, s[..n - 1], loader);
    assert s[..n - 1] + [s[n - 1]] == s == s[..n];
  }

  lemma MatchNotEmpty(s: seq<Byte>, op: Word)
    requires IsFirstMatch(s, op, |s|)
    ensures |s| > 0
  {
    assert s[..|s|] == s;
  }

  lemma {:induction false} ReadsInfo(p: Pi, s: seq<Byte>, loader: Loader)
    requires p.phase == ReadInfo && p.seen == [] && |s| <= 12
    ensures PiRun(p, s, loader) == if |s| == 12 then AfterInfo(p, s, loader) else p.(seen := s)
    decreases |s|
  {
    hide BytesOf, AfterInfo;
    if s == [] {
      assert p.(seen := s) == p;
    } else {
      ReadsInfo(p, s[..|s| - 1], loader);
      assert p.(seen := []) == p;
      assert s[..|s| - 1] + [s[|s| - 1]] == s;
    }
  }

  /** Memory after the first bytes of the code. */
  function Loaded(mem: map<nat, Byte>, base: Word, s: seq<Byte>): map<nat, Byte> {
    if s == [] then mem else Loaded(mem, base, s[..|s| - 1])[Place(base, |s| - 1) := s[|s| - 1]]
  }

  /** What loading means: an image of n bytes is at base, base + 1, ..., and nothing else has changed. */
  lemma {:induction false} LoadedHolds(mem: map<nat, Byte>, base: Word, s: seq<Byte>, i: nat)
    requires |s| <= UINT32_LIMIT && i < |s|
    ensures Place(base, i) in Loaded(mem, base, s) && Loaded(mem, base, s)[Place(base, i)] == s[i]
    decreases |s|
  {
    if i < |s| - 1 {
      LoadedHolds(mem, base, s[..|s| - 1], i);
    }
  }

  lemma {:induction false} LoadedElsewhere(mem: map<nat, Byte>, base: Word, s: seq<Byte>, a: nat)
    requires forall i: nat :: i < |s| ==> Place(base, i) != a
    ensures a in Loaded(mem, base, s) <==> a in mem
    ensures a in mem ==> Loaded(mem, base, s)[a] == mem[a]
    decreases |s|
  {
    if s != [] {
      assert Place(base, |s| - 1) != a;
      LoadedElsewhere(mem, base, s[..|s| - 1], a);
    }
  }

  lemma {:induction false} ReadsCode(p: Pi, s: seq<Byte>, loader: Loader)
    requires p.phase == ReadCode && p.seen == [] && 0 < p.size && |s| <= p.size
    ensures PiRun(p, s, loader) == CheckDone(p.(seen := s, mem := Loaded(p.mem, p.base, s)))
    decreases |s|
  {
    hide BytesOf;
    if s != [] {
      ReadsCode(p, s[..|s| - 1], loader);
      assert s[..|s| - 1] + [s[|s| - 1]] == s;
    }
  }

  // ----- The collision check -----

  /** Whether loading at base would overwrite the bootloader. */
  ghost predicate Overwrites(base: Word, size: Word, loader: Loader) {
    exists i: nat :: i < size && loader.start <= Place(base, i) < loader.end
  }

  lemma PlaceIs(base: Word, i: nat)
    requires i < UINT32_LIMIT
    ensures Place(base, i) == if base + i < UINT32_LIMIT then base + i else base + i - UINT32_LIMIT
  {
  }

  /** The check lets an image through that would overwrite the bootloader exactly if base + size wraps past
      zero and the image starts below the bootloader's end or comes round to its start. An image that does
      not wrap is judged rightly. */
  lemma AcceptedIsSafeIff(base: Word, size: Word, loader: Loader)
    requires loader.start < loader.end && !Collides(base, size, loader)
    ensures Overwrites(base, size, loader) <==>
      base + size >= UINT32_LIMIT && (base < loader.end || (base + size) % UINT32_LIMIT > loader.start)
  {
    hide Place;
    if base + size >= UINT32_LIMIT {
      var a := if base < loader.start || base >= loader.end then loader.start else base;
      var i := if a >= base then a - base else a + UINT32_LIMIT - base;
      PlaceIs(base, i);
    }
    forall i: nat | i < size
      ensures Place(base, i) == if base + i < UINT32_LIMIT then base + i else base + i - UINT32_LIMIT
    {
      PlaceIs(base, i);
    }
  }

  /** An image of at least one byte that ends below 2^32 is turned down exactly if it would overwrite the
      bootloader. */
  lemma RejectedIff(base: Word, size: Word, loader: Loader)
    requires loader.start < loader.end && size > 0 && base + size < UINT32_LIMIT
    ensures Collides(base, size, loader) <==> Overwrites(base, size, loader)
  {
    hide Place;
    if Collides(base, size, loader) {
      var i := if base < loader.start then loader.start - base else 0;
      PlaceIs(base, i);
    } else {
      AcceptedIsSafeIff(base, size, loader);
    }
  }

  /** For example, this image is accepted. */
  lemma WrapOverwrites()
    ensures var loader := Loader(0x20_0000, 0x20_1000);
      !Collides(0x1000, 0xffff_f000, loader) && Overwrites(0x1000, 0xffff_f000, loader)
  {
    assert Place(0x1000, 0x1f_f000) == 0x20_0000;
  }

  // ----- The program -----

  /** The memory that PUT8 writes. */
  class Memory {
    var bytes: map<nat, Byte>

    method Put8(a: nat, b: Byte)
      modifies this
      ensures bytes == old(bytes)[a := b]
    {
      bytes := bytes[a := b];
    }
  }

  /** GET_PROG_INFO, k times */
  function Beacons(k: nat): seq<Byte> {
    if k == 0 then [] else Beacons(k - 1) + BytesOf(GET_PROG_INFO)
  }

  /** How main ends: it starts the program, hangs after a rejection, or waits for bytes that never come. */
  datatype Ending = Started | Hangs | Starved

  predicate EndsAs(p: Pi, e: Ending) {
    match e
    case Started => p.phase == Done
    case Hangs => p.phase == Rejected
    case Starved => p.phase != Done && p.phase != Rejected
  }

  /** The bootloader after all of input. */
  ghost predicate Follows(p: Pi, input: seq<Byte>, k: nat, q: Pi, loader: Loader) {
    k <= |input| && q == PiRun(p, input[..k], loader)
  }

  /** The loop of (5): the code, byte by byte, into memory. */
  method StoreCode(uart: Port, memory: Memory, base: Word, size: Word, ghost p: Pi, loader: Loader)
    returns (complete: bool, ghost k: nat)
    requires p.phase == ReadCode && p.seen == [] && p.base == base && p.size == size && p.mem == memory.bytes
    modifies uart`rx, memory
    ensures k <= |old(uart.rx)| && uart.rx == old(uart.rx)[k..]
    ensures (complete <==> k == size) && (!complete ==> uart.rx == [])
    ensures k <= size && memory.bytes == Loaded(p.mem, base, old(uart.rx)[..k])
  {
    ghost var input := uart.rx;
    var i := 0;
    while i < size
      invariant i <= size && i <= |input| && uart.rx == input[i..]
      invariant memory.bytes == Loaded(p.mem, base, input[..i])
      decreases size - i
    {
      var b := uart.Get8();
      if b.None? {
        return false, i;
      }
      assert input[..i + 1][..i] == input[..i];
      memory.Put8((base + i) % UINT32_LIMIT, b.value);
      i := i + 1;
    }
    return true, i;
  }

  lemma StoredFollows(p: Pi, s: seq<Byte>, loader: Loader)
    requires p.phase == ReadCode && p.seen == [] && |s| <= p.size
    ensures PiRun(CheckDone(p), s, loader) == CheckDone(p.(seen := s, mem := Loaded(p.mem, p.base, s)))
  {
    hide BytesOf;
    if p.size == 0 {
      assert s == [];
      assert p.(seen := s, mem := Loaded(p.mem, p.base, s)) == p;
    } else {
      ReadsCode(p, s, loader);
    }
  }

  lemma {:induction false} SplitRun(p: Pi, q: Pi, input: seq<Byte>, m: nat, k: nat, loader: Loader)
    requires m <= |input| && Follows(p, input, m, q, loader) && k <= |input[m..]|
    ensures m + k <= |input| && PiRun(p, input[..m + k], loader) == PiRun(q, input[m..][..k], loader)
  {
    hide PiRecv;
    PiRunAppend(p, input[..m], input[m..][..k], loader);
    Slices(input, m, k);
  }

  /** (5) */
  method ReceiveCode(uart: Port, memory: Memory, base: Word, size: Word, ghost p: Pi, loader: Loader)
    returns (complete: bool, ghost k: nat, ghost q: Pi)
    requires p.phase == AwaitCode && p.seen == [] && p.base == base && p.size == size && p.mem == memory.bytes
    modifies uart`rx, memory
    ensures Follows(p, old(uart.rx), k, q, loader) && uart.rx == old(uart.rx)[k..] && q.mem == memory.bytes
    ensures EndsAs(q, if complete then Started else Starved) && (!complete ==> uart.rx == [])
    ensures q.replies == p.replies + if complete then BytesOf(BOOT_SUCCESS) else []
  {
    hide BytesOf, EndsWith, PiRun;
    ghost var input := uart.rx;
    var found := uart.WaitForOpcode(PUT_CODE);
    if !found {
      WaitThrough(p, PUT_CODE, input, loader);
      assert input[..|input|] == input;
      return false, |input|, p.(seen := input);
    }
    ghost var m: nat :| IsFirstMatch(input, PUT_CODE, m) && uart.rx == input[m..];
    PrefixMatch(input, PUT_CODE, m);
    WaitFinds(p, PUT_CODE, input[..m], loader);
    ghost var r := p.(phase := ReadCode);
    complete, k := StoreCode(uart, memory, base, size, r, loader);
    StoredFollows(r, input[m..][..k], loader);
    SplitRun(p, Found(p), input, m, k, loader);
    k := m + k;
    q := PiRun(p, input[..k], loader);
  }

  lemma PrefixMatch(s: seq<Byte>, op: Word, k: nat)
    requires IsFirstMatch(s, op, k)
    ensures IsFirstMatch(s[..k], op, k)
  {
    hide EndsWith;
    assert s[..k][..k] == s[..k];
    assert forall j :: 0 <= j < k ==> s[..k][..j] == s[..j];
  }

  lemma MoreBeacons(s: seq<Byte>, k: nat)
    ensures s + Beacons(k + 1) == s + Beacons(k) + BytesOf(GET_PROG_INFO)
    ensures Beacons(0) == [] && s + Beacons(0) == s
  {
    hide BytesOf;
  }

  /** Sends one more GET_PROG_INFO for every 300 ms in which nothing comes in. How many that is depends on the
      host; whether there is data ends it. */
  method Beacon(uart: Port, waits: nat)
    modifies uart`tx
    ensures uart.tx == old(uart.tx) + Beacons(waits + 1)
  {
    hide BytesOf, Beacons;
    ghost var before := uart.tx;
    uart.Put32(GET_PROG_INFO);
    MoreBeacons(before, 0);
    for i := 0 to waits
      invariant uart.tx == before + Beacons(i + 1)
    {
      uart.Put32(GET_PROG_INFO);
      MoreBeacons(before, i + 1);
    }
  }

  /** Three words: base address, size and CRC. */
  method GetInfo(uart: Port) returns (info: Option<(Word, Word, Word)>)
    modifies uart`rx
    ensures info.None? <==> |old(uart.rx)| < 12
    ensures info.None? ==> uart.rx == []
    ensures info.Some? ==> uart.rx == old(uart.rx)[12..]
    ensures info.Some? ==> var s := old(uart.rx)[..12];
      info.value == (WordOf(s[..4]), WordOf(s[4..8]), WordOf(s[8..12]))
  {
    hide Sum;
    ghost var rest := uart.rx;
    var base := uart.Get32();
    var size := uart.Get32();
    var crc := uart.Get32();
    if crc.None? {
      return None;
    }
    ghost var s := rest[..12];
    assert s[..4] == rest[..4] && s[4..8] == rest[4..][..4] && s[8..12] == rest[4..][4..][..4];
    return Some((base.value, size.value, crc.value));
  }

  /** (2): program info, up to the answer. */
  method ReceiveInfo(uart: Port, loader: Loader, ghost p: Pi)
    returns (accepted: Option<bool>, base: Word, size: Word, ghost k: nat, ghost q: Pi)
    requires p == PiStart(p.mem)
    modifies uart
    ensures Follows(p, old(uart.rx), k, q, loader) && uart.rx == old(uart.rx)[k..] && q.mem == p.mem
    ensures uart.tx == old(uart.tx) + q.replies
    ensures match accepted
      case None => q.phase in {AwaitInfo, ReadInfo} && uart.rx == []
      case Some(ok) =>
        if ok then q.phase == AwaitCode && q.seen == [] && q.base == base && q.size == size else q.phase == Rejected
  {
    hide BytesOf, EndsWith, PiRun, WordOf;
    ghost var input := uart.rx;
    base, size := 0, 0;
    var found := uart.WaitForOpcode(PUT_PROG_INFO);
    if !found {
      WaitThrough(p, PUT_PROG_INFO, input, loader);
      assert input[..|input|] == input;
      return None, 0, 0, |input|, p.(seen := input);
    }
    ghost var m: nat :| IsFirstMatch(input, PUT_PROG_INFO, m) && uart.rx == input[m..];
    PrefixMatch(input, PUT_PROG_INFO, m);
    WaitFinds(p, PUT_PROG_INFO, input[..m], loader);
    ghost var r, rest := p.(phase := ReadInfo), input[m..];
    var words := GetInfo(uart);
    if words.None? {
      ReadsInfo(r, rest, loader);
      SplitRun(p, r, input, m, |rest|, loader);
      assert rest[..|rest|] == rest && input[..|input|] == input;
      return None, 0, 0, |input|, r.(seen := rest);
    }
    ghost var info := rest[..12];
    ReadsInfo(r, info, loader);
    SplitRun(p, r, input, m, 12, loader);
    k := m + 12;
    q := AfterInfo(r, info, loader);
    base, size := words.value.0, words.value.1;
    accepted := Some((base + size) % UINT32_LIMIT <= loader.start || base >= loader.end);
    if !accepted.value {
      uart.Put32(BAD_CODE_ADDR);
    } else {
      uart.Put32(GET_CODE);
      uart.Put32(words.value.2);
    }
  }

  /** main: whatever comes in, the program reads, answers and stores what the byte-by-byte bootloader does. */
  method RunLoader(uart: Port, memory: Memory, loader: Loader, waits: nat)
    returns (ending: Ending, ghost k: nat, ghost q: Pi)
    modifies uart, memory
    ensures Follows(PiStart(old(memory.bytes)), old(uart.rx), k, q, loader) && uart.rx == old(uart.rx)[k..]
    ensures memory.bytes == q.mem && uart.tx == old(uart.tx) + Beacons(waits + 1) + q.replies
    ensures EndsAs(q, ending) && (ending == Starved ==> uart.rx == [])
  {
    hide BytesOf, PiRun;
    ghost var input, start := uart.rx, PiStart(memory.bytes);
    Beacon(uart, waits);
    var accepted, base, size, j, p := ReceiveInfo(uart, loader, start);
    if accepted != Some(true) {
      return if accepted.None? then Starved else Hangs, j, p;
    }
    var complete;
    complete, k, q := ReceiveCode(uart, memory, base, size, p, loader);
    SplitRun(start, p, input, j, k, loader);
    k := j + k;
    if complete {
      uart.Put32(BOOT_SUCCESS);
    }
    ending := if complete then Started else Starved;
  }
}
