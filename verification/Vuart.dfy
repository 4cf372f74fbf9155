/** vuart.c: one emulated mini UART register file per VM, sharing the physical UART. */
module Vuart {
  import opened Wrappers
  import opened Bits

  const AUX_ENABLES := 0x04
  const MU_IO := 0x40
  const MU_IER := 0x44
  const MU_IIR := 0x48
  const MU_LCR := 0x4C
  const MU_MCR := 0x50
  const MU_LSR := 0x54
  const MU_MSR := 0x58
  const MU_SCRATCH := 0x5C
  const MU_CNTL := 0x60
  const MU_STAT := 0x64
  const MU_BAUD := 0x68

  const LSR_RX_READY: Word := 0x1
  const LSR_TX_READY: Word := 0x20
  const LSR_TX_EMPTY: Word := 0x40
  const STAT_TX_CAN_ACCEPT: Word := 0x2

  /** x | y, which fits in 32 bits if x and y do */
  function Or32(x: Word, y: Word): Word {
    WordIsOnes();
    OrFits(x, y, 32);
    Or(x, y)
  }

  /** x & mask */
  function And32(x: Word, mask: nat): Word {
    AndFits(x, mask);
    And(x, mask)
  }

  /** HvVirtualUart */
  datatype Uart = Uart(auxEnables: Word, ier: Word, iir: Word, lcr: Word, mcr: Word, msr: Word,
                       scratch: Word, cntl: Word, stat: Word, baud: Word)

  const UART_ZERO := Uart(0, 0, 0, 0, 0, 0, 0, 0, 0, 0)

  /** The physical UART: bytes waiting to be read, and bytes sent. */
  datatype Line = Line(rx: seq<Word>, tx: seq<Word>)

  /** The registers that simply hold what was stored. */
  predicate Plain(offset: nat) {
    offset == MU_IER || offset == MU_IIR || offset == MU_LCR || offset == MU_MCR ||
    offset == MU_SCRATCH || offset == MU_CNTL || offset == MU_BAUD
  }

  predicate Writable(offset: nat) {
    Plain(offset) || offset == AUX_ENABLES || offset == MU_IO || offset == MU_STAT
  }

  predicate Readable(offset: nat) {
    Writable(offset) || offset == MU_LSR || offset == MU_MSR
  }

  /** The stored field behind an offset. */
  function Field(u: Uart, offset: nat): Word {
    if offset == AUX_ENABLES then u.auxEnables
    else if offset == MU_IER then u.ier
    else if offset == MU_IIR then u.iir
    else if offset == MU_LCR then u.lcr
    else if offset == MU_MCR then u.mcr
    else if offset == MU_MSR then u.msr
    else if offset == MU_SCRATCH then u.scratch
    else if offset == MU_CNTL then u.cntl
    else if offset == MU_STAT then u.stat
    else if offset == MU_BAUD then u.baud
    else 0
  }

  function Written(u: Uart, offset: nat, value: Word): Uart {
    if offset == AUX_ENABLES then u.(auxEnables := And32(value, 1))
    else if offset == MU_IER then u.(ier := value)
    else if offset == MU_IIR then u.(iir := value)
    else if offset == MU_LCR then u.(lcr := value)
    else if offset == MU_MCR then u.(mcr := value)
    else if offset == MU_SCRATCH then u.(scratch := value)
    else if offset == MU_CNTL then u.(cntl := value)
    else if offset == MU_STAT then u.(stat := value)
    else if offset == MU_BAUD then u.(baud := value)
    else u
  }

  function LineAfterWrite(line: Line, offset: nat, value: Word): Line {
    if offset == MU_IO then line.(tx := line.tx + [And32(value, 0xff)]) else line
  }

  function ReadValue(u: Uart, line: Line, offset: nat): Word {
    if offset == MU_IO then (if line.rx == [] then 0 else line.rx[0])
    else if offset == MU_LSR then
      var sending := Or32(LSR_TX_READY, LSR_TX_EMPTY);
      if line.rx == [] then sending else Or32(sending, LSR_RX_READY)
    else if offset == MU_STAT then Or32(u.stat, STAT_TX_CAN_ACCEPT)
    else Field(u, offset)
  }

  function LineAfterRead(line: Line, offset: nat): Line {
    if offset == MU_IO && line.rx != [] then line.(rx := line.rx[1..]) else line
  }

  predicate SizeOk(size: nat) {
    size == 1 || size == 2 || size == 4
  }

  /** The registers that hold what is stored there; of AUX_ENABLES (0x04) only bit 0. */
  predicate Holding(offset: nat) {
    offset in {0x04, 0x44, 0x48, 0x4c, 0x50, 0x5c, 0x60, 0x64, 0x68}
  }

  /** The offsets in numbers: those that hold what is stored, the data register (0x40), and, for reads only, the
      line status (0x54) and the modem status (0x58). */
  lemma OffsetsAre(offset: nat)
    ensures Writable(offset) <==> Holding(offset) || offset == 0x40
    ensures Readable(offset) <==> Holding(offset) || offset in {0x40, 0x54, 0x58}
  {
  }

  /** A write is seen in its own register and in no other. */
  lemma FieldAfterWrite(u: Uart, offset: nat, value: Word, other: nat)
    ensures Field(Written(u, offset, value), other) ==
      if !Holding(other) || other != offset then Field(u, other) else if other == 0x04 then value % 2 else value
  {
    hide And, Low, Ones;
    Masks();
    AndOnes(value, 1);
    Low1(value);
  }

  lemma OrTwo(x: nat)
    ensures Or(x, 2) == if x / 2 % 2 == 1 then x else x + 2
  {
    OrStep(x, 2);
    OrStep(x / 2, 1);
    assert Or(x / 4, 0) == x / 4;
  }

  /** What a read gives: the oldest received byte or 0; a line that can always send, and has received something if
      a byte waits; bit 1 of the status always set; elsewhere the register. */
  lemma ReadIs(u: Uart, line: Line, offset: nat)
    ensures ReadValue(u, line, offset) ==
      if offset == 0x40 then (if line.rx == [] then 0 else line.rx[0])
      else if offset == 0x54 then (if line.rx == [] then 0x60 else 0x61)
      else if offset == 0x64 then (if u.stat / 2 % 2 == 1 then u.stat else u.stat + 2)
      else Field(u, offset)
    ensures LineAfterRead(line, offset) ==
      line.(rx := if offset == 0x40 && line.rx != [] then line.rx[1..] else line.rx)
  {
    OrTwo(u.stat);
    assert Or(0x20, 0x40) == 0x60 && Or(0x60, 1) == 0x61;
  }

  lemma LowByte(value: Word)
    ensures And32(value, 0xff) == value % 0x100
  {
    hide And, Low;
    Low8(value);
    AndOnes(value, 8);
  }

  /** What a write sends: the low byte, and only from the data register. */
  lemma WriteSends(line: Line, offset: nat, value: Word)
    ensures LineAfterWrite(line, offset, value) == line.(tx := line.tx + if offset == 0x40 then [value % 0x100] else [])
  {
    hide And32;
    LowByte(value);
    assert line.tx + [] == line.tx;
  }

  /** The physical UART the driver talks to. */
  class Console {
    var line: Line

    method Put8(value: Word)
      modifies this
      ensures line == old(line).(tx := old(line).tx + [And32(value, 0xff)])
    {
      line := line.(tx := line.tx + [And32(value, 0xff)]);
    }

    method Get8Async() returns (c: Option<Word>)
      modifies this
      ensures c == if old(line).rx == [] then None else Some(old(line).rx[0])
      ensures line == if old(line).rx == [] then old(line) else old(line).(rx := old(line).rx[1..])
    {
      if line.rx == [] {
        return None;
      }
      c := Some(line.rx[0]);
      line := line.(rx := line.rx[1..]);
    }
  }

  class VirtualUarts {
    const vuarts: array<Uart>
    const console: Console

    constructor (vms: nat, console: Console)
      ensures vuarts.Length == vms && fresh(vuarts) && this.console == console
      ensures forall i :: 0 <= i < vms ==> vuarts[i] == UART_ZERO
    {
      vuarts := new Uart[vms](_ => UART_ZERO);
      this.console := console;
    }

    /** hv_vuart_write */
    method Write(vm: nat, offset: nat, value: Word, size: nat) returns (handled: bool)
      modifies vuarts, console
      ensures handled <==> vm < vuarts.Length && SizeOk(size) && Writable(offset)
      ensures vuarts[..] ==
        if handled then old(vuarts[..])[vm := Written(old(vuarts[vm]), offset, value)] else old(vuarts[..])
      ensures console.line == if handled then LineAfterWrite(old(console.line), offset, value) else old(console.line)
    {
      if !(vm < vuarts.Length && SizeOk(size)) {
        return false;
      }
      var uart := vuarts[vm];
      if offset == AUX_ENABLES {
        vuarts[vm] := uart.(auxEnables := And32(value, 1));
      } else if offset == MU_IO {
        console.Put8(value);
      } else if offset == MU_IER {
        vuarts[vm] := uart.(ier := value);
      } else if offset == MU_IIR {
        vuarts[vm] := uart.(iir := value);
      } else if offset == MU_LCR {
        vuarts[vm] := uart.(lcr := value);
      } else if offset == MU_MCR {
        vuarts[vm] := uart.(mcr := value);
      } else if offset == MU_SCRATCH {
        vuarts[vm] := uart.(scratch := value);
      } else if offset == MU_CNTL {
        vuarts[vm] := uart.(cntl := value);
      } else if offset == MU_STAT {
        vuarts[vm] := uart.(stat := value);
      } else if offset == MU_BAUD {
        vuarts[vm] := uart.(baud := value);
      } else {
        return false;
      }
      return true;
    }

    /** hv_vuart_read */
    method Read(vm: nat, offset: nat, size: nat) returns (handled: bool, value: Word)
      modifies console
      ensures handled <==> vm < vuarts.Length && SizeOk(size) && Readable(offset)
      ensures handled ==> value == ReadValue(vuarts[vm], old(console.line), offset)
      ensures console.line == if handled then LineAfterRead(old(console.line), offset) else old(console.line)
    {
      if !(vm < vuarts.Length && SizeOk(size)) {
        return false, 0;
      }
      var uart := vuarts[vm];
      if offset == MU_IO {
        var c := console.Get8Async();
        value := if c.None? then 0 else c.value;
      } else if offset == MU_LSR {
        value := Or32(LSR_TX_READY, LSR_TX_EMPTY);
        if console.line.rx != [] {
          value := Or32(value, LSR_RX_READY);
        }
      } else if offset == MU_STAT {
        value := Or32(uart.stat, STAT_TX_CAN_ACCEPT);
      } else if Readable(offset) {
        value := Field(uart, offset);
      } else {
        return false, 0;
      }
      return true, value;
    }
  }
}
