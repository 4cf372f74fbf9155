/** boot-defs.h, boot-mmio.h and boot-unix-io.c: words as bytes on the serial line, and the search for an
    opcode in a stream. */
module BootWire {
  import opened Wrappers
  import opened Bits

  type Byte = x: nat | x < 0x100

  const GET_PROG_INFO: Word := 0x1111_2222
  const PUT_PROG_INFO: Word := 0x3333_4444
  const GET_CODE: Word := 0x5555_6666
  const PUT_CODE: Word := 0x7777_8888
  const BOOT_SUCCESS: Word := 0x9999_aaaa
  const BAD_CODE_ADDR: Word := 0xdead_0002
  const PRINT_STRING: Word := 0xdddd_eeee

  // ----- Words and bytes -----

  /** (u >> 8 * i) & 0xff */
  function ByteAt(u: Word, i: nat): Byte
    requires i < 4
  {
    AndOnes(Shr(u, 8 * i), 8);
    Low8(Shr(u, 8 * i));
    And(Shr(u, 8 * i), 0xff)
  }

  /** boot_putuint32 and unix_putuint32: low byte first. */
  function BytesOf(u: Word): (s: seq<Byte>)
    ensures |s| == 4
  {
    [ByteAt(u, 0), ByteAt(u, 1), ByteAt(u, 2), ByteAt(u, 3)]
  }

  lemma ByteIs(u: Word, i: nat)
    requires i < 4
    ensures ByteAt(u, i) == Shr(u, 8 * i) % 0x100
  {
    hide And, Shr, Low;
    AndOnes(Shr(u, 8 * i), 8);
    Low8(Shr(u, 8 * i));
  }

  lemma ShrBytes(u: nat)
    ensures Shr(u, 0) == u && Shr(u, 8) == u / 0x100
    ensures Shr(u, 16) == u / 0x100 / 0x100 && Shr(u, 24) == u / 0x100 / 0x100 / 0x100
  {
    ShrZero(u);
    hide Shr;
    ShrAdd(u, 8, 8);
    ShrAdd(u, 8, 16);
    ShrAdd(u / 0x100, 8, 8);
    Shr8(u);
    Shr8(u / 0x100);
    Shr8(u / 0x100 / 0x100);
  }

  lemma BytesAre(u: Word)
    ensures BytesOf(u) == [u % 0x100, u / 0x100 % 0x100, u / 0x1_0000 % 0x100, u / 0x100_0000]
  {
    hide ByteAt, Shr;
    ByteIs(u, 0);
    ByteIs(u, 1);
    ByteIs(u, 2);
    ByteIs(u, 3);
    ShrBytes(u);
    Quotients(u);
  }

  lemma ShrZero(u: nat)
    ensures Shr(u, 0) == u
  {
  }

  /** The word that boot_getuint32 and unix_getuint32 assemble: u |= byte << 8 * i. */
  function Assembled(s: seq<Byte>): nat
    requires |s| == 4
  {
    Or(Or(Or(Or(0, Shl(s[0], 0)), Shl(s[1], 8)), Shl(s[2], 16)), Shl(s[3], 24))
  }

  function WordOf(s: seq<Byte>): Word
    requires |s| == 4
  {
    Sum(s[0], s[1], s[2], s[3])
  }

  function Sum(a: nat, b: nat, c: nat, d: nat): nat {
    a + 0x100 * b + 0x1_0000 * c + 0x100_0000 * d
  }

  lemma ShlBytes(x: nat)
    ensures Shl(x, 0) == x && Shl(x, 8) == 0x100 * x && Shl(x, 16) == 0x1_0000 * x && Shl(x, 24) == 0x100_0000 * x
  {
    assert Shl(x, 0) == x;
    hide Shl;
    Shl12(x);
    ShlAdd(x, 8, 8);
    Shl12(0x100 * x);
    ShlAdd(x, 8, 16);
    Shl12(0x1_0000 * x);
  }

  /** Adding a byte above n bits. */
  lemma OrByte(low: nat, b: Byte, n: nat)
    requires n in {8, 16, 24} && low <= Ones(n)
    ensures Or(low, Shl(b, n)) == low + Shl(b, n)
  {
    hide Or, Shl;
    OrDisjoint(b, low, n);
    OrCommutes(low, Shl(b, n));
  }

  lemma OrZero(x: nat)
    ensures Or(0, Shl(x, 0)) == x
  {
  }

  lemma AssembledIsWord(s: seq<Byte>)
    requires |s| == 4
    ensures Assembled(s) == WordOf(s)
  {
    hide Or, Shl;
    OrZero(s[0]);
    ByteMasks();
    ShlBytes(s[1]);
    ShlBytes(s[2]);
    ShlBytes(s[3]);
    OrByte(s[0], s[1], 8);
    OrByte(Sum(s[0], s[1], 0, 0), s[2], 16);
    OrByte(Sum(s[0], s[1], s[2], 0), s[3], 24);
  }

  /** What one side puts, the other gets. */
  lemma WordRoundTrip(u: Word)
    ensures WordOf(BytesOf(u)) == u
  {
    hide BytesOf;
    BytesAre(u);
    var a := u / 0x100;
    var b := a / 0x100;
    assert u / 0x1_0000 == b && u / 0x100_0000 == b / 0x100;
    assert u == u % 0x100 + 0x100 * a && a == a % 0x100 + 0x100 * b && b == b % 0x100 + 0x100 * (b / 0x100);
  }

  lemma BytesRoundTrip(s: seq<Byte>)
    requires |s| == 4
    ensures BytesOf(WordOf(s)) == s
  {
    hide BytesOf;
    var u := WordOf(s);
    BytesAre(u);
    var b := Sum(s[1], s[2], s[3], 0);
    var d := Sum(s[2], s[3], 0, 0);
    Digit(s[0], b);
    Digit(s[1], d);
    Digit(s[2], s[3]);
    Quotients(u);
  }

  lemma Quotients(u: nat)
    ensures u / 0x1_0000 == u / 0x100 / 0x100 && u / 0x100_0000 == u / 0x100 / 0x100 / 0x100
  {
  }

  lemma Digit(a: nat, rest: nat)
    requires a < 0x100
    ensures (a + 0x100 * rest) % 0x100 == a && (a + 0x100 * rest) / 0x100 == rest
  {
  }

  // ----- The search window -----

  /** window >>= 8; window |= byte << 24 */
  function Push(window: Word, b: Byte): Word {
    PushIs(window, b);
    Or(Shr(window, 8), Shl(b, 24))
  }

  function Pushed(window: nat, b: nat): nat {
    window / 0x100 + 0x100_0000 * b
  }

  lemma PushIs(window: Word, b: Byte)
    ensures Or(Shr(window, 8), Shl(b, 24)) == Pushed(window, b)
  {
    hide Or, Shr, Shl;
    ByteMasks();
    Shr8(window);
    ShlBytes(b);
    OrByte(window / 0x100, b, 24);
  }

  function Window(s: seq<Byte>): Word {
    if s == [] then 0 else Push(Window(s[..|s| - 1]), s[|s| - 1])
  }

  predicate EndsWith(s: seq<Byte>, op: Word) {
    |s| >= 4 && s[|s| - 4..] == BytesOf(op)
  }

  lemma WindowStep(s: seq<Byte>)
    requires s != []
    ensures Window(s) == Pushed(Window(s[..|s| - 1]), s[|s| - 1])
  {
    PushIs(Window(s[..|s| - 1]), s[|s| - 1]);
  }

  lemma ShiftSum(q: nat, m: nat)
    ensures (q + 0x100 * m) / 0x100 == q / 0x100 + m
  {
  }

  lemma FourPushes(w: Word, a: Byte, b: Byte, c: Byte, d: Byte)
    ensures Pushed(Pushed(Pushed(Pushed(w, a), b), c), d) == Sum(a, b, c, d)
  {
    var q := w / 0x100;
    ShiftSum(q, Sum(0, 0, a, 0));
    ShiftSum(q / 0x100, Sum(0, a, b, 0));
    ShiftSum(q / 0x100 / 0x100, Sum(a, b, c, 0));
  }

  lemma WindowTwo(s: seq<Byte>)
    requires |s| >= 2
    ensures Window(s) == Pushed(Pushed(Window(s[..|s| - 2]), s[|s| - 2]), s[|s| - 1])
  {
    hide Window, Pushed;
    WindowStep(s);
    WindowStep(s[..|s| - 1]);
    assert s[..|s| - 1][..|s| - 2] == s[..|s| - 2];
  }

  /** Once four bytes have been pushed, the window is the word they make. */
  lemma WindowIsLastWord(s: seq<Byte>)
    requires |s| >= 4
    ensures Window(s) == WordOf(s[|s| - 4..])
  {
    hide Window, Pushed, Sum;
    var n := |s|;
    var early := s[..n - 2];
    WindowTwo(s);
    WindowTwo(early);
    assert early[..n - 4] == s[..n - 4] && early[n - 4] == s[n - 4] && early[n - 3] == s[n - 3];
    FourPushes(Window(s[..n - 4]), s[n - 4], s[n - 3], s[n - 2], s[n - 1]);
  }

  lemma WindowMatches(s: seq<Byte>, op: Word)
    ensures |s| >= 4 && Window(s) == op <==> EndsWith(s, op)
  {
    hide BytesOf, Window;
    if |s| >= 4 {
      WindowIsLastWord(s);
      WordRoundTrip(op);
      BytesRoundTrip(s[|s| - 4..]);
    }
  }

  /** op ends no prefix of s. */
  ghost predicate Without(s: seq<Byte>, op: Word) {
    forall k :: 0 <= k <= |s| ==> !EndsWith(s[..k], op)
  }

  /** No proper prefix of op's bytes is also a suffix. */
  predicate BorderFree(op: Word) {
    var b := BytesOf(op);
    b[0] != b[3] && b[..2] != b[2..] && b[..3] != b[1..]
  }

  lemma OpcodesBorderFree()
    ensures BorderFree(PUT_PROG_INFO) && BorderFree(PUT_CODE)
  {
    hide BytesOf;
    BytesAre(PUT_PROG_INFO);
    BytesAre(PUT_CODE);
    assert BytesOf(PUT_PROG_INFO) == [0x44, 0x44, 0x33, 0x33];
    assert BytesOf(PUT_CODE) == [0x88, 0x88, 0x77, 0x77];
  }

  /** Junk before an opcode does not hide it: it is found at its own end and nowhere before. */
  lemma FoundExactly(junk: seq<Byte>, op: Word, k: nat)
    requires Without(junk, op) && BorderFree(op) && k <= |junk| + 4
    ensures EndsWith((junk + BytesOf(op))[..k], op) <==> k == |junk| + 4
  {
    hide BytesOf;
    var s, b := junk + BytesOf(op), BytesOf(op);
    if k == |junk| + 4 {
      assert s[..k] == s;
    } else if k <= |junk| {
      assert s[..k] == junk[..k];
    } else if k >= 4 {
      var d := k - |junk|;
      var w := s[..k][k - 4..];
      assert forall j :: 0 <= j < d ==> w[4 - d + j] == b[j];
      assert w[4 - d..] == b[..d];
      assert b[4 - d..] != b[..d];
    }
  }

  lemma Slices(s: seq<Byte>, m: nat, k: nat)
    requires m <= |s| && k <= |s[m..]|
    ensures m + k <= |s| && s[..m] + s[m..][..k] == s[..m + k]
  {
  }

  // ----- One end of the line -----

  /** A UART or tty: the bytes still to come in, and the bytes sent. */
  class Port {
    var rx: seq<Byte>
    var tx: seq<Byte>

    /** One byte, or None if no more ever comes: the Pi waits for ever, the host times out. */
    method Get8() returns (b: Option<Byte>)
      modifies this`rx
      ensures b == if old(rx) == [] then None else Some(old(rx)[0])
      ensures rx == if old(rx) == [] then [] else old(rx)[1..]
    {
      if rx == [] {
        return None;
      }
      b := Some(rx[0]);
      rx := rx[1..];
    }

    method Put8(b: Byte)
      modifies this`tx
      ensures tx == old(tx) + [b]
    {
      tx := tx + [b];
    }

    /** boot_getuint32, unix_getuint32 */
    method Get32() returns (u: Option<Word>)
      modifies this`rx
      ensures u.None? <==> |old(rx)| < 4
      ensures u.Some? ==> u.value == WordOf(old(rx)[..4]) && rx == old(rx)[4..]
      ensures u.None? ==> rx == []
    {
      hide Or, Shl;
      var bytes: seq<Byte> := [];
      for i := 0 to 4
        invariant |bytes| == i <= |old(rx)| && bytes == old(rx)[..i] && rx == old(rx)[i..]
      {
        var b := Get8();
        if b.None? {
          return None;
        }
        bytes := bytes + [b.value];
      }
      AssembledIsWord(bytes);
      return Some(Assembled(bytes));
    }

    /** boot_putuint32, unix_putuint32 */
    method Put32(u: Word)
      modifies this`tx
      ensures tx == old(tx) + BytesOf(u)
    {
      hide ByteAt;
      for i := 0 to 4
        invariant tx == old(tx) + BytesOf(u)[..i]
      {
        Put8(ByteAt(u, i));
      }
    }

    /** boot_wait_for_opcode: reads up to and including the first occurrence of expected. */
    method WaitForOpcode(expected: Word) returns (found: bool)
      modifies this`rx
      ensures found ==> exists k: nat :: IsFirstMatch(old(rx), expected, k) && rx == old(rx)[k..]
      ensures !found ==> Without(old(rx), expected) && rx == []
    {
      hide BytesOf, EndsWith, Window, Push;
      var window: Word, nbytes := 0, 0;
      assert Window([]) == 0 by { WindowEmpty(); }
      while window != expected || nbytes < 4
        invariant nbytes <= |old(rx)| && rx == old(rx)[nbytes..] && window == Window(old(rx)[..nbytes])
        invariant forall j :: 0 <= j < nbytes ==> !EndsWith(old(rx)[..j], expected)
        decreases |old(rx)| - nbytes
      {
        WindowMatches(old(rx)[..nbytes], expected);
        var b := Get8();
        if b.None? {
          return false;
        }
        assert old(rx)[..nbytes + 1][..nbytes] == old(rx)[..nbytes];
        WindowPush(old(rx)[..nbytes + 1]);
        window := Push(window, b.value);
        nbytes := nbytes + 1;
      }
      WindowMatches(old(rx)[..nbytes], expected);
      assert IsFirstMatch(old(rx), expected, nbytes);
      return true;
    }
  }

  lemma WindowEmpty()
    ensures Window([]) == 0
  {
  }

  lemma WindowPush(s: seq<Byte>)
    requires s != []
    ensures Window(s) == Push(Window(s[..|s| - 1]), s[|s| - 1])
  {
  }

  /** op ends the first k bytes of s, and no fewer. */
  ghost predicate IsFirstMatch(s: seq<Byte>, op: Word, k: nat) {
    k <= |s| && EndsWith(s[..k], op) && forall j :: 0 <= j < k ==> !EndsWith(s[..j], op)
  }

  /** boot_wait_for_opcode consumes exactly the junk and the opcode. */
  lemma WaitConsumesJunk(junk: seq<Byte>, op: Word, rest: seq<Byte>, k: nat)
    requires Without(junk, op) && BorderFree(op) && IsFirstMatch(junk + BytesOf(op) + rest, op, k)
    ensures k == |junk| + 4
  {
    hide BytesOf, EndsWith;
    var s := junk + BytesOf(op) + rest;
    FoundExactly(junk, op, |junk| + 4);
    assert s[..|junk| + 4] == (junk + BytesOf(op))[..|junk| + 4];
    assert k < |junk| + 4 ==> s[..k] == (junk + BytesOf(op))[..k];
    FoundExactly(junk, op, if k < |junk| + 4 then k else |junk| + 4);
  }
}
