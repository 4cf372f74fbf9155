/** put-code.c: the host's side of the boot protocol. */
module BootHost {
  import opened Wrappers
  import opened Bits
  import opened BootCrc
  import opened BootWire

  /** What is to be loaded, and where. */
  datatype Image = Image(addr: Word, data: seq<Byte>)
  {
    predicate Fits() {
      |data| <= 0xffff_ffff
    }

    function Crc(): Word {
      BootCrc.Crc(seq(|data|, i requires 0 <= i < |data| => data[i] as bv8)) as nat
    }

    /** PUT_PROG_INFO, address, size and CRC */
    function Info(): (s: seq<Byte>)
      requires Fits()
      ensures |s| == 16
    {
      BytesOf(PUT_PROG_INFO) + Parameters()
    }

    function Parameters(): (s: seq<Byte>)
      requires Fits()
      ensures |s| == 12
    {
      BytesOf(addr) + BytesOf(|data|) + BytesOf(Crc())
    }

    /** PUT_CODE and the code */
    function Code(): seq<Byte> {
      BytesOf(PUT_CODE) + data
    }
  }

  datatype HostPhase = Seek | Skip | AwaitAnswer | AwaitCrc | AwaitDone | Success | Failed

  /** The host between two bytes: got is what it has of the current word, sent all it has sent. */
  datatype Host = Host(phase: HostPhase, got: seq<Byte>, sent: seq<Byte>)

  const HOST_START := Host(Seek, [], [])

  /** What a whole word does. */
  function HostWord(h: Host, word: Word, image: Image): Host
    requires image.Fits()
  {
    match h.phase
    case Seek =>
      if word == PRINT_STRING then h
      else if word == GET_PROG_INFO then h.(phase := AwaitAnswer, sent := h.sent + image.Info())
      else h.(phase := Skip)
    case AwaitAnswer =>
      if word == PRINT_STRING || word == GET_PROG_INFO then h
      else if word == GET_CODE then h.(phase := AwaitCrc)
      else h.(phase := Failed)
    case AwaitCrc =>
      if word == image.Crc() then h.(phase := AwaitDone, sent := h.sent + image.Code()) else h.(phase := Failed)
    case AwaitDone => h.(phase := if word == BOOT_SUCCESS then Success else Failed)
    case Skip | Success | Failed => h
  }

  /** What one more byte does. */
  function HostRecv(h: Host, b: Byte, image: Image): Host
    requires image.Fits()
  {
    match h.phase
    case Skip => h.(phase := Seek)
    case Success | Failed => h
    case _ =>
      var got := h.got + [b];
      if |got| == 4 then HostWord(h.(got := []), WordOf(got), image) else h.(got := got)
  }

  function HostRun(h: Host, s: seq<Byte>, image: Image): Host
    requires image.Fits()
  {
    if s == [] then h else HostRecv(HostRun(h, s[..|s| - 1], image), s[|s| - 1], image)
  }

  lemma {:induction false} HostRunAppend(h: Host, s: seq<Byte>, t: seq<Byte>, image: Image)
    requires image.Fits()
    ensures HostRun(h, s + t, image) == HostRun(HostRun(h, s, image), t, image)
    decreases |t|
  {
    hide HostRecv;
    if t == [] {
      assert s + t == s;
    } else {
      assert (s + t)[..|s + t| - 1] == s + t[..|t| - 1];
      HostRunAppend(h, s, t[..|t| - 1], image);
    }
  }

  predicate ReadsWords(phase: HostPhase) {
    phase in {Seek, AwaitAnswer, AwaitCrc, AwaitDone}
  }

  /** Up to four bytes, in a phase that reads words. */
  lemma {:induction false} HostReads(h: Host, s: seq<Byte>, image: Image)
    requires image.Fits() && ReadsWords(h.phase) && h.got == [] && |s| <= 4
    ensures HostRun(h, s, image) == if |s| == 4 then HostWord(h, WordOf(s), image) else h.(got := s)
    decreases |s|
  {
    hide HostWord, WordOf;
    if s == [] {
      assert h.(got := s) == h;
    } else {
      HostReads(h, s[..|s| - 1], image);
      assert s[..|s| - 1] + [s[|s| - 1]] == s;
      assert h.(got := []) == h;
    }
  }

  /** What each word means to a host that waits for one. While it seeks, and for its answer, text from the Pi is
      passed over; the code is sent exactly on the CRC of the data, and success reported exactly on BOOT_SUCCESS. */
  lemma WordsMean(h: Host, w: Word, image: Image)
    requires image.Fits() && ReadsWords(h.phase) && h.got == []
    ensures var g := HostRun(h, BytesOf(w), image);
      match h.phase
      case Seek =>
        if w == 0xdddd_eeee then g == h
        else if w == 0x1111_2222 then g == Host(AwaitAnswer, [], h.sent + image.Info())
        else g == Host(Skip, [], h.sent)
      case AwaitAnswer =>
        if w in {0xdddd_eeee, 0x1111_2222} then g == h
        else g == Host(if w == 0x5555_6666 then AwaitCrc else Failed, [], h.sent)
      case AwaitCrc =>
        g == if w == image.Crc() then Host(AwaitDone, [], h.sent + image.Code()) else Host(Failed, [], h.sent)
      case _ => g == Host(if w == 0x9999_aaaa then Success else Failed, [], h.sent)
  {
    hide BytesOf, WordOf, Image.Info, Image.Code, Image.Crc;
    WordRoundTrip(w);
    HostReads(h, BytesOf(w), image);
  }

  /** s is the data as 8-bit vectors. */
  predicate AsBits(data: seq<Byte>, s: seq<bv8>) {
    |s| == |data| && forall i :: 0 <= i < |s| ==> s[i] == data[i] as bv8
  }

  predicate AreWords(s: seq<Byte>, a: Word, b: Word, c: Word, d: Word) {
    |s| == 16 && WordOf(s[..4]) == a && WordOf(s[4..8]) == b && WordOf(s[8..12]) == c && WordOf(s[12..]) == d
  }

  /** The four words of the program info: the opcode, where the image goes, its size and its CRC. */
  lemma InfoCarries(image: Image)
    requires image.Fits()
    ensures AreWords(image.Info(), 0x3333_4444, image.addr, |image.data|, image.Crc())
  {
    hide BytesOf, WordOf, Image.Crc;
    var t := image.Info();
    assert t[..4] == BytesOf(PUT_PROG_INFO) && t[4..8] == BytesOf(image.addr);
    assert t[8..12] == BytesOf(|image.data|) && t[12..] == BytesOf(image.Crc());
    WordRoundTrip(PUT_PROG_INFO);
    WordRoundTrip(image.addr);
    WordRoundTrip(|image.data|);
    WordRoundTrip(image.Crc());
  }

  /** That CRC is the bit-by-bit CRC of the data. */
  lemma CrcIs(image: Image, s: seq<bv8>)
    requires AsBits(image.data, s)
    ensures image.Crc() == NatOf(BootCrc.Crc(s))
  {
    hide BootCrc.Crc;
    assert s == seq(|image.data|, i requires 0 <= i < |image.data| => image.data[i] as bv8);
  }

  // ----- Realignment -----

  /** s is a piece of a stream that repeats GET_PROG_INFO, and ends where a word ends. */
  ghost predicate Cyclic(s: seq<Byte>) {
    forall k :: 0 <= k < |s| ==> s[k] == BytesOf(GET_PROG_INFO)[(k + 3 * |s|) % 4]
  }

  lemma InfoBytes()
    ensures BytesOf(GET_PROG_INFO) == [0x22, 0x22, 0x11, 0x11]
  {
    hide BytesOf;
    BytesAre(GET_PROG_INFO);
  }

  lemma Mod4(a: nat, m: nat)
    ensures (a + 4 * m) % 4 == a % 4
  {
  }

  lemma CyclicTail(s: seq<Byte>, n: nat)
    requires Cyclic(s) && n <= |s|
    ensures Cyclic(s[n..])
  {
    hide BytesOf;
    forall k | 0 <= k < |s| - n
      ensures s[n..][k] == BytesOf(GET_PROG_INFO)[(k + 3 * (|s| - n)) % 4]
    {
      Mod4(k + 3 * (|s| - n), n);
      assert s[n + k] == BytesOf(GET_PROG_INFO)[(n + k + 3 * |s|) % 4];
    }
  }

  /** Four bytes of such a stream are the word GET_PROG_INFO exactly if they start where a word starts; they
      are never PRINT_STRING. */
  lemma CyclicWord(s: seq<Byte>)
    requires Cyclic(s) && |s| >= 4
    ensures WordOf(s[..4]) == GET_PROG_INFO <==> |s| % 4 == 0
    ensures WordOf(s[..4]) != PRINT_STRING
  {
    hide BytesOf;
    InfoBytes();
    var r := 3 * |s| % 4;
    assert forall k :: 0 <= k < 4 ==> s[k] == BytesOf(GET_PROG_INFO)[(k + r) % 4];
    assert |s| % 4 == 0 <==> r == 0;
  }

  /** Starting anywhere in repeated GET_PROG_INFO words, the host finds their beat after skipping as many bytes
      as are left of the first word, which is at most three. */
  lemma {:induction false} Realigns(s: seq<Byte>, skips: nat, image: Image)
    requires image.Fits() && Cyclic(s) && skips == |s| % 4 && |s| >= 5 * skips + 4
    ensures HostRun(HOST_START, s[..5 * skips + 4], image).phase == AwaitAnswer
    ensures skips > 0 ==> HostRun(HOST_START, s[..5 * skips], image) == HOST_START
    decreases skips
  {
    hide BytesOf, WordOf, HostRun, Cyclic;
    CyclicWord(s);
    HostReads(HOST_START, s[..4], image);
    if skips > 0 {
      SkipOne(s, image);
      CyclicTail(s, 5);
      Realigns(s[5..], skips - 1, image);
      HostRunAppend(HOST_START, s[..5], s[5..][..5 * skips - 1], image);
      assert s[..5] + s[5..][..5 * skips - 1] == s[..5 * skips + 4];
      HostRunAppend(HOST_START, s[..5], s[5..][..5 * skips - 5], image);
      assert s[..5] + s[5..][..5 * skips - 5] == s[..5 * skips];
      RunNothing(image);
      assert skips == 1 ==> s[5..][..0] == [];
    }
  }

  lemma RunNothing(image: Image)
    requires image.Fits()
    ensures HostRun(HOST_START, [], image) == HOST_START
  {
  }

  lemma SkipOne(s: seq<Byte>, image: Image)
    requires image.Fits() && Cyclic(s) && |s| >= 5 && |s| % 4 != 0
    ensures HostRun(HOST_START, s[..5], image) == HOST_START
  {
    hide BytesOf, WordOf, Cyclic;
    CyclicWord(s);
    HostReads(HOST_START, s[..4], image);
    assert s[..5][..4] == s[..4];
  }

  // ----- The program -----

  datatype Ending = Booted | Refused | TimedOut

  predicate EndsAs(h: Host, e: Ending) {
    match e
    case Booted => h.phase == Success
    case Refused => h.phase == Failed
    case TimedOut => h.phase != Success && h.phase != Failed
  }

  ghost predicate Follows(h: Host, input: seq<Byte>, k: nat, g: Host, image: Image)
    requires image.Fits()
  {
    k <= |input| && g == HostRun(h, input[..k], image)
  }

  lemma SplitRun(h: Host, g: Host, input: seq<Byte>, m: nat, k: nat, image: Image)
    requires image.Fits() && m <= |input| && Follows(h, input, m, g, image) && k <= |input[m..]|
    ensures m + k <= |input| && HostRun(h, input[..m + k], image) == HostRun(g, input[m..][..k], image)
  {
    hide HostRecv;
    HostRunAppend(h, input[..m], input[m..][..k], image);
    Slices(input, m, k);
  }

  /** One word, in a phase that reads words. */
  method ReadWord(tty: Port, image: Image, ghost h: Host) returns (word: Option<Word>, ghost k: nat, ghost g: Host)
    requires image.Fits() && ReadsWords(h.phase) && h.got == []
    modifies tty`rx
    ensures Follows(h, old(tty.rx), k, g, image) && tty.rx == old(tty.rx)[k..]
    ensures word.None? ==> tty.rx == [] && g == h.(got := g.got)
    ensures word.Some? ==> k == 4 && g == HostWord(h, word.value, image)
  {
    hide WordOf, HostWord, HostRun;
    ghost var input := tty.rx;
    word := tty.Get32();
    k := if word.None? then |input| else 4;
    HostReads(h, input[..k], image);
    g := HostRun(h, input[..k], image);
  }

  /** get_op: the next word that is not PRINT_STRING */
  method GetOp(tty: Port, image: Image, ghost h: Host) returns (op: Option<Word>, ghost k: nat, ghost g: Host)
    requires image.Fits() && h.phase in {Seek, AwaitAnswer} && h.got == []
    modifies tty`rx
    ensures Follows(h, old(tty.rx), k, g, image) && tty.rx == old(tty.rx)[k..]
    ensures op.None? ==> tty.rx == [] && g == h.(got := g.got)
    ensures op.Some? ==> k >= 4 && op.value != PRINT_STRING && g == HostWord(h, op.value, image)
  {
    hide HostRun, Image.Info;
    ghost var input := tty.rx;
    k, g := 0, h;
    FollowsStart(h, input, image);
    while true
      invariant Follows(h, input, k, h, image) && tty.rx == input[k..]
      decreases |tty.rx|
    {
      ghost var j;
      op, j, g := ReadWord(tty, image, h);
      SplitRun(h, h, input, k, j, image);
      k := k + j;
      if op != Some(PRINT_STRING) {
        return;
      }
    }
  }

  lemma FollowsStart(h: Host, input: seq<Byte>, image: Image)
    requires image.Fits()
    ensures Follows(h, input, 0, h, image)
  {
    assert input[..0] == [];
  }

  /** The first loop of put_code: until the Pi is heard in step. */
  method SeekPi(tty: Port, image: Image) returns (found: bool, ghost k: nat, ghost g: Host)
    requires image.Fits()
    modifies tty`rx
    ensures Follows(HOST_START, old(tty.rx), k, g, image) && tty.rx == old(tty.rx)[k..]
    ensures if found then g == Host(AwaitAnswer, [], image.Info())
            else tty.rx == [] && g.phase in {Seek, Skip} && g.sent == []
  {
    hide HostRun, Image.Info;
    ghost var input := tty.rx;
    k, g := 0, HOST_START;
    FollowsStart(HOST_START, input, image);
    while true
      invariant Follows(HOST_START, input, k, HOST_START, image) && tty.rx == input[k..]
      decreases |tty.rx|
    {
      ghost var j;
      var op;
      op, j, g := GetOp(tty, image, HOST_START);
      SplitRun(HOST_START, HOST_START, input, k, j, image);
      k := k + j;
      if op.None? {
        return false, k, g;
      }
      if op.value == GET_PROG_INFO {
        return true, k, g;
      }
      var b := tty.Get8();
      if b.None? {
        return false, k, g;
      }
      SkipsByte(g, input[k..], image);
      SplitRun(HOST_START, g, input, k, 1, image);
      k := k + 1;
    }
  }

  lemma SkipsByte(h: Host, s: seq<Byte>, image: Image)
    requires image.Fits() && h.phase == Skip && |s| >= 1
    ensures HostRun(h, s[..1], image) == h.(phase := Seek)
  {
    assert s[..1][..0] == [];
  }

  /** "Clear garbage again": the next word that is neither PRINT_STRING nor GET_PROG_INFO */
  method GetAnswer(tty: Port, image: Image, ghost h: Host) returns (word: Option<Word>, ghost k: nat, ghost g: Host)
    requires image.Fits() && h.phase == AwaitAnswer && h.got == []
    modifies tty`rx
    ensures Follows(h, old(tty.rx), k, g, image) && tty.rx == old(tty.rx)[k..]
    ensures word.None? ==> tty.rx == [] && g == h.(got := g.got)
    ensures word.Some? ==> g == h.(phase := if word.value == GET_CODE then AwaitCrc else Failed)
  {
    hide HostRun, Image.Info;
    ghost var input := tty.rx;
    k, g := 0, h;
    FollowsStart(h, input, image);
    while true
      invariant Follows(h, input, k, h, image) && tty.rx == input[k..]
      decreases |tty.rx|
    {
      ghost var j;
      word, j, g := GetOp(tty, image, h);
      SplitRun(h, h, input, k, j, image);
      k := k + j;
      if word != Some(GET_PROG_INFO) {
        return;
      }
    }
  }

  /** crc32 of the code, by the table-driven loop */
  method ComputeCrc(image: Image) returns (crc: Word)
    ensures crc == image.Crc()
  {
    var bits := Crc32Inc(seq(|image.data|, i requires 0 <= i < |image.data| => image.data[i] as bv8), 0);
    crc := bits as nat;
  }

  method SendInfo(tty: Port, image: Image)
    requires image.Fits()
    modifies tty`tx
    ensures tty.tx == old(tty.tx) + image.Info()
  {
    hide BytesOf, Image.Crc;
    tty.Put32(PUT_PROG_INFO);
    tty.Put32(image.addr);
    tty.Put32(|image.data|);
    var crc := ComputeCrc(image);
    tty.Put32(crc);
  }

  method SendCode(tty: Port, image: Image)
    modifies tty`tx
    ensures tty.tx == old(tty.tx) + image.Code()
  {
    hide BytesOf;
    tty.Put32(PUT_CODE);
    for i := 0 to |image.data|
      invariant tty.tx == old(tty.tx) + BytesOf(PUT_CODE) + image.data[..i]
    {
      tty.Put8(image.data[i]);
    }
  }

  /** The rest of put_code, once the Pi has been heard: the answer, the CRC, the code, the result. */
  method Transfer(tty: Port, image: Image, ghost h: Host) returns (ending: Ending, ghost k: nat, ghost g: Host)
    requires image.Fits() && h.phase == AwaitAnswer && h.got == []
    modifies tty
    ensures Follows(h, old(tty.rx), k, g, image) && tty.rx == old(tty.rx)[k..]
    ensures old(tty.tx) <= tty.tx && g.sent == h.sent + tty.tx[|old(tty.tx)|..]
    ensures EndsAs(g, ending) && (ending == TimedOut ==> tty.rx == [])
  {
    hide HostRun, Image.Info, Image.Code, Image.Crc, BytesOf;
    ghost var input, j := tty.rx, 0;
    var word;
    word, k, g := GetAnswer(tty, image, h);
    if word != Some(GET_CODE) {
      return if word.None? then TimedOut else Refused, k, g;
    }
    ghost var g1 := g;
    word, j, g := ReadWord(tty, image, g1);
    SplitRun(h, g1, input, k, j, image);
    k := k + j;
    var crc := ComputeCrc(image);
    if word != Some(crc) {
      return if word.None? then TimedOut else Refused, k, g;
    }
    ghost var g2 := g;
    SendCode(tty, image);
    word, j, g := ReadWord(tty, image, g2);
    SplitRun(h, g2, input, k, j, image);
    k := k + j;
    ending := if word.None? then TimedOut else if word.value == BOOT_SUCCESS then Booted else Refused;
  }

  /** put_code: whatever comes in, the program reads, sends and reports what the byte-by-byte host does. */
  method PutCode(tty: Port, image: Image) returns (ending: Ending, ghost k: nat, ghost g: Host)
    requires image.Fits()
    modifies tty
    ensures Follows(HOST_START, old(tty.rx), k, g, image) && tty.rx == old(tty.rx)[k..]
    ensures tty.tx == old(tty.tx) + g.sent
    ensures EndsAs(g, ending) && (ending == TimedOut ==> tty.rx == [])
  {
    hide HostRun, Image.Info;
    ghost var input, tx := tty.rx, tty.tx;
    var found;
    found, k, g := SeekPi(tty, image);
    if !found {
      return TimedOut, k, g;
    }
    SendInfo(tty, image);
    ghost var j, g1 := 0, g;
    ending, j, g := Transfer(tty, image, g1);
    SplitRun(HOST_START, g1, input, k, j, image);
    k := k + j;
  }
}
