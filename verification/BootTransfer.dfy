/** The two programs of the boot protocol, joined by two lossless byte FIFOs, in every interleaving. */
module BootTransfer {
  import opened Wrappers
  import opened Bits
  import opened BootWire
  import opened BootHost
  import opened BootPi

  /** What is fixed in a run: the image, where the bootloader lies, the memory before, the junk already on its
      way to the Pi, and the beacon bytes already on their way to the host. */
  datatype Setting = Setting(image: Image, loader: Loader, mem: map<nat, Byte>, junk: seq<Byte>, tail: seq<Byte>)
  {
    /** The junk does not contain the opcode the Pi waits for, the host may have missed any part of the beacons
        before, and an accepted image does not overwrite the bootloader that is receiving it. */
    ghost predicate Ok() {
      image.Fits() && Without(junk, PUT_PROG_INFO) && Cyclic(tail) && (Rejects() || Survives())
    }

    /** The bootloader is still there when the image has come. */
    ghost predicate Survives()
      requires image.Fits()
    {
      !Overwrites(image.addr, |image.data|, loader)
    }

    predicate Rejects()
      requires image.Fits()
    {
      Collides(image.addr, |image.data|, loader)
    }
  }

  /** Both programs, how much of what each has to send it has put, and the FIFOs. piRead is all the Pi has read. */
  datatype System = System(host: Host, hostPut: nat, pi: Pi, piPut: nat, beacons: nat,
                           toPi: seq<Byte>, toHost: seq<Byte>, piRead: seq<Byte>)
  {
    /** Everything the Pi has decided to send. */
    function PiSent(): seq<Byte> {
      Beacons(beacons) + pi.replies
    }
  }

  function Start(c: Setting): System {
    System(HOST_START, 0, PiStart(c.mem), 0, 1, c.junk, c.tail, [])
  }

  // ----- Steps: one byte put or got by one side, or one more beacon -----

  predicate HostPuts(s: System, t: System) {
    s.hostPut < |s.host.sent| && t == s.(hostPut := s.hostPut + 1, toPi := s.toPi + [s.host.sent[s.hostPut]])
  }

  /** A side reads only when it has put everything it has to send. */
  predicate HostGets(s: System, t: System, c: Setting)
    requires c.image.Fits()
  {
    s.hostPut == |s.host.sent| && s.toHost != [] && s.host.phase != Success && s.host.phase != Failed &&
    t == s.(host := HostRecv(s.host, s.toHost[0], c.image), toHost := s.toHost[1..])
  }

  predicate PiPuts(s: System, t: System) {
    s.piPut < |s.PiSent()| && t == s.(piPut := s.piPut + 1, toHost := s.toHost + [s.PiSent()[s.piPut]])
  }

  predicate PiGets(s: System, t: System, c: Setting) {
    s.piPut == |s.PiSent()| && s.toPi != [] && s.pi.phase != Done && s.pi.phase != Rejected &&
    t == s.(pi := PiRecv(s.pi, s.toPi[0], c.loader), toPi := s.toPi[1..], piRead := s.piRead + [s.toPi[0]])
  }

  /** 300 ms without data, before any came */
  predicate PiBeacons(s: System, t: System) {
    s.piPut == |s.PiSent()| && s.toPi == [] && s.piRead == [] && t == s.(beacons := s.beacons + 1)
  }

  predicate Next(s: System, t: System, c: Setting)
    requires c.image.Fits()
  {
    HostPuts(s, t) || HostGets(s, t, c) || PiPuts(s, t) || PiGets(s, t, c) || PiBeacons(s, t)
  }

  // ----- What the Pi has done once it has read part of what the host sends -----

  /** All that ever goes to the Pi. */
  function Script(c: Setting): seq<Byte>
    requires c.image.Fits()
  {
    c.junk + c.image.Info() + c.image.Code()
  }

  function Answer(c: Setting): (s: seq<Byte>)
    requires c.image.Fits()
    ensures |s| == 8
  {
    BytesOf(GET_CODE) + BytesOf(c.image.Crc())
  }

  /** The Pi's state after n bytes of the script, as far as the other side can tell. */
  ghost predicate PiAt(p: Pi, n: nat, c: Setting)
    requires c.image.Fits()
  {
    var (j, d) := (|c.junk|, |c.image.data|);
    if n < j + 4 then p.phase == AwaitInfo && p.replies == [] && p.mem == c.mem
    else if n < j + 16 then p.phase == ReadInfo && p.replies == [] && p.mem == c.mem
    else if c.Rejects() then p.phase == Rejected && p.replies == BytesOf(BAD_CODE_ADDR) && p.mem == c.mem
    else if n < j + 20 then p.phase == AwaitCode && p.replies == Answer(c) && p.mem == c.mem
    else if n < j + 20 + d then p.phase == ReadCode && p.replies == Answer(c)
    else
      p.phase == Done && p.replies == Answer(c) + BytesOf(BOOT_SUCCESS) &&
      p.mem == Loaded(c.mem, c.image.addr, c.image.data)
  }

  lemma OpcodeFirstMatch(junk: seq<Byte>, op: Word)
    requires Without(junk, op) && BorderFree(op)
    ensures IsFirstMatch(junk + BytesOf(op), op, |junk| + 4)
  {
    hide BytesOf, EndsWith, BorderFree;
    forall k | 0 <= k <= |junk| + 4
      ensures EndsWith((junk + BytesOf(op))[..k], op) <==> k == |junk| + 4
    {
      FoundExactly(junk, op, k);
    }
  }

  /** Waiting: any shorter prefix of junk and opcode has not found it yet. */
  lemma StillWaits(p: Pi, junk: seq<Byte>, op: Word, n: nat, loader: Loader)
    requires Waits(p, op) && Without(junk, op) && BorderFree(op) && n < |junk| + 4
    ensures PiRun(p, (junk + BytesOf(op))[..n], loader) == p.(seen := (junk + BytesOf(op))[..n])
  {
    hide BytesOf, EndsWith, BorderFree, PiRun;
    OpcodeFirstMatch(junk, op);
    WithoutPrefix(junk + BytesOf(op), n, op);
    WaitThrough(p, op, (junk + BytesOf(op))[..n], loader);
  }

  lemma Finds(p: Pi, junk: seq<Byte>, op: Word, loader: Loader)
    requires Waits(p, op) && Without(junk, op) && BorderFree(op)
    ensures PiRun(p, junk + BytesOf(op), loader) == Found(p)
  {
    hide BytesOf, EndsWith, BorderFree, PiRun;
    OpcodeFirstMatch(junk, op);
    WaitFinds(p, op, junk + BytesOf(op), loader);
  }

  /** After the program info */
  function Judged(c: Setting): Pi
    requires c.image.Fits()
  {
    AfterInfo(PiStart(c.mem).(phase := ReadInfo), c.image.Parameters(), c.loader)
  }

  lemma JudgedIs(c: Setting)
    requires c.image.Fits()
    ensures var p := Judged(c);
      p.base == c.image.addr && p.size == |c.image.data| && p.mem == c.mem && p.seen == [] &&
      if c.Rejects() then p.phase == Rejected && p.replies == BytesOf(BAD_CODE_ADDR)
      else p.phase == AwaitCode && p.replies == Answer(c)
  {
    hide BytesOf, WordOf, Image.Crc, Collides;
    var s := c.image.Parameters();
    assert s[..4] == BytesOf(c.image.addr) && s[4..8] == BytesOf(|c.image.data|) && s[8..12] == BytesOf(c.image.Crc());
    WordRoundTrip(c.image.addr);
    WordRoundTrip(|c.image.data|);
    WordRoundTrip(c.image.Crc());
    assert [] + BytesOf(GET_CODE) + BytesOf(c.image.Crc()) == Answer(c);
    assert [] + BytesOf(BAD_CODE_ADDR) == BytesOf(BAD_CODE_ADDR);
  }

  lemma {:induction false} StaysRejected(p: Pi, s: seq<Byte>, loader: Loader)
    requires p.phase == Rejected
    ensures PiRun(p, s, loader) == p
    decreases |s|
  {
    if s != [] {
      StaysRejected(p, s[..|s| - 1], loader);
    }
  }

  /** The first part of the script. */
  lemma AfterHead(c: Setting, n: nat)
    requires c.Ok() && n <= |c.junk| + 16
    ensures var p := PiRun(PiStart(c.mem), (c.junk + c.image.Info())[..n], c.loader);
      if n == |c.junk| + 16 then p == Judged(c)
      else p.replies == [] && p.mem == c.mem && p.phase == if n < |c.junk| + 4 then AwaitInfo else ReadInfo
  {
    hide BytesOf, EndsWith, BorderFree, PiRun, AfterInfo, Image.Parameters;
    var start, head := PiStart(c.mem), c.junk + BytesOf(PUT_PROG_INFO);
    OpcodesBorderFree();
    if n < |head| {
      StillWaits(start, c.junk, PUT_PROG_INFO, n, c.loader);
      assert (c.junk + c.image.Info())[..n] == head[..n];
    } else {
      var m := n - |head|;
      Finds(start, c.junk, PUT_PROG_INFO, c.loader);
      ReadsInfo(Found(start), c.image.Parameters()[..m], c.loader);
      PiRunAppend(start, head, c.image.Parameters()[..m], c.loader);
      assert (c.junk + c.image.Info())[..n] == head + c.image.Parameters()[..m];
      assert c.image.Parameters()[..12] == c.image.Parameters();
    }
  }

  /** The second part, for an image that is accepted. */
  lemma AfterCode(c: Setting, n: nat)
    requires c.Ok() && !c.Rejects() && n <= 4 + |c.image.data|
    ensures PiAt(PiRun(Judged(c), c.image.Code()[..n], c.loader), |c.junk| + 16 + n, c)
  {
    hide BytesOf, EndsWith, BorderFree, PiRun, Judged, Collides, Answer;
    var p, b := Judged(c), BytesOf(PUT_CODE);
    JudgedIs(c);
    OpcodesBorderFree();
    NothingWithin(PUT_CODE);
    assert [] + b == b;
    if n < 4 {
      StillWaits(p, [], PUT_CODE, n, c.loader);
      assert c.image.Code()[..n] == b[..n];
    } else {
      var s := c.image.data[..n - 4];
      Finds(p, [], PUT_CODE, c.loader);
      StoredFollows(p.(phase := ReadCode), s, c.loader);
      PiRunAppend(p, b, s, c.loader);
      assert c.image.Code()[..n] == b + s;
      assert c.image.data[..|c.image.data|] == c.image.data;
    }
  }

  lemma NothingWithin(op: Word)
    ensures Without([], op)
  {
  }

  /** Where the Pi is, by how much of the script it has read. */
  lemma PiFollowsScript(c: Setting, n: nat)
    requires c.Ok() && n <= |Script(c)|
    ensures PiAt(PiRun(PiStart(c.mem), Script(c)[..n], c.loader), n, c)
  {
    hide BytesOf, PiRun, Judged, Collides, Answer, Without, Cyclic, Image.Info, Image.Code;
    var head := c.junk + c.image.Info();
    if n <= |head| {
      AfterHead(c, n);
      assert Script(c)[..n] == head[..n];
      if n == |head| {
        JudgedIs(c);
      }
    } else {
      var m := n - |head|;
      AfterHead(c, |head|);
      assert head[..|head|] == head;
      PiRunAppend(PiStart(c.mem), head, c.image.Code()[..m], c.loader);
      assert Script(c)[..n] == head + c.image.Code()[..m];
      CodeSize(c);
      if c.Rejects() {
        JudgedIs(c);
        StaysRejected(Judged(c), c.image.Code()[..m], c.loader);
      } else {
        AfterCode(c, m);
      }
    }
  }

  lemma CodeSize(c: Setting)
    ensures |c.image.Code()| == 4 + |c.image.data|
  {
  }

  // ----- The invariant -----

  /** What the host has decided to send, by phase. */
  function SentBy(phase: HostPhase, c: Setting): seq<Byte>
    requires c.image.Fits()
  {
    match phase
    case Seek | Skip => []
    case AwaitAnswer | AwaitCrc | Failed => c.image.Info()
    case AwaitDone | Success => c.image.Info() + c.image.Code()
  }

  /** The bytes of the current word, and all that is still to come to the host */
  function Coming(s: System): seq<Byte> {
    s.host.got + s.toHost + if s.piPut <= |s.PiSent()| then s.PiSent()[s.piPut..] else []
  }

  ghost predicate BeaconsThen(x: seq<Byte>, replies: seq<Byte>) {
    exists j: nat :: x == Beacons(j) + replies
  }

  /** Each phase of the host expects just what is coming: while it seeks, a piece of the beacon; once it has
      been in step, whole words. */
  ghost predicate Expects(phase: HostPhase, x: seq<Byte>, replies: seq<Byte>, c: Setting)
    requires c.image.Fits()
  {
    match phase
    case Seek | Skip => Cyclic(x) && replies == []
    case AwaitAnswer => BeaconsThen(x, replies)
    case AwaitCrc => |replies| >= 8 && x == replies[4..]
    case AwaitDone => |replies| >= 8 && x == replies[8..]
    case Success => |replies| >= 12
    case Failed => c.Rejects() && replies == BytesOf(BAD_CODE_ADDR)
  }

  ghost predicate Inv(s: System, c: Setting) {
    c.Ok() && s.hostPut <= |s.host.sent| && s.piPut <= |s.PiSent()| &&
    s.pi == PiRun(PiStart(c.mem), s.piRead, c.loader) && s.host.sent == SentBy(s.host.phase, c) &&
    s.piRead + s.toPi + s.host.sent[s.hostPut..] == c.junk + s.host.sent &&
    |s.host.got| < 4 && (ReadsWords(s.host.phase) || s.host.got == []) &&
    Expects(s.host.phase, Coming(s), s.pi.replies, c)
  }

  /** The Pi has read a part of the script, and before the host has heard it only junk. */
  lemma PiIs(s: System, c: Setting)
    requires Inv(s, c)
    ensures PiAt(s.pi, |s.piRead|, c)
    ensures s.host.phase in {Seek, Skip} ==> s.pi.replies == []
    ensures s.host.sent == c.image.Info() ==> |s.piRead| <= |c.junk| + 16
  {
    hide BytesOf, PiRun, Image.Info, Image.Code, Expects, Without, Cyclic, Collides;
    var n := |s.piRead|;
    assert s.piRead == (c.junk + s.host.sent)[..n];
    assert Script(c)[..n] == (c.junk + s.host.sent)[..n];
    PiFollowsScript(c, n);
    assert s.host.sent == [] ==> n <= |c.junk|;
  }

  lemma BeaconsFront(j: nat)
    ensures Beacons(j) + BytesOf(GET_PROG_INFO) == BytesOf(GET_PROG_INFO) + Beacons(j)
    decreases j
  {
    hide BytesOf;
    var g := BytesOf(GET_PROG_INFO);
    if j > 0 {
      BeaconsFront(j - 1);
      assert Beacons(j - 1) + g + g == g + Beacons(j - 1) + g == g + (Beacons(j - 1) + g);
    } else {
      assert [] + g == g + [];
    }
  }

  lemma BeaconsCyclic(s: seq<Byte>)
    requires Cyclic(s)
    ensures Cyclic(s + BytesOf(GET_PROG_INFO))
  {
    hide BytesOf;
    var g := BytesOf(GET_PROG_INFO);
    forall k | 0 <= k < |s| + 4
      ensures (s + g)[k] == g[(k + 3 * (|s| + 4)) % 4]
    {
      Mod4(k + 3 * |s|, 3);
      if k >= |s| {
        Mod4(k - |s|, |s|);
      }
    }
  }

  lemma FirstWord(s: seq<Byte>)
    requires Cyclic(s) && |s| % 4 == 0 && |s| >= 4
    ensures s[..4] == BytesOf(GET_PROG_INFO)
  {
    hide BytesOf;
    forall k | 0 <= k < 4
      ensures s[k] == BytesOf(GET_PROG_INFO)[k]
    {
      Mod4(k, 3 * (|s| / 4));
    }
  }

  /** In step, a stretch of the beacon is whole words. */
  lemma {:induction false} CyclicIsBeacons(s: seq<Byte>) returns (j: nat)
    requires Cyclic(s) && |s| % 4 == 0
    ensures s == Beacons(j)
    decreases |s|
  {
    hide BytesOf, Cyclic;
    j := 0;
    if s != [] {
      CyclicTail(s, 4);
      FirstWord(s);
      assert s == s[..4] + s[4..];
      j := CyclicIsBeacons(s[4..]);
      BeaconsFront(j);
      j := j + 1;
    }
  }

  // ----- What a byte does to the host -----

  lemma SeekWord(x: seq<Byte>, h: Host, c: Setting)
    requires c.Ok() && h.phase == Seek && h.got == [] && h.sent == [] && Cyclic(x) && |x| >= 4
    ensures var g := HostWord(h, WordOf(x[..4]), c.image);
      g.got == [] && g.sent == SentBy(g.phase, c) && Expects(g.phase, x[4..], [], c) && g.phase in {AwaitAnswer, Skip}
  {
    hide BytesOf, WordOf, Image.Info, Cyclic, Without;
    CyclicWord(x);
    CyclicTail(x, 4);
    if |x| % 4 == 0 {
      var j := CyclicIsBeacons(x[4..]);
      assert x[4..] == Beacons(j) + [];
    }
  }

  lemma AnswerWord(x: seq<Byte>, h: Host, p: Pi, n: nat, c: Setting)
    requires c.Ok() && h.phase == AwaitAnswer && h.got == [] && h.sent == SentBy(AwaitAnswer, c)
    requires BeaconsThen(x, p.replies) && |x| >= 4 && PiAt(p, n, c)
    ensures var g := HostWord(h, WordOf(x[..4]), c.image);
      g.got == [] && g.sent == SentBy(g.phase, c) && Expects(g.phase, x[4..], p.replies, c) &&
      g.phase in {AwaitAnswer, AwaitCrc, Failed}
  {
    hide BytesOf, WordOf, Image.Info, Cyclic, Without, Image.Crc, Collides;
    var j: nat :| x == Beacons(j) + p.replies;
    if j > 0 {
      BeaconsFront(j - 1);
      assert x == BytesOf(GET_PROG_INFO) + (Beacons(j - 1) + p.replies);
      assert x[..4] == BytesOf(GET_PROG_INFO) && x[4..] == Beacons(j - 1) + p.replies;
      WordRoundTrip(GET_PROG_INFO);
    } else {
      assert x == p.replies;
      WordRoundTrip(BAD_CODE_ADDR);
      WordRoundTrip(GET_CODE);
      assert Answer(c)[..4] == BytesOf(GET_CODE) && (Answer(c) + BytesOf(BOOT_SUCCESS))[..4] == BytesOf(GET_CODE);
      assert BytesOf(BAD_CODE_ADDR)[..4] == BytesOf(BAD_CODE_ADDR);
    }
  }

  lemma CrcWord(x: seq<Byte>, h: Host, p: Pi, n: nat, c: Setting)
    requires c.Ok() && h.phase == AwaitCrc && h.got == [] && h.sent == SentBy(AwaitCrc, c)
    requires Expects(AwaitCrc, x, p.replies, c) && |x| >= 4 && PiAt(p, n, c)
    ensures var g := HostWord(h, WordOf(x[..4]), c.image);
      g.phase == AwaitDone && g.got == [] && g.sent == SentBy(AwaitDone, c) && Expects(AwaitDone, x[4..], p.replies, c)
  {
    hide BytesOf, WordOf, Image.Info, Cyclic, Without, Image.Crc, Collides;
    assert x[..4] == BytesOf(c.image.Crc());
    WordRoundTrip(c.image.Crc());
  }

  lemma DoneWord(x: seq<Byte>, h: Host, p: Pi, n: nat, c: Setting)
    requires c.Ok() && h.phase == AwaitDone && h.got == [] && h.sent == SentBy(AwaitDone, c)
    requires Expects(AwaitDone, x, p.replies, c) && |x| >= 4 && PiAt(p, n, c)
    ensures var g := HostWord(h, WordOf(x[..4]), c.image);
      g.phase == Success && g.got == [] && g.sent == SentBy(Success, c) && Expects(Success, x[4..], p.replies, c)
  {
    hide BytesOf, WordOf, Image.Info, Cyclic, Without, Image.Crc, Collides;
    assert x[..4] == BytesOf(BOOT_SUCCESS);
    WordRoundTrip(BOOT_SUCCESS);
  }

  /** One byte for the host: what it has of a word, and what is still coming, change in step. */
  lemma HostByte(h: Host, b: Byte, rest: seq<Byte>, p: Pi, n: nat, c: Setting)
    requires c.Ok() && h.phase != Success && h.phase != Failed && h.sent == SentBy(h.phase, c) && PiAt(p, n, c)
    requires |h.got| < 4 && (ReadsWords(h.phase) || h.got == []) && Expects(h.phase, h.got + [b] + rest, p.replies, c)
    ensures var g := HostRecv(h, b, c.image);
      g.sent == SentBy(g.phase, c) && |g.got| < 4 && (ReadsWords(g.phase) || g.got == []) &&
      Expects(g.phase, g.got + rest, p.replies, c) && h.sent <= g.sent
  {
    hide BytesOf, WordOf, Image.Info, Image.Code, Image.Crc, Cyclic, Without, Collides, BeaconsThen, PiAt, HostWord;
    var x, w := h.got + [b] + rest, h.got + [b];
    if h.phase == Skip {
      CyclicTail(x, 1);
      assert x[1..] == [] + rest;
    } else if |w| == 4 {
      assert x[..4] == w && x[4..] == rest == [] + rest;
      var k := h.(got := []);
      match h.phase
      case Seek => SeekWord(x, k, c);
      case AwaitAnswer => AnswerWord(x, k, p, n, c);
      case AwaitCrc => CrcWord(x, k, p, n, c);
      case AwaitDone => DoneWord(x, k, p, n, c);
    }
  }

  /** What is committed to the Pi grows with what the host decides to send. */
  lemma CommittedGrows(read: seq<Byte>, toPi: seq<Byte>, junk: seq<Byte>, sent: seq<Byte>, sent': seq<Byte>)
    requires read + toPi + sent[|sent|..] == junk + sent && sent <= sent'
    ensures read + toPi + sent'[|sent|..] == junk + sent'
  {
    assert sent' == sent + sent'[|sent|..];
    assert read + toPi == junk + sent;
  }

  lemma ComingSplits(s: System, t: System, c: Setting) returns (rest: seq<Byte>)
    requires c.image.Fits() && HostGets(s, t, c)
    ensures Coming(s) == s.host.got + [s.toHost[0]] + rest && Coming(t) == t.host.got + rest
  {
    hide HostRecv, Beacons;
    rest := s.toHost[1..] + if s.piPut <= |s.PiSent()| then s.PiSent()[s.piPut..] else [];
    assert s.toHost == [s.toHost[0]] + s.toHost[1..];
  }

  lemma HostGetsInv(s: System, t: System, c: Setting)
    requires Inv(s, c) && HostGets(s, t, c)
    ensures Inv(t, c)
  {
    hide PiRun, Expects, HostRecv, SentBy, PiAt, Without, Cyclic, Beacons, Coming;
    PiIs(s, c);
    var rest := ComingSplits(s, t, c);
    HostByte(s.host, s.toHost[0], rest, s.pi, |s.piRead|, c);
    CommittedGrows(s.piRead, s.toPi, c.junk, s.host.sent, t.host.sent);
  }

  /** The Pi's answers only grow. */
  lemma RepliesGrow(p: Pi, b: Byte, loader: Loader)
    ensures p.replies <= PiRecv(p, b, loader).replies
  {
    hide BytesOf, EndsWith, WordOf;
  }

  lemma RepliesCome(s: System, t: System, c: Setting) returns (news: seq<Byte>)
    requires s.piPut == |s.PiSent()| && PiGets(s, t, c)
    ensures t.pi.replies == s.pi.replies + news && Coming(t) == Coming(s) + news && t.piPut <= |t.PiSent()|
  {
    hide PiRecv, Beacons;
    RepliesGrow(s.pi, s.toPi[0], c.loader);
    news := t.pi.replies[|s.pi.replies|..];
    assert t.pi.replies == s.pi.replies + news;
    assert t.PiSent() == s.PiSent() + news;
  }

  lemma PiReads(s: System, t: System, c: Setting)
    requires Inv(s, c) && PiGets(s, t, c)
    ensures t.pi == PiRun(PiStart(c.mem), t.piRead, c.loader) && t.piRead + t.toPi == s.piRead + s.toPi
    ensures s.host.phase in {Seek, Skip} ==> t.pi.replies == []
  {
    hide PiRecv, Expects, Coming, Without, Cyclic, Beacons, Image.Info, Image.Code;
    assert t.piRead[..|t.piRead| - 1] == s.piRead;
    if s.host.phase in {Seek, Skip} {
      assert s.host.sent == [] && s.host.sent[s.hostPut..] == [];
      assert s.piRead + s.toPi + [] == s.piRead + s.toPi;
      assert c.junk + [] == c.junk;
      assert t.piRead + t.toPi == c.junk;
      SilentPi(t, c);
    }
  }

  lemma PiGetsInv(s: System, t: System, c: Setting)
    requires Inv(s, c) && PiGets(s, t, c)
    ensures Inv(t, c)
  {
    hide PiRecv, PiRun, SentBy, PiAt, Without, Beacons, Cyclic, BytesOf, Setting.Rejects, Coming;
    var news := RepliesCome(s, t, c);
    PiReads(s, t, c);
    if s.host.phase in {Seek, Skip} {
      assert news == [] && Coming(t) == Coming(s);
    } else if s.host.phase == AwaitAnswer {
      var j: nat :| Coming(s) == Beacons(j) + s.pi.replies;
      assert Coming(t) == Beacons(j) + t.pi.replies;
    } else if s.host.phase == Failed {
      PiIs(s, c);
      FailedIsRejected(s, c);
      assert false;
    }
  }

  lemma FailedIsRejected(s: System, c: Setting)
    requires Inv(s, c) && s.host.phase == Failed && PiAt(s.pi, |s.piRead|, c)
    ensures s.pi.phase == Rejected
  {
    hide PiRun, Setting.Ok, Setting.Rejects;
  }

  /** PiIs for the Pi half of the invariant, while the host has sent nothing. */
  lemma SilentPi(s: System, c: Setting)
    requires c.Ok() && s.pi == PiRun(PiStart(c.mem), s.piRead, c.loader) && s.piRead <= c.junk
    ensures s.pi.replies == []
  {
    hide PiRun, BytesOf, Without, Cyclic, Image.Info, Image.Code, Collides;
    var n := |s.piRead|;
    assert s.piRead == Script(c)[..n];
    PiFollowsScript(c, n);
  }

  lemma BeaconInv(s: System, t: System, c: Setting)
    requires Inv(s, c) && PiBeacons(s, t)
    ensures Inv(t, c)
  {
    hide SentBy, Setting.Ok, Cyclic, BytesOf, Setting.Rejects, PiRecv;
    var g := BytesOf(GET_PROG_INFO);
    assert s.pi.replies == [];
    assert t.PiSent() == s.PiSent() + g;
    assert Coming(t) == Coming(s) + g;
    if s.host.phase in {Seek, Skip} {
      BeaconsCyclic(Coming(s));
    } else if s.host.phase == AwaitAnswer {
      var j: nat :| Coming(s) == Beacons(j) + s.pi.replies;
      assert Coming(t) == Beacons(j + 1) + [];
    }
  }

  lemma PutsInv(s: System, t: System, c: Setting)
    requires Inv(s, c) && (HostPuts(s, t) || PiPuts(s, t))
    ensures Inv(t, c)
  {
    hide SentBy, Setting.Ok, Setting.Rejects, Expects, PiRun, Beacons, Cyclic, Without, BytesOf;
    if HostPuts(s, t) {
      assert s.host.sent[s.hostPut..] == [s.host.sent[s.hostPut]] + t.host.sent[t.hostPut..];
      assert Coming(t) == Coming(s);
    } else {
      assert s.PiSent()[s.piPut..] == [s.PiSent()[s.piPut]] + t.PiSent()[t.piPut..];
      assert Coming(t) == Coming(s);
    }
  }

  lemma StartInv(c: Setting)
    requires c.Ok()
    ensures Inv(Start(c), c)
  {
    hide BytesOf, Without, Cyclic;
    assert Beacons(1) == Beacons(0) + BytesOf(GET_PROG_INFO) == BytesOf(GET_PROG_INFO);
    BeaconsCyclic(c.tail);
    assert Coming(Start(c)) == c.tail + BytesOf(GET_PROG_INFO);
  }

  lemma NextInv(s: System, t: System, c: Setting)
    requires Inv(s, c) && Next(s, t, c)
    ensures Inv(t, c)
  {
    hide Expects, PiRun, Coming, Without, Cyclic, HostPuts, HostGets, PiPuts, PiGets, PiBeacons;
    if HostPuts(s, t) || PiPuts(s, t) {
      PutsInv(s, t, c);
    } else if HostGets(s, t, c) {
      HostGetsInv(s, t, c);
    } else if PiGets(s, t, c) {
      PiGetsInv(s, t, c);
    } else {
      BeaconInv(s, t, c);
    }
  }

  // ----- Runs -----

  ghost predicate IsRun(ss: seq<System>, c: Setting) {
    c.Ok() && ss != [] && ss[0] == Start(c) && forall k :: 0 <= k < |ss| - 1 ==> Next(ss[k], ss[k + 1], c)
  }

  lemma {:induction false} RunInv(ss: seq<System>, c: Setting, k: nat)
    requires IsRun(ss, c) && k < |ss|
    ensures Inv(ss[k], c)
    decreases k
  {
    hide Inv, Next, Setting.Ok;
    if k == 0 {
      StartInv(c);
    } else {
      RunInv(ss, c, k - 1);
      NextInv(ss[k - 1], ss[k], c);
    }
  }

  /** Boot transfer: whatever the interleaving, when the host reports success the Pi has the whole image where
      it belongs and has written nothing else. */
  lemma SuccessMeansLoaded(ss: seq<System>, c: Setting, k: nat)
    requires IsRun(ss, c) && k < |ss| && ss[k].host.phase == Success
    ensures ss[k].pi.phase == Done && ss[k].pi.mem == Loaded(c.mem, c.image.addr, c.image.data)
    ensures forall i: nat :: i < |c.image.data| ==>
      Place(c.image.addr, i) in ss[k].pi.mem && ss[k].pi.mem[Place(c.image.addr, i)] == c.image.data[i]
    ensures forall a: nat :: !Placed(c, a) ==> (a in ss[k].pi.mem <==> a in c.mem)
    ensures forall a: nat :: !Placed(c, a) && a in c.mem ==> ss[k].pi.mem[a] == c.mem[a]
  {
    hide PiRun, Setting.Rejects, Without, Cyclic, BytesOf, Loaded, Place;
    RunInv(ss, c, k);
    PiIs(ss[k], c);
    forall i: nat | i < |c.image.data|
      ensures Place(c.image.addr, i) in ss[k].pi.mem && ss[k].pi.mem[Place(c.image.addr, i)] == c.image.data[i]
    {
      LoadedHolds(c.mem, c.image.addr, c.image.data, i);
    }
    forall a: nat | !Placed(c, a)
      ensures (a in ss[k].pi.mem <==> a in c.mem) && (a in c.mem ==> ss[k].pi.mem[a] == c.mem[a])
    {
      LoadedElsewhere(c.mem, c.image.addr, c.image.data, a);
    }
  }

  /** Whether a byte of the image belongs at a. */
  ghost predicate Placed(c: Setting, a: nat) {
    exists i: nat :: i < |c.image.data| && Place(c.image.addr, i) == a
  }

  /** The host gives up only on an image that would collide with the bootloader, and then the Pi has written
      nothing. */
  lemma FailureMeansRejected(ss: seq<System>, c: Setting, k: nat)
    requires IsRun(ss, c) && k < |ss| && ss[k].host.phase == Failed
    ensures c.Rejects() && ss[k].pi.phase == Rejected && ss[k].pi.mem == c.mem
  {
    hide PiRun, Setting.Rejects, Without, Cyclic, BytesOf, Loaded, Place;
    RunInv(ss, c, k);
    PiIs(ss[k], c);
    FailedIsRejected(ss[k], c);
  }

  // ----- Deadlock -----

  /** All that was sent has arrived and nothing is left to send; the host has not yet heard a beacon in step,
      and the Pi, having read junk, sends no more of them. */
  predicate Silent(s: System, c: Setting) {
    s.host.phase in {Seek, Skip} && s.toHost == [] && s.piPut == |s.PiSent()| && c.junk != [] && s.piRead == c.junk
  }

  /** Some step can be taken. */
  predicate Enabled(s: System) {
    s.hostPut < |s.host.sent| || s.piPut < |s.PiSent()| ||
    (s.toHost != [] && s.host.phase != Success && s.host.phase != Failed) ||
    (s.toPi != [] && s.pi.phase != Done && s.pi.phase != Rejected) ||
    (s.toPi == [] && s.piRead == [])
  }

  ghost predicate NoStep(s: System, c: Setting)
    requires c.image.Fits()
  {
    forall t :: !Next(s, t, c)
  }

  function AfterHostPut(s: System): System
    requires s.hostPut < |s.host.sent|
  {
    s.(hostPut := s.hostPut + 1, toPi := s.toPi + [s.host.sent[s.hostPut]])
  }

  function AfterPiPut(s: System): System
    requires s.piPut < |s.PiSent()|
  {
    s.(piPut := s.piPut + 1, toHost := s.toHost + [s.PiSent()[s.piPut]])
  }

  function AfterHostGet(s: System, c: Setting): System
    requires c.image.Fits() && s.toHost != []
  {
    s.(host := HostRecv(s.host, s.toHost[0], c.image), toHost := s.toHost[1..])
  }

  function AfterPiGet(s: System, c: Setting): System
    requires s.toPi != []
  {
    s.(pi := PiRecv(s.pi, s.toPi[0], c.loader), toPi := s.toPi[1..], piRead := s.piRead + [s.toPi[0]])
  }

  lemma EnabledSteps(s: System, c: Setting) returns (t: System)
    requires c.image.Fits() && s.hostPut <= |s.host.sent| && s.piPut <= |s.PiSent()| && Enabled(s)
    ensures Next(s, t, c)
  {
    hide PiRecv, HostRecv, Beacons;
    t := if s.hostPut < |s.host.sent| then AfterHostPut(s)
         else if s.piPut < |s.PiSent()| then AfterPiPut(s)
         else if s.toHost != [] && s.host.phase != Success && s.host.phase != Failed then AfterHostGet(s, c)
         else if s.toPi != [] && s.pi.phase != Done && s.pi.phase != Rejected then AfterPiGet(s, c)
         else s.(beacons := s.beacons + 1);
  }

  lemma StepsEnabled(s: System, t: System, c: Setting)
    requires c.image.Fits() && Next(s, t, c)
    ensures Enabled(s)
  {
    hide PiRecv, HostRecv, Beacons;
  }

  lemma EnabledIffStep(s: System, c: Setting)
    requires Inv(s, c)
    ensures Enabled(s) <==> exists t :: Next(s, t, c)
  {
    hide Next, Enabled, Expects, PiRun, Without, Cyclic, Beacons, Coming;
    if Enabled(s) {
      var t := EnabledSteps(s, c);
    } else {
      forall t
        ensures !Next(s, t, c)
      {
        if Next(s, t, c) {
          StepsEnabled(s, t, c);
          assert false;
        }
      }
    }
  }

  /** How much is coming when nothing is on the way: less than a word. */
  lemma NothingComing(s: System, c: Setting)
    requires Inv(s, c)
    ensures s.toHost == [] && s.piPut == |s.PiSent()| ==> |Coming(s)| < 4
    ensures s.toPi == [] && s.hostPut == |s.host.sent| ==> |s.piRead| == |c.junk| + |s.host.sent|
    ensures |s.piRead| <= |c.junk| + |s.host.sent|
    ensures s.host.phase == AwaitAnswer ==> |Coming(s)| >= |s.pi.replies|
  {
    hide PiRun, Without, Cyclic, BytesOf, Setting.Rejects, SentBy;
    var whole := s.piRead + s.toPi + s.host.sent[s.hostPut..];
    assert |whole| == |c.junk| + |s.host.sent|;
    if s.host.phase == AwaitAnswer {
      var j: nat :| Coming(s) == Beacons(j) + s.pi.replies;
    }
  }

  /** Once in step, the host is never left waiting. */
  lemma InStepEnabled(s: System, c: Setting)
    requires Inv(s, c) && s.host.phase in {AwaitAnswer, AwaitCrc, AwaitDone}
    ensures Enabled(s)
  {
    hide PiRun, Without, Cyclic, BytesOf, Image.Crc, Setting.Rejects, Coming;
    PiIs(s, c);
    CodeSize(c);
    NothingComing(s, c);
  }

  /** Until the host has its result, success or refusal, the protocol is stuck in one kind of state and no other: junk
      made the Pi fall silent before the host was in step. */
  lemma OnlyDeadlock(s: System, c: Setting)
    requires Inv(s, c) && s.host.phase !in {Success, Failed}
    ensures NoStep(s, c) <==> Silent(s, c)
  {
    hide Inv, Enabled, Next;
    EnabledIffStep(s, c);
    match s.host.phase
    case Seek | Skip => SeekingStuck(s, c);
    case _ => InStepEnabled(s, c);
  }

  lemma SeekingStuck(s: System, c: Setting)
    requires Inv(s, c) && s.host.phase in {Seek, Skip}
    ensures Enabled(s) <==> !Silent(s, c)
  {
    hide PiRun, Without, Cyclic, BytesOf, Setting.Rejects, Image.Info, Image.Code, Expects, Coming, Beacons;
    PiIs(s, c);
    SeekingReads(s, c);
  }

  lemma SeekingReads(s: System, c: Setting)
    requires Inv(s, c) && s.host.phase in {Seek, Skip}
    ensures s.piRead + s.toPi == c.junk && s.hostPut == |s.host.sent| == 0
    ensures s.piRead == c.junk <==> s.toPi == []
  {
    hide PiRun, Without, Cyclic, Expects;
    var read := s.piRead + s.toPi;
    assert s.host.sent[s.hostPut..] == [];
    assert read + [] == read && c.junk + [] == c.junk;
    assert s.toPi == [] ==> read == s.piRead;
  }

  ghost predicate Chain(ss: seq<System>, c: Setting)
    requires c.image.Fits()
  {
    ss != [] && forall k :: 0 <= k < |ss| - 1 ==> Next(ss[k], ss[k + 1], c)
  }

  lemma ChainGrows(ss: seq<System>, t: System, c: Setting) returns (tt: seq<System>)
    requires c.image.Fits() && ss != [] && Chain(ss, c) && Next(ss[|ss| - 1], t, c)
    ensures tt == ss + [t] && tt != [] && Chain(tt, c) && tt[0] == ss[0] && tt[|tt| - 1] == t
  {
    hide Next;
    tt := ss + [t];
  }

  lemma {:induction false} PiPutsMany(ss: seq<System>, n: nat, c: Setting) returns (tt: seq<System>)
    requires c.image.Fits() && ss != [] && Chain(ss, c) && ss[|ss| - 1].piPut + n <= |ss[|ss| - 1].PiSent()|
    ensures Chain(tt, c) && tt != [] && tt[0] == ss[0]
    ensures var (s, t) := (ss[|ss| - 1], tt[|tt| - 1]);
      t == s.(piPut := s.piPut + n, toHost := s.toHost + s.PiSent()[s.piPut..s.piPut + n])
    decreases n
  {
    hide Next, Chain, Beacons;
    tt := ss;
    var s := ss[|ss| - 1];
    var sent := s.PiSent();
    if n > 0 {
      tt := PiPutsMany(ss, n - 1, c);
      var t := tt[|tt| - 1];
      assert t.PiSent() == sent;
      NextPiPut(t, c);
      tt := ChainGrows(tt, AfterPiPut(t), c);
      assert sent[s.piPut..s.piPut + n] == sent[s.piPut..s.piPut + n - 1] + [sent[s.piPut + n - 1]];
    } else {
      assert s.toHost + sent[s.piPut..s.piPut] == s.toHost;
    }
  }

  lemma NextPiPut(s: System, c: Setting)
    requires c.image.Fits() && s.piPut < |s.PiSent()|
    ensures Next(s, AfterPiPut(s), c)
  {
  }

  /** Reading the first n bytes on their way, the host neither ends nor sends. */
  ghost predicate OnlyReads(s: System, n: nat, c: Setting)
    requires c.image.Fits() && n <= |s.toHost|
  {
    forall k :: 0 <= k < n ==>
      var h := HostRun(s.host, s.toHost[..k], c.image);
      h.phase != Success && h.phase != Failed && h.sent == s.host.sent
  }

  lemma OnlyReadsLess(s: System, n: nat, c: Setting)
    requires c.image.Fits() && 0 < n <= |s.toHost| && OnlyReads(s, n, c)
    ensures OnlyReads(s, n - 1, c)
    ensures var h := HostRun(s.host, s.toHost[..n - 1], c.image);
      h.phase != Success && h.phase != Failed && h.sent == s.host.sent
    ensures HostRun(s.host, s.toHost[..n], c.image) ==
      HostRecv(HostRun(s.host, s.toHost[..n - 1], c.image), s.toHost[n - 1], c.image)
  {
    hide HostRecv;
    assert s.toHost[..n][..n - 1] == s.toHost[..n - 1];
  }

  lemma ReadNone(s: System, c: Setting)
    requires c.image.Fits()
    ensures s == s.(host := HostRun(s.host, s.toHost[..0], c.image), toHost := s.toHost[0..])
  {
  }

  lemma {:induction false} HostGetsMany(ss: seq<System>, n: nat, c: Setting) returns (tt: seq<System>)
    requires c.image.Fits() && ss != [] && Chain(ss, c) && n <= |ss[|ss| - 1].toHost|
    requires var s := ss[|ss| - 1]; s.hostPut == |s.host.sent| && OnlyReads(s, n, c)
    ensures Chain(tt, c) && tt != [] && tt[0] == ss[0]
    ensures var (s, t) := (ss[|ss| - 1], tt[|tt| - 1]);
      t == s.(host := HostRun(s.host, s.toHost[..n], c.image), toHost := s.toHost[n..])
    decreases n
  {
    hide Next, Chain, HostRecv, HostRun, OnlyReads;
    tt := ss;
    var s := ss[|ss| - 1];
    if n > 0 {
      OnlyReadsLess(s, n, c);
      tt := HostGetsMany(ss, n - 1, c);
      var t := tt[|tt| - 1];
      NextHostGet(t, c);
      tt := ChainGrows(tt, AfterHostGet(t, c), c);
      assert s.toHost[n - 1..][1..] == s.toHost[n..];
    } else {
      ReadNone(s, c);
    }
  }

  lemma NextHostGet(s: System, c: Setting)
    requires c.image.Fits() && s.toHost != [] && s.hostPut == |s.host.sent|
    requires s.host.phase != Success && s.host.phase != Failed
    ensures Next(s, AfterHostGet(s, c), c)
  {
    hide HostRecv;
  }

  lemma NextPiGet(s: System, c: Setting)
    requires c.image.Fits() && s.toPi != [] && s.piPut == |s.PiSent()| && s.pi.phase != Done && s.pi.phase != Rejected
    ensures Next(s, AfterPiGet(s, c), c)
  {
    hide PiRecv;
  }

  /** The Pi reads its junk, byte after byte, and answers nothing. */
  lemma {:induction false} PiGetsJunk(ss: seq<System>, n: nat, c: Setting) returns (tt: seq<System>)
    requires c.Ok() && ss != [] && Chain(ss, c) && n <= |c.junk|
    requires var s := ss[|ss| - 1];
      s.pi == PiStart(c.mem) && s.toPi == c.junk && s.piRead == [] && s.piPut == |s.PiSent()|
    ensures Chain(tt, c) && tt != [] && tt[0] == ss[0]
    ensures var (s, t) := (ss[|ss| - 1], tt[|tt| - 1]);
      t == s.(pi := s.pi.(seen := c.junk[..n]), toPi := c.junk[n..], piRead := c.junk[..n])
    decreases n
  {
    hide Next, Chain, PiRecv, Beacons, Cyclic, EndsWith;
    tt := ss;
    if n > 0 {
      tt := PiGetsJunk(ss, n - 1, c);
      var t := tt[|tt| - 1];
      NextPiGet(t, c);
      tt := ChainGrows(tt, AfterPiGet(t, c), c);
      JunkByte(t.pi, c.junk, n, c.loader);
      assert c.junk[n - 1..][1..] == c.junk[n..];
      assert c.junk[..n - 1] + [c.junk[n - 1]] == c.junk[..n];
    }
  }

  lemma JunkByte(p: Pi, junk: seq<Byte>, n: nat, loader: Loader)
    requires p.phase == AwaitInfo && 1 <= n <= |junk| && p.seen == junk[..n - 1] && Without(junk, PUT_PROG_INFO)
    ensures PiRecv(p, junk[n - 1], loader) == p.(seen := junk[..n])
  {
    hide EndsWith;
    assert junk[..n - 1] + [junk[n - 1]] == junk[..n];
  }

  /** Until it has skipped the rest of the first word, the host has heard nothing in step. */
  lemma {:induction false} StaysSeeking(s: seq<Byte>, k: nat, image: Image)
    requires image.Fits() && Cyclic(s) && k <= |s| && k < 5 * (|s| % 4) + 4
    ensures var h := HostRun(HOST_START, s[..k], image); h.phase in {Seek, Skip} && h.sent == []
    decreases k
  {
    hide BytesOf, WordOf, HostWord, HostRun, Cyclic;
    if k <= 4 {
      HostReads(HOST_START, s[..k], image);
      if k == 4 {
        CyclicWord(s);
        NotHeard(WordOf(s[..4]), image);
      }
    } else {
      SkipOne(s, image);
      CyclicTail(s, 5);
      StaysSeeking(s[5..], k - 5, image);
      HostRunAppend(HOST_START, s[..5], s[5..][..k - 5], image);
      Slices(s, 5, k - 5);
    }
  }

  lemma NotHeard(word: Word, image: Image)
    requires image.Fits() && word != GET_PROG_INFO
    ensures var h := HostWord(HOST_START, word, image); h.phase in {Seek, Skip} && h.sent == []
  {
  }

  /** What a caller can see beforehand: there is junk on the way to the Pi, and the bytes on the way to the
      host end before it can be in step. */
  predicate WillStarve(c: Setting) {
    c.junk != [] && |c.tail| < 5 * (|c.tail| % 4)
  }

  /** A run that ends in a state with no step left, before the host has its result. */
  ghost predicate Deadlocks(ss: seq<System>, c: Setting) {
    IsRun(ss, c) && ss[|ss| - 1].host.phase !in {Success, Failed} && NoStep(ss[|ss| - 1], c)
  }

  lemma ChainOfOne(s: System, c: Setting)
    requires c.image.Fits()
    ensures Chain([s], c)
  {
  }

  /** The Pi's first beacon is out, and the junk has ended them. */
  lemma BeaconThenJunk(c: Setting) returns (ss: seq<System>)
    requires c.Ok()
    ensures Chain(ss, c) && ss != [] && ss[0] == Start(c)
    ensures var t := ss[|ss| - 1];
      t.host == HOST_START && t.hostPut == 0 && t.toHost == c.tail + BytesOf(GET_PROG_INFO) &&
      t.piPut == |t.PiSent()| && t.piRead == c.junk
  {
    hide BytesOf, Next, PiRecv, Chain, Without, Cyclic;
    var start := Start(c);
    assert Beacons(1) == Beacons(0) + BytesOf(GET_PROG_INFO) == BytesOf(GET_PROG_INFO);
    var sent := start.PiSent();
    assert sent == BytesOf(GET_PROG_INFO);
    ChainOfOne(start, c);
    ss := PiPutsMany([start], 4, c);
    assert sent[0..4] == sent;
    ss := PiGetsJunk(ss, |c.junk|, c);
    assert c.junk[..|c.junk|] == c.junk;
  }

  /** Junk and too short a tail: one beacon, the junk, and all that was sent read by the host. */
  lemma StarvingRun(c: Setting) returns (ss: seq<System>)
    requires c.Ok() && WillStarve(c)
    ensures IsRun(ss, c) && Silent(ss[|ss| - 1], c)
  {
    hide BytesOf, Next, HostRun, Start, Without, Cyclic;
    ss := BeaconThenJunk(c);
    var x := ss[|ss| - 1].toHost;
    BeaconsCyclic(c.tail);
    Mod4(|c.tail|, 1);
    forall k | 0 <= k <= |x|
      ensures var h := HostRun(HOST_START, x[..k], c.image); h.phase in {Seek, Skip} && h.sent == []
    {
      StaysSeeking(x, k, c.image);
    }
    ss := HostGetsMany(ss, |x|, c);
    assert x[..|x|] == x && x[|x|..] == [];
  }

  // ----- How far the host can get without being in step -----

  /** After q skips the host has read 5 * q bytes of what was there or beaconed, and skips no more than it
      takes to be in step. */
  ghost predicate SkippedTo(s: System, c: Setting, q: nat) {
    var r := |c.tail| % 4;
    match s.host.phase
    case Seek => q <= r && |Coming(s)| + 5 * q == |c.tail| + 4 * s.beacons
    case Skip => q < r && |Coming(s)| + 5 * q + 4 == |c.tail| + 4 * s.beacons
    case _ => true
  }

  ghost predicate Skipped(s: System, c: Setting) {
    s.beacons >= 1 && exists q: nat :: SkippedTo(s, c, q)
  }

  lemma StartSkipped(c: Setting)
    ensures Skipped(Start(c), c)
  {
    hide BytesOf;
    assert Beacons(1) == Beacons(0) + BytesOf(GET_PROG_INFO);
    assert SkippedTo(Start(c), c, 0);
  }

  lemma HostGetsSkipped(s: System, t: System, c: Setting, q: nat) returns (p: nat)
    requires Inv(s, c) && HostGets(s, t, c) && SkippedTo(s, c, q)
    ensures SkippedTo(t, c, p)
  {
    hide BytesOf, WordOf, Beacons, PiRun, Without, Cyclic, Coming, HostWord;
    var rest := ComingSplits(s, t, c);
    var x := Coming(s);
    p := q;
    if s.host.phase == Skip {
      p := q + 1;
    } else if s.host.phase == Seek && |s.host.got| == 3 {
      var w := s.host.got + [s.toHost[0]];
      assert x[..4] == w;
      CyclicWord(x);
      Mod4(|c.tail| % 4 - q, s.beacons + |c.tail| / 4 - q);
      SeekMove(s.host, WordOf(w), c.image);
    } else if s.host.phase in {AwaitAnswer, AwaitCrc, AwaitDone} {
      NeverBack(s.host, s.toHost[0], c.image);
    }
  }

  lemma SeekMove(h: Host, word: Word, image: Image)
    requires image.Fits() && h.phase == Seek && word != PRINT_STRING
    ensures HostWord(h.(got := []), word, image).got == []
    ensures HostWord(h.(got := []), word, image).phase == if word == GET_PROG_INFO then AwaitAnswer else Skip
  {
  }

  /** In step, the host does not seek again. */
  lemma NeverBack(h: Host, b: Byte, image: Image)
    requires image.Fits() && h.phase in {AwaitAnswer, AwaitCrc, AwaitDone}
    ensures HostRecv(h, b, image).phase !in {Seek, Skip}
  {
    hide WordOf, Image.Info, Image.Code, Image.Crc;
  }

  lemma NextSkipped(s: System, t: System, c: Setting)
    requires Inv(s, c) && Next(s, t, c) && Skipped(s, c)
    ensures Skipped(t, c)
  {
    hide BytesOf, Beacons, PiRun, Without, Cyclic, Expects, HostRecv, PiRecv, SentBy;
    var q: nat :| SkippedTo(s, c, q);
    if HostGets(s, t, c) {
      var p := HostGetsSkipped(s, t, c, q);
    } else if PiGets(s, t, c) {
      var news := RepliesCome(s, t, c);
      PiReads(s, t, c);
      if s.host.phase in {Seek, Skip} {
        PiIs(s, c);
        assert news == [];
      }
      assert SkippedTo(t, c, q);
    } else if PiBeacons(s, t) {
      BeaconComes(s, t);
      assert SkippedTo(t, c, q);
    } else {
      assert |Coming(t)| == |Coming(s)|;
      assert SkippedTo(t, c, q);
    }
  }

  lemma BeaconComes(s: System, t: System)
    requires PiBeacons(s, t) && s.piPut <= |s.PiSent()|
    ensures |Coming(t)| == |Coming(s)| + 4 && t.beacons == s.beacons + 1 && t.host == s.host
  {
    hide BytesOf;
    assert Beacons(s.beacons + 1) == Beacons(s.beacons) + BytesOf(GET_PROG_INFO);
  }

  lemma {:induction false} RunSkipped(ss: seq<System>, c: Setting, k: nat)
    requires IsRun(ss, c) && k < |ss|
    ensures Skipped(ss[k], c)
    decreases k
  {
    hide Skipped, Inv, Next, Setting.Ok;
    if k == 0 {
      StartSkipped(c);
    } else {
      RunSkipped(ss, c, k - 1);
      RunInv(ss, c, k - 1);
      NextSkipped(ss[k - 1], ss[k], c);
    }
  }

  lemma SilentStarves(s: System, c: Setting)
    requires Inv(s, c) && Skipped(s, c) && Silent(s, c)
    ensures WillStarve(c)
  {
    hide BytesOf, Beacons, PiRun, Without, Cyclic, Expects, SentBy;
    var q: nat :| SkippedTo(s, c, q);
    NothingComing(s, c);
    assert s.host.phase == Skip ==> Coming(s) == [];
  }

  /** The transfer of any image, accepted or not, can deadlock exactly if junk is on its way to the Pi and the bytes
      already on their way to the host end before it is in step. */
  lemma DeadlocksIff(c: Setting)
    requires c.Ok()
    ensures (exists ss :: Deadlocks(ss, c)) <==> WillStarve(c)
  {
    hide Skipped, Inv, Next, Silent, WillStarve, Setting.Rejects;
    if WillStarve(c) {
      var ss := StarvingRun(c);
      RunInv(ss, c, |ss| - 1);
      SilentSeeks(ss[|ss| - 1], c);
      OnlyDeadlock(ss[|ss| - 1], c);
      assert Deadlocks(ss, c);
    }
    forall ss | Deadlocks(ss, c)
      ensures WillStarve(c)
    {
      RunInv(ss, c, |ss| - 1);
      RunSkipped(ss, c, |ss| - 1);
      OnlyDeadlock(ss[|ss| - 1], c);
      SilentStarves(ss[|ss| - 1], c);
    }
  }

  lemma SilentSeeks(s: System, c: Setting)
    requires Silent(s, c)
    ensures s.host.phase in {Seek, Skip}
  {
  }

  /** For example: one byte of junk for the Pi and one byte of an earlier beacon for the host. */
  lemma JunkDeadlocks(c: Setting)
    requires c.image.Fits() && !c.Rejects() && c.Survives() && c.junk == [0] && c.tail == [0x11]
    ensures exists ss :: Deadlocks(ss, c)
  {
    hide BytesOf, Deadlocks, Setting.Rejects, Setting.Survives;
    InfoBytes();
    DeadlocksIff(c);
  }

  /** Whether an accepted image survives its own loading is a question of wrapping only: below 2^32 every one
      does. */
  lemma NoWrapSurvives(c: Setting)
    requires c.image.Fits() && !c.Rejects() && c.loader.start < c.loader.end
    requires c.image.addr + |c.image.data| < UINT32_LIMIT
    ensures c.Survives()
  {
    hide Overwrites, Collides;
    AcceptedIsSafeIff(c.image.addr, |c.image.data|, c.loader);
  }
}
