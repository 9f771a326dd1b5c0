/**
 The lock-step transfer of cmd/net/tftp.c (sections 2, 5 and 6 of RFC 1350): the sender
 of putfile against the receiver of getfile, over a network that may lose, duplicate,
 delay and reorder packets. Each step runs one case of a program's switch.
 */
module Tftp {
  import opened Basics

  type byte = x: int | 0 <= x < 256
  type Packet = seq<byte>

  const BLKSIZE: nat := 512
  const HDRSIZE: nat := 4
  const RRQ: int := 1
  const WRQ: int := 2
  const DATA: int := 3
  const ACK: int := 4

  // ----- packets

  /** packack and packdata: the block number is cut down to 16 bits. */
  function Header(op: byte, blkno: int): (p: Packet)
    ensures |p| == HDRSIZE
  {
    [0, op, (blkno / 256) % 256, blkno % 256]
  }

  /** packreq; what follows the opcode is left out. */
  function Request(op: byte): (p: Packet)
    ensures |p| == 2
  {
    [0, op]
  }

  function UnpackOp(p: Packet): int
    requires |p| >= 2
  {
    p[0] as int * 256 + p[1] as int
  }

  function UnpackBlkno(p: Packet): int
    requires |p| >= HDRSIZE
  {
    p[2] as int * 256 + p[3] as int
  }

  /** What is read from a header is what was written, modulo 65536; both numbers go over
      the wire with the high byte first (section 5 of RFC 1350). */
  lemma HeaderRoundTrip(op: byte, blkno: nat, rest: Packet)
    ensures var p := Header(op, blkno) + rest;
            && UnpackOp(p) == op && UnpackBlkno(p) == blkno % 65536 && p[HDRSIZE..] == rest
            && p[0] == 0 && p[1] == op && p[2] as int == blkno % 65536 / 256 && p[3] as int == blkno % 256
  {
    var p := Header(op, blkno) + rest;
    assert p[2] as int == (blkno / 256) % 256 && p[3] as int == blkno % 256;
    TwoBytes(blkno);
  }

  lemma TwoBytes(n: nat)
    ensures n % 65536 == ((n / 256) % 256) * 256 + n % 256 && n % 65536 / 256 == (n / 256) % 256
  {
    var q, b := n / 256, n % 256;
    var h := q % 256;
    RestIs(n, q / 256, h * 256 + b);
    HighByte(h, b);
  }

  lemma RestIs(n: int, k: int, r: int)
    requires n == 65536 * k + r && 0 <= r < 65536
    ensures n % 65536 == r
  {
    assert n / 65536 == k;
  }

  lemma HighByte(h: int, b: int)
    requires 0 <= h && 0 <= b < 256
    ensures (h * 256 + b) / 256 == h
  {
  }

  // ----- the receiver

  datatype GetState = GetRrq | GetData | GetAck | GetReturned | GetDead

  /** The variables of getfile, and what it has written. */
  datatype Getter = Getter(state: GetState, buf: Packet, n: int, blkno: int, nextblkno: int, done: bool, out: seq<byte>)

  const GETTER: Getter := Getter(GetRrq, [], 0, 0, 1, false, [])

  /** readpkt and what follows it; a timeout leaves the state as it is. */
  function GetRead(g: Getter, input: Option<Packet>): Getter
  {
    if input.None? || |input.value| == 0 then g
    else if |input.value| < 2 then g.(state := GetDead)
    else if UnpackOp(input.value) == DATA then g.(state := GetData, buf := input.value, n := |input.value|)
    else g.(state := GetDead)
  }

  /** One case of getfile's switch. */
  function GetStep(g: Getter, input: Option<Packet>): Getter
  {
    match g.state
    case GetRrq => GetRead(g, input)
    case GetData =>
      var n := g.n - HDRSIZE;
      if n < 0 || |g.buf| < HDRSIZE then g.(state := GetDead)
      else
        var blkno := UnpackBlkno(g.buf);
        var h := if blkno == g.nextblkno then g.(nextblkno := g.nextblkno + 1, out := g.out + g.buf[HDRSIZE..]) else g;
        h.(state := GetAck, n := n, blkno := blkno, done := h.done || n < BLKSIZE)
    case GetAck =>
      if g.done then g.(state := GetReturned) else GetRead(g, input)
    case GetReturned => g
    case GetDead => g
  }

  /** The packet that the step sends. */
  function GetSends(g: Getter): Option<Packet>
  {
    match g.state
    case GetRrq => Some(Request(RRQ))
    case GetAck => Some(Header(ACK, g.blkno))
    case _ => None
  }

  // ----- the sender

  datatype PutState = PutWrq | PutData | PutAck | PutReturned | PutDead

  /** The variables of putfile; rest is what is still to be read from its input. */
  datatype Putter = Putter(state: PutState, inbuf: Packet, outbuf: Packet, blkno: int, nextblkno: int, done: bool,
                           rest: seq<byte>)

  function PUTTER(file: seq<byte>): Putter { Putter(PutWrq, [], [], 0, 0, false, file) }

  function Take(s: seq<byte>): seq<byte> { if |s| < BLKSIZE then s else s[..BLKSIZE] }
  function Drop(s: seq<byte>): seq<byte> { if |s| < BLKSIZE then [] else s[BLKSIZE..] }

  function PutRead(p: Putter, input: Option<Packet>): Putter
  {
    if input.None? || |input.value| == 0 then p
    else if |input.value| < 2 then p.(state := PutDead)
    else if UnpackOp(input.value) == ACK then p.(state := PutAck, inbuf := input.value)
    else p.(state := PutDead)
  }

  /** The start of case DATA: load the next block if the current one is acknowledged. */
  function PutLoad(p: Putter): Putter
  {
    if p.state.PutData? && p.blkno == p.nextblkno then
      var block := Take(p.rest);
      p.(nextblkno := p.nextblkno + 1, outbuf := Header(DATA, p.nextblkno + 1) + block,
         done := p.done || |block| < BLKSIZE, rest := Drop(p.rest))
    else p
  }

  /** One case of putfile's switch. */
  function PutStep(p: Putter, input: Option<Packet>): Putter
  {
    match p.state
    case PutWrq => PutRead(p, input)
    case PutData => PutRead(PutLoad(p), input)
    case PutAck =>
      if |p.inbuf| < HDRSIZE then p.(state := PutDead)
      else
        var blkno := UnpackBlkno(p.inbuf);
        p.(state := if blkno == p.nextblkno && p.done then PutReturned else PutData, blkno := blkno)
    case PutReturned => p
    case PutDead => p
  }

  function PutSends(p: Putter): Option<Packet>
  {
    match p.state
    case PutWrq => Some(Request(WRQ))
    case PutData => Some(PutLoad(p).outbuf)
    case _ => None
  }

  // ----- both ends and the network

  /** Every packet on the network: any of them may arrive at any time, any number of times,
      or never. */
  datatype System = System(put: Putter, get: Getter, requests: set<Packet>, data: set<Packet>, acks: set<Packet>)

  function Init(file: seq<byte>): System
  {
    System(PUTTER(file), GETTER, {}, {}, {})
  }

  function Sent(p: Option<Packet>): set<Packet> { if p.Some? then {p.value} else {} }

  datatype Event = PutMoves(input: Option<Packet>) | GetMoves(input: Option<Packet>)

  /** A timeout, or the arrival of a packet that was sent. A request to write is answered by
      an acknowledgement of block 0, and nobody sends data to a receiver that has not asked
      for it. */
  predicate Possible(s: System, e: Event)
  {
    match e
    case PutMoves(input) =>
      || input.None?
      || input.value in s.acks
      || (input.value == Header(ACK, 0) && Request(WRQ) in s.requests)
    case GetMoves(input) =>
      || input.None?
      || (input.value in s.data && (s.get.state.GetRrq? ==> Request(RRQ) in s.requests))
  }

  function Next(s: System, e: Event): System
  {
    match e
    case PutMoves(input) =>
      var sent := Sent(PutSends(s.put));
      var t := s.(put := PutStep(s.put, input));
      if s.put.state.PutWrq? then t.(requests := s.requests + sent) else t.(data := s.data + sent)
    case GetMoves(input) =>
      var sent := Sent(GetSends(s.get));
      var t := s.(get := GetStep(s.get, input));
      if s.get.state.GetRrq? then t.(requests := s.requests + sent) else t.(acks := s.acks + sent)
  }

  /** A run from a state. */
  ghost predicate IsRun(s0: System, es: seq<Event>, ss: seq<System>)
  {
    && |ss| == |es| + 1 && ss[0] == s0
    && forall k :: 0 <= k < |es| ==> Possible(ss[k], es[k]) && ss[k + 1] == Next(ss[k], es[k])
  }

  ghost predicate Leads(s: System, t: System)
  {
    exists es, ss :: IsRun(s, es, ss) && t == ss[|es|]
  }

  ghost predicate Reachable(file: seq<byte>, s: System) { Leads(Init(file), s) }

  // ----- blocks

  /** The number of blocks of a file; the last one is shorter than 512 bytes. */
  function Blocks(file: seq<byte>): nat { |file| / BLKSIZE + 1 }

  /** The first k blocks. */
  function Prefix(file: seq<byte>, k: nat): seq<byte> { if k * BLKSIZE <= |file| then file[..k * BLKSIZE] else file }

  function Block(file: seq<byte>, k: nat): seq<byte>
    requires 1 <= k <= Blocks(file)
  {
    Take(file[(k - 1) * BLKSIZE..])
  }

  lemma BlockFacts(file: seq<byte>, k: nat)
    requires 1 <= k <= Blocks(file)
    ensures (k - 1) * BLKSIZE <= |file|
    ensures Prefix(file, k) == Prefix(file, k - 1) + Block(file, k)
    ensures |Block(file, k)| < BLKSIZE <==> k == Blocks(file)
    ensures k == Blocks(file) ==> Prefix(file, k) == file && Drop(file[(k - 1) * BLKSIZE..]) == []
    ensures k < Blocks(file) ==> Drop(file[(k - 1) * BLKSIZE..]) == file[k * BLKSIZE..] && k * BLKSIZE <= |file|
  {
    var i := (k - 1) * BLKSIZE;
    assert k * BLKSIZE == i + BLKSIZE;
    if k < Blocks(file) {
      assert file[..i + BLKSIZE] == file[..i] + file[i..][..BLKSIZE];
      assert file[i..][BLKSIZE..] == file[i + BLKSIZE..];
    } else {
      assert file == file[..i] + file[i..];
    }
  }

  // ----- the invariant

  const LIMIT: nat := 65536

  /** A DATA packet for block k. */
  function DataPacket(file: seq<byte>, k: nat): Packet
    requires 1 <= k <= Blocks(file)
  {
    Header(DATA, k) + Block(file, k)
  }

  /** p is a block that the sender, now at block s, has sent. */
  ghost predicate IsData(file: seq<byte>, p: Packet, s: int)
  {
    exists k :: 1 <= k <= s && k <= Blocks(file) && p == DataPacket(file, k)
  }

  /** p acknowledges a block before r. */
  ghost predicate IsAck(p: Packet, r: int)
  {
    exists k :: 0 <= k < r && k < LIMIT && p == Header(ACK, k)
  }

  /** The sender has read and sent exactly blocks 1..nextblkno. */
  ghost predicate PutOk(file: seq<byte>, p: Putter)
  {
    var s := p.nextblkno;
    && 0 <= s <= Blocks(file) && s <= LIMIT && !p.state.PutDead?
    && (s >= 1 ==> p.outbuf == DataPacket(file, s))
    && p.rest == (if s * BLKSIZE <= |file| then file[s * BLKSIZE..] else [])
    && (p.done <==> s == Blocks(file))
    && (p.state.PutWrq? ==> s == 0)
  }

  /** The receiver has written exactly blocks 1..nextblkno-1. */
  ghost predicate GetOk(file: seq<byte>, g: Getter)
  {
    1 <= g.nextblkno <= LIMIT && g.out == Prefix(file, g.nextblkno - 1) && !g.state.GetDead?
  }

  /** What ties the two ends together: the receiver is at the sender's block or one past
      it, and has the last block if it has seen it. */
  ghost predicate Together(file: seq<byte>, p: Putter, g: Getter)
  {
    var s, r := p.nextblkno, g.nextblkno;
    && s <= r <= s + 1
    && (p.state.PutData? ==> 0 <= p.blkno < r && p.blkno < LIMIT && (p.blkno == s ==> !p.done))
    && (p.state.PutAck? ==> IsAck(p.inbuf, r))
    && (p.state.PutReturned? ==> p.done && r == s + 1)
    && (g.state.GetData? ==> IsData(file, g.buf, s) && g.n == |g.buf|)
    && (g.state.GetAck? || g.state.GetReturned? ==> 0 <= g.blkno < r && g.blkno < LIMIT)
    && (g.done ==> s == Blocks(file) && (s < LIMIT ==> r == s + 1))
    && (g.state.GetReturned? ==> g.done)
    && (g.done ==> (g.state.GetAck? || g.state.GetReturned?) && (s < LIMIT ==> g.blkno == s))
    && (r == Blocks(file) + 1 ==> g.done)
  }

  ghost predicate Inv(file: seq<byte>, s: System)
  {
    && PutOk(file, s.put) && GetOk(file, s.get) && Together(file, s.put, s.get)
    && (forall p :: p in s.data ==> IsData(file, p, s.put.nextblkno))
    && (forall p :: p in s.acks ==> IsAck(p, s.get.nextblkno))
  }

  lemma InvInit(file: seq<byte>)
    ensures Inv(file, Init(file))
  {
  }

  /** The answer to a request acknowledges block 0. */
  lemma FirstAck(file: seq<byte>, g: Getter)
    requires GetOk(file, g)
    ensures IsAck(Header(ACK, 0), g.nextblkno)
  {
    assert Header(ACK, 0) == Header(ACK, 0);
  }

  lemma DataGrows(file: seq<byte>, p: Packet, s: int, s': int)
    requires IsData(file, p, s) && s <= s'
    ensures IsData(file, p, s')
  {
  }

  lemma AckGrows(p: Packet, r: int, r': int)
    requires IsAck(p, r) && r <= r'
    ensures IsAck(p, r')
  {
  }

  /** What a DATA packet says to the receiver. */
  lemma DataRead(file: seq<byte>, p: Packet, s: int) returns (k: nat)
    requires IsData(file, p, s)
    ensures 1 <= k <= s && k <= Blocks(file)
    ensures |p| >= HDRSIZE && UnpackOp(p) == DATA && UnpackBlkno(p) == k % LIMIT && p[HDRSIZE..] == Block(file, k)
    ensures |p| == HDRSIZE + |Block(file, k)|
  {
    k :| 1 <= k <= s && k <= Blocks(file) && p == DataPacket(file, k);
    HeaderRoundTrip(DATA, k, Block(file, k));
  }

  lemma AckRead(p: Packet, r: int) returns (k: nat)
    requires IsAck(p, r)
    ensures 0 <= k < r && k < LIMIT
    ensures |p| >= HDRSIZE && UnpackOp(p) == ACK && UnpackBlkno(p) == k
  {
    k :| 0 <= k < r && k < LIMIT && p == Header(ACK, k);
    HeaderRoundTrip(ACK, k, []);
    assert Header(ACK, k) + [] == Header(ACK, k);
  }

  // ----- every step keeps it

  lemma LoadKeeps(file: seq<byte>, p: Putter, g: Getter)
    requires PutOk(file, p) && Together(file, p, g) && p.state.PutData?
    ensures var p' := PutLoad(p);
            && PutOk(file, p') && Together(file, p', g) && p.nextblkno <= p'.nextblkno
            && p'.nextblkno >= 1 && p'.state.PutData?
  {
    if p.blkno == p.nextblkno {
      BlockFacts(file, p.nextblkno + 1);
      assert (p.nextblkno + 1) * BLKSIZE == p.nextblkno * BLKSIZE + BLKSIZE;
    }
  }

  lemma PutReadKeeps(file: seq<byte>, p: Putter, g: Getter, input: Option<Packet>)
    requires PutOk(file, p) && Together(file, p, g) && (p.state.PutData? || p.state.PutWrq?)
    requires input.Some? ==> IsAck(input.value, g.nextblkno)
    ensures PutOk(file, PutRead(p, input)) && Together(file, PutRead(p, input), g)
  {
    if input.Some? {
      var k := AckRead(input.value, g.nextblkno);
    }
  }

  lemma PutKeeps(file: seq<byte>, p: Putter, g: Getter, input: Option<Packet>)
    requires PutOk(file, p) && GetOk(file, g) && Together(file, p, g)
    requires input.Some? ==> IsAck(input.value, g.nextblkno)
    ensures PutOk(file, PutStep(p, input)) && Together(file, PutStep(p, input), g)
    ensures p.nextblkno <= PutStep(p, input).nextblkno
    ensures p.state.PutData? ==> PutSends(p).Some? && IsData(file, PutSends(p).value, PutStep(p, input).nextblkno)
  {
    hide UnpackBlkno, UnpackOp, GetOk, Block;
    match p.state
    case PutWrq => PutReadKeeps(file, p, g, input);
    case PutData =>
      LoadKeeps(file, p, g);
      PutReadKeeps(file, PutLoad(p), g, input);
      assert PutSends(p).value == DataPacket(file, PutLoad(p).nextblkno);
    case PutAck => PutAckKeeps(file, p, g);
    case PutReturned =>
  }

  lemma PutAckKeeps(file: seq<byte>, p: Putter, g: Getter)
    requires PutOk(file, p) && Together(file, p, g) && p.state.PutAck?
    ensures PutOk(file, PutStep(p, None)) && Together(file, PutStep(p, None), g)
  {
    hide UnpackBlkno, UnpackOp, IsData, Block;
    var k := AckRead(p.inbuf, g.nextblkno);
  }

  lemma GetReadKeeps(file: seq<byte>, p: Putter, g: Getter, input: Option<Packet>)
    requires GetOk(file, g) && Together(file, p, g) && (g.state.GetRrq? || g.state.GetAck?) && !g.done
    requires input.Some? ==> IsData(file, input.value, p.nextblkno)
    ensures GetOk(file, GetRead(g, input)) && Together(file, p, GetRead(g, input))
  {
    if input.Some? {
      var k := DataRead(file, input.value, p.nextblkno);
    }
  }

  lemma GetDataKeeps(file: seq<byte>, p: Putter, g: Getter)
    requires PutOk(file, p) && GetOk(file, g) && Together(file, p, g) && g.state.GetData?
    ensures GetOk(file, GetStep(g, None)) && Together(file, p, GetStep(g, None))
    ensures g.nextblkno <= GetStep(g, None).nextblkno
  {
    hide IsAck, IsData, DataPacket, Block, Prefix, UnpackBlkno, UnpackOp;
    var k := DataRead(file, g.buf, p.nextblkno);
    BlockFacts(file, k);
    var g' := GetStep(g, None);
    if p.state.PutAck? {
      AckGrows(p.inbuf, g.nextblkno, g'.nextblkno);
    }
    assert k < LIMIT ==> k % LIMIT == k;
    assert k == LIMIT ==> k % LIMIT == 0;
  }

  lemma GetKeeps(file: seq<byte>, p: Putter, g: Getter, input: Option<Packet>)
    requires PutOk(file, p) && GetOk(file, g) && Together(file, p, g)
    requires input.Some? ==> IsData(file, input.value, p.nextblkno)
    ensures GetOk(file, GetStep(g, input)) && Together(file, p, GetStep(g, input))
    ensures g.nextblkno <= GetStep(g, input).nextblkno
    ensures g.state.GetAck? ==> GetSends(g).Some? && IsAck(GetSends(g).value, GetStep(g, input).nextblkno)
  {
    hide IsData, Prefix, PutOk, Header;
    match g.state
    case GetRrq => GetReadKeeps(file, p, g, input);
    case GetData => GetDataKeeps(file, p, g);
    case GetAck =>
      assert IsAck(Header(ACK, g.blkno), g.nextblkno);
      if !g.done {
        GetReadKeeps(file, p, g, input);
      }
    case GetReturned =>
  }

  lemma InvNext(file: seq<byte>, s: System, e: Event)
    requires Inv(file, s) && Possible(s, e)
    ensures Inv(file, Next(s, e))
  {
    hide PutOk, GetOk, Together, IsData, IsAck, PutStep, GetStep, PutSends, GetSends;
    var t := Next(s, e);
    match e
    case PutMoves(input) =>
      FirstAck(file, s.get);
      PutKeeps(file, s.put, s.get, input);
      NothingSent(s.put, s.get);
      forall p | p in t.data
        ensures IsData(file, p, t.put.nextblkno)
      {
        if p in s.data {
          DataGrows(file, p, s.put.nextblkno, t.put.nextblkno);
        }
      }
    case GetMoves(input) =>
      GetKeeps(file, s.put, s.get, input);
      NothingSent(s.put, s.get);
      forall p | p in t.acks
        ensures IsAck(p, t.get.nextblkno)
      {
        if p in s.acks {
          AckGrows(p, s.get.nextblkno, t.get.nextblkno);
        }
      }
  }

  lemma NothingSent(p: Putter, g: Getter)
    ensures !p.state.PutData? && !p.state.PutWrq? ==> PutSends(p).None?
    ensures !g.state.GetAck? && !g.state.GetRrq? ==> GetSends(g).None?
  {
  }

  lemma {:induction false} RunKeeps(file: seq<byte>, s0: System, es: seq<Event>, ss: seq<System>, k: nat)
    requires Inv(file, s0) && IsRun(s0, es, ss) && k <= |es|
    ensures Inv(file, ss[k])
  {
    hide Inv, Next, Possible;
    if k > 0 {
      RunKeeps(file, s0, es, ss, k - 1);
      InvNext(file, ss[k - 1], es[k - 1]);
    }
  }

  lemma LeadsKeeps(file: seq<byte>, s: System, t: System)
    requires Inv(file, s) && Leads(s, t)
    ensures Inv(file, t)
  {
    hide Inv, Next, Possible;
    var es, ss :| IsRun(s, es, ss) && t == ss[|es|];
    RunKeeps(file, s, es, ss, |es|);
  }

  lemma ReachableKeeps(file: seq<byte>, s: System)
    requires Reachable(file, s)
    ensures Inv(file, s)
  {
    InvInit(file);
    LeadsKeeps(file, Init(file), s);
  }

  // ----- what the transfer guarantees

  /** In every reachable state the receiver has written a prefix of the file, made of
      whole blocks. */
  lemma WrittenIsPrefix(file: seq<byte>, s: System)
    requires Reachable(file, s)
    ensures exists k: nat :: s.get.out == Prefix(file, k)
    ensures s.get.out <= file
  {
    ReachableKeeps(file, s);
  }

  /** When the sender returns, the receiver has the whole file. */
  lemma SenderReturns(file: seq<byte>, s: System)
    requires Reachable(file, s) && s.put.state.PutReturned?
    ensures s.get.out == file && Blocks(file) < LIMIT
  {
    ReachableKeeps(file, s);
    BlockFacts(file, Blocks(file));
  }

  /** When the receiver returns, it has the whole file unless the file has exactly 65536
      blocks: then it has lost the last one. With more blocks it never returns. */
  lemma ReceiverReturns(file: seq<byte>, s: System)
    requires Reachable(file, s) && s.get.state.GetReturned?
    ensures Blocks(file) <= LIMIT
    ensures s.get.out == file <==> Blocks(file) != LIMIT || |file| == (LIMIT - 1) * BLKSIZE
    ensures Blocks(file) == LIMIT ==> s.get.out == file[..(LIMIT - 1) * BLKSIZE]
  {
    ReachableKeeps(file, s);
    BlockFacts(file, Blocks(file));
  }

  // ----- progress, whatever has been lost

  lemma LeadsNext(s0: System, s: System, e: Event)
    requires Leads(s0, s) && Possible(s, e)
    ensures Leads(s0, Next(s, e))
  {
    hide Next, Possible;
    var es, ss :| IsRun(s0, es, ss) && s == ss[|es|];
    var es', ss' := es + [e], ss + [Next(s, e)];
    forall k | 0 <= k < |es'|
      ensures Possible(ss'[k], es'[k]) && ss'[k + 1] == Next(ss'[k], es'[k])
    {
      if k < |es| {
        assert Possible(ss[k], es[k]) && ss[k + 1] == Next(ss[k], es[k]);
      }
    }
    assert IsRun(s0, es', ss') && Next(s, e) == ss'[|es'|];
  }

  lemma LeadsSelf(s: System)
    ensures Leads(s, s)
  {
    var es: seq<Event>, ss := [], [s];
    assert IsRun(s, es, ss) && s == ss[|es|];
  }

  /** s comes after s0, and the invariant holds of it. */
  ghost predicate After(file: seq<byte>, s0: System, s: System) { Leads(s0, s) && Inv(file, s) }

  lemma AfterNext(file: seq<byte>, s0: System, s: System, e: Event)
    requires After(file, s0, s) && Possible(s, e)
    ensures After(file, s0, Next(s, e))
  {
    hide Leads, Inv, Next, Possible;
    LeadsNext(s0, s, e);
    InvNext(file, s, e);
  }

  /** What the invariant says of a state in which the transfer is not over. */
  lemma AfterFacts(file: seq<byte>, s0: System, s: System)
    requires After(file, s0, s)
    ensures PutOk(file, s.put) && GetOk(file, s.get) && Together(file, s.put, s.get)
  {
    hide Leads, PutOk, GetOk, Together, IsData, IsAck;
  }

  lemma AckHeader(k: nat)
    requires k < LIMIT
    ensures UnpackOp(Header(ACK, k)) == ACK && UnpackBlkno(Header(ACK, k)) == k
  {
    HeaderRoundTrip(ACK, k, []);
    assert Header(ACK, k) + [] == Header(ACK, k);
  }

  /** The sender reads the acknowledgement of block k. */
  lemma PutTakesAck(p: Putter, k: nat)
    requires p.state.PutAck? && p.inbuf == Header(ACK, k) && k < LIMIT
    ensures PutStep(p, None) == p.(state := if k == p.nextblkno && p.done then PutReturned else PutData, blkno := k)
  {
    AckHeader(k);
  }

  /** The acknowledgement of block k reaches a sender that waits for it. */
  lemma AckArrives(p: Putter, k: nat)
    requires (p.state.PutWrq? || (p.state.PutData? && p.blkno != p.nextblkno)) && k < LIMIT
    ensures PutStep(p, Some(Header(ACK, k))) == p.(state := PutAck, inbuf := Header(ACK, k))
  {
    AckHeader(k);
  }

  /** A request that was lost is made again, and answered. */
  lemma Asked(file: seq<byte>, s0: System, s: System) returns (t: System)
    requires After(file, s0, s) && s.put.state.PutWrq?
    ensures After(file, s0, t) && t.get == s.get && t.put.state.PutAck?
    ensures t.put.inbuf == Header(ACK, 0) && t.put.nextblkno == s.put.nextblkno
  {
    hide After, Header;
    AfterNext(file, s0, s, PutMoves(None));
    var s1 := Next(s, PutMoves(None));
    var e := PutMoves(Some(Header(ACK, 0)));
    AfterNext(file, s0, s1, e);
    AckArrives(s1.put, 0);
    t := Next(s1, e);
  }

  /** The sender gets to where it sends data, or is through. */
  lemma ReadsAck(file: seq<byte>, s0: System, s: System) returns (t: System)
    requires After(file, s0, s) && s.put.state.PutAck?
    ensures After(file, s0, t) && t.get == s.get && t.put.nextblkno == s.put.nextblkno
    ensures t.put.state.PutData? || t.put.state.PutReturned?
  {
    hide After, IsData, DataPacket, PutOk, GetOk, UnpackBlkno;
    AfterFacts(file, s0, s);
    var k := AckRead(s.put.inbuf, s.get.nextblkno);
    AfterNext(file, s0, s, PutMoves(None));
    t := Next(s, PutMoves(None));
  }

  lemma ToData(file: seq<byte>, s0: System, s: System) returns (t: System)
    requires After(file, s0, s)
    ensures After(file, s0, t) && t.get == s.get && (t.put.state.PutData? || t.put.state.PutReturned?)
  {
    hide After, Header, Together, GetOk, PutStep;
    AfterFacts(file, s0, s);
    t := s;
    if t.put.state.PutWrq? {
      t := Asked(file, s0, t);
    }
    if t.put.state.PutAck? {
      t := ReadsAck(file, s0, t);
    }
  }

  /** A sender in its data state sends its block, for the first time or again. */
  lemma SendsBlock(file: seq<byte>, s0: System, s: System) returns (t: System)
    requires After(file, s0, s) && s.put.state.PutData?
    ensures After(file, s0, t) && t.get == s.get && t.put.state.PutData? && t.put.blkno != t.put.nextblkno
    ensures 1 <= t.put.nextblkno <= Blocks(file) && DataPacket(file, t.put.nextblkno) in t.data
    ensures t.put.nextblkno == if s.put.blkno == s.put.nextblkno then s.put.nextblkno + 1 else s.put.nextblkno
  {
    hide After, IsData, IsAck, DataPacket, Together, GetOk;
    AfterNext(file, s0, s, PutMoves(None));
    t := Next(s, PutMoves(None));
    AfterFacts(file, s0, t);
    AfterFacts(file, s0, s);
    FirstBlock(file, s.put, s.get);
  }

  lemma FirstBlock(file: seq<byte>, p: Putter, g: Getter)
    requires PutOk(file, p) && GetOk(file, g) && Together(file, p, g) && p.state.PutData?
    ensures p.blkno == p.nextblkno || p.nextblkno >= 1
  {
    hide IsData, IsAck, DataPacket;
  }

  /** A receiver that is ready for data. */
  predicate Waits(s: System)
  {
    && (s.get.state.GetRrq? || s.get.state.GetAck?) && !s.get.done
    && (s.get.state.GetRrq? ==> Request(RRQ) in s.requests)
  }

  /** The receiver gets ready for data, or acknowledges the last block and returns. */
  lemma GetsReady(file: seq<byte>, s0: System, s: System) returns (t: System)
    requires After(file, s0, s) && !s.get.state.GetReturned? && Blocks(file) < LIMIT
    ensures After(file, s0, t) && t.put == s.put && t.data == s.data
    ensures Waits(t) || (t.get.state.GetReturned? && Header(ACK, Blocks(file)) in t.acks)
  {
    hide After, IsData, IsAck, DataPacket, Header, UnpackBlkno, Prefix;
    AfterFacts(file, s0, s);
    t := s;
    if t.get.state.GetRrq? || t.get.state.GetData? {
      AfterNext(file, s0, t, GetMoves(None));
      t := Next(t, GetMoves(None));
      AfterFacts(file, s0, t);
    }
    if t.get.state.GetAck? && t.get.done {
      AfterNext(file, s0, t, GetMoves(None));
      t := Next(t, GetMoves(None));
    }
  }

  /** The receiver takes block k and writes it if it is the one it waits for. */
  lemma GetTakesBlock(file: seq<byte>, g: Getter, k: nat)
    requires 1 <= k <= Blocks(file) && (g.state.GetRrq? || g.state.GetAck?) && !g.done
    ensures var q := DataPacket(file, k);
            var g' := GetStep(GetStep(g, Some(q)), None);
            && g'.state.GetAck? && g'.blkno == k % LIMIT && (g'.done <==> k == Blocks(file))
            && g'.nextblkno == if k % LIMIT == g.nextblkno then g.nextblkno + 1 else g.nextblkno
  {
    HeaderRoundTrip(DATA, k, Block(file, k));
    BlockFacts(file, k);
  }

  /** Block k is on the network and arrives, for the first time or again. */
  lemma BlockArrives(file: seq<byte>, s0: System, s: System, k: nat) returns (t: System)
    requires After(file, s0, s) && Waits(s) && 1 <= k <= Blocks(file) && DataPacket(file, k) in s.data
    ensures After(file, s0, t) && t.put == s.put
    ensures t.get.state.GetAck? && t.get.blkno == k % LIMIT && (t.get.done <==> k == Blocks(file))
    ensures t.get.nextblkno == if k % LIMIT == s.get.nextblkno then s.get.nextblkno + 1 else s.get.nextblkno
  {
    hide After, GetSends, DataPacket, GetStep;
    var e := GetMoves(Some(DataPacket(file, k)));
    AfterNext(file, s0, s, e);
    var s1 := Next(s, e);
    AfterNext(file, s0, s1, GetMoves(None));
    t := Next(s1, GetMoves(None));
    GetTakesBlock(file, s.get, k);
  }

  /** Block k has arrived and its acknowledgement has just reached the sender. */
  ghost predicate Acknowledged(file: seq<byte>, s: System, k: nat)
  {
    && s.put.state.PutAck? && s.put.inbuf == Header(ACK, k) && s.put.nextblkno == k
    && s.get.nextblkno == k + 1
    && (if k == Blocks(file) then s.get.state.GetReturned?
        else (s.get.state.GetRrq? || s.get.state.GetAck?) && !s.get.done)
  }

  /** The receiver acknowledges what it has taken, and the sender reads it. */
  lemma AckReturns(file: seq<byte>, s0: System, s: System, k: nat) returns (t: System)
    requires After(file, s0, s) && 1 <= k < LIMIT && s.put.state.PutData? && s.put.nextblkno == k != s.put.blkno
    requires s.get.state.GetAck? && s.get.blkno == k && s.get.nextblkno == k + 1 && (s.get.done <==> k == Blocks(file))
    ensures After(file, s0, t) && Acknowledged(file, t, k)
  {
    hide After, Header, PutStep;
    AfterNext(file, s0, s, GetMoves(None));
    var s1 := Next(s, GetMoves(None));
    var e := PutMoves(Some(Header(ACK, k)));
    AfterNext(file, s0, s1, e);
    AckArrives(s1.put, k);
    t := Next(s1, e);
  }

  /** The block that the sender is at gets through. */
  lemma BlockPasses(file: seq<byte>, s0: System, s: System, k: nat) returns (t: System)
    requires After(file, s0, s) && Waits(s) && 1 <= k <= Blocks(file) && k < LIMIT && DataPacket(file, k) in s.data
    requires s.put.state.PutData? && s.put.nextblkno == k != s.put.blkno
    ensures After(file, s0, t) && Acknowledged(file, t, k)
  {
    hide After, DataPacket, PutOk, GetOk, IsData, IsAck;
    AfterFacts(file, s0, s);
    var s1 := BlockArrives(file, s0, s, k);
    t := AckReturns(file, s0, s1, k);
  }

  /** The sender, told that block k has arrived, sends the next one to a receiver that is
      ready for it. */
  lemma NextLeaves(file: seq<byte>, s0: System, s: System, k: nat) returns (t: System)
    requires After(file, s0, s) && Acknowledged(file, s, k) && k < Blocks(file) && k < LIMIT
    ensures After(file, s0, t) && Waits(t) && DataPacket(file, k + 1) in t.data && t.get.nextblkno == k + 1
    ensures t.put.state.PutData? && t.put.nextblkno == k + 1 != t.put.blkno
  {
    hide After, IsData, IsAck, DataPacket, Header, GetOk, UnpackBlkno;
    AfterFacts(file, s0, s);
    PutTakesAck(s.put, k);
    AfterNext(file, s0, s, PutMoves(None));
    var s1 := Next(s, PutMoves(None));
    t := SendsBlock(file, s0, s1);
    if t.get.state.GetRrq? {
      AfterNext(file, s0, t, GetMoves(None));
      t := Next(t, GetMoves(None));
    }
  }

  lemma {:induction false} MoreBlocks(file: seq<byte>, s0: System, s: System, k: nat, m: nat) returns (t: System)
    requires After(file, s0, s) && Acknowledged(file, s, k) && k <= m <= Blocks(file) && m < LIMIT
    ensures After(file, s0, t) && Acknowledged(file, t, m)
    decreases m - k
  {
    hide After, Acknowledged, DataPacket, Waits;
    t := s;
    if k < m {
      t := NextLeaves(file, s0, t, k);
      t := BlockPasses(file, s0, t, k + 1);
      t := MoreBlocks(file, s0, t, k + 1, m);
    }
  }

  /** Both ends have returned, with the whole file. */
  ghost predicate Complete(file: seq<byte>, s: System)
  {
    s.put.state.PutReturned? && s.get.state.GetReturned? && s.get.out == file
  }

  lemma IsComplete(file: seq<byte>, s0: System, s: System)
    requires After(file, s0, s) && s.put.state.PutReturned? && s.get.state.GetReturned?
    ensures Complete(file, s)
  {
    hide IsData, IsAck, Leads;
    BlockFacts(file, Blocks(file));
  }

  /** The last acknowledgement is read. */
  lemma Finishes(file: seq<byte>, s0: System, s: System) returns (t: System)
    requires After(file, s0, s) && s.put.state.PutAck? && s.put.inbuf == Header(ACK, Blocks(file))
    requires s.get.state.GetReturned? && Blocks(file) < LIMIT
    ensures After(file, s0, t) && Complete(file, t)
  {
    hide After, IsData, IsAck, Header, GetOk, PutStep, Complete;
    AfterFacts(file, s0, s);
    PutTakesAck(s.put, Blocks(file));
    AfterNext(file, s0, s, PutMoves(None));
    t := Next(s, PutMoves(None));
    IsComplete(file, s0, t);
  }

  /** The last acknowledgement is on the network. */
  lemma LastAck(file: seq<byte>, s0: System, s: System) returns (t: System)
    requires After(file, s0, s) && s.put.state.PutData? && Header(ACK, Blocks(file)) in s.acks
    requires s.get.state.GetReturned? && Blocks(file) < LIMIT
    ensures After(file, s0, t) && Complete(file, t)
  {
    hide After, IsData, IsAck, Header, GetOk, PutStep, Complete;
    AfterFacts(file, s0, s);
    var e := PutMoves(Some(Header(ACK, Blocks(file))));
    AckArrives(s.put, Blocks(file));
    AfterNext(file, s0, s, e);
    t := Finishes(file, s0, Next(s, e));
  }

  /** From every state that keeps the invariant, as long as the receiver has not returned,
      both ends can still complete the transfer. */
  lemma CanFinish(file: seq<byte>, s: System) returns (t: System)
    requires Inv(file, s) && !s.get.state.GetReturned? && Blocks(file) < LIMIT
    ensures After(file, s, t) && Complete(file, t)
  {
    LeadsSelf(s);
    assert After(file, s, s);
    hide After, Inv, Complete, Acknowledged, Waits, DataPacket, Header;
    t := ToData(file, s, s);
    if t.put.state.PutReturned? {
      ReceiverIsDone(file, s, t);
      AfterNext(file, s, t, GetMoves(None));
      t := Next(t, GetMoves(None));
      IsComplete(file, s, t);
    } else {
      t := SendsBlock(file, s, t);
      t := GetsReady(file, s, t);
      if t.get.state.GetReturned? && Header(ACK, Blocks(file)) in t.acks {
        t := LastAck(file, s, t);
      } else {
        var k := t.put.nextblkno;
        t := BlockPasses(file, s, t, k);
        t := MoreBlocks(file, s, t, k, Blocks(file));
        AtLast(file, t);
        t := Finishes(file, s, t);
      }
    }
  }

  lemma AtLast(file: seq<byte>, t: System)
    requires Acknowledged(file, t, Blocks(file))
    ensures t.put.state.PutAck? && t.put.inbuf == Header(ACK, Blocks(file)) && t.get.state.GetReturned?
  {
  }

  lemma ReceiverIsDone(file: seq<byte>, s0: System, t: System)
    requires After(file, s0, t) && t.put.state.PutReturned? && !t.get.state.GetReturned?
    ensures t.get.state.GetAck? && t.get.done
  {
    hide Leads, IsData, IsAck, DataPacket;
  }

  // ----- loss

  /** The same state with everything on the network lost. */
  function Lost(s: System): System { s.(requests := {}, data := {}, acks := {}) }

  lemma LostKeeps(file: seq<byte>, s: System)
    requires Inv(file, s)
    ensures Inv(file, Lost(s))
  {
    hide PutOk, GetOk, Together, IsData, IsAck;
  }

  /** Wherever a transfer of at most 65535 blocks stands, and whatever has been lost, both
      ends can still return, the receiver with the whole file, as long as the receiver has
      not returned: everything is sent again until it is answered. */
  lemma Recovers(file: seq<byte>, s: System)
    requires Reachable(file, s) && !s.get.state.GetReturned? && Blocks(file) < LIMIT
    ensures exists t :: Leads(Lost(s), t) && Complete(file, t)
  {
    ReachableKeeps(file, s);
    LostKeeps(file, s);
    hide Inv, Complete, Leads, Reachable;
    var t := CanFinish(file, Lost(s));
  }

  /** The sender has read, or is about to read, that the last block has arrived. */
  ghost predicate Told(file: seq<byte>, p: Putter)
  {
    p.state.PutReturned? || (p.state.PutAck? && p.inbuf == Header(ACK, Blocks(file)))
  }

  /** The receiver has returned and its last acknowledgement is lost. */
  ghost predicate Alone(file: seq<byte>, s: System)
  {
    && s.get.state.GetReturned? && s.requests == {} && s.acks == {}
    && !s.put.state.PutWrq? && !Told(file, s.put)
  }

  lemma AloneNext(file: seq<byte>, s: System, e: Event)
    requires Inv(file, s) && Alone(file, s) && Possible(s, e) && Blocks(file) < LIMIT
    ensures Alone(file, Next(s, e))
  {
    hide IsData, DataPacket, GetOk, Header, UnpackBlkno, UnpackOp;
    if e.PutMoves? && s.put.state.PutAck? {
      OtherAck(file, s.put, s.get);
    }
  }

  lemma OtherAck(file: seq<byte>, p: Putter, g: Getter)
    requires PutOk(file, p) && GetOk(file, g) && Together(file, p, g) && p.state.PutAck? && g.done
    requires p.inbuf != Header(ACK, Blocks(file)) && Blocks(file) < LIMIT
    ensures PutStep(p, None).state.PutData? && PutStep(p, None) == p.(state := PutData, blkno := PutStep(p, None).blkno)
  {
    hide IsData, DataPacket;
    var k :| 0 <= k < g.nextblkno && k < LIMIT && p.inbuf == Header(ACK, k);
    PutTakesAck(p, k);
  }

  lemma {:induction false} AloneStays(file: seq<byte>, s: System, es: seq<Event>, ss: seq<System>, k: nat)
    requires Inv(file, s) && Alone(file, s) && IsRun(s, es, ss) && k <= |es| && Blocks(file) < LIMIT
    ensures Alone(file, ss[k])
  {
    hide Inv, Alone, Next, Possible;
    if k > 0 {
      AloneStays(file, s, es, ss, k - 1);
      RunKeeps(file, s, es, ss, k - 1);
      AloneNext(file, ss[k - 1], es[k - 1]);
    }
  }

  /** With the network emptied, the transfer can be completed exactly if the receiver has
      not returned or the sender has been told. */
  lemma RecoversExactly(file: seq<byte>, s: System)
    requires Reachable(file, s) && Blocks(file) < LIMIT
    ensures (exists t :: Leads(Lost(s), t) && Complete(file, t)) <==> !s.get.state.GetReturned? || Told(file, s.put)
  {
    ReachableKeeps(file, s);
    LostKeeps(file, s);
    if !s.get.state.GetReturned? {
      Recovers(file, s);
    } else if Told(file, s.put) {
      LeadsSelf(Lost(s));
      ToldFinishes(file, Lost(s));
    } else {
      LeftAlone(file, s);
      forall t | Leads(Lost(s), t)
        ensures !Complete(file, t)
      {
        NotComplete(file, Lost(s), t);
      }
    }
  }

  lemma ToldFinishes(file: seq<byte>, s: System)
    requires Inv(file, s) && s.get.state.GetReturned? && Told(file, s.put) && Blocks(file) < LIMIT
    ensures exists t :: Leads(s, t) && Complete(file, t)
  {
    LeadsSelf(s);
    assert After(file, s, s);
    if s.put.state.PutReturned? {
      IsComplete(file, s, s);
    } else {
      hide Inv, Complete, Leads;
      var t := Finishes(file, s, s);
    }
  }

  lemma LeftAlone(file: seq<byte>, s: System)
    requires Inv(file, s) && s.get.state.GetReturned? && !Told(file, s.put)
    ensures Alone(file, Lost(s))
  {
    hide IsData, IsAck, DataPacket;
  }

  lemma NotComplete(file: seq<byte>, s: System, t: System)
    requires Inv(file, s) && Alone(file, s) && Leads(s, t) && Blocks(file) < LIMIT
    ensures !Complete(file, t)
  {
    hide Inv, Next, Possible;
    var es, ss :| IsRun(s, es, ss) && t == ss[|es|];
    AloneStays(file, s, es, ss, |es|);
  }

  /** Every file of at most 65535 blocks can be transferred. */
  lemma CanComplete(file: seq<byte>)
    requires Blocks(file) < LIMIT
    ensures exists s :: Reachable(file, s) && Complete(file, s)
  {
    LeadsSelf(Init(file));
    InvInit(file);
    hide Inv, Complete, Leads;
    var t := CanFinish(file, Init(file));
  }

  /** A file of exactly 65536 blocks: the receiver can return, and without the last one. */
  lemma CanLoseLastBlock(file: seq<byte>)
    requires Blocks(file) == LIMIT
    ensures exists s :: Reachable(file, s) && s.get.state.GetReturned? && s.get.out == file[..(LIMIT - 1) * BLKSIZE]
  {
    var s0 := Init(file);
    LeadsSelf(s0);
    InvInit(file);
    assert After(file, s0, s0);
    hide After, Inv, Waits, DataPacket;
    var s := Asked(file, s0, s0);
    s := MoreBlocks(file, s0, s, 0, LIMIT - 1);
    s := NextLeaves(file, s0, s, LIMIT - 1);
    s := BlockArrives(file, s0, s, LIMIT);
    AfterNext(file, s0, s, GetMoves(None));
    var t := Next(s, GetMoves(None));
    AfterIsReachable(file, t);
    ReceiverReturns(file, t);
  }

  lemma AfterIsReachable(file: seq<byte>, s: System)
    requires After(file, Init(file), s)
    ensures Reachable(file, s)
  {
  }

  // ----- the programs themselves

  /** getfile: its variables are updated in place, one case of the switch per call. */
  class GetFile {
    var state: GetState
    var buf: Packet
    var n: int
    var blkno: int
    var nextblkno: int
    var done: bool
    var out: seq<byte>

    function View(): Getter
      reads this
    {
      Getter(state, buf, n, blkno, nextblkno, done, out)
    }

    constructor ()
      ensures View() == GETTER
    {
      state, buf, n, blkno, nextblkno, done, out := GetRrq, [], 0, 0, 1, false, [];
    }

    method Read(input: Option<Packet>)
      modifies this
      ensures View() == GetRead(old(View()), input)
    {
      if input.Some? && |input.value| > 0 {
        if |input.value| < 2 || UnpackOp(input.value) != DATA {
          state := GetDead;
        } else {
          state, buf, n := GetData, input.value, |input.value|;
        }
      }
    }

    /** One round of the for loop: the packet it sends, if any. */
    method Round(input: Option<Packet>) returns (sent: Option<Packet>)
      modifies this
      ensures View() == GetStep(old(View()), input) && sent == old(GetSends(View()))
    {
      sent := None;
      match state
      case GetRrq =>
        sent := Some(Request(RRQ));
        Read(input);
      case GetData =>
        if n - HDRSIZE < 0 || |buf| < HDRSIZE {
          state := GetDead;
          return;
        }
        n := n - HDRSIZE;
        blkno := UnpackBlkno(buf);
        if blkno == nextblkno {
          nextblkno := nextblkno + 1;
          out := out + buf[HDRSIZE..];
        }
        if n < BLKSIZE {
          done := true;
        }
        state := GetAck;
      case GetAck =>
        sent := Some(Header(ACK, blkno));
        if done {
          state := GetReturned;
        } else {
          Read(input);
        }
      case GetReturned =>
      case GetDead =>
    }
  }

  /** putfile, likewise. */
  class PutFile {
    var state: PutState
    var inbuf: Packet
    var outbuf: Packet
    var blkno: int
    var nextblkno: int
    var done: bool
    var rest: seq<byte>

    function View(): Putter
      reads this
    {
      Putter(state, inbuf, outbuf, blkno, nextblkno, done, rest)
    }

    constructor (file: seq<byte>)
      ensures View() == PUTTER(file)
    {
      state, inbuf, outbuf, blkno, nextblkno, done, rest := PutWrq, [], [], 0, 0, false, file;
    }

    method Read(input: Option<Packet>)
      modifies this
      ensures View() == PutRead(old(View()), input)
    {
      if input.Some? && |input.value| > 0 {
        if |input.value| < 2 || UnpackOp(input.value) != ACK {
          state := PutDead;
        } else {
          state, inbuf := PutAck, input.value;
        }
      }
    }

    method Round(input: Option<Packet>) returns (sent: Option<Packet>)
      modifies this
      ensures View() == PutStep(old(View()), input) && sent == old(PutSends(View()))
    {
      sent := None;
      match state
      case PutWrq =>
        sent := Some(Request(WRQ));
        Read(input);
      case PutData =>
        if blkno == nextblkno {
          nextblkno := nextblkno + 1;
          var block := Take(rest);
          rest := Drop(rest);
          outbuf := Header(DATA, nextblkno) + block;
          if |block| < BLKSIZE {
            done := true;
          }
        }
        sent := Some(outbuf);
        Read(input);
      case PutAck =>
        if |inbuf| < HDRSIZE {
          state := PutDead;
          return;
        }
        blkno := UnpackBlkno(inbuf);
        state := if blkno == nextblkno && done then PutReturned else PutData;
      case PutReturned =>
      case PutDead =>
    }
  }

  // ----- the programs against each other

  /** One event: one round of one program, and what it sent is on the network. */
  method Play(put: PutFile, get: GetFile, e: Event, ghost file: seq<byte>, s: System) returns (t: System)
    requires Reachable(file, s) && Possible(s, e) && s.put == put.View() && s.get == get.View()
    modifies put, get
    ensures t == Next(s, e) && t.put == put.View() && t.get == get.View()
    ensures Reachable(file, t) && Inv(file, t)
  {
    hide Reachable, Inv, PutStep, GetStep, PutSends, GetSends;
    ReachableNext(file, s, e);
    ReachableKeeps(file, Next(s, e));
    t := s;
    match e
    case PutMoves(input) =>
      var asks := put.state.PutWrq?;
      var sent := put.Round(input);
      t := t.(put := put.View());
      t := if asks then t.(requests := t.requests + Sent(sent)) else t.(data := t.data + Sent(sent));
    case GetMoves(input) =>
      var asks := get.state.GetRrq?;
      var sent := get.Round(input);
      t := t.(get := get.View());
      t := if asks then t.(requests := t.requests + Sent(sent)) else t.(acks := t.acks + Sent(sent));
  }

  lemma ReachableNext(file: seq<byte>, s: System, e: Event)
    requires Reachable(file, s) && Possible(s, e)
    ensures Reachable(file, Next(s, e))
  {
    LeadsNext(Init(file), s, e);
  }

  /** The system after a list of events, of which the impossible ones do not happen. */
  function Played(s: System, es: seq<Event>): System
    decreases |es|
  {
    if es == [] then s else Played(if Possible(s, es[0]) then Next(s, es[0]) else s, es[1..])
  }

  /** Both programs through any list of events; a packet that was never sent cannot arrive.
      At every end the receiver has written a prefix of the file, all of it if the sender
      has returned, and all of it if the receiver has, but for a lost block 65536. */
  method PlayAll(file: seq<byte>, es: seq<Event>) returns (put: PutFile, get: GetFile)
    ensures put.View() == Played(Init(file), es).put && get.View() == Played(Init(file), es).get
    ensures get.out <= file
    ensures put.state.PutReturned? ==> get.out == file && Blocks(file) < LIMIT
    ensures get.state.GetReturned? ==>
      && Blocks(file) <= LIMIT
      && (get.out == file <==> Blocks(file) != LIMIT || |file| == (LIMIT - 1) * BLKSIZE)
  {
    hide Reachable, Inv, Next, Blocks, Possible;
    put := new PutFile(file);
    get := new GetFile();
    var s := Init(file);
    ReachableInit(file);
    for i := 0 to |es|
      invariant fresh(put) && fresh(get)
      invariant Reachable(file, s) && s.put == put.View() && s.get == get.View()
      invariant Played(s, es[i..]) == Played(Init(file), es)
    {
      assert es[i..][1..] == es[i + 1..];
      if Possible(s, es[i]) {
        s := Play(put, get, es[i], file, s);
      }
    }
    Ends(file, s);
  }

  lemma ReachableInit(file: seq<byte>)
    ensures Reachable(file, Init(file))
  {
    LeadsSelf(Init(file));
  }

  lemma Ends(file: seq<byte>, s: System)
    requires Reachable(file, s)
    ensures s.get.out <= file
    ensures s.put.state.PutReturned? ==> s.get.out == file && Blocks(file) < LIMIT
    ensures s.get.state.GetReturned? ==>
      && Blocks(file) <= LIMIT
      && (s.get.out == file <==> Blocks(file) != LIMIT || |file| == (LIMIT - 1) * BLKSIZE)
  {
    hide Reachable;
    WrittenIsPrefix(file, s);
    if s.put.state.PutReturned? {
      SenderReturns(file, s);
    }
    if s.get.state.GetReturned? {
      ReceiverReturns(file, s);
    }
  }
}
