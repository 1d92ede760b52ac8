/**
  Framing of the peer-to-peer byte stream (src/net.cpp).  Receiving: the messages parsed do not
  depend on how the bytes are split into reads.  Sending: bytes leave in the order in which they
  were queued, whatever prefix of a buffer the socket accepts.
 */
module NetStream {
  import opened Common
  import opened LittleEndian

  const HEADER_SIZE := 24
  const MESSAGE_START_SIZE := 4
  const COMMAND_SIZE := 12
  const CHECKSUM_SIZE := 4
  const MAX_SIZE := 0x0200_0000
  const MAX_PROTOCOL_MESSAGE_LENGTH := 4_000_000
  const READ_AHEAD := 256 * 1024

  type Bytes = seq<nat>

  // ------------------------------------------------------------ specification

  /** The length field of a header: 4 bytes after the magic and the command. */
  function SizeOf(hdr: Bytes): nat
    requires |hdr| == HEADER_SIZE
  {
    Le32(hdr, 16)
  }

  /** A message received in part. */
  datatype Part = Part(hdr: Bytes, data: Bytes)

  predicate Complete(p: Part) {
    |p.hdr| == HEADER_SIZE && |p.data| == SizeOf(p.hdr)
  }

  datatype Recv = Open(msgs: seq<Part>) | Disconnected

  /** The last message can take no more bytes. */
  predicate Fresh(msgs: seq<Part>) {
    msgs == [] || Complete(msgs[|msgs| - 1])
  }

  function FeedPart(p: Part, b: nat): Part {
    if |p.hdr| < HEADER_SIZE then p.(hdr := p.hdr + [b]) else p.(data := p.data + [b])
  }

  predicate TooLarge(p: Part) {
    |p.hdr| == HEADER_SIZE && SizeOf(p.hdr) > MAX_PROTOCOL_MESSAGE_LENGTH
  }

  /** One byte at a time. */
  function FeedByte(s: Recv, b: nat): Recv {
    if s.Disconnected? then s
    else
      var n := |s.msgs|;
      if Fresh(s.msgs) then Open(s.msgs + [Part([b], [])])
      else
        var p := FeedPart(s.msgs[n - 1], b);
        if TooLarge(p) then Disconnected else Open(s.msgs[..n - 1] + [p])
  }

  function Feed(s: Recv, bytes: Bytes): Recv
    decreases |bytes|
  {
    if bytes == [] then s else Feed(FeedByte(s, bytes[0]), bytes[1..])
  }

  /** Two reads in a row are one read of their bytes. */
  lemma {:induction false} FeedAppend(s: Recv, a: Bytes, b: Bytes)
    ensures Feed(s, a + b) == Feed(Feed(s, a), b)
    decreases |a|
  {
    hide FeedByte;
    if a == [] {
      assert a + b == b;
    } else {
      FeedAppend(FeedByte(s, a[0]), a[1..], b);
      assert (a + b)[1..] == a[1..] + b;
    }
  }

  function Concat(chunks: seq<Bytes>): Bytes {
    if chunks == [] then [] else chunks[0] + Concat(chunks[1..])
  }

  function FeedChunks(s: Recv, chunks: seq<Bytes>): Recv
    decreases |chunks|
  {
    if chunks == [] then s else FeedChunks(Feed(s, chunks[0]), chunks[1..])
  }

  lemma {:induction false} ChunksAreBytes(s: Recv, chunks: seq<Bytes>)
    ensures FeedChunks(s, chunks) == Feed(s, Concat(chunks))
    decreases |chunks|
  {
    hide Feed;
    if chunks == [] {
      NoBytes(s);
    } else {
      FeedAppend(s, chunks[0], Concat(chunks[1..]));
      ChunksAreBytes(Feed(s, chunks[0]), chunks[1..]);
    }
  }

  lemma NoBytes(s: Recv)
    ensures Feed(s, []) == s
  {
  }

  /** How a stream is cut into reads makes no difference. */
  lemma CutsDoNotMatter(s: Recv, a: seq<Bytes>, b: seq<Bytes>)
    requires Concat(a) == Concat(b)
    ensures FeedChunks(s, a) == FeedChunks(s, b)
  {
    hide Feed, Concat, FeedChunks;
    ChunksAreBytes(s, a);
    ChunksAreBytes(s, b);
  }

  // --------------------------------------------------- reading several bytes at once

  lemma {:induction false} FeedHeader(ms: seq<Part>, h: Bytes, bytes: Bytes)
    requires bytes != [] && |h| + |bytes| <= HEADER_SIZE
    ensures Feed(Open(ms + [Part(h, [])]), bytes) ==
      var p := Part(h + bytes, []); if TooLarge(p) then Disconnected else Open(ms + [p])
    decreases |bytes|
  {
    hide SizeOf;
    var p := Part(h + [bytes[0]], []);
    var s := ms + [Part(h, [])];
    assert s[..|s| - 1] == ms;
    if |bytes| == 1 {
      assert bytes == [bytes[0]];
      NoBytes(FeedByte(Open(s), bytes[0]));
    } else {
      FeedHeader(ms, h + [bytes[0]], bytes[1..]);
      assert h + [bytes[0]] + bytes[1..] == h + bytes;
    }
  }

  lemma {:induction false} FeedData(ms: seq<Part>, h: Bytes, d: Bytes, bytes: Bytes)
    requires |h| == HEADER_SIZE && |d| + |bytes| <= SizeOf(h) <= MAX_PROTOCOL_MESSAGE_LENGTH
    ensures Feed(Open(ms + [Part(h, d)]), bytes) == Open(ms + [Part(h, d + bytes)])
    decreases |bytes|
  {
    hide SizeOf;
    var s := ms + [Part(h, d)];
    assert s[..|s| - 1] == ms;
    if bytes == [] {
      assert d + bytes == d;
    } else {
      FeedData(ms, h, d + [bytes[0]], bytes[1..]);
      assert d + [bytes[0]] + bytes[1..] == d + bytes;
    }
  }

  /** A message object made before its first byte arrives changes nothing. */
  lemma FeedFresh(ms: seq<Part>, bytes: Bytes)
    requires Fresh(ms) && bytes != []
    ensures Feed(Open(ms), bytes) == Feed(Open(ms + [Part([], [])]), bytes)
  {
    hide Feed, SizeOf;
    var s := ms + [Part([], [])];
    assert s[..|s| - 1] == ms;
    assert FeedPart(Part([], []), bytes[0]) == Part([bytes[0]], []);
    FeedUnfold(Open(ms), bytes);
    FeedUnfold(Open(s), bytes);
  }

  lemma FeedUnfold(s: Recv, bytes: Bytes)
    requires bytes != []
    ensures Feed(s, bytes) == Feed(FeedByte(s, bytes[0]), bytes[1..])
  {
  }

  lemma {:induction false} StaysDisconnected(bytes: Bytes)
    ensures Feed(Disconnected, bytes) == Disconnected
    decreases |bytes|
  {
    if bytes != [] { StaysDisconnected(bytes[1..]); }
  }

  // -------------------------------------------------------------- CNetMessage

  /** The buffers of a message; vRecv is allocated ahead of the data. */
  datatype NetMessage = NetMessage(
    inData: bool, hdrbuf: Bytes, nHdrPos: nat, nMessageSize: nat, vRecv: Bytes, nDataPos: nat)

  predicate Valid(m: NetMessage) {
    && |m.hdrbuf| == HEADER_SIZE && m.nHdrPos <= HEADER_SIZE
    && (m.inData <==> m.nHdrPos == HEADER_SIZE)
    && (m.inData ==> m.nMessageSize == SizeOf(m.hdrbuf) <= MAX_PROTOCOL_MESSAGE_LENGTH)
    && (!m.inData ==> m.nDataPos == 0 && m.vRecv == [])
    && (m.inData ==> m.nDataPos <= |m.vRecv| <= m.nMessageSize)
  }

  function Abs(m: NetMessage): Part
    requires Valid(m)
  {
    Part(m.hdrbuf[..m.nHdrPos], m.vRecv[..m.nDataPos])
  }

  predicate IsComplete(m: NetMessage) {
    m.inData && m.nMessageSize == m.nDataPos
  }

  /** A complete message holds its data and nothing else: no read-ahead is left over. */
  lemma CompleteHolds(m: NetMessage)
    requires Valid(m)
    ensures IsComplete(m) <==> Complete(Abs(m))
    ensures IsComplete(m) ==> m.vRecv == Abs(m).data && |m.vRecv| == SizeOf(m.hdrbuf)
  {
    assert m.nHdrPos == HEADER_SIZE ==> m.hdrbuf[..m.nHdrPos] == m.hdrbuf;
  }

  function NewMessage(): NetMessage {
    NetMessage(false, seq(HEADER_SIZE, _ => 0), 0, 0, [], 0)
  }

  /** `memcpy(&buf[pos], src, |src|)` */
  function Copied(buf: Bytes, pos: nat, src: Bytes): (r: Bytes)
    requires pos + |src| <= |buf|
    ensures |r| == |buf| && r[..pos + |src|] == buf[..pos] + src
  {
    buf[..pos] + src + buf[pos + |src|..]
  }

  /** The header with what the next read adds to it. */
  function HeaderAfter(m: NetMessage, bytes: Bytes): Part
    requires Valid(m)
  {
    Part(m.hdrbuf[..m.nHdrPos] + bytes[..Min(HEADER_SIZE - m.nHdrPos, |bytes|)], [])
  }

  /** Returns the number of bytes handled, or -1 for a header that is refused. */
  method ReadHeader(m: NetMessage, bytes: Bytes) returns (m': NetMessage, handled: int)
    requires Valid(m) && !m.inData && bytes != []
    ensures handled == -1 ==> TooLarge(HeaderAfter(m, bytes))
    ensures handled != -1 ==>
      && handled == Min(HEADER_SIZE - m.nHdrPos, |bytes|)
      && (m'.inData && m'.nMessageSize > MAX_PROTOCOL_MESSAGE_LENGTH <==> TooLarge(HeaderAfter(m, bytes)))
      && (!TooLarge(HeaderAfter(m, bytes)) ==> Valid(m') && Abs(m') == HeaderAfter(m, bytes))
  {
    var nCopy := Min(HEADER_SIZE - m.nHdrPos, |bytes|);
    m' := m.(hdrbuf := Copied(m.hdrbuf, m.nHdrPos, bytes[..nCopy]), nHdrPos := m.nHdrPos + nCopy);
    if m'.nHdrPos < HEADER_SIZE {
      return m', nCopy;
    }
    assert m'.hdrbuf[..HEADER_SIZE] == m'.hdrbuf;
    m' := m'.(nMessageSize := SizeOf(m'.hdrbuf));
    if m'.nMessageSize > MAX_SIZE {
      return m', -1;
    }
    m' := m'.(inData := true);
    handled := nCopy;
  }

  method ReadData(m: NetMessage, bytes: Bytes) returns (m': NetMessage, handled: nat)
    requires Valid(m) && m.inData && bytes != []
    ensures Valid(m') && m'.inData && handled == Min(m.nMessageSize - m.nDataPos, |bytes|)
    ensures Abs(m') == Abs(m).(data := Abs(m).data + bytes[..handled])
  {
    var nCopy := Min(m.nMessageSize - m.nDataPos, |bytes|);
    var vRecv := m.vRecv;
    if |vRecv| < m.nDataPos + nCopy {
      var size := Min(m.nMessageSize, m.nDataPos + nCopy + READ_AHEAD);
      vRecv := vRecv + seq(size - |vRecv|, _ => 0);
    }
    assert vRecv[..m.nDataPos] == m.vRecv[..m.nDataPos];
    m' := m.(vRecv := Copied(vRecv, m.nDataPos, bytes[..nCopy]), nDataPos := m.nDataPos + nCopy);
    handled := nCopy;
  }

  // ------------------------------------------------------------------ receiving

  function AbsAll(ms: seq<NetMessage>): (r: seq<Part>)
    requires forall i :: 0 <= i < |ms| ==> Valid(ms[i])
    ensures |r| == |ms| && forall i :: 0 <= i < |ms| ==> r[i] == Abs(ms[i])
  {
    seq(|ms|, i requires 0 <= i < |ms| => Abs(ms[i]))
  }

  /** The number of complete messages when only the last may be incomplete. */
  function DoneCount(ms: seq<Part>): int {
    if Fresh(ms) then |ms| else |ms| - 1
  }

  class Receiver {
    var vRecvMsg: seq<NetMessage>

    ghost predicate Ok()
      reads this
    {
      forall i :: 0 <= i < |vRecvMsg| ==> Valid(vRecvMsg[i])
    }

    ghost function State(): seq<Part>
      requires Ok()
      reads this
    {
      AbsAll(vRecvMsg)
    }

    constructor ()
      ensures Ok() && State() == []
    {
      vRecvMsg := [];
    }

    /** Whatever the chunk, the outcome is that of feeding its bytes one by one; false means disconnect. */
    method ReceiveMsgBytes(bytes: Bytes) returns (ok: bool, complete: bool)
      requires Ok()
      modifies this
      ensures ok ==> Ok() && Feed(Open(old(State())), bytes) == Open(State())
      ensures ok ==> (complete <==> DoneCount(State()) > DoneCount(old(State())))
      ensures !ok ==> Feed(Open(old(State())), bytes) == Disconnected
    {
      hide Feed, Valid, SizeOf;
      ghost var start, target := State(), Feed(Open(State()), bytes);
      complete := false;
      var rest := bytes;
      while rest != []
        invariant Ok() && Feed(Open(State()), rest) == target
        invariant DoneCount(State()) >= DoneCount(start) && (complete <==> DoneCount(State()) > DoneCount(start))
        decreases |rest|
      {
        var handled;
        ok, handled := Absorb(rest);
        if !ok {
          return;
        }
        if IsComplete(vRecvMsg[|vRecvMsg| - 1]) {
          complete := true;
        }
        rest := rest[handled..];
      }
      NoBytes(Open(State()));
      ok := true;
    }

    /** One round: as many bytes as the current message takes in its present phase. */
    method Absorb(rest: Bytes) returns (ok: bool, handled: nat)
      requires Ok() && rest != []
      modifies this
      ensures ok ==> 0 < handled <= |rest| && Ok() && vRecvMsg != []
      ensures ok ==> Feed(Open(old(State())), rest) == Feed(Open(State()), rest[handled..])
      ensures !ok ==> Feed(Open(old(State())), rest) == Disconnected
      ensures ok ==>
        DoneCount(State()) == DoneCount(old(State())) + (if IsComplete(vRecvMsg[|vRecvMsg| - 1]) then 1 else 0)
    {
      hide Feed, SizeOf, Valid, Abs, Complete, IsComplete;
      OpenMessage(rest);
      var n := |vRecvMsg| - 1;
      ghost var ms, p := State()[..n], State()[n];
      assert State() == ms + [p];
      var msg: NetMessage;
      ok, msg, handled := AbsorbInto(vRecvMsg[n], rest, ms);
      if !ok {
        return;
      }
      vRecvMsg := vRecvMsg[n := msg];
      assert State() == ms + [Abs(msg)];
      CompleteHolds(msg);
    }

    /** A new message is begun when the last one is complete; rest are the bytes to come. */
    method OpenMessage(ghost rest: Bytes)
      requires Ok() && rest != []
      modifies this
      ensures Ok() && vRecvMsg != [] && !IsComplete(vRecvMsg[|vRecvMsg| - 1])
      ensures Feed(Open(old(State())), rest) == Feed(Open(State()), rest)
      ensures DoneCount(old(State())) == |vRecvMsg| - 1
    {
      hide Feed, SizeOf, Valid, Abs, Complete, IsComplete;
      ghost var before := State();
      if |vRecvMsg| > 0 { CompleteHolds(vRecvMsg[|vRecvMsg| - 1]); }
      if vRecvMsg == [] || IsComplete(vRecvMsg[|vRecvMsg| - 1]) {
        NewIsEmpty();
        vRecvMsg := vRecvMsg + [NewMessage()];
        FeedFresh(before, rest);
        assert State() == before + [Part([], [])];
      }
    }
  }

  lemma NewIsEmpty()
    ensures Valid(NewMessage()) && Abs(NewMessage()) == Part([], []) && !IsComplete(NewMessage())
      && !Complete(Part([], []))
  {
  }

  /** The current message takes bytes for its header or for its data; ms are the messages before it. */
  method AbsorbInto(m: NetMessage, rest: Bytes, ghost ms: seq<Part>) returns (ok: bool, m': NetMessage, handled: nat)
    requires Valid(m) && !IsComplete(m) && rest != []
    ensures ok ==> Valid(m') && 0 < handled <= |rest|
    ensures ok ==> Feed(Open(ms + [Abs(m)]), rest) == Feed(Open(ms + [Abs(m')]), rest[handled..])
    ensures !ok ==> Feed(Open(ms + [Abs(m)]), rest) == Disconnected
  {
    hide Feed, SizeOf;
    ghost var s := Open(ms + [Abs(m)]);
    var h: int;
    if !m.inData {
      ghost var k := Min(HEADER_SIZE - m.nHdrPos, |rest|);
      FeedHeader(ms, Abs(m).hdr, rest[..k]);
      assert rest == rest[..k] + rest[k..];
      FeedAppend(s, rest[..k], rest[k..]);
      StaysDisconnected(rest[k..]);
      m', h := ReadHeader(m, rest);
      if h < 0 || (m'.inData && m'.nMessageSize > MAX_PROTOCOL_MESSAGE_LENGTH) {
        return false, m', 0;
      }
    } else {
      m', h := ReadData(m, rest);
      assert m.hdrbuf[..m.nHdrPos] == m.hdrbuf;
      FeedData(ms, Abs(m).hdr, Abs(m).data, rest[..h]);
      assert rest == rest[..h] + rest[h..];
      FeedAppend(s, rest[..h], rest[h..]);
    }
    ok, handled := true, h;
  }

  // ------------------------------------------------------------ whole messages

  /** A message as PushMessage frames it: the header announces the length of the data. */
  predicate Framed(p: Part) {
    Complete(p) && |p.data| <= MAX_PROTOCOL_MESSAGE_LENGTH
  }

  /** The network's start bytes and the hash of which messages carry the first four bytes. */
  datatype Network = Network(start: Bytes, hash: Bytes -> Bytes)

  predicate ValidNetwork(net: Network, command: Bytes, data: Bytes) {
    |net.start| == MESSAGE_START_SIZE && |command| <= COMMAND_SIZE && |net.hash(data)| >= CHECKSUM_SIZE
  }

  /** CMessageHeader as PushMessage fills it: the command padded with zeros, and the length in 32 bits. */
  function Header(net: Network, command: Bytes, data: Bytes): (hdr: Bytes)
    requires ValidNetwork(net, command, data)
    ensures |hdr| == HEADER_SIZE
  {
    net.start + (command + seq(COMMAND_SIZE - |command|, _ => 0)) + ToLe32(|data|) + net.hash(data)[..CHECKSUM_SIZE]
  }

  /** strnlen: up to the first zero. */
  function UpToZero(s: Bytes): (r: Bytes)
    ensures r <= s && 0 !in r && (|r| < |s| ==> s[|r|] == 0)
  {
    if s == [] || s[0] == 0 then [] else [s[0]] + UpToZero(s[1..])
  }

  function GetCommand(hdr: Bytes): Bytes
    requires |hdr| == HEADER_SIZE
  {
    UpToZero(hdr[MESSAGE_START_SIZE..MESSAGE_START_SIZE + COMMAND_SIZE])
  }

  /** What is read from a header is what went into it: start bytes, command, length (in 32 bits) and checksum. */
  lemma HeaderReads(net: Network, command: Bytes, data: Bytes)
    requires ValidNetwork(net, command, data) && 0 !in command
    ensures var hdr := Header(net, command, data);
      && hdr[..4] == net.start && GetCommand(hdr) == command && hdr[20..] == net.hash(data)[..4]
      && SizeOf(hdr) == |data| % 0x1_0000_0000
      && (Framed(Part(hdr, data)) <==> |data| <= MAX_PROTOCOL_MESSAGE_LENGTH)
  {
    hide Le32, ToLe32;
    var hdr := Header(net, command, data);
    assert hdr[16..20] == ToLe32(|data|);
    Le32Inverse(hdr, 16, |data|);
    var padded := command + seq(COMMAND_SIZE - |command|, _ => 0);
    assert hdr[4..16] == padded;
    CommandEnds(command, COMMAND_SIZE - |command|);
  }

  lemma {:induction false} CommandEnds(command: Bytes, n: nat)
    requires 0 !in command
    ensures UpToZero(command + seq(n, _ => 0)) == command
  {
    var s := command + seq(n, _ => 0);
    if command != [] {
      assert s[0] == command[0] && s[1..] == command[1..] + seq(n, _ => 0);
      CommandEnds(command[1..], n);
    }
  }

  function Frame(p: Part): Bytes {
    p.hdr + p.data
  }

  function Frames(ps: seq<Part>): Bytes {
    if ps == [] then [] else Frame(ps[0]) + Frames(ps[1..])
  }

  /** Framed messages are received as sent. */
  lemma {:induction false} FramesParse(ms: seq<Part>, ps: seq<Part>)
    requires Fresh(ms) && forall i :: 0 <= i < |ps| ==> Framed(ps[i])
    ensures Feed(Open(ms), Frames(ps)) == Open(ms + ps)
    decreases |ps|
  {
    hide Feed;
    if ps == [] {
      NoBytes(Open(ms));
      assert ms + ps == ms;
    } else {
      var p, rest := ps[0], Frames(ps[1..]);
      FeedAppend(Open(ms), Frame(p), rest);
      OneFrame(ms, p.hdr, p.data, p.data);
      FramesParse(ms + [p], ps[1..]);
      assert ms + [p] + ps[1..] == ms + ps;
    }
  }

  /** A header and the beginning of its data. */
  lemma OneFrame(ms: seq<Part>, hdr: Bytes, data: Bytes, begin: Bytes)
    requires Fresh(ms) && Framed(Part(hdr, data)) && |begin| <= |data|
    ensures Feed(Open(ms), hdr + begin) == Open(ms + [Part(hdr, begin)])
  {
    hide Feed, SizeOf;
    FeedAppend(Open(ms), hdr, begin);
    FeedFresh(ms, hdr);
    FeedHeader(ms, [], hdr);
    assert [] + hdr == hdr && [] + begin == begin;
    FeedData(ms, hdr, [], begin);
  }

  /** q is what has arrived of p, and not all of it. */
  predicate Begins(q: Part, p: Part) {
    q.hdr <= p.hdr && q.data <= p.data && (q.hdr != p.hdr ==> q.data == []) && q != p
  }

  /** Part of a frame, but not all of it. */
  lemma PartOfFrame(ms: seq<Part>, p: Part, bytes: Bytes) returns (q: Part)
    requires Fresh(ms) && Framed(p) && bytes != [] && bytes < Frame(p)
    ensures Feed(Open(ms), bytes) == Open(ms + [q]) && bytes == Frame(q) && Begins(q, p)
  {
    hide Feed, SizeOf;
    var n := |bytes|;
    if n < HEADER_SIZE {
      q := Part(bytes, []);
      assert bytes == p.hdr[..n];
      FeedFresh(ms, bytes);
      FeedHeader(ms, [], bytes);
      assert [] + bytes == bytes;
    } else {
      q := Part(p.hdr, bytes[HEADER_SIZE..]);
      assert bytes == p.hdr + q.data;
      assert q.data == p.data[..|q.data|];
      OneFrame(ms, p.hdr, p.data, q.data);
    }
  }

  /**
    Whatever part of a stream of frames has arrived: the messages sent in full are held, in order,
    and nothing after them but the part of the next one that has arrived.
   */
  lemma {:induction false} PrefixParse(ms: seq<Part>, ps: seq<Part>, bytes: Bytes) returns (k: nat, tail: seq<Part>)
    requires Fresh(ms) && (forall i :: 0 <= i < |ps| ==> Framed(ps[i])) && bytes <= Frames(ps)
    ensures k <= |ps| && Feed(Open(ms), bytes) == Open(ms + ps[..k] + tail)
    ensures tail == [] || (|tail| == 1 && k < |ps| && Begins(tail[0], ps[k]))
    ensures bytes == Frames(ps[..k]) + Frames(tail)
    decreases |ps|
  {
    hide Feed, Begins, Frame, Framed, Frames;
    k, tail := 0, [];
    FramesUnfold(ps);
    FramesUnfold([]);
    if bytes == [] {
      NoBytes(Open(ms));
      assert ms + ps[..0] + [] == ms && ps[..0] == [];
    } else {
      var p, rest := ps[0], Frames(ps[1..]);
      if |bytes| < |Frame(p)| {
        assert bytes == Frame(p)[..|bytes|];
        var q := PartOfFrame(ms, p, bytes);
        tail := [q];
        assert ms + ps[..0] + tail == ms + [q] && ps[..0] == [];
        FramesOne(q);
      } else {
        var more := Arrived(ms, p, bytes, rest);
        k, tail := PrefixParse(ms + [p], ps[1..], more);
        assert [p] + ps[1..][..k] == ps[..k + 1];
        assert ms + [p] + ps[1..][..k] + tail == ms + ([p] + ps[1..][..k]) + tail;
        FramesFirst(ps, k);
        k := k + 1;
      }
    }
  }

  /** A frame has arrived in full, with more behind it. */
  lemma Arrived(ms: seq<Part>, p: Part, bytes: Bytes, rest: Bytes) returns (more: Bytes)
    requires Fresh(ms) && Framed(p) && |bytes| >= |Frame(p)| && bytes <= Frame(p) + rest
    ensures bytes == Frame(p) + more && more <= rest && Fresh(ms + [p])
    ensures Feed(Open(ms), bytes) == Feed(Open(ms + [p]), more)
  {
    hide Feed;
    var n := |Frame(p)|;
    more := bytes[n..];
    assert bytes[..n] == (Frame(p) + rest)[..n] == Frame(p);
    assert more == (Frame(p) + rest)[n..|bytes|] == rest[..|more|];
    OneFrame(ms, p.hdr, p.data, p.data);
    FeedAppend(Open(ms), Frame(p), more);
  }

  lemma FramesUnfold(ps: seq<Part>)
    ensures Frames(ps) == if ps == [] then [] else Frame(ps[0]) + Frames(ps[1..])
  {
  }

  lemma FramesOne(q: Part)
    ensures Frames([q]) == Frame(q)
  {
    assert [q][1..] == [];
  }

  lemma FramesFirst(ps: seq<Part>, k: nat)
    requires k < |ps|
    ensures Frames(ps[..k + 1]) == Frame(ps[0]) + Frames(ps[1..][..k])
  {
    assert ps[..k + 1][1..] == ps[1..][..k];
  }

  lemma PushedFrames(before: Bytes, header: Bytes, data: Bytes)
    ensures forall ps :: before == Frames(ps) ==> before + header + data == Frames(ps + [Part(header, data)])
  {
    hide Frames;
    forall ps | before == Frames(ps) ensures before + header + data == Frames(ps + [Part(header, data)]) {
      FramesAppend(ps, Part(header, data));
    }
  }

  lemma {:induction false} FramesAppend(ps: seq<Part>, p: Part)
    ensures Frames(ps + [p]) == Frames(ps) + Frame(p)
    decreases |ps|
  {
    hide Frame;
    if ps == [] {
      assert ps + [p] == [p];
      FramesOne(p);
    } else {
      FramesAppend(ps[1..], p);
      assert (ps + [p])[1..] == ps[1..] + [p];
    }
  }

  // -------------------------------------------------------------------- sending

  function TotalSize(queue: seq<Bytes>): nat {
    if queue == [] then 0 else |queue[0]| + TotalSize(queue[1..])
  }

  lemma {:induction false} TotalAppend(queue: seq<Bytes>, b: Bytes)
    ensures TotalSize(queue + [b]) == TotalSize(queue) + |b| && Concat(queue + [b]) == Concat(queue) + b
    decreases |queue|
  {
    if queue == [] {
      assert queue + [b] == [b];
    } else {
      TotalAppend(queue[1..], b);
      assert (queue + [b])[1..] == queue[1..] + [b];
    }
  }

  class Sender {
    var vSendMsg: seq<Bytes>
    var nSendOffset: nat
    var nSendSize: int

    /** All bytes ever queued, and those the socket has taken. */
    ghost var queued: Bytes
    ghost var sent: Bytes

    /** What is still to go out, from buffer it on. */
    static ghost predicate Consistent(queue: seq<Bytes>, offset: nat, size: int, queued: Bytes, sent: Bytes) {
      && (forall i :: 0 <= i < |queue| ==> queue[i] != [])
      && offset <= |Concat(queue)| && (if queue == [] then offset == 0 else offset < |queue[0]|)
      && size == TotalSize(queue)
      && queued == sent + Concat(queue)[offset..]
    }

    ghost predicate Valid()
      reads this
    {
      Consistent(vSendMsg, nSendOffset, nSendSize, queued, sent)
    }

    constructor ()
      ensures Valid() && queued == [] && sent == []
    {
      vSendMsg, nSendOffset, nSendSize := [], 0, 0;
      queued, sent := [], [];
    }

    /** accept(k, n) is what the k-th send of n bytes returns: a count up to n, or an error. */
    method SocketSendData(open: bool, accept: (nat, nat) -> int) returns (nSentSize: nat)
      requires Valid() && forall k, n :: accept(k, n) <= n
      modifies this
      ensures Valid() && queued == old(queued)
      ensures old(sent) <= sent && |sent| == |old(sent)| + nSentSize
      ensures vSendMsg == [] ==> nSendOffset == 0 && nSendSize == 0 && sent == queued
      ensures open && (forall k, n: nat :: accept(k, n) == n) ==> vSendMsg == []
    {
      hide Concat, TotalSize, Consistent;
      nSentSize := 0;
      var it := 0;
      var calls := 0;
      assert vSendMsg[0..] == vSendMsg;
      while it != |vSendMsg|
        invariant 0 <= it <= |vSendMsg| && vSendMsg == old(vSendMsg) && queued == old(queued)
        invariant Consistent(vSendMsg[it..], nSendOffset, nSendSize, queued, sent)
        invariant old(sent) <= sent && |sent| == |old(sent)| + nSentSize
        decreases |vSendMsg| - it
      {
        var data := vSendMsg[it];
        assert vSendMsg[it..][0] == data && vSendMsg[it..][1..] == vSendMsg[it + 1..];
        OffsetInside(vSendMsg[it..], nSendOffset, nSendSize, queued, sent);
        assert |data| > nSendOffset;
        if !open {
          break;
        }
        var nBytes := accept(calls, |data| - nSendOffset);
        calls := calls + 1;
        if nBytes <= 0 {
          break;
        }
        SentStep(vSendMsg[it..], nSendOffset, nSendSize, queued, sent, nBytes);
        sent := sent + data[nSendOffset..nSendOffset + nBytes];
        nSendOffset := nSendOffset + nBytes;
        nSentSize := nSentSize + nBytes;
        if nSendOffset == |data| {
          nSendOffset := 0;
          nSendSize := nSendSize - |data|;
          it := it + 1;
        } else {
          break;
        }
      }
      AllSent(nSendOffset, nSendSize, queued, sent);
      if it == |vSendMsg| {
        assert vSendMsg[it..] == [];
        assert nSendOffset == 0;
        assert nSendSize == 0;
      }
      vSendMsg := vSendMsg[it..];
    }

    /** Header and data are queued as two buffers; an empty one is not queued. */
    method PushMessage(net: Network, command: Bytes, data: Bytes, open: bool, accept: (nat, nat) -> int)
      requires Valid() && ValidNetwork(net, command, data) && forall k, n :: accept(k, n) <= n
      modifies this
      ensures Valid() && queued == old(queued) + Header(net, command, data) + data && old(sent) <= sent
      ensures forall ps :: old(queued) == Frames(ps) ==>
        queued == Frames(ps + [Part(Header(net, command, data), data)])
      ensures old(vSendMsg) != [] ==> sent == old(sent)
      ensures old(vSendMsg) == [] && open && (forall k, n: nat :: accept(k, n) == n) ==> sent == queued
    {
      hide Frames, Consistent;
      var header := Header(net, command, data);
      var optimisticSend := vSendMsg == [];
      PushConsistent(vSendMsg, nSendOffset, nSendSize, queued, sent, header, data);
      nSendSize := nSendSize + |data| + HEADER_SIZE;
      vSendMsg := vSendMsg + [header];
      if |data| > 0 {
        vSendMsg := vSendMsg + [data];
      }
      queued := queued + header + data;
      if optimisticSend {
        var _ := SocketSendData(open, accept);
      }
      PushedFrames(old(queued), header, data);
    }

    /**
      From one end to the other: the bytes that the socket took, read in any pieces, are the messages
      that were sent in full and the part of the next one that has left.
     */
    lemma Delivered(ps: seq<Part>, chunks: seq<Bytes>) returns (k: nat, tail: seq<Part>)
      requires Valid() && queued == Frames(ps) && (forall i :: 0 <= i < |ps| ==> Framed(ps[i]))
        && Concat(chunks) == sent
      ensures k <= |ps| && FeedChunks(Open([]), chunks) == Open(ps[..k] + tail)
      ensures tail == [] || (|tail| == 1 && k < |ps| && Begins(tail[0], ps[k]))
      ensures sent == Frames(ps[..k]) + Frames(tail)
      ensures vSendMsg == [] ==> k == |ps| && tail == []
    {
      hide Feed, FeedChunks, Begins;
      ChunksAreBytes(Open([]), chunks);
      k, tail := PrefixParse([], ps, sent);
      assert [] + ps[..k] + tail == ps[..k] + tail;
      if vSendMsg == [] { AllArrived(ps, k, tail); }
    }
  }

  /** Nothing is missing when all bytes are there. */
  lemma AllArrived(ps: seq<Part>, k: nat, tail: seq<Part>)
    requires k <= |ps| && (forall i :: 0 <= i < |ps| ==> Framed(ps[i])) && Frames(ps) == Frames(ps[..k]) + Frames(tail)
    requires tail == [] || (|tail| == 1 && k < |ps| && Begins(tail[0], ps[k]))
    ensures k == |ps| && tail == []
  {
    hide Framed, Frames, Frame, Begins;
    FramesSplit(ps, k);
    FramesUnfold([]);
    if k < |ps| { FrameNotEmpty(ps[k]); }
    if tail != [] {
      assert tail == [tail[0]];
      FramesOne(tail[0]);
      BeginsShorter(tail[0], ps[k]);
    }
  }

  lemma FrameNotEmpty(p: Part)
    requires Framed(p)
    ensures |Frame(p)| > 0
  {
  }

  lemma BeginsShorter(q: Part, p: Part)
    requires Begins(q, p)
    ensures |Frame(q)| < |Frame(p)|
  {
  }

  lemma {:induction false} FramesSplit(ps: seq<Part>, k: nat)
    requires k <= |ps|
    ensures |Frames(ps)| == |Frames(ps[..k])| + |Frames(ps[k..])|
    ensures k < |ps| ==> |Frames(ps[k..])| >= |Frame(ps[k])|
    decreases k
  {
    if k == 0 {
      assert ps[0..] == ps && ps[..0] == [];
    } else {
      FramesSplit(ps[1..], k - 1);
      FramesFirst(ps, k - 1);
      assert ps[1..][k - 1..] == ps[k..];
    }
  }

  /** Header and data at the end of the queue. */
  lemma PushConsistent(queue: seq<Bytes>, offset: nat, size: int, queued: Bytes, sent: Bytes, header: Bytes,
    data: Bytes)
    requires Sender.Consistent(queue, offset, size, queued, sent) && |header| == HEADER_SIZE
    ensures Sender.Consistent(if data == [] then queue + [header] else queue + [header] + [data], offset,
                              size + |data| + HEADER_SIZE, queued + header + data, sent)
  {
    hide Concat, TotalSize;
    PushOne(queue, offset, size, queued, sent, header);
    if data == [] {
      assert queued + header + data == queued + header;
    } else {
      PushOne(queue + [header], offset, size + HEADER_SIZE, queued + header, sent, data);
    }
  }

  lemma PushOne(queue: seq<Bytes>, offset: nat, size: int, queued: Bytes, sent: Bytes, b: Bytes)
    requires Sender.Consistent(queue, offset, size, queued, sent) && b != []
    ensures Sender.Consistent(queue + [b], offset, size + |b|, queued + b, sent)
  {
    hide TotalSize;
    TotalAppend(queue, b);
    assert (Concat(queue) + b)[offset..] == Concat(queue)[offset..] + b;
  }

  lemma OffsetInside(queue: seq<Bytes>, offset: nat, size: int, queued: Bytes, sent: Bytes)
    requires Sender.Consistent(queue, offset, size, queued, sent) && queue != []
    ensures offset < |queue[0]|
  {
  }

  /** Sending n more bytes of the first buffer. */
  lemma SentStep(queue: seq<Bytes>, offset: nat, size: int, queued: Bytes, sent: Bytes, n: nat)
    requires Sender.Consistent(queue, offset, size, queued, sent) && queue != [] && 0 < n && offset + n <= |queue[0]|
    ensures var sent' := sent + queue[0][offset..offset + n];
      if offset + n == |queue[0]| then Sender.Consistent(queue[1..], 0, size - |queue[0]|, queued, sent')
      else Sender.Consistent(queue, offset + n, size, queued, sent')
  {
    var c := Concat(queue);
    assert c[offset..] == queue[0][offset..offset + n] + c[offset + n..];
    if offset + n == |queue[0]| { assert c[offset + n..] == Concat(queue[1..]) == Concat(queue[1..])[0..]; }
  }

  lemma AllSent(offset: nat, size: int, queued: Bytes, sent: Bytes)
    ensures Sender.Consistent([], offset, size, queued, sent) ==> offset == 0 && size == 0 && sent == queued
  {
  }
}
