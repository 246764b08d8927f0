/**
 * MySQL packets: splitting a payload into frames of at most 2^24-1 bytes, with each new header written
 * over bytes already sent, and putting the payload together again on the reading side.
 */
module Packets {
  import opened Common
  import opened ReadBuffer
  import LE = LittleEndian

  const MAX := MAX_PACKET_SIZE

  function Succ(s: byte): byte {
    (s + 1) % 256
  }

  /** The sequence number after k more packets. */
  function SeqAfter(s: byte, k: nat): byte {
    (s + k) % 256
  }

  /** Three bytes of length and the sequence number. */
  function Header(len: nat, s: byte): (h: seq<byte>)
    ensures |h| == 4 && h[3] == s
  {
    LE.Encode(len, 3) + [s]
  }

  /** The header on the wire, as section "MySQL Packets" of the protocol documentation has it. */
  lemma HeaderBytes(len: nat, s: byte)
    requires len < 0x100_0000
    ensures Header(len, s) == [len % 256, len / 256 % 256, len / 65536, s]
  {
    LE.ThreeBytes(len, 0, 0, 0);
  }

  function FirstFrame(p: seq<byte>, s: byte): seq<byte> {
    Header(Min(|p|, MAX), s) + p[..Min(|p|, MAX)]
  }

  /** The frames of a payload: full frames as long as possible, then one short frame, perhaps empty. */
  function Frames(p: seq<byte>, s: byte): seq<byte>
    decreases |p|
  {
    FirstFrame(p, s) + if |p| >= MAX then Frames(p[MAX..], Succ(s)) else []
  }

  /** What is still to be sent after the first frame. */
  function Remaining(p: seq<byte>, s: byte): seq<byte> {
    if |p| >= MAX then Frames(p[MAX..], Succ(s)) else []
  }

  function FrameCount(n: nat): nat {
    if n >= MAX then 1 + FrameCount(n - MAX) else 1
  }

  /** The sequence number after sending a payload of n bytes. */
  function NextSeq(n: nat, s: byte): byte {
    if n >= MAX then NextSeq(n - MAX, Succ(s)) else Succ(s)
  }

  lemma SeqAfterSucc(s: byte, k: nat)
    ensures SeqAfter(Succ(s), k) == SeqAfter(s, 1 + k) && SeqAfter(s, 1) == Succ(s)
  {
  }

  lemma {:induction false} NextSeqCounts(n: nat, s: byte)
    ensures NextSeq(n, s) == SeqAfter(s, FrameCount(n))
  {
    if n >= MAX {
      NextSeqCounts(n - MAX, Succ(s));
      SeqAfterSucc(s, FrameCount(n - MAX));
    } else {
      SeqAfterSucc(s, 0);
    }
  }

  datatype Framed =
    | Frame(body: seq<byte>, rest: seq<byte>)
    | BadLength
    | Behind
    | Ahead
    | Short

  /** One frame off the front of a byte stream, checked against the expected sequence number. */
  function OneFrame(w: seq<byte>, s: byte): (f: Framed)
    ensures f.Frame? ==> |f.rest| < |w|
  {
    if |w| < 4 then Short
    else
      var n := LE.Decode(w[..3]);
      if n < 1 then BadLength
      else if w[3] != s then if w[3] > s then Ahead else Behind
      else if |w| < 4 + n then Short
      else Frame(w[4..4 + n], w[4 + n..])
  }

  /** What a header alone decides: a refusal, or nothing yet. */
  function Judged(n: nat, seqNo: byte, s: byte): Option<Framed> {
    if n < 1 then Some(BadLength)
    else if seqNo != s then Some(if seqNo > s then Ahead else Behind)
    else None
  }

  /** A body of n bytes at t. */
  function BodyAt(d: seq<byte>, t: nat, n: nat): Framed {
    if |d| < t + n then Short else Frame(d[t..t + n], d[t + n..])
  }

  lemma OneFrameAt(d: seq<byte>, t: nat, s: byte)
    requires t + 4 <= |d|
    ensures var n := LE.Decode(d[t..t + 3]);
            var judged := Judged(n, d[t + 3], s);
            OneFrame(d[t..], s) == if judged.Some? then judged.value else BodyAt(d, t + 4, n)
  {
    var w, n := d[t..], LE.Decode(d[t..t + 3]);
    assert w[..3] == d[t..t + 3];
    if |d| >= t + 4 + n {
      assert w[4..4 + n] == d[t + 4..t + 4 + n] && w[4 + n..] == d[t + 4 + n..];
    }
  }

  /** The reader did not come to the end of the frame. */
  ghost predicate Starved(one: Framed, d: seq<byte>, pos: nat) {
    one.Frame? ==> pos + |one.rest| < |d|
  }

  lemma FrameHasHeader(d: seq<byte>, t: nat, s: byte, pos: nat)
    requires t <= |d| && pos < t + 4
    ensures Starved(OneFrame(d[t..], s), d, pos)
  {
  }

  datatype Parsed =
    | Packet(payload: seq<byte>, rest: seq<byte>, next: byte)
    | Refused(why: Framed)

  /** Reads frames up to the first short one, `acc` being the payload so far. */
  function ReadFrames(w: seq<byte>, s: byte, acc: seq<byte>): Parsed
    decreases |w|
  {
    match OneFrame(w, s)
    case Frame(body, rest) =>
      if |body| < MAX then Packet(acc + body, rest, Succ(s)) else ReadFrames(rest, Succ(s), acc + body)
    case why => Refused(why)
  }

  /** The reader did not come to the end of the packet. */
  ghost predicate NotDelivered(parsed: Parsed, d: seq<byte>, pos: nat) {
    parsed.Packet? ==> pos + |parsed.rest| < |d|
  }

  lemma {:induction false} RestShrinks(w: seq<byte>, s: byte, acc: seq<byte>)
    ensures var parsed := ReadFrames(w, s, acc);
            parsed.Packet? ==> OneFrame(w, s).Frame? && |parsed.rest| <= |OneFrame(w, s).rest|
    decreases |w|
  {
    match OneFrame(w, s)
    case Frame(body, rest) =>
      if |body| >= MAX {
        RestShrinks(rest, Succ(s), acc + body);
      }
    case _ =>
  }

  lemma ThreeParts<T>(h: seq<T>, a: seq<T>, t: seq<T>)
    ensures var w := h + a + t;
            w[..|h|] == h && w[|h|..|h| + |a|] == a && w[|h| + |a|..] == t
  {
  }

  lemma FirstFrameReads(p: seq<byte>, s: byte, tail: seq<byte>)
    ensures OneFrame(FirstFrame(p, s) + tail, s) == if p == [] then BadLength else Frame(p[..Min(|p|, MAX)], tail)
  {
    var n := Min(|p|, MAX);
    var h, w := Header(n, s), FirstFrame(p, s) + tail;
    ThreeParts(h, p[..n], tail);
    LE.Powers();
    LE.DecodeEncode(n, 3);
    assert w[..3] == h[..3] == LE.Encode(n, 3);
    assert w[3] == h[3];
  }

  /** The length leaves a short, non-empty last frame. */
  predicate Ragged(n: nat) {
    if n >= MAX then Ragged(n - MAX) else n > 0
  }

  lemma {:induction false} RaggedIff(n: nat)
    ensures Ragged(n) <==> n % MAX != 0
  {
    if n >= MAX {
      RaggedIff(n - MAX);
    }
  }

  lemma FramesSplit(p: seq<byte>, s: byte, rest: seq<byte>)
    ensures |p| >= MAX ==> Frames(p, s) + rest == FirstFrame(p, s) + (Frames(p[MAX..], Succ(s)) + rest)
    ensures |p| < MAX ==> Frames(p, s) + rest == FirstFrame(p, s) + rest
  {
    var first := FirstFrame(p, s);
    if |p| >= MAX {
      var more := Frames(p[MAX..], Succ(s));
      assert first + more + rest == first + (more + rest);
    } else {
      assert first + [] == first;
    }
  }

  lemma ReadFramesStep(w: seq<byte>, s: byte, acc: seq<byte>, body: seq<byte>, rest: seq<byte>)
    requires OneFrame(w, s) == Frame(body, rest)
    ensures ReadFrames(w, s, acc) ==
            if |body| < MAX then Packet(acc + body, rest, Succ(s)) else ReadFrames(rest, Succ(s), acc + body)
  {
  }

  lemma TakeDrop<T>(acc: seq<T>, p: seq<T>, k: nat)
    requires k <= |p|
    ensures acc + p[..k] + p[k..] == acc + p
  {
  }

  /** The last frame completes the payload, unless it is empty. */
  lemma LastFrame(p: seq<byte>, s: byte, rest: seq<byte>, acc: seq<byte>)
    requires |p| < MAX
    ensures ReadFrames(Frames(p, s) + rest, s, acc) ==
            if p == [] then Refused(BadLength) else Packet(acc + p, rest, Succ(s))
  {
    FramesSplit(p, s, rest);
    FirstFrameReads(p, s, rest);
    var w := Frames(p, s) + rest;
    if p != [] {
      assert p[..|p|] == p;
      ReadFramesStep(w, s, acc, p, rest);
    }
  }

  /** A full frame adds its bytes and goes on. */
  lemma FullFrame(p: seq<byte>, s: byte, rest: seq<byte>, acc: seq<byte>)
    requires |p| >= MAX
    ensures ReadFrames(Frames(p, s) + rest, s, acc) ==
            ReadFrames(Frames(p[MAX..], Succ(s)) + rest, Succ(s), acc + p[..MAX])
  {
    FramesSplit(p, s, rest);
    var more := Frames(p[MAX..], Succ(s)) + rest;
    FirstFrameReads(p, s, more);
    ReadFramesStep(Frames(p, s) + rest, s, acc, p[..MAX], more);
  }

  lemma {:induction false} FramesReadBack(p: seq<byte>, s: byte, rest: seq<byte>, acc: seq<byte>)
    ensures ReadFrames(Frames(p, s) + rest, s, acc) ==
            if Ragged(|p|) then Packet(acc + p, rest, NextSeq(|p|, s)) else Refused(BadLength)
    decreases |p|
  {
    if |p| >= MAX {
      FullFrame(p, s, rest, acc);
      FramesReadBack(p[MAX..], Succ(s), rest, acc + p[..MAX]);
      TakeDrop(acc, p, MAX);
    } else {
      LastFrame(p, s, rest, acc);
    }
  }

  /** The length is one that reading refuses. */
  predicate Unreadable(n: nat) {
    n % 0xff_ffff == 0
  }

  lemma FramesRead(p: seq<byte>, s: byte, rest: seq<byte>)
    ensures ReadFrames(Frames(p, s) + rest, s, []) ==
            if Unreadable(|p|) then Refused(BadLength) else Packet(p, rest, SeqAfter(s, FrameCount(|p|)))
  {
    FramesReadBack(p, s, rest, []);
    RaggedIff(|p|);
    NextSeqCounts(|p|, s);
    assert [] + p == p;
  }

  /**
   * Whatever follows it on the stream, a split payload is read back exactly, with the sequence numbers
   * still in step, if and only if its length is no multiple of 2^24-1; otherwise its empty last frame
   * is refused as malformed.
   */
  lemma FramesReadBackIff(p: seq<byte>, s: byte, rest: seq<byte>)
    ensures ReadFrames(Frames(p, s) + rest, s, []) ==
            if |p| % 0xff_ffff != 0 then Packet(p, rest, (s + FrameCount(|p|)) % 256) else Refused(BadLength)
  {
    FramesRead(p, s, rest);
  }

  /** A frame that is accepted is a header, whose number is the expected one, and as many bytes as it says. */
  lemma FrameIsWritten(w: seq<byte>, s: byte)
    requires OneFrame(w, s).Frame?
    ensures var f := OneFrame(w, s);
            && 1 <= |f.body| <= MAX
            && w == Header(|f.body|, s) + f.body + f.rest
  {
    LE.EncodeDecode(w[..3]);
    assert w[..3] == [w[0], w[1], w[2]];
    LE.ThreeBytes(0, w[0], w[1], w[2]);
    assert w[..4] == w[..3] + [s];
  }

  /** Whatever is accepted is the frames of what is handed out. */
  lemma {:induction false} AcceptedIsWritten(w: seq<byte>, s: byte, acc: seq<byte>) returns (p: seq<byte>)
    requires ReadFrames(w, s, acc).Packet?
    ensures var parsed := ReadFrames(w, s, acc);
            parsed.payload == acc + p && w == Frames(p, s) + parsed.rest
    decreases |w|
  {
    var f, parsed := OneFrame(w, s), ReadFrames(w, s, acc);
    FrameIsWritten(w, s);
    if |f.body| < MAX {
      p := f.body;
      assert p[..|p|] == p;
    } else {
      var more := AcceptedIsWritten(f.rest, Succ(s), acc + f.body);
      p := f.body + more;
      assert p[..MAX] == f.body && p[MAX..] == more;
      TakeDrop(acc, p, MAX);
      assert w == FirstFrame(p, s) + (Frames(more, Succ(s)) + parsed.rest);
    }
    FramesSplit(p, s, parsed.rest);
  }

  /**
   * On every stream: a payload is handed out, with what follows it, if and only if the stream begins with
   * the frames of that payload under the expected number, and the last frame is not empty.
   */
  lemma AcceptedIff(w: seq<byte>, s: byte, p: seq<byte>, rest: seq<byte>)
    ensures (exists t :: ReadFrames(w, s, []) == Packet(p, rest, t)) <==>
            (w == Frames(p, s) + rest && |p| % 0xff_ffff != 0)
  {
    FramesReadBackIff(p, s, rest);
    if ReadFrames(w, s, []).Packet? {
      var p' := AcceptedIsWritten(w, s, []);
      assert [] + p' == p';
    }
  }

  /** Frames that begin with another number than the expected one are refused, and it is told on which side it lies. */
  lemma WrongNumberRefused(p: seq<byte>, s: byte, expected: byte, rest: seq<byte>)
    requires p != [] && s != expected
    ensures ReadFrames(Frames(p, s) + rest, expected, []) == Refused(if s > expected then Ahead else Behind)
  {
    var w, tail := Frames(p, s) + rest, Remaining(p, s) + rest;
    FramesSplit(p, s, rest);
    assert [] + rest == rest;
    assert w == FirstFrame(p, s) + tail;
    FirstFrameReads(p, s, tail);
    assert OneFrame(w, s).Frame?;
  }

  // ---------------------------------------------------------------------------------------
  // Long data

  const LONG_DATA_OFFSET := 7
  const COM_STMT_SEND_LONG_DATA: byte := 0x18

  function LongHeader(stmt: nat, param: nat): (h: seq<byte>)
    ensures |h| == LONG_DATA_OFFSET
  {
    [COM_STMT_SEND_LONG_DATA] + LE.Encode(stmt, 4) + LE.Encode(param, 2)
  }

  /** An argument cut into pieces of k bytes and a last, shorter one. */
  function Cut(arg: seq<byte>, k: nat): seq<seq<byte>>
    requires k > 0
    decreases |arg|
  {
    if arg == [] then [] else if |arg| <= k then [arg] else [arg[..k]] + Cut(arg[k..], k)
  }

  /** One packet per piece, each with the same statement and parameter id and its own sequence from 0. */
  function LongWire(pieces: seq<seq<byte>>, stmt: nat, param: nat): seq<byte> {
    if pieces == [] then [] else Frames(LongHeader(stmt, param) + pieces[0], 0) + LongWire(pieces[1..], stmt, param)
  }

  lemma {:induction false} CutConcat(arg: seq<byte>, k: nat)
    requires k > 0
    ensures Concat(Cut(arg, k)) == arg
    ensures forall i :: 0 <= i < |Cut(arg, k)| ==> 0 < |Cut(arg, k)[i]| <= k
    decreases |arg|
  {
    if 0 < |arg| <= k {
      assert [arg][1..] == [];
    } else if |arg| > k {
      CutConcat(arg[k..], k);
      assert Cut(arg, k)[1..] == Cut(arg[k..], k);
      assert arg == arg[..k] + arg[k..];
    }
  }

  /** How much of the argument one turn of the loop sends. */
  function ChunkSize(maxPacketAllowed: int, argLen: nat): int {
    var maxLen := maxPacketAllowed - 1;
    (if LONG_DATA_OFFSET + argLen < maxLen then LONG_DATA_OFFSET + argLen else maxLen) - LONG_DATA_OFFSET
  }

  /** Every turn of the loop sends something exactly when packets may be longer than 8 bytes. */
  lemma LongDataProgressIff(maxPacketAllowed: int)
    ensures (forall argLen: nat :: argLen > 0 ==> ChunkSize(maxPacketAllowed, argLen) > 0) <==> maxPacketAllowed > 8
  {
    if maxPacketAllowed <= 8 {
      assert ChunkSize(maxPacketAllowed, 1) <= 0;
    }
  }

  lemma LongWireStep(rest: seq<byte>, n: nat, k: nat, stmt: nat, param: nat)
    requires k > 0 && rest != [] && n == Min(|rest|, k)
    ensures LongWire(Cut(rest, k), stmt, param) ==
            Frames(LongHeader(stmt, param) + rest[..n], 0) + LongWire(Cut(rest[n..], k), stmt, param)
  {
    if |rest| <= k {
      assert rest[..n] == rest && rest[n..] == [];
      assert [rest][1..] == [];
    } else {
      assert Cut(rest, k)[1..] == Cut(rest[k..], k);
    }
  }

  /** What the server takes from a packet: section "COM_STMT_SEND_LONG_DATA" of the protocol documentation. */
  datatype LongPiece = LongPiece(stmt: nat, param: nat, data: seq<byte>)

  function ParseLong(packet: seq<byte>): Option<LongPiece> {
    if |packet| < 7 || packet[0] != 0x18 then None
    else Some(LongPiece(LE.Decode(packet[1..5]), LE.Decode(packet[5..7]), packet[7..]))
  }

  /** The server's side: packets off the wire, each with its own sequence from 0, up to the end. */
  function ReadLong(wire: seq<byte>): Option<seq<LongPiece>>
    decreases |wire|
  {
    if wire == [] then Some([])
    else
      match ReadFrames(wire, 0, [])
      case Refused(_) => None
      case Packet(packet, rest, _) =>
        if |rest| >= |wire| || ParseLong(packet).None? then None
        else
          var more := ReadLong(rest);
          if more.None? then None else Some([ParseLong(packet).value] + more.value)
  }

  /** The parameter id has 16 bits on the wire. */
  lemma LongHeaderReads(stmt: nat, param: nat, data: seq<byte>)
    requires stmt < 0x1_0000_0000
    ensures ParseLong(LongHeader(stmt, param) + data) == Some(LongPiece(stmt, param % 0x1_0000, data))
  {
    var packet := LongHeader(stmt, param) + data;
    assert packet[1..5] == LE.Encode(stmt, 4);
    assert packet[5..7] == LE.Encode(param, 2);
    assert packet[7..] == data;
    LE.Powers();
    LE.DecodeEncode(stmt, 4);
    LE.TwoBytesRead(param);
  }

  function PiecesOf(pieces: seq<seq<byte>>, stmt: nat, param: nat): seq<LongPiece> {
    if pieces == [] then [] else [LongPiece(stmt, param, pieces[0])] + PiecesOf(pieces[1..], stmt, param)
  }

  /** No packet of the pieces has a length that reading refuses. */
  ghost predicate Readable(pieces: seq<seq<byte>>) {
    forall i :: 0 <= i < |pieces| ==> !Unreadable(7 + |pieces[i]|)
  }

  lemma FramesNotEmpty(p: seq<byte>, s: byte)
    ensures |Frames(p, s)| >= 4
  {
  }

  lemma FirstPieceReads(piece: seq<byte>, rest: seq<byte>, stmt: nat, param: nat)
    requires stmt < 0x1_0000_0000
    ensures var wire := Frames(LongHeader(stmt, param) + piece, 0) + rest;
            ReadLong(wire) ==
            if Unreadable(7 + |piece|) || ReadLong(rest).None? then None
            else Some([LongPiece(stmt, param % 0x1_0000, piece)] + ReadLong(rest).value)
  {
    var packet := LongHeader(stmt, param) + piece;
    FramesNotEmpty(packet, 0);
    FramesRead(packet, 0, rest);
    LongHeaderReads(stmt, param, piece);
  }

  /**
   * The server takes every piece under the statement's id and the parameter's 16 bits, in order, if and only if
   * no packet has a length that is a multiple of 2^24-1; otherwise it refuses one.
   */
  lemma {:induction false} LongWireReadsIff(pieces: seq<seq<byte>>, stmt: nat, param: nat)
    requires stmt < 0x1_0000_0000
    ensures ReadLong(LongWire(pieces, stmt, param)) ==
            if Readable(pieces) then Some(PiecesOf(pieces, stmt, param % 0x1_0000)) else None
    decreases |pieces|
  {
    if pieces != [] {
      FirstPieceReads(pieces[0], LongWire(pieces[1..], stmt, param), stmt, param);
      LongWireReadsIff(pieces[1..], stmt, param);
      assert Readable(pieces) <==> !Unreadable(7 + |pieces[0]|) && Readable(pieces[1..]) by {
        ReadableFirst(pieces);
      }
    }
  }

  lemma ReadableFirst(pieces: seq<seq<byte>>)
    requires pieces != []
    ensures Readable(pieces) <==> !Unreadable(7 + |pieces[0]|) && Readable(pieces[1..])
  {
    if !Unreadable(7 + |pieces[0]|) && Readable(pieces[1..]) {
      forall i | 0 <= i < |pieces| ensures !Unreadable(7 + |pieces[i]|) {
        assert i > 0 ==> pieces[i] == pieces[1..][i - 1];
      }
    }
  }

  /** The length of the last piece. */
  function LastLength(n: nat, k: nat): nat
    requires k > 0
  {
    if n <= k then n else LastLength(n - k, k)
  }

  /** The lengths of an argument's packets, from its own length: all full but the last. */
  predicate SafeLength(n: nat, k: nat)
    requires k > 0
  {
    n == 0 || ((n > k ==> !Unreadable(7 + k)) && !Unreadable(7 + LastLength(n, k)))
  }

  lemma {:induction false} ReadableIff(arg: seq<byte>, k: nat)
    requires k > 0
    ensures Readable(Cut(arg, k)) <==> SafeLength(|arg|, k)
    decreases |arg|
  {
    if arg != [] {
      ReadableFirst(Cut(arg, k));
      if |arg| <= k {
        assert Cut(arg, k)[1..] == [];
      } else {
        assert Cut(arg, k)[1..] == Cut(arg[k..], k);
        ReadableIff(arg[k..], k);
      }
    }
  }

  ghost predicate SameIds(pieces: seq<LongPiece>, stmt: nat, param: nat) {
    forall i :: 0 <= i < |pieces| ==> pieces[i].stmt == stmt && pieces[i].param == param
  }

  function DataOf(pieces: seq<LongPiece>): seq<byte> {
    if pieces == [] then [] else pieces[0].data + DataOf(pieces[1..])
  }

  lemma {:induction false} PiecesAre(pieces: seq<seq<byte>>, stmt: nat, param: nat)
    ensures SameIds(PiecesOf(pieces, stmt, param), stmt, param)
    ensures DataOf(PiecesOf(pieces, stmt, param)) == Concat(pieces)
    decreases |pieces|
  {
    if pieces != [] {
      PiecesAre(pieces[1..], stmt, param);
      assert PiecesOf(pieces, stmt, param)[1..] == PiecesOf(pieces[1..], stmt, param);
    }
  }

  lemma SixteenBits(param: nat)
    requires param < 0x1_0000
    ensures param % 0x1_0000 == param
  {
  }

  lemma PiecesArrive(pieces: seq<seq<byte>>, stmt: nat, param: nat)
    requires stmt < 0x1_0000_0000 && param < 0x1_0000
    ensures var got := ReadLong(LongWire(pieces, stmt, param));
            && (got.Some? <==> Readable(pieces))
            && (got.Some? ==> SameIds(got.value, stmt, param) && DataOf(got.value) == Concat(pieces))
  {
    LongWireReadsIff(pieces, stmt, param);
    SixteenBits(param);
    PiecesAre(pieces, stmt, param);
  }

  /** What writeCommandLongData sends is taken by the server as the argument, under its ids, if and only if its length is safe. */
  lemma LongDataArrivesIff(arg: seq<byte>, k: nat, stmt: nat, param: nat)
    requires k > 0 && stmt < 0x1_0000_0000 && param < 0x1_0000
    ensures var got := ReadLong(LongWire(Cut(arg, k), stmt, param));
            && (got.Some? <==> SafeLength(|arg|, k))
            && (got.Some? ==> SameIds(got.value, stmt, param) && DataOf(got.value) == arg)
  {
    var pieces := Cut(arg, k);
    PiecesArrive(pieces, stmt, param);
    ReadableIff(arg, k);
    CutConcat(arg, k);
  }

  // ---------------------------------------------------------------------------------------
  // The connection

  datatype WriteResult = Written | TooLarge | BadConn

  datatype ReadResult = Received(data: Slice) | ReadBadConn | PktSync | PktSyncMul

  class Conn {
    const buf: Buffer
    const maxPacketAllowed: int
    var sequence: byte
    /** Everything the network has accepted. */
    var wire: seq<byte>
    /** How the coming writes end: None in full, Some(n) after n bytes. */
    var faults: seq<Option<nat>>

    constructor (buf: Buffer, sequence: byte, maxPacketAllowed: int, faults: seq<Option<nat>>)
      ensures this.buf == buf && this.sequence == sequence && this.maxPacketAllowed == maxPacketAllowed && wire == []
    {
      this.buf, this.sequence, this.maxPacketAllowed, this.faults, wire := buf, sequence, maxPacketAllowed, faults, [];
    }

    method NetWrite(b: seq<byte>) returns (ok: bool)
      modifies this`wire, this`faults
      ensures ok ==> wire == old(wire) + b
      ensures old(wire) <= wire <= old(wire) + b
      ensures old(faults) == [] ==> ok && faults == []
    {
      var fault := if faults == [] then None else faults[0];
      faults := if faults == [] then [] else faults[1..];
      var n := if fault.None? then |b| else Min(fault.value, |b|);
      assert b[..|b|] == b;
      wire := wire + b[..n];
      ok := fault.None?;
    }

    method WriteHeader(data: array<byte>, at: nat, size: nat)
      requires at + 4 <= data.Length && size <= MAX
      modifies data
      ensures data[at..at + 4] == Header(size, sequence)
      ensures forall i :: 0 <= i < data.Length && !(at <= i < at + 4) ==> data[i] == old(data[i])
    {
      LE.ThreeBytes(size, 0, 0, 0);
      data[at], data[at + 1], data[at + 2], data[at + 3] := size % 256, size / 256 % 256, size / 65536, sequence;
      assert data[at..at + 4] == [size % 256, size / 256 % 256, size / 65536] + [sequence];
    }

    /** Writes the next header in place and sends one frame of what is left of the payload. */
    method SendFrame(data: array<byte>, at: nat, hi: nat, ghost rest: seq<byte>, size: nat) returns (ok: bool)
      requires at + 4 <= hi <= data.Length && data[at + 4..hi] == rest && size == Min(|rest|, MAX)
      modifies this`wire, this`faults, data
      ensures data[at + size + 4..hi] == rest[size..]
      ensures forall i :: 0 <= i < data.Length && !(at <= i < at + 4) ==> data[i] == old(data[i])
      ensures ok ==> old(wire) + Frames(rest, sequence) == wire + Remaining(rest, sequence)
      ensures old(faults) == [] ==> ok && faults == []
    {
      WriteHeader(data, at, size);
      assert data[at + 4..hi] == rest;
      assert data[at + 4..at + 4 + size] == rest[..size];
      assert data[at..at + 4 + size] == data[at..at + 4] + data[at + 4..at + 4 + size];
      ok := NetWrite(data[at..at + 4 + size]);
      Associates(old(wire), FirstFrame(rest, sequence), Remaining(rest, sequence));
    }

    /**
     * Sends data[lo+4..hi], using the four bytes before it, and then bytes already sent, for headers.
     * Nothing outside the slice is touched.
     */
    method WritePacket(data: array<byte>, lo: nat, hi: nat) returns (r: WriteResult)
      requires lo + 4 <= hi <= data.Length
      modifies this`sequence, this`wire, this`faults, data
      ensures r == TooLarge <==> hi - lo - 4 > maxPacketAllowed
      ensures r == TooLarge ==> wire == old(wire) && sequence == old(sequence) && data[..] == old(data[..])
      ensures r == Written ==>
                && wire == old(wire) + Frames(old(data[lo + 4..hi]), old(sequence))
                && sequence == SeqAfter(old(sequence), FrameCount(hi - lo - 4))
      ensures r == BadConn ==> old(faults) != []
      ensures forall i :: 0 <= i < data.Length && !(lo <= i < hi) ==> data[i] == old(data[i])
      ensures old(faults) == [] ==> faults == []
    {
      if hi - lo - 4 > maxPacketAllowed {
        return TooLarge;
      }
      NextSeqCounts(hi - lo - 4, sequence);
      var ok := SendFrames(data, lo, hi, data[lo + 4..hi]);
      r := if ok then Written else BadConn;
    }

    /** The loop of writePacket: `at` is the start of what the source calls data. */
    method SendFrames(data: array<byte>, lo: nat, hi: nat, ghost payload: seq<byte>) returns (ok: bool)
      requires lo + 4 <= hi <= data.Length && data[lo + 4..hi] == payload
      modifies this`sequence, this`wire, this`faults, data
      ensures ok ==> wire == old(wire) + Frames(payload, old(sequence)) && sequence == NextSeq(|payload|, old(sequence))
      ensures forall i :: 0 <= i < data.Length && !(lo <= i < hi) ==> data[i] == old(data[i])
      ensures old(faults) == [] ==> ok && faults == []
    {
      ghost var rest := payload;
      ghost var total, last := wire + Frames(rest, sequence), NextSeq(|rest|, sequence);
      var pktLen := hi - lo - 4;
      var at := lo;
      while true
        invariant lo <= at && pktLen == |rest| && at + 4 + pktLen == hi
        invariant data[at + 4..hi] == rest
        invariant wire + Frames(rest, sequence) == total
        invariant NextSeq(pktLen, sequence) == last
        invariant forall i :: 0 <= i < data.Length && !(lo <= i < hi) ==> data[i] == old(data[i])
        invariant old(faults) == [] ==> faults == []
        decreases pktLen
      {
        var size := if pktLen >= MAX then MAX else pktLen;
        ok := SendFrame(data, at, hi, rest, size);
        if !ok {
          return;
        }
        if size != MAX {
          assert wire + [] == wire;
          sequence := Succ(sequence);
          return;
        }
        sequence := Succ(sequence);
        pktLen := pktLen - size;
        at := at + size;
        rest := rest[size..];
        assert data[at + 4..hi] == rest;
      }
    }

    /** The next header: its length and sequence number. */
    method ReadHeader() returns (h: Option<(nat, byte)>)
      requires buf.Valid()
      modifies buf, buf.rd, buf.buf
      ensures buf.InBounds() && (buf.buf == old(buf.buf) || fresh(buf.buf))
      ensures (old(buf.rd.failed) ==> buf.rd.failed) && (old(buf.rd.broken) ==> buf.rd.broken)
      ensures h.None? ==> buf.rd.failed && (buf.rd.broken || buf.rd.pos < old(buf.taken) + 4)
      ensures h.Some? ==>
                && buf.Valid() && buf.taken == old(buf.taken) + 4 <= |buf.rd.data|
                && h.value.0 == LE.Decode(buf.rd.data[old(buf.taken)..old(buf.taken) + 3])
                && h.value.1 == buf.rd.data[old(buf.taken) + 3]
    {
      ghost var t := buf.taken;
      var head := buf.ReadNext(4);
      if head.None? {
        return None;
      }
      var n, seqNo := ParseHeader(head.value);
      ghost var d := buf.rd.data;
      assert d[t..t + 4][..3] == d[t..t + 3];
      h := Some((n, seqNo));
    }

    method ReadBody(n: nat, ghost one: Framed) returns (f: Option<Slice>)
      requires buf.Valid() && n > 0 && one == BodyAt(buf.rd.data, buf.taken, n)
      modifies buf, buf.rd, buf.buf
      ensures buf.InBounds() && (buf.buf == old(buf.buf) || fresh(buf.buf))
      ensures (old(buf.rd.failed) ==> buf.rd.failed) && (old(buf.rd.broken) ==> buf.rd.broken)
      ensures f.Some? ==>
                && buf.Valid() && buf.taken > old(buf.taken)
                && f.value.arr == buf.buf && f.value.InBounds()
                && one == Frame(f.value.Bytes(), buf.rd.data[buf.taken..])
      ensures f.None? ==> buf.rd.failed && (buf.rd.broken || Starved(one, buf.rd.data, buf.rd.pos))
    {
      f := buf.ReadNext(n);
    }

    /** Reads one header and its body. The slice is in the connection's buffer. */
    method ReadFrame(ghost one: Framed) returns (f: Option<Slice>, refused: Framed)
      requires buf.Valid() && buf.taken <= |buf.rd.data| && one == OneFrame(buf.rd.data[buf.taken..], sequence)
      modifies this`sequence, buf, buf.rd, buf.buf
      ensures buf.InBounds() && (buf.buf == old(buf.buf) || fresh(buf.buf))
      ensures (old(buf.rd.failed) ==> buf.rd.failed) && (old(buf.rd.broken) ==> buf.rd.broken)
      ensures f.Some? ==>
                && buf.Valid() && buf.taken > old(buf.taken)
                && f.value.arr == buf.buf && f.value.InBounds()
                && one == Frame(f.value.Bytes(), buf.rd.data[buf.taken..])
                && sequence == Succ(old(sequence))
      ensures f.None? ==>
                if refused.Short? then buf.rd.failed && (buf.rd.broken || Starved(one, buf.rd.data, buf.rd.pos))
                else one == refused && !refused.Frame?
    {
      ghost var t := buf.taken;
      var head := ReadHeader();
      if head.None? {
        if buf.rd.pos < t + 4 {
          FrameHasHeader(buf.rd.data, t, sequence, buf.rd.pos);
        }
        return None, Short;
      }
      var (pktLen, seqNo) := head.value;
      OneFrameAt(buf.rd.data, t, sequence);
      var judged := Judged(pktLen, seqNo, sequence);
      if judged.Some? {
        return None, judged.value;
      }
      sequence := Succ(sequence);
      f := ReadBody(pktLen, one);
      refused := Short;
    }

    /**
     * Reads a whole packet. A packet of one frame is handed out as a slice of the connection's buffer, a
     * longer one as a copy. It fails only on a malformed stream or after an error of the reader, and if that
     * is EOF only when not all of the packet was delivered.
     */
    method ReadPacket() returns (r: ReadResult)
      requires buf.Valid()
      modifies this`sequence, buf, buf.rd, buf.buf
      ensures buf.InBounds() && (buf.buf == old(buf.buf) || fresh(buf.buf))
      ensures (old(buf.rd.failed) ==> buf.rd.failed) && (old(buf.rd.broken) ==> buf.rd.broken)
      ensures var parsed := ReadFrames(buf.rd.data[old(buf.taken)..], old(sequence), []);
              && (r.Received? ==>
                    && buf.Valid() && r.data.InBounds()
                    && parsed == Packet(r.data.Bytes(), buf.rd.data[buf.taken..], sequence))
              && (r.PktSync? ==> parsed == Refused(Behind))
              && (r.PktSyncMul? ==> parsed == Refused(Ahead))
              && (r.ReadBadConn? ==>
                    || parsed == Refused(BadLength)
                    || (buf.rd.failed && (buf.rd.broken || NotDelivered(parsed, buf.rd.data, buf.rd.pos))))
    {
      ghost var t0, s0 := buf.taken, sequence;
      var payload: seq<byte> := [];
      while true
        invariant buf.Valid()
        invariant buf.buf == old(buf.buf) || fresh(buf.buf)
        invariant (old(buf.rd.failed) ==> buf.rd.failed) && (old(buf.rd.broken) ==> buf.rd.broken)
        invariant buf.taken <= |buf.rd.data|
        invariant ReadFrames(buf.rd.data[t0..], s0, []) == ReadFrames(buf.rd.data[buf.taken..], sequence, payload)
        decreases |buf.rd.data| - buf.taken
      {
        ghost var one := OneFrame(buf.rd.data[buf.taken..], sequence);
        RestShrinks(buf.rd.data[buf.taken..], sequence, payload);
        var f, refused := ReadFrame(one);
        if f.None? {
          match refused {
            case Behind => return PktSync;
            case Ahead => return PktSyncMul;
            case _ => return ReadBadConn;
          }
        }
        var data := f.value;
        var isLastPacket := data.hi - data.lo < MAX;
        if isLastPacket && payload == [] {
          assert [] + data.Bytes() == data.Bytes();
          return Received(data);
        }
        payload := payload + data.arr[data.lo..data.hi];
        if isLastPacket {
          var copy := CopyOf(payload);
          return Received(Slice(copy, 0, copy.Length));
        }
      }
    }

    /**
     * Sends an argument of a prepared statement in pieces. The header of each piece is written over the
     * end of the piece before it; the argument arrives whole and in order all the same.
     */
    method WriteCommandLongData(stmtId: nat, paramId: nat, arg: array<byte>) returns (r: WriteResult)
      requires maxPacketAllowed > 8
      modifies this`sequence, this`wire, this`faults
      ensures r != TooLarge
      ensures r == Written ==>
                && wire == old(wire) + LongWire(Cut(arg[..], maxPacketAllowed - 8), stmtId, paramId)
                && sequence == 0
      ensures r == BadConn ==> old(faults) != []
    {
      var maxLen := maxPacketAllowed - 1;
      var pktLen := maxLen;
      ghost var k := maxLen - LONG_DATA_OFFSET;
      var data := RoomFor(arg);
      var at := 0;
      var argLen := arg.Length;
      ghost var rest := arg[..];
      ghost var total := wire + LongWire(Cut(rest, k), stmtId, paramId);
      while argLen > 0
        invariant at >= 0 && argLen == |rest| && at + 4 + LONG_DATA_OFFSET <= data.Length
        invariant argLen > 0 ==> pktLen == maxLen
        invariant fresh(data)
        invariant data[at + 4 + LONG_DATA_OFFSET..] == rest
        invariant total == wire + LongWire(Cut(rest, k), stmtId, paramId)
        invariant old(faults) == [] ==> faults == []
        decreases argLen
      {
        if LONG_DATA_OFFSET + argLen < maxLen {
          pktLen := LONG_DATA_OFFSET + argLen;
        }
        var n := pktLen - LONG_DATA_OFFSET;
        assert n == ChunkSize(maxPacketAllowed, argLen);
        r := SendPiece(data, at, rest, n, k, stmtId, paramId);
        if r != Written {
          return;
        }
        rest := rest[n..];
        at := at + n;
        argLen := argLen - n;
      }
      assert total == wire + [] == wire;
      sequence := 0;
      r := Written;
    }

    /** One turn of the loop: ids over the seven bytes before the piece, then the packet. */
    method SendPiece(data: array<byte>, at: nat, ghost rest: seq<byte>, n: nat, ghost k: nat, stmtId: nat, paramId: nat)
      returns (r: WriteResult)
      requires rest != [] && k > 0 && n == Min(|rest|, k) && LONG_DATA_OFFSET + n <= maxPacketAllowed
      requires at + 4 + LONG_DATA_OFFSET <= data.Length && data[at + 4 + LONG_DATA_OFFSET..] == rest
      modifies this`sequence, this`wire, this`faults, data
      ensures r != TooLarge && (r == BadConn ==> old(faults) != [])
      ensures old(faults) == [] ==> faults == []
      ensures r == Written ==>
                && wire + LongWire(Cut(rest[n..], k), stmtId, paramId) == old(wire) + LongWire(Cut(rest, k), stmtId, paramId)
                && data[at + n + 4 + LONG_DATA_OFFSET..] == rest[n..]
    {
      sequence := 0;
      PreparePiece(data, at + 4, rest, n, stmtId, paramId);
      ghost var packet := LongHeader(stmtId, paramId) + rest[..n];
      r := WriteKeepingRest(data, at, at + 4 + LONG_DATA_OFFSET + n, packet, rest[n..]);
      LongWireStep(rest, n, k, stmtId, paramId);
      Associates(old(wire), Frames(packet, 0), LongWire(Cut(rest[n..], k), stmtId, paramId));
    }

    method WriteKeepingRest(data: array<byte>, lo: nat, hi: nat, ghost packet: seq<byte>, ghost rest: seq<byte>)
      returns (r: WriteResult)
      requires lo + 4 <= hi <= data.Length && data[lo + 4..hi] == packet && data[hi..] == rest
      requires |packet| <= maxPacketAllowed
      modifies this`sequence, this`wire, this`faults, data
      ensures r != TooLarge && (r == BadConn ==> old(faults) != [])
      ensures old(faults) == [] ==> faults == []
      ensures r == Written ==> wire == old(wire) + Frames(packet, old(sequence))
      ensures data[hi..] == rest
    {
      r := WritePacket(data, lo, hi);
    }

    method PreparePiece(data: array<byte>, at: nat, ghost rest: seq<byte>, n: nat, stmtId: nat, paramId: nat)
      requires at + LONG_DATA_OFFSET <= data.Length && data[at + LONG_DATA_OFFSET..] == rest && n <= |rest|
      modifies data
      ensures data[at..at + LONG_DATA_OFFSET + n] == LongHeader(stmtId, paramId) + rest[..n]
      ensures data[at + LONG_DATA_OFFSET + n..] == rest[n..]
    {
      WriteLongHeader(data, at, stmtId, paramId);
      ghost var p := at + LONG_DATA_OFFSET;
      assert data[p..] == rest;
      assert data[p..p + n] == data[p..][..n];
      assert data[at..p + n] == data[at..p] + data[p..p + n];
    }

    method WriteLongHeader(data: array<byte>, at: nat, stmtId: nat, paramId: nat)
      requires at + LONG_DATA_OFFSET <= data.Length
      modifies data
      ensures data[at..at + LONG_DATA_OFFSET] == LongHeader(stmtId, paramId)
      ensures forall i :: 0 <= i < data.Length && !(at <= i < at + LONG_DATA_OFFSET) ==> data[i] == old(data[i])
    {
      LE.FourBytes(stmtId);
      LE.TwoBytes(paramId);
      data[at] := COM_STMT_SEND_LONG_DATA;
      data[at + 1], data[at + 2] := stmtId % 256, stmtId / 0x100 % 256;
      data[at + 3], data[at + 4] := stmtId / 0x1_0000 % 256, stmtId / 0x100_0000 % 256;
      data[at + 5], data[at + 6] := paramId % 256, paramId / 0x100 % 256;
    }
  }

  method ParseHeader(h: Slice) returns (n: nat, seqNo: byte)
    requires h.InBounds() && h.hi == h.lo + 4
    ensures n == LE.Decode(h.Bytes()[..3]) && seqNo == h.Bytes()[3]
  {
    var a, o := h.arr, h.lo;
    var b0: int, b1: int, b2: int := a[o], a[o + 1], a[o + 2];
    LE.ThreeBytes(0, a[o], a[o + 1], a[o + 2]);
    assert h.Bytes()[..3] == [a[o], a[o + 1], a[o + 2]];
    n, seqNo := b0 + 256 * b1 + 65536 * b2, a[o + 3];
  }

  method CopyOf(s: seq<byte>) returns (a: array<byte>)
    ensures fresh(a) && a.Length == |s| && a[0..a.Length] == s
  {
    a := new byte[|s|](i requires 0 <= i < |s| => s[i]);
  }

  method RoomFor(arg: array<byte>) returns (data: array<byte>)
    ensures fresh(data) && data.Length == 4 + LONG_DATA_OFFSET + arg.Length
    ensures data[4 + LONG_DATA_OFFSET..] == arg[..]
  {
    data := new byte[4 + LONG_DATA_OFFSET + arg.Length];
    forall i | 0 <= i < arg.Length {
      data[4 + LONG_DATA_OFFSET + i] := arg[i];
    }
  }

  /** What a receiver must get for a payload of n bytes. */
  predicate Arrives(got: ReadResult, n: nat) {
    if Unreadable(n) then got.ReadBadConn? else got.Received?
  }

  /** No error at all, or none but EOF and at least n bytes. */
  predicate Delivered(reader: Reader, n: nat)
    reads reader
  {
    !reader.failed || (!reader.broken && reader.pos >= n)
  }

  /** Reads one packet off a stream that starts with the frames of a payload. */
  method Receive(stream: seq<byte>, s: byte, maxPacketAllowed: int, script: seq<Reading>,
                 ghost payload: seq<byte>, ghost later: seq<byte>)
    returns (got: ReadResult, reader: Reader, receiver: Conn)
    requires stream == Frames(payload, s) + later
    ensures fresh(reader)
    ensures got.Received? ==>
              got.data.InBounds() && got.data.Bytes() == payload && receiver.sequence == SeqAfter(s, FrameCount(|payload|))
    ensures Delivered(reader, |Frames(payload, s)|) ==> Arrives(got, |payload|)
  {
    reader := new Reader(stream, script);
    var buffer := new Buffer(reader);
    receiver := new Conn(buffer, s, maxPacketAllowed, []);
    assert stream[0..] == stream;
    FramesRead(payload, s, later);
    got := receiver.ReadPacket();
  }

  /**
   * A packet sent over a connection and read at the other end, whatever pieces the network delivers and
   * whatever follows it: if all its bytes are delivered, without an error other than EOF, what is read is what
   * was sent, and the sequence numbers agree, exactly when the length is no multiple of 2^24-1.
   */
  method SendAndReceive(sender: Conn, data: array<byte>, later: seq<byte>, script: seq<Reading>)
    returns (sent: WriteResult, got: ReadResult, reader: Reader, next: byte)
    requires data.Length >= 4 && sender.wire == []
    modifies sender, data
    ensures sent == Written && got.Received? ==>
              && got.data.InBounds()
              && got.data.Bytes() == old(data[4..])
              && next == sender.sequence
    ensures sent == Written && Delivered(reader, |sender.wire|) ==> Arrives(got, data.Length - 4)
  {
    ghost var payload := data[4..data.Length];
    var s := sender.sequence;
    sent := sender.WritePacket(data, 0, data.Length);
    if sent == Written {
      assert sender.wire == Frames(payload, s);
      var receiver;
      got, reader, receiver := Receive(sender.wire + later, s, sender.maxPacketAllowed, script, payload, later);
      next := receiver.sequence;
    } else {
      reader := new Reader([], []);
      got, next := ReadBadConn, s;
    }
  }
}
