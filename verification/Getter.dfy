/**
 * The parallel download: the object is cut into chunks, workers fetch them in any order, and the reader
 * must see one stream in order.
 */
module Getter {
  import opened Common

  const Q_WAIT_SIZE := 2

  datatype Chunk = Chunk(id: nat, start: nat, size: nat)

  // ---------------------------------------------------------------------------------------
  // The chunks

  function Offset(chunks: seq<Chunk>, k: nat, contentLen: nat): nat
    requires k <= |chunks|
  {
    if k == |chunks| then contentLen else chunks[k].start
  }

  /** Chunk k has its own number, is not empty nor over `bufsz` long, and ends where the next one starts. */
  ghost predicate Fits(chunks: seq<Chunk>, k: nat, contentLen: nat, bufsz: nat)
    requires k < |chunks|
  {
    && chunks[k].id == k && 0 < chunks[k].size <= bufsz
    && Offset(chunks, k + 1, contentLen) == chunks[k].start + chunks[k].size
  }

  /** The chunks cut [0, contentLen) into consecutive pieces. */
  ghost predicate Partition(chunks: seq<Chunk>, contentLen: nat, bufsz: nat) {
    && Offset(chunks, 0, contentLen) == 0
    && forall k :: 0 <= k < |chunks| ==> Fits(chunks, k, contentLen, bufsz)
  }

  function ChunkTotal(contentLen: nat, bufsz: nat): nat
    requires bufsz > 0
  {
    (contentLen + bufsz - 1) / bufsz
  }

  /** Rounding up: the chunks cover the object and one fewer would not. */
  lemma ChunkTotalIs(contentLen: nat, bufsz: nat, n: nat)
    requires bufsz > 0
    requires n * bufsz >= contentLen && (n == 0 || (n - 1) * bufsz < contentLen)
    ensures ChunkTotal(contentLen, bufsz) == n
  {
    var x := contentLen + bufsz - 1;
    if n == 0 {
      assert contentLen == 0;
      assert x / bufsz == 0;
    } else {
      assert n * bufsz == (n - 1) * bufsz + bufsz;
      assert n * bufsz <= x < (n + 1) * bufsz by {
        assert (n + 1) * bufsz == n * bufsz + bufsz;
      }
      QuotientIs(x, bufsz, n);
    }
  }

  method InitChunks(contentLen: nat, bufsz: nat) returns (chunks: seq<Chunk>)
    requires bufsz > 0
    ensures Partition(chunks, contentLen, bufsz)
    ensures |chunks| == ChunkTotal(contentLen, bufsz)
  {
    chunks := [];
    var id, i := 0, 0;
    while i < contentLen
      invariant i <= contentLen && id == |chunks|
      invariant if i < contentLen then i == id * bufsz else id * bufsz >= contentLen
      invariant id == 0 ==> i == 0
      invariant id > 0 ==> (id - 1) * bufsz < contentLen
      invariant Partition(chunks, i, bufsz)
    {
      var size := Min(bufsz, contentLen - i);
      assert (id + 1) * bufsz == id * bufsz + bufsz;
      PartitionSnoc(chunks, i, size, bufsz);
      chunks := chunks + [Chunk(id, i, size)];
      i := i + size;
      id := id + 1;
    }
    ChunkTotalIs(contentLen, bufsz, id);
  }

  lemma PartitionSnoc(chunks: seq<Chunk>, i: nat, size: nat, bufsz: nat)
    requires Partition(chunks, i, bufsz) && 0 < size <= bufsz
    ensures Partition(chunks + [Chunk(|chunks|, i, size)], i + size, bufsz)
  {
    var more, end := chunks + [Chunk(|chunks|, i, size)], i + size;
    forall k | 0 <= k < |more|
      ensures Fits(more, k, end, bufsz)
    {
      if k < |chunks| {
        assert Fits(chunks, k, i, bufsz);
      }
    }
  }

  /** The bytes of the object a chunk stands for. */
  function Piece(content: seq<byte>, c: Chunk): seq<byte>
    requires c.start + c.size <= |content|
  {
    content[c.start..c.start + c.size]
  }

  lemma {:induction false} OffsetBound(chunks: seq<Chunk>, contentLen: nat, bufsz: nat, k: nat)
    requires Partition(chunks, contentLen, bufsz) && k <= |chunks|
    ensures Offset(chunks, k, contentLen) <= contentLen
    decreases |chunks| - k
  {
    if k < |chunks| {
      assert Fits(chunks, k, contentLen, bufsz);
      OffsetBound(chunks, contentLen, bufsz, k + 1);
    }
  }

  function PieceOf(content: seq<byte>, chunks: seq<Chunk>, k: nat): seq<byte>
    requires k < |chunks|
  {
    if chunks[k].start + chunks[k].size <= |content| then Piece(content, chunks[k]) else []
  }

  function Pieces(content: seq<byte>, chunks: seq<Chunk>, k: nat): seq<seq<byte>>
    requires k <= |chunks|
  {
    if k == 0 then [] else Pieces(content, chunks, k - 1) + [PieceOf(content, chunks, k - 1)]
  }

  /** In order, the first k pieces are the object up to where chunk k starts. */
  lemma {:induction false} PiecesConcatenate(chunks: seq<Chunk>, content: seq<byte>, bufsz: nat, k: nat)
    requires Partition(chunks, |content|, bufsz) && k <= |chunks|
    ensures Offset(chunks, k, |content|) <= |content|
    ensures Concat(Pieces(content, chunks, k)) == content[..Offset(chunks, k, |content|)]
  {
    OffsetBound(chunks, |content|, bufsz, k);
    if k > 0 {
      var c := chunks[k - 1];
      assert Fits(chunks, k - 1, |content|, bufsz);
      PiecesConcatenate(chunks, content, bufsz, k - 1);
      ConcatSnoc(Pieces(content, chunks, k - 1), PieceOf(content, chunks, k - 1));
      assert content[..c.start + c.size] == content[..c.start] + content[c.start..c.start + c.size];
    }
  }

  // ---------------------------------------------------------------------------------------
  // The reader

  /** A chunk with the buffer a worker filled; the buffer may be longer than the chunk. */
  datatype Fetched = Fetched(chunk: Chunk, b: seq<byte>)

  datatype Error = Invalid | Fatal(code: int) | TooMany | Incomplete

  /** What the reader receives while it waits: a chunk from some worker, or the news that one gave up. */
  datatype Event = Delivered(f: Fetched) | Quit(error: Error)

  datatype Status = More | Good | Eof | Failed(error: Error)

  /** Writes `src` at `at`, in place. */
  method CopyInto(p: array<byte>, at: nat, src: seq<byte>)
    requires at + |src| <= p.Length
    modifies p
    ensures p[..at] == old(p[..at]) && p[at..at + |src|] == src
    ensures p[at + |src|..] == old(p[at + |src|..])
  {
    forall i | 0 <= i < |src| {
      p[at + i] := src[i];
    }
  }

  ghost predicate Right(chunks: seq<Chunk>, content: seq<byte>, f: Fetched) {
    var c := f.chunk;
    && c.id < |chunks| && c == chunks[c.id]
    && c.size <= |f.b| && c.start + c.size <= |content|
    && f.b[..c.size] == Piece(content, c)
  }

  /** Chunk `id` waits in the map, or will be delivered, or some worker will give up. */
  ghost predicate Promised(waiting: map<nat, Fetched>, inbox: seq<Event>, id: nat) {
    id in waiting || exists j :: 0 <= j < |inbox| && (inbox[j].Quit? || inbox[j].f.chunk.id == id)
  }

  ghost predicate NoQuit(inbox: seq<Event>) {
    forall j :: 0 <= j < |inbox| ==> inbox[j].Delivered?
  }

  lemma StillPromised(waiting: map<nat, Fetched>, inbox: seq<Event>, id: nat)
    requires Promised(waiting, inbox, id)
    requires inbox != [] && inbox[0].Delivered?
    ensures Promised(waiting[inbox[0].f.chunk.id := inbox[0].f], inbox[1..], id)
  {
    if id !in waiting && inbox[0].f.chunk.id != id {
      var j :| 0 <= j < |inbox| && (inbox[j].Quit? || inbox[j].f.chunk.id == id);
      assert inbox[1..][j - 1] == inbox[j];
    }
  }

  class Getter {
    const contentLen: nat
    const chunkTotal: nat
    ghost const content: seq<byte>
    ghost const chunks: seq<Chunk>
    ghost const bufsz: nat
    var chunkID: nat
    var rChunk: Option<Fetched>
    var cIdx: nat
    var bytesRead: nat
    var qWait: map<nat, Fetched>
    var inbox: seq<Event>
    var closed: bool
    var err: Option<Error>

    ghost predicate Plan() {
      && |content| == contentLen && |chunks| == chunkTotal
      && Partition(chunks, contentLen, bufsz)
    }

    ghost predicate Buffers()
      reads this`qWait, this`inbox
    {
      && (forall id :: id in qWait ==> Right(chunks, content, qWait[id]) && qWait[id].chunk.id == id)
      && (forall j :: 0 <= j < |inbox| && inbox[j].Delivered? ==> Right(chunks, content, inbox[j].f))
    }

    ghost predicate AllPromised(first: nat)
      reads this`qWait, this`inbox
    {
      forall id :: first <= id < chunkTotal ==> Promised(qWait, inbox, id)
    }

    /** Where the reader is. */
    ghost predicate Placed()
      reads this`chunkID, this`rChunk, this`cIdx, this`bytesRead
    {
      && Plan() && chunkID <= chunkTotal && bytesRead <= contentLen
      && match rChunk
         case None => bytesRead == Offset(chunks, chunkID, contentLen)
         case Some(f) =>
           && Right(chunks, content, f) && f.chunk.id == chunkID
           && cIdx < f.chunk.size && bytesRead == f.chunk.start + cIdx
    }

    ghost predicate Valid()
      reads this
    {
      && Placed() && Buffers()
      && (err.None? ==> AllPromised(if rChunk.Some? then chunkID + 1 else chunkID))
    }

    /** Workers deliver in any order, even repeatedly; every chunk comes unless some worker gives up. */
    constructor (ghost content: seq<byte>, ghost chunks: seq<Chunk>, ghost bufsz: nat,
                 contentLen: nat, chunkTotal: nat, inbox: seq<Event>)
      requires |content| == contentLen && |chunks| == chunkTotal && Partition(chunks, contentLen, bufsz)
      requires forall j :: 0 <= j < |inbox| && inbox[j].Delivered? ==> Right(chunks, content, inbox[j].f)
      requires forall id :: 0 <= id < chunkTotal ==> Promised(map[], inbox, id)
      ensures Valid() && bytesRead == 0 && err.None? && !closed
      ensures this.content == content && this.inbox == inbox && this.contentLen == contentLen
    {
      this.content, this.chunks, this.bufsz := content, chunks, bufsz;
      this.contentLen, this.chunkTotal, this.inbox := contentLen, chunkTotal, inbox;
      chunkID, rChunk, cIdx, bytesRead, qWait := 0, None, 0, 0, map[];
      closed, err := false, None;
    }

    /** Waits for the chunk the reader is at, keeping those that come before it. */
    method NextChunk() returns (c: Option<Fetched>)
      requires Plan() && Buffers() && err.None?
      requires chunkID < chunkTotal && AllPromised(chunkID)
      modifies this`qWait, this`inbox, this`err
      ensures Buffers()
      ensures c.None? <==> err.Some?
      ensures c.None? ==> Quit(err.value) in old(inbox)
      ensures c.Some? ==> Right(chunks, content, c.value) && c.value.chunk.id == chunkID && AllPromised(chunkID + 1)
      ensures old(NoQuit(inbox)) ==> c.Some? && NoQuit(inbox)
    {
      while chunkID !in qWait
        invariant Buffers() && AllPromised(chunkID) && err.None?
        invariant old(NoQuit(inbox)) ==> NoQuit(inbox)
        invariant forall e :: e in inbox ==> e in old(inbox)
        decreases |inbox|
      {
        assert Promised(qWait, inbox, chunkID);
        var event := inbox[0];
        if event.Quit? {
          err := Some(event.error);
          return None;
        }
        Receive();
      }
      c := Some(qWait[chunkID]);
      Drop(chunkID);
    }

    method Receive()
      requires Buffers() && AllPromised(chunkID) && inbox != [] && inbox[0].Delivered?
      modifies this`qWait, this`inbox
      ensures Buffers() && AllPromised(chunkID) && inbox == old(inbox)[1..]
    {
      var f := inbox[0].f;
      var waiting, rest := qWait[f.chunk.id := f], inbox[1..];
      forall id | chunkID <= id < chunkTotal
        ensures Promised(waiting, rest, id)
      {
        StillPromised(qWait, inbox, id);
      }
      qWait, inbox := waiting, rest;
    }

    method Drop(id: nat)
      requires Buffers() && AllPromised(id) && id in qWait
      modifies this`qWait
      ensures Buffers() && AllPromised(id + 1)
    {
      forall k | id + 1 <= k < chunkTotal
        ensures Promised(qWait - {id}, inbox, k)
      {
        assert Promised(qWait, inbox, k);
      }
      qWait := qWait - {id};
    }

    /** The checks at the head of the reading loop; in a valid getter the two error cases never arise. */
    method Progress() returns (status: Status)
      requires Valid()
      ensures status == if bytesRead == contentLen then Eof else More
      ensures status == More ==> chunkID < chunkTotal && bytesRead < contentLen
    {
      if chunkID < chunkTotal {
        assert Fits(chunks, chunkID, contentLen, bufsz);
        OffsetBound(chunks, contentLen, bufsz, chunkID + 1);
      }
      status := if bytesRead == contentLen then Eof
                else if bytesRead > contentLen then Failed(TooMany)
                else if chunkID >= chunkTotal then Failed(Incomplete)
                else More;
    }

    /** Makes sure there is a chunk to read from, unless a worker gave up. */
    method Load()
      requires Valid() && err.None? && chunkID < chunkTotal
      modifies this`rChunk, this`cIdx, this`qWait, this`inbox, this`err
      ensures Valid() && (err.None? ==> rChunk.Some?)
      ensures err.Some? ==> Quit(err.value) in old(inbox)
      ensures old(NoQuit(inbox)) ==> err.None? && NoQuit(inbox)
    {
      if rChunk.None? {
        var c := NextChunk();
        if c.Some? {
          assert Fits(chunks, chunkID, contentLen, bufsz);
          rChunk, cIdx := c, 0;
        }
      }
    }

    /** Copies what fits of the current chunk, and lets go of the chunk when it is used up. */
    method Take(p: array<byte>, nw: nat) returns (n: nat)
      requires Valid() && err.None? && rChunk.Some? && nw < p.Length
      modifies p, this`rChunk, this`cIdx, this`bytesRead, this`chunkID
      ensures Valid() && 0 < n <= p.Length - nw
      ensures bytesRead == old(bytesRead) + n <= contentLen
      ensures p[..nw] == old(p[..nw]) && p[nw..nw + n] == content[old(bytesRead)..bytesRead]
      ensures p[nw + n..] == old(p[nw + n..])
    {
      var f := rChunk.value;
      n := Min(p.Length - nw, f.chunk.size - cIdx);
      TakePiece(content, f, cIdx, n);
      CopyInto(p, nw, f.b[cIdx..cIdx + n]);
      assert Fits(chunks, chunkID, contentLen, bufsz);
      cIdx := cIdx + n;
      bytesRead := bytesRead + n;
      if cIdx >= f.chunk.size {
        chunkID := chunkID + 1;
        rChunk := None;
      }
    }

    /** One round of the reading loop. */
    method TakeMore(p: array<byte>, nw: nat, ghost was: seq<byte>, ghost from: nat) returns (n: nat)
      requires Valid() && err.None? && rChunk.Some? && nw < p.Length
      requires Got(content, was, from, p[..], nw) && bytesRead == from + nw
      modifies p, this`rChunk, this`cIdx, this`bytesRead, this`chunkID
      ensures Valid() && nw < n && bytesRead == from + n
      ensures Got(content, was, from, p[..], n)
    {
      var more := Take(p, nw);
      n := nw + more;
      assert p[..n][..nw] == p[..nw] && p[..n][nw..] == p[nw..n];
      ReadOn(p[..n], content, from, nw, more);
      assert old(p[..])[n..] == was[n..] by {
        assert old(p[..])[n..] == old(p[..])[nw..][more..];
      }
    }

    /**
     * Fills `p` with the next bytes of the object. Without failures the result is short only at the end of
     * the object, and then it says so. If a worker gives up, nothing is reported as read.
     */
    method Read(p: array<byte>) returns (n: nat, status: Status)
      requires Valid()
      modifies p, this`rChunk, this`cIdx, this`bytesRead, this`chunkID, this`qWait, this`inbox, this`err
      ensures Valid()
      ensures closed || old(err.Some?) ==> status.Failed? && p[..] == old(p[..]) && bytesRead == old(bytesRead)
      ensures status.Failed? ==> n == 0
      ensures !status.Failed? ==>
                && bytesRead == old(bytesRead) + n && Got(content, old(p[..]), old(bytesRead), p[..], n)
                && (if n < p.Length then status == Eof && bytesRead == contentLen else status == Good)
      ensures !closed && old(err.None? && NoQuit(inbox)) ==> !status.Failed? && err.None? && NoQuit(inbox)
    {
      if closed {
        return 0, Failed(Invalid);
      }
      if err.Some? {
        return 0, Failed(err.value);
      }
      n, status := ReadLoop(p);
    }

    method ReadLoop(p: array<byte>) returns (n: nat, status: Status)
      requires Valid() && err.None?
      modifies p, this`rChunk, this`cIdx, this`bytesRead, this`chunkID, this`qWait, this`inbox, this`err
      ensures Valid()
      ensures status.Failed? ==> n == 0
      ensures !status.Failed? ==>
                && bytesRead == old(bytesRead) + n && Got(content, old(p[..]), old(bytesRead), p[..], n)
                && (if n < p.Length then status == Eof && bytesRead == contentLen else status == Good)
      ensures old(NoQuit(inbox)) ==> !status.Failed? && err.None? && NoQuit(inbox)
    {
      ghost var from, was := bytesRead, p[..];
      n := 0;
      while n < p.Length
        invariant Valid() && err.None? && n <= p.Length
        invariant bytesRead == from + n && Got(content, was, from, p[..], n)
        invariant old(NoQuit(inbox)) ==> NoQuit(inbox)
      {
        status := Progress();
        if status != More {
          return n, status;
        }
        Load();
        if err.Some? {
          return 0, Failed(err.value);
        }
        n := TakeMore(p, n, was, from);
      }
      status := Good;
    }

    /** A worker that gives up sets the error before the reader sees the closed channel. */
    method WorkerGivesUp(error: Error)
      requires Valid()
      modifies this`err
      ensures Valid() && err == Some(error)
    {
      err := Some(error);
    }

    /** Closing succeeds exactly once, and only after the whole object was read without failure. */
    method Close() returns (e: Option<Error>)
      requires Valid()
      modifies this`closed
      ensures Valid() && closed
      ensures e.None? <==> !old(closed) && err.None? && bytesRead == contentLen
    {
      if closed {
        return Some(Invalid);
      }
      closed := true;
      e := if err.Some? then err else if bytesRead != contentLen then Some(Incomplete) else None;
    }
  }

  /** The first n bytes are the object's from `from` on; the others are as they were. */
  ghost predicate Got(content: seq<byte>, was: seq<byte>, from: nat, now: seq<byte>, n: nat) {
    && n <= |now| == |was| && from + n <= |content|
    && now[..n] == content[from..from + n] && now[n..] == was[n..]
  }

  lemma ReadOn(s: seq<byte>, content: seq<byte>, from: nat, n: nat, more: nat)
    requires |s| == n + more && from + n + more <= |content|
    requires s[..n] == content[from..from + n] && s[n..] == content[from + n..from + n + more]
    ensures s == content[from..from + n + more]
  {
    assert s == s[..n] + s[n..];
  }

  lemma TakePiece(content: seq<byte>, f: Fetched, at: nat, n: nat)
    requires f.chunk.size <= |f.b| && f.chunk.start + f.chunk.size <= |content|
    requires f.b[..f.chunk.size] == Piece(content, f.chunk)
    requires at + n <= f.chunk.size
    ensures f.b[at..at + n] == content[f.chunk.start + at..f.chunk.start + at + n]
  {
    SliceOfSlice(f.b, 0, f.chunk.size, at, at + n);
    SliceOfSlice(content, f.chunk.start, f.chunk.start + f.chunk.size, at, at + n);
  }

  /** Reading in pieces of any positive sizes until the end yields the object, whatever the delivery order. */
  method ReadAll(g: Getter, sizes: nat -> nat) returns (all: seq<byte>)
    requires g.Valid() && !g.closed && g.err.None? && NoQuit(g.inbox) && g.bytesRead == 0
    requires forall i :: sizes(i) > 0
    modifies g
    ensures all == g.content && g.Valid() && g.bytesRead == g.contentLen
  {
    all := [];
    var i, status := 0, More;
    while status != Eof
      invariant g.Valid() && !g.closed && g.err.None? && NoQuit(g.inbox)
      invariant all == g.content[..g.bytesRead]
      invariant status == Eof ==> g.bytesRead == g.contentLen
      decreases g.contentLen - g.bytesRead, status != Eof
    {
      var p := new byte[sizes(i)];
      ghost var from := g.bytesRead;
      var n: nat;
      n, status := g.Read(p);
      assert g.content[..from + n] == g.content[..from] + g.content[from..from + n];
      all := all + p[..n];
      i := i + 1;
    }
  }

  // ---------------------------------------------------------------------------------------
  // The workers

  /**
   * The issuer has sent chunks 0 to next - 1 and, when `held`, is about to send the next one; `flight` are
   * with workers, `waiting` are in the reader's map, `lost` those a worker gave up. The reader is at chunk
   * `wanted`, and holds its buffer when `reading`. Giving up closes the quit channel, which panics the second
   * time; the reader stops with the error when it next looks.
   */
  datatype Pool = Pool(
    total: nat, workers: nat, next: nat, held: bool, flight: set<nat>, waiting: set<nat>, lost: set<nat>,
    wanted: nat, reading: bool, closes: nat, stopped: bool)
  {
    /** The first chunk not yet taken from the map. */
    function First(): nat {
      if reading then wanted + 1 else wanted
    }

    predicate Panicked() {
      closes >= 2
    }

    ghost predicate Inv() {
      && First() <= next <= total && (held ==> next < total)
      && (forall id :: id in flight ==> First() <= id < next && id !in waiting && id !in lost)
      && (forall id :: id in waiting ==> First() <= id < next && id !in lost)
      && (forall id :: id in lost ==> First() <= id < next)
      && (forall id :: First() <= id < next ==> id in flight || id in waiting || id in lost)
      && |flight| <= workers
      && |flight| + |waiting| + (if held then 1 else 0) <= workers + Q_WAIT_SIZE
      && closes == |lost|
      && (stopped ==> closes > 0)
    }

    /** Chunks with a buffer: being fetched, waiting, or being read. */
    function Buffers(): nat {
      |flight| + |waiting| + if reading then 1 else 0
    }

    function Work(): nat
      requires next <= total
    {
      5 * (total - next) + (if held then 0 else 1) + 3 * |flight| + 2 * |waiting|
      + (if reading then 1 else 0) + (if stopped then 0 else 1)
    }

    /** The reader is in nextChunk and lacks the chunk it wants. */
    predicate Waits() {
      !reading && !stopped && wanted < total && wanted !in waiting
    }
  }

  datatype Move = Check | Send | Deliver(id: nat) | GiveUp(id: nat) | Take | Finish | Report

  /** Nothing moves after a panic; a worker hands over its chunk only while the reader waits. */
  predicate Enabled(s: Pool, m: Move) {
    && !s.Panicked()
    && match m
       case Check => !s.held && s.next < s.total && |s.waiting| < Q_WAIT_SIZE
       case Send => s.held && |s.flight| < s.workers
       case Deliver(id) => id in s.flight && s.Waits()
       case GiveUp(id) => id in s.flight
       case Take => !s.reading && !s.stopped && s.wanted in s.waiting
       case Finish => s.reading && !s.stopped
       case Report => s.closes > 0 && !s.stopped
  }

  function Moved(s: Pool, m: Move): Pool {
    match m
    case Check => s.(held := true)
    case Send => s.(held := false, next := s.next + 1, flight := s.flight + {s.next})
    case Deliver(id) => s.(flight := s.flight - {id}, waiting := s.waiting + {id})
    case GiveUp(id) => s.(flight := s.flight - {id}, lost := s.lost + {id}, closes := s.closes + 1)
    case Take => s.(waiting := s.waiting - {s.wanted}, reading := true)
    case Finish => s.(reading := false, wanted := s.wanted + 1)
    case Report => s.(stopped := true)
  }

  function Started(total: nat, workers: nat): Pool {
    Pool(total, workers, 0, false, {}, {}, {}, 0, false, 0, false)
  }

  ghost predicate Advances(s: Pool, m: Move) {
    Moved(s, m).Inv() && Moved(s, m).Work() < s.Work()
  }

  lemma IssuerAdvances(s: Pool, m: Move)
    requires s.Inv() && Enabled(s, m) && (m.Check? || m.Send?)
    ensures Advances(s, m)
  {
    if m.Send? {
      assert |s.flight + {s.next}| == |s.flight| + 1;
    }
  }

  lemma DeliverAdvances(s: Pool, id: nat)
    requires s.Inv() && Enabled(s, Deliver(id))
    ensures Advances(s, Deliver(id))
  {
    assert |s.flight - {id}| == |s.flight| - 1;
    assert |s.waiting + {id}| == |s.waiting| + 1;
  }

  lemma GiveUpAdvances(s: Pool, id: nat)
    requires s.Inv() && Enabled(s, GiveUp(id))
    ensures Advances(s, GiveUp(id))
  {
    assert |s.flight - {id}| == |s.flight| - 1;
    assert |s.lost + {id}| == |s.lost| + 1;
  }

  lemma ReaderAdvances(s: Pool, m: Move)
    requires s.Inv() && Enabled(s, m) && (m.Take? || m.Finish? || m.Report?)
    ensures Advances(s, m)
  {
    if m.Take? {
      assert |s.waiting - {s.wanted}| == |s.waiting| - 1;
    }
  }

  /** Every move keeps each chunk in one place and uses up work. */
  lemma MoveKeepsInv(s: Pool, m: Move)
    requires s.Inv() && Enabled(s, m)
    ensures Moved(s, m).Inv() && Moved(s, m).Work() < s.Work()
  {
    match m
    case Deliver(id) => DeliverAdvances(s, id);
    case GiveUp(id) => GiveUpAdvances(s, id);
    case Check => IssuerAdvances(s, m);
    case Send => IssuerAdvances(s, m);
    case _ => ReaderAdvances(s, m);
  }

  /** While chunks are missing some move is possible: the wanted chunk is read, waits, is in flight, lost, or next. */
  lemma NeverStuck(s: Pool)
    requires s.Inv() && s.workers > 0 && s.wanted < s.total && !s.stopped && !s.Panicked()
    ensures exists m :: Enabled(s, m)
  {
    if s.reading {
      assert Enabled(s, Finish);
    } else if s.wanted in s.waiting {
      assert Enabled(s, Take);
    } else if s.wanted in s.flight {
      assert Enabled(s, Deliver(s.wanted));
    } else if s.wanted in s.lost {
      assert Enabled(s, Report);
    } else {
      assert s.next == s.wanted;
      assert s.flight == {} && s.waiting == {};
      assert Enabled(s, if s.held then Send else Check);
    }
  }

  ghost predicate Runs(s: Pool, moves: seq<Move>)
    decreases |moves|
  {
    moves == [] || (Enabled(s, moves[0]) && Runs(Moved(s, moves[0]), moves[1..]))
  }

  ghost function RunTo(s: Pool, moves: seq<Move>): Pool
    requires Runs(s, moves)
    decreases |moves|
  {
    if moves == [] then s else RunTo(Moved(s, moves[0]), moves[1..])
  }

  function GiveUps(moves: seq<Move>): nat {
    if moves == [] then 0 else (if moves[0].GiveUp? then 1 else 0) + GiveUps(moves[1..])
  }

  lemma {:induction false} RunKeepsInv(s: Pool, moves: seq<Move>)
    requires s.Inv() && Runs(s, moves)
    ensures RunTo(s, moves).Inv() && |moves| + RunTo(s, moves).Work() <= s.Work()
    ensures RunTo(s, moves).total == s.total && RunTo(s, moves).workers == s.workers
    ensures RunTo(s, moves).closes == s.closes + GiveUps(moves)
    decreases |moves|
  {
    if moves != [] {
      MoveKeepsInv(s, moves[0]);
      RunKeepsInv(Moved(s, moves[0]), moves[1..]);
    }
  }

  /**
   * However the moves interleave, a run takes at most 5 total + 2 of them, with at most workers + 3 chunks in
   * memory. It panics exactly when two chunks are given up. Otherwise it can only end with every chunk read if
   * none was given up, and with the error reported if one was.
   */
  lemma EveryRunFinishes(total: nat, workers: nat, moves: seq<Move>)
    requires workers > 0 && Runs(Started(total, workers), moves)
    ensures |moves| <= 5 * total + 2
    ensures var s := RunTo(Started(total, workers), moves);
            && s.Buffers() <= workers + 3
            && (s.Panicked() <==> GiveUps(moves) >= 2)
            && ((forall m :: !Enabled(s, m)) && !s.Panicked() ==>
                  if GiveUps(moves) == 0 then s.wanted == total && !s.stopped else s.stopped && s.wanted < total)
  {
    RunKeepsInv(Started(total, workers), moves);
    var s := RunTo(Started(total, workers), moves);
    if s.wanted < total && !s.stopped && !s.Panicked() {
      NeverStuck(s);
    }
    if s.closes > 0 {
      var id :| id in s.lost;
    }
  }

  lemma {:induction false} Below(s: set<nat>, n: nat)
    requires forall id :: id in s ==> id < n
    ensures |s| <= n
    decreases n
  {
    if n > 0 {
      var rest := s - {n - 1};
      Below(rest, n - 1);
      assert s <= rest + {n - 1};
      Smaller(s, rest + {n - 1});
    } else {
      assert s == {};
    }
  }

  lemma {:induction false} Smaller(a: set<nat>, b: set<nat>)
    requires a <= b
    ensures |a| <= |b|
    decreases a
  {
    if a != {} {
      var x :| x in a;
      Smaller(a - {x}, b - {x});
    }
  }

  /** A chunk is sent and given up. */
  lemma SentAndGivenUp(s: Pool) returns (moves: seq<Move>)
    requires s.workers > 0 && s.next < s.total && !s.held && s.flight == {} && s.waiting == {} && !s.Panicked()
    ensures Runs(s, moves)
    ensures RunTo(s, moves) == s.(next := s.next + 1, lost := s.lost + {s.next}, closes := s.closes + 1)
  {
    moves := [Check, Send, GiveUp(s.next)];
    var s1 := Moved(s, Check);
    var s2 := Moved(s1, Send);
    var s3 := Moved(s2, GiveUp(s.next));
    assert moves[1..] == [Send, GiveUp(s.next)] && moves[1..][1..] == [GiveUp(s.next)] && moves[1..][1..][1..] == [];
    assert Runs(s3, []) && Runs(s2, [GiveUp(s.next)]) && Runs(s1, moves[1..]);
    assert RunTo(s, moves) == RunTo(s1, moves[1..]) == RunTo(s2, [GiveUp(s.next)]) == RunTo(s3, []) == s3;
    assert s2.flight - {s.next} == {};
  }

  lemma {:induction false} RunsOn(s: Pool, a: seq<Move>, b: seq<Move>)
    requires Runs(s, a) && Runs(RunTo(s, a), b)
    ensures Runs(s, a + b) && RunTo(s, a + b) == RunTo(RunTo(s, a), b)
    decreases |a|
  {
    if a == [] {
      assert a + b == b;
    } else {
      assert (a + b)[1..] == a[1..] + b;
      RunsOn(Moved(s, a[0]), a[1..], b);
    }
  }

  /** A run of a fresh download that ends in a panic. */
  ghost predicate Panics(total: nat, workers: nat, moves: seq<Move>) {
    Runs(Started(total, workers), moves) && RunTo(Started(total, workers), moves).Panicked()
  }

  /** A worker that gives up goes on with the next chunk, so one is enough to close the channel twice. */
  lemma GivesUpTwice(total: nat, workers: nat) returns (moves: seq<Move>)
    requires workers > 0 && total >= 2
    ensures Panics(total, workers, moves)
  {
    var s := Started(total, workers);
    var first := SentAndGivenUp(s);
    var second := SentAndGivenUp(RunTo(s, first));
    RunsOn(s, first, second);
    moves := first + second;
  }

  /** A download can panic exactly when its object has two chunks or more, whatever the number of workers. */
  lemma PanicReachableIff(total: nat, workers: nat)
    requires workers > 0
    ensures (exists moves :: Panics(total, workers, moves)) <==> total >= 2
  {
    if total >= 2 {
      var moves := GivesUpTwice(total, workers);
    } else {
      forall moves | Runs(Started(total, workers), moves)
        ensures !Panics(total, workers, moves)
      {
        RunKeepsInv(Started(total, workers), moves);
        Below(RunTo(Started(total, workers), moves).lost, total);
      }
    }
  }
}
