/** The driver's read buffer: one array, compacted and grown in place, that hands out slices of itself. */
module ReadBuffer {
  import opened Common

  const DEFAULT_BUF_SIZE := 4096
  const MAX_PACKET_SIZE := 0xff_ffff

  datatype IOError = NoError | EOF | OtherError

  /** What one Read call does: how many bytes it would deliver, and the error it returns with them. */
  datatype Reading = Reading(size: nat, err: IOError)

  /**
   * A network connection delivering `data` in pieces of any size. `script` says what the coming calls do;
   * after it every call returns EOF. Read may return bytes together with an error.
   */
  class Reader {
    const data: seq<byte>
    var pos: nat
    var script: seq<Reading>
    /** Some call returned an error; some call returned an error other than EOF. */
    var failed: bool
    var broken: bool

    ghost predicate Valid()
      reads this
    {
      pos <= |data| && (broken ==> failed)
    }

    constructor (data: seq<byte>, script: seq<Reading>)
      ensures Valid() && pos == 0 && this.data == data && !failed && !broken
    {
      this.data, this.script, pos, failed, broken := data, script, 0, false, false;
    }

    method Read(p: array<byte>, off: nat) returns (n: nat, err: IOError)
      requires Valid() && off <= p.Length
      modifies this, p
      ensures Valid() && pos == old(pos) + n && off + n <= p.Length
      ensures p[..] == old(p[..off]) + data[old(pos)..pos] + old(p[off + n..])
      ensures failed == (old(failed) || err != NoError) && broken == (old(broken) || err == OtherError)
      ensures err == NoError ==> |script| < |old(script)|
    {
      var next := if script == [] then Reading(0, EOF) else script[0];
      script := if script == [] then [] else script[1..];
      n := Min(next.size, Min(p.Length - off, |data| - pos));
      err := next.err;
      forall i | 0 <= i < n {
        p[off + i] := data[pos + i];
      }
      pos := pos + n;
      failed := failed || err != NoError;
      broken := broken || err == OtherError;
    }
  }

  datatype Slice = Slice(arr: array<byte>, lo: nat, hi: nat)
  {
    ghost predicate InBounds() {
      lo <= hi <= arr.Length
    }

    ghost function Bytes(): seq<byte>
      requires InBounds()
      reads arr
    {
      arr[lo..hi]
    }
  }

  lemma OneMore(data: seq<byte>, from: nat, t: nat, to: nat, chunks: seq<seq<byte>>, chunk: seq<byte>)
    requires from <= t <= to <= |data| && Concat(chunks) == data[from..t] && chunk == data[t..to]
    ensures Concat(chunks + [chunk]) == data[from..to]
  {
    ConcatSnoc(chunks, chunk);
  }

  class Buffer {
    var buf: array<byte>
    const rd: Reader
    var idx: nat
    var length: nat
    /** How much of the stream has been handed out. */
    ghost var taken: nat

    ghost predicate InBounds()
      reads this
    {
      idx + length <= buf.Length && DEFAULT_BUF_SIZE <= buf.Length
    }

    /** The unread part of the array is what the reader has delivered and nobody has taken. */
    ghost predicate Valid()
      reads this, rd, buf
    {
      && InBounds()
      && rd.Valid()
      && rd.pos == taken + length
      && buf[idx..idx + length] == rd.data[taken..rd.pos]
    }

    constructor (rd: Reader)
      requires rd.Valid()
      ensures Valid() && this.rd == rd && taken == rd.pos && length == 0 && fresh(buf)
    {
      buf := new byte[DEFAULT_BUF_SIZE];
      this.rd, idx, length, taken := rd, 0, 0, rd.pos;
    }

    /** Moves the unread bytes to the front. */
    method Compact()
      requires Valid()
      modifies this`idx, buf
      ensures Valid() && idx == 0
    {
      ghost var unread := buf[idx..idx + length];
      if length > 0 && idx > 0 {
        forall i | 0 <= i < length {
          buf[i] := buf[idx + i];
        }
      }
      idx := 0;
      assert buf[..length] == unread;
    }

    /** Moves to a larger array if `need` bytes do not fit. */
    method Grow(need: nat)
      requires Valid() && idx == 0
      modifies this`buf
      ensures Valid() && need <= buf.Length
      ensures buf == old(buf) || fresh(buf)
    {
      if need > buf.Length {
        var newBuf := new byte[(need / DEFAULT_BUF_SIZE + 1) * DEFAULT_BUF_SIZE];
        forall i | 0 <= i < buf.Length {
          newBuf[i] := buf[i];
        }
        assert newBuf[..length] == buf[..length];
        buf := newBuf;
      }
    }

    /** The first n bytes of the array are the ones delivered and not taken. */
    ghost predicate Holds(n: nat)
      reads this, rd, buf
    {
      n <= buf.Length && rd.Valid() && rd.pos == taken + n && buf[..n] == rd.data[taken..rd.pos]
    }

    method ReadMore(n: nat) returns (n': nat, err: IOError)
      requires Holds(n)
      modifies rd, buf
      ensures Holds(n')
      ensures rd.failed == (old(rd.failed) || err != NoError) && rd.broken == (old(rd.broken) || err == OtherError)
      ensures err == NoError ==> |rd.script| < |old(rd.script)|
    {
      ghost var before, p0 := buf[..n], rd.pos;
      var nn;
      nn, err := rd.Read(buf, n);
      n' := n + nn;
      assert buf[..n'] == before + rd.data[p0..rd.pos];
    }

    method Fill(need: nat) returns (err: IOError)
      requires Valid()
      modifies this, rd, buf
      ensures InBounds() && taken == old(taken)
      ensures buf == old(buf) || fresh(buf)
      ensures err == NoError ==> Valid() && length >= need
      ensures err != NoError ==> rd.failed && (rd.broken || rd.pos < taken + need)
      ensures (old(rd.failed) ==> rd.failed) && (old(rd.broken) ==> rd.broken)
    {
      Compact();
      Grow(need);
      var n: nat := length;
      while true
        invariant buf == old(buf) || fresh(buf)
        invariant idx == 0 && taken == old(taken) && length <= buf.Length
        invariant DEFAULT_BUF_SIZE <= buf.Length
        invariant Holds(n)
        invariant (old(rd.failed) ==> rd.failed) && (old(rd.broken) ==> rd.broken)
        decreases |rd.script|
      {
        n, err := ReadMore(n);
        match err
        case NoError =>
          if n >= need {
            length := n;
            return NoError;
          }
        case EOF =>
          if n >= need {
            length := n;
            return NoError;
          }
          return EOF;
        case OtherError =>
          return OtherError;
      }
    }

    /**
     * The next `need` bytes of the stream, as a slice of the array. It fails only after a reader error, and
     * if that is EOF only when too few bytes were delivered.
     */
    method ReadNext(need: nat) returns (r: Option<Slice>)
      requires Valid()
      modifies this, rd, buf
      ensures InBounds()
      ensures buf == old(buf) || fresh(buf)
      ensures (old(rd.failed) ==> rd.failed) && (old(rd.broken) ==> rd.broken)
      ensures old(length) >= need ==> r.Some? && buf == old(buf) && buf[..] == old(buf[..]) && rd.pos == old(rd.pos)
      ensures r.None? ==> rd.failed && taken == old(taken) && (rd.broken || rd.pos < taken + need)
      ensures r.Some? ==>
                && Valid()
                && taken == old(taken) + need <= |rd.data|
                && r.value.arr == buf && r.value.InBounds()
                && r.value.Bytes() == rd.data[old(taken)..taken]
    {
      if length < need {
        var err := Fill(need);
        if err != NoError {
          return None;
        }
      }
      var s := Advance(need);
      r := Some(s);
    }

    method Advance(need: nat) returns (s: Slice)
      requires Valid() && need <= length
      modifies this`idx, this`length, this`taken
      ensures Valid() && taken == old(taken) + need
      ensures s.arr == buf && s.InBounds() && s.Bytes() == rd.data[old(taken)..taken]
    {
      var offset := idx;
      ghost var unread := buf[idx..idx + length];
      idx := idx + need;
      length := length - need;
      taken := taken + need;
      assert buf[offset..idx] == unread[..need];
      assert buf[idx..idx + length] == unread[need..];
      s := Slice(buf, offset, idx);
    }

    /** A scratch slice, refused while unread bytes remain; large requests do not replace the array. */
    method TakeBuffer(size: nat) returns (r: Option<Slice>)
      requires Valid()
      modifies this`buf
      ensures Valid() && length == old(length) && taken == old(taken)
      ensures r.None? <==> length > 0
      ensures r.Some? ==> r.value.lo == 0 && r.value.hi == size && r.value.InBounds()
      ensures r.Some? ==> r.value.arr == buf || size >= MAX_PACKET_SIZE
      ensures buf == old(buf) || fresh(buf)
    {
      if length > 0 {
        return None;
      }
      if size <= DEFAULT_BUF_SIZE || size <= buf.Length {
        return Some(Slice(buf, 0, size));
      }
      if size < MAX_PACKET_SIZE {
        buf := new byte[size];
        return Some(Slice(buf, 0, size));
      }
      var big := new byte[size];
      r := Some(Slice(big, 0, size));
    }

    /**
     * Any sequence of reads: the slices handed out, as they are when handed out, make up the stream from
     * where it stood, whatever sizes the reader delivers and however the array is compacted or replaced.
     */
    method ReadAll(needs: seq<nat>) returns (chunks: seq<seq<byte>>)
      requires Valid()
      modifies this, rd, buf
      ensures InBounds()
      ensures taken <= |rd.data| && old(taken) <= taken
      ensures Concat(chunks) == rd.data[old(taken)..taken]
      ensures |chunks| <= |needs| && forall i :: 0 <= i < |chunks| ==> |chunks[i]| == needs[i]
      ensures |chunks| < |needs| ==> rd.failed
    {
      chunks := [];
      var i := 0;
      while i < |needs|
        invariant 0 <= i <= |needs| && |chunks| == i
        invariant Valid() && old(taken) <= taken
        invariant buf == old(buf) || fresh(buf)
        invariant Concat(chunks) == rd.data[old(taken)..taken]
        invariant forall j :: 0 <= j < i ==> |chunks[j]| == needs[j]
      {
        ghost var t := taken;
        var r := ReadNext(needs[i]);
        if r.None? {
          return;
        }
        var s := r.value;
        ghost var before := chunks;
        chunks := chunks + [s.arr[s.lo..s.hi]];
        OneMore(rd.data, old(taken), t, taken, before, chunks[i]);
        i := i + 1;
      }
    }
  }
}
