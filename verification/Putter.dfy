/**
 * The multipart upload: a stream of writes is cut into numbered parts, whose size may double every 2000
 * parts so that the largest object fits into 10000 of them.
 */
module Putter {
  import opened Common

  const MIN_PART_SIZE: nat := 5 * 1024 * 1024
  const MAX_PART_SIZE: nat := 5 * 1024 * 1024 * 1024
  const MAX_OBJECT_SIZE: nat := 5 * 1024 * 1024 * 1024 * 1024
  const MAX_PARTS: nat := 10000

  // ---------------------------------------------------------------------------------------
  // Part sizes

  /** Integer division as in Go, truncating toward zero. */
  function Quotient(a: int, b: int): int
    requires b > 0
  {
    if a >= 0 then a / b else -(-a / b)
  }

  predicate GrowPartSize(part: nat, size: nat, put: nat)
    requires part < MAX_PARTS
  {
    Quotient(MAX_OBJECT_SIZE - put, MAX_PARTS - part) > size
  }

  lemma FloorAbove(left: nat, d: nat, size: nat)
    requires d > 0
    ensures left / d > size <==> left >= size * d + d
  {
    var q := left / d;
    assert q * d <= left < q * d + d;
    if q > size {
      Ordered(size + 1, q, d);
    } else {
      Ordered(q, size, d);
    }
  }

  lemma NegativeQuotient(left: int, d: nat)
    requires left < 0 < d
    ensures Quotient(left, d) <= 0
  {
  }

  lemma QuotientAbove(left: int, d: nat, size: nat)
    requires d > 0
    ensures Quotient(left, d) > size <==> left >= size * d + d
  {
    if left >= 0 {
      FloorAbove(left, d, size);
    } else {
      NegativeQuotient(left, d);
      Ordered(0, size, d);
    }
  }

  /** The part size grows exactly when a byte more in each remaining part would still be needed. */
  lemma GrowsIff(part: nat, size: nat, put: nat)
    requires part < MAX_PARTS
    ensures GrowPartSize(part, size, put) <==>
            MAX_OBJECT_SIZE - put >= size * (MAX_PARTS - part) + (MAX_PARTS - part)
  {
    QuotientAbove(MAX_OBJECT_SIZE - put, MAX_PARTS - part, size);
  }

  /**
   * Growth is refused although the remaining parts are too small exactly when the size is the rounded-down
   * quotient and the division is not exact.
   */
  lemma RefusedThoughShortIff(part: nat, size: nat, put: nat)
    requires part < MAX_PARTS && put <= MAX_OBJECT_SIZE
    ensures var left, parts := MAX_OBJECT_SIZE - put, MAX_PARTS - part;
            !GrowPartSize(part, size, put) && size * parts < left <==> left / parts == size && left % parts != 0
  {
    GrowsIff(part, size, put);
    Inexact(MAX_OBJECT_SIZE - put, MAX_PARTS - part, size);
  }

  lemma Inexact(left: nat, d: nat, size: nat)
    requires d > 0
    ensures size * d < left < size * d + d <==> left / d == size && left % d != 0
  {
    if size * d < left < size * d + d {
      assert (size + 1) * d == size * d + d;
      QuotientIs(left, d, size);
    }
  }

  /** After some number of full parts: the size of the next one, and the bytes put so far. */
  datatype Progress = Progress(size: nat, put: nat)

  /** The size of the parts after a flush, from the parts and bytes put. */
  type Rule = (nat, nat, nat) -> nat

  function AfterFlush(part: nat, size: nat, put: nat): nat {
    if part % 2000 == 0 && part < MAX_PARTS && GrowPartSize(part, size, put) then Min(2 * size, MAX_PART_SIZE) else size
  }

  function Filled(resize: Rule, first: nat, parts: nat): Progress {
    if parts == 0 then Progress(first, 0)
    else
      var before := Filled(resize, first, parts - 1);
      var put := before.put + before.size;
      Progress(resize(parts, before.size, put), put)
  }

  ghost predicate OnlyAtCheckpoints(resize: Rule) {
    forall part, size, put :: part % 2000 != 0 ==> resize(part, size, put) == size
  }

  function Times(j: nat, size: nat): nat {
    if j == 0 then 0 else Times(j - 1, size) + size
  }

  lemma {:induction false} TimesIs(j: nat, size: nat)
    ensures Times(j, size) == j * size
  {
    if j > 0 {
      TimesIs(j - 1, size);
    }
  }

  lemma BetweenCheckpoints(n: nat, j: nat)
    requires n % 2000 == 0 && 0 < j < 2000
    ensures (n + j) % 2000 != 0
  {
  }

  lemma {:induction false} Stretch(resize: Rule, first: nat, n: nat, j: nat)
    requires OnlyAtCheckpoints(resize) && n % 2000 == 0 && j < 2000
    ensures var here := Filled(resize, first, n);
            Filled(resize, first, n + j) == Progress(here.size, here.put + Times(j, here.size))
  {
    if j > 0 {
      Stretch(resize, first, n, j - 1);
      BetweenCheckpoints(n, j);
    }
  }

  /** From one checkpoint to the next, at part n. */
  predicate Leap(resize: Rule, n: nat, before: Progress, after: Progress) {
    var put := before.put + 2000 * before.size;
    after == Progress(resize(n, before.size, put), put)
  }

  lemma NextCheckpoint(resize: Rule, first: nat, n: nat)
    requires OnlyAtCheckpoints(resize) && n % 2000 == 0
    ensures Leap(resize, n + 2000, Filled(resize, first, n), Filled(resize, first, n + 2000))
  {
    Stretch(resize, first, n, 1999);
    TimesIs(1999, Filled(resize, first, n).size);
  }

  /** What a checkpoint decides when so many parts remain, without division. */
  predicate Decides(remaining: nat, before: Progress, after: Progress) {
    && after.put == before.put + 2000 * before.size
    && after.size == if MAX_OBJECT_SIZE - after.put >= before.size * remaining + remaining
                     then Min(2 * before.size, MAX_PART_SIZE) else before.size
  }

  lemma FlushDecides(n: nat, before: Progress)
    requires n % 2000 == 0 && n < MAX_PARTS
    ensures var put := before.put + 2000 * before.size;
            Decides(MAX_PARTS - n, before, Progress(AfterFlush(n, before.size, put), put))
  {
    GrowsIff(n, before.size, before.put + 2000 * before.size);
  }

  lemma FiveStretches(first: nat, a: Progress, b: Progress, c: Progress, d: Progress, put: nat)
    requires first <= MAX_PART_SIZE
    requires Decides(8000, Progress(first, 0), a) && Decides(6000, a, b)
    requires Decides(4000, b, c) && Decides(2000, c, d)
    requires put == d.put + 2000 * d.size
    ensures put >= MAX_OBJECT_SIZE <==> 62000 * first >= MAX_OBJECT_SIZE
  {
  }

  /** Growth refused with so many parts remaining, and what these can hold. */
  predicate Suffices(remaining: nat, before: Progress, after: Progress) {
    MAX_OBJECT_SIZE - after.put < before.size * remaining + remaining ==>
      before.size * remaining >= MAX_OBJECT_SIZE - after.put
  }

  lemma FourSuffice(first: nat, a: Progress, b: Progress, c: Progress, d: Progress)
    requires Decides(8000, Progress(first, 0), a) && Decides(6000, a, b)
    requires Decides(4000, b, c) && Decides(2000, c, d)
    ensures Suffices(8000, Progress(first, 0), a) && Suffices(6000, a, b)
    ensures Suffices(4000, b, c) && Suffices(2000, c, d)
  {
  }

  /** The size and the bytes put after every number of parts. */
  type Plan = nat -> Progress

  function PlanFrom(first: nat): Plan {
    (n: nat) => Filled(AfterFlush, first, n)
  }

  lemma PlanLeaps(first: nat, n: nat)
    requires n % 2000 == 0
    ensures var plan := PlanFrom(first);
            Leap(AfterFlush, n + 2000, plan(n), plan(n + 2000)) && plan(n + 1999).size == plan(n).size
  {
    NextCheckpoint(AfterFlush, first, n);
    Stretch(AfterFlush, first, n, 1999);
  }

  /** The checkpoint at part n + 2000 decides without division. */
  ghost predicate DecidesAt(plan: Plan, n: nat)
    requires n + 2000 < MAX_PARTS
  {
    Decides(MAX_PARTS - (n + 2000), plan(n), plan(n + 2000)) && plan(n + 1999).size == plan(n).size
  }

  ghost predicate AllDecided(plan: Plan) {
    forall n :: n % 2000 == 0 && 0 <= n && n + 2000 < MAX_PARTS ==> DecidesAt(plan, n)
  }

  lemma PlanDecides(first: nat, n: nat)
    requires n % 2000 == 0 && n + 2000 < MAX_PARTS
    ensures DecidesAt(PlanFrom(first), n)
  {
    PlanLeaps(first, n);
    FlushDecides(n + 2000, PlanFrom(first)(n));
  }

  lemma PlanAllDecided(first: nat)
    ensures AllDecided(PlanFrom(first)) && PlanFrom(first)(0) == Progress(first, 0)
  {
    var plan := PlanFrom(first);
    forall n | n % 2000 == 0 && 0 <= n && n + 2000 < MAX_PARTS
      ensures DecidesAt(plan, n)
    {
      PlanDecides(first, n);
    }
  }

  lemma PlanHoldsIff(plan: Plan, first: nat)
    requires first <= MAX_PART_SIZE && plan(0) == Progress(first, 0) && AllDecided(plan)
    requires plan(MAX_PARTS).put == plan(8000).put + 2000 * plan(8000).size
    ensures plan(MAX_PARTS).put >= MAX_OBJECT_SIZE <==> 62000 * first >= MAX_OBJECT_SIZE
  {
    assert DecidesAt(plan, 0) && DecidesAt(plan, 2000) && DecidesAt(plan, 4000) && DecidesAt(plan, 6000);
    FiveStretches(first, plan(2000), plan(4000), plan(6000), plan(8000), plan(MAX_PARTS).put);
  }

  /** Ten thousand full parts hold the largest object exactly when the first size is at least a 62000th of it. */
  lemma LargestObjectFitsIff(first: nat)
    requires first <= MAX_PART_SIZE
    ensures PlanFrom(first)(MAX_PARTS).put >= MAX_OBJECT_SIZE <==> 62000 * first >= MAX_OBJECT_SIZE
  {
    PlanAllDecided(first);
    PlanLeaps(first, 8000);
    PlanHoldsIff(PlanFrom(first), first);
  }

  // ---------------------------------------------------------------------------------------
  // Parts

  datatype Part = Part(number: nat, data: seq<byte>)

  /** The object the service assembles from the parts, in order. */
  function Joined(parts: seq<Part>): seq<byte> {
    if parts == [] then [] else Joined(parts[..|parts| - 1]) + parts[|parts| - 1].data
  }

  lemma JoinedSnoc(parts: seq<Part>, part: Part)
    ensures Joined(parts + [part]) == Joined(parts) + part.data
  {
    assert (parts + [part])[..|parts|] == parts;
  }

  /** Numbered from one, and the first n of the planned sizes. */
  ghost predicate Laid(plan: Plan, parts: seq<Part>, n: nat) {
    && n <= |parts|
    && (forall i :: 0 <= i < |parts| ==> parts[i].number == i + 1)
    && (forall i :: 0 <= i < n ==> |parts[i].data| == plan(i).size)
  }

  /** What the plan says after part n + 1. */
  ghost predicate Follows(resize: Rule, plan: Plan, n: nat) {
    var put := plan(n).put + plan(n).size;
    plan(n + 1) == Progress(resize(n + 1, plan(n).size, put), put)
  }

  ghost predicate Planned(resize: Rule, plan: Plan) {
    && plan(0).put == 0
    && (forall n :: Follows(resize, plan, n))
    && (forall n :: plan(n).size > 0)
  }

  /** So no part but the last is below the service's minimum. */
  lemma {:induction false} SizeAtLeast(first: nat, n: nat)
    ensures Filled(AfterFlush, first, n).size >= Min(first, MAX_PART_SIZE)
  {
    if n > 0 {
      SizeAtLeast(first, n - 1);
    }
  }

  lemma PlanFromPlanned(first: nat)
    requires first > 0
    ensures Planned(AfterFlush, PlanFrom(first))
  {
    var plan := PlanFrom(first);
    forall n: nat
      ensures Follows(AfterFlush, plan, n)
    {
    }
    forall n: nat
      ensures plan(n).size > 0
    {
      SizeAtLeast(first, n);
    }
  }

  lemma {:induction false} LaidPut(resize: Rule, plan: Plan, parts: seq<Part>, n: nat)
    requires Planned(resize, plan) && Laid(plan, parts, n)
    ensures |Joined(parts[..n])| == plan(n).put
  {
    if n > 0 {
      LaidPut(resize, plan, parts, n - 1);
      assert Follows(resize, plan, n - 1);
      assert parts[..n][..n - 1] == parts[..n - 1];
    }
  }

  lemma {:induction false} JoinedKeeps(parts: seq<Part>, n: nat)
    requires n <= |parts|
    ensures |Joined(parts[..n])| <= |Joined(parts)|
  {
    if n < |parts| {
      var last := |parts| - 1;
      JoinedKeeps(parts[..last], n);
      assert parts[..last][..n] == parts[..n];
    } else {
      assert parts[..n] == parts;
    }
  }

  lemma JoinedGrows(parts: seq<Part>, n: nat)
    requires n < |parts| && parts[|parts| - 1].data != []
    ensures |Joined(parts[..n])| < |Joined(parts)|
  {
    var last := |parts| - 1;
    JoinedKeeps(parts[..last], n);
    assert parts[..last][..n] == parts[..n];
  }

  /** How a finished upload is cut: every part but the last is full, and the last is empty only for no bytes. */
  ghost predicate Cut(plan: Plan, parts: seq<Part>) {
    && parts != [] && Laid(plan, parts, |parts| - 1)
    && var last := |parts| - 1;
       && |parts[last].data| <= plan(last).size
       && (parts[last].data == [] ==> last == 0)
  }

  lemma {:induction false} PutGrows(resize: Rule, plan: Plan, m: nat, n: nat)
    requires Planned(resize, plan) && m <= n
    ensures plan(m).put <= plan(n).put
  {
    if m < n {
      PutGrows(resize, plan, m, n - 1);
      assert Follows(resize, plan, n - 1);
    }
  }

  /** An object of at most the largest size takes at most 10000 parts, if the first size is large enough. */
  lemma PartLimitKept(first: nat, parts: seq<Part>)
    requires Cut(PlanFrom(first), parts) && |Joined(parts)| <= MAX_OBJECT_SIZE
    requires first <= MAX_PART_SIZE && 62000 * first >= MAX_OBJECT_SIZE
    ensures |parts| <= MAX_PARTS
  {
    if |parts| > MAX_PARTS {
      PlanFromPlanned(first);
      LaidPut(AfterFlush, PlanFrom(first), parts, MAX_PARTS);
      LargestObjectFitsIff(first);
      JoinedGrows(parts, MAX_PARTS);
    }
  }

  /** With a smaller first size, the largest object takes more. */
  lemma PartLimitBroken(first: nat, parts: seq<Part>)
    requires Cut(PlanFrom(first), parts) && |Joined(parts)| >= MAX_OBJECT_SIZE
    requires 0 < first <= MAX_PART_SIZE && 62000 * first < MAX_OBJECT_SIZE
    ensures |parts| > MAX_PARTS
  {
    var plan, last := PlanFrom(first), |parts| - 1;
    PlanFromPlanned(first);
    LaidPut(AfterFlush, plan, parts, last);
    assert Follows(AfterFlush, plan, last);
    LargestObjectFitsIff(first);
    if |parts| <= MAX_PARTS {
      PutGrows(AfterFlush, plan, |parts|, MAX_PARTS);
    }
  }

  /** A full part more. */
  lemma NextLaid(resize: Rule, plan: Plan, parts: seq<Part>, data: seq<byte>)
    requires Planned(resize, plan) && Laid(plan, parts, |parts|) && |data| == plan(|parts|).size
    ensures var n := |parts| + 1;
            var put := plan(n - 1).put + plan(n - 1).size;
            && Laid(plan, parts + [Part(n, data)], n)
            && plan(n) == Progress(resize(n, plan(n - 1).size, put), put)
  {
    assert Follows(resize, plan, |parts|);
  }

  /** If growth is refused after full part n, the remaining parts hold the rest of the largest object. */
  ghost predicate RefusedSafely(plan: Plan, n: nat)
    requires 0 < n < MAX_PARTS
  {
    !GrowPartSize(n, plan(n - 1).size, plan(n).put) ==>
      plan(n - 1).size * (MAX_PARTS - n) >= MAX_OBJECT_SIZE - plan(n).put
  }

  lemma RefusedSafelyAt(plan: Plan, n: nat)
    requires 2000 <= n < MAX_PARTS && plan(n - 1).size == plan(n - 2000).size
    requires Suffices(MAX_PARTS - n, plan(n - 2000), plan(n))
    ensures RefusedSafely(plan, n)
  {
    GrowsIff(n, plan(n - 1).size, plan(n).put);
  }

  lemma PlanRefusesSafely(plan: Plan, first: nat, n: nat)
    requires n % 2000 == 0 && 0 < n < MAX_PARTS
    requires plan(0) == Progress(first, 0) && AllDecided(plan)
    ensures RefusedSafely(plan, n)
  {
    assert DecidesAt(plan, 0) && DecidesAt(plan, 2000) && DecidesAt(plan, 4000) && DecidesAt(plan, 6000);
    FourSuffice(first, plan(2000), plan(4000), plan(6000), plan(8000));
    assert n == 2000 || n == 4000 || n == 6000 || n == 8000;
    RefusedSafelyAt(plan, n);
  }

  /** For every first size, growth is refused between full parts only when the remaining parts suffice. */
  lemma RefusalBetweenPartsIsSafe(first: nat, n: nat)
    requires n % 2000 == 0 && 0 < n < MAX_PARTS
    ensures RefusedSafely(PlanFrom(first), n)
  {
    PlanAllDecided(first);
    PlanRefusesSafely(PlanFrom(first), first, n);
  }

  // An upload whose closing part is number 2000 and one byte too short for the quotient.
  const SHORT_FIRST := 549755814
  const SHORT_LAST := 549754693

  function ShortUpload(): seq<Part> {
    seq(2000, i requires 0 <= i < 2000 =>
          Part(i + 1, seq(if i < 1999 then SHORT_FIRST else SHORT_LAST, j => 0)))
  }

  /** On the closing flush of a partial part, after which none follows, growth can be refused though parts are short. */
  lemma ClosingFlushRefuses()
    ensures var parts, put := ShortUpload(), |Joined(ShortUpload())|;
            && Cut(PlanFrom(SHORT_FIRST), parts) && |parts| == 2000
            && !GrowPartSize(|parts|, SHORT_FIRST, put) && SHORT_FIRST * (MAX_PARTS - |parts|) < MAX_OBJECT_SIZE - put
  {
    var parts, plan := ShortUpload(), PlanFrom(SHORT_FIRST);
    forall i | 0 <= i < 2000
      ensures plan(i) == Progress(SHORT_FIRST, i * SHORT_FIRST)
    {
      Stretch(AfterFlush, SHORT_FIRST, 0, i);
      TimesIs(i, SHORT_FIRST);
    }
    assert Cut(plan, parts);
    PlanFromPlanned(SHORT_FIRST);
    LaidPut(AfterFlush, plan, parts, 1999);
    assert |Joined(parts)| == 1999 * SHORT_FIRST + SHORT_LAST;
    GrowsIff(2000, SHORT_FIRST, |Joined(parts)|);
  }

  lemma LastIsCut(plan: Plan, parts: seq<Part>, data: seq<byte>)
    requires Laid(plan, parts, |parts|) && |data| <= plan(|parts|).size && (data != [] || parts == [])
    ensures Cut(plan, parts + [Part(|parts| + 1, data)])
  {
  }

  lemma FullIsCut(plan: Plan, parts: seq<Part>)
    requires Laid(plan, parts, |parts|) && parts != [] && plan(|parts| - 1).size > 0
    ensures Cut(plan, parts)
  {
  }

  lemma WrittenOn(was: seq<byte>, b: seq<byte>, n: nat, more: nat)
    requires n + more <= |b|
    ensures (was + b[..n]) + b[n..][..more] == was + b[..n + more]
  {
  }

  // ---------------------------------------------------------------------------------------
  // The putter

  class Putter {
    const resize: Rule
    ghost const plan: Plan
    var bufsz: nat
    var buf: array?<byte>
    var bufbytes: nat
    var part: nat
    var parts: seq<Part>
    var putsz: nat
    var closed: bool
    var err: bool

    ghost predicate Sent()
      reads this`part, this`parts, this`putsz, this`bufsz
    {
      && part == |parts| && Laid(plan, parts, part)
      && Planned(resize, plan) && Progress(bufsz, putsz) == plan(part)
    }

    ghost predicate Valid()
      reads this
    {
      && (!closed ==> Sent())
      && (if buf == null then bufbytes == 0 else buf.Length == bufsz && bufbytes < bufsz)
    }

    function Pending(): seq<byte>
      reads this`buf, this`bufbytes, buf
      requires if buf == null then bufbytes == 0 else bufbytes <= buf.Length
    {
      if buf == null then [] else buf[..bufbytes]
    }

    /** Everything written so far. */
    ghost function Contents(): seq<byte>
      requires Valid()
      reads this, buf
    {
      Joined(parts) + Pending()
    }

    constructor (partSize: int)
      ensures Valid() && Contents() == [] && buf == null && !closed && !err
      ensures resize == AfterFlush
      ensures plan == PlanFrom(FirstSize(partSize))
    {
      var first := FirstSize(partSize);
      PlanFromPlanned(first);
      resize, plan, bufsz := AfterFlush, PlanFrom(first), first;
      buf, bufbytes, part, parts, putsz := null, 0, 0, [], 0;
      closed, err := false, false;
    }

    method Flush()
      requires if buf == null then bufbytes == 0 else bufbytes <= buf.Length
      modifies this`part, this`parts, this`putsz, this`buf, this`bufbytes, this`bufsz
      ensures part == old(part) + 1 && putsz == old(putsz + bufbytes)
      ensures parts == old(parts) + [Part(part, old(Pending()))]
      ensures buf == null && bufbytes == 0
      ensures bufsz == resize(part, old(bufsz), putsz)
    {
      part := part + 1;
      putsz := putsz + bufbytes;
      parts := parts + [Part(part, Pending())];
      buf, bufbytes := null, 0;
      bufsz := resize(part, bufsz, putsz);
    }

    /** A buffer of the current size; the pool's are never longer, and shorter ones are replaced. */
    method Acquire()
      requires Valid() && !closed
      modifies this`buf
      ensures Valid() && buf != null && (buf == old(buf) || fresh(buf))
      ensures Pending() == old(Pending())
    {
      if buf == null {
        buf := new byte[bufsz];
      }
    }

    /** Copies what fits of `b` into the buffer. */
    method Copy(b: seq<byte>) returns (n: nat)
      requires buf != null && bufbytes < buf.Length && b != []
      modifies this`bufbytes, buf
      ensures 0 < n <= |b| && bufbytes == old(bufbytes) + n <= buf.Length
      ensures Pending() == old(Pending()) + b[..n]
    {
      n := Min(buf.Length - bufbytes, |b|);
      forall i | 0 <= i < n {
        buf[bufbytes + i] := b[i];
      }
      bufbytes := bufbytes + n;
    }

    /** A full buffer becomes the next part. */
    method FlushFull()
      requires !closed && Sent() && buf != null && buf.Length == bufsz == bufbytes
      modifies this`part, this`parts, this`putsz, this`buf, this`bufbytes, this`bufsz
      ensures Valid() && buf == null && Joined(parts) == old(Joined(parts) + Pending())
    {
      JoinedSnoc(parts, Part(part + 1, Pending()));
      NextLaid(resize, plan, parts, Pending());
      Flush();
    }

    /** One round of the writing loop. */
    method WriteSome(b: seq<byte>) returns (n: nat)
      requires Valid() && !closed && b != []
      modifies this`part, this`parts, this`putsz, this`buf, this`bufbytes, this`bufsz, buf
      ensures Valid() && 0 < n <= |b| && Contents() == old(Contents()) + b[..n]
      ensures buf == null || buf == old(buf) || fresh(buf)
    {
      ghost var sent, pending := Joined(parts), Pending();
      Acquire();
      n := Copy(b);
      assert sent + (pending + b[..n]) == (sent + pending) + b[..n];
      FlushIfFull();
    }

    method FlushIfFull()
      requires !closed && Sent() && buf != null && buf.Length == bufsz && bufbytes <= bufsz
      modifies this`part, this`parts, this`putsz, this`buf, this`bufbytes, this`bufsz
      ensures Valid() && Contents() == old(Joined(parts) + Pending()) && (buf == null || buf == old(buf))
    {
      if buf.Length == bufbytes {
        FlushFull();
      }
    }

    /** Reports all of `b` as written, unless the upload is closed or has failed. */
    method Write(b: seq<byte>) returns (n: nat, ok: bool)
      requires Valid()
      modifies this`part, this`parts, this`putsz, this`buf, this`bufbytes, this`bufsz, buf
      ensures Valid() && ok == !(closed || err) && n == if ok then |b| else 0
      ensures Contents() == old(Contents()) + b[..n]
      ensures buf == null || buf == old(buf) || fresh(buf)
    {
      if closed || err {
        return 0, false;
      }
      n := WriteAll(b);
      ok := true;
    }

    method WriteAll(b: seq<byte>) returns (n: nat)
      requires Valid() && !closed
      modifies this`part, this`parts, this`putsz, this`buf, this`bufbytes, this`bufsz, buf
      ensures Valid() && n == |b| && Contents() == old(Contents()) + b[..n]
      ensures buf == null || buf == old(buf) || fresh(buf)
    {
      ghost var was := Contents();
      n := 0;
      while n < |b|
        invariant Valid() && n <= |b| && Contents() == was + b[..n]
        invariant buf == null || buf == old(buf) || fresh(buf)
      {
        n := WriteFrom(b, n, was);
      }
    }

    method WriteFrom(b: seq<byte>, from: nat, ghost was: seq<byte>) returns (n: nat)
      requires Valid() && !closed && from < |b| && Contents() == was + b[..from]
      modifies this`part, this`parts, this`putsz, this`buf, this`bufbytes, this`bufsz, buf
      ensures Valid() && from < n <= |b| && Contents() == was + b[..n]
      ensures buf == null || buf == old(buf) || fresh(buf)
    {
      var more := WriteSome(b[from..]);
      WrittenOn(was, b, from, more);
      n := from + more;
    }

    /** Sends what is left, and an empty part if nothing was ever written. */
    method Close() returns (ok: bool)
      requires Valid()
      modifies this`part, this`parts, this`putsz, this`buf, this`bufbytes, this`bufsz, this`closed
      ensures Valid() && ok == !(old(closed) || err)
      ensures !ok ==> parts == old(parts) && closed == old(closed)
      ensures ok ==> closed && Cut(plan, parts) && Joined(parts) == old(Contents())
    {
      if closed || err {
        return false;
      }
      if bufbytes > 0 || part == 0 {
        FlushLast();
      } else {
        FullIsCut(plan, parts);
      }
      closed := true;
      ok := true;
    }

    method FlushLast()
      requires Valid() && !closed && (bufbytes > 0 || part == 0)
      modifies this`part, this`parts, this`putsz, this`buf, this`bufbytes, this`bufsz
      ensures buf == null && bufbytes == 0
      ensures Cut(plan, parts) && Joined(parts) == old(Contents())
    {
      JoinedSnoc(parts, Part(part + 1, Pending()));
      LastIsCut(plan, parts, Pending());
      Flush();
    }
  }

  function FirstSize(partSize: int): nat {
    if partSize < MIN_PART_SIZE then MIN_PART_SIZE else partSize
  }

  /** A first size from which 10000 parts hold the largest object. */
  predicate Enough(first: nat) {
    first <= MAX_PART_SIZE && 62000 * first >= MAX_OBJECT_SIZE
  }

  lemma LimitKept(first: nat, parts: seq<Part>)
    requires Cut(PlanFrom(first), parts)
    ensures Enough(first) && |Joined(parts)| <= MAX_OBJECT_SIZE ==> |parts| <= MAX_PARTS
  {
    if Enough(first) && |Joined(parts)| <= MAX_OBJECT_SIZE {
      PartLimitKept(first, parts);
    }
  }

  lemma ConcatNext(writes: seq<seq<byte>>, i: nat)
    requires i < |writes|
    ensures Concat(writes[..i + 1]) == Concat(writes[..i]) + writes[i]
  {
    ConcatSnoc(writes[..i], writes[i]);
    assert writes[..i + 1] == writes[..i] + [writes[i]];
  }

  method WriteOne(p: Putter, b: seq<byte>)
    requires p.Valid() && !p.closed && !p.err
    modifies p, p.buf
    ensures p.Valid() && !p.closed && !p.err && p.Contents() == old(p.Contents()) + b
    ensures p.buf == null || p.buf == old(p.buf) || fresh(p.buf)
  {
    var n, ok := p.Write(b);
    assert b[..n] == b;
  }

  method WriteEach(p: Putter, writes: seq<seq<byte>>)
    requires p.Valid() && !p.closed && !p.err && p.Contents() == [] && p.buf == null
    modifies p
    ensures p.Valid() && !p.closed && !p.err && p.Contents() == Concat(writes)
  {
    var i := 0;
    while i < |writes|
      invariant i <= |writes| && p.Valid() && !p.closed && !p.err
      invariant p.Contents() == Concat(writes[..i])
      invariant p.buf == null || fresh(p.buf)
    {
      WriteOne(p, writes[i]);
      ConcatNext(writes, i);
      i := i + 1;
    }
    assert writes[..i] == writes;
  }

  /** Any writes, then Close: the numbered parts make up the written bytes, within the limit when the first size allows. */
  method Upload(partSize: int, writes: seq<seq<byte>>) returns (parts: seq<Part>)
    ensures Joined(parts) == Concat(writes)
    ensures Cut(PlanFrom(FirstSize(partSize)), parts)
    ensures Enough(FirstSize(partSize)) && |Concat(writes)| <= MAX_OBJECT_SIZE ==> |parts| <= MAX_PARTS
  {
    var p := new Putter(partSize);
    WriteEach(p, writes);
    parts := Finish(p, Concat(writes));
    LimitKept(FirstSize(partSize), parts);
  }

  method Finish(p: Putter, ghost all: seq<byte>) returns (parts: seq<Part>)
    requires p.Valid() && !p.closed && !p.err && p.Contents() == all
    modifies p
    ensures Joined(parts) == all && Cut(p.plan, parts)
  {
    var ok := p.Close();
    parts := p.parts;
  }
}
