/** Length-encoded integers and strings, and the text rows made of them. */
module LengthEncoding {
  import opened Common
  import LE = LittleEndian

  const UINT64 := 0x1_0000_0000_0000_0000

  /** appendLengthEncodedInteger. */
  function Encode(n: nat): (b: seq<byte>)
    requires n < UINT64
    ensures b != []
  {
    if n <= 250 then [n]
    else if n <= 0xffff then [0xfc] + LE.Encode(n, 2)
    else if n <= 0xff_ffff then [0xfd] + LE.Encode(n, 3)
    else [0xfe] + LE.Encode(n, 8)
  }

  /** What a read gives; reading past the end of the slice panics. */
  datatype IntResult = Int(num: nat, isNull: bool, n: nat) | IntPanic

  function Fixed(b: seq<byte>, k: nat): (r: IntResult)
    ensures r.Int? ==> r.n <= |b|
  {
    if |b| < 1 + k then IntPanic else Int(LE.Decode(b[1..1 + k]), false, 1 + k)
  }

  /** readLengthEncodedInteger. */
  function ReadInt(b: seq<byte>): (r: IntResult)
    ensures r.Int? ==> r.n <= |b|
  {
    if b == [] then IntPanic
    else if b[0] == 0xfb then Int(0, true, 1)
    else if b[0] == 0xfc then Fixed(b, 2)
    else if b[0] == 0xfd then Fixed(b, 3)
    else if b[0] == 0xfe then Fixed(b, 8)
    else Int(b[0], false, 1)
  }

  lemma FixedReadsBack(tag: byte, n: nat, k: nat, rest: seq<byte>)
    requires n < LE.Power256(k)
    ensures Fixed([tag] + LE.Encode(n, k) + rest, k) == Int(n, false, 1 + k)
  {
    var b := [tag] + LE.Encode(n, k) + rest;
    assert b[1..1 + k] == LE.Encode(n, k);
    LE.DecodeEncode(n, k);
  }

  /** Every uint64 is read back, whatever follows it, with the exact number of bytes. */
  lemma IntReadsBack(n: nat, rest: seq<byte>)
    requires n < UINT64
    ensures ReadInt(Encode(n) + rest) == Int(n, false, |Encode(n)|)
  {
    LE.Powers();
    if 250 < n <= 0xffff {
      FixedReadsBack(0xfc, n, 2, rest);
    } else if 0xffff < n <= 0xff_ffff {
      FixedReadsBack(0xfd, n, 3, rest);
    } else if n > 0xff_ffff {
      FixedReadsBack(0xfe, n, 8, rest);
    }
  }

  // ---------------------------------------------------------------------------------------
  // Strings

  const INT64 := 0x8000_0000_0000_0000

  datatype StrResult = Str(bytes: seq<byte>, isNull: bool, n: nat) | StrEOF(n: nat) | StrPanic

  /** readLengthEncodedString; where the end of the string is no int64 the sum wraps around and the slice expression panics. */
  function ReadString(b: seq<byte>): (r: StrResult)
    ensures r.Str? ==> r.n <= |b|
  {
    match ReadInt(b)
    case IntPanic => StrPanic
    case Int(num, isNull, n) =>
      if num < 1 then Str([], isNull, n)
      else if n + num >= INT64 then StrPanic
      else if |b| >= n + num then Str(b[n..n + num], false, n + num)
      else StrEOF(n + num)
  }

  /**
   * A header makes the slice expression panic, whatever follows it, exactly when the end of the string it
   * declares is no int64; nine bytes are enough. Otherwise it is refused exactly when the string is cut short.
   */
  lemma HeaderPanicsIff(n: nat, rest: seq<byte>)
    requires n < UINT64
    ensures ReadString(Encode(n) + rest).StrPanic? <==> |Encode(n)| + n >= INT64
    ensures ReadString(Encode(n) + rest).StrEOF? <==> |rest| < n && |Encode(n)| + n < INT64
  {
    IntReadsBack(n, rest);
  }

  type Column = Option<seq<byte>>

  function EncodeColumn(c: Column): seq<byte>
    requires c.Some? ==> |c.value| < UINT64
  {
    if c.None? then [0xfb] else Encode(|c.value|) + c.value
  }

  /** NULL and every string are read back, whatever follows, exactly when the encoded length is an int64. */
  lemma ColumnReadsBackIff(c: Column, rest: seq<byte>)
    requires c.Some? ==> |c.value| < UINT64
    ensures ReadString(EncodeColumn(c) + rest) == Str(if c.Some? then c.value else [], c.None?, |EncodeColumn(c)|)
            <==> |EncodeColumn(c)| < INT64
  {
    if c.Some? {
      var e := Encode(|c.value|);
      var b := EncodeColumn(c) + rest;
      assert b == e + (c.value + rest);
      IntReadsBack(|c.value|, c.value + rest);
      assert b[|e|..|e| + |c.value|] == c.value;
    }
  }

  /** The bytes on the wire, as section "Length-Encoded Integer" of the protocol documentation has them. */
  lemma DocumentedForm(n: nat)
    requires n < UINT64
    ensures Encode(n) ==
            if n < 251 then [n]
            else if n < 0x1_0000 then [0xfc, n % 256, n / 256]
            else if n < 0x100_0000 then [0xfd, n % 256, n / 256 % 256, n / 65536]
            else [0xfe] + LE.Encode(n, 8)
    ensures EncodeColumn(None) == [0xfb]
  {
    LE.TwoBytes(n);
    LE.ThreeBytes(n, 0, 0, 0);
  }

  // ---------------------------------------------------------------------------------------
  // Rows

  datatype RowResult = Row(columns: seq<Column>) | RowEOF | RowError | RowPanic

  ghost predicate Encodable(cols: seq<Column>) {
    forall i :: 0 <= i < |cols| ==>
      (cols[i].Some? ==> |cols[i].value| < UINT64) && |EncodeColumn(cols[i])| < INT64
  }

  /** The row packet of a list of columns. */
  ghost function EncodeRow(cols: seq<Column>): seq<byte>
    requires Encodable(cols)
  {
    Concat(EncodeColumns(cols))
  }

  ghost function EncodeColumns(cols: seq<Column>): (parts: seq<seq<byte>>)
    requires Encodable(cols)
    ensures |parts| == |cols| && forall i :: 0 <= i < |cols| ==> parts[i] == EncodeColumn(cols[i])
  {
    seq(|cols|, i requires 0 <= i < |cols| => EncodeColumn(cols[i]))
  }

  /** A way to read one string off the front of a slice. */
  type StringReader = seq<byte> -> StrResult

  ghost predicate StaysInside(read: StringReader) {
    forall b :: read(b).Str? ==> read(b).n <= |b|
  }

  /** The columns a packet holds from its start on. */
  function ReadColumns(read: StringReader, b: seq<byte>, n: nat): RowResult
    decreases n
  {
    if n == 0 then Row([])
    else
      match read(b)
      case StrPanic => RowPanic
      case StrEOF(_) => RowEOF
      case Str(bytes, isNull, k) =>
        if k > |b| then RowPanic
        else Prepend([Received(bytes, isNull)], ReadColumns(read, b[k..], n - 1))
  }

  function Received(bytes: seq<byte>, isNull: bool): Column {
    if isNull then None else Some(bytes)
  }

  function Prepend(cols: seq<Column>, r: RowResult): RowResult {
    if r.Row? then Row(cols + r.columns) else r
  }

  lemma PrependTwice(a: seq<Column>, b: seq<Column>, r: RowResult)
    ensures Prepend(a, Prepend(b, r)) == Prepend(a + b, r)
  {
    assert r.Row? ==> a + (b + r.columns) == a + b + r.columns;
  }

  /** Whatever follows, reading a part gives the column and consumes the part. */
  ghost predicate Reads(read: StringReader, part: seq<byte>, col: Column, tail: seq<byte>) {
    read(part + tail) == Str(if col.Some? then col.value else [], col.None?, |part|)
  }

  lemma {:induction false} PartsReadBack(read: StringReader, parts: seq<seq<byte>>, cols: seq<Column>, rest: seq<byte>)
    requires |parts| == |cols|
    requires forall i, tail :: 0 <= i < |cols| ==> Reads(read, parts[i], cols[i], tail)
    ensures ReadColumns(read, Concat(parts) + rest, |cols|) == Row(cols)
  {
    if cols != [] {
      var p, more := parts[0], Concat(parts[1..]);
      assert p + more + rest == p + (more + rest);
      assert (p + (more + rest))[|p|..] == more + rest;
      assert Reads(read, parts[0], cols[0], more + rest);
      PartsReadBack(read, parts[1..], cols[1..], rest);
      assert cols == [cols[0]] + cols[1..];
    }
  }

  /** Any list of columns, NULL among them, is read back column by column. */
  lemma RowReadsBack(cols: seq<Column>, rest: seq<byte>)
    requires Encodable(cols)
    ensures ReadColumns(ReadString, EncodeRow(cols) + rest, |cols|) == Row(cols)
  {
    var parts := EncodeColumns(cols);
    forall i, tail | 0 <= i < |cols| ensures Reads(ReadString, parts[i], cols[i], tail) {
      ColumnReadsBackIff(cols[i], tail);
    }
    PartsReadBack(ReadString, parts, cols, rest);
  }

  const EOF_MARK: byte := 0xfe
  const ERR_MARK: byte := 0xff

  predicate LooksLikeEOF(data: seq<byte>) {
    |data| == 5 && data[0] == EOF_MARK
  }

  /** A row of at least one column is never taken for an EOF or an error packet. */
  lemma RowsAreNotMistaken(cols: seq<Column>)
    requires Encodable(cols) && cols != []
    ensures EncodeRow(cols) != [] && !LooksLikeEOF(EncodeRow(cols)) && EncodeRow(cols)[0] != ERR_MARK
  {
    var c := cols[0];
    assert EncodeRow(cols) == EncodeColumn(c) + Concat(EncodeColumns(cols)[1..]);
    assert EncodeRow(cols)[0] == EncodeColumn(c)[0];
    assert c.Some? ==> EncodeColumn(c)[0] == Encode(|c.value|)[0];
    assert |EncodeRow(cols)| >= |EncodeColumn(c)|;
  }

  /** The body of readRow on one packet, which is never empty; time parsing is off. */
  method ReadRow(data: seq<byte>, count: nat) returns (r: RowResult)
    requires data != []
    ensures |data| == 5 && data[0] == 0xfe ==> r.RowEOF?
    ensures data[0] == 0xff ==> r.RowError?
    ensures !LooksLikeEOF(data) && data[0] != ERR_MARK ==> r == ReadColumns(ReadString, data, count)
  {
    if data[0] == EOF_MARK && |data| == 5 {
      return RowEOF;
    }
    if data[0] == ERR_MARK {
      return RowError;
    }
    r := ReadDest(ReadString, data, count);
  }

  /** The loop of readRow over the columns. */
  method ReadDest(read: StringReader, data: seq<byte>, count: nat) returns (r: RowResult)
    requires StaysInside(read)
    ensures r == ReadColumns(read, data, count)
  {
    var dest: seq<Column> := [];
    var pos := 0;
    var i := 0;
    assert data[0..] == data;
    while i < count
      invariant 0 <= i <= count && 0 <= pos <= |data|
      invariant ReadColumns(read, data, count) == Prepend(dest, ReadColumns(read, data[pos..], count - i))
    {
      match read(data[pos..]) {
        case StrPanic => return RowPanic;
        case StrEOF(_) => return RowEOF;
        case Str(bytes, isNull, n) =>
          assert data[pos..][n..] == data[pos + n..];
          PrependTwice(dest, [Received(bytes, isNull)], ReadColumns(read, data[pos + n..], count - i - 1));
          pos := pos + n;
          dest := dest + [Received(bytes, isNull)];
      }
      i := i + 1;
    }
    assert ReadColumns(read, data[pos..], 0) == Row([]) && dest + [] == dest;
    r := Row(dest);
  }

  /** A row sent by a server is what the client's loop hands to its caller. */
  method ReceiveRow(ghost cols: seq<Column>, data: seq<byte>, count: nat) returns (r: RowResult)
    requires Encodable(cols) && cols != [] && data == EncodeRow(cols) && count == |cols|
    ensures r == Row(cols)
  {
    RowsAreNotMistaken(cols);
    RowReadsBack(cols, []);
    assert EncodeRow(cols) + [] == data;
    r := ReadRow(data, count);
  }
}
