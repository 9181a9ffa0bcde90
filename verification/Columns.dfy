/**
 Typed columns, their cells and their byte encoding (`qs-col-sha256-v1`).

 A float64 is its IEEE 754 word. Every NaN marks a null, so a null is one cell here whatever
 its payload was.
 */
module Columns {
  import opened Wrappers
  import opened Bytes

  datatype Kind = Utf8 | Date32 | TimestampNs | Float64

  datatype Column = Column(name: Text, kind: Kind, nullable: bool)

  const TWO_32: nat := 0x1_0000_0000
  const TWO_64: nat := 0x1_0000_0000_0000_0000

  type Word = w: nat | w < 0x1_0000_0000_0000_0000

  datatype Cell = Missing | Number(word: Word) | Days(days: int) | Nanos(ns: int) | Chars(text: Text)

  datatype ColumnError = BadValue | BadRowCount | BadLength | BadValidity | Overrun | Truncated | BadText

  // ----- float64 words

  const NEGATIVE_ZERO: Word := 0x8000_0000_0000_0000

  function Exponent(w: Word): nat {
    w / 0x10_0000_0000_0000 % 0x800
  }

  predicate IsNaN(w: Word) {
    Exponent(w) == 0x7FF && w % 0x10_0000_0000_0000 != 0
  }

  predicate IsInfinite(w: Word) {
    Exponent(w) == 0x7FF && w % 0x10_0000_0000_0000 == 0
  }

  // ----- Normalising what a column is given

  /** A cell as a built table stores it, or None where the column refuses it. A missing date or
      timestamp passes here and is refused later, once lengths have been compared. */
  function NormaliseCell(c: Column, cell: Cell): Option<Cell> {
    match (c.kind, cell)
    case (Float64, Number(w)) =>
      if IsInfinite(w) then None
      else if IsNaN(w) then (if c.nullable then Some(Missing) else None)
      else Some(Number(if w == NEGATIVE_ZERO then 0 else w))
    case (Float64, Missing) => if c.nullable then Some(Missing) else None
    case (Date32, Days(d)) => if -0x8000_0000 <= d < 0x8000_0000 then Some(cell) else None
    case (Date32, Missing) => Some(Missing)
    case (TimestampNs, Nanos(n)) =>
      if -0x8000_0000_0000_0000 < n < 0x8000_0000_0000_0000 then Some(cell) else None
    case (TimestampNs, Missing) => Some(Missing)
    case (Utf8, Chars(t)) => if ValidUnicode(t) then Some(cell) else None
    case (Utf8, Missing) => if c.nullable then Some(Missing) else None
    case _ => None
  }

  /** A cell some table of this column can hold: it is its own normal form, it is present unless
      the column is nullable, and a text has a length that fits its prefix. */
  predicate ValidCell(c: Column, cell: Cell) {
    && NormaliseCell(c, cell) == Some(cell)
    && (cell.Missing? ==> c.nullable)
    && (cell.Chars? ==> ValidUnicode(cell.text) && |EncodeUtf8(cell.text)| < TWO_64)
  }

  predicate ValidCells(c: Column, cells: seq<Cell>) {
    forall i :: 0 <= i < |cells| ==> ValidCell(c, cells[i])
  }

  // ----- Encoding

  function Width(kind: Kind): nat
    requires !kind.Utf8?
  {
    if kind.Date32? then 4 else 8
  }

  /** Bytes per row of a fixed-width column. */
  function ItemSize(c: Column): nat
    requires !c.kind.Utf8?
    ensures ItemSize(c) > 0
  {
    Width(c.kind) + if c.nullable then 1 else 0
  }

  function EncodeValue(c: Column, cell: Cell): (b: ByteString)
    requires !c.kind.Utf8? && ValidCell(c, cell)
    ensures |b| == Width(c.kind)
  {
    Pow256Values();
    match cell
    case Missing => LittleEndian(0, Width(c.kind))
    case Number(w) => LittleEndian(w, 8)
    case Days(d) => SignedBytes(d, 4)
    case Nanos(n) => SignedBytes(n, 8)
  }

  function EncodeCell(c: Column, cell: Cell): ByteString
    requires ValidCell(c, cell)
  {
    var flag := if !c.nullable then [] else if cell.Missing? then [0] else [1];
    if c.kind.Utf8? then
      var raw := if cell.Missing? then [] else EncodeUtf8(cell.text);
      flag + LittleEndian(|raw|, 8) + raw
    else flag + EncodeValue(c, cell)
  }

  function EncodedRows(c: Column, cells: seq<Cell>): (rows: seq<ByteString>)
    requires ValidCells(c, cells)
    ensures |rows| == |cells|
    ensures forall i :: 0 <= i < |cells| ==> rows[i] == EncodeCell(c, cells[i])
  {
    seq(|cells|, i requires 0 <= i < |cells| => EncodeCell(c, cells[i]))
  }

  /** The whole column; the code yields it in chunks. */
  function EncodeCells(c: Column, cells: seq<Cell>): ByteString
    requires ValidCells(c, cells)
  {
    Joined(EncodedRows(c, cells))
  }

  const UTF8_BATCH: nat := 65_536

  /** `Table.encoded` for a text column: batches of rows, each joined from its parts. */
  method EncodeTextColumn(c: Column, cells: seq<Cell>) returns (chunks: seq<ByteString>)
    requires c.kind.Utf8? && ValidCells(c, cells)
    ensures Joined(chunks) == EncodeCells(c, cells)
  {
    chunks := [];
    var start, stop := 0, 0;
    while start < |cells|
      invariant 0 <= start && stop == (if start < |cells| then start else |cells|)
      invariant Joined(chunks) == Joined(EncodedRows(c, cells)[..stop])
    {
      stop := if start + UTF8_BATCH < |cells| then start + UTF8_BATCH else |cells|;
      var chunk := EncodeBatch(c, cells[start..stop]);
      BatchJoined(c, cells, chunks, start, stop);
      chunks := chunks + [chunk];
      start := start + UTF8_BATCH;
    }
    assert EncodedRows(c, cells)[..stop] == EncodedRows(c, cells);
  }

  lemma BatchJoined(c: Column, cells: seq<Cell>, chunks: seq<ByteString>, start: nat, stop: nat)
    requires ValidCells(c, cells) && start <= stop <= |cells|
    requires Joined(chunks) == Joined(EncodedRows(c, cells)[..start])
    ensures Joined(chunks + [EncodeCells(c, cells[start..stop])]) == Joined(EncodedRows(c, cells)[..stop])
  {
    hide Joined, ValidCell, EncodeCell;
    var rows := EncodedRows(c, cells);
    RowsSlice(c, cells, start, stop);
    JoinedConcat(rows[..start], rows[start..stop]);
    assert rows[..start] + rows[start..stop] == rows[..stop];
    JoinedAppend(chunks, EncodeCells(c, cells[start..stop]));
  }

  lemma RowsSlice(c: Column, cells: seq<Cell>, lo: nat, hi: nat)
    requires ValidCells(c, cells) && lo <= hi <= |cells|
    ensures EncodedRows(c, cells[lo..hi]) == EncodedRows(c, cells)[lo..hi]
  {
  }

  method EncodeBatch(c: Column, cells: seq<Cell>) returns (chunk: ByteString)
    requires c.kind.Utf8? && ValidCells(c, cells)
    ensures chunk == EncodeCells(c, cells)
  {
    var rows: seq<ByteString> := [];
    for i := 0 to |cells|
      invariant rows == EncodedRows(c, cells)[..i]
    {
      var row := EncodeTextRow(c, cells[i]);
      rows := rows + [row];
    }
    assert EncodedRows(c, cells)[..|cells|] == EncodedRows(c, cells);
    chunk := Joined(rows);
  }

  method EncodeTextRow(c: Column, cell: Cell) returns (row: ByteString)
    requires c.kind.Utf8? && ValidCell(c, cell)
    ensures row == EncodeCell(c, cell)
  {
    if cell.Missing? {
      row := [0] + LittleEndian(0, 8);
    } else {
      var flag: ByteString := if c.nullable then [1] else [];
      var raw := EncodeUtf8(cell.text);
      row := flag + LittleEndian(|raw|, 8) + raw;
    }
  }

  // ----- Decoding

  /** One fixed-width record. The value bytes under a null are not looked at. */
  function ParseRecord(c: Column, raw: ByteString): Result<Cell, ColumnError>
    requires !c.kind.Utf8? && |raw| == ItemSize(c)
  {
    var value := if c.nullable then raw[1..] else raw;
    if c.nullable && raw[0] > 1 then Err(BadValidity)
    else if c.nullable && raw[0] == 0 then Ok(Missing)
    else
      Pow256Values();
      match c.kind
      case Float64 => Ok(var w := FromLittleEndian(value); if IsNaN(w) then Missing else Number(w))
      case Date32 => Ok(Days(FromSignedBytes(value)))
      case TimestampNs =>
        // The least int64 is numpy's not-a-time.
        Ok(var n := FromSignedBytes(value); if n == -0x8000_0000_0000_0000 then Missing else Nanos(n))
      case Utf8 => Err(BadValue)
  }

  /** Every record of a fixed-width column whose length has been checked. */
  function ParseRecords(c: Column, raw: ByteString): Result<seq<Cell>, ColumnError>
    requires !c.kind.Utf8?
  {
    if |raw| < ItemSize(c) then Ok([]) else
    match ParseRecord(c, raw[..ItemSize(c)])
    case Err(e) => Err(e)
    case Ok(cell) =>
      match ParseRecords(c, raw[ItemSize(c)..])
      case Err(e) => Err(e)
      case Ok(cells) => Ok([cell] + cells)
  }

  /** One text row at the front of `raw`, and the bytes it takes. */
  function ParseText(c: Column, raw: ByteString): (r: Result<(Cell, nat), ColumnError>)
    ensures r.Ok? ==> 8 <= r.value.1 <= |raw|
  {
    var offset := if c.nullable then 1 else 0;
    if |raw| < offset then Err(Truncated)
    else if c.nullable && raw[0] > 1 then Err(BadValidity)
    else if |raw| < offset + 8 then Err(Truncated)
    else
      var length := FromLittleEndian(raw[offset..offset + 8]);
      var start := offset + 8;
      if start + length > |raw| then Err(Overrun)
      else if c.nullable && raw[0] == 0 then Ok((Missing, start + length))
      else
        match DecodeUtf8(raw[start..start + length])
        case None => Err(BadText)
        case Some(t) => Ok((Chars(t), start + length))
  }

  function ParseTexts(c: Column, raw: ByteString, rows: nat): Result<seq<Cell>, ColumnError> {
    if rows == 0 then (if raw == [] then Ok([]) else Err(BadLength)) else
    match ParseText(c, raw)
    case Err(e) => Err(e)
    case Ok((cell, n)) =>
      match ParseTexts(c, raw[n..], rows - 1)
      case Err(e) => Err(e)
      case Ok(cells) => Ok([cell] + cells)
  }

  function Prepend(cells: seq<Cell>, r: Result<seq<Cell>, ColumnError>): Result<seq<Cell>, ColumnError> {
    match r
    case Err(e) => Err(e)
    case Ok(rest) => Ok(cells + rest)
  }

  /** The body of `_parse_utf8`'s loop: the row at `offset`, and the offset after it. */
  method ParseUtf8Row(c: Column, raw: ByteString, offset: nat) returns (r: Result<(Cell, nat), ColumnError>)
    requires offset <= |raw|
    ensures r.Err? ==> ParseText(c, raw[offset..]) == Err(r.error)
    ensures r.Ok? ==> ParseText(c, raw[offset..]) == Ok((r.value.0, r.value.1 - offset))
    ensures r.Ok? ==> offset + 8 <= r.value.1 <= |raw|
  {
    hide FromLittleEndian, DecodeUtf8;
    var at := offset;
    var valid := true;
    if c.nullable {
      if at >= |raw| {
        return Err(Truncated);
      }
      if raw[at] > 1 {
        return Err(BadValidity);
      }
      valid := raw[at] == 1;
      at := at + 1;
    }
    if at + 8 > |raw| {
      return Err(Truncated);
    }
    SliceOfSuffix(raw, offset, at, at + 8);
    var length := FromLittleEndian(raw[at..at + 8]);
    at := at + 8;
    if at + length > |raw| {
      return Err(Overrun);
    }
    if !valid {
      return Ok((Missing, at + length));
    }
    SliceOfSuffix(raw, offset, at, at + length);
    var text := DecodeUtf8(raw[at..at + length]);
    if text.None? {
      return Err(BadText);
    }
    return Ok((Chars(text.value), at + length));
  }

  lemma SliceOfSuffix(raw: ByteString, offset: nat, lo: nat, hi: nat)
    requires offset <= lo <= hi <= |raw|
    ensures raw[offset..][lo - offset..hi - offset] == raw[lo..hi]
  {
  }

  /** `_parse_utf8`: one pass over the bytes with a moving offset. */
  method ParseUtf8(c: Column, raw: ByteString, rows: nat) returns (r: Result<seq<Cell>, ColumnError>)
    ensures r == ParseTexts(c, raw, rows)
  {
    hide ParseText, ParseTexts;
    var values: seq<Cell> := [];
    var offset := 0;
    assert raw[0..] == raw;
    PrependNothing(ParseTexts(c, raw, rows));
    for row := 0 to rows
      invariant 0 <= offset <= |raw|
      invariant ParseTexts(c, raw, rows) == Prepend(values, ParseTexts(c, raw[offset..], rows - row))
    {
      var parsed := ParseUtf8Row(c, raw, offset);
      TextsStep(c, raw[offset..], rows - row);
      if parsed.Err? {
        return Err(parsed.error);
      }
      RowParsed(c, raw, offset, parsed.value, values, rows - row);
      values := values + [parsed.value.0];
      offset := parsed.value.1;
    }
    TextsEnd(c, raw[offset..], values);
    if offset != |raw| {
      return Err(BadLength);
    }
    return Ok(values);
  }

  lemma TextsEnd(c: Column, raw: ByteString, values: seq<Cell>)
    ensures Prepend(values, ParseTexts(c, raw, 0)) == if raw == [] then Ok(values) else Err(BadLength)
  {
    assert values + [] == values;
  }

  lemma TextsStep(c: Column, raw: ByteString, rows: nat)
    requires rows > 0
    ensures ParseTexts(c, raw, rows) ==
      match ParseText(c, raw)
      case Err(e) => Err(e)
      case Ok((cell, n)) => Prepend([cell], ParseTexts(c, raw[n..], rows - 1))
  {
  }

  lemma RowParsed(c: Column, raw: ByteString, offset: nat, row: (Cell, nat), values: seq<Cell>, rows: nat)
    requires rows > 0 && offset <= row.1 <= |raw|
    requires ParseText(c, raw[offset..]) == Ok((row.0, row.1 - offset))
    ensures Prepend(values, ParseTexts(c, raw[offset..], rows))
         == Prepend(values + [row.0], ParseTexts(c, raw[row.1..], rows - 1))
  {
    hide ParseText, ParseTexts, Prepend;
    TextsStep(c, raw[offset..], rows);
    assert raw[offset..][row.1 - offset..] == raw[row.1..];
    PrependTwice(values, row.0, ParseTexts(c, raw[row.1..], rows - 1));
  }

  lemma PrependNothing(r: Result<seq<Cell>, ColumnError>)
    ensures Prepend([], r) == r
  {
    if r.Ok? { assert [] + r.value == r.value; }
  }

  lemma PrependTwice(a: seq<Cell>, cell: Cell, r: Result<seq<Cell>, ColumnError>)
    ensures Prepend(a, Prepend([cell], r)) == Prepend(a + [cell], r)
  {
    if r.Ok? { assert a + ([cell] + r.value) == a + [cell] + r.value; }
  }

  /** `_parse`. */
  function ParseColumn(c: Column, raw: ByteString, rows: int): Result<seq<Cell>, ColumnError> {
    if rows < 0 then Err(BadRowCount)
    else if c.kind.Utf8? then ParseTexts(c, raw, rows)
    else if |raw| != rows * ItemSize(c) then Err(BadLength)
    else ParseRecords(c, raw)
  }

  // ----- Decoding inverts encoding

  lemma ValueRoundTrip(c: Column, cell: Cell)
    requires !c.kind.Utf8? && ValidCell(c, cell) && !cell.Missing?
    ensures c.kind.Float64? ==> FromLittleEndian(EncodeValue(c, cell)) == cell.word
    ensures c.kind.Date32? ==> FromSignedBytes(EncodeValue(c, cell)) == cell.days
    ensures c.kind.TimestampNs? ==> FromSignedBytes(EncodeValue(c, cell)) == cell.ns
  {
    Pow256Values();
    match cell
    case Number(w) => LittleEndianRoundTrip(w, 8);
    case Days(d) => SignedRoundTrip(d, 4);
    case Nanos(n) => SignedRoundTrip(n, 8);
  }

  lemma RecordRoundTrip(c: Column, cell: Cell)
    requires !c.kind.Utf8? && ValidCell(c, cell)
    ensures |EncodeCell(c, cell)| == ItemSize(c)
    ensures ParseRecord(c, EncodeCell(c, cell)) == Ok(cell)
  {
    if c.nullable {
      assert EncodeCell(c, cell)[1..] == EncodeValue(c, cell);
    } else {
      assert EncodeCell(c, cell) == EncodeValue(c, cell);
    }
    if !cell.Missing? {
      ValueRoundTrip(c, cell);
    }
  }

  lemma FirstRow(c: Column, cells: seq<Cell>)
    requires cells != [] && ValidCells(c, cells)
    ensures ValidCell(c, cells[0]) && ValidCells(c, cells[1..])
    ensures EncodeCells(c, cells) == EncodeCell(c, cells[0]) + EncodeCells(c, cells[1..])
  {
    assert EncodedRows(c, cells)[1..] == EncodedRows(c, cells[1..]);
  }

  lemma {:induction false} RecordsRoundTrip(c: Column, cells: seq<Cell>)
    requires !c.kind.Utf8? && ValidCells(c, cells)
    ensures |EncodeCells(c, cells)| == |cells| * ItemSize(c)
    ensures ParseRecords(c, EncodeCells(c, cells)) == Ok(cells)
  {
    hide EncodeCell, EncodeCells, ParseRecord, ParseRecords, ValidCell, ItemSize;
    if cells == [] {
      NothingEncoded(c);
      NoRecords(c);
    } else {
      FirstRow(c, cells);
      RecordRoundTrip(c, cells[0]);
      RecordsRoundTrip(c, cells[1..]);
      NextRecord(c, EncodeCell(c, cells[0]), EncodeCells(c, cells[1..]), cells[0], cells[1..]);
      assert |cells| * ItemSize(c) == ItemSize(c) + (|cells| - 1) * ItemSize(c);
      assert [cells[0]] + cells[1..] == cells;
    }
  }

  lemma NoRecords(c: Column)
    requires !c.kind.Utf8?
    ensures ParseRecords(c, []) == Ok([])
  {
  }

  lemma NextRecord(c: Column, head: ByteString, tail: ByteString, cell: Cell, cells: seq<Cell>)
    requires !c.kind.Utf8? && |head| == ItemSize(c)
    requires ParseRecord(c, head) == Ok(cell) && ParseRecords(c, tail) == Ok(cells)
    ensures ParseRecords(c, head + tail) == Ok([cell] + cells)
  {
    hide ParseRecord, ItemSize;
    assert (head + tail)[..|head|] == head && (head + tail)[|head|..] == tail;
  }

  lemma TextRoundTrip(c: Column, cell: Cell, rest: ByteString)
    requires c.kind.Utf8? && ValidCell(c, cell)
    ensures ParseText(c, EncodeCell(c, cell) + rest) == Ok((cell, |EncodeCell(c, cell)|))
  {
    hide LittleEndian, FromLittleEndian, EncodeUtf8, DecodeUtf8, Pow256;
    var flag: ByteString := if !c.nullable then [] else if cell.Missing? then [0] else [1];
    var raw := if cell.Missing? then [] else EncodeUtf8(cell.text);
    Pow256Values();
    LittleEndianRoundTrip(|raw|, 8);
    FourParts(flag, LittleEndian(|raw|, 8), raw, rest);
    if !cell.Missing? {
      Utf8RoundTrip(cell.text);
    }
  }

  lemma FourParts(flag: ByteString, prefix: ByteString, raw: ByteString, rest: ByteString)
    ensures var b := flag + prefix + raw + rest;
            && b[..|flag|] == flag
            && b[|flag|..|flag| + |prefix|] == prefix
            && b[|flag| + |prefix|..|flag| + |prefix| + |raw|] == raw
  {
  }

  lemma {:induction false} TextsRoundTrip(c: Column, cells: seq<Cell>)
    requires c.kind.Utf8? && ValidCells(c, cells)
    ensures ParseTexts(c, EncodeCells(c, cells), |cells|) == Ok(cells)
  {
    hide EncodeCell, EncodeCells, ParseText, ValidCell;
    if cells == [] {
      NothingEncoded(c);
    } else {
      var head, tail := EncodeCell(c, cells[0]), EncodeCells(c, cells[1..]);
      FirstRow(c, cells);
      TextRoundTrip(c, cells[0], tail);
      TextsRoundTrip(c, cells[1..]);
      assert (head + tail)[|head|..] == tail;
      assert [cells[0]] + cells[1..] == cells;
    }
  }

  /** A column's bytes, its type and its row count determine its cells. */
  lemma ColumnRoundTrip(c: Column, cells: seq<Cell>)
    requires ValidCells(c, cells)
    ensures ParseColumn(c, EncodeCells(c, cells), |cells|) == Ok(cells)
  {
    if c.kind.Utf8? {
      TextsRoundTrip(c, cells);
    } else {
      RecordsRoundTrip(c, cells);
    }
  }

  lemma ColumnInjective(c: Column, a: seq<Cell>, b: seq<Cell>)
    requires ValidCells(c, a) && ValidCells(c, b) && |a| == |b|
    requires EncodeCells(c, a) == EncodeCells(c, b)
    ensures a == b
  {
    ColumnRoundTrip(c, a);
    ColumnRoundTrip(c, b);
  }

  /** The converse fails: bytes the encoder never writes decode too. `ReencodedExactly` says which. */
  lemma DecoderAcceptsMore(c: Column, junk: ByteString)
    requires c.kind.Date32? && c.nullable && |junk| == 4
    ensures ParseColumn(c, [0] + junk, 1) == Ok([Missing])
    ensures EncodeCells(c, [Missing]) == [0, 0, 0, 0, 0]
  {
    var raw: ByteString := [0] + junk;
    assert raw[..5] == raw && raw[5..] == [];
    assert ParseRecords(c, []) == Ok([]);
    assert ParseRecord(c, raw) == Ok(Missing);
    assert ItemSize(c) == 5;
    assert ParseRecords(c, raw[5..]) == Ok([]);
    assert [Missing] + [] == [Missing];
    assert ParseRecords(c, raw) == Ok([Missing]);
    var row := EncodeCell(c, Missing);
    assert LittleEndian(0, 4) == [0] + LittleEndian(0, 3);
    assert LittleEndian(0, 3) == [0, 0, 0];
    FirstRow(c, [Missing]);
    assert EncodeCells(c, []) == [];
  }

  // ----- Which bytes are the encoder's own

  predicate AllZero(b: ByteString) {
    forall i :: 0 <= i < |b| ==> b[i] == 0
  }

  /** The first row of a column, of either layout, and the bytes it takes. */
  function FirstParsed(c: Column, raw: ByteString): (r: Result<(Cell, nat), ColumnError>)
    ensures r.Ok? ==> 0 < r.value.1 <= |raw|
  {
    if c.kind.Utf8? then ParseText(c, raw)
    else if |raw| < ItemSize(c) then Err(BadLength)
    else
      match ParseRecord(c, raw[..ItemSize(c)])
      case Err(e) => Err(e)
      case Ok(cell) => Ok((cell, ItemSize(c)))
  }

  /** Every row that is read as a null is all zero bytes. */
  predicate NullsZero(c: Column, raw: ByteString, rows: nat) {
    rows == 0
    || match FirstParsed(c, raw)
       case Err(_) => false
       case Ok((cell, n)) => (cell.Missing? ==> AllZero(raw[..n])) && NullsZero(c, raw[n..], rows - 1)
  }

  lemma {:induction false} ZeroBytes(width: nat)
    ensures AllZero(LittleEndian(0, width))
  {
    if width > 0 {
      ZeroBytes(width - 1);
    }
  }

  lemma ZeroUnique(a: ByteString, b: ByteString)
    requires AllZero(a) && AllZero(b) && |a| == |b|
    ensures a == b
  {
  }

  lemma NullIsZero(c: Column)
    requires ValidCell(c, Missing)
    ensures AllZero(EncodeCell(c, Missing))
    ensures |EncodeCell(c, Missing)| == if c.kind.Utf8? then 9 else ItemSize(c)
  {
    ZeroBytes(8);
    if !c.kind.Utf8? {
      ZeroBytes(Width(c.kind));
    }
  }

  /** A fixed-width value that is present is written back as it was read. */
  lemma PresentRecordWritten(c: Column, raw: ByteString, cell: Cell)
    requires !c.kind.Utf8? && |raw| == ItemSize(c) && ParseRecord(c, raw) == Ok(cell) && ValidCell(c, cell)
    requires !cell.Missing?
    ensures EncodeCell(c, cell) == raw
  {
    hide LittleEndian, FromLittleEndian, SignedBytes, FromSignedBytes, Pow256;
    var value := if c.nullable then raw[1..] else raw;
    Pow256Values();
    LittleEndianOf(value);
    SignedBytesOf(value);
    assert EncodeValue(c, cell) == value;
  }

  /** A text that is present is written back as it was read. */
  lemma PresentTextWritten(c: Column, raw: ByteString, cell: Cell, n: nat)
    requires c.kind.Utf8? && ParseText(c, raw) == Ok((cell, n)) && ValidCell(c, cell)
    requires !cell.Missing?
    ensures EncodeCell(c, cell) == raw[..n]
  {
    hide LittleEndian, FromLittleEndian, EncodeUtf8, DecodeUtf8;
    var offset := if c.nullable then 1 else 0;
    LittleEndianOf(raw[offset..offset + 8]);
    Utf8DecodeEncodes(raw[offset + 8..n]);
    ThreeParts(raw, offset, offset + 8, n);
  }

  lemma ThreeParts(raw: ByteString, i: nat, j: nat, n: nat)
    requires i <= j <= n <= |raw|
    ensures raw[..n] == raw[..i] + raw[i..j] + raw[j..n]
  {
  }

  /** A row is the encoder's own exactly when it is all zero, if it is read as a null. */
  lemma RowWritten(c: Column, raw: ByteString, cell: Cell, n: nat)
    requires FirstParsed(c, raw) == Ok((cell, n)) && ValidCell(c, cell)
    ensures EncodeCell(c, cell) == raw[..n] <==> (cell.Missing? ==> AllZero(raw[..n]))
  {
    hide ParseText, ParseRecord, EncodeCell;
    if !cell.Missing? {
      if c.kind.Utf8? {
        PresentTextWritten(c, raw, cell, n);
      } else {
        PresentRecordWritten(c, raw[..n], cell);
      }
    } else {
      NullIsZero(c);
      if AllZero(raw[..n]) {
        if c.kind.Utf8? {
          ZeroRowIsNull(c, raw, n);
        }
        ZeroUnique(EncodeCell(c, Missing), raw[..n]);
      }
    }
  }

  /** A null text row of zeros has length zero. */
  lemma ZeroRowIsNull(c: Column, raw: ByteString, n: nat)
    requires c.kind.Utf8? && c.nullable && ParseText(c, raw) == Ok((Missing, n)) && AllZero(raw[..n])
    ensures n == 9
  {
    hide LittleEndian, FromLittleEndian, DecodeUtf8, Pow256;
    var prefix := raw[1..9];
    assert forall i :: 0 <= i < 8 ==> prefix[i] == raw[..n][i + 1];
    ZeroBytes(8);
    ZeroUnique(prefix, LittleEndian(0, 8));
    Pow256Values();
    LittleEndianRoundTrip(0, 8);
  }

  /** How a column is read: its first row, then the others. */
  lemma ParsedRows(c: Column, raw: ByteString, rows: nat, cells: seq<Cell>)
    requires rows > 0 && ParseColumn(c, raw, rows) == Ok(cells)
    ensures cells != [] && FirstParsed(c, raw).Ok? && FirstParsed(c, raw).value.0 == cells[0]
    ensures ParseColumn(c, raw[FirstParsed(c, raw).value.1..], rows - 1) == Ok(cells[1..])
  {
    hide ParseText, ParseRecord;
    if !c.kind.Utf8? {
      assert rows * ItemSize(c) == ItemSize(c) + (rows - 1) * ItemSize(c);
    }
  }

  lemma NoRows(c: Column, raw: ByteString, cells: seq<Cell>)
    requires ParseColumn(c, raw, 0) == Ok(cells)
    ensures raw == [] && cells == []
  {
    if !c.kind.Utf8? {
      assert 0 * ItemSize(c) == 0;
    }
  }

  /** The row a valid cell was read from, if it begins with that cell's encoding, is that encoding. */
  lemma RowLength(c: Column, raw: ByteString, cell: Cell, rest: ByteString)
    requires ValidCell(c, cell) && raw == EncodeCell(c, cell) + rest && FirstParsed(c, raw).Ok?
    ensures FirstParsed(c, raw).value.1 == |EncodeCell(c, cell)|
  {
    hide ParseText, ParseRecord, EncodeCell;
    if c.kind.Utf8? {
      TextRoundTrip(c, cell, rest);
    } else {
      RecordRoundTrip(c, cell);
    }
  }

  /** Bytes read as valid cells are those cells' encoding exactly when every null row is all zero. */
  lemma {:induction false} ReencodedExactly(c: Column, raw: ByteString, rows: nat, cells: seq<Cell>)
    requires ParseColumn(c, raw, rows) == Ok(cells) && ValidCells(c, cells)
    ensures EncodeCells(c, cells) == raw <==> NullsZero(c, raw, rows)
    decreases rows
  {
    hide FirstParsed, ParseColumn, EncodeCell, EncodeCells, AllZero, ValidCell;
    if rows == 0 {
      NoRows(c, raw, cells);
      NothingEncoded(c);
    } else {
      ParsedRows(c, raw, rows, cells);
      FirstRow(c, cells);
      var (cell, n) := FirstParsed(c, raw).value;
      var row, tail := EncodeCell(c, cell), EncodeCells(c, cells[1..]);
      RowWritten(c, raw, cell, n);
      ReencodedExactly(c, raw[n..], rows - 1, cells[1..]);
      assert raw == raw[..n] + raw[n..];
      if EncodeCells(c, cells) == raw {
        RowLength(c, raw, cell, tail);
        assert (row + tail)[..|row|] == row && (row + tail)[|row|..] == tail;
      }
    }
  }

  lemma NothingEncoded(c: Column)
    ensures EncodeCells(c, []) == []
  {
  }

  /** Which bytes some valid column of `rows` rows is written as. */
  ghost predicate Written(c: Column, raw: ByteString, rows: nat) {
    exists cells :: |cells| == rows && ValidCells(c, cells) && EncodeCells(c, cells) == raw
  }

  /** Of the bytes the decoder accepts, the encoder writes exactly those that hold valid cells and
      whose null rows are all zero. */
  lemma WrittenExactly(c: Column, raw: ByteString, rows: nat, cells: seq<Cell>)
    requires ParseColumn(c, raw, rows) == Ok(cells)
    ensures Written(c, raw, rows) <==> ValidCells(c, cells) && NullsZero(c, raw, rows)
  {
    hide ParseColumn, EncodeCells, NullsZero, ValidCells;
    if Written(c, raw, rows) {
      var own :| |own| == rows && ValidCells(c, own) && EncodeCells(c, own) == raw;
      ColumnRoundTrip(c, own);
      ReencodedExactly(c, raw, rows, cells);
    }
    if ValidCells(c, cells) && NullsZero(c, raw, rows) {
      ReencodedExactly(c, raw, rows, cells);
      ParsedCount(c, raw, rows, cells);
    }
  }

  lemma {:induction false} ParsedCount(c: Column, raw: ByteString, rows: nat, cells: seq<Cell>)
    requires ParseColumn(c, raw, rows) == Ok(cells)
    ensures |cells| == rows
    decreases rows
  {
    hide ParseColumn, FirstParsed;
    if rows == 0 {
      NoRows(c, raw, cells);
    } else {
      ParsedRows(c, raw, rows, cells);
      ParsedCount(c, raw[FirstParsed(c, raw).value.1..], rows - 1, cells[1..]);
    }
  }
}
