/**
 The blob format: `encode_blob` and `decode_blob`.

 zlib and `json.loads` are parameters. All that is assumed of them is that decompressing what was
 compressed gives it back, and that reading canonical JSON of dicts gives the value back.
 */
module Blobs {
  import opened Wrappers
  import opened Bytes
  import opened Orders
  import opened CanonicalJson
  import opened Columns
  import opened Tables
  import opened Datasets

  /** What one `decompressobj` reports after one `decompress` call. */
  datatype Inflated = Inflated(output: ByteString, eof: bool, unconsumed: bool, unused: bool)

  datatype Library = Library(
    sha: Hash,
    deflate: ByteString -> ByteString,
    inflate: (ByteString, nat) -> Option<Inflated>,
    loads: ByteString -> Option<Json>)

  /** What is asked of the libraries, SHA-256 apart. `json.loads` returns dicts, so it is asked for
      nothing where a key repeats. */
  ghost predicate Faithful(lib: Library) {
    && (forall x: ByteString, limit: nat :: limit > |x| ==>
          lib.inflate(lib.deflate(x), limit) == Some(Inflated(x, true, false, false)))
    && (forall v :: Canonical(v) && DistinctThroughout(v) ==> lib.loads(Dumps(v).value) == Some(Sorted(v)))
  }

  // ----- That much can be had

  function AsText(b: ByteString): (t: Text)
    ensures |t| == |b|
    ensures forall i :: 0 <= i < |b| ==> t[i] == b[i]
  {
    seq(|b|, i requires 0 <= i < |b| => b[i])
  }

  function Stored(b: ByteString, limit: nat): Option<Inflated> {
    if |b| < limit then Some(Inflated(b, true, false, false)) else Some(Inflated(b[..limit], false, |b| > limit, false))
  }

  /** Reads canonical text, and refuses it where a key repeats. */
  function LoadsDicts(b: ByteString): Option<Json> {
    match Loads(b)
    case Some(v) => if DistinctThroughout(v) then Some(v) else None
    case None => None
  }

  const PlainLibrary := Library(AsText, x => x, Stored, LoadsDicts)

  /** There are libraries that do all that is asked, by a reader that returns only dicts and a hash
      that is injective. */
  lemma FaithfulExists()
    ensures Faithful(PlainLibrary) && Collisionless(PlainLibrary.sha)
    ensures forall b :: PlainLibrary.loads(b).Some? ==> DistinctThroughout(PlainLibrary.loads(b).value)
  {
    forall a, b | AsText(a) == AsText(b)
      ensures a == b
    {
      assert |a| == |AsText(a)| == |b|;
      assert forall i :: 0 <= i < |a| ==> a[i] == AsText(a)[i] && b[i] == AsText(b)[i];
    }
    forall v | Canonical(v) && DistinctThroughout(v)
      ensures LoadsDicts(Dumps(v).value) == Some(Sorted(v))
    {
      CanonicalRoundTrip(v);
      SortedDistinct(v);
    }
  }

  datatype BlobError =
    | NotABlob
    | BadHeader
    | TooLarge
    | BadPayload
    | BadColumnLength
    | TrailingBytes
    | Malformed
    | WrongId

  const MAGIC: ByteString := [81, 83, 66, 76, 79, 66, 0, 1]
  const MAX_HEADER: nat := 0x10_0000
  const BLOB_FORMAT := TextOf("qs-blob-v1")

  // ----- Writing

  function ColumnSpec(c: Column, length: nat): seq<Field> {
    [Field(TextOf("length"), Int(length)), Field(TextOf("name"), Str(c.name)),
     Field(TextOf("nullable"), Bool(c.nullable)), Field(TextOf("type"), Str(KindName(c.kind)))]
  }

  function ColumnSpecs(t: Table): (specs: seq<Json>)
    requires ValidTable(t)
    ensures |specs| == |t.schema.columns|
    ensures forall i :: 0 <= i < |specs| ==>
      specs[i] == Obj(ColumnSpec(t.schema.columns[i], |ColumnBytes(t, i)|))
  {
    seq(|t.schema.columns|, i requires 0 <= i < |t.schema.columns| =>
      Obj(ColumnSpec(t.schema.columns[i], |ColumnBytes(t, i)|)))
  }

  function TableSpec(t: Table): seq<Field>
    requires ValidTable(t)
  {
    [Field(TextOf("columns"), List(ColumnSpecs(t))), Field(TextOf("key"), List(Strings(t.schema.key))),
     Field(TextOf("name"), Str(t.schema.name)), Field(TextOf("rows"), Int(TableLength(t)))]
  }

  function TableSpecs(tables: seq<Table>): (specs: seq<Json>)
    requires ValidTables(tables)
    ensures |specs| == |tables|
    ensures forall i :: 0 <= i < |specs| ==> specs[i] == Obj(TableSpec(tables[i]))
  {
    seq(|tables|, i requires 0 <= i < |tables| => Obj(TableSpec(tables[i])))
  }

  /** The encoded columns of a table from column `i` on. */
  function TablePayload(t: Table, i: nat): ByteString
    requires ValidTable(t) && i <= |t.schema.columns|
    decreases |t.schema.columns| - i
  {
    if i == |t.schema.columns| then [] else ColumnBytes(t, i) + TablePayload(t, i + 1)
  }

  /** The encoded columns, table after table. */
  function Payload(tables: seq<Table>): ByteString
    requires ValidTables(tables)
  {
    if tables == [] then [] else TablePayload(tables[0], 0) + Payload(tables[1..])
  }

  function Header(id: Text, identity: Identity, total: nat, specs: seq<Json>): seq<Field> {
    [Field(TextOf("dataset_id"), Str(id)), Field(TextOf("format"), Str(BLOB_FORMAT)),
     Field(TextOf("identity"), Obj(IdentityFields(identity))), Field(TextOf("payload_length"), Int(total)),
     Field(TextOf("tables"), List(specs))]
  }

  /** The header's bytes; None where canonical JSON refuses it. */
  function HeaderBytes(lib: Library, d: Dataset): Option<ByteString>
    requires ValidDataset(d)
  {
    match DatasetId(lib.sha, d)
    case None => None
    case Some(id) =>
      match Dumps(Obj(Header(id, d.identity, |Payload(d.tables)|, TableSpecs(d.tables))))
      case Err(_) => None
      case Ok(b) => if |b| < TWO_64 then Some(b) else None
  }

  /** What `encode_blob` returns, or None where it raises. */
  function Encoded(lib: Library, d: Dataset): Option<ByteString>
    requires ValidDataset(d)
  {
    match HeaderBytes(lib, d)
    case None => None
    case Some(header) =>
      Some(MAGIC + LittleEndian(|header|, 8) + header + lib.deflate(Payload(d.tables)))
  }

  /** `encode_blob`. */
  method EncodeBlob(lib: Library, d: Dataset) returns (blob: Option<ByteString>)
    requires ValidDataset(d)
    ensures blob == Encoded(lib, d)
  {
    hide ValidTables, ValidIdentity, TableSpecs, Payload, Header, DatasetId, Dumps;
    var specs, payload := EncodeTables(d.tables);
    var id := DatasetId(lib.sha, d);
    if id.None? {
      return None;
    }
    var header := Dumps(Obj(Header(id.value, d.identity, |payload|, specs)));
    if header.Err? || |header.value| >= TWO_64 {
      return None;
    }
    return Some(MAGIC + LittleEndian(|header.value|, 8) + header.value + lib.deflate(payload));
  }

  /** The loop over the tables: header entries, and the payload that the compressor is fed. */
  method EncodeTables(tables: seq<Table>) returns (specs: seq<Json>, payload: ByteString)
    requires ValidTables(tables)
    ensures specs == TableSpecs(tables) && payload == Payload(tables)
  {
    hide ValidTable, TableSpec, TablePayload, Payload;
    payload := [];
    specs := [];
    assert tables[0..] == tables;
    for i := 0 to |tables|
      invariant specs == TableSpecs(tables)[..i]
      invariant payload + Payload(tables[i..]) == Payload(tables)
    {
      var spec, bytes := EncodeTable(tables[i]);
      PayloadStep(tables, i);
      Reassociate2(payload, bytes, Payload(tables[i + 1..]));
      specs := specs + [spec];
      payload := payload + bytes;
    }
    PayloadStep(tables, |tables|);
    assert payload + [] == payload;
  }

  lemma PayloadStep(tables: seq<Table>, i: nat)
    requires ValidTables(tables) && i <= |tables|
    ensures Payload(tables[i..]) == if i == |tables| then [] else TablePayload(tables[i], 0) + Payload(tables[i + 1..])
  {
    if i < |tables| {
      assert tables[i..][0] == tables[i] && tables[i..][1..] == tables[i + 1..];
    }
  }

  /** The inner loop of `encode_blob`. */
  method EncodeTable(t: Table) returns (spec: Json, bytes: ByteString)
    requires ValidTable(t)
    ensures spec == Obj(TableSpec(t)) && bytes == TablePayload(t, 0)
  {
    hide ValidTable, ColumnBytes, ColumnSpec;
    var columns: seq<Json> := [];
    bytes := [];
    for i := 0 to |t.schema.columns|
      invariant columns == ColumnSpecs(t)[..i]
      invariant bytes + TablePayload(t, i) == TablePayload(t, 0)
    {
      var chunk := ColumnBytes(t, i);
      columns := columns + [Obj(ColumnSpec(t.schema.columns[i], |chunk|))];
      bytes := bytes + chunk;
    }
    assert columns == ColumnSpecs(t);
    spec := Obj([Field(TextOf("columns"), List(columns)), Field(TextOf("key"), List(Strings(t.schema.key))),
                 Field(TextOf("name"), Str(t.schema.name)), Field(TextOf("rows"), Int(TableLength(t)))]);
  }

  // ----- Reading

  /** `isinstance(v, int)`, which Python's booleans satisfy. */
  function IntOf(v: Json): Option<int> {
    match v
    case Int(i) => Some(i)
    case Bool(b) => Some(if b then 1 else 0)
    case _ => None
  }

  /** `v[key]`; None where it raises. */
  function FieldOf(v: Json, key: string): Option<Json> {
    if v.Obj? then Get(v.fields, TextOf(key)) else None
  }

  function TextField(v: Json, key: string): Option<Text> {
    match FieldOf(v, key)
    case Some(Str(t)) => Some(t)
    case _ => None
  }

  function ParseKind(t: Text): Option<Kind> {
    if t == KindName(Utf8) then Some(Utf8)
    else if t == KindName(Date32) then Some(Date32)
    else if t == KindName(TimestampNs) then Some(TimestampNs)
    else if t == KindName(Float64) then Some(Float64)
    else None
  }

  function ReadColumn(v: Json): Option<Column> {
    match (TextField(v, "name"), TextField(v, "type"), FieldOf(v, "nullable"))
    case (Some(name), Some(kind), Some(Bool(nullable))) =>
      (match ParseKind(kind)
       case Some(k) => Some(Column(name, k, nullable))
       case None => None)
    case _ => None
  }

  function ReadColumns(items: seq<Json>): (r: Option<seq<Column>>)
    ensures r.Some? ==> |r.value| == |items|
  {
    if items == [] then Some([]) else
    match (ReadColumn(items[0]), ReadColumns(items[1..]))
    case (Some(c), Some(rest)) => Some([c] + rest)
    case _ => None
  }

  function ReadTexts(items: seq<Json>): Option<seq<Text>> {
    if items == [] then Some([]) else
    match (items[0], ReadTexts(items[1..]))
    case (Str(t), Some(rest)) => Some([t] + rest)
    case _ => None
  }

  function ReadSchema(spec: Json): (r: Option<Schema>)
    ensures r.Some? ==> ValidSchema(r.value)
    ensures r.Some? ==> FieldOf(spec, "columns").Some? && FieldOf(spec, "columns").value.List?
    ensures r.Some? ==> |FieldOf(spec, "columns").value.items| == |r.value.columns|
  {
    match (TextField(spec, "name"), FieldOf(spec, "columns"), FieldOf(spec, "key"))
    case (Some(name), Some(List(columns)), Some(List(key))) =>
      (match (ReadColumns(columns), ReadTexts(key))
       case (Some(cs), Some(ks)) => if ValidSchema(Schema(name, cs, ks)) then Some(Schema(name, cs, ks)) else None
       case _ => None)
    case _ => None
  }

  /** The bytes of one column, cut out of the payload and parsed. */
  function ReadCells(c: Column, spec: Json, payload: ByteString, offset: nat, rows: int)
    : (r: Result<(seq<Cell>, nat), BlobError>)
    requires offset <= |payload|
    ensures r.Ok? ==> offset <= r.value.1 <= |payload|
  {
    match FieldOf(spec, "length")
    case None => Err(Malformed)
    case Some(v) =>
      match IntOf(v)
      case None => Err(BadColumnLength)
      case Some(length) =>
        if length < 0 || offset + length > |payload| then Err(BadColumnLength) else
        match ParseColumn(c, payload[offset..offset + length], rows)
        case Err(_) => Err(Malformed)
        case Ok(cells) => Ok((cells, offset + length))
  }

  function ReadData(columns: seq<Column>, specs: seq<Json>, payload: ByteString, offset: nat, rows: int, data: Data)
    : (r: Result<(Data, nat), BlobError>)
    requires |columns| == |specs| && offset <= |payload|
    ensures r.Ok? ==> offset <= r.value.1 <= |payload|
  {
    if columns == [] then Ok((data, offset)) else
    match ReadCells(columns[0], specs[0], payload, offset, rows)
    case Err(e) => Err(e)
    case Ok((cells, next)) =>
      ReadData(columns[1..], specs[1..], payload, next, rows, data[columns[0].name := cells])
  }

  function ReadTable(spec: Json, payload: ByteString, offset: nat): (r: Result<(Table, nat), BlobError>)
    requires offset <= |payload|
    ensures r.Ok? ==> offset <= r.value.1 <= |payload|
  {
    match (ReadSchema(spec), FieldOf(spec, "rows"))
    case (Some(schema), Some(rows)) =>
      (match IntOf(rows)
       case None => Err(Malformed)
       case Some(n) =>
         match ReadData(schema.columns, FieldOf(spec, "columns").value.items, payload, offset, n, map[])
         case Err(e) => Err(e)
         case Ok((data, next)) =>
           match Build(schema, data)
           case Err(_) => Err(Malformed)
           case Ok(table) => Ok((table, next)))
    case _ => Err(Malformed)
  }

  function ReadTables(specs: seq<Json>, payload: ByteString, offset: nat): (r: Result<(seq<Table>, nat), BlobError>)
    requires offset <= |payload|
    ensures r.Ok? ==> offset <= r.value.1 <= |payload|
  {
    if specs == [] then Ok(([], offset)) else
    match ReadTable(specs[0], payload, offset)
    case Err(e) => Err(e)
    case Ok((table, next)) =>
      match ReadTables(specs[1..], payload, next)
      case Err(e) => Err(e)
      case Ok((tables, end)) => Ok(([table] + tables, end))
  }

  /** `DatasetIdentity(**fields)`: the seven names and no other. */
  function ReadIdentity(v: Json): (r: Option<Identity>)
    ensures r.Some? ==> ValidIdentity(r.value)
  {
    match (TextField(v, "family"), TextField(v, "provider"), TextField(v, "licence_id"), TextField(v, "frequency"),
           TextField(v, "session_boundary"), TextField(v, "adjustment"), TextField(v, "survivorship"))
    case (Some(a), Some(b), Some(c), Some(d), Some(e), Some(f), Some(g)) =>
      var id := Identity(a, b, c, d, e, f, g);
      if |v.fields| == 7 && ValidIdentity(id) then Some(id) else None
    case _ => None
  }

  /** `_decode` after the payload has been inflated. */
  function Rebuilt(header: Json, payload: ByteString): Result<Dataset, BlobError> {
    match FieldOf(header, "tables")
    case Some(List(specs)) =>
      (match ReadTables(specs, payload, 0)
       case Err(e) => Err(e)
       case Ok((tables, offset)) =>
         if offset != |payload| then Err(TrailingBytes) else
         match FieldOf(header, "identity")
         case None => Err(Malformed)
         case Some(v) =>
           match ReadIdentity(v)
           case None => Err(Malformed)
           case Some(identity) =>
             if tables == [] || !Distinct(TableNames(tables)) then Err(Malformed)
             else Ok(Dataset(identity, tables)))
    case _ => Err(Malformed)
  }

  /** The header and the inflated payload, checked against each other. */
  function Opened(lib: Library, blob: ByteString, maxBytes: int): Result<(Json, ByteString), BlobError> {
    if |blob| < 16 || blob[..8] != MAGIC then Err(NotABlob)
    else
      var n := FromLittleEndian(blob[8..16]);
      if n > MAX_HEADER || 16 + n > |blob| then Err(BadHeader) else
      match lib.loads(blob[16..16 + n])
      case None => Err(Malformed)
      case Some(header) =>
        if !header.Obj? then Err(Malformed)
        else if FieldOf(header, "format") != Some(Str(BLOB_FORMAT)) then Err(NotABlob) else
        match FieldOf(header, "payload_length")
        case None => Err(Malformed)
        case Some(v) =>
          match IntOf(v)
          case None => Err(TooLarge)
          case Some(total) =>
            if !(0 <= total <= maxBytes) then Err(TooLarge) else
            match lib.inflate(blob[16 + n..], total + 1)
            case None => Err(Malformed)
            case Some(z) =>
              if |z.output| != total || !z.eof || z.unconsumed || z.unused then Err(BadPayload)
              else Ok((header, z.output))
  }

  function Decoded(lib: Library, blob: ByteString, maxBytes: int): (r: Result<Dataset, BlobError>)
    ensures r.Ok? ==> ValidDataset(r.value)
  {
    match Opened(lib, blob, maxBytes)
    case Err(e) => Err(e)
    case Ok((header, payload)) =>
      RebuiltValid(header, payload);
      Rebuilt(header, payload)
  }

  /** What `decode_blob` returns. A dataset too long to have an id cannot have the expected one. */
  function Checked(lib: Library, blob: ByteString, expected: Text, maxBytes: int): Result<Dataset, BlobError> {
    match Decoded(lib, blob, maxBytes)
    case Err(e) => Err(e)
    case Ok(d) => if DatasetId(lib.sha, d) == Some(expected) then Ok(d) else Err(WrongId)
  }

  // ----- The loops of `_decode`

  /** The inner loop: a table's columns, one slice of the payload each. */
  method DecodeColumns(columns: seq<Column>, specs: seq<Json>, payload: ByteString, start: nat, rows: int)
    returns (r: Result<(Data, nat), BlobError>)
    requires |columns| == |specs| && start <= |payload|
    ensures r == ReadData(columns, specs, payload, start, rows, map[])
  {
    hide ReadCells;
    var data: Data := map[];
    var offset: nat := start;
    assert columns[0..] == columns && specs[0..] == specs;
    for i := 0 to |columns|
      invariant offset <= |payload|
      invariant ReadData(columns, specs, payload, start, rows, map[])
             == ReadData(columns[i..], specs[i..], payload, offset, rows, data)
    {
      var cells := ReadCells(columns[i], specs[i], payload, offset, rows);
      assert columns[i..][1..] == columns[i + 1..] && specs[i..][1..] == specs[i + 1..];
      if cells.Err? {
        return Err(cells.error);
      }
      data := data[columns[i].name := cells.value.0];
      offset := cells.value.1;
    }
    return Ok((data, offset));
  }

  method DecodeTable(spec: Json, payload: ByteString, offset: nat) returns (r: Result<(Table, nat), BlobError>)
    requires offset <= |payload|
    ensures r == ReadTable(spec, payload, offset)
  {
    hide ReadData, Build;
    var schema, rows := ReadSchema(spec), FieldOf(spec, "rows");
    if schema.None? || rows.None? || IntOf(rows.value).None? {
      return Err(Malformed);
    }
    var specs := FieldOf(spec, "columns").value.items;
    var data := DecodeColumns(schema.value.columns, specs, payload, offset, IntOf(rows.value).value);
    if data.Err? {
      return Err(data.error);
    }
    var table := Build(schema.value, data.value.0);
    if table.Err? {
      return Err(Malformed);
    }
    return Ok((table.value, data.value.1));
  }

  function PrependTables(tables: seq<Table>, r: Result<(seq<Table>, nat), BlobError>): Result<(seq<Table>, nat),
          BlobError> {
    match r
    case Err(e) => Err(e)
    case Ok((rest, offset)) => Ok((tables + rest, offset))
  }

  /** The outer loop: table after table, with one offset moving over the payload. */
  method DecodeTables(specs: seq<Json>, payload: ByteString) returns (r: Result<(seq<Table>, nat), BlobError>)
    ensures r == ReadTables(specs, payload, 0)
  {
    hide ReadTable, ReadTables;
    var tables: seq<Table> := [];
    var offset: nat := 0;
    PrependNoTables(ReadTables(specs, payload, 0));
    assert specs[0..] == specs;
    for i := 0 to |specs|
      invariant offset <= |payload|
      invariant ReadTables(specs, payload, 0) == PrependTables(tables, ReadTables(specs[i..], payload, offset))
    {
      var table := DecodeTable(specs[i], payload, offset);
      TablesStep(specs, i, payload, offset, tables);
      if table.Err? {
        return Err(table.error);
      }
      tables := tables + [table.value.0];
      offset := table.value.1;
    }
    assert specs[|specs|..] == [] && tables + [] == tables;
    TablesEnd(payload, offset);
    return Ok((tables, offset));
  }

  lemma TablesEnd(payload: ByteString, offset: nat)
    requires offset <= |payload|
    ensures ReadTables([], payload, offset) == Ok(([], offset))
  {
  }

  lemma PrependNoTables(r: Result<(seq<Table>, nat), BlobError>)
    ensures PrependTables([], r) == r
  {
    if r.Ok? { assert [] + r.value.0 == r.value.0; }
  }

  lemma TablesStep(specs: seq<Json>, i: nat, payload: ByteString, offset: nat, tables: seq<Table>)
    requires i < |specs| && offset <= |payload|
    ensures PrependTables(tables, ReadTables(specs[i..], payload, offset)) ==
      match ReadTable(specs[i], payload, offset)
      case Err(e) => Err(e)
      case Ok((table, next)) => PrependTables(tables + [table], ReadTables(specs[i + 1..], payload, next))
  {
    hide ReadTable;
    assert specs[i..][0] == specs[i] && specs[i..][1..] == specs[i + 1..];
    match ReadTable(specs[i], payload, offset)
    case Err(_) =>
    case Ok((table, next)) =>
      var rest := ReadTables(specs[i + 1..], payload, next);
      if rest.Ok? {
        assert tables + ([table] + rest.value.0) == tables + [table] + rest.value.0;
      }
  }

  /** `decode_blob`. */
  method DecodeBlob(lib: Library, blob: ByteString, expected: Text, maxBytes: int)
    returns (r: Result<Dataset, BlobError>)
    ensures r == Checked(lib, blob, expected, maxBytes)
    ensures r.Ok? ==> ValidDataset(r.value) && DatasetId(lib.sha, r.value) == Some(expected)
  {
    hide Opened, ReadTables, ReadIdentity, DatasetId, ValidDataset;
    var parts := Opened(lib, blob, maxBytes);
    if parts.Err? {
      return Err(parts.error);
    }
    var (header, payload) := parts.value;
    var specs := FieldOf(header, "tables");
    if specs.None? || !specs.value.List? {
      return Err(Malformed);
    }
    var tables := DecodeTables(specs.value.items, payload);
    if tables.Err? {
      return Err(tables.error);
    }
    if tables.value.1 != |payload| {
      return Err(TrailingBytes);
    }
    var identityField := FieldOf(header, "identity");
    if identityField.None? {
      return Err(Malformed);
    }
    var identity := ReadIdentity(identityField.value);
    if identity.None? || tables.value.0 == [] || !Distinct(TableNames(tables.value.0)) {
      return Err(Malformed);
    }
    var dataset := Dataset(identity.value, tables.value.0);
    RebuiltValid(header, payload);
    if DatasetId(lib.sha, dataset) != Some(expected) {
      return Err(WrongId);
    }
    return Ok(dataset);
  }

  // ----- Whatever is read is a valid dataset

  lemma ParsedTextsFit(c: Column, raw: ByteString, rows: int)
    requires ParseColumn(c, raw, rows).Ok?
    ensures forall i :: 0 <= i < |ParseColumn(c, raw, rows).value| ==>
      CellFits(ParseColumn(c, raw, rows).value[i])
  {
    if c.kind.Utf8? {
      TextCellsFit(c, raw, rows);
    } else {
      RecordCellsFit(c, raw);
    }
  }

  predicate CellFits(cell: Cell) {
    cell.Chars? ==> ValidUnicode(cell.text) ==> |EncodeUtf8(cell.text)| < TWO_64
  }

  lemma {:induction false} TextCellsFit(c: Column, raw: ByteString, rows: nat)
    requires ParseTexts(c, raw, rows).Ok?
    ensures forall i :: 0 <= i < |ParseTexts(c, raw, rows).value| ==> CellFits(ParseTexts(c, raw, rows).value[i])
  {
    hide ParseText, CellFits;
    if rows > 0 {
      var (cell, n) := ParseText(c, raw).value;
      TextCellFits(c, raw);
      TextCellsFit(c, raw[n..], rows - 1);
    }
  }

  lemma TextCellFits(c: Column, raw: ByteString)
    requires ParseText(c, raw).Ok?
    ensures CellFits(ParseText(c, raw).value.0)
  {
    hide FromLittleEndian, DecodeUtf8, EncodeUtf8, Pow256;
    var offset := if c.nullable then 1 else 0;
    var length := FromLittleEndian(raw[offset..offset + 8]);
    Pow256Values();
    if ParseText(c, raw).value.0.Chars? {
      Utf8DecodeEncodes(raw[offset + 8..offset + 8 + length]);
    }
  }

  lemma {:induction false} RecordCellsFit(c: Column, raw: ByteString)
    requires !c.kind.Utf8? && ParseRecords(c, raw).Ok?
    ensures forall i :: 0 <= i < |ParseRecords(c, raw).value| ==> CellFits(ParseRecords(c, raw).value[i])
  {
    if |raw| >= ItemSize(c) {
      assert !ParseRecord(c, raw[..ItemSize(c)]).value.Chars?;
      RecordCellsFit(c, raw[ItemSize(c)..]);
    }
  }

  lemma {:induction false} ReadDataFits(columns: seq<Column>, specs: seq<Json>, payload: ByteString, offset: nat,
          rows: int, data: Data)
    requires |columns| == |specs| && offset <= |payload| && TextsFit(data)
    requires ReadData(columns, specs, payload, offset, rows, data).Ok?
    ensures TextsFit(ReadData(columns, specs, payload, offset, rows, data).value.0)
    decreases columns
  {
    hide ParseColumn, EncodeUtf8, IntOf, FieldOf;
    if columns != [] {
      var (cells, next) := ReadCells(columns[0], specs[0], payload, offset, rows).value;
      var length := IntOf(FieldOf(specs[0], "length").value).value;
      ParsedTextsFit(columns[0], payload[offset..offset + length], rows);
      assert forall i :: 0 <= i < |cells| ==> CellFits(cells[i]);
      ReadDataFits(columns[1..], specs[1..], payload, next, rows, data[columns[0].name := cells]);
    }
  }

  lemma ReadTableValid(spec: Json, payload: ByteString, offset: nat)
    requires offset <= |payload| && ReadTable(spec, payload, offset).Ok?
    ensures ValidTable(ReadTable(spec, payload, offset).value.0)
  {
    hide Build, ReadData, ReadSchema, ValidTable, FieldOf, IntOf, ValidSchema;
    var schema := ReadSchema(spec).value;
    var specs := FieldOf(spec, "columns").value.items;
    var rows := IntOf(FieldOf(spec, "rows").value).value;
    ReadDataFits(schema.columns, specs, payload, offset, rows, map[]);
    var data := ReadData(schema.columns, specs, payload, offset, rows, map[]).value.0;
    var order := BuildSorts(schema, data, ReadTable(spec, payload, offset).value.0);
  }

  lemma {:induction false} ReadTablesValid(specs: seq<Json>, payload: ByteString, offset: nat)
    requires offset <= |payload| && ReadTables(specs, payload, offset).Ok?
    ensures ValidTables(ReadTables(specs, payload, offset).value.0)
  {
    hide ReadTable, ValidTable;
    if specs != [] {
      ReadTableValid(specs[0], payload, offset);
      ReadTablesValid(specs[1..], payload, ReadTable(specs[0], payload, offset).value.1);
    }
  }

  lemma RebuiltValid(header: Json, payload: ByteString)
    ensures Rebuilt(header, payload).Ok? ==> ValidDataset(Rebuilt(header, payload).value)
  {
    hide ReadTables, ReadIdentity, ValidIdentity, ValidTables;
    if Rebuilt(header, payload).Ok? {
      ReadTablesValid(FieldOf(header, "tables").value.items, payload, 0);
    }
  }

  // ----- What the header's reader finds in a sorted header

  lemma FieldOfSorted(fields: seq<Field>, i: nat, key: string)
    requires DistinctKeys(fields) && i < |fields| && fields[i].key == TextOf(key)
    ensures FieldOf(Sorted(Obj(fields)), key) == Some(Sorted(fields[i].value))
  {
    SortedLookup(fields, i);
  }

  lemma ColumnSpecReads(c: Column, length: nat)
    ensures FieldOf(Sorted(Obj(ColumnSpec(c, length))), "length") == Some(Int(length))
    ensures ReadColumn(Sorted(Obj(ColumnSpec(c, length)))) == Some(c)
  {
    hide Sorted;
    var fields := ColumnSpec(c, length);
    ColumnSpecDistinct(c, length);
    FieldOfSorted(fields, 0, "length");
    FieldOfSorted(fields, 1, "name");
    FieldOfSorted(fields, 2, "nullable");
    FieldOfSorted(fields, 3, "type");
    ScalarsSort(fields[0].value, fields[1].value);
    ScalarsSort(fields[2].value, fields[3].value);
    KindReads(c.kind);
  }

  lemma KindReads(kind: Kind)
    ensures ParseKind(KindName(kind)) == Some(kind)
  {
    if KindName(kind) == KindName(Utf8) { KindNamesDiffer(kind, Utf8); }
    if KindName(kind) == KindName(Date32) { KindNamesDiffer(kind, Date32); }
    if KindName(kind) == KindName(TimestampNs) { KindNamesDiffer(kind, TimestampNs); }
  }

  lemma ColumnSpecDistinct(c: Column, length: nat)
    ensures DistinctKeys(ColumnSpec(c, length))
  {
    assert TextOf("length")[1] == 101 && TextOf("name")[1] == 97
        && TextOf("nullable")[1] == 117 && TextOf("type")[1] == 121;
  }

  lemma TableSpecDistinct(t: Table)
    requires ValidTable(t)
    ensures DistinctKeys(TableSpec(t))
  {
    hide ValidTable;
    assert TextOf("columns")[0] == 99 && TextOf("key")[0] == 107 && TextOf("name")[0] == 110 && TextOf("rows")[0] == 114;
  }

  lemma HeaderDistinct(id: Text, identity: Identity, total: nat, specs: seq<Json>)
    ensures DistinctKeys(Header(id, identity, total, specs))
  {
    assert TextOf("dataset_id")[0] == 100 && TextOf("format")[0] == 102 && TextOf("identity")[0] == 105
        && TextOf("payload_length")[0] == 112 && TextOf("tables")[0] == 116;
  }

  lemma TableSpecDictlike(t: Table)
    requires ValidTable(t)
    ensures DistinctThroughout(Obj(TableSpec(t)))
  {
    hide ValidTable, ColumnSpec, TextOf;
    TableSpecDistinct(t);
    forall i | 0 <= i < |t.schema.columns|
      ensures DistinctThroughout(ColumnSpecs(t)[i])
    {
      ColumnSpecDictlike(t.schema.columns[i], |ColumnBytes(t, i)|);
    }
    assert DistinctThroughout(List(ColumnSpecs(t))) && DistinctThroughout(List(Strings(t.schema.key)));
  }

  lemma ColumnSpecDictlike(c: Column, length: nat)
    ensures DistinctThroughout(Obj(ColumnSpec(c, length)))
  {
    ColumnSpecDistinct(c, length);
  }

  lemma IdentityDictlike(id: Identity)
    ensures DistinctThroughout(Obj(IdentityFields(id)))
  {
    IdentityKeysDistinct(id);
  }

  /** The header is a dict of dicts: no key repeats anywhere in it. */
  lemma HeaderDictlike(id: Text, d: Dataset, total: nat)
    requires ValidDataset(d)
    ensures DistinctThroughout(Obj(Header(id, d.identity, total, TableSpecs(d.tables))))
  {
    hide IdentityFields, TableSpec, ValidTable, ValidIdentity, TextOf;
    HeaderDistinct(id, d.identity, total, TableSpecs(d.tables));
    IdentityDictlike(d.identity);
    forall i | 0 <= i < |d.tables|
      ensures DistinctThroughout(TableSpecs(d.tables)[i])
    {
      TableSpecDictlike(d.tables[i]);
    }
  }

  function SortedItems(items: seq<Json>): (r: seq<Json>)
    ensures |r| == |items|
    ensures forall i :: 0 <= i < |items| ==> r[i] == Sorted(items[i])
    ensures Sorted(List(items)) == List(r)
  {
    Sorted(List(items)).items
  }

  lemma {:induction false} ColumnsRead(t: Table, items: seq<Json>, i: nat)
    requires ValidTable(t) && i <= |t.schema.columns| && items == SortedItems(ColumnSpecs(t))
    ensures ReadColumns(items[i..]) == Some(t.schema.columns[i..])
    decreases |t.schema.columns| - i
  {
    hide ValidTable, ReadColumn, ColumnSpec, ColumnBytes, Sorted;
    if i < |t.schema.columns| {
      ColumnSpecReads(t.schema.columns[i], |ColumnBytes(t, i)|);
      ColumnsRead(t, items, i + 1);
      assert items[i] == Sorted(ColumnSpecs(t)[i]);
      assert ReadColumn(items[i]) == Some(t.schema.columns[i]);
      assert items[i..][0] == items[i] && items[i..][1..] == items[i + 1..];
      assert [t.schema.columns[i]] + t.schema.columns[i + 1..] == t.schema.columns[i..];
    } else {
      assert items[i..] == [] && t.schema.columns[i..] == [];
    }
  }

  lemma {:induction false} TextsRead(texts: seq<Text>)
    ensures Sorted(List(Strings(texts))) == List(Strings(texts))
    ensures ReadTexts(Strings(texts)) == Some(texts)
  {
    if texts != [] {
      TextsRead(texts[1..]);
      assert Strings(texts)[1..] == Strings(texts[1..]);
      assert [texts[0]] + texts[1..] == texts;
    }
    assert SortedItems(Strings(texts)) == Strings(texts);
  }

  lemma TableSpecReads(t: Table)
    requires ValidTable(t)
    ensures var v := Sorted(Obj(TableSpec(t)));
            && ReadSchema(v) == Some(t.schema)
            && FieldOf(v, "rows") == Some(Int(TableLength(t)))
            && FieldOf(v, "columns") == Some(List(SortedItems(ColumnSpecs(t))))
  {
    hide Sorted, ReadColumns, ReadTexts, ColumnSpecs, TextOf, HasColumns, ValidColumns, Rectangular, StrictlySorted;
    var fields := TableSpec(t);
    TableSpecDistinct(t);
    FieldOfSorted(fields, 0, "columns");
    FieldOfSorted(fields, 1, "key");
    FieldOfSorted(fields, 2, "name");
    FieldOfSorted(fields, 3, "rows");
    ScalarsSort(fields[2].value, fields[3].value);
    TextsRead(t.schema.key);
    var items := SortedItems(ColumnSpecs(t));
    ColumnsRead(t, items, 0);
    assert items[0..] == items && t.schema.columns[0..] == t.schema.columns;
  }

  // ----- Reading back one table, then all of them

  /** The first `i` columns of a table. */
  function FirstColumns(t: Table, i: nat): Data
    requires i <= |t.schema.columns|
  {
    map name | name in t.columns && (exists j :: 0 <= j < i && t.schema.columns[j].name == name) :: t.columns[name]
  }

  lemma NextColumn(t: Table, i: nat)
    requires ValidTable(t) && i < |t.schema.columns|
    ensures t.schema.columns[i].name in t.columns
    ensures FirstColumns(t, i)[t.schema.columns[i].name := t.columns[t.schema.columns[i].name]] == FirstColumns(t, i + 1)
  {
    ColumnPresent(t.schema, t.columns, i);
  }

  lemma AllColumns(t: Table)
    requires ValidTable(t)
    ensures FirstColumns(t, |t.schema.columns|) == t.columns
  {
  }

  lemma CellsReadBack(t: Table, i: nat, spec: Json, payload: ByteString, offset: nat, rest: ByteString)
    requires ValidTable(t) && i < |t.schema.columns| && offset <= |payload|
    requires spec == Sorted(Obj(ColumnSpec(t.schema.columns[i], |ColumnBytes(t, i)|)))
    requires payload[offset..] == ColumnBytes(t, i) + rest
    ensures t.schema.columns[i].name in t.columns
    ensures ReadCells(t.schema.columns[i], spec, payload, offset, TableLength(t))
         == Ok((t.columns[t.schema.columns[i].name], offset + |ColumnBytes(t, i)|))
  {
    hide ParseColumn, Sorted, EncodeCells, ColumnSpec, ValidTable, ValidCells, RowCount;
    var c := t.schema.columns[i];
    ColumnCells(t, i);
    ColumnSpecReads(c, |ColumnBytes(t, i)|);
    assert |payload| >= offset + |ColumnBytes(t, i)|;
    assert payload[offset..offset + |ColumnBytes(t, i)|] == payload[offset..][..|ColumnBytes(t, i)|];
    ColumnRoundTrip(c, t.columns[c.name]);
  }

  lemma {:induction false} DataReadBack(t: Table, i: nat, payload: ByteString, offset: nat, rest: ByteString)
    requires ValidTable(t) && i <= |t.schema.columns| && offset <= |payload|
    requires payload[offset..] == TablePayload(t, i) + rest
    ensures ReadData(t.schema.columns[i..], SortedItems(ColumnSpecs(t))[i..], payload, offset, TableLength(t), FirstColumns(t, i))
         == Ok((t.columns, offset + |TablePayload(t, i)|))
    decreases |t.schema.columns| - i
  {
    hide ReadCells, Sorted, ColumnSpec, ValidTable, ColumnBytes, FirstColumns, RowCount;
    var columns, specs := t.schema.columns, SortedItems(ColumnSpecs(t));
    if i == |columns| {
      AllColumns(t);
    } else {
      var bytes, tail := ColumnBytes(t, i), TablePayload(t, i + 1);
      Reassociate2(bytes, tail, rest);
      CellsReadBack(t, i, specs[i], payload, offset, tail + rest);
      assert columns[i..][0] == columns[i] && columns[i..][1..] == columns[i + 1..];
      assert specs[i..][0] == specs[i] && specs[i..][1..] == specs[i + 1..];
      NextColumn(t, i);
      SuffixOf(payload, offset, bytes, tail + rest);
      DataReadBack(t, i + 1, payload, offset + |bytes|, rest);
    }
  }

  lemma Reassociate2(a: ByteString, b: ByteString, c: ByteString)
    ensures a + b + c == a + (b + c)
  {
  }

  lemma SuffixOf(payload: ByteString, offset: nat, a: ByteString, b: ByteString)
    requires offset <= |payload| && payload[offset..] == a + b
    ensures offset + |a| <= |payload| && payload[offset + |a|..] == b
  {
    assert payload[offset + |a|..] == payload[offset..][|a|..];
  }

  lemma TableReadBack(t: Table, payload: ByteString, offset: nat, rest: ByteString)
    requires ValidTable(t) && offset <= |payload|
    requires payload[offset..] == TablePayload(t, 0) + rest
    ensures ReadTable(Sorted(Obj(TableSpec(t))), payload, offset) == Ok((t, offset + |TablePayload(t, 0)|))
  {
    hide ReadData, Sorted, TableSpec, ValidTable, ReadSchema, Build, FieldOf, RowCount, TablePayload, ColumnSpecs,
         TableLength, TextOf;
    TableSpecReads(t);
    DataReadBack(t, 0, payload, offset, rest);
    BuildRebuilds(t);
    var specs := SortedItems(ColumnSpecs(t));
    assert t.schema.columns[0..] == t.schema.columns && specs[0..] == specs;
    assert FirstColumns(t, 0) == map[];
  }

  lemma {:induction false} TablesReadBack(tables: seq<Table>, i: nat, payload: ByteString, offset: nat)
    requires ValidTables(tables) && i <= |tables| && offset <= |payload|
    requires payload[offset..] == Payload(tables[i..])
    ensures ReadTables(SortedItems(TableSpecs(tables))[i..], payload, offset) == Ok((tables[i..], |payload|))
    decreases |tables| - i
  {
    hide ReadTable, Sorted, TableSpec, ValidTable, TablePayload;
    var specs := SortedItems(TableSpecs(tables));
    if i < |tables| {
      assert tables[i..][0] == tables[i] && tables[i..][1..] == tables[i + 1..];
      assert specs[i..][0] == specs[i] && specs[i..][1..] == specs[i + 1..];
      TableReadBack(tables[i], payload, offset, Payload(tables[i + 1..]));
      SuffixOf(payload, offset, TablePayload(tables[i], 0), Payload(tables[i + 1..]));
      TablesReadBack(tables, i + 1, payload, offset + |TablePayload(tables[i], 0)|);
      assert [tables[i]] + tables[i + 1..] == tables[i..];
    }
  }

  lemma IdentityReadsBack(id: Identity)
    requires ValidIdentity(id)
    ensures ReadIdentity(Sorted(Obj(IdentityFields(id)))) == Some(id)
  {
    hide Sorted, ValidIdentity, TextField, TextOf, DistinctKeys;
    var fields := IdentityFields(id);
    IdentityKeysDistinct(id);
    TextFieldOfSorted(fields, 0, "family", id.family);
    TextFieldOfSorted(fields, 1, "provider", id.provider);
    TextFieldOfSorted(fields, 2, "licence_id", id.licenceId);
    TextFieldOfSorted(fields, 3, "frequency", id.frequency);
    TextFieldOfSorted(fields, 4, "session_boundary", id.sessionBoundary);
    TextFieldOfSorted(fields, 5, "adjustment", id.adjustment);
    TextFieldOfSorted(fields, 6, "survivorship", id.survivorship);
    SortedSize(fields);
  }

  lemma TextFieldOfSorted(fields: seq<Field>, i: nat, key: string, text: Text)
    requires DistinctKeys(fields) && i < |fields| && fields[i] == Field(TextOf(key), Str(text))
    ensures TextField(Sorted(Obj(fields)), key) == Some(text)
  {
    hide Sorted, FieldOf, DistinctKeys;
    FieldOfSorted(fields, i, key);
    ScalarsSort(Str(text), Str(text));
  }

  lemma SortedSize(fields: seq<Field>)
    ensures Sorted(Obj(fields)).Obj? && |Sorted(Obj(fields)).fields| == |fields|
  {
  }

  // ----- Main results

  /** The header's own fields, read back. */
  lemma HeaderReadsBack(id: Text, identity: Identity, total: nat, specs: seq<Json>)
    ensures var h := Sorted(Obj(Header(id, identity, total, specs)));
            && h.Obj?
            && FieldOf(h, "dataset_id") == Some(Str(id))
            && FieldOf(h, "format") == Some(Str(BLOB_FORMAT))
            && FieldOf(h, "identity") == Some(Sorted(Obj(IdentityFields(identity))))
            && FieldOf(h, "payload_length") == Some(Int(total))
            && FieldOf(h, "tables") == Some(List(SortedItems(specs)))
  {
    hide Sorted, FieldOf, IdentityFields;
    var fields := Header(id, identity, total, specs);
    HeaderDistinct(id, identity, total, specs);
    FieldOfSorted(fields, 0, "dataset_id");
    FieldOfSorted(fields, 1, "format");
    FieldOfSorted(fields, 2, "identity");
    FieldOfSorted(fields, 3, "payload_length");
    FieldOfSorted(fields, 4, "tables");
    ScalarsSort(fields[0].value, fields[0].value);
    ScalarsSort(fields[1].value, fields[3].value);
    SortedSize(fields);
  }

  lemma RebuiltRoundTrip(id: Text, d: Dataset)
    requires ValidDataset(d)
    ensures Rebuilt(Sorted(Obj(Header(id, d.identity, |Payload(d.tables)|, TableSpecs(d.tables)))), Payload(d.tables)) == Ok(d)
  {
    hide Sorted, FieldOf, ReadTables, ReadIdentity, ValidTable, ValidIdentity, TableSpecs, Payload, Header;
    var payload := Payload(d.tables);
    HeaderReadsBack(id, d.identity, |payload|, TableSpecs(d.tables));
    assert payload[0..] == payload && d.tables[0..] == d.tables;
    TablesReadBack(d.tables, 0, payload, 0);
    var specs := SortedItems(TableSpecs(d.tables));
    assert specs[0..] == specs;
    IdentityReadsBack(d.identity);
  }

  /** A blob falls apart into the pieces it was put together from. */
  lemma BlobParts(header: ByteString, body: ByteString)
    requires |header| < TWO_64
    ensures var blob := MAGIC + LittleEndian(|header|, 8) + header + body;
            && |blob| >= 16 + |header| && blob[..8] == MAGIC
            && FromLittleEndian(blob[8..16]) == |header|
            && blob[16..16 + |header|] == header && blob[16 + |header|..] == body
  {
    hide LittleEndian, FromLittleEndian;
    Pow256Values();
    LittleEndianRoundTrip(|header|, 8);
    var blob := MAGIC + LittleEndian(|header|, 8) + header + body;
    assert blob[8..16] == LittleEndian(|header|, 8);
  }

  /** Decoding a dataset's blob gives the dataset back, tables in the same order, exactly when its
      header is at most 1 MiB and its payload is within the read limit. */
  lemma BlobRoundTrip(lib: Library, d: Dataset, maxBytes: int)
    requires Faithful(lib) && ValidDataset(d) && Encoded(lib, d).Some?
    ensures DatasetId(lib.sha, d).Some?
    ensures Checked(lib, Encoded(lib, d).value, DatasetId(lib.sha, d).value, maxBytes) == Ok(d)
       <==> |HeaderBytes(lib, d).value| <= 0x10_0000 && |Payload(d.tables)| <= maxBytes
  {
    hide ValidTables, ValidIdentity, Sorted, FieldOf, DatasetId, Payload, Header, Rebuilt, Canonical, TableSpecs,
         DistinctThroughout, LittleEndian, FromLittleEndian, Dumps;
    var blob := Encoded(lib, d).value;
    var payload, header := Payload(d.tables), HeaderBytes(lib, d).value;
    var id := DatasetId(lib.sha, d).value;
    var fields := Header(id, d.identity, |payload|, TableSpecs(d.tables));
    BlobParts(header, lib.deflate(payload));
    HeaderDictlike(id, d, |payload|);
    HeaderReadsBack(id, d.identity, |payload|, TableSpecs(d.tables));
    RebuiltRoundTrip(id, d);
  }

  /** Whatever bytes are decoded against the id of `d`, success means the content of `d`. */
  lemma DecodedContent(lib: Library, d: Dataset, blob: ByteString, maxBytes: int)
    requires Collisionless(lib.sha) && ValidDataset(d) && DatasetId(lib.sha, d).Some?
    requires Checked(lib, blob, DatasetId(lib.sha, d).value, maxBytes).Ok?
    ensures var e := Checked(lib, blob, DatasetId(lib.sha, d).value, maxBytes).value;
            ValidDataset(e) && e.identity == d.identity && forall t :: t in e.tables <==> t in d.tables
  {
    hide ValidDataset, DatasetId, Decoded;
    var e := Decoded(lib, blob, maxBytes).value;
    SameIdSameContent(lib.sha, e, d);
  }
}
