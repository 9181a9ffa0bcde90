/**
 What `decode_blob` has checked when it returns: the envelope, the header and the payload, and that
 the payload is cut into the declared columns without a gap or a rest.
 */
module BlobChecks {
  import opened Wrappers
  import opened Bytes
  import opened Orders
  import opened CanonicalJson
  import opened Columns
  import opened Tables
  import opened Datasets
  import opened Blobs

  // ----- The envelope

  /** A JSON value that Python takes for the integer `n`. */
  predicate Counts(v: Option<Json>, n: int) {
    v == Some(Int(n)) || (v == Some(Bool(true)) && n == 1) || (v == Some(Bool(false)) && n == 0)
  }

  /** The blob is an envelope of this header and this payload: the magic number, the header's length, at
      most one mebibyte, the header, and the compressed payload, whole and with nothing after it, as long
      as the header says and within the read limit. */
  predicate Envelope(lib: Library, blob: ByteString, maxBytes: int, header: Json, payload: ByteString) {
    && |blob| >= 16
    && blob[..8] == [0x51, 0x53, 0x42, 0x4C, 0x4F, 0x42, 0x00, 0x01]
    && var n := FromLittleEndian(blob[8..16]);
       && n <= 1_048_576 && 16 + n <= |blob|
       && lib.loads(blob[16..16 + n]) == Some(header) && header.Obj?
       && FieldOf(header, "format") == Some(Str(TextOf("qs-blob-v1")))
       && Counts(FieldOf(header, "payload_length"), |payload|) && |payload| <= maxBytes
       && lib.inflate(blob[16 + n..], |payload| + 1) == Some(Inflated(payload, true, false, false))
  }

  /** A blob is opened exactly when it is an envelope, and then to what it holds. */
  lemma OpensExactly(lib: Library, blob: ByteString, maxBytes: int, header: Json, payload: ByteString)
    ensures Opened(lib, blob, maxBytes) == Ok((header, payload)) <==> Envelope(lib, blob, maxBytes, header, payload)
  {
    hide FromLittleEndian, FieldOf, TextOf;
  }

  // ----- The payload

  /** Column `j` is the slice between two cuts, as long as its header entry says, and parses to its cells. */
  predicate CutAt(columns: seq<Column>, specs: seq<Json>, payload: ByteString, rows: int, data: Data, cuts: seq<nat>, j: nat)
    requires |columns| == |specs| && |cuts| == |columns| + 1 && j < |columns|
  {
    && cuts[j] <= cuts[j + 1] <= |payload|
    && Counts(FieldOf(specs[j], "length"), cuts[j + 1] - cuts[j])
    && columns[j].name in data
    && ParseColumn(columns[j], payload[cuts[j]..cuts[j + 1]], rows) == Ok(data[columns[j].name])
  }

  lemma CellsCut(c: Column, spec: Json, payload: ByteString, offset: nat, rows: int)
    requires offset <= |payload| && ReadCells(c, spec, payload, offset, rows).Ok?
    ensures var (cells, next) := ReadCells(c, spec, payload, offset, rows).value;
            && offset <= next <= |payload| && Counts(FieldOf(spec, "length"), next - offset)
            && ParseColumn(c, payload[offset..next], rows) == Ok(cells)
  {
    hide FieldOf, ParseColumn;
  }

  /** The columns of a table are cut out of the payload one after the other. */
  lemma {:induction false} DataCut(columns: seq<Column>, specs: seq<Json>, payload: ByteString, offset: nat, rows: int,
          data: Data) returns (cuts: seq<nat>)
    requires |columns| == |specs| && offset <= |payload| && ReadData(columns, specs, payload, offset, rows, data).Ok?
    requires forall i, j :: 0 <= i < j < |columns| ==> columns[i].name != columns[j].name
    ensures var (out, next) := ReadData(columns, specs, payload, offset, rows, data).value;
            && |cuts| == |columns| + 1 && cuts[0] == offset && cuts[|columns|] == next
            && (forall j :: 0 <= j < |columns| ==> CutAt(columns, specs, payload, rows, out, cuts, j))
            && (forall name :: name in data && (forall j :: 0 <= j < |columns| ==> columns[j].name != name) ==>
                  name in out && out[name] == data[name])
    decreases columns
  {
    hide ReadCells, FieldOf, ParseColumn, Counts;
    if columns == [] {
      cuts := [offset];
    } else {
      var (cells, next) := ReadCells(columns[0], specs[0], payload, offset, rows).value;
      CellsCut(columns[0], specs[0], payload, offset, rows);
      var tail := DataCut(columns[1..], specs[1..], payload, next, rows, data[columns[0].name := cells]);
      cuts := [offset] + tail;
      var out := ReadData(columns, specs, payload, offset, rows, data).value.0;
      assert forall j :: 0 <= j < |columns| - 1 ==> columns[1..][j].name != columns[0].name;
      forall j | 0 <= j < |columns|
        ensures CutAt(columns, specs, payload, rows, out, cuts, j)
      {
        if j > 0 {
          assert CutAt(columns[1..], specs[1..], payload, rows, out, tail, j - 1);
        }
      }
    }
  }

  /** Table `t` is what its header entry and the payload between two offsets give: its schema, the cells of
      every column, and what building makes of them. */
  ghost predicate TableCut(spec: Json, payload: ByteString, start: nat, end: nat, t: Table) {
    exists rows: int, data: Data, cuts: seq<nat> ::
      && ReadSchema(spec) == Some(t.schema) && Counts(FieldOf(spec, "rows"), rows)
      && ColumnsCut(spec, payload, start, end, t.schema, rows, data, cuts)
      && Build(t.schema, data) == Ok(t)
  }

  predicate ColumnsCut(spec: Json, payload: ByteString, start: nat, end: nat, s: Schema, rows: int, data: Data, cuts: seq<nat>) {
    && FieldOf(spec, "columns").Some? && FieldOf(spec, "columns").value.List?
    && var specs := FieldOf(spec, "columns").value.items;
       && |specs| == |s.columns| && |cuts| == |s.columns| + 1 && cuts[0] == start && cuts[|s.columns|] == end
       && forall j :: 0 <= j < |s.columns| ==> CutAt(s.columns, specs, payload, rows, data, cuts, j)
  }

  lemma BuildKeepsSchema(s: Schema, data: Data)
    requires ValidSchema(s) && Build(s, data).Ok?
    ensures Build(s, data).value.schema == s
  {
    hide ValidSchema, HasColumns, AllNormalise, HasMissing, Codes, SortOrder, Repeats;
  }

  lemma TableIsCut(spec: Json, payload: ByteString, offset: nat)
    requires offset <= |payload| && ReadTable(spec, payload, offset).Ok?
    ensures var (t, end) := ReadTable(spec, payload, offset).value; TableCut(spec, payload, offset, end, t)
  {
    hide ReadSchema, ReadData, FieldOf, Build, CutAt, ValidSchema;
    var schema := ReadSchema(spec).value;
    var rows := IntOf(FieldOf(spec, "rows").value).value;
    var specs := FieldOf(spec, "columns").value.items;
    var (data, next) := ReadData(schema.columns, specs, payload, offset, rows, map[]).value;
    NamesDiffer(schema);
    var cuts := DataCut(schema.columns, specs, payload, offset, rows, map[]);
    BuildKeepsSchema(schema, data);
    assert ColumnsCut(spec, payload, offset, next, schema, rows, data, cuts);
  }

  lemma NamesDiffer(s: Schema)
    requires ValidSchema(s)
    ensures forall i, j :: 0 <= i < j < |s.columns| ==> s.columns[i].name != s.columns[j].name
  {
    hide IsName;
    forall i, j | 0 <= i < j < |s.columns|
      ensures s.columns[i].name != s.columns[j].name
    {
      assert ColumnNames(s)[i] != ColumnNames(s)[j];
    }
  }

  /** The tables follow one another. */
  lemma {:induction false} TablesAreCut(specs: seq<Json>, payload: ByteString, offset: nat) returns (cuts: seq<nat>)
    requires offset <= |payload| && ReadTables(specs, payload, offset).Ok?
    ensures var (tables, end) := ReadTables(specs, payload, offset).value;
            && |tables| == |specs| && |cuts| == |specs| + 1 && cuts[0] == offset && cuts[|specs|] == end
            && forall i :: 0 <= i < |specs| ==> TableCut(specs[i], payload, cuts[i], cuts[i + 1], tables[i])
    decreases specs
  {
    hide ReadTable, TableCut;
    if specs == [] {
      cuts := [offset];
    } else {
      var (t, next) := ReadTable(specs[0], payload, offset).value;
      TableIsCut(specs[0], payload, offset);
      var tail := TablesAreCut(specs[1..], payload, next);
      cuts := [offset] + tail;
      var tables := ReadTables(specs, payload, offset).value.0;
      forall i | 0 <= i < |specs|
        ensures TableCut(specs[i], payload, cuts[i], cuts[i + 1], tables[i])
      {
        if i > 0 {
          assert TableCut(specs[1..][i - 1], payload, tail[i - 1], tail[i], tables[1..][i - 1]);
        }
      }
    }
  }

  /** When a blob decodes: it is an envelope; its tables are at least one, of different names, and lie in the
      payload one after the other, column after column, from its first byte to its last; and the dataset's
      content has the expected id. */
  lemma DecodedMeans(lib: Library, blob: ByteString, expected: Text, maxBytes: int)
    returns (header: Json, payload: ByteString, cuts: seq<nat>)
    requires Checked(lib, blob, expected, maxBytes).Ok?
    ensures var d := Checked(lib, blob, expected, maxBytes).value;
            && Envelope(lib, blob, maxBytes, header, payload)
            && d.tables != [] && Distinct(TableNames(d.tables))
            && FieldOf(header, "identity").Some? && ReadIdentity(FieldOf(header, "identity").value) == Some(d.identity)
            && FieldOf(header, "tables").Some? && FieldOf(header, "tables").value.List?
            && var specs := FieldOf(header, "tables").value.items;
               && |specs| == |d.tables| && |cuts| == |specs| + 1 && cuts[0] == 0 && cuts[|specs|] == |payload|
               && (forall i :: 0 <= i < |specs| ==> TableCut(specs[i], payload, cuts[i], cuts[i + 1], d.tables[i]))
               && DatasetId(lib.sha, d) == Some(expected)
  {
    hide Opened, Envelope, ReadTables, ReadIdentity, FieldOf, TableCut, DatasetId, ValidDataset;
    var (h, p) := Opened(lib, blob, maxBytes).value;
    header, payload := h, p;
    OpensExactly(lib, blob, maxBytes, header, payload);
    cuts := TablesAreCut(FieldOf(header, "tables").value.items, payload, 0);
  }
}
