/**
 Datasets, their manifests and their content-addressed ids.

 SHA-256 is a function that is assumed injective and to write hexadecimal digits; nothing else
 is assumed of it.
 */
module Datasets {
  import opened Wrappers
  import opened Bytes
  import opened Orders
  import opened CanonicalJson
  import opened Columns
  import opened Tables

  type Hash = ByteString -> Text

  ghost predicate Collisionless(sha: Hash) {
    && (forall a, b :: sha(a) == sha(b) ==> a == b)
    && (forall a :: ValidUnicode(sha(a)))
  }

  datatype Identity = Identity(
    family: Text,
    provider: Text,
    licenceId: Text,
    frequency: Text,
    sessionBoundary: Text,
    adjustment: Text,
    survivorship: Text)

  datatype Dataset = Dataset(identity: Identity, tables: seq<Table>)

  // ----- Checks made on construction

  predicate Alphanumeric(c: CodePoint) {
    48 <= c <= 57 || 65 <= c <= 90 || 97 <= c <= 122
  }

  /** `[A-Za-z0-9][A-Za-z0-9._:+-]{0,63}`. */
  predicate IsToken(t: Text) {
    && 1 <= |t| <= 64
    && Alphanumeric(t[0])
    && forall i :: 0 <= i < |t| ==> Alphanumeric(t[i]) || t[i] in {46, 95, 58, 43, 45}
  }

  /** A token is a letter or digit and up to 63 more letters, digits, dots, underscores, colons, plus signs
      and hyphens. */
  lemma TokenExactly(t: Text)
    ensures IsToken(t) <==>
      && t != [] && |t| < 65 && (Between(t[0], 'A', 'Z') || Between(t[0], 'a', 'z') || Between(t[0], '0', '9'))
      && forall i :: 0 <= i < |t| ==>
           || Between(t[i], 'A', 'Z') || Between(t[i], 'a', 'z') || Between(t[i], '0', '9')
           || t[i] == '.' as int || t[i] == '_' as int || t[i] == ':' as int || t[i] == '+' as int || t[i] == '-' as int
  {
  }

  predicate ValidIdentity(id: Identity) {
    && IsToken(id.family) && IsToken(id.provider) && IsToken(id.licenceId) && IsToken(id.frequency)
    && IsToken(id.sessionBoundary) && IsToken(id.adjustment) && IsToken(id.survivorship)
  }

  function TableNames(tables: seq<Table>): (names: seq<Text>)
    ensures |names| == |tables|
    ensures forall i :: 0 <= i < |names| ==> names[i] == tables[i].schema.name
  {
    seq(|tables|, i requires 0 <= i < |tables| => tables[i].schema.name)
  }

  /** A dataset that passed `Dataset.__post_init__`, of tables that `Table.build` made. */
  predicate ValidDataset(d: Dataset) {
    && ValidIdentity(d.identity)
    && d.tables != []
    && Distinct(TableNames(d.tables))
    && ValidTables(d.tables)
  }

  predicate ValidTables(tables: seq<Table>) {
    forall i :: 0 <= i < |tables| ==> ValidTable(tables[i])
  }

  // ----- Manifests

  function KindName(kind: Kind): (t: Text)
    ensures ValidUnicode(t)
  {
    match kind
    case Utf8 => TextOf("utf8")
    case Date32 => TextOf("date32")
    case TimestampNs => TextOf("timestamp_ns")
    case Float64 => TextOf("float64")
  }

  lemma KindNamesDiffer(a: Kind, b: Kind)
    requires KindName(a) == KindName(b)
    ensures a == b
  {
    assert |KindName(a)| == |KindName(b)|;
    assert KindName(a)[0] == KindName(b)[0];
  }

  /** Column `i` is there, and its cells are valid for it. */
  lemma ColumnCells(t: Table, i: nat)
    requires ValidTable(t) && i < |t.schema.columns|
    ensures t.schema.columns[i].name in t.columns
    ensures ValidCells(t.schema.columns[i], t.columns[t.schema.columns[i].name])
    ensures |t.columns[t.schema.columns[i].name]| == TableLength(t)
  {
    hide ValidCells, StrictlySorted, Codes, Rows, ValidSchema;
  }

  function ColumnBytes(t: Table, i: nat): ByteString
    requires ValidTable(t) && i < |t.schema.columns|
  {
    ColumnCells(t, i);
    EncodeCells(t.schema.columns[i], t.columns[t.schema.columns[i].name])
  }

  function ColumnFields(c: Column, digest: Text): seq<Field> {
    [Field(TextOf("name"), Str(c.name)), Field(TextOf("nullable"), Bool(c.nullable)),
     Field(TextOf("sha256"), Str(digest)), Field(TextOf("type"), Str(KindName(c.kind)))]
  }

  function ColumnManifests(sha: Hash, t: Table): (items: seq<Json>)
    requires ValidTable(t)
    ensures |items| == |t.schema.columns|
    ensures forall i :: 0 <= i < |items| ==>
      items[i] == Obj(ColumnFields(t.schema.columns[i], sha(ColumnBytes(t, i))))
  {
    seq(|t.schema.columns|, i requires 0 <= i < |t.schema.columns| =>
      Obj(ColumnFields(t.schema.columns[i], sha(ColumnBytes(t, i)))))
  }

  function Strings(texts: seq<Text>): (items: seq<Json>)
    ensures |items| == |texts|
    ensures forall i :: 0 <= i < |items| ==> items[i] == Str(texts[i])
  {
    seq(|texts|, i requires 0 <= i < |texts| => Str(texts[i]))
  }

  const TABLE_SCHEME := TextOf("qs-col-sha256-v1")
  const DATASET_SCHEME := TextOf("qs-ds-sha256-v1")

  /** `len(table)`. */
  function TableLength(t: Table): nat
    requires ValidTable(t)
  {
    RowCount(t.schema, t.columns)
  }

  function TableFields(sha: Hash, t: Table): seq<Field>
    requires ValidTable(t)
  {
    [Field(TextOf("columns"), List(ColumnManifests(sha, t))), Field(TextOf("key"), List(Strings(t.schema.key))),
     Field(TextOf("rows"), Int(TableLength(t))), Field(TextOf("scheme"), Str(TABLE_SCHEME))]
  }

  /** `Table.table_hash`; None where canonical JSON refuses the manifest. */
  function TableHash(sha: Hash, t: Table): Option<Text>
    requires ValidTable(t)
  {
    match Dumps(Obj(TableFields(sha, t)))
    case Err(_) => None
    case Ok(b) => Some(sha(b))
  }

  predicate AllHashed(sha: Hash, tables: seq<Table>)
    requires ValidTables(tables)
  {
    forall i :: 0 <= i < |tables| ==> TableHash(sha, tables[i]).Some?
  }

  function TableHashes(sha: Hash, tables: seq<Table>): (hashes: seq<Text>)
    requires ValidTables(tables) && AllHashed(sha, tables)
    ensures |hashes| == |tables|
    ensures forall i :: 0 <= i < |tables| ==> TableHash(sha, tables[i]) == Some(hashes[i])
  {
    seq(|tables|, i requires 0 <= i < |tables| => TableHash(sha, tables[i]).value)
  }

  function IdentityFields(id: Identity): seq<Field> {
    [Field(TextOf("family"), Str(id.family)), Field(TextOf("provider"), Str(id.provider)),
     Field(TextOf("licence_id"), Str(id.licenceId)), Field(TextOf("frequency"), Str(id.frequency)),
     Field(TextOf("session_boundary"), Str(id.sessionBoundary)), Field(TextOf("adjustment"), Str(id.adjustment)),
     Field(TextOf("survivorship"), Str(id.survivorship))]
  }

  function HashFields(tables: seq<Table>, hashes: seq<Text>): (fields: seq<Field>)
    requires |tables| == |hashes|
    ensures |fields| == |tables|
    ensures forall i :: 0 <= i < |fields| ==> fields[i] == Field(tables[i].schema.name, Str(hashes[i]))
  {
    seq(|tables|, i requires 0 <= i < |tables| => Field(tables[i].schema.name, Str(hashes[i])))
  }

  function DatasetFields(id: Identity, hashes: seq<Field>): seq<Field> {
    [Field(TextOf("identity"), Obj(IdentityFields(id))), Field(TextOf("scheme"), Str(DATASET_SCHEME)),
     Field(TextOf("tables"), Obj(hashes))]
  }

  function DatasetManifest(sha: Hash, d: Dataset): seq<Field>
    requires ValidDataset(d) && AllHashed(sha, d.tables)
  {
    DatasetFields(d.identity, HashFields(d.tables, TableHashes(sha, d.tables)))
  }

  /** `Dataset.dataset_id`; None where canonical JSON refuses a manifest. */
  function DatasetId(sha: Hash, d: Dataset): Option<Text>
    requires ValidDataset(d)
  {
    if !AllHashed(sha, d.tables) then None else
    match Dumps(Obj(DatasetManifest(sha, d)))
    case Err(_) => None
    case Ok(b) => Some(DATASET_SCHEME + TextOf(":") + sha(b))
  }

  // ----- Objects with the same sorted form agree field by field

  lemma SameField(a: seq<Field>, b: seq<Field>, i: nat, j: nat)
    requires DistinctKeys(a) && DistinctKeys(b) && i < |a| && j < |b|
    requires Sorted(Obj(a)) == Sorted(Obj(b))
    requires a[i].key == b[j].key
    ensures Sorted(a[i].value) == Sorted(b[j].value)
  {
    SortedLookup(a, i);
    SortedLookup(b, j);
  }

  lemma {:induction false} GetSome(fields: seq<Field>, key: Text) returns (i: nat)
    requires Get(fields, key).Some?
    ensures i < |fields| && fields[i].key == key
  {
    if fields[0].key == key {
      i := 0;
    } else {
      i := GetSome(fields[1..], key);
      i := i + 1;
    }
  }

  lemma SameKeys(a: seq<Field>, b: seq<Field>, i: nat) returns (j: nat)
    requires DistinctKeys(a) && DistinctKeys(b) && i < |a|
    requires Sorted(Obj(a)) == Sorted(Obj(b))
    ensures j < |b| && a[i].key == b[j].key
  {
    SortedLookup(a, i);
    var values := SortValues(b);
    SortFieldsStrictly(values);
    var sorted := SortFields(values);
    assert Sorted(Obj(b)) == Obj(sorted);
    var k := GetSome(sorted, a[i].key);
    assert sorted[k] in values;
    j :| 0 <= j < |values| && values[j] == sorted[k];
  }

  lemma SameItems(a: seq<Json>, b: seq<Json>)
    requires Sorted(List(a)) == Sorted(List(b))
    ensures |a| == |b| && forall i :: 0 <= i < |a| ==> Sorted(a[i]) == Sorted(b[i])
  {
    var sa, sb := Sorted(List(a)).items, Sorted(List(b)).items;
    assert |a| == |sa| && |b| == |sb|;
    assert forall i :: 0 <= i < |a| ==> sa[i] == Sorted(a[i]);
    assert forall i :: 0 <= i < |b| ==> sb[i] == Sorted(b[i]);
  }

  lemma TableKeysDistinct(sha: Hash, t: Table)
    requires ValidTable(t)
    ensures DistinctKeys(TableFields(sha, t))
  {
    hide ValidTable;
    assert TextOf("columns")[0] == 99 && TextOf("key")[0] == 107 && TextOf("rows")[0] == 114 && TextOf("scheme")[0] == 115;
  }

  lemma ColumnKeysDistinct(c: Column, digest: Text)
    ensures DistinctKeys(ColumnFields(c, digest))
  {
    assert TextOf("name")[1] == 97 && TextOf("nullable")[1] == 117 && TextOf("sha256")[1] == 104 && TextOf("type")[1] == 121;
  }

  lemma DatasetKeysDistinct(id: Identity, hashes: seq<Field>)
    ensures DistinctKeys(DatasetFields(id, hashes))
  {
    assert TextOf("identity")[0] == 105 && TextOf("scheme")[0] == 115 && TextOf("tables")[0] == 116;
  }

  lemma IdentityKeysDistinct(id: Identity)
    ensures DistinctKeys(IdentityFields(id))
  {
    assert TextOf("family")[0] == 102 && TextOf("frequency")[0] == 102;
    assert TextOf("family")[1] == 97 && TextOf("frequency")[1] == 114;
    assert TextOf("provider")[0] == 112 && TextOf("licence_id")[0] == 108 && TextOf("adjustment")[0] == 97;
    assert TextOf("session_boundary")[0] == 115 && TextOf("survivorship")[0] == 115;
    assert TextOf("session_boundary")[1] == 101 && TextOf("survivorship")[1] == 117;
  }

  // ----- Manifests are injective

  lemma ColumnManifestInjective(c: Column, d: Column, x: Text, y: Text)
    requires Sorted(Obj(ColumnFields(c, x))) == Sorted(Obj(ColumnFields(d, y)))
    ensures c == d && x == y
  {
    hide TextOf, Sorted;
    ColumnKeysDistinct(c, x);
    ColumnKeysDistinct(d, y);
    var a, b := ColumnFields(c, x), ColumnFields(d, y);
    SameField(a, b, 0, 0);
    SameField(a, b, 1, 1);
    SameField(a, b, 2, 2);
    SameField(a, b, 3, 3);
    ScalarsSort(a[0].value, b[0].value);
    ScalarsSort(a[1].value, b[1].value);
    ScalarsSort(a[2].value, b[2].value);
    ScalarsSort(a[3].value, b[3].value);
    KindNamesDiffer(c.kind, d.kind);
  }

  /** Sorting leaves a scalar as it is. */
  lemma ScalarsSort(v: Json, w: Json)
    requires !v.List? && !v.Obj? && !w.List? && !w.Obj?
    ensures Sorted(v) == v && Sorted(w) == w
  {
  }

  lemma TextsSort(a: seq<Text>, b: seq<Text>)
    requires Sorted(List(Strings(a))) == Sorted(List(Strings(b)))
    ensures a == b
  {
    SameItems(Strings(a), Strings(b));
    assert |Strings(a)| == |a| && |Strings(b)| == |b|;
    forall i | 0 <= i < |a|
      ensures a[i] == b[i]
    {
      ScalarsSort(Strings(a)[i], Strings(b)[i]);
    }
  }

  /** A table's manifest tells everything about the table but its name. */
  lemma TableManifestInjective(sha: Hash, t: Table, u: Table)
    requires Collisionless(sha) && ValidTable(t) && ValidTable(u)
    requires t.schema.name == u.schema.name
    requires Sorted(Obj(TableFields(sha, t))) == Sorted(Obj(TableFields(sha, u)))
    ensures t == u
  {
    hide TextOf, Sorted, ValidTable, ColumnFields, ColumnBytes;
    TableKeysDistinct(sha, t);
    TableKeysDistinct(sha, u);
    var a, b := TableFields(sha, t), TableFields(sha, u);
    SameField(a, b, 0, 0);
    SameField(a, b, 1, 1);
    SameField(a, b, 2, 2);
    ScalarsSort(a[2].value, b[2].value);
    TextsSort(t.schema.key, u.schema.key);
    SameItems(ColumnManifests(sha, t), ColumnManifests(sha, u));
    forall i | 0 <= i < |t.schema.columns|
      ensures t.schema.columns[i] == u.schema.columns[i]
      ensures ColumnBytes(t, i) == ColumnBytes(u, i)
    {
      ColumnManifestInjective(t.schema.columns[i], u.schema.columns[i],
                              sha(ColumnBytes(t, i)), sha(ColumnBytes(u, i)));
    }
    assert t.schema == u.schema;
    BytesDetermineTable(t, u);
  }

  lemma BytesDetermineTable(t: Table, u: Table)
    requires ValidTable(t) && ValidTable(u) && t.schema == u.schema
    requires TableLength(t) == TableLength(u)
    requires forall i :: 0 <= i < |t.schema.columns| ==> ColumnBytes(t, i) == ColumnBytes(u, i)
    ensures t == u
  {
    forall name | name in t.columns
      ensures t.columns[name] == u.columns[name]
    {
      var i :| 0 <= i < |t.schema.columns| && t.schema.columns[i].name == name;
      ColumnCells(t, i);
      ColumnCells(u, i);
      assert ColumnBytes(t, i) == ColumnBytes(u, i);
      ColumnInjective(t.schema.columns[i], t.columns[name], u.columns[name]);
    }
    assert t.columns.Keys == u.columns.Keys;
  }

  lemma IdentityInjective(x: Identity, y: Identity)
    requires Sorted(Obj(IdentityFields(x))) == Sorted(Obj(IdentityFields(y)))
    ensures x == y
  {
    hide TextOf, Sorted;
    IdentityKeysDistinct(x);
    IdentityKeysDistinct(y);
    var a, b := IdentityFields(x), IdentityFields(y);
    forall i | 0 <= i < 7
      ensures a[i].value == b[i].value
    {
      SameField(a, b, i, i);
      ScalarsSort(a[i].value, b[i].value);
    }
    assert a[0].value == b[0].value && a[1].value == b[1].value && a[2].value == b[2].value;
    assert a[3].value == b[3].value && a[4].value == b[4].value && a[5].value == b[5].value;
    assert a[6].value == b[6].value;
  }

  // ----- Which datasets have an id

  lemma TokenUnicode(t: Text)
    ensures IsToken(t) || IsName(t) ==> IsAscii(t) && ValidUnicode(t)
  {
  }

  lemma ColumnManifestCanonical(c: Column, digest: Text)
    requires IsName(c.name) && ValidUnicode(digest)
    ensures Canonical(Obj(ColumnFields(c, digest)))
  {
    TokenUnicode(c.name);
    ObjCanonical(ColumnFields(c, digest));
  }

  /** A table has a hash unless it has more rows than a JSON integer may say. */
  lemma TableHashDefined(sha: Hash, t: Table)
    requires Collisionless(sha) && ValidTable(t)
    ensures TableHash(sha, t).Some? <==> TableLength(t) <= 0x1F_FFFF_FFFF_FFFF
  {
    hide ColumnFields, ColumnBytes, TextOf, ValidColumns, StrictlySorted, Sorted, IsName;
    var fields := TableFields(sha, t);
    forall i | 0 <= i < |t.schema.columns|
      ensures Canonical(ColumnManifests(sha, t)[i])
    {
      ColumnManifestCanonical(t.schema.columns[i], sha(ColumnBytes(t, i)));
    }
    ListCanonical(ColumnManifests(sha, t));
    forall k | 0 <= k < |t.schema.key|
      ensures Canonical(Strings(t.schema.key)[k])
    {
      var i :| 0 <= i < |t.schema.columns| && t.schema.columns[i].name == t.schema.key[k];
      TokenUnicode(t.schema.columns[i].name);
    }
    ListCanonical(Strings(t.schema.key));
    TableFieldsCanonical(fields[0].value, fields[1].value, TableLength(t));
  }

  lemma TableFieldsCanonical(columns: Json, key: Json, rows: nat)
    requires Canonical(columns) && Canonical(key)
    ensures Canonical(Obj([Field(TextOf("columns"), columns), Field(TextOf("key"), key),
                           Field(TextOf("rows"), Int(rows)), Field(TextOf("scheme"), Str(TABLE_SCHEME))]))
       <==> rows <= MAX_SAFE_INTEGER
  {
    var fields := [Field(TextOf("columns"), columns), Field(TextOf("key"), key),
                   Field(TextOf("rows"), Int(rows)), Field(TextOf("scheme"), Str(TABLE_SCHEME))];
    if rows <= MAX_SAFE_INTEGER {
      ObjCanonical(fields);
    } else if FirstFieldError(fields).None? {
      FieldsWithoutError(fields, 2);
    }
  }

  lemma ManifestCanonical(sha: Hash, d: Dataset)
    requires Collisionless(sha) && ValidDataset(d) && AllHashed(sha, d.tables)
    ensures Canonical(Obj(DatasetManifest(sha, d)))
  {
    hide ValidTable, Sorted, TableHash;
    var id := IdentityFields(d.identity);
    IdentityCanonical(d.identity);
    var hashes := HashFields(d.tables, TableHashes(sha, d.tables));
    forall i | 0 <= i < |hashes|
      ensures IsAscii(hashes[i].key) && Canonical(hashes[i].value)
    {
      HashUnicode(sha, d.tables[i]);
    }
    ObjCanonical(hashes);
    ObjCanonical(DatasetManifest(sha, d));
  }

  lemma HashUnicode(sha: Hash, t: Table)
    requires Collisionless(sha) && ValidTable(t)
    ensures IsAscii(t.schema.name)
    ensures TableHash(sha, t).Some? ==> ValidUnicode(TableHash(sha, t).value)
  {
    hide TableFields, Dumps;
    TokenUnicode(t.schema.name);
  }

  lemma IdentityCanonical(id: Identity)
    requires ValidIdentity(id)
    ensures Canonical(Obj(IdentityFields(id)))
  {
    hide IsToken, TextOf, IsAscii, ValidUnicode;
    TokenUnicode(id.family);
    TokenUnicode(id.provider);
    TokenUnicode(id.licenceId);
    TokenUnicode(id.frequency);
    TokenUnicode(id.sessionBoundary);
    TokenUnicode(id.adjustment);
    TokenUnicode(id.survivorship);
    IdentityKeysAscii(id);
    ObjCanonical(IdentityFields(id));
  }

  lemma IdentityKeysAscii(id: Identity)
    ensures forall i :: 0 <= i < |IdentityFields(id)| ==> IsAscii(IdentityFields(id)[i].key)
  {
    hide TextOf, IsAscii;
    LiteralAscii("family");
    LiteralAscii("provider");
    LiteralAscii("licence_id");
    LiteralAscii("frequency");
    LiteralAscii("session_boundary");
    LiteralAscii("adjustment");
    LiteralAscii("survivorship");
  }

  lemma LiteralAscii(s: string)
    requires forall i :: 0 <= i < |s| ==> s[i] as int < 128
    ensures IsAscii(TextOf(s))
  {
  }

  /** A dataset has an id exactly when no table has more than 2**53 - 1 rows. */
  lemma IdDefined(sha: Hash, d: Dataset)
    requires Collisionless(sha) && ValidDataset(d)
    ensures DatasetId(sha, d).Some?
       <==> forall i :: 0 <= i < |d.tables| ==> TableLength(d.tables[i]) <= 0x1F_FFFF_FFFF_FFFF
  {
    hide ValidTable, TableHash, Dumps, DatasetManifest, ValidIdentity;
    forall i | 0 <= i < |d.tables|
      ensures TableHash(sha, d.tables[i]).Some? <==> TableLength(d.tables[i]) <= MAX_SAFE_INTEGER
    {
      TableHashDefined(sha, d.tables[i]);
    }
    if AllHashed(sha, d.tables) {
      ManifestCanonical(sha, d);
    }
  }

  // ----- Main results

  lemma HashKeysDistinct(tables: seq<Table>, hashes: seq<Text>)
    requires Distinct(TableNames(tables)) && |hashes| == |tables|
    ensures DistinctKeys(HashFields(tables, hashes))
  {
    var fields := HashFields(tables, hashes);
    forall i, j | 0 <= i < j < |fields|
      ensures fields[i].key != fields[j].key
    {
      assert TableNames(tables)[i] != TableNames(tables)[j];
    }
  }

  /** The same id means the same manifest, up to the order of keys. */
  lemma SameIdSameManifest(sha: Hash, c: Dataset, d: Dataset)
    requires Collisionless(sha) && ValidDataset(c) && ValidDataset(d)
    requires DatasetId(sha, c).Some? && DatasetId(sha, c) == DatasetId(sha, d)
    ensures AllHashed(sha, c.tables) && AllHashed(sha, d.tables)
    ensures Sorted(Obj(DatasetManifest(sha, c))) == Sorted(Obj(DatasetManifest(sha, d)))
  {
    hide Canonical, Dumps, ValidTables, ValidIdentity, Sorted, DatasetManifest, AllHashed;
    var prefix := DATASET_SCHEME + TextOf(":");
    var v, w := Obj(DatasetManifest(sha, c)), Obj(DatasetManifest(sha, d));
    var x, y := Dumps(v), Dumps(w);
    assert (prefix + sha(x.value))[|prefix|..] == sha(x.value);
    assert (prefix + sha(y.value))[|prefix|..] == sha(y.value);
    CanonicalInjective(v, w);
  }

  /** Tables whose hashes agree have the same manifest, up to the order of keys. */
  lemma SameHashSameTable(sha: Hash, t: Table, u: Table)
    requires Collisionless(sha) && ValidTable(t) && ValidTable(u) && t.schema.name == u.schema.name
    requires TableHash(sha, t).Some? && TableHash(sha, t) == TableHash(sha, u)
    ensures t == u
  {
    hide Canonical, Dumps, ValidTable, Sorted, TableFields;
    var v, w := Obj(TableFields(sha, t)), Obj(TableFields(sha, u));
    CanonicalInjective(v, w);
    TableManifestInjective(sha, t, u);
  }

  /** One direction of the next lemma, for one table. */
  lemma TableSurvives(sha: Hash, c: Dataset, d: Dataset, i: nat)
    requires Collisionless(sha) && ValidDataset(c) && ValidDataset(d) && i < |c.tables|
    requires AllHashed(sha, c.tables) && AllHashed(sha, d.tables)
    requires Sorted(Obj(HashFields(c.tables, TableHashes(sha, c.tables))))
          == Sorted(Obj(HashFields(d.tables, TableHashes(sha, d.tables))))
    ensures c.tables[i] in d.tables
  {
    hide ValidTable, Sorted, TableHash, TableHashes, ValidIdentity;
    var x, y := TableHashes(sha, c.tables), TableHashes(sha, d.tables);
    var a, b := HashFields(c.tables, x), HashFields(d.tables, y);
    HashKeysDistinct(c.tables, x);
    HashKeysDistinct(d.tables, y);
    var j := SameKeys(a, b, i);
    SameField(a, b, i, j);
    ScalarsSort(a[i].value, b[j].value);
    SameHashSameTable(sha, c.tables[i], d.tables[j]);
  }

  /** The id names the content: two datasets with the same id have the same identity facts and the
      same tables, schemas and rows included, in some order. */
  lemma SameIdSameContent(sha: Hash, c: Dataset, d: Dataset)
    requires Collisionless(sha) && ValidDataset(c) && ValidDataset(d)
    requires DatasetId(sha, c).Some? && DatasetId(sha, c) == DatasetId(sha, d)
    ensures c.identity == d.identity
    ensures forall t :: t in c.tables <==> t in d.tables
  {
    hide ValidTables, ValidIdentity, Sorted, TableHashes, IdentityFields, DatasetId, TextOf, AllHashed;
    SameIdSameManifest(sha, c, d);
    var a, b := DatasetManifest(sha, c), DatasetManifest(sha, d);
    DatasetKeysDistinct(c.identity, HashFields(c.tables, TableHashes(sha, c.tables)));
    DatasetKeysDistinct(d.identity, HashFields(d.tables, TableHashes(sha, d.tables)));
    SameField(a, b, 0, 0);
    SameField(a, b, 2, 2);
    IdentityInjective(c.identity, d.identity);
    forall t
      ensures t in c.tables <==> t in d.tables
    {
      if t in c.tables {
        var i: nat :| i < |c.tables| && c.tables[i] == t;
        TableSurvives(sha, c, d, i);
      }
      if t in d.tables {
        var i: nat :| i < |d.tables| && d.tables[i] == t;
        TableSurvives(sha, d, c, i);
      }
    }
  }

  /** Conversely the id ignores the order of the tables. */
  lemma IdIgnoresTableOrder(sha: Hash, c: Dataset, d: Dataset)
    requires Collisionless(sha) && ValidDataset(c) && ValidDataset(d) && c.identity == d.identity
    requires forall t :: t in c.tables <==> t in d.tables
    ensures DatasetId(sha, c) == DatasetId(sha, d)
  {
    hide ValidTable, ValidIdentity, Sorted, TableHash, IdentityFields, TextOf, Dumps;
    assert AllHashed(sha, c.tables) <==> AllHashed(sha, d.tables) by {
      forall t | t in c.tables
        ensures ValidTable(t)
      {
      }
      assert AllHashed(sha, c.tables) <==> forall t :: t in c.tables ==> TableHash(sha, t).Some?;
      assert AllHashed(sha, d.tables) <==> forall t :: t in d.tables ==> TableHash(sha, t).Some?;
    }
    if AllHashed(sha, c.tables) {
      var x, y := TableHashes(sha, c.tables), TableHashes(sha, d.tables);
      var a, b := HashFields(c.tables, x), HashFields(d.tables, y);
      HashKeysDistinct(c.tables, x);
      HashKeysDistinct(d.tables, y);
      forall f
        ensures f in a <==> f in b
      {
        SameHashFields(sha, c.tables, d.tables, f);
        SameHashFields(sha, d.tables, c.tables, f);
      }
      KeyOrderIrrelevant(a, b);
      TablesLastSorted(c.identity, a, b);
      ManifestCanonical(sha, c);
      ManifestCanonical(sha, d);
      CanonicalInjective(Obj(DatasetManifest(sha, c)), Obj(DatasetManifest(sha, d)));
    }
  }

  lemma SameHashFields(sha: Hash, c: seq<Table>, d: seq<Table>, f: Field)
    requires ValidTables(c) && ValidTables(d) && AllHashed(sha, c) && AllHashed(sha, d)
    requires forall t :: t in c ==> t in d
    ensures f in HashFields(c, TableHashes(sha, c)) ==> f in HashFields(d, TableHashes(sha, d))
  {
    hide ValidTable, TableHash;
    var a, b := HashFields(c, TableHashes(sha, c)), HashFields(d, TableHashes(sha, d));
    if f in a {
      var i :| 0 <= i < |a| && a[i] == f;
      assert c[i] in d;
      var j :| 0 <= j < |d| && d[j] == c[i];
      assert b[j] == f;
    }
  }

  lemma TablesLastSorted(id: Identity, a: seq<Field>, b: seq<Field>)
    requires Sorted(Obj(a)) == Sorted(Obj(b))
    ensures Sorted(Obj(DatasetFields(id, a))) == Sorted(Obj(DatasetFields(id, b)))
  {
    hide IdentityFields, TextOf, SortFields;
    assert SortValues(DatasetFields(id, a)) == SortValues(DatasetFields(id, b));
  }
}
