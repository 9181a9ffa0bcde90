/**
 Tables: rows of typed columns, sorted by their key, and `Table.build`, which makes one.
 */
module Tables {
  import opened Wrappers
  import opened Bytes
  import opened Orders
  import opened Columns

  datatype Schema = Schema(name: Text, columns: seq<Column>, key: seq<Text>)

  /** A mapping from column name to that column's cells. */
  type Data = map<Text, seq<Cell>>
  type Row = map<Text, Cell>

  datatype Table = Table(schema: Schema, columns: Data)

  datatype TableError = BadSchema | WrongColumns | BadColumn | DifferentLengths | MissingValue | DuplicateKey

  // ----- Schemas

  predicate LowerCase(c: CodePoint) {
    97 <= c <= 122
  }

  /** `[a-z][a-z0-9_]{0,62}`. */
  predicate IsName(t: Text) {
    && 1 <= |t| <= 63
    && LowerCase(t[0])
    && forall i :: 0 <= i < |t| ==> LowerCase(t[i]) || 48 <= t[i] <= 57 || t[i] == 95
  }

  /** A code point between two characters. */
  predicate Between(c: CodePoint, low: char, high: char) {
    low as int <= c <= high as int
  }

  /** A name is a small letter and up to 62 more small letters, digits and underscores. */
  lemma NameExactly(t: Text)
    ensures IsName(t) <==>
      && t != [] && |t| < 64 && Between(t[0], 'a', 'z')
      && forall i :: 0 <= i < |t| ==> Between(t[i], 'a', 'z') || Between(t[i], '0', '9') || t[i] == '_' as int
  {
  }

  function ColumnNames(s: Schema): (names: seq<Text>)
    ensures |names| == |s.columns|
    ensures forall i :: 0 <= i < |names| ==> names[i] == s.columns[i].name
  {
    seq(|s.columns|, i requires 0 <= i < |s.columns| => s.columns[i].name)
  }

  /** What `TableSchema.__post_init__` lets through. */
  predicate ValidSchema(s: Schema) {
    && IsName(s.name)
    && s.columns != []
    && (forall i :: 0 <= i < |s.columns| ==> IsName(s.columns[i].name))
    && Distinct(ColumnNames(s))
    && s.key != []
    && Distinct(s.key)
    && forall k :: 0 <= k < |s.key| ==>
         exists i :: 0 <= i < |s.columns| && s.columns[i].name == s.key[k] && !s.columns[i].nullable
  }

  predicate HasColumns(s: Schema, data: Data) {
    data.Keys == (set i | 0 <= i < |s.columns| :: s.columns[i].name)
  }

  lemma ColumnPresent(s: Schema, data: Data, i: nat)
    requires HasColumns(s, data) && i < |s.columns|
    ensures s.columns[i].name in data
  {
  }

  // ----- Rows and their sort codes

  predicate Rectangular(data: Data, n: nat) {
    forall name :: name in data ==> |data[name]| == n
  }

  function RowAt(data: Data, n: nat, i: nat): Row
    requires Rectangular(data, n) && i < n
  {
    map name | name in data :: data[name][i]
  }

  function Rows(data: Data, n: nat): (rows: seq<Row>)
    requires Rectangular(data, n)
    ensures |rows| == n
    ensures forall i :: 0 <= i < n ==> rows[i] == RowAt(data, n, i)
  {
    seq(n, i requires 0 <= i < n => RowAt(data, n, i))
  }

  /** A cell as `np.lexsort` compares it: numbers, dates and timestamps as int64 (a float64 by its
      bits, so negative floats sort last to first), text by code point. */
  function CellCode(cell: Cell): seq<int> {
    match cell
    case Missing => []
    case Number(w) => [AsSigned(w, TWO_64)]
    case Days(d) => [d]
    case Nanos(n) => [n]
    case Chars(t) => t
  }

  function RowCode(key: seq<Text>, row: Row): (code: Code)
    ensures |code| == |key|
  {
    seq(|key|, k requires 0 <= k < |key| => if key[k] in row then CellCode(row[key[k]]) else [])
  }

  function Codes(key: seq<Text>, rows: seq<Row>): (codes: seq<Code>)
    ensures |codes| == |rows|
    ensures forall i :: 0 <= i < |rows| ==> codes[i] == RowCode(key, rows[i])
  {
    CodesOf(rows, row => RowCode(key, row))
  }

  // ----- Building

  function NormaliseCells(c: Column, cells: seq<Cell>): (r: Option<seq<Cell>>)
    ensures r.None? <==> exists i :: 0 <= i < |cells| && NormaliseCell(c, cells[i]).None?
    ensures r.Some? ==> |r.value| == |cells|
                        && forall i :: 0 <= i < |cells| ==> NormaliseCell(c, cells[i]) == Some(r.value[i])
  {
    if exists i :: 0 <= i < |cells| && NormaliseCell(c, cells[i]).None? then None
    else Some(seq(|cells|, i requires 0 <= i < |cells| => NormaliseCell(c, cells[i]).value))
  }

  function ColumnNamed(s: Schema, name: Text): (c: Option<Column>)
    ensures c.Some? <==> exists i :: 0 <= i < |s.columns| && s.columns[i].name == name
    ensures c.Some? ==> c.value in s.columns && c.value.name == name
  {
    FindColumn(s.columns, name)
  }

  function FindColumn(columns: seq<Column>, name: Text): (c: Option<Column>)
    ensures c.Some? <==> exists i :: 0 <= i < |columns| && columns[i].name == name
    ensures c.Some? ==> c.value in columns && c.value.name == name
  {
    if columns == [] then None
    else if columns[0].name == name then Some(columns[0])
    else
      assert forall i :: 0 < i < |columns| ==> columns[i] == columns[1..][i - 1];
      FindColumn(columns[1..], name)
  }

  function NormalisedColumn(s: Schema, data: Data, name: Text): Option<seq<Cell>>
    requires name in data
  {
    match ColumnNamed(s, name)
    case None => None
    case Some(c) => NormaliseCells(c, data[name])
  }

  predicate AllNormalise(s: Schema, data: Data) {
    forall name :: name in data ==> NormalisedColumn(s, data, name).Some?
  }

  function Normalised(s: Schema, data: Data): (r: Data)
    requires AllNormalise(s, data)
    ensures r.Keys == data.Keys
    ensures forall name :: name in data ==> r[name] == NormalisedColumn(s, data, name).value
  {
    map name | name in data :: NormalisedColumn(s, data, name).value
  }

  predicate HasMissing(s: Schema, data: Data) {
    exists name, i :: name in data && 0 <= i < |data[name]| && data[name][i].Missing?
      && ColumnNamed(s, name).Some? && !ColumnNamed(s, name).value.nullable
  }

  function Reordered(data: Data, n: nat, order: seq<nat>): (r: Data)
    requires Rectangular(data, n)
    requires forall k :: 0 <= k < |order| ==> order[k] < n
    ensures r.Keys == data.Keys
    ensures forall name :: name in data ==> r[name] == Permute(data[name], order)
  {
    map name | name in data :: Permute(data[name], order)
  }

  predicate Repeats(codes: seq<Code>) {
    exists k :: 0 <= k < |codes| - 1 && codes[k] == codes[k + 1]
  }

  /** `len` of the first column. */
  function RowCount(s: Schema, data: Data): nat
    requires ValidSchema(s) && HasColumns(s, data)
  {
    ColumnPresent(s, data, 0);
    |data[s.columns[0].name]|
  }

  /** `Table.build` for a schema that passed its own checks. */
  function Build(s: Schema, data: Data): Result<Table, TableError>
    requires ValidSchema(s)
  {
    if !HasColumns(s, data) then Err(WrongColumns)
    else if !AllNormalise(s, data) then Err(BadColumn)
    else
      var arrays := Normalised(s, data);
      var n := RowCount(s, arrays);
      if !Rectangular(arrays, n) then Err(DifferentLengths)
      else if HasMissing(s, arrays) then Err(MissingValue)
      else
        var codes := Codes(s.key, Rows(arrays, n));
        var order := SortOrder(codes, n);
        if Repeats(Permute(codes, order)) then Err(DuplicateKey)
        else Ok(Table(s, Reordered(arrays, n, order)))
  }

  // ----- What a table is

  predicate ValidColumns(s: Schema, data: Data) {
    forall i :: 0 <= i < |s.columns| ==>
      s.columns[i].name in data && ValidCells(s.columns[i], data[s.columns[i].name])
  }

  /** A table `Table.build` could have made: what every later operation may assume. */
  predicate ValidTable(t: Table) {
    && ValidSchema(t.schema)
    && HasColumns(t.schema, t.columns)
    && ValidColumns(t.schema, t.columns)
    && Rectangular(t.columns, RowCount(t.schema, t.columns))
    && StrictlySorted(Codes(t.schema.key, TableRows(t)))
  }

  function TableRows(t: Table): seq<Row>
    requires ValidSchema(t.schema) && HasColumns(t.schema, t.columns)
    requires Rectangular(t.columns, RowCount(t.schema, t.columns))
  {
    Rows(t.columns, RowCount(t.schema, t.columns))
  }

  // ----- Lemmas

  /** Looking a column up by its name finds it. */
  lemma NamedColumn(s: Schema, i: nat)
    requires ValidSchema(s) && i < |s.columns|
    ensures ColumnNamed(s, s.columns[i].name) == Some(s.columns[i])
  {
    hide IsName;
    var found := ColumnNamed(s, s.columns[i].name).value;
    var j :| 0 <= j < |s.columns| && s.columns[j] == found;
    assert ColumnNames(s)[i] == ColumnNames(s)[j];
  }

  /** Normal forms are their own normal forms. */
  lemma NormaliseTwice(c: Column, cell: Cell)
    requires NormaliseCell(c, cell).Some?
    ensures NormaliseCell(c, NormaliseCell(c, cell).value) == NormaliseCell(c, cell)
  {
  }

  lemma ReorderedRows(data: Data, n: nat, order: seq<nat>)
    requires Rectangular(data, n)
    requires |order| == n && forall k :: 0 <= k < |order| ==> order[k] < n
    ensures Rectangular(Reordered(data, n, order), n)
    ensures Rows(Reordered(data, n, order), n) == Permute(Rows(data, n), order)
  {
    var r := Reordered(data, n, order);
    forall k | 0 <= k < n
      ensures RowAt(r, n, k) == RowAt(data, n, order[k])
    {
    }
  }

  /** Columns are determined by their names and rows. */
  lemma RowsDetermineData(a: Data, b: Data, n: nat)
    requires a.Keys == b.Keys && Rectangular(a, n) && Rectangular(b, n)
    requires Rows(a, n) == Rows(b, n)
    ensures a == b
  {
    forall name | name in a
      ensures a[name] == b[name]
    {
      forall i | 0 <= i < n
        ensures a[name][i] == b[name][i]
      {
        assert Rows(a, n)[i][name] == a[name][i] && Rows(b, n)[i][name] == b[name][i];
      }
    }
  }

  lemma PermutedElements<T>(s: seq<T>, order: seq<nat>)
    requires Permutation(order, |s|)
    ensures forall x :: x in Permute(s, order) <==> x in s
  {
    forall x | x in s
      ensures x in Permute(s, order)
    {
      var i: nat :| i < |s| && s[i] == x;
      assert i in order;
      var k :| 0 <= k < |order| && order[k] == i;
      assert Permute(s, order)[k] == x;
    }
  }

  /** Two tables' data with the same set of rows, each strictly sorted, are the same. */
  lemma SortedDataUnique(key: seq<Text>, a: Data, b: Data, n: nat, m: nat)
    requires a.Keys == b.Keys && Rectangular(a, n) && Rectangular(b, m)
    requires StrictlySorted(Codes(key, Rows(a, n))) && StrictlySorted(Codes(key, Rows(b, m)))
    requires forall row :: row in Rows(a, n) <==> row in Rows(b, m)
    ensures n == m && a == b
  {
    StrictlySortedUnique(Rows(a, n), Rows(b, m), row => RowCode(key, row));
    assert n == |Rows(a, n)| == |Rows(b, m)| == m;
    RowsDetermineData(a, b, n);
  }

  /** The data `Build` sorts. */
  ghost predicate Sortable(s: Schema, data: Data, arrays: Data, n: nat) {
    && ValidSchema(s) && HasColumns(s, data) && AllNormalise(s, data)
    && arrays == Normalised(s, data) && n == RowCount(s, arrays)
    && Rectangular(arrays, n) && !HasMissing(s, arrays)
  }

  /** Sorting by the key either leaves equal neighbours or sorts strictly. */
  lemma SortedRows(key: seq<Text>, arrays: Data, n: nat, order: seq<nat>)
    requires Rectangular(arrays, n)
    requires order == SortOrder(Codes(key, Rows(arrays, n)), n)
    ensures Permutation(order, n)
    ensures Rectangular(Reordered(arrays, n, order), n)
    ensures Rows(Reordered(arrays, n, order), n) == Permute(Rows(arrays, n), order)
    ensures Codes(key, Rows(Reordered(arrays, n, order), n)) == Permute(Codes(key, Rows(arrays, n)), order)
    ensures !Repeats(Permute(Codes(key, Rows(arrays, n)), order)) ==>
              StrictlySorted(Permute(Codes(key, Rows(arrays, n)), order))
  {
    hide SortOrder, SortedOn, Repeats, StrictlySorted, RowCode, RowAt;
    var codes := Codes(key, Rows(arrays, n));
    SortOrderIsPermutation(codes, n);
    SortOrderSorts(codes, n);
    ReorderedRows(arrays, n, order);
    if !Repeats(Permute(codes, order)) {
      StrictWithoutRepeats(codes, order);
    }
  }

  lemma StrictWithoutRepeats(codes: seq<Code>, order: seq<nat>)
    requires forall k :: 0 <= k < |order| ==> order[k] < |codes|
    requires SortedOn(codes, order) && !Repeats(Permute(codes, order))
    ensures StrictlySorted(Permute(codes, order))
  {
    hide CodeLess;
    var sorted := Permute(codes, order);
    forall k | 0 <= k < |order| - 1
      ensures codes[order[k]] != codes[order[k + 1]]
    {
      assert sorted[k] != sorted[k + 1];
    }
    SortedWithoutRepeats(codes, order);
  }

  lemma PermutedDistinct<T>(s: seq<T>, order: seq<nat>)
    requires Permutation(order, |s|)
    ensures Distinct(Permute(s, order)) <==> Distinct(s)
  {
    var p := Permute(s, order);
    if Distinct(p) {
      forall i: nat, j: nat | i < j < |s|
        ensures s[i] != s[j]
      {
        assert i in order && j in order;
        var a :| 0 <= a < |order| && order[a] == i;
        var b :| 0 <= b < |order| && order[b] == j;
        assert p[a] != p[b] by { if a < b {} else {} }
      }
    }
    if Distinct(s) {
      forall a, b | 0 <= a < b < |p|
        ensures p[a] != p[b]
      {
        assert order[a] != order[b];
      }
    }
  }

  lemma StrictlySortedDistinct(codes: seq<Code>)
    requires StrictlySorted(codes)
    ensures Distinct(codes)
  {
    forall i, j | 0 <= i < j < |codes|
      ensures codes[i] != codes[j]
    {
      CodeLessTotal(codes[i], codes[j]);
    }
  }

  /** Neighbours repeat after sorting exactly when some two codes are equal. */
  lemma RepeatsWhenSorted(codes: seq<Code>)
    ensures Repeats(Permute(codes, SortOrder(codes, |codes|))) <==> !Distinct(codes)
  {
    var order := SortOrder(codes, |codes|);
    var sorted := Permute(codes, order);
    SortOrderIsPermutation(codes, |codes|);
    SortOrderSorts(codes, |codes|);
    PermutedDistinct(codes, order);
    if !Repeats(sorted) {
      assert forall k :: 0 <= k < |order| - 1 ==> sorted[k] != sorted[k + 1];
      SortedWithoutRepeats(codes, order);
      StrictlySortedDistinct(sorted);
    }
  }

  // ----- Built tables are valid, sorted permutations of their input

  /** Every text takes fewer than 2**64 bytes, as any text in memory does. */
  predicate TextsFit(data: Data) {
    forall name, i :: name in data && 0 <= i < |data[name]| && data[name][i].Chars? ==>
      ValidUnicode(data[name][i].text) ==> |EncodeUtf8(data[name][i].text)| < TWO_64
  }

  lemma NormalisedValid(s: Schema, data: Data)
    requires ValidSchema(s) && HasColumns(s, data)
    requires TextsFit(data) && AllNormalise(s, data) && !HasMissing(s, Normalised(s, data))
    ensures ValidColumns(s, Normalised(s, data))
  {
    hide EncodeUtf8, ValidSchema, HasColumns, NormaliseCell, ValidCell;
    var arrays := Normalised(s, data);
    forall k | 0 <= k < |s.columns|
      ensures s.columns[k].name in arrays && ValidCells(s.columns[k], arrays[s.columns[k].name])
    {
      var c, name := s.columns[k], s.columns[k].name;
      ColumnPresent(s, data, k);
      NamedColumn(s, k);
      assert NormalisedColumn(s, data, name).Some?;
      forall i | 0 <= i < |arrays[name]|
        ensures ValidCell(c, arrays[name][i])
      {
        assert arrays[name][i].Missing? ==> c.nullable;
        NormalCellValid(c, data[name][i]);
      }
    }
  }

  lemma NormalCellValid(c: Column, cell: Cell)
    requires NormaliseCell(c, cell).Some? && (NormaliseCell(c, cell).value.Missing? ==> c.nullable)
    requires cell.Chars? && ValidUnicode(cell.text) ==> |EncodeUtf8(cell.text)| < TWO_64
    ensures ValidCell(c, NormaliseCell(c, cell).value)
  {
    hide EncodeUtf8, ValidUnicode;
    NormaliseTwice(c, cell);
  }

  lemma ReorderedValid(s: Schema, data: Data, n: nat, order: seq<nat>)
    requires Rectangular(data, n) && ValidColumns(s, data)
    requires forall k :: 0 <= k < |order| ==> order[k] < n
    ensures ValidColumns(s, Reordered(data, n, order))
  {
    hide ValidCell;
  }

  /** `Table.build` succeeds only with a table that is sorted strictly by its key and whose rows
      are a permutation of the normalised input rows. */
  lemma BuildSorts(s: Schema, data: Data, t: Table) returns (order: seq<nat>)
    requires ValidSchema(s) && TextsFit(data) && Build(s, data) == Ok(t)
    ensures t.schema == s && ValidTable(t)
    ensures AllNormalise(s, data)
    ensures Rectangular(Normalised(s, data), |TableRows(t)|)
    ensures Permutation(order, |TableRows(t)|)
    ensures TableRows(t) == Permute(Rows(Normalised(s, data), |TableRows(t)|), order)
  {
    hide ValidColumns, TextsFit, AllNormalise, HasMissing, Repeats, ValidSchema, HasColumns, Build, SortOrder, RowCode;
    var arrays, n := BuildSteps(s, data, t);
    order := SortOrder(Codes(s.key, Rows(arrays, n)), n);
    SortedRows(s.key, arrays, n, order);
    NormalisedValid(s, data);
    ReorderedValid(s, arrays, n, order);
  }

  lemma BuildSteps(s: Schema, data: Data, t: Table) returns (arrays: Data, n: nat)
    requires ValidSchema(s) && Build(s, data) == Ok(t)
    ensures Sortable(s, data, arrays, n)
    ensures var codes := Codes(s.key, Rows(arrays, n));
            !Repeats(Permute(codes, SortOrder(codes, n)))
            && t == Table(s, Reordered(arrays, n, SortOrder(codes, n)))
    ensures HasColumns(s, t.columns) && RowCount(s, t.columns) == n
  {
    hide HasMissing, AllNormalise, Repeats, SortOrder, Codes, NormalisedColumn, ValidSchema, RowCount, Permute;
    arrays := Normalised(s, data);
    n := RowCount(s, arrays);
    RowCountKept(s, arrays, n, SortOrder(Codes(s.key, Rows(arrays, n)), n));
  }

  lemma RowCountKept(s: Schema, arrays: Data, n: nat, order: seq<nat>)
    requires ValidSchema(s) && HasColumns(s, arrays) && Rectangular(arrays, n)
    requires |order| == n && forall k :: 0 <= k < |order| ==> order[k] < n
    ensures HasColumns(s, Reordered(arrays, n, order)) && RowCount(s, Reordered(arrays, n, order)) == n
  {
    ColumnPresent(s, arrays, 0);
  }

  // ----- Which inputs are refused

  predicate SameKey(key: seq<Text>, data: Data, n: nat, i: nat, j: nat)
    requires Rectangular(data, n) && i < n && j < n
  {
    forall k :: 0 <= k < |key| && key[k] in data ==> data[key[k]][i] == data[key[k]][j]
  }

  lemma KeyColumn(s: Schema, data: Data, k: nat)
    requires ValidSchema(s) && HasColumns(s, data) && k < |s.key|
    ensures s.key[k] in data
    ensures ColumnNamed(s, s.key[k]).Some? && !ColumnNamed(s, s.key[k]).value.nullable
  {
    var i :| 0 <= i < |s.columns| && s.columns[i].name == s.key[k] && !s.columns[i].nullable;
    ColumnPresent(s, data, i);
    var c := ColumnNamed(s, s.key[k]).value;
    var j :| 0 <= j < |s.columns| && s.columns[j] == c;
    assert ColumnNames(s)[i] == ColumnNames(s)[j];
  }

  lemma CodeDeterminesCell(c: Column, a: Cell, b: Cell)
    requires NormaliseCell(c, a) == Some(a) && NormaliseCell(c, b) == Some(b)
    requires !a.Missing? && !b.Missing?
    requires CellCode(a) == CellCode(b)
    ensures a == b
  {
    if a.Number? {
      assert [AsSigned(a.word, TWO_64)][0] == [AsSigned(b.word, TWO_64)][0];
    } else if a.Days? {
      assert [a.days][0] == [b.days][0];
    } else if a.Nanos? {
      assert [a.ns][0] == [b.ns][0];
    }
  }

  lemma NormalisedCell(s: Schema, data: Data, name: Text, i: nat)
    requires AllNormalise(s, data) && name in data && i < |Normalised(s, data)[name]|
    ensures ColumnNamed(s, name).Some?
    ensures NormaliseCell(ColumnNamed(s, name).value, Normalised(s, data)[name][i]) == Some(Normalised(s, data)[name][i])
  {
    assert NormalisedColumn(s, data, name).Some?;
    NormaliseTwice(ColumnNamed(s, name).value, data[name][i]);
  }

  lemma CodeTellsCellApart(s: Schema, data: Data, arrays: Data, n: nat, i: nat, j: nat, k: nat)
    requires Sortable(s, data, arrays, n) && i < n && j < n && k < |s.key|
    ensures s.key[k] in arrays
    ensures CellCode(arrays[s.key[k]][i]) == CellCode(arrays[s.key[k]][j]) <==> arrays[s.key[k]][i] == arrays[s.key[k]][j]
  {
    hide NormaliseCell, CellCode, ValidSchema, AllNormalise;
    var name := s.key[k];
    KeyColumn(s, arrays, k);
    NormalisedCell(s, data, name, i);
    NormalisedCell(s, data, name, j);
    assert !arrays[name][i].Missing? && !arrays[name][j].Missing?;
    if CellCode(arrays[name][i]) == CellCode(arrays[name][j]) {
      CodeDeterminesCell(ColumnNamed(s, name).value, arrays[name][i], arrays[name][j]);
    }
  }

  lemma CodesTellKeysApart(s: Schema, data: Data, arrays: Data, n: nat, i: nat, j: nat)
    requires Sortable(s, data, arrays, n) && i < n && j < n
    ensures Codes(s.key, Rows(arrays, n))[i] == Codes(s.key, Rows(arrays, n))[j]
       <==> SameKey(s.key, arrays, n, i, j)
  {
    hide RowCode, RowAt, CellCode, ValidSchema, AllNormalise, HasMissing;
    var a, b := RowCode(s.key, RowAt(arrays, n, i)), RowCode(s.key, RowAt(arrays, n, j));
    forall k | 0 <= k < |s.key|
      ensures s.key[k] in arrays && (a[k] == b[k] <==> arrays[s.key[k]][i] == arrays[s.key[k]][j])
    {
      CodeTellsCellApart(s, data, arrays, n, i, j, k);
      KeyCode(s.key, arrays, n, i, k);
      KeyCode(s.key, arrays, n, j, k);
    }
    assert Codes(s.key, Rows(arrays, n))[i] == a && Codes(s.key, Rows(arrays, n))[j] == b;
    assert a == b <==> forall k :: 0 <= k < |s.key| ==> a[k] == b[k];
  }

  lemma KeyCode(key: seq<Text>, arrays: Data, n: nat, i: nat, k: nat)
    requires Rectangular(arrays, n) && i < n && k < |key| && key[k] in arrays
    ensures RowCode(key, RowAt(arrays, n, i))[k] == CellCode(arrays[key[k]][i])
  {
    hide CellCode;
  }

  /** Among inputs whose columns are otherwise acceptable, exactly those with two equal keys are refused. */
  lemma BuildRefusesDuplicates(s: Schema, data: Data, arrays: Data, n: nat)
    requires Sortable(s, data, arrays, n)
    ensures Build(s, data).Ok? <==> forall i: nat, j: nat :: i < j < n ==> !SameKey(s.key, arrays, n, i, j)
    ensures Build(s, data).Err? ==> Build(s, data).error == DuplicateKey
  {
    hide ValidSchema, AllNormalise, HasMissing, SameKey, RowCode, SortOrder;
    var codes := Codes(s.key, Rows(arrays, n));
    RepeatsWhenSorted(codes);
    assert Build(s, data).Ok? <==> Distinct(codes);
    forall i: nat, j: nat | i < j < n
      ensures codes[i] == codes[j] <==> SameKey(s.key, arrays, n, i, j)
    {
      CodesTellKeysApart(s, data, arrays, n, i, j);
    }
  }

  // ----- The order of the input rows does not matter

  lemma NormaliseReordered(s: Schema, data: Data, n: nat, order: seq<nat>)
    requires Rectangular(data, n) && Permutation(order, n)
    ensures AllNormalise(s, Reordered(data, n, order)) <==> AllNormalise(s, data)
    ensures AllNormalise(s, data) ==>
      && Rectangular(Normalised(s, data), n)
      && Normalised(s, Reordered(data, n, order)) == Reordered(Normalised(s, data), n, order)
      && (HasMissing(s, Normalised(s, Reordered(data, n, order))) <==> HasMissing(s, Normalised(s, data)))
  {
    hide NormalisedColumn, HasMissing;
    var r := Reordered(data, n, order);
    forall name | name in data
      ensures NormalisedColumn(s, r, name).Some? <==> NormalisedColumn(s, data, name).Some?
      ensures NormalisedColumn(s, data, name).Some? ==> |NormalisedColumn(s, data, name).value| == n
      ensures NormalisedColumn(s, data, name).Some? ==>
        NormalisedColumn(s, r, name).value == Permute(NormalisedColumn(s, data, name).value, order)
    {
      NormaliseReorderedColumn(s, data, n, order, name);
    }
    if AllNormalise(s, data) {
      MissingReordered(s, Normalised(s, data), n, order);
    }
  }

  lemma NormaliseReorderedColumn(s: Schema, data: Data, n: nat, order: seq<nat>, name: Text)
    requires Rectangular(data, n) && Permutation(order, n) && name in data
    ensures var c := NormalisedColumn(s, data, name);
            var r := NormalisedColumn(s, Reordered(data, n, order), name);
            && (r.Some? <==> c.Some?)
            && (c.Some? ==> |c.value| == n && r.value == Permute(c.value, order))
  {
    hide NormaliseCell, Permutation;
    if ColumnNamed(s, name).Some? {
      NormalisePermuted(ColumnNamed(s, name).value, data[name], order);
    }
  }

  lemma NormalisePermuted(c: Column, cells: seq<Cell>, order: seq<nat>)
    requires Permutation(order, |cells|)
    ensures NormaliseCells(c, Permute(cells, order)).Some? <==> NormaliseCells(c, cells).Some?
    ensures NormaliseCells(c, cells).Some? ==>
      NormaliseCells(c, Permute(cells, order)).value == Permute(NormaliseCells(c, cells).value, order)
  {
    hide NormaliseCell;
    PermutedElements(cells, order);
    var p := Permute(cells, order);
    if i :| 0 <= i < |cells| && NormaliseCell(c, cells[i]).None? {
      assert cells[i] in p;
      var k :| 0 <= k < |p| && p[k] == cells[i];
      assert NormaliseCell(c, p[k]).None?;
    }
  }

  lemma MissingReordered(s: Schema, data: Data, n: nat, order: seq<nat>)
    requires Rectangular(data, n) && Permutation(order, n)
    ensures HasMissing(s, Reordered(data, n, order)) <==> HasMissing(s, data)
  {
    var r := Reordered(data, n, order);
    if HasMissing(s, data) {
      var name, i :| name in data && 0 <= i < |data[name]| && data[name][i].Missing?
        && ColumnNamed(s, name).Some? && !ColumnNamed(s, name).value.nullable;
      PermutedElements(data[name], order);
      assert data[name][i] in r[name];
      var k :| 0 <= k < |r[name]| && r[name][k] == data[name][i];
    }
  }

  /** Every reordering of the input rows builds the same table, or fails the same way. */
  lemma BuildIgnoresRowOrder(s: Schema, data: Data, n: nat, order: seq<nat>)
    requires ValidSchema(s) && Rectangular(data, n) && Permutation(order, n)
    ensures Build(s, Reordered(data, n, order)) == Build(s, data)
  {
    hide HasMissing, AllNormalise, NormaliseCells, ColumnNamed;
    var r := Reordered(data, n, order);
    if HasColumns(s, data) {
      NormaliseReordered(s, data, n, order);
      if AllNormalise(s, data) {
        var a := Normalised(s, data);
        ColumnPresent(s, a, 0);
        assert RowCount(s, a) == n && RowCount(s, Reordered(a, n, order)) == n;
        ReorderedRows(a, n, order);
        SortReordered(s.key, a, n, order);
      }
    }
  }

  lemma SortReordered(key: seq<Text>, a: Data, n: nat, order: seq<nat>)
    requires Rectangular(a, n) && Permutation(order, n)
    requires Rectangular(Reordered(a, n, order), n)
    ensures var b := Reordered(a, n, order);
            var ca, cb := Codes(key, Rows(a, n)), Codes(key, Rows(b, n));
            && (Repeats(Permute(ca, SortOrder(ca, n))) <==> Repeats(Permute(cb, SortOrder(cb, n))))
            && (!Repeats(Permute(ca, SortOrder(ca, n))) ==>
                  Reordered(a, n, SortOrder(ca, n)) == Reordered(b, n, SortOrder(cb, n)))
  {
    hide SortOrder, RowCode;
    var b := Reordered(a, n, order);
    var ca, cb := Codes(key, Rows(a, n)), Codes(key, Rows(b, n));
    ReorderedRows(a, n, order);
    assert cb == Permute(ca, order);
    PermutedDistinct(ca, order);
    RepeatsWhenSorted(ca);
    RepeatsWhenSorted(cb);
    if Distinct(ca) {
      var oa, ob := SortOrder(ca, n), SortOrder(cb, n);
      SortedRows(key, a, n, oa);
      SortedRows(key, b, n, ob);
      PermutedElements(Rows(a, n), oa);
      PermutedElements(Rows(b, n), ob);
      PermutedElements(Rows(a, n), order);
      SortedDataUnique(key, Reordered(a, n, oa), Reordered(b, n, ob), n, n);
    }
  }

  // ----- Building from a built table gives it back

  lemma ValidNormalises(s: Schema, data: Data)
    requires ValidSchema(s) && HasColumns(s, data) && ValidColumns(s, data)
    ensures AllNormalise(s, data) && Normalised(s, data) == data
    ensures !HasMissing(s, data)
  {
    hide NormalisedColumn, ColumnNamed, ValidCells, ValidSchema;
    forall name | name in data
      ensures NormalisedColumn(s, data, name) == Some(data[name])
      ensures forall i :: 0 <= i < |data[name]| && data[name][i].Missing? ==>
                ColumnNamed(s, name).Some? && ColumnNamed(s, name).value.nullable
    {
      var k :| 0 <= k < |s.columns| && s.columns[k].name == name;
      ValidColumnNormalises(s, data, k);
    }
  }

  lemma ValidColumnNormalises(s: Schema, data: Data, k: nat)
    requires ValidSchema(s) && ValidColumns(s, data) && k < |s.columns|
    ensures var name := s.columns[k].name;
            && name in data && NormalisedColumn(s, data, name) == Some(data[name])
            && forall i :: 0 <= i < |data[name]| && data[name][i].Missing? ==>
                 ColumnNamed(s, name).Some? && ColumnNamed(s, name).value.nullable
  {
    hide NormaliseCells, ValidCells, ValidSchema, ColumnNamed;
    NamedColumn(s, k);
    ValidCellsNormalise(s.columns[k], data[s.columns[k].name]);
  }

  lemma ValidCellsNormalise(c: Column, cells: seq<Cell>)
    requires ValidCells(c, cells)
    ensures NormaliseCells(c, cells) == Some(cells)
    ensures forall i :: 0 <= i < |cells| && cells[i].Missing? ==> c.nullable
  {
    hide NormaliseCell, EncodeUtf8, ValidUnicode;
    assert NormaliseCells(c, cells).value == cells;
  }

  lemma BuildRebuilds(t: Table)
    requires ValidTable(t)
    ensures Build(t.schema, t.columns) == Ok(t)
  {
    hide ValidSchema, HasMissing, AllNormalise, ValidColumns, NormaliseCells, SortOrder, RowCode;
    var s, data := t.schema, t.columns;
    var n := RowCount(s, data);
    ValidNormalises(s, data);
    var codes := Codes(s.key, Rows(data, n));
    var order := SortOrder(codes, n);
    StrictlySortedDistinct(codes);
    RepeatsWhenSorted(codes);
    SortedRows(s.key, data, n, order);
    PermutedElements(Rows(data, n), order);
    SortedDataUnique(s.key, Reordered(data, n, order), data, n, n);
  }
}
