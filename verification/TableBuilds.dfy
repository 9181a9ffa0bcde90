/**
 What `Table.build` does with the cells it is given, told from the cells alone: which inputs it
 refuses and how, what it stores for each accepted cell, and the order it puts the rows in.
 */
module TableBuilds {
  import opened Wrappers
  import opened Bytes
  import opened Orders
  import opened Columns
  import opened Tables

  const SIGN_BIT: nat := 0x8000_0000_0000_0000

  /** The magnitude of infinity; every NaN has a greater one. */
  const INFINITY: nat := 0x7FF0_0000_0000_0000

  /** A float64 word without its sign. */
  function Magnitude(w: Word): nat {
    w % SIGN_BIT
  }

  // ----- Schemas

  function NameSet(s: Schema): set<Text> {
    set i | 0 <= i < |s.columns| :: s.columns[i].name
  }

  /** The columns a key may use. */
  function KeyNames(s: Schema): set<Text> {
    set i | 0 <= i < |s.columns| && !s.columns[i].nullable :: s.columns[i].name
  }

  /** A schema is accepted exactly when its names are names, no two columns share one, and its key is of
      different columns, at least one, that are not nullable. */
  lemma SchemaExactly(s: Schema)
    ensures ValidSchema(s) <==>
      && s.columns != [] && s.key != [] && IsName(s.name) && (forall name :: name in NameSet(s) ==> IsName(name))
      && |NameSet(s)| == |s.columns| && |Elements(s.key)| == |s.key| && Elements(s.key) <= KeyNames(s)
  {
    DistinctCounted(ColumnNames(s));
    DistinctCounted(s.key);
    assert NameSet(s) == Elements(ColumnNames(s));
    assert Elements(s.key) <= KeyNames(s) <==> forall k :: 0 <= k < |s.key| ==> s.key[k] in KeyNames(s);
    hide IsName;
    assert (forall i :: 0 <= i < |s.columns| ==> IsName(s.columns[i].name)) <==>
           (forall name :: name in NameSet(s) ==> IsName(name));
  }

  function Elements(names: seq<Text>): set<Text> {
    set name | name in names
  }

  lemma {:induction false} DistinctCounted(names: seq<Text>)
    ensures |Elements(names)| <= |names|
    ensures Distinct(names) <==> |Elements(names)| == |names|
  {
    if names != [] {
      var front, last := names[..|names| - 1], names[|names| - 1];
      DistinctCounted(front);
      assert names == front + [last];
      assert Elements(names) == Elements(front) + {last};
      if last in front {
        assert Elements(names) == Elements(front);
        var i :| 0 <= i < |front| && front[i] == last;
        assert names[i] == names[|names| - 1];
      } else if Distinct(front) {
        assert Distinct(names);
      }
    }
  }

  /** The table of daily bars, the first of the three the system declares. */
  function Bars(): Schema {
    Schema(TextOf("bars"),
           [Column(TextOf("symbol"), Utf8, false), Column(TextOf("session_date"), Date32, false),
            Column(TextOf("open"), Float64, true), Column(TextOf("high"), Float64, true),
            Column(TextOf("low"), Float64, true), Column(TextOf("close"), Float64, false),
            Column(TextOf("volume"), Float64, true)],
           [TextOf("symbol"), TextOf("session_date")])
  }

  lemma BarsValid()
    ensures ValidSchema(Bars())
  {
    hide IsName, TextOf;
    BarNames();
    var s := Bars();
    var names := ColumnNames(s);
    assert names == [TextOf("symbol"), TextOf("session_date"), TextOf("open"), TextOf("high"), TextOf("low"),
                     TextOf("close"), TextOf("volume")];
    assert s.columns[0].name == s.key[0] && s.columns[1].name == s.key[1];
  }

  lemma BarNames()
    ensures IsName(TextOf("bars"))
    ensures var names := [TextOf("symbol"), TextOf("session_date"), TextOf("open"), TextOf("high"), TextOf("low"),
                          TextOf("close"), TextOf("volume")];
            Distinct(names) && forall i :: 0 <= i < |names| ==> IsName(names[i])
  {
    NamesOfBars();
    StartsOfBars();
    hide TextOf, IsName;
    var names := [TextOf("symbol"), TextOf("session_date"), TextOf("open"), TextOf("high"), TextOf("low"),
                  TextOf("close"), TextOf("volume")];
    var starts := [115, 115, 111, 104, 108, 99, 118];
    assert forall i :: 0 <= i < 7 ==> names[i][0] == starts[i];
    assert |names[0]| != |names[1]|;
  }

  lemma NamesOfBars()
    ensures IsName(TextOf("bars")) && IsName(TextOf("symbol")) && IsName(TextOf("session_date")) && IsName(TextOf("open"))
    ensures IsName(TextOf("high")) && IsName(TextOf("low")) && IsName(TextOf("close")) && IsName(TextOf("volume"))
  {
  }

  lemma StartsOfBars()
    ensures TextOf("symbol")[0] == 115 && TextOf("session_date")[0] == 115 && TextOf("open")[0] == 111
    ensures TextOf("high")[0] == 104 && TextOf("low")[0] == 108 && TextOf("close")[0] == 99 && TextOf("volume")[0] == 118
    ensures |TextOf("symbol")| == 6 && |TextOf("session_date")| == 12
  {
  }

  // ----- Single cells

  /** A cell the column takes: no infinity anywhere, no NaN where it is not nullable, no lone surrogate. */
  predicate Accepts(c: Column, cell: Cell) {
    match cell
    case Missing => c.nullable || c.kind.Date32? || c.kind.TimestampNs?
    case Number(w) => c.kind.Float64? && (Magnitude(w) < INFINITY || (Magnitude(w) > INFINITY && c.nullable))
    case Days(d) => c.kind.Date32? && -0x8000_0000 <= d < 0x8000_0000
    case Nanos(n) => c.kind.TimestampNs? && -0x8000_0000_0000_0000 < n < 0x8000_0000_0000_0000
    case Chars(t) => c.kind.Utf8? && forall i :: 0 <= i < |t| ==> !(0xD800 <= t[i] < 0xE000)
  }

  /** What an accepted cell becomes: a NaN is missing, both zeros are the positive one, and anything
      else is itself. */
  predicate StoredAs(given: Cell, stored: Cell) {
    match given
    case Number(w) =>
      stored == if Magnitude(w) > INFINITY then Missing else if Magnitude(w) == 0 then Number(0) else given
    case _ => stored == given
  }

  /** A cell that building does not change. */
  predicate Plain(cell: Cell) {
    cell.Number? ==> Magnitude(cell.word) <= INFINITY && cell.word != NEGATIVE_ZERO
  }

  lemma SplitWord(w: Word)
    ensures var e, f := Exponent(w), w % 0x10_0000_0000_0000; e < 0x800 && Magnitude(w) == 0x10_0000_0000_0000 * e + f
  {
    var high := w / 0x10_0000_0000_0000;
    assert w == 0x10_0000_0000_0000 * high + w % 0x10_0000_0000_0000;
    assert high == 0x800 * (high / 0x800) + high % 0x800;
    assert w == SIGN_BIT * (high / 0x800) + (0x10_0000_0000_0000 * (high % 0x800) + w % 0x10_0000_0000_0000);
  }

  lemma Specials(w: Word)
    ensures IsNaN(w) <==> Magnitude(w) > INFINITY
    ensures IsInfinite(w) <==> Magnitude(w) == INFINITY
    ensures Magnitude(w) == 0 <==> w == 0 || w == NEGATIVE_ZERO
  {
    hide Exponent, Magnitude;
    SplitWord(w);
    ZeroMagnitude(w);
  }

  lemma ZeroMagnitude(w: Word)
    ensures Magnitude(w) == 0 <==> w == 0 || w == NEGATIVE_ZERO
  {
  }

  /** Each cell, independently of how it is normalised. */
  lemma CellBuilds(c: Column, cell: Cell)
    ensures NormaliseCell(c, cell).Some? <==> Accepts(c, cell)
    ensures NormaliseCell(c, cell).Some? ==> StoredAs(cell, NormaliseCell(c, cell).value)
  {
    hide IsNaN, IsInfinite, Magnitude;
    if cell.Number? {
      Specials(cell.word);
    }
  }

  // ----- The order of the rows

  /** `a` sorts before `b`: texts by their first different code point, dates and timestamps by time,
      float64 by their bits as a signed integer. */
  ghost predicate CellBefore(a: Cell, b: Cell) {
    match (a, b)
    case (Number(v), Number(w)) => if v < SIGN_BIT <= w then false else if w < SIGN_BIT <= v then true else v < w
    case (Days(d), Days(e)) => d < e
    case (Nanos(m), Nanos(n)) => m < n
    case (Chars(t), Chars(u)) => exists i :: FirstLess(t, u, i)
    case _ => false
  }

  /** `a` and `b` agree before `i`, where `a` ends or is less. */
  predicate FirstLess(a: seq<int>, b: seq<int>, i: nat) {
    i <= |a| && i < |b| && a[..i] == b[..i] && (i == |a| || a[i] < b[i])
  }

  lemma {:induction false} LexLessMeans(a: seq<int>, b: seq<int>) returns (i: nat)
    requires LexLess(a, b)
    ensures FirstLess(a, b, i)
  {
    i := 0;
    if a != [] && a[0] == b[0] {
      i := LexLessMeans(a[1..], b[1..]);
      assert a[..i + 1] == [a[0]] + a[1..][..i] && b[..i + 1] == [b[0]] + b[1..][..i];
      i := i + 1;
    }
  }

  lemma {:induction false} CodeLessMeans(a: Code, b: Code) returns (k: nat)
    requires CodeLess(a, b) && |a| == |b|
    ensures k < |a| && LexLess(a[k], b[k]) && forall j :: 0 <= j < k ==> a[j] == b[j]
  {
    k := 0;
    if !LexLess(a[0], b[0]) {
      k := CodeLessMeans(a[1..], b[1..]);
      assert forall j :: 0 < j <= k ==> a[j] == a[1..][j - 1] && b[j] == b[1..][j - 1];
      k := k + 1;
    }
  }

  lemma CodesOrderCells(c: Column, a: Cell, b: Cell)
    requires NormaliseCell(c, a) == Some(a) && NormaliseCell(c, b) == Some(b) && !a.Missing? && !b.Missing?
    requires LexLess(CellCode(a), CellCode(b))
    ensures CellBefore(a, b)
  {
    if a.Chars? {
      var i := LexLessMeans(a.text, b.text);
      assert FirstLess(a.text, b.text, i);
    }
  }

  /** Row `i` sorts before row `j`: at the first key column where they differ, its cell does. */
  ghost predicate RowBefore(key: seq<Text>, data: Data, n: nat, i: nat, j: nat)
    requires Rectangular(data, n) && i < n && j < n && forall k :: 0 <= k < |key| ==> key[k] in data
  {
    exists k :: 0 <= k < |key| && CellBefore(data[key[k]][i], data[key[k]][j])
                && forall m :: 0 <= m < k ==> data[key[m]][i] == data[key[m]][j]
  }

  // ----- What building does

  lemma KeysPresent(s: Schema, data: Data)
    requires ValidSchema(s) && HasColumns(s, data)
    ensures forall k :: 0 <= k < |s.key| ==> s.key[k] in data
  {
    hide ValidSchema;
    forall k | 0 <= k < |s.key|
      ensures s.key[k] in data
    {
      KeyColumn(s, data, k);
    }
  }

  /** Normalised cells, one by one. */
  lemma ArraysStored(s: Schema, data: Data, i: nat, j: nat)
    requires ValidSchema(s) && HasColumns(s, data) && AllNormalise(s, data) && i < |s.columns|
    ensures s.columns[i].name in data && s.columns[i].name in Normalised(s, data)
    ensures |Normalised(s, data)[s.columns[i].name]| == |data[s.columns[i].name]|
    ensures j < |data[s.columns[i].name]| ==>
              StoredAs(data[s.columns[i].name][j], Normalised(s, data)[s.columns[i].name][j])
  {
    hide ValidSchema, NormaliseCell, StoredAs, ColumnNamed;
    var c, name := s.columns[i], s.columns[i].name;
    ColumnPresent(s, data, i);
    NamedColumn(s, i);
    assert NormalisedColumn(s, data, name).Some?;
    if j < |data[name]| {
      CellBuilds(c, data[name][j]);
    }
  }

  /** A built table holds, column by column, what the given cells become, with the rows in another
      order; where no cell is a NaN or a negative zero its rows are the given rows in that order. */
  lemma BuildStores(s: Schema, data: Data, t: Table) returns (order: seq<nat>)
    requires ValidSchema(s) && Build(s, data) == Ok(t)
    ensures t.schema == s && HasColumns(s, data) && t.columns.Keys == data.Keys
    ensures Rectangular(data, |order|) && Rectangular(t.columns, |order|) && Permutation(order, |order|)
    ensures forall name, k :: name in data && 0 <= k < |order| ==> StoredAs(data[name][order[k]], t.columns[name][k])
    ensures (forall name, k :: name in data && 0 <= k < |order| ==> Plain(data[name][k])) ==>
              Rows(t.columns, |order|) == Permute(Rows(data, |order|), order)
  {
    hide ValidSchema, AllNormalise, HasMissing, Repeats, Build, SortOrder, RowCode, NormalisedColumn, StoredAs, Plain;
    var arrays, n := BuildSteps(s, data, t);
    order := SortOrder(Codes(s.key, Rows(arrays, n)), n);
    SortedRows(s.key, arrays, n, order);
    forall name | name in data
      ensures |data[name]| == n
      ensures forall k :: 0 <= k < n ==> StoredAs(data[name][order[k]], t.columns[name][k])
    {
      var i :| 0 <= i < |s.columns| && s.columns[i].name == name;
      ArraysStored(s, data, i, 0);
      forall k | 0 <= k < n
        ensures StoredAs(data[name][order[k]], t.columns[name][k])
      {
        ArraysStored(s, data, i, order[k]);
      }
    }
    if forall name, k :: name in data && 0 <= k < n ==> Plain(data[name][k]) {
      PlainRows(data, t.columns, n, order);
    }
  }

  lemma PlainRows(data: Data, built: Data, n: nat, order: seq<nat>)
    requires built.Keys == data.Keys && Rectangular(data, n) && Rectangular(built, n) && Permutation(order, n)
    requires forall name, k :: name in data && 0 <= k < n ==> StoredAs(data[name][order[k]], built[name][k])
    requires forall name, k :: name in data && 0 <= k < n ==> Plain(data[name][k])
    ensures Rows(built, n) == Permute(Rows(data, n), order)
  {
    hide StoredAs, Plain;
    forall k | 0 <= k < n
      ensures RowAt(built, n, k) == RowAt(data, n, order[k])
    {
      forall name | name in data
        ensures built[name][k] == data[name][order[k]]
      {
        PlainStored(data[name][order[k]], built[name][k]);
      }
    }
  }

  lemma PlainStored(given: Cell, stored: Cell)
    requires Plain(given) && StoredAs(given, stored)
    ensures stored == given
  {
    hide Magnitude;
    if given.Number? {
      ZeroMagnitude(given.word);
    }
  }

  /** The rows of a built table are in the order of its key, column after column. */
  lemma BuildOrders(s: Schema, data: Data, t: Table, n: nat, i: nat, j: nat)
    requires ValidSchema(s) && Build(s, data) == Ok(t) && Rectangular(t.columns, n) && i < j < n
    ensures forall k :: 0 <= k < |s.key| ==> s.key[k] in t.columns
    ensures RowBefore(s.key, t.columns, n, i, j)
  {
    hide ValidSchema, AllNormalise, HasMissing, Repeats, Build, SortOrder, RowCode, StrictlySorted, CodeLess, CellBefore;
    var arrays, m := BuildSteps(s, data, t);
    var order := SortOrder(Codes(s.key, Rows(arrays, m)), m);
    SortedRows(s.key, arrays, m, order);
    RowsCounted(s, t.columns, n);
    KeysPresent(s, t.columns);
    SortedBefore(s, data, arrays, n, order, i, j);
  }

  lemma RowsCounted(s: Schema, data: Data, n: nat)
    requires ValidSchema(s) && HasColumns(s, data) && Rectangular(data, n)
    ensures RowCount(s, data) == n
  {
    ColumnPresent(s, data, 0);
  }

  lemma SortedBefore(s: Schema, data: Data, arrays: Data, n: nat, order: seq<nat>, i: nat, j: nat)
    requires Sortable(s, data, arrays, n) && Permutation(order, n) && i < j < n
    requires StrictlySorted(Permute(Codes(s.key, Rows(arrays, n)), order))
    requires forall k :: 0 <= k < |s.key| ==> s.key[k] in arrays
    ensures RowBefore(s.key, Reordered(arrays, n, order), n, i, j)
  {
    hide ValidSchema, AllNormalise, HasMissing, RowCode, RowAt, CellCode, CodeLess, CellBefore, LexLess;
    var a, b := RowCode(s.key, RowAt(arrays, n, order[i])), RowCode(s.key, RowAt(arrays, n, order[j]));
    var codes := Permute(Codes(s.key, Rows(arrays, n)), order);
    assert codes[i] == a && codes[j] == b && CodeLess(codes[i], codes[j]);
    var k := CodeLessMeans(a, b);
    KeyCellsOrdered(s, data, arrays, n, order[i], order[j], k);
    var r := Reordered(arrays, n, order);
    forall m | 0 <= m < k
      ensures r[s.key[m]][i] == r[s.key[m]][j]
    {
      KeyCode(s.key, arrays, n, order[i], m);
      KeyCode(s.key, arrays, n, order[j], m);
      CodeTellsCellApart(s, data, arrays, n, order[i], order[j], m);
    }
    assert CellBefore(r[s.key[k]][i], r[s.key[k]][j]);
  }

  lemma KeyCellsOrdered(s: Schema, data: Data, arrays: Data, n: nat, i: nat, j: nat, k: nat)
    requires Sortable(s, data, arrays, n) && i < n && j < n && k < |s.key| && s.key[k] in arrays
    requires LexLess(RowCode(s.key, RowAt(arrays, n, i))[k], RowCode(s.key, RowAt(arrays, n, j))[k])
    ensures CellBefore(arrays[s.key[k]][i], arrays[s.key[k]][j])
  {
    hide ValidSchema, AllNormalise, RowCode, RowAt, CellCode, CellBefore, LexLess, NormaliseCell;
    var name := s.key[k];
    KeyColumn(s, arrays, k);
    NormalisedCell(s, data, name, i);
    NormalisedCell(s, data, name, j);
    assert !arrays[name][i].Missing? && !arrays[name][j].Missing?;
    KeyCode(s.key, arrays, n, i, k);
    KeyCode(s.key, arrays, n, j, k);
    CodesOrderCells(ColumnNamed(s, name).value, arrays[name][i], arrays[name][j]);
  }

  // ----- Which inputs are refused, and how

  /** Every given cell is one its column takes. */
  predicate AllAccepted(s: Schema, data: Data)
    requires HasColumns(s, data)
  {
    forall i, j :: 0 <= i < |s.columns| && s.columns[i].name in data && 0 <= j < |data[s.columns[i].name]| ==>
      Accepts(s.columns[i], data[s.columns[i].name][j])
  }

  /** A cell is missing from a column that is not nullable. */
  predicate HasGap(s: Schema, data: Data) {
    exists i, j :: 0 <= i < |s.columns| && s.columns[i].name in data && 0 <= j < |data[s.columns[i].name]|
      && !s.columns[i].nullable && data[s.columns[i].name][j].Missing?
  }

  /** The same cell once stored: equal, or both a zero. */
  predicate Alike(a: Cell, b: Cell) {
    a == b || (a.Number? && b.Number? && Magnitude(a.word) == 0 && Magnitude(b.word) == 0)
  }

  predicate KeysAlike(key: seq<Text>, data: Data, n: nat, i: nat, j: nat)
    requires Rectangular(data, n) && i < n && j < n && forall k :: 0 <= k < |key| ==> key[k] in data
  {
    forall k :: 0 <= k < |key| ==> Alike(data[key[k]][i], data[key[k]][j])
  }

  lemma AcceptedExactly(s: Schema, data: Data)
    requires ValidSchema(s) && HasColumns(s, data)
    ensures AllNormalise(s, data) <==> AllAccepted(s, data)
  {
    hide ValidSchema, NormaliseCell, Accepts, ColumnNamed;
    forall i | 0 <= i < |s.columns|
      ensures s.columns[i].name in data
      ensures NormalisedColumn(s, data, s.columns[i].name).Some? <==>
                forall j :: 0 <= j < |data[s.columns[i].name]| ==> Accepts(s.columns[i], data[s.columns[i].name][j])
    {
      ColumnAccepted(s, data, i);
    }
    if AllAccepted(s, data) {
      forall name | name in data
        ensures NormalisedColumn(s, data, name).Some?
      {
        var i :| 0 <= i < |s.columns| && s.columns[i].name == name;
      }
    }
  }

  lemma ColumnAccepted(s: Schema, data: Data, i: nat)
    requires ValidSchema(s) && HasColumns(s, data) && i < |s.columns|
    ensures s.columns[i].name in data
    ensures NormalisedColumn(s, data, s.columns[i].name).Some? <==>
              forall j :: 0 <= j < |data[s.columns[i].name]| ==> Accepts(s.columns[i], data[s.columns[i].name][j])
  {
    hide ValidSchema, NormaliseCell, Accepts, ColumnNamed;
    ColumnPresent(s, data, i);
    NamedColumn(s, i);
    var cells := data[s.columns[i].name];
    forall j | 0 <= j < |cells|
      ensures NormaliseCell(s.columns[i], cells[j]).Some? <==> Accepts(s.columns[i], cells[j])
    {
      CellBuilds(s.columns[i], cells[j]);
    }
  }

  lemma MissingExactly(s: Schema, data: Data)
    requires ValidSchema(s) && HasColumns(s, data) && AllNormalise(s, data)
    ensures HasMissing(s, Normalised(s, data)) <==> HasGap(s, data)
  {
    hide ValidSchema, Normalised, AllNormalise, Accepts, StoredAs, ColumnNamed;
    var arrays: Data := Normalised(s, data);
    forall i, j | 0 <= i < |s.columns|
      ensures s.columns[i].name in data && s.columns[i].name in arrays
      ensures |arrays[s.columns[i].name]| == |data[s.columns[i].name]|
      ensures ColumnNamed(s, s.columns[i].name) == Some(s.columns[i])
      ensures 0 <= j < |data[s.columns[i].name]| && !s.columns[i].nullable ==>
                (arrays[s.columns[i].name][j].Missing? <==> data[s.columns[i].name][j].Missing?)
    {
      NamedColumn(s, i);
      ArraysStored(s, data, i, 0);
      if 0 <= j < |data[s.columns[i].name]| && !s.columns[i].nullable {
        ArraysStored(s, data, i, j);
        AcceptedExactly(s, data);
        assert Accepts(s.columns[i], data[s.columns[i].name][j]);
        MissingStored(s.columns[i], data[s.columns[i].name][j], arrays[s.columns[i].name][j]);
      }
    }
    if HasMissing(s, arrays) {
      var name, j :| name in arrays && 0 <= j < |arrays[name]| && arrays[name][j].Missing?
        && ColumnNamed(s, name).Some? && !ColumnNamed(s, name).value.nullable;
      var i :| 0 <= i < |s.columns| && s.columns[i].name == name;
    }
    if HasGap(s, data) {
      var i, j :| 0 <= i < |s.columns| && s.columns[i].name in data && 0 <= j < |data[s.columns[i].name]|
        && !s.columns[i].nullable && data[s.columns[i].name][j].Missing?;
      assert arrays[s.columns[i].name][j].Missing?;
    }
  }

  lemma MissingStored(c: Column, given: Cell, stored: Cell)
    requires !c.nullable && Accepts(c, given) && StoredAs(given, stored)
    ensures stored.Missing? <==> given.Missing?
  {
    hide Magnitude;
  }

  lemma AlikeStored(c: Column, a: Cell, b: Cell, x: Cell, y: Cell)
    requires !c.nullable && Accepts(c, a) && Accepts(c, b) && StoredAs(a, x) && StoredAs(b, y)
    ensures x == y <==> Alike(a, b)
  {
    if a.Number? && b.Number? {
      ZeroMagnitude(a.word);
      ZeroMagnitude(b.word);
    }
  }

  lemma KeysAlikeExactly(s: Schema, data: Data, arrays: Data, n: nat, i: nat, j: nat)
    requires Sortable(s, data, arrays, n) && Rectangular(data, n) && i < n && j < n
    ensures forall k :: 0 <= k < |s.key| ==> s.key[k] in data
    ensures SameKey(s.key, arrays, n, i, j) <==> KeysAlike(s.key, data, n, i, j)
  {
    hide ValidSchema, Normalised, AllNormalise, HasMissing, Accepts, StoredAs, Alike, ColumnNamed;
    KeysPresent(s, data);
    AcceptedExactly(s, data);
    forall k | 0 <= k < |s.key|
      ensures arrays[s.key[k]][i] == arrays[s.key[k]][j] <==> Alike(data[s.key[k]][i], data[s.key[k]][j])
    {
      var at := KeyColumnAt(s, k);
      ArraysStored(s, data, at, i);
      ArraysStored(s, data, at, j);
      AlikeStored(s.columns[at], data[s.key[k]][i], data[s.key[k]][j], arrays[s.key[k]][i], arrays[s.key[k]][j]);
    }
  }

  lemma KeyColumnAt(s: Schema, k: nat) returns (i: nat)
    requires ValidSchema(s) && k < |s.key|
    ensures i < |s.columns| && s.columns[i].name == s.key[k] && !s.columns[i].nullable
  {
    hide IsName, ColumnNames;
    i :| 0 <= i < |s.columns| && s.columns[i].name == s.key[k] && !s.columns[i].nullable;
  }

  /** The first length, told from the given cells. */
  lemma LengthsExactly(s: Schema, data: Data, n: nat)
    requires ValidSchema(s) && HasColumns(s, data) && AllNormalise(s, data)
    requires n == RowCount(s, Normalised(s, data))
    ensures Rectangular(Normalised(s, data), n) <==> Rectangular(data, |data[s.columns[0].name]|)
    ensures n == |data[s.columns[0].name]|
  {
    hide IsName, Normalised, AllNormalise, StoredAs;
    var arrays: Data := Normalised(s, data);
    forall i | 0 <= i < |s.columns|
      ensures |arrays[s.columns[i].name]| == |data[s.columns[i].name]|
    {
      ArraysStored(s, data, i, 0);
    }
    ColumnPresent(s, arrays, 0);
  }

  /** Exactly which inputs are refused, in the order of the checks: wrong columns, a cell its column does
      not take, columns of different lengths, a missing cell, and two rows whose keys are alike. */
  lemma BuildRefusesExactly(s: Schema, data: Data)
    requires ValidSchema(s)
    ensures var r := Build(s, data);
            && (r == Err(WrongColumns) <==> !HasColumns(s, data))
            && (r == Err(BadColumn) <==> HasColumns(s, data) && !AllAccepted(s, data))
            && (HasColumns(s, data) && AllAccepted(s, data) ==>
                  && s.columns != [] && s.columns[0].name in data
                  && var n := |data[s.columns[0].name]|;
                     && (r == Err(DifferentLengths) <==> !Rectangular(data, n))
                     && (r == Err(MissingValue) <==> Rectangular(data, n) && HasGap(s, data))
                     && (Rectangular(data, n) && !HasGap(s, data) ==>
                           && (forall k :: 0 <= k < |s.key| ==> s.key[k] in data)
                           && (r == Err(DuplicateKey) <==> exists i, j :: 0 <= i < j < n && KeysAlike(s.key, data, n, i, j))
                           && (r.Ok? <==> r != Err(DuplicateKey))))
  {
    hide IsName, AllNormalise, HasMissing, Normalised, AllAccepted, HasGap, KeysAlike, SameKey, Codes, SortOrder, Repeats;
    if HasColumns(s, data) {
      AcceptedExactly(s, data);
      ColumnPresent(s, data, 0);
      if AllNormalise(s, data) {
        var arrays: Data := Normalised(s, data);
        var n := RowCount(s, arrays);
        LengthsExactly(s, data, n);
        MissingExactly(s, data);
        KeysPresent(s, data);
        if Rectangular(arrays, n) && !HasMissing(s, arrays) {
          DuplicatesExactly(s, data, arrays, n);
        }
      }
    }
  }

  lemma DuplicatesExactly(s: Schema, data: Data, arrays: Data, n: nat)
    requires Sortable(s, data, arrays, n) && Rectangular(data, n)
    ensures forall k :: 0 <= k < |s.key| ==> s.key[k] in data
    ensures Build(s, data).Ok? <==> !exists i, j :: 0 <= i < j < n && KeysAlike(s.key, data, n, i, j)
    ensures Build(s, data).Err? ==> Build(s, data).error == DuplicateKey
  {
    hide ValidSchema, AllNormalise, HasMissing, Normalised, Build, KeysAlike, SameKey;
    KeysPresent(s, data);
    BuildRefusesDuplicates(s, data, arrays, n);
    forall i: nat, j: nat | i < j < n
      ensures SameKey(s.key, arrays, n, i, j) <==> KeysAlike(s.key, data, n, i, j)
    {
      KeysAlikeExactly(s, data, arrays, n, i, j);
    }
  }
}
