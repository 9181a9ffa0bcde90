/**
 The bytes of the dataset format, one by one. The round trips would hold of any format that its
 reader undoes; these lemmas say which one it is.
 */
module ByteLayouts {
  import opened Wrappers
  import opened Bytes
  import opened CanonicalJson
  import opened Columns
  import opened Tables
  import opened TableBuilds
  import opened Datasets
  import opened Blobs

  // ----- Integers

  /** Digit `k` of `n` to the base of 256, the lowest first. */
  function Octet(n: nat, k: nat): Byte {
    n / Pow256(k) % 256
  }

  lemma QuotientTwice(n: nat, m: nat)
    requires m > 0
    ensures n / 256 / m == n / (256 * m)
  {
    var q := n / 256 / m;
    var low, high := n / 256 % m, n % 256;
    assert n / 256 == q * m + low;
    assert n == 256 * (q * m + low) + high == q * (256 * m) + (256 * low + high);
    assert 256 * low + high < 256 * m;
    QuotientIs(n, 256 * m, q, 256 * low + high);
  }

  lemma QuotientIs(n: nat, m: nat, q: nat, r: nat)
    requires m > 0 && n == q * m + r && r < m
    ensures n / m == q
  {
    var d := n / m - q;
    var excess := d * m;
    assert excess == r - n % m;
  }

  lemma {:induction false} IntegerLayout(n: nat, width: nat, k: nat)
    requires k < width
    ensures LittleEndian(n, width)[k] == Octet(n, k)
  {
    if k > 0 {
      IntegerLayout(n / 256, width - 1, k - 1);
      QuotientTwice(n, Pow256(k - 1));
    }
  }

  /** Two's complement is the remainder by the power of two. */
  lemma SignedLayout(i: int, width: nat, k: nat)
    requires -(Pow256(width) as int) <= 2 * i < Pow256(width) && k < width
    ensures SignedBytes(i, width)[k] == Octet(i % Pow256(width), k)
  {
    hide LittleEndian, Octet, Pow256;
    Remainder(i, Pow256(width));
    IntegerLayout(i % Pow256(width), width, k);
  }

  lemma Remainder(i: int, m: int)
    requires m > 0 && -m <= 2 * i < m
    ensures i % m == if i < 0 then i + m else i
  {
    var q := i / m;
    var multiple := q * m;
    assert i == multiple + i % m;
  }

  // ----- Texts

  /** How a scalar value is spelled: in as few bytes as hold it, the first telling how many, six bits in
      each of the others. */
  lemma ScalarLayout(c: CodePoint)
    requires !Surrogate(c)
    ensures var b: seq<int> := EncodeScalar(c);
            && |b| == (if c < 0x80 then 1 else if c < 0x800 then 2 else if c < 0x1_0000 then 3 else 4)
            && (forall i :: 0 < i < |b| ==> 0x80 <= b[i] < 0xC0)
            && (|b| == 1 ==> c == b[0])
            && (|b| == 2 ==> 0xC0 <= b[0] < 0xE0 && c == 64 * (b[0] - 0xC0) + (b[1] - 0x80))
            && (|b| == 3 ==> 0xE0 <= b[0] < 0xF0 && c == 0x1000 * (b[0] - 0xE0) + 64 * (b[1] - 0x80) + (b[2] - 0x80))
            && (|b| == 4 ==> 0xF0 <= b[0] < 0xF5 &&
                             c == 0x4_0000 * (b[0] - 0xF0) + 0x1000 * (b[1] - 0x80) + 64 * (b[2] - 0x80) + (b[3] - 0x80))
  {
    SixBitsOf(c);
  }

  // ----- Rows of columns

  /** The bytes of a cell: a validity byte where the column is nullable, then the value, zero for a null.
      A number is its word, a date four bytes and a timestamp eight in two's complement, and a text its
      length in bytes and its UTF-8. */
  lemma CellLayout(c: Column, cell: Cell, k: nat)
    requires ValidCell(c, cell)
    ensures var b, skip := EncodeCell(c, cell), if c.nullable then 1 else 0;
            && |b| >= skip && (c.nullable ==> b[0] == if cell.Missing? then 0 else 1)
            && match cell
               case Missing =>
                 |b| == skip + (if c.kind.Date32? then 4 else 8) && (skip <= k < |b| ==> b[k] == 0)
               case Number(w) => |b| == skip + 8 && (k < 8 ==> b[skip + k] == Octet(w, k))
               case Days(d) => |b| == skip + 4 && (k < 4 ==> b[skip + k] == Octet(d % 0x1_0000_0000, k))
               case Nanos(n) =>
                 |b| == skip + 8 && (k < 8 ==> b[skip + k] == Octet(n % 0x1_0000_0000_0000_0000, k))
               case Chars(t) =>
                 && |b| == skip + 8 + |EncodeUtf8(t)| && b[skip + 8..] == EncodeUtf8(t)
                 && (k < 8 ==> b[skip + k] == Octet(|EncodeUtf8(t)|, k))
  {
    hide LittleEndian, EncodeUtf8, SignedBytes, Octet;
    Pow256Values();
    match cell
    case Missing => ZeroLayout(Width8(c), k - if c.nullable then 1 else 0);
    case Number(w) => WordLayout(w, k);
    case Days(d) =>
      if k < 4 {
        SignedLayout(d, 4, k);
      }
    case Nanos(n) =>
      if k < 8 {
        SignedLayout(n, 8, k);
      }
    case Chars(t) => WordLayout(|EncodeUtf8(t)|, k);
  }

  function Width8(c: Column): nat {
    if c.kind.Date32? then 4 else 8
  }

  lemma WordLayout(n: nat, k: nat)
    ensures k < 8 ==> LittleEndian(n, 8)[k] == Octet(n, k)
  {
    if k < 8 {
      IntegerLayout(n, 8, k);
    }
  }

  lemma ZeroLayout(width: nat, k: int)
    ensures 0 <= k < width ==> LittleEndian(0, width)[k] == 0
  {
    if 0 <= k < width {
      IntegerLayout(0, width, k);
      assert 0 / Pow256(k) == 0;
    }
  }

  function WordOf(b: ByteString): Word
    requires |b| == 8
  {
    Pow256Values();
    FromLittleEndian(b)
  }

  const NOT_A_TIME: ByteString := [0, 0, 0, 0, 0, 0, 0, 0x80]

  /** What a record of a fixed-width column is read as, whatever its bytes: refused only for its validity
      byte; missing where that byte says so, for a NaN, and for the least timestamp; else a value of
      just these bytes. */
  lemma RecordRead(c: Column, raw: ByteString, k: nat)
    requires !c.kind.Utf8? && |raw| == ItemSize(c)
    ensures var r, value := ParseRecord(c, raw), if c.nullable then raw[1..] else raw;
            && (r.Err? <==> c.nullable && raw[0] > 1)
            && (r.Ok? ==>
                  && (r.value.Missing? <==>
                        || (c.nullable && raw[0] == 0)
                        || (c.kind.Float64? && Magnitude(WordOf(value)) > INFINITY)
                        || (c.kind.TimestampNs? && value == NOT_A_TIME))
                  && match r.value
                     case Missing => true
                     case Number(w) => c.kind.Float64? && (k < 8 ==> value[k] == Octet(w, k))
                     case Days(d) => c.kind.Date32? && (k < 4 ==> value[k] == Octet(d % 0x1_0000_0000, k))
                     case Nanos(n) =>
                       c.kind.TimestampNs? && (k < 8 ==> value[k] == Octet(n % 0x1_0000_0000_0000_0000, k))
                     case Chars(_) => false)
  {
    hide FromLittleEndian, LittleEndian, SignedBytes, FromSignedBytes, Octet, IsNaN, Magnitude;
    Pow256Values();
    var value := if c.nullable then raw[1..] else raw;
    match c.kind
    case Float64 =>
      LittleEndianOf(value);
      WordLayout(FromLittleEndian(value), k);
      Specials(FromLittleEndian(value));
    case Date32 =>
      SignedRead(value, k);
    case TimestampNs =>
      SignedRead(value, k);
      LeastTimestamp(value);
  }

  lemma SignedRead(b: ByteString, k: nat)
    ensures k < |b| ==> b[k] == Octet(FromSignedBytes(b) % Pow256(|b|), k)
  {
    hide SignedBytes, FromSignedBytes, Octet, Pow256;
    SignedBytesOf(b);
    if k < |b| {
      SignedLayout(FromSignedBytes(b), |b|, k);
    }
  }

  lemma LeastTimestamp(b: ByteString)
    requires |b| == 8
    ensures FromSignedBytes(b) == -0x8000_0000_0000_0000 <==> b == NOT_A_TIME
  {
    hide FromLittleEndian;
    Pow256Values();
    LittleEndianOf(b);
    LittleEndianOf(NOT_A_TIME);
    LeastBytes();
  }

  lemma LeastBytes()
    ensures FromLittleEndian(NOT_A_TIME) == 0x8000_0000_0000_0000
  {
    assert NOT_A_TIME[1..] == [0, 0, 0, 0, 0, 0, 0x80] && NOT_A_TIME[1..][1..] == [0, 0, 0, 0, 0, 0x80];
    assert FromLittleEndian([0x80]) == 0x80;
    assert FromLittleEndian([0, 0x80]) == 0x8000;
    assert FromLittleEndian([0, 0, 0x80]) == 0x80_0000;
    assert FromLittleEndian([0, 0, 0, 0x80]) == 0x8000_0000;
    assert FromLittleEndian([0, 0, 0, 0, 0x80]) == 0x80_0000_0000;
    assert FromLittleEndian([0, 0, 0, 0, 0, 0x80]) == 0x8000_0000_0000;
    assert FromLittleEndian([0, 0, 0, 0, 0, 0, 0x80]) == 0x80_0000_0000_0000;
  }

  // ----- Canonical JSON

  /** What canonical JSON accepts: integers a float64 holds exactly, texts without surrogates, ASCII keys,
      and these at any depth. */
  predicate Representable(v: Json) {
    match v
    case Int(i) => -0x20_0000_0000_0000 < i < 0x20_0000_0000_0000
    case Str(t) => forall i :: 0 <= i < |t| ==> !(0xD800 <= t[i] <= 0xDFFF)
    case List(items) => forall i :: 0 <= i < |items| ==> Representable(items[i])
    case Obj(fields) =>
      forall i :: 0 <= i < |fields| ==>
        (forall k :: 0 <= k < |fields[i].key| ==> fields[i].key[k] <= 0x7F) && Representable(fields[i].value)
    case Unsupported => false
    case _ => true
  }

  lemma {:induction false} AcceptedExactly(v: Json)
    ensures Dumps(v).Ok? <==> Representable(v)
  {
    match v
    case List(items) =>
      ItemsAccepted(items);
      forall i | 0 <= i < |items|
        ensures Canonical(items[i]) <==> Representable(items[i])
      {
        AcceptedExactly(items[i]);
      }
    case Obj(fields) =>
      FieldsAccepted(fields);
      forall i | 0 <= i < |fields|
        ensures Canonical(fields[i].value) <==> Representable(fields[i].value)
      {
        AcceptedExactly(fields[i].value);
      }
    case _ =>
  }

  lemma {:induction false} ItemsAccepted(items: seq<Json>)
    ensures FirstItemError(items).None? <==> forall i :: 0 <= i < |items| ==> FirstError(items[i]).None?
  {
    hide FirstError;
    if items != [] {
      ItemsAccepted(items[1..]);
      assert forall i :: 0 < i < |items| ==> items[i] == items[1..][i - 1];
    }
  }

  lemma {:induction false} FieldsAccepted(fields: seq<Field>)
    ensures FirstFieldError(fields).None? <==>
      forall i :: 0 <= i < |fields| ==> IsAscii(fields[i].key) && FirstError(fields[i].value).None?
  {
    hide FirstError, IsAscii;
    if fields != [] {
      FieldsAccepted(fields[1..]);
      assert forall i :: 0 < i < |fields| ==> fields[i] == fields[1..][i - 1];
    }
  }

  lemma ScalarsPrinted()
    ensures Print(Null) == TextOf("null") && Print(Bool(true)) == TextOf("true") && Print(Bool(false)) == TextOf("false")
    ensures Print(List([])) == TextOf("[]") && Print(Obj([])) == TextOf("{}")
  {
  }

  /** Integers in decimal, without leading zeros. */
  lemma NumbersPrinted(n: nat, digit: nat)
    requires digit < 10
    ensures Print(Int(digit)) == [48 + digit]
    ensures n > 0 ==> Print(Int(10 * n + digit)) == Print(Int(n)) + [48 + digit]
    ensures n > 0 ==> Print(Int(0 - n)) == TextOf("-") + Print(Int(n))
  {
    assert (10 * n + digit) / 10 == n && (10 * n + digit) % 10 == digit;
  }

  lemma ListPrinted(a: Json, b: Json)
    ensures Print(List([a, b])) == TextOf("[") + (Print(a) + TextOf(",") + Print(b)) + TextOf("]")
  {
    Literals();
    TwoItems(a, b);
    hide PrintItems;
  }

  lemma TwoItems(a: Json, b: Json)
    ensures PrintItems([a, b]) == Print(a) + [44] + Print(b)
  {
    hide Print;
    assert [a, b][1..] == [b];
  }

  lemma ObjectPrinted(a: Json, b: Json, k: Text, l: Text)
    ensures Print(Obj([Field(k, a), Field(l, b)])) ==
            TextOf("{") + (Quote(k) + TextOf(":") + Print(a) + TextOf(",") + (Quote(l) + TextOf(":") + Print(b))) + TextOf("}")
  {
    Literals();
    TwoFields(Field(k, a), Field(l, b));
    hide PrintFields, Quote;
  }

  lemma TwoFields(f: Field, g: Field)
    ensures PrintFields([f, g]) == PrintField(f) + [44] + PrintField(g)
  {
    hide PrintField;
    assert [f, g][1..] == [g];
  }

  /** Quotes, backslashes and control characters are escaped, five of these by a letter; nothing else is. */
  lemma CharPrinted(c: CodePoint)
    ensures Escape(34) == TextOf("\\\"") && Escape(92) == TextOf("\\\\")
    ensures Escape(10) == TextOf("\\n") && Escape(13) == TextOf("\\r") && Escape(9) == TextOf("\\t")
    ensures Escape(12) == TextOf("\\f") && Escape(8) == TextOf("\\b")
    ensures c < 32 && c !in {8, 9, 10, 12, 13} ==>
              |Escape(c)| == 6 && Escape(c)[..4] == TextOf("\\u00")
              && HexValue(Escape(c)[4]) == Some(c / 16) && HexValue(Escape(c)[5]) == Some(c % 16)
    ensures c >= 32 && c != 34 && c != 92 ==> Escape(c) == [c]
  {
  }

  lemma Literals()
    ensures TextOf("[") == [91] && TextOf("]") == [93] && TextOf(",") == [44] && TextOf(":") == [58]
    ensures TextOf("{") == [123] && TextOf("}") == [125]
  {
  }

  // ----- Blobs

  /** A blob is eight fixed bytes, the header's length in eight bytes, the header, and the compressed
      payload. */
  lemma BlobLayout(lib: Library, d: Dataset, k: nat)
    requires ValidDataset(d) && Encoded(lib, d).Some?
    ensures var blob, header := Encoded(lib, d).value, HeaderBytes(lib, d).value;
            && blob[..8] == [0x51, 0x53, 0x42, 0x4C, 0x4F, 0x42, 0, 1]
            && |blob| >= 16 + |header| && (k < 8 ==> blob[8 + k] == Octet(|header|, k))
            && blob[16..16 + |header|] == header && blob[16 + |header|..] == lib.deflate(Payload(d.tables))
  {
    hide HeaderBytes, Payload, ValidTables, LittleEndian, Octet;
    var header := HeaderBytes(lib, d).value;
    HeaderFits(lib, d);
    BlobParts(header, lib.deflate(Payload(d.tables)));
    WordLayout(|header|, k);
  }

  lemma HeaderFits(lib: Library, d: Dataset)
    requires ValidDataset(d) && HeaderBytes(lib, d).Some?
    ensures |HeaderBytes(lib, d).value| < Columns.TWO_64
  {
    hide ValidDataset, DatasetId, Dumps, TableSpecs, Payload, Header;
  }
}
