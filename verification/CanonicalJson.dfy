/**
 Canonical JSON: what `json.dumps(sort_keys=True, separators=(",", ":"), ensure_ascii=False)`
 writes for the values `_check_canonical` lets through, and a reader that inverts it.

 An object is the list of its fields in insertion order, as a Python dict is.
 */
module CanonicalJson {
  import opened Wrappers
  import opened Bytes
  import opened Orders

  const MAX_SAFE_INTEGER: int := 0x1F_FFFF_FFFF_FFFF

  datatype Field = Field(key: Text, value: Json)

  /** `Unsupported` stands for a value of any other Python type, a float above all. */
  datatype Json =
    | Null
    | Bool(b: bool)
    | Int(i: int)
    | Str(text: Text)
    | List(items: seq<Json>)
    | Obj(fields: seq<Field>)
    | Unsupported

  datatype JsonError = IntegerTooLarge | KeyNotAscii | UnsupportedValue | InvalidUnicode

  predicate IsAscii(t: Text) {
    forall i :: 0 <= i < |t| ==> t[i] < 128
  }

  // ----- The check, and the sorted form

  function FirstError(v: Json): Option<JsonError> {
    match v
    case Null => None
    case Bool(_) => None
    case Str(_) => None
    case Int(i) => if -MAX_SAFE_INTEGER <= i <= MAX_SAFE_INTEGER then None else Some(IntegerTooLarge)
    case List(items) => FirstItemError(items)
    case Obj(fields) => FirstFieldError(fields)
    case Unsupported => Some(UnsupportedValue)
  }

  function FirstItemError(items: seq<Json>): Option<JsonError> {
    if items == [] then None
    else if FirstError(items[0]).Some? then FirstError(items[0])
    else FirstItemError(items[1..])
  }

  function FirstFieldError(fields: seq<Field>): Option<JsonError> {
    if fields == [] then None
    else if !IsAscii(fields[0].key) then Some(KeyNotAscii)
    else if FirstError(fields[0].value).Some? then FirstError(fields[0].value)
    else FirstFieldError(fields[1..])
  }

  predicate UnicodeStrings(v: Json) {
    match v
    case Str(t) => ValidUnicode(t)
    case List(items) => forall i :: 0 <= i < |items| ==> UnicodeStrings(items[i])
    case Obj(fields) => forall i :: 0 <= i < |fields| ==> UnicodeStrings(fields[i].value)
    case _ => true
  }

  /** What `canonical_json` accepts. */
  predicate Canonical(v: Json) {
    FirstError(v).None? && UnicodeStrings(v)
  }

  function KeyCodes(fields: seq<Field>): seq<Code> {
    seq(|fields|, i requires 0 <= i < |fields| => [fields[i].key])
  }

  function SortFields(fields: seq<Field>): seq<Field> {
    Permute(fields, SortOrder(KeyCodes(fields), |fields|))
  }

  /** `v` with the fields of every object in key order. */
  function Sorted(v: Json): Json {
    match v
    case List(items) => List(seq(|items|, i requires 0 <= i < |items| => Sorted(items[i])))
    case Obj(fields) =>
      Obj(SortFields(seq(|fields|, i requires 0 <= i < |fields| =>
        Field(fields[i].key, Sorted(fields[i].value)))))
    case _ => v
  }

  // ----- Writing

  function Digits(n: nat): (t: Text)
    ensures t != [] && forall i :: 0 <= i < |t| ==> Digit(t[i])
  {
    if n < 10 then [48 + n] else Digits(n / 10) + [48 + n % 10]
  }

  predicate Digit(c: CodePoint) {
    48 <= c < 58
  }

  function Hex(d: int): CodePoint
    requires 0 <= d < 16
  {
    if d < 10 then 48 + d else 87 + d
  }

  function Escape(c: CodePoint): Text {
    if c == 34 then [92, 34]
    else if c == 92 then [92, 92]
    else if c == 10 then [92, 110]
    else if c == 13 then [92, 114]
    else if c == 9 then [92, 116]
    else if c == 12 then [92, 102]
    else if c == 8 then [92, 98]
    else if c < 32 then [92, 117, 48, 48, Hex(c / 16), Hex(c % 16)]
    else [c]
  }

  function EscapeAll(t: Text): Text {
    if t == [] then [] else Escape(t[0]) + EscapeAll(t[1..])
  }

  function Quote(t: Text): Text {
    [34] + EscapeAll(t) + [34]
  }

  function Print(v: Json): Text {
    match v
    case Null => TextOf("null")
    case Bool(b) => if b then TextOf("true") else TextOf("false")
    case Int(i) => if i < 0 then [45] + Digits(-i) else Digits(i)
    case Str(t) => Quote(t)
    case List(items) => [91] + PrintItems(items) + [93]
    case Obj(fields) => [123] + PrintFields(fields) + [125]
    case Unsupported => []
  }

  function PrintItems(items: seq<Json>): Text {
    if items == [] then []
    else if |items| == 1 then Print(items[0])
    else Print(items[0]) + [44] + PrintItems(items[1..])
  }

  function PrintField(f: Field): Text {
    Quote(f.key) + [58] + Print(f.value)
  }

  function PrintFields(fields: seq<Field>): Text {
    if fields == [] then []
    else if |fields| == 1 then PrintField(fields[0])
    else PrintField(fields[0]) + [44] + PrintFields(fields[1..])
  }

  /** `canonical_json`. */
  function Dumps(v: Json): (r: Result<ByteString, JsonError>)
    ensures r.Ok? <==> Canonical(v)
  {
    if FirstError(v).Some? then Err(FirstError(v).value)
    else if !UnicodeStrings(v) then Err(InvalidUnicode)
    else
      PrintedUnicode(v);
      Ok(EncodeUtf8(Print(Sorted(v))))
  }

  // ----- Reading canonical text back

  function ParseLiteral(t: Text, word: Text, v: Json): (r: Option<(Json, Text)>)
    ensures r.Some? ==> |r.value.1| + |word| == |t|
  {
    if |word| <= |t| && t[..|word|] == word then Some((v, t[|word|..])) else None
  }

  function DigitRun(t: Text): (n: nat)
    ensures n <= |t|
    ensures forall i :: 0 <= i < n ==> Digit(t[i])
    ensures n < |t| ==> !Digit(t[n])
  {
    if t == [] || !Digit(t[0]) then 0 else 1 + DigitRun(t[1..])
  }

  function DigitsValue(t: Text): nat
    requires forall i :: 0 <= i < |t| ==> Digit(t[i])
  {
    if t == [] then 0
    else
      assert Digit(t[|t| - 1]);
      var last: int := t[|t| - 1];
      10 * DigitsValue(t[..|t| - 1]) + (last - 48)
  }

  function HexValue(c: CodePoint): Option<int> {
    if Digit(c) then Some(c - 48) else if 97 <= c < 103 then Some(c - 87) else None
  }

  /** One character of a string, and how many code points spell it. */
  function ParseChar(t: Text): (r: Option<(CodePoint, nat)>)
    ensures r.Some? ==> 1 <= r.value.1 <= |t|
  {
    if t == [] || t[0] == 34 || t[0] < 32 then None
    else if t[0] != 92 then Some((t[0], 1))
    else if |t| < 2 then None
    else if t[1] == 34 || t[1] == 92 then Some((t[1], 2))
    else if t[1] == 110 then Some((10, 2))
    else if t[1] == 114 then Some((13, 2))
    else if t[1] == 116 then Some((9, 2))
    else if t[1] == 102 then Some((12, 2))
    else if t[1] == 98 then Some((8, 2))
    else if t[1] == 117 && |t| >= 6 && t[2] == 48 && t[3] == 48
         && HexValue(t[4]).Some? && HexValue(t[5]).Some? then
      Some((16 * HexValue(t[4]).value + HexValue(t[5]).value, 6))
    else None
  }

  /** The string whose opening quote has been read. */
  function ParseChars(t: Text): (r: Option<(Text, Text)>)
    ensures r.Some? ==> |r.value.1| < |t|
    decreases |t|
  {
    if t != [] && t[0] == 34 then Some(([], t[1..])) else
    match ParseChar(t)
    case None => None
    case Some((c, n)) =>
      match ParseChars(t[n..])
      case None => None
      case Some((s, rest)) => Some(([c] + s, rest))
  }

  function ParseInt(t: Text): (r: Option<(Json, Text)>)
    ensures r.Some? ==> |r.value.1| < |t|
  {
    var negative := t != [] && t[0] == 45;
    var body := if negative then t[1..] else t;
    var n := DigitRun(body);
    if n == 0 then None
    else
      var value: int := DigitsValue(body[..n]);
      Some((Int(if negative then -value else value), body[n..]))
  }

  function ParseValue(t: Text): (r: Option<(Json, Text)>)
    ensures r.Some? ==> |r.value.1| < |t|
    decreases |t|, 1
  {
    if t == [] then None
    else if t[0] == 110 then ParseLiteral(t, TextOf("null"), Null)
    else if t[0] == 116 then ParseLiteral(t, TextOf("true"), Bool(true))
    else if t[0] == 102 then ParseLiteral(t, TextOf("false"), Bool(false))
    else if t[0] == 34 then
      match ParseChars(t[1..])
      case None => None
      case Some((s, rest)) => Some((Str(s), rest))
    else if t[0] == 91 then
      if |t| > 1 && t[1] == 93 then Some((List([]), t[2..])) else
      match ParseItems(t[1..])
      case None => None
      case Some((items, rest)) => Some((List(items), rest))
    else if t[0] == 123 then
      if |t| > 1 && t[1] == 125 then Some((Obj([]), t[2..])) else
      match ParseFields(t[1..])
      case None => None
      case Some((fields, rest)) => Some((Obj(fields), rest))
    else ParseInt(t)
  }

  function ParseItems(t: Text): (r: Option<(seq<Json>, Text)>)
    ensures r.Some? ==> |r.value.1| < |t|
    decreases |t|, 2
  {
    match ParseValue(t)
    case None => None
    case Some((item, rest)) =>
      if rest != [] && rest[0] == 93 then Some(([item], rest[1..]))
      else if rest != [] && rest[0] == 44 then
        match ParseItems(rest[1..])
        case None => None
        case Some((items, rest')) => Some(([item] + items, rest'))
      else None
  }

  function ParseFields(t: Text): (r: Option<(seq<Field>, Text)>)
    ensures r.Some? ==> |r.value.1| < |t|
    decreases |t|, 2
  {
    if t == [] || t[0] != 34 then None else
    match ParseChars(t[1..])
    case None => None
    case Some((key, afterKey)) =>
      if afterKey == [] || afterKey[0] != 58 then None else
      match ParseValue(afterKey[1..])
      case None => None
      case Some((value, rest)) =>
        if rest != [] && rest[0] == 125 then Some(([Field(key, value)], rest[1..]))
        else if rest != [] && rest[0] == 44 then
          match ParseFields(rest[1..])
          case None => None
          case Some((fields, rest')) => Some(([Field(key, value)] + fields, rest'))
        else None
  }

  /** `json.loads` on canonical text: one value and nothing after it. */
  function Loads(b: ByteString): Option<Json> {
    match DecodeUtf8(b)
    case None => None
    case Some(t) =>
      match ParseValue(t)
      case Some((v, rest)) => if rest == [] then Some(v) else None
      case None => None
  }

  // ----- Reading inverts writing

  /** Canonical but for the bound on integers. */
  predicate Plain(v: Json) {
    match v
    case Unsupported => false
    case Str(t) => ValidUnicode(t)
    case List(items) => forall i :: 0 <= i < |items| ==> Plain(items[i])
    case Obj(fields) => PlainFields(fields)
    case _ => true
  }

  predicate PlainFields(fields: seq<Field>) {
    forall i :: 0 <= i < |fields| ==> IsAscii(fields[i].key) && Plain(fields[i].value)
  }

  predicate EndsNumber(rest: Text) {
    rest == [] || !Digit(rest[0])
  }

  lemma {:induction false} DigitsValueOf(n: nat)
    ensures DigitsValue(Digits(n)) == n
  {
    if n >= 10 {
      DigitsValueOf(n / 10);
      var t := Digits(n);
      assert t[..|t| - 1] == Digits(n / 10);
    } else {
      assert DigitsValue([]) == 0;
      assert [48 + n][..0] == [];
    }
  }

  lemma {:induction false} DigitRunOf(ds: Text, rest: Text)
    requires forall i :: 0 <= i < |ds| ==> Digit(ds[i])
    requires EndsNumber(rest)
    ensures DigitRun(ds + rest) == |ds|
  {
    if ds == [] {
      assert ds + rest == rest;
    } else {
      assert (ds + rest)[1..] == ds[1..] + rest;
      DigitRunOf(ds[1..], rest);
    }
  }

  lemma IntRoundTrip(i: int, rest: Text)
    requires EndsNumber(rest)
    ensures ParseInt(Print(Int(i)) + rest) == Some((Int(i), rest))
  {
    hide Digits, DigitRun, DigitsValue, Print;
    var n := if i < 0 then -i else i;
    var ds := Digits(n);
    DigitsValueOf(n);
    DigitRunOf(ds, rest);
    PrintedInt(i, rest);
    Halves(ds, rest);
    assert Digit(ds[0]);
  }

  lemma PrintedInt(i: int, rest: Text)
    ensures i >= 0 ==> Print(Int(i)) + rest == Digits(i) + rest
    ensures i < 0 ==> Print(Int(i)) + rest == [45] + (Digits(-i) + rest)
    ensures i < 0 ==> ([45] + (Digits(-i) + rest))[1..] == Digits(-i) + rest
  {
    hide Digits;
  }

  lemma Halves(a: Text, b: Text)
    ensures (a + b)[..|a|] == a && (a + b)[|a|..] == b
  {
  }

  lemma CharRoundTrip(c: CodePoint, rest: Text)
    ensures ParseChar(Escape(c) + rest) == Some((c, |Escape(c)|))
  {
    var t := Escape(c) + rest;
    assert forall i :: 0 <= i < |Escape(c)| ==> t[i] == Escape(c)[i];
    if c < 32 {
      assert c == 16 * (c / 16) + c % 16;
    }
  }

  lemma {:induction false} CharsRoundTrip(s: Text, rest: Text)
    ensures ParseChars(EscapeAll(s) + [34] + rest) == Some((s, rest))
  {
    hide ParseChar, ParseChars, Escape, EscapeAll;
    if s == [] {
      NoChars(rest);
    } else {
      var tail := EscapeAll(s[1..]) + [34] + rest;
      EscapedText(s, rest);
      CharRoundTrip(s[0], tail);
      CharsRoundTrip(s[1..], rest);
      CharsStep(Escape(s[0]), tail, s[0], s[1..], rest);
      assert [s[0]] + s[1..] == s;
    }
  }

  lemma NoChars(rest: Text)
    ensures ParseChars(EscapeAll([]) + [34] + rest) == Some(([], rest))
  {
    assert EscapeAll([]) + [34] + rest == [34] + rest;
  }

  lemma EscapedText(s: Text, rest: Text)
    requires s != []
    ensures EscapeAll(s) + [34] + rest == Escape(s[0]) + (EscapeAll(s[1..]) + [34] + rest)
    ensures Escape(s[0]) != [] && Escape(s[0])[0] != 34
  {
    Reassociate(Escape(s[0]), EscapeAll(s[1..]), [34], rest);
  }

  lemma CharsStep(head: Text, tail: Text, c: CodePoint, s: Text, rest: Text)
    requires head != [] && head[0] != 34
    requires ParseChar(head + tail) == Some((c, |head|)) && ParseChars(tail) == Some((s, rest))
    ensures ParseChars(head + tail) == Some(([c] + s, rest))
  {
    hide ParseChar;
    assert (head + tail)[0] == head[0] && (head + tail)[|head|..] == tail;
  }

  /** The first code point tells the kinds of value apart, and none begins with a bracket's end. */
  lemma FirstCodePoint(v: Json)
    requires Plain(v)
    ensures Print(v) != [] && Print(v)[0] != 93 && Print(v)[0] != 125
    ensures Print(v)[0] == 110 <==> v.Null?
    ensures Print(v)[0] == 116 || Print(v)[0] == 102 <==> v.Bool?
    ensures Print(v)[0] == 34 <==> v.Str?
    ensures Print(v)[0] == 91 <==> v.List?
    ensures Print(v)[0] == 123 <==> v.Obj?
  {
    if v.Int? && v.i >= 0 {
      assert Digit(Digits(v.i)[0]);
    }
  }

  lemma LiteralRoundTrip(word: Text, v: Json, rest: Text)
    ensures ParseLiteral(word + rest, word, v) == Some((v, rest))
  {
    assert (word + rest)[..|word|] == word && (word + rest)[|word|..] == rest;
  }

  // How the readers of lists and objects go on, whatever was read first.

  lemma ItemsStep(t: Text, item: Json, items: seq<Json>, tail: Text, rest: Text)
    requires ParseValue(t) == Some((item, [44] + tail))
    requires ParseItems(tail) == Some((items, rest))
    ensures ParseItems(t) == Some(([item] + items, rest))
  {
    assert ([44] + tail)[1..] == tail;
  }

  lemma LastItem(t: Text, item: Json, rest: Text)
    requires ParseValue(t) == Some((item, [93] + rest))
    ensures ParseItems(t) == Some(([item], rest))
  {
    assert ([93] + rest)[1..] == rest;
  }

  lemma FieldsStep(t: Text, key: Text, value: Json, fields: seq<Field>, afterKey: Text, tail: Text, rest: Text)
    requires ParseChars(t) == Some((key, [58] + afterKey))
    requires ParseValue(afterKey) == Some((value, [44] + tail))
    requires ParseFields(tail) == Some((fields, rest))
    ensures ParseFields([34] + t) == Some(([Field(key, value)] + fields, rest))
  {
    assert ([34] + t)[1..] == t && ([58] + afterKey)[1..] == afterKey && ([44] + tail)[1..] == tail;
  }

  lemma LastField(t: Text, key: Text, value: Json, afterKey: Text, rest: Text)
    requires ParseChars(t) == Some((key, [58] + afterKey))
    requires ParseValue(afterKey) == Some((value, [125] + rest))
    ensures ParseFields([34] + t) == Some(([Field(key, value)], rest))
  {
    assert ([34] + t)[1..] == t && ([58] + afterKey)[1..] == afterKey && ([125] + rest)[1..] == rest;
  }

  lemma ListStep(body: Text, items: seq<Json>, rest: Text)
    requires body != [] && body[0] != 93
    requires ParseItems(body) == Some((items, rest))
    ensures ParseValue([91] + body) == Some((List(items), rest))
  {
    assert ([91] + body)[1..] == body;
  }

  lemma ObjStep(body: Text, fields: seq<Field>, rest: Text)
    requires body != [] && body[0] != 125
    requires ParseFields(body) == Some((fields, rest))
    ensures ParseValue([123] + body) == Some((Obj(fields), rest))
  {
    assert ([123] + body)[1..] == body;
  }

  lemma StringRoundTrip(s: Text, rest: Text)
    ensures ParseValue(Quote(s) + rest) == Some((Str(s), rest))
  {
    var body := EscapeAll(s) + [34] + rest;
    CharsRoundTrip(s, rest);
    Reassociate([34], EscapeAll(s), [34], rest);
    assert ([34] + body)[1..] == body;
  }

  lemma WordRoundTrip(word: Text, v: Json, rest: Text)
    requires (word, v) in {(TextOf("null"), Null), (TextOf("true"), Bool(true)), (TextOf("false"), Bool(false))}
    ensures ParseValue(word + rest) == Some((v, rest))
  {
    LiteralRoundTrip(word, v, rest);
    assert (word + rest)[0] == word[0];
  }

  lemma ScalarValueRoundTrip(v: Json, rest: Text)
    requires Plain(v) && !v.List? && !v.Obj? && EndsNumber(rest)
    ensures ParseValue(Print(v) + rest) == Some((v, rest))
  {
    match v
    case Null => WordRoundTrip(TextOf("null"), v, rest);
    case Bool(true) => WordRoundTrip(TextOf("true"), v, rest);
    case Bool(false) => WordRoundTrip(TextOf("false"), v, rest);
    case Int(i) =>
      FirstCodePoint(v);
      IntRoundTrip(i, rest);
    case Str(s) => StringRoundTrip(s, rest);
  }

  lemma Reassociate(a: Text, b: Text, c: Text, d: Text)
    ensures a + b + c + d == a + (b + c + d) == a + b + (c + d)
  {
  }

  lemma {:induction false} ValueRoundTrip(v: Json, rest: Text)
    requires Plain(v) && EndsNumber(rest)
    ensures ParseValue(Print(v) + rest) == Some((v, rest))
    decreases v, 1
  {
    match v
    case List(items) =>
      if items == [] {
        assert Print(v) + rest == [91, 93] + rest;
      } else {
        ItemsRoundTrip(items, rest);
        ListStep(PrintItems(items) + [93] + rest, items, rest);
        Reassociate([91], PrintItems(items), [93], rest);
      }
    case Obj(fields) =>
      if fields == [] {
        assert Print(v) + rest == [123, 125] + rest;
      } else {
        FieldsRoundTrip(fields, rest);
        ObjStep(PrintFields(fields) + [125] + rest, fields, rest);
        Reassociate([123], PrintFields(fields), [125], rest);
      }
    case _ => ScalarValueRoundTrip(v, rest);
  }

  lemma {:induction false} ItemsRoundTrip(items: seq<Json>, rest: Text)
    requires items != [] && forall i :: 0 <= i < |items| ==> Plain(items[i])
    ensures ParseItems(PrintItems(items) + [93] + rest) == Some((items, rest))
    ensures PrintItems(items) != [] && PrintItems(items)[0] != 93
    decreases items, 0
  {
    hide ParseItems, ParseValue, Print, PrintItems;
    var t := PrintItems(items) + [93] + rest;
    FirstCodePoint(items[0]);
    FirstOfItems(items);
    if |items| == 1 {
      OneItem(items, rest);
      ValueRoundTrip(items[0], [93] + rest);
      LastItem(t, items[0], rest);
      assert items == [items[0]];
    } else {
      var tail := PrintItems(items[1..]) + [93] + rest;
      MoreItems(items, rest);
      ValueRoundTrip(items[0], [44] + tail);
      ItemsRoundTrip(items[1..], rest);
      ItemsStep(t, items[0], items[1..], tail, rest);
      assert [items[0]] + items[1..] == items;
    }
  }

  lemma FirstOfItems(items: seq<Json>)
    requires items != [] && Print(items[0]) != []
    ensures PrintItems(items) != [] && PrintItems(items)[0] == Print(items[0])[0]
  {
    hide Print;
  }

  lemma OneItem(items: seq<Json>, rest: Text)
    requires |items| == 1
    ensures PrintItems(items) + [93] + rest == Print(items[0]) + ([93] + rest)
  {
    hide Print;
    Reassociate([], Print(items[0]), [93], rest);
  }

  lemma MoreItems(items: seq<Json>, rest: Text)
    requires |items| > 1
    ensures PrintItems(items) + [93] + rest == Print(items[0]) + ([44] + (PrintItems(items[1..]) + [93] + rest))
  {
    hide Print;
    Separated(Print(items[0]), [44], PrintItems(items[1..]), [93], rest);
  }

  /** A key, its colon and its value, before `after`. */
  lemma {:induction false} FieldRoundTrip(f: Field, after: Text) returns (t: Text, afterKey: Text)
    requires Plain(f.value) && EndsNumber(after)
    ensures PrintField(f) + after == [34] + t
    ensures ParseChars(t) == Some((f.key, [58] + afterKey))
    ensures ParseValue(afterKey) == Some((f.value, after))
    decreases f, 2
  {
    afterKey := Print(f.value) + after;
    t := EscapeAll(f.key) + [34] + ([58] + afterKey);
    CharsRoundTrip(f.key, [58] + afterKey);
    ValueRoundTrip(f.value, after);
    FieldText(EscapeAll(f.key), Print(f.value), after);
  }

  lemma FieldText(key: Text, value: Text, after: Text)
    ensures ([34] + key + [34]) + [58] + value + after == [34] + (key + [34] + ([58] + (value + after)))
  {
  }

  lemma OneField(f: Field, rest: Text)
    ensures PrintFields([f]) + [125] + rest == PrintField(f) + ([125] + rest)
  {
    Reassociate([], PrintField(f), [125], rest);
  }

  lemma MoreFields(fields: seq<Field>, rest: Text)
    requires |fields| > 1
    ensures PrintFields(fields) + [125] + rest
         == PrintField(fields[0]) + ([44] + (PrintFields(fields[1..]) + [125] + rest))
  {
    hide PrintField;
    Separated(PrintField(fields[0]), [44], PrintFields(fields[1..]), [125], rest);
  }

  lemma Separated(head: Text, comma: Text, tail: Text, close: Text, rest: Text)
    ensures (head + comma + tail) + close + rest == head + (comma + (tail + close + rest))
  {
  }

  lemma {:induction false} FieldsRoundTrip(fields: seq<Field>, rest: Text)
    requires fields != [] && PlainFields(fields)
    ensures ParseFields(PrintFields(fields) + [125] + rest) == Some((fields, rest))
    ensures PrintFields(fields) != [] && PrintFields(fields)[0] == 34
    decreases fields, 0
  {
    hide ParseFields, ParseChars, ParseValue, PrintField, PrintFields, Plain;
    var f := fields[0];
    FirstOfFields(fields);
    if |fields| == 1 {
      var t, afterKey := FieldRoundTrip(f, [125] + rest);
      LastField(t, f.key, f.value, afterKey, rest);
      OneField(f, rest);
      assert fields == [f];
    } else {
      var tail := PrintFields(fields[1..]) + [125] + rest;
      FieldsRoundTrip(fields[1..], rest);
      var t, afterKey := FieldRoundTrip(f, [44] + tail);
      FieldsStep(t, f.key, f.value, fields[1..], afterKey, tail, rest);
      MoreFields(fields, rest);
      assert [f] + fields[1..] == fields;
    }
  }

  lemma FirstOfFields(fields: seq<Field>)
    requires fields != []
    ensures PrintFields(fields) != [] && PrintFields(fields)[0] == 34
  {
    hide Print, EscapeAll;
  }

  // ----- Sorting keeps a value canonical, and what is printed is valid Unicode

  lemma {:induction false} CanonicalIsPlain(v: Json)
    requires Canonical(v)
    ensures Plain(v)
    decreases v
  {
    match v
    case List(items) =>
      forall i | 0 <= i < |items|
        ensures Plain(items[i])
      {
        ItemsWithoutError(items, i);
        CanonicalIsPlain(items[i]);
      }
    case Obj(fields) =>
      forall i | 0 <= i < |fields|
        ensures IsAscii(fields[i].key) && Plain(fields[i].value)
      {
        FieldsWithoutError(fields, i);
        CanonicalIsPlain(fields[i].value);
      }
    case _ =>
  }

  lemma {:induction false} ItemsWithoutError(items: seq<Json>, i: nat)
    requires FirstItemError(items).None? && i < |items|
    ensures FirstError(items[i]).None?
  {
    if i > 0 {
      ItemsWithoutError(items[1..], i - 1);
    }
  }

  lemma {:induction false} FieldsWithoutError(fields: seq<Field>, i: nat)
    requires FirstFieldError(fields).None? && i < |fields|
    ensures IsAscii(fields[i].key) && FirstError(fields[i].value).None?
  {
    if i > 0 {
      FieldsWithoutError(fields[1..], i - 1);
    }
  }

  lemma {:induction false} ListCanonical(items: seq<Json>)
    requires forall i :: 0 <= i < |items| ==> Canonical(items[i])
    ensures Canonical(List(items))
  {
    if items != [] {
      assert Canonical(items[0]);
      ListCanonical(items[1..]);
    }
  }

  lemma {:induction false} ObjCanonical(fields: seq<Field>)
    requires forall i :: 0 <= i < |fields| ==> IsAscii(fields[i].key) && Canonical(fields[i].value)
    ensures Canonical(Obj(fields))
  {
    if fields != [] {
      assert IsAscii(fields[0].key) && Canonical(fields[0].value);
      ObjCanonical(fields[1..]);
    }
  }

  lemma {:induction false} SortedPlain(v: Json)
    requires Plain(v)
    ensures Plain(Sorted(v))
    decreases v
  {
    match v
    case List(items) =>
      forall i | 0 <= i < |items|
        ensures Plain(Sorted(items[i]))
      {
        SortedPlain(items[i]);
      }
    case Obj(fields) =>
      forall i | 0 <= i < |fields|
        ensures Plain(Sorted(fields[i].value))
      {
        SortedPlain(fields[i].value);
      }
      assert Sorted(v) == Obj(SortFields(SortValues(fields)));
    case _ =>
  }

  lemma {:induction false} PlainPrints(v: Json)
    requires Plain(v)
    ensures ValidUnicode(Print(v))
    decreases v, 0
  {
    match v
    case Int(i) => assert forall c :: Digit(c) ==> !Surrogate(c);
    case Str(t) => EscapedUnicode(t);
    case List(items) => ItemsPrint(items);
    case Obj(fields) => FieldsPrint(fields);
    case _ =>
  }

  lemma {:induction false} ItemsPrint(items: seq<Json>)
    requires forall i :: 0 <= i < |items| ==> Plain(items[i])
    ensures ValidUnicode(PrintItems(items))
    decreases items
  {
    if items != [] {
      PlainPrints(items[0]);
      ItemsPrint(items[1..]);
    }
  }

  lemma {:induction false} FieldsPrint(fields: seq<Field>)
    requires PlainFields(fields)
    ensures ValidUnicode(PrintFields(fields))
    decreases fields
  {
    if fields != [] {
      assert Plain(fields[0].value) && IsAscii(fields[0].key);
      EscapedUnicode(fields[0].key);
      PlainPrints(fields[0].value);
      FieldsPrint(fields[1..]);
    }
  }

  lemma {:induction false} EscapedUnicode(t: Text)
    requires ValidUnicode(t)
    ensures ValidUnicode(EscapeAll(t))
  {
    if t != [] {
      EscapedUnicode(t[1..]);
    }
  }

  lemma PrintedUnicode(v: Json)
    requires Canonical(v)
    ensures ValidUnicode(Print(Sorted(v)))
  {
    CanonicalIsPlain(v);
    SortedPlain(v);
    PlainPrints(Sorted(v));
  }

  // ----- Main results

  /** Reading canonical JSON gives the value back, up to the order of keys. */
  lemma CanonicalRoundTrip(v: Json)
    requires Canonical(v)
    ensures Loads(Dumps(v).value) == Some(Sorted(v))
  {
    PrintedUnicode(v);
    Utf8RoundTrip(Print(Sorted(v)));
    CanonicalIsPlain(v);
    SortedPlain(v);
    ValueRoundTrip(Sorted(v), []);
    assert Print(Sorted(v)) + [] == Print(Sorted(v));
  }

  /** Canonical JSON is injective up to the order of keys, at every depth. */
  lemma CanonicalInjective(v: Json, w: Json)
    requires Canonical(v) && Canonical(w)
    ensures Dumps(v) == Dumps(w) <==> Sorted(v) == Sorted(w)
  {
    CanonicalRoundTrip(v);
    CanonicalRoundTrip(w);
  }

  predicate DistinctKeys(fields: seq<Field>) {
    forall i, j :: 0 <= i < j < |fields| ==> fields[i].key != fields[j].key
  }

  /** Every object is a dict's: no key repeats, at any depth. */
  predicate DistinctThroughout(v: Json) {
    match v
    case List(items) => forall i :: 0 <= i < |items| ==> DistinctThroughout(items[i])
    case Obj(fields) =>
      DistinctKeys(fields) && forall i :: 0 <= i < |fields| ==> DistinctThroughout(fields[i].value)
    case _ => true
  }

  /** `fields[key]`, as the dict lookup. */
  function Get(fields: seq<Field>, key: Text): Option<Json> {
    if fields == [] then None
    else if fields[0].key == key then Some(fields[0].value)
    else Get(fields[1..], key)
  }

  lemma {:induction false} GetAt(fields: seq<Field>, i: nat)
    requires DistinctKeys(fields) && i < |fields|
    ensures Get(fields, fields[i].key) == Some(fields[i].value)
  {
    if i > 0 {
      GetAt(fields[1..], i - 1);
    }
  }

  lemma SortFieldsStrictly(fields: seq<Field>)
    requires DistinctKeys(fields)
    ensures StrictlySorted(KeyCodes(SortFields(fields)))
    ensures DistinctKeys(SortFields(fields))
    ensures forall f :: f in SortFields(fields) <==> f in fields
  {
    var codes := KeyCodes(fields);
    var order := SortOrder(codes, |fields|);
    SortOrderIsPermutation(codes, |fields|);
    SortOrderSorts(codes, |fields|);
    assert forall i, j :: 0 <= i < |fields| && 0 <= j < |fields| && i != j ==> codes[i] != codes[j] by {
      assert forall i :: 0 <= i < |fields| ==> codes[i][0] == fields[i].key;
    }
    SortedWithoutRepeats(codes, order);
    assert KeyCodes(SortFields(fields)) == Permute(codes, order);
    forall f | f in fields
      ensures f in SortFields(fields)
    {
      var i: nat :| i < |fields| && fields[i] == f;
      assert i in order;
      var k :| 0 <= k < |order| && order[k] == i;
      assert SortFields(fields)[k] == f;
    }
  }

  /** The fields with their values sorted, in the order they were inserted. */
  function SortValues(fields: seq<Field>): (r: seq<Field>)
    ensures |r| == |fields|
  {
    seq(|fields|, i requires 0 <= i < |fields| => Field(fields[i].key, Sorted(fields[i].value)))
  }

  /** Looking a key up in the sorted object finds what it found before, sorted. */
  lemma SortedLookup(fields: seq<Field>, i: nat)
    requires DistinctKeys(fields) && i < |fields|
    ensures Sorted(Obj(fields)).Obj?
    ensures Get(Sorted(Obj(fields)).fields, fields[i].key) == Some(Sorted(fields[i].value))
  {
    var values := SortValues(fields);
    SortFieldsStrictly(values);
    var sorted := SortFields(values);
    assert Sorted(Obj(fields)) == Obj(sorted);
    assert values[i] in sorted;
    var k :| 0 <= k < |sorted| && sorted[k] == values[i];
    GetAt(sorted, k);
  }

  lemma {:induction false} SortedDistinct(v: Json)
    requires DistinctThroughout(v)
    ensures DistinctThroughout(Sorted(v))
    decreases v
  {
    match v
    case List(items) =>
      forall i | 0 <= i < |items|
        ensures DistinctThroughout(Sorted(items[i]))
      {
        SortedDistinct(items[i]);
      }
    case Obj(fields) =>
      var values := SortValues(fields);
      forall i | 0 <= i < |fields|
        ensures DistinctThroughout(values[i].value)
      {
        SortedDistinct(fields[i].value);
      }
      SortFieldsStrictly(values);
      assert Sorted(v) == Obj(SortFields(values));
      forall i | 0 <= i < |SortFields(values)|
        ensures DistinctThroughout(SortFields(values)[i].value)
      {
        assert SortFields(values)[i] in values;
      }
    case _ =>
  }

  /** The order in which fields were inserted does not reach the canonical form. */
  lemma KeyOrderIrrelevant(a: seq<Field>, b: seq<Field>)
    requires DistinctKeys(a) && DistinctKeys(b)
    requires forall f :: f in a <==> f in b
    ensures Sorted(Obj(a)) == Sorted(Obj(b))
  {
    var va, vb := SortValues(a), SortValues(b);
    SortFieldsStrictly(va);
    SortFieldsStrictly(vb);
    forall f
      ensures f in va <==> f in vb
    {
      SortValuesElements(a, b, f);
      SortValuesElements(b, a, f);
    }
    var code := (f: Field) => [f.key];
    var sa, sb := SortFields(va), SortFields(vb);
    assert KeyCodes(sa) == CodesOf(sa, code) && KeyCodes(sb) == CodesOf(sb, code);
    StrictlySortedUnique(sa, sb, code);
    assert Sorted(Obj(a)) == Obj(sa) && Sorted(Obj(b)) == Obj(sb);
  }

  lemma SortValuesElements(a: seq<Field>, b: seq<Field>, f: Field)
    requires forall f :: f in a ==> f in b
    ensures f in SortValues(a) ==> f in SortValues(b)
  {
    if f in SortValues(a) {
      var i :| 0 <= i < |a| && SortValues(a)[i] == f;
      assert a[i] in b;
      var j :| 0 <= j < |b| && b[j] == a[i];
      assert SortValues(b)[j] == f;
    }
  }
}
