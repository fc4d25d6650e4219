/** The canonical JSON text that request hashes are taken of. Texts are sequences of UTF-16 code
    units, as in the language the service is written in. */
module CanonicalJson {
  import Sorting

  newtype Unit = u: int | 0 <= u < 0x1_0000
  type Text = seq<Unit>

  datatype Field = Field(key: Text, value: Json)

  /** `Number` carries the text a finite number prints as; a number too large for a double is read as an
      infinity, which is `NonFinite`. `fields` are an object's own entries in order. `Undefined` is what a
      request without a body has in its place. */
  datatype Json =
    | Null
    | Undefined
    | Boolean(b: bool)
    | NonFinite(negative: bool)
    | Number(text: Text)
    | String(s: Text)
    | Arr(items: seq<Json>)
    | Obj(fields: seq<Field>)

  const QUOTE: Unit := 0x22
  const BACKSLASH: Unit := 0x5C
  const COMMA: Unit := 0x2C
  const COLON: Unit := 0x3A
  const LBRACKET: Unit := 0x5B
  const RBRACKET: Unit := 0x5D
  const LBRACE: Unit := 0x7B
  const RBRACE: Unit := 0x7D
  const NULL: Text := [0x6E, 0x75, 0x6C, 0x6C]
  const TRUE: Text := [0x74, 0x72, 0x75, 0x65]
  const FALSE: Text := [0x66, 0x61, 0x6C, 0x73, 0x65]

  // ----- quoting strings -----

  predicate Lead(u: Unit) {
    0xD800 <= u < 0xDC00
  }

  predicate Trail(u: Unit) {
    0xDC00 <= u < 0xE000
  }

  /** The letter of a two-unit escape, or 0. */
  function ShortEscape(u: Unit): Unit {
    if u == 8 then 0x62 else if u == 9 then 0x74 else if u == 10 then 0x6E else if u == 12 then 0x66
    else if u == 13 then 0x72 else if u == QUOTE then QUOTE else if u == BACKSLASH then BACKSLASH else 0
  }

  function HexDigit(d: int): Unit
    requires 0 <= d < 16
  {
    if d < 10 then (48 + d) as Unit else (87 + d) as Unit
  }

  function HexEscape(u: Unit): Text {
    var n := u as int;
    [BACKSLASH, 0x75, HexDigit(n / 4096), HexDigit(n / 256 % 16), HexDigit(n / 16 % 16), HexDigit(n % 16)]
  }

  /** How many units the next piece of the quoted text stands for: a surrogate pair is kept whole. */
  function Taken(s: Text): (n: nat)
    requires s != []
    ensures 1 <= n <= |s|
  {
    if Lead(s[0]) && |s| > 1 && Trail(s[1]) then 2 else 1
  }

  function Piece(s: Text): Text
    requires s != []
  {
    if Taken(s) == 2 then s[..2]
    else if ShortEscape(s[0]) != 0 then [BACKSLASH, ShortEscape(s[0])]
    else if s[0] < 32 || Lead(s[0]) || Trail(s[0]) then HexEscape(s[0])
    else [s[0]]
  }

  function Escaped(s: Text): Text {
    if s == [] then [] else Piece(s) + Escaped(s[Taken(s)..])
  }

  function Quoted(s: Text): Text {
    [QUOTE] + Escaped(s) + [QUOTE]
  }

  // ----- printing -----

  /** A stand-in for the locale comparison of keys. */
  type Before = (Text, Text) -> bool

  function ByKey(lt: Before): Sorting.Order<Field> {
    (f: Field, g: Field) => !lt(g.key, f.key)
  }

  /** The stable sort by key. */
  function Sort(fs: seq<Field>, lt: Before): (r: seq<Field>)
    ensures |r| == |fs| && forall f :: f in r <==> f in fs
  {
    SortKeepsFields(fs, lt);
    Sorting.Sort(ByKey(lt), fs)
  }

  lemma SortKeepsFields(fs: seq<Field>, lt: Before)
    ensures |Sorting.Sort(ByKey(lt), fs)| == |fs| && forall f :: f in Sorting.Sort(ByKey(lt), fs) <==> f in fs
  {
    var r := Sorting.Sort(ByKey(lt), fs);
    Sorting.SortIsPermutation(ByKey(lt), fs);
    assert |multiset(r)| == |r| && |multiset(fs)| == |fs|;
    forall f
      ensures f in r <==> f in fs
    {
      Sorting.SameElements(r, fs, f);
    }
  }

  function Print(v: Json, lt: Before): Text
    decreases v
  {
    match v
    case Null => NULL
    case Undefined => NULL
    case NonFinite(_) => NULL
    case Boolean(b) => if b then TRUE else FALSE
    case Number(text) => text
    case String(s) => Quoted(s)
    case Arr(items) => [LBRACKET] + PrintItems(items, lt) + [RBRACKET]
    case Obj(fields) =>
      [LBRACE] + PrintFields(v, Sort(fields, lt), lt) + [RBRACE]
  }

  function PrintItems(items: seq<Json>, lt: Before): Text
    decreases items
  {
    if items == [] then []
    else if |items| == 1 then Print(items[0], lt)
    else Print(items[0], lt) + [COMMA] + PrintItems(items[1..], lt)
  }

  function PrintFields(v: Json, fs: seq<Field>, lt: Before): Text
    requires v.Obj? && forall f :: f in fs ==> f in v.fields
    decreases v, |fs|
  {
    if fs == [] then []
    else
      assert fs[0] in v.fields;
      var head := Quoted(fs[0].key) + [COLON] + Print(fs[0].value, lt);
      if |fs| == 1 then head else head + [COMMA] + PrintFields(v, fs[1..], lt)
  }

  // ----- what a JSON value means -----

  /** Objects are maps: the order of keys is gone, and an absent body is null. */
  datatype Value =
    | NullValue
    | BooleanValue(b: bool)
    | InfiniteValue(negative: bool)
    | NumberValue(text: Text)
    | StringValue(s: Text)
    | ArrayValue(items: seq<Value>)
    | ObjectValue(fields: map<Text, Value>)

  function Meaning(v: Json): Value
    decreases v
  {
    match v
    case Null => NullValue
    case Undefined => NullValue
    case NonFinite(negative) => InfiniteValue(negative)
    case Boolean(b) => BooleanValue(b)
    case Number(text) => NumberValue(text)
    case String(s) => StringValue(s)
    case Arr(items) => ArrayValue(Meanings(items))
    case Obj(fields) => ObjectValue(FieldMeanings(fields))
  }

  function Meanings(items: seq<Json>): (r: seq<Value>)
    ensures |r| == |items| && forall i :: 0 <= i < |r| ==> r[i] == Meaning(items[i])
    decreases items
  {
    if items == [] then [] else [Meaning(items[0])] + Meanings(items[1..])
  }

  predicate DistinctKeys(fs: seq<Field>) {
    forall i, j :: 0 <= i < j < |fs| ==> fs[i].key != fs[j].key
  }

  function FieldMeanings(fs: seq<Field>): map<Text, Value>
    decreases fs
  {
    if fs == [] then map[] else FieldMeanings(fs[1..])[fs[0].key := Meaning(fs[0].value)]
  }

  predicate HasKey(fs: seq<Field>, k: Text) {
    exists i :: 0 <= i < |fs| && fs[i].key == k
  }

  lemma {:induction false} MapKeys(fs: seq<Field>, k: Text)
    ensures k in FieldMeanings(fs) <==> HasKey(fs, k)
    decreases |fs|
  {
    if fs != [] {
      MapKeys(fs[1..], k);
      assert HasKey(fs, k) <==> fs[0].key == k || HasKey(fs[1..], k) by {
        assert forall i :: 0 <= i < |fs[1..]| ==> fs[1..][i] == fs[i + 1];
        assert forall i :: 1 <= i < |fs| ==> fs[i] == fs[1..][i - 1];
      }
    }
  }

  lemma {:induction false} MapEntry(fs: seq<Field>, i: nat)
    requires DistinctKeys(fs) && i < |fs|
    ensures fs[i].key in FieldMeanings(fs) && FieldMeanings(fs)[fs[i].key] == Meaning(fs[i].value)
    decreases |fs|
  {
    if i != 0 {
      MapEntry(fs[1..], i - 1);
      assert fs[1..][i - 1] == fs[i];
    }
  }

  predicate NumberUnit(u: Unit) {
    48 <= u <= 57 || u == 0x2B || u == 0x2D || u == 0x2E || u == 0x65
  }

  predicate NumberText(text: Text) {
    text != [] && (48 <= text[0] <= 57 || text[0] == 0x2D) && forall i :: 0 <= i < |text| ==> NumberUnit(text[i])
  }

  /** Numbers print as number texts, and no object repeats a key. */
  ghost predicate WellFormed(v: Json)
    decreases v
  {
    match v
    case Number(text) => NumberText(text)
    case Arr(items) => forall i :: 0 <= i < |items| ==> WellFormed(items[i])
    case Obj(fields) => DistinctKeys(fields) && forall i :: 0 <= i < |fields| ==> WellFormed(fields[i].value)
    case _ => true
  }

  // ----- reading non-finite numbers as null -----

  ghost predicate Finite(v: Json)
    decreases v
  {
    match v
    case NonFinite(_) => false
    case Arr(items) => forall i :: 0 <= i < |items| ==> Finite(items[i])
    case Obj(fields) => forall i :: 0 <= i < |fields| ==> Finite(fields[i].value)
    case _ => true
  }

  function AsNull(v: Json): Json
    decreases v
  {
    match v
    case NonFinite(_) => Null
    case Arr(items) => Arr(ItemsAsNull(items))
    case Obj(fields) => Obj(FieldsAsNull(fields))
    case _ => v
  }

  function ItemsAsNull(items: seq<Json>): (r: seq<Json>)
    ensures |r| == |items| && forall i :: 0 <= i < |r| ==> r[i] == AsNull(items[i])
    decreases items
  {
    if items == [] then [] else [AsNull(items[0])] + ItemsAsNull(items[1..])
  }

  function FieldsAsNull(fs: seq<Field>): (r: seq<Field>)
    ensures |r| == |fs| && forall i :: 0 <= i < |r| ==> r[i] == Field(fs[i].key, AsNull(fs[i].value))
    decreases fs
  {
    if fs == [] then [] else [Field(fs[0].key, AsNull(fs[0].value))] + FieldsAsNull(fs[1..])
  }

  /** The meaning of a value whose non-finite numbers are read as null. */
  function Reading(v: Json): Value {
    Meaning(AsNull(v))
  }

  lemma {:induction false} AsNullIsFinite(v: Json)
    ensures Finite(AsNull(v)) && (WellFormed(v) ==> WellFormed(AsNull(v)))
    decreases v
  {
    match v
    case Arr(items) =>
      forall i | 0 <= i < |items|
        ensures Finite(AsNull(items[i])) && (WellFormed(items[i]) ==> WellFormed(AsNull(items[i])))
      {
        AsNullIsFinite(items[i]);
      }
    case Obj(fields) =>
      forall i | 0 <= i < |fields|
        ensures Finite(AsNull(fields[i].value)) && (WellFormed(fields[i].value) ==> WellFormed(AsNull(fields[i].value)))
      {
        AsNullIsFinite(fields[i].value);
      }
    case _ =>
  }

  lemma {:induction false} FiniteIsItself(v: Json)
    requires Finite(v)
    ensures AsNull(v) == v
    decreases v
  {
    match v
    case Arr(items) =>
      forall i | 0 <= i < |items|
        ensures AsNull(items[i]) == items[i]
      {
        FiniteIsItself(items[i]);
      }
      assert ItemsAsNull(items) == items;
    case Obj(fields) =>
      forall i | 0 <= i < |fields|
        ensures AsNull(fields[i].value) == fields[i].value
      {
        FiniteIsItself(fields[i].value);
      }
      assert FieldsAsNull(fields) == fields;
    case _ =>
  }

  // ----- a printer that carries what follows, and the form it prints -----

  function Norm(v: Json, lt: Before): Json
    decreases v
  {
    match v
    case Undefined => Null
    case NonFinite(_) => Null
    case Arr(items) => Arr(NormItems(items, lt))
    case Obj(fields) => Obj(Sort(NormFields(fields, lt), lt))
    case _ => v
  }

  function NormItems(items: seq<Json>, lt: Before): (r: seq<Json>)
    ensures |r| == |items| && forall i :: 0 <= i < |r| ==> r[i] == Norm(items[i], lt)
    decreases items
  {
    if items == [] then [] else [Norm(items[0], lt)] + NormItems(items[1..], lt)
  }

  function NormFields(fs: seq<Field>, lt: Before): (r: seq<Field>)
    ensures |r| == |fs| && forall i :: 0 <= i < |r| ==> r[i] == Field(fs[i].key, Norm(fs[i].value, lt))
    decreases fs
  {
    if fs == [] then [] else [Field(fs[0].key, Norm(fs[0].value, lt))] + NormFields(fs[1..], lt)
  }

  function EmitEscaped(s: Text, k: Text): Text {
    if s == [] then k else Piece(s) + EmitEscaped(s[Taken(s)..], k)
  }

  function EmitQuoted(s: Text, k: Text): Text {
    [QUOTE] + EmitEscaped(s, [QUOTE] + k)
  }

  function Emit(v: Json, k: Text): Text
    decreases v
  {
    match v
    case Null => NULL + k
    case Undefined => NULL + k
    case NonFinite(_) => NULL + k
    case Boolean(b) => (if b then TRUE else FALSE) + k
    case Number(text) => text + k
    case String(s) => EmitQuoted(s, k)
    case Arr(items) => [LBRACKET] + EmitItems(items, [RBRACKET] + k)
    case Obj(fields) => [LBRACE] + EmitFields(fields, [RBRACE] + k)
  }

  function EmitItems(items: seq<Json>, k: Text): Text
    decreases items
  {
    if items == [] then k
    else Emit(items[0], if |items| == 1 then k else [COMMA] + EmitItems(items[1..], k))
  }

  function EmitFields(fs: seq<Field>, k: Text): Text
    decreases fs
  {
    if fs == [] then k
    else EmitQuoted(fs[0].key, [COLON] + Emit(fs[0].value, if |fs| == 1 then k else [COMMA] + EmitFields(fs[1..], k)))
  }

  lemma {:induction false} EscapedIsEmit(s: Text, k: Text)
    ensures Escaped(s) + k == EmitEscaped(s, k)
    decreases |s|
  {
    if s != [] {
      var rest := s[Taken(s)..];
      EscapedIsEmit(rest, k);
      assert Escaped(s) + k == Piece(s) + (Escaped(rest) + k);
    }
  }

  lemma QuotedIsEmit(s: Text, k: Text)
    ensures Quoted(s) + k == EmitQuoted(s, k)
  {
    EscapedIsEmit(s, [QUOTE] + k);
    assert Quoted(s) + k == [QUOTE] + (Escaped(s) + ([QUOTE] + k));
  }

  lemma {:induction false} InsertCommutes(f: Field, fs: seq<Field>, lt: Before)
    ensures Sorting.Insert(ByKey(lt), Field(f.key, Norm(f.value, lt)), NormFields(fs, lt)) ==
            NormFields(Sorting.Insert(ByKey(lt), f, fs), lt)
    decreases |fs|
  {
    var g, gs := Field(f.key, Norm(f.value, lt)), NormFields(fs, lt);
    if fs == [] {
      assert NormFields([f], lt) == [g];
    } else {
      assert gs[1..] == NormFields(fs[1..], lt);
      if ByKey(lt)(f, fs[0]) {
        assert NormFields([f] + fs, lt) == [g] + gs;
      } else {
        InsertCommutes(f, fs[1..], lt);
        var rest := Sorting.Insert(ByKey(lt), f, fs[1..]);
        assert NormFields([fs[0]] + rest, lt) == [gs[0]] + NormFields(rest, lt);
      }
    }
  }

  lemma {:induction false} SortCommutes(fs: seq<Field>, lt: Before)
    ensures Sorting.Sort(ByKey(lt), NormFields(fs, lt)) == NormFields(Sorting.Sort(ByKey(lt), fs), lt)
    decreases |fs|
  {
    if fs != [] {
      SortCommutes(fs[1..], lt);
      InsertCommutes(fs[0], Sorting.Sort(ByKey(lt), fs[1..]), lt);
    }
  }

  lemma {:induction false} PrintIsEmit(v: Json, k: Text, lt: Before)
    ensures Print(v, lt) + k == Emit(Norm(v, lt), k)
    decreases v
  {
    match v
    case String(s) => QuotedIsEmit(s, k);
    case Arr(items) =>
      ItemsAreEmit(items, [RBRACKET] + k, lt);
      assert Print(v, lt) + k == [LBRACKET] + (PrintItems(items, lt) + ([RBRACKET] + k));
    case Obj(fields) => ObjectIsEmit(v, k, lt);
    case _ =>
  }

  lemma {:induction false} ObjectIsEmit(v: Json, k: Text, lt: Before)
    requires v.Obj?
    ensures Print(v, lt) + k == Emit(Norm(v, lt), k)
    decreases v, |v.fields| + 1
  {
    var sorted := Sort(v.fields, lt);
    assert Norm(v, lt) == Obj(NormFields(sorted, lt)) by {
      SortCommutes(v.fields, lt);
    }
    FieldsAreEmit(v, sorted, [RBRACE] + k, lt);
    Bracketed(PrintFields(v, sorted, lt), k);
  }

  lemma Bracketed(inner: Text, k: Text)
    ensures [LBRACE] + inner + [RBRACE] + k == [LBRACE] + (inner + ([RBRACE] + k))
  {
  }

  lemma JoinOne(q: Text, p: Text, k: Text)
    ensures q + [COLON] + p + k == q + ([COLON] + (p + k))
  {
  }

  lemma JoinMore(q: Text, p: Text, more: Text, k: Text)
    ensures q + [COLON] + p + [COMMA] + more + k == q + ([COLON] + (p + ([COMMA] + (more + k))))
  {
  }

  lemma JoinItem(p: Text, more: Text, k: Text)
    ensures p + [COMMA] + more + k == p + ([COMMA] + (more + k))
  {
  }

  lemma {:induction false} ItemsAreEmit(items: seq<Json>, k: Text, lt: Before)
    ensures PrintItems(items, lt) + k == EmitItems(NormItems(items, lt), k)
    decreases items
  {
    if items == [] {
      assert PrintItems(items, lt) + k == k;
    } else if |items| == 1 {
      PrintIsEmit(items[0], k, lt);
    } else {
      var more := PrintItems(items[1..], lt);
      ItemsAreEmit(items[1..], k, lt);
      PrintIsEmit(items[0], [COMMA] + (more + k), lt);
      JoinItem(Print(items[0], lt), more, k);
      assert NormItems(items, lt)[1..] == NormItems(items[1..], lt);
    }
  }

  lemma {:induction false} FieldsAreEmit(v: Json, fs: seq<Field>, k: Text, lt: Before)
    requires v.Obj? && forall f :: f in fs ==> f in v.fields
    ensures PrintFields(v, fs, lt) + k == EmitFields(NormFields(fs, lt), k)
    decreases v, |fs|
  {
    if fs == [] {
      assert PrintFields(v, fs, lt) + k == k;
    } else {
      assert fs[0] in v.fields;
      var quoted, printed := Quoted(fs[0].key), Print(fs[0].value, lt);
      if |fs| == 1 {
        PrintIsEmit(fs[0].value, k, lt);
        QuotedIsEmit(fs[0].key, [COLON] + (printed + k));
        JoinOne(quoted, printed, k);
      } else {
        var more := PrintFields(v, fs[1..], lt);
        FieldsAreEmit(v, fs[1..], k, lt);
        PrintIsEmit(fs[0].value, [COMMA] + (more + k), lt);
        QuotedIsEmit(fs[0].key, [COLON] + (printed + ([COMMA] + (more + k))));
        JoinMore(quoted, printed, more, k);
        assert NormFields(fs, lt)[1..] == NormFields(fs[1..], lt);
      }
    }
  }

  // ----- what is printed -----

  /** What may follow a value: the end, or a delimiter. */
  predicate Stops(k: Text) {
    k == [] || k[0] == COMMA || k[0] == RBRACKET || k[0] == RBRACE
  }

  /** A value as it is printed: no absent bodies, numbers printed as number texts. */
  ghost predicate Clean(v: Json)
    decreases v
  {
    match v
    case Undefined => false
    case NonFinite(_) => false
    case Number(text) => NumberText(text)
    case Arr(items) => forall i :: 0 <= i < |items| ==> Clean(items[i])
    case Obj(fields) => forall i :: 0 <= i < |fields| ==> Clean(fields[i].value)
    case _ => true
  }

  // ----- a reader of JSON texts without white space (RFC 8259) -----

  datatype Read<T> = Failed | Got(value: T, rest: Text)

  /** The unit that the letter after a backslash stands for (section 7 of RFC 8259). */
  function Unescaped(letter: Unit): Unit {
    if letter == 0x62 then 8 else if letter == 0x66 then 12 else if letter == 0x6E then 10
    else if letter == 0x72 then 13 else if letter == 0x74 then 9 else letter
  }

  predicate EscapeLetter(u: Unit) {
    u in {0x22, 0x5C, 0x2F, 0x62, 0x66, 0x6E, 0x72, 0x74}
  }

  predicate HexUnit(u: Unit) {
    0x30 <= u <= 0x39 || 0x61 <= u <= 0x66
  }

  function HexValue(u: Unit): int
    requires HexUnit(u)
  {
    if u <= 0x39 then u as int - 0x30 else u as int - 0x57
  }

  function FourHex(text: Text): Unit
    requires |text| >= 4 && forall i :: 0 <= i < 4 ==> HexUnit(text[i])
  {
    (4096 * HexValue(text[0]) + 256 * HexValue(text[1]) + 16 * HexValue(text[2]) + HexValue(text[3])) as Unit
  }

  function Prepended(head: Text, r: Read<Text>): Read<Text> {
    if r.Got? then Got(head + r.value, r.rest) else Failed
  }

  /** The rest of a string, up to its closing quote. */
  function ReadChars(text: Text): (r: Read<Text>)
    ensures r.Got? ==> |r.rest| < |text|
    decreases |text|
  {
    if text == [] then Failed
    else if text[0] == QUOTE then Got([], text[1..])
    else if text[0] != BACKSLASH then (if text[0] < 0x20 then Failed else Prepended([text[0]], ReadChars(text[1..])))
    else if |text| >= 6 && text[1] == 0x75 && forall i :: 2 <= i < 6 ==> HexUnit(text[i]) then
      Prepended([FourHex(text[2..6])], ReadChars(text[6..]))
    else if |text| >= 2 && EscapeLetter(text[1]) then Prepended([Unescaped(text[1])], ReadChars(text[2..]))
    else Failed
  }

  /** The longest start of the text that can belong to a number. */
  function NumberLength(text: Text): (n: nat)
    ensures n <= |text|
  {
    if text != [] && NumberUnit(text[0]) then 1 + NumberLength(text[1..]) else 0
  }

  function ReadValue(text: Text): (r: Read<Json>)
    ensures r.Got? ==> |r.rest| < |text|
    decreases |text|, 0
  {
    if text == [] then Failed
    else if NULL <= text then Got(Null, text[4..])
    else if TRUE <= text then Got(Boolean(true), text[4..])
    else if FALSE <= text then Got(Boolean(false), text[5..])
    else if text[0] == QUOTE then
      (var s := ReadChars(text[1..]);
       if s.Got? then Got(String(s.value), s.rest) else Failed)
    else if text[0] == LBRACKET then
      if |text| > 1 && text[1] == RBRACKET then Got(Arr([]), text[2..])
      else
        (var items := ReadItems(text[1..]);
         if items.Got? then Got(Arr(items.value), items.rest) else Failed)
    else if text[0] == LBRACE then
      if |text| > 1 && text[1] == RBRACE then Got(Obj([]), text[2..])
      else
        (var fields := ReadFields(text[1..]);
         if fields.Got? then Got(Obj(fields.value), fields.rest) else Failed)
    else
      var n := NumberLength(text);
      if n > 0 && NumberText(text[..n]) then Got(Number(text[..n]), text[n..]) else Failed
  }

  /** The items of a non-empty array and its closing bracket. */
  function ReadItems(text: Text): (r: Read<seq<Json>>)
    ensures r.Got? ==> |r.rest| < |text|
    decreases |text|, 1
  {
    var v := ReadValue(text);
    if v.Failed? || v.rest == [] then Failed
    else if v.rest[0] == RBRACKET then Got([v.value], v.rest[1..])
    else if v.rest[0] != COMMA then Failed
    else
      var more := ReadItems(v.rest[1..]);
      if more.Got? then Got([v.value] + more.value, more.rest) else Failed
  }

  /** The fields of a non-empty object and its closing brace. */
  function ReadFields(text: Text): (r: Read<seq<Field>>)
    ensures r.Got? ==> |r.rest| < |text|
    decreases |text|, 1
  {
    if text == [] || text[0] != QUOTE then Failed
    else
      var key := ReadChars(text[1..]);
      if key.Failed? || key.rest == [] || key.rest[0] != COLON then Failed
      else
        var v := ReadValue(key.rest[1..]);
        if v.Failed? || v.rest == [] then Failed
        else if v.rest[0] == RBRACE then Got([Field(key.value, v.value)], v.rest[1..])
        else if v.rest[0] != COMMA then Failed
        else
          var more := ReadFields(v.rest[1..]);
          if more.Got? then Got([Field(key.value, v.value)] + more.value, more.rest) else Failed
  }

  // ----- printed texts read back -----

  lemma FourDigits(n: int)
    requires 0 <= n < 0x1_0000
    ensures n == 4096 * (n / 4096) + 256 * (n / 256 % 16) + 16 * (n / 16 % 16) + n % 16
  {
    assert n / 16 / 16 == n / 256 && n / 256 / 16 == n / 4096;
  }

  lemma DigitReads(d: int)
    requires 0 <= d < 16
    ensures HexUnit(HexDigit(d)) && HexValue(HexDigit(d)) == d
  {
  }

  lemma HexReads(u: Unit, k: Text)
    ensures ReadChars(HexEscape(u) + k) == Prepended([u], ReadChars(k))
  {
    var n, text := u as int, HexEscape(u) + k;
    DigitReads(n / 4096);
    DigitReads(n / 256 % 16);
    DigitReads(n / 16 % 16);
    DigitReads(n % 16);
    FourDigits(n);
    assert text[2..6] == HexEscape(u)[2..6] && text[6..] == k;
  }

  lemma LetterReads(u: Unit, k: Text)
    requires ShortEscape(u) != 0
    ensures ReadChars([BACKSLASH, ShortEscape(u)] + k) == Prepended([u], ReadChars(k))
  {
    var text := [BACKSLASH, ShortEscape(u)] + k;
    assert text[0] == BACKSLASH && text[1] == ShortEscape(u) && text[2..] == k;
  }

  lemma PlainReads(u: Unit, k: Text)
    requires u >= 0x20 && u != QUOTE && u != BACKSLASH
    ensures ReadChars([u] + k) == Prepended([u], ReadChars(k))
  {
    assert ([u] + k)[1..] == k;
  }

  /** A piece of the quoted text reads as the units it stands for. */
  lemma PieceReads(s: Text, more: Text)
    requires s != []
    ensures ReadChars(Piece(s) + more) == Prepended(s[..Taken(s)], ReadChars(more))
  {
    if Taken(s) == 2 {
      assert Piece(s) + more == [s[0]] + ([s[1]] + more);
      PlainReads(s[0], [s[1]] + more);
      PlainReads(s[1], more);
      var r := ReadChars(more);
      assert r.Got? ==> [s[0]] + ([s[1]] + r.value) == s[..2] + r.value;
    } else {
      assert s[..1] == [s[0]];
      if ShortEscape(s[0]) != 0 {
        LetterReads(s[0], more);
      } else if Piece(s) == [s[0]] {
        PlainReads(s[0], more);
      } else {
        HexReads(s[0], more);
      }
    }
  }

  lemma {:induction false} CharsReadBack(s: Text, k: Text)
    ensures ReadChars(EmitEscaped(s, [QUOTE] + k)) == Got(s, k)
    decreases |s|
  {
    if s == [] {
      assert ([QUOTE] + k)[1..] == k;
    } else {
      var n := Taken(s);
      CharsReadBack(s[n..], k);
      PieceReads(s, EmitEscaped(s[n..], [QUOTE] + k));
      assert s[..n] + s[n..] == s;
    }
  }

  lemma {:induction false} NumberReads(x: Text, k: Text)
    requires Stops(k) && forall i :: 0 <= i < |x| ==> NumberUnit(x[i])
    ensures NumberLength(x + k) == |x|
    decreases |x|
  {
    if x == [] {
      assert x + k == k;
    } else {
      assert (x + k)[1..] == x[1..] + k;
      NumberReads(x[1..], k);
    }
  }

  lemma NumberReadsBack(x: Text, k: Text)
    requires NumberText(x) && Stops(k)
    ensures ReadValue(x + k) == Got(Number(x), k)
  {
    NumberReads(x, k);
    var text := x + k;
    assert text[0] == x[0] && text[..|x|] == x && text[|x|..] == k;
    assert NULL[0] == 0x6E && TRUE[0] == 0x74 && FALSE[0] == 0x66;
  }

  lemma WordReadsBack(k: Text)
    ensures ReadValue(NULL + k) == Got(Null, k)
    ensures ReadValue(TRUE + k) == Got(Boolean(true), k)
    ensures ReadValue(FALSE + k) == Got(Boolean(false), k)
  {
    assert (NULL + k)[4..] == k && (TRUE + k)[4..] == k && (FALSE + k)[5..] == k;
    assert (TRUE + k)[0] == 0x74 && (FALSE + k)[0] == 0x66 && NULL[0] == 0x6E && TRUE[0] == 0x74;
  }

  /** What follows the first of several items. */
  function AfterItem(items: seq<Json>, k: Text): Text
    requires items != []
  {
    if |items| == 1 then k else [COMMA] + EmitItems(items[1..], k)
  }

  function AfterField(fs: seq<Field>, k: Text): Text
    requires fs != []
  {
    if |fs| == 1 then k else [COMMA] + EmitFields(fs[1..], k)
  }

  lemma NoWord(text: Text)
    requires text != [] && text[0] in {QUOTE, LBRACKET, LBRACE}
    ensures !(NULL <= text) && !(TRUE <= text) && !(FALSE <= text)
  {
    assert NULL[0] == 0x6E && TRUE[0] == 0x74 && FALSE[0] == 0x66;
  }

  lemma FirstUnit(v: Json, k: Text)
    requires Clean(v)
    ensures Emit(v, k) != [] && Emit(v, k)[0] != RBRACKET
  {
  }

  lemma {:induction false} ValueReadsBack(v: Json, k: Text)
    requires Clean(v) && Stops(k)
    ensures ReadValue(Emit(v, k)) == Got(v, k)
    decreases v
  {
    match v
    case Null => WordReadsBack(k);
    case Boolean(_) => WordReadsBack(k);
    case Number(x) => NumberReadsBack(x, k);
    case String(s) =>
      NoWord(Emit(v, k));
      CharsReadBack(s, k);
      assert Emit(v, k)[1..] == EmitEscaped(s, [QUOTE] + k);
    case Arr(items) =>
      var inner := EmitItems(items, [RBRACKET] + k);
      NoWord(Emit(v, k));
      assert Emit(v, k)[1..] == inner;
      if items == [] {
        assert Emit(v, k)[2..] == k;
      } else {
        FirstUnit(items[0], AfterItem(items, [RBRACKET] + k));
        ItemsReadBack(items, k);
      }
    case Obj(fields) =>
      var inner := EmitFields(fields, [RBRACE] + k);
      NoWord(Emit(v, k));
      assert Emit(v, k)[1..] == inner;
      if fields == [] {
        assert Emit(v, k)[2..] == k;
      } else {
        assert inner[0] == QUOTE;
        FieldsReadBack(fields, k);
      }
  }

  lemma {:induction false} ItemsReadBack(items: seq<Json>, k: Text)
    requires items != [] && forall i :: 0 <= i < |items| ==> Clean(items[i])
    ensures ReadItems(EmitItems(items, [RBRACKET] + k)) == Got(items, k)
    decreases items
  {
    var after := AfterItem(items, [RBRACKET] + k);
    ValueReadsBack(items[0], after);
    if |items| == 1 {
      assert after[1..] == k && items == [items[0]];
    } else {
      ItemsReadBack(items[1..], k);
      assert after[1..] == EmitItems(items[1..], [RBRACKET] + k);
      assert items == [items[0]] + items[1..];
    }
  }

  lemma FieldReads(key: Text, value: Text, v: Json, after: Text)
    requires ReadValue(value) == Got(v, after) && after != [] && (after[0] == RBRACE || after[0] == COMMA)
    ensures
      var text := EmitQuoted(key, [COLON] + value);
      ReadFields(text) ==
        if after[0] == RBRACE then Got([Field(key, v)], after[1..])
        else
          var more := ReadFields(after[1..]);
          if more.Got? then Got([Field(key, v)] + more.value, more.rest) else Failed
  {
    var text := EmitQuoted(key, [COLON] + value);
    CharsReadBack(key, [COLON] + value);
    assert text[0] == QUOTE && text[1..] == EmitEscaped(key, [QUOTE] + ([COLON] + value));
    assert ([COLON] + value)[0] == COLON && ([COLON] + value)[1..] == value;
  }

  lemma {:induction false} FieldsReadBack(fs: seq<Field>, k: Text)
    requires fs != [] && forall i :: 0 <= i < |fs| ==> Clean(fs[i].value)
    ensures ReadFields(EmitFields(fs, [RBRACE] + k)) == Got(fs, k)
    decreases fs
  {
    var after := AfterField(fs, [RBRACE] + k);
    ValueReadsBack(fs[0].value, after);
    FieldReads(fs[0].key, Emit(fs[0].value, after), fs[0].value, after);
    if |fs| == 1 {
      assert after[1..] == k && fs == [fs[0]];
    } else {
      FieldsReadBack(fs[1..], k);
      assert after[1..] == EmitFields(fs[1..], [RBRACE] + k);
      assert fs == [fs[0]] + fs[1..];
    }
  }

  // ----- normal forms and meanings -----

  lemma {:induction false} NormIsClean(v: Json, lt: Before)
    requires WellFormed(v)
    ensures Clean(Norm(v, lt))
    decreases v
  {
    match v
    case Arr(items) =>
      forall i | 0 <= i < |items|
        ensures Clean(Norm(items[i], lt))
      {
        NormIsClean(items[i], lt);
      }
    case Obj(fields) =>
      forall i | 0 <= i < |fields|
        ensures Clean(Norm(fields[i].value, lt))
      {
        NormIsClean(fields[i].value, lt);
      }
      var fs := NormFields(fields, lt);
      assert forall f :: f in fs ==> Clean(f.value);
      assert forall i :: 0 <= i < |fs| ==> Sort(fs, lt)[i] in fs;
    case _ =>
  }

  lemma {:induction false} InsertKeepsDistinct(f: Field, fs: seq<Field>, lt: Before)
    requires DistinctKeys(fs) && forall g :: g in fs ==> g.key != f.key
    ensures DistinctKeys(Sorting.Insert(ByKey(lt), f, fs))
    decreases |fs|
  {
    if fs != [] && !ByKey(lt)(f, fs[0]) {
      var rest := Sorting.Insert(ByKey(lt), f, fs[1..]);
      InsertKeepsDistinct(f, fs[1..], lt);
      forall i | 0 <= i < |rest|
        ensures rest[i].key != fs[0].key
      {
        Sorting.InsertedElements(ByKey(lt), f, fs[1..], rest[i]);
      }
    }
  }

  lemma {:induction false} SortKeepsDistinct(fs: seq<Field>, lt: Before)
    requires DistinctKeys(fs)
    ensures DistinctKeys(Sorting.Sort(ByKey(lt), fs))
    decreases |fs|
  {
    if fs != [] {
      SortKeepsDistinct(fs[1..], lt);
      SortKeepsFields(fs[1..], lt);
      InsertKeepsDistinct(fs[0], Sorting.Sort(ByKey(lt), fs[1..]), lt);
    }
  }

  /** `gs` has a field of the same key and meaning as field `i` of `fs`. */
  ghost predicate Covers(gs: seq<Field>, fs: seq<Field>, i: nat)
    requires i < |fs|
  {
    exists j :: 0 <= j < |gs| && gs[j].key == fs[i].key && Meaning(gs[j].value) == Meaning(fs[i].value)
  }

  lemma SameFieldsSameMap(fs: seq<Field>, gs: seq<Field>)
    requires DistinctKeys(fs) && DistinctKeys(gs)
    requires forall i :: 0 <= i < |fs| ==> Covers(gs, fs, i)
    requires forall j :: 0 <= j < |gs| ==> HasKey(fs, gs[j].key)
    ensures FieldMeanings(fs) == FieldMeanings(gs)
  {
    var m, n := FieldMeanings(fs), FieldMeanings(gs);
    forall k
      ensures k in m <==> k in n
      ensures k in m ==> m[k] == n[k]
    {
      MapKeys(fs, k);
      MapKeys(gs, k);
      if HasKey(fs, k) {
        var i :| 0 <= i < |fs| && fs[i].key == k;
        assert Covers(gs, fs, i);
        var j :| 0 <= j < |gs| && gs[j].key == fs[i].key && Meaning(gs[j].value) == Meaning(fs[i].value);
        MapEntry(fs, i);
        MapEntry(gs, j);
      }
    }
  }

  /** Normalising changes no meaning, when every number is finite. */
  lemma {:induction false} NormKeepsMeaning(v: Json, lt: Before)
    requires WellFormed(v) && Finite(v)
    ensures Meaning(Norm(v, lt)) == Meaning(v)
    decreases v
  {
    match v
    case Arr(items) =>
      forall i | 0 <= i < |items|
        ensures Meaning(Norm(items[i], lt)) == Meaning(items[i])
      {
        NormKeepsMeaning(items[i], lt);
      }
      assert Meanings(NormItems(items, lt)) == Meanings(items);
    case Obj(fields) =>
      forall i | 0 <= i < |fields|
        ensures Meaning(Norm(fields[i].value, lt)) == Meaning(fields[i].value)
      {
        NormKeepsMeaning(fields[i].value, lt);
      }
      NormKeepsFields(fields, lt);
    case _ =>
  }

  lemma ReorderingKeepsMap(fs: seq<Field>, gs: seq<Field>)
    requires DistinctKeys(fs) && DistinctKeys(gs) && forall f :: f in fs <==> f in gs
    ensures FieldMeanings(fs) == FieldMeanings(gs)
  {
    forall i | 0 <= i < |fs|
      ensures Covers(gs, fs, i)
    {
      assert fs[i] in gs;
      var j :| 0 <= j < |gs| && gs[j] == fs[i];
    }
    forall j | 0 <= j < |gs|
      ensures HasKey(fs, gs[j].key)
    {
      assert gs[j] in fs;
      var i :| 0 <= i < |fs| && fs[i] == gs[j];
    }
    SameFieldsSameMap(fs, gs);
  }

  lemma NormKeepsFields(fields: seq<Field>, lt: Before)
    requires DistinctKeys(fields)
    requires forall i :: 0 <= i < |fields| ==> Meaning(Norm(fields[i].value, lt)) == Meaning(fields[i].value)
    ensures FieldMeanings(Sort(NormFields(fields, lt), lt)) == FieldMeanings(fields)
  {
    var fs := NormFields(fields, lt);
    forall i | 0 <= i < |fields|
      ensures Covers(fs, fields, i) && HasKey(fields, fs[i].key)
    {
      assert fs[i].key == fields[i].key && Meaning(fs[i].value) == Meaning(fields[i].value);
    }
    SameFieldsSameMap(fields, fs);
    SortKeepsDistinct(fs, lt);
    ReorderingKeepsMap(fs, Sort(fs, lt));
  }

  // ----- comparators -----

  /** What a consistent comparator gives: a strict weak order, which may tie different keys. */
  ghost predicate StrictWeak(lt: Before) {
    && (forall x, y :: lt(x, y) ==> !lt(y, x))
    && (forall x, y, z :: !lt(x, y) && !lt(y, z) ==> !lt(x, z))
  }

  predicate Tied(lt: Before, x: Text, y: Text) {
    x != y && !lt(x, y) && !lt(y, x)
  }

  ghost predicate KeysUntied(fs: seq<Field>, lt: Before) {
    forall i, j :: 0 <= i < j < |fs| ==> !Tied(lt, fs[i].key, fs[j].key)
  }

  /** No object inside the value holds two keys that the comparator ties. */
  ghost predicate Untied(v: Json, lt: Before)
    decreases v
  {
    match v
    case Arr(items) => forall i :: 0 <= i < |items| ==> Untied(items[i], lt)
    case Obj(fields) => KeysUntied(fields, lt) && forall i :: 0 <= i < |fields| ==> Untied(fields[i].value, lt)
    case _ => true
  }

  lemma ByKeyIsPreorder(lt: Before)
    requires StrictWeak(lt)
    ensures Sorting.TotalPreorder(ByKey(lt))
  {
    var le := ByKey(lt);
    forall f: Field, g: Field, h: Field | le(f, g) && le(g, h)
      ensures le(f, h)
    {
      assert !lt(h.key, g.key) && !lt(g.key, f.key);
    }
    forall f: Field, g: Field
      ensures le(f, g) || le(g, f)
    {
      assert lt(f.key, g.key) ==> !lt(g.key, f.key);
    }
  }

  ghost predicate Ascending(fs: seq<Field>, lt: Before) {
    forall i, j :: 0 <= i < j < |fs| ==> lt(fs[i].key, fs[j].key)
  }

  /** Distinct keys without ties sort into strictly ascending order. */
  lemma SortAscends(fs: seq<Field>, lt: Before)
    requires StrictWeak(lt) && DistinctKeys(fs) && KeysUntied(fs, lt)
    ensures Ascending(Sort(fs, lt), lt)
  {
    ByKeyIsPreorder(lt);
    Sorting.SortSorts(ByKey(lt), fs);
    SortKeepsDistinct(fs, lt);
    SortKeepsFields(fs, lt);
    var r := Sorting.Sort(ByKey(lt), fs);
    forall i, j | 0 <= i < j < |r|
      ensures lt(r[i].key, r[j].key)
    {
      assert ByKey(lt)(r[i], r[j]) && r[i].key != r[j].key;
      assert r[i] in fs && r[j] in fs;
      var a :| 0 <= a < |fs| && fs[a] == r[i];
      var b :| 0 <= b < |fs| && fs[b] == r[j];
      assert !Tied(lt, fs[a].key, fs[b].key);
    }
  }

  /** An ascending sequence is determined by its members. */
  lemma {:induction false} AscendingIsUnique(fs: seq<Field>, gs: seq<Field>, lt: Before)
    requires StrictWeak(lt) && Ascending(fs, lt) && Ascending(gs, lt)
    requires forall f :: f in fs <==> f in gs
    ensures fs == gs
    decreases |fs|
  {
    assert |gs| > 0 ==> gs[0] in gs && gs[0] in fs;
    if fs != [] {
      assert fs[0] in gs;
      assert gs[0] in fs;
      assert fs[0] == gs[0];
      forall f
        ensures f in fs[1..] <==> f in gs[1..]
      {
        assert f in fs[1..] ==> f in fs && f != fs[0];
        assert f in gs[1..] ==> f in gs && f != gs[0];
        assert f in fs && f != fs[0] ==> f in fs[1..];
        assert f in gs && f != gs[0] ==> f in gs[1..];
      }
      AscendingIsUnique(fs[1..], gs[1..], lt);
      assert fs == [fs[0]] + fs[1..] && gs == [gs[0]] + gs[1..];
    }
  }

  /** Reordering untied fields does not change the sorted order. */
  lemma SameSort(fs: seq<Field>, gs: seq<Field>, lt: Before)
    requires StrictWeak(lt) && DistinctKeys(fs) && DistinctKeys(gs) && KeysUntied(fs, lt)
    requires forall f :: f in fs <==> f in gs
    ensures Sort(fs, lt) == Sort(gs, lt)
  {
    forall i, j | 0 <= i < j < |gs|
      ensures !Tied(lt, gs[i].key, gs[j].key)
    {
      assert gs[i] in fs && gs[j] in fs;
      var a :| 0 <= a < |fs| && fs[a] == gs[i];
      var b :| 0 <= b < |fs| && fs[b] == gs[j];
      assert a < b ==> !Tied(lt, fs[a].key, fs[b].key);
      assert b < a ==> !Tied(lt, fs[b].key, fs[a].key);
    }
    SortAscends(fs, lt);
    SortAscends(gs, lt);
    AscendingIsUnique(Sort(fs, lt), Sort(gs, lt), lt);
  }

  // ----- values with one meaning -----

  /** Values with one meaning have one normal form, when no keys that occur together are tied. */
  lemma {:induction false} MeaningFixesNorm(a: Json, b: Json, lt: Before)
    requires StrictWeak(lt) && WellFormed(a) && WellFormed(b) && Untied(a, lt) && Meaning(a) == Meaning(b)
    ensures Norm(a, lt) == Norm(b, lt)
    decreases a
  {
    match a
    case Arr(items) =>
      assert |Meanings(items)| == |Meanings(b.items)|;
      forall i | 0 <= i < |items|
        ensures Norm(items[i], lt) == Norm(b.items[i], lt)
      {
        assert Meanings(items)[i] == Meanings(b.items)[i];
        MeaningFixesNorm(items[i], b.items[i], lt);
      }
      assert NormItems(items, lt) == NormItems(b.items, lt);
    case Obj(fields) =>
      forall i, j | 0 <= i < |fields| && 0 <= j < |b.fields| && fields[i].key == b.fields[j].key
        ensures Norm(fields[i].value, lt) == Norm(b.fields[j].value, lt)
      {
        MapEntry(fields, i);
        MapEntry(b.fields, j);
        MeaningFixesNorm(fields[i].value, b.fields[j].value, lt);
      }
      FieldsFixNorm(fields, b.fields, lt);
      FieldsFixNorm(b.fields, fields, lt);
      SameSort(NormFields(fields, lt), NormFields(b.fields, lt), lt);
    case _ =>
  }

  lemma FieldsFixNorm(fs: seq<Field>, gs: seq<Field>, lt: Before)
    requires FieldMeanings(fs) == FieldMeanings(gs)
    requires forall i, j :: 0 <= i < |fs| && 0 <= j < |gs| && fs[i].key == gs[j].key ==>
               Norm(fs[i].value, lt) == Norm(gs[j].value, lt)
    ensures forall f :: f in NormFields(fs, lt) ==> f in NormFields(gs, lt)
  {
    forall f | f in NormFields(fs, lt)
      ensures f in NormFields(gs, lt)
    {
      var i :| 0 <= i < |fs| && NormFields(fs, lt)[i] == f;
      MapKeys(fs, fs[i].key);
      MapKeys(gs, fs[i].key);
      assert HasKey(fs, fs[i].key);
      var j :| 0 <= j < |gs| && gs[j].key == fs[i].key;
      assert NormFields(gs, lt)[j] == f;
    }
  }

  lemma {:induction false} NormOfAsNull(v: Json, lt: Before)
    ensures Norm(AsNull(v), lt) == Norm(v, lt)
    decreases v
  {
    match v
    case Arr(items) =>
      forall i | 0 <= i < |items|
        ensures Norm(AsNull(items[i]), lt) == Norm(items[i], lt)
      {
        NormOfAsNull(items[i], lt);
      }
      assert NormItems(ItemsAsNull(items), lt) == NormItems(items, lt);
    case Obj(fields) =>
      forall i | 0 <= i < |fields|
        ensures Norm(AsNull(fields[i].value), lt) == Norm(fields[i].value, lt)
      {
        NormOfAsNull(fields[i].value, lt);
      }
      assert NormFields(FieldsAsNull(fields), lt) == NormFields(fields, lt);
    case _ =>
  }

  lemma {:induction false} UntiedAsNull(v: Json, lt: Before)
    ensures Untied(AsNull(v), lt) <==> Untied(v, lt)
    decreases v
  {
    match v
    case Arr(items) =>
      forall i | 0 <= i < |items|
        ensures Untied(AsNull(items[i]), lt) <==> Untied(items[i], lt)
      {
        UntiedAsNull(items[i], lt);
      }
    case Obj(fields) =>
      forall i | 0 <= i < |fields|
        ensures Untied(AsNull(fields[i].value), lt) <==> Untied(fields[i].value, lt)
      {
        UntiedAsNull(fields[i].value, lt);
      }
      var gs := FieldsAsNull(fields);
      assert forall i :: 0 <= i < |fields| ==> gs[i].key == fields[i].key;
      assert KeysUntied(gs, lt) <==> KeysUntied(fields, lt);
    case _ =>
  }

  // ----- the theorems -----

  /** Texts are equal exactly when normal forms are. */
  lemma PrintFollowsNorm(a: Json, b: Json, lt: Before)
    requires WellFormed(a) && WellFormed(b)
    ensures Print(a, lt) == Print(b, lt) <==> Norm(a, lt) == Norm(b, lt)
  {
    PrintIsEmit(a, [], lt);
    PrintIsEmit(b, [], lt);
    assert Print(a, lt) + [] == Print(a, lt) && Print(b, lt) + [] == Print(b, lt);
    NormIsClean(a, lt);
    NormIsClean(b, lt);
    ValueReadsBack(Norm(a, lt), []);
    ValueReadsBack(Norm(b, lt), []);
  }

  /** The text is JSON: read back, it is a value that means what was printed, with non-finite numbers and an
      absent body as null. */
  lemma TextsReadBack(v: Json, lt: Before)
    requires WellFormed(v)
    ensures
      var r := ReadValue(Print(v, lt));
      r == Got(Norm(v, lt), []) && Meaning(r.value) == Reading(v)
  {
    PrintIsEmit(v, [], lt);
    assert Print(v, lt) + [] == Print(v, lt);
    NormIsClean(v, lt);
    ValueReadsBack(Norm(v, lt), []);
    AsNullIsFinite(v);
    NormOfAsNull(v, lt);
    NormKeepsMeaning(AsNull(v), lt);
  }

  /** Equal texts come only from values that read the same once non-finite numbers are read as null,
      whatever the key comparison does. */
  lemma EqualTextsMeanTheSame(a: Json, b: Json, lt: Before)
    requires WellFormed(a) && WellFormed(b) && Print(a, lt) == Print(b, lt)
    ensures Reading(a) == Reading(b)
  {
    PrintFollowsNorm(a, b, lt);
    AsNullIsFinite(a);
    AsNullIsFinite(b);
    NormOfAsNull(a, lt);
    NormOfAsNull(b, lt);
    NormKeepsMeaning(AsNull(a), lt);
    NormKeepsMeaning(AsNull(b), lt);
  }

  /** For any strict weak order of keys and a value in which no two keys of one object are tied: another
      value has the same text exactly when it reads the same, up to the order of keys and with
      non-finite numbers and an absent body read as null. */
  lemma CanonicalTextIsTheMeaning(a: Json, b: Json, lt: Before)
    requires StrictWeak(lt) && WellFormed(a) && WellFormed(b) && Untied(a, lt)
    ensures Print(a, lt) == Print(b, lt) <==> Reading(a) == Reading(b)
  {
    if Reading(a) == Reading(b) {
      AsNullIsFinite(a);
      AsNullIsFinite(b);
      UntiedAsNull(a, lt);
      MeaningFixesNorm(AsNull(a), AsNull(b), lt);
      NormOfAsNull(a, lt);
      NormOfAsNull(b, lt);
      PrintFollowsNorm(a, b, lt);
    } else if Print(a, lt) == Print(b, lt) {
      EqualTextsMeanTheSame(a, b, lt);
    }
  }

  /** The texts of different values can be equal: `{"x":1e400}` and `{"x":null}`. */
  lemma InfinityPrintsAsNull(lt: Before)
    ensures
      var a, b := Obj([Field([0x78], NonFinite(false))]), Obj([Field([0x78], Null)]);
      WellFormed(a) && WellFormed(b) && Meaning(a) != Meaning(b) && Print(a, lt) == Print(b, lt)
  {
    var x: Text := [0x78];
    var fs, gs := [Field(x, NonFinite(false))], [Field(x, Null)];
    PrintFollowsNorm(Obj(fs), Obj(gs), lt);
    assert NormFields(fs, lt) == NormFields(gs, lt);
    MapEntry(fs, 0);
    MapEntry(gs, 0);
  }

  // ----- exactly when the order of keys does not show -----

  function Swapped(fs: seq<Field>, i: nat, j: nat): (r: seq<Field>)
    requires i < j < |fs|
    ensures |r| == |fs| && r[i] == fs[j] && r[j] == fs[i] && forall k :: 0 <= k < |r| && k != i && k != j ==>
            r[k] == fs[k]
  {
    fs[i := fs[j]][j := fs[i]]
  }

  lemma SwappedKeeps(fs: seq<Field>, i: nat, j: nat)
    requires i < j < |fs| && DistinctKeys(fs)
    ensures DistinctKeys(Swapped(fs, i, j)) && forall f :: f in fs <==> f in Swapped(fs, i, j)
  {
    var r := Swapped(fs, i, j);
    forall f
      ensures f in fs <==> f in r
    {
      if f in fs {
        var k :| 0 <= k < |fs| && fs[k] == f;
        assert f == r[if k == i then j else if k == j then i else k];
      }
      if f in r {
        var k :| 0 <= k < |r| && r[k] == f;
        assert f == fs[if k == i then j else if k == j then i else k];
      }
    }
  }

  lemma NotBothAhead(fs: seq<Field>, x: Field, y: Field)
    requires DistinctKeys(fs) && Sorting.Ahead(fs, x, y)
    ensures !Sorting.Ahead(fs, y, x)
  {
    var i, j :| 0 <= i < j < |fs| && fs[i] == x && fs[j] == y;
    assert forall k :: 0 <= k < |fs| && fs[k] == x ==> k == i;
    assert forall k :: 0 <= k < |fs| && fs[k] == y ==> k == j;
  }

  /** Swapping two tied fields shows: the sort is stable. */
  lemma SwapShows(fs: seq<Field>, i: nat, j: nat, lt: Before)
    requires DistinctKeys(fs) && i < j < |fs| && Tied(lt, fs[i].key, fs[j].key)
    ensures Sort(Swapped(fs, i, j), lt) != Sort(fs, lt)
  {
    var gs := Swapped(fs, i, j);
    Sorting.SortIsStable(ByKey(lt), fs, i, j);
    Sorting.SortIsStable(ByKey(lt), gs, i, j);
    SortKeepsDistinct(fs, lt);
    NotBothAhead(Sorting.Sort(ByKey(lt), fs), fs[i], fs[j]);
  }

  lemma NormOfSwapped(fs: seq<Field>, i: nat, j: nat, lt: Before)
    requires i < j < |fs|
    ensures NormFields(Swapped(fs, i, j), lt) == Swapped(NormFields(fs, lt), i, j)
  {
  }

  lemma SwapKeepsShape(fs: seq<Field>, i: nat, j: nat)
    requires WellFormed(Obj(fs)) && i < j < |fs|
    ensures WellFormed(Obj(Swapped(fs, i, j))) && Meaning(Obj(Swapped(fs, i, j))) == Meaning(Obj(fs))
    ensures Finite(Obj(fs)) ==> Finite(Obj(Swapped(fs, i, j)))
  {
    SwappedKeeps(fs, i, j);
    ReorderingKeepsMap(Swapped(fs, i, j), fs);
  }

  lemma SwapChangesNorm(fs: seq<Field>, i: nat, j: nat, lt: Before)
    requires DistinctKeys(fs) && i < j < |fs| && Tied(lt, fs[i].key, fs[j].key)
    ensures Norm(Obj(Swapped(fs, i, j)), lt) != Norm(Obj(fs), lt)
  {
    var ns := NormFields(fs, lt);
    assert DistinctKeys(ns) && ns[i].key == fs[i].key && ns[j].key == fs[j].key;
    NormOfSwapped(fs, i, j, lt);
    SwapShows(ns, i, j, lt);
  }

  /** `gs` lists the fields of `fs` in some order. */
  ghost predicate Reorders(gs: seq<Field>, fs: seq<Field>) {
    DistinctKeys(gs) && forall f :: f in gs <==> f in fs
  }

  lemma ReorderedIsWellFormed(gs: seq<Field>, fs: seq<Field>)
    requires Reorders(gs, fs) && WellFormed(Obj(fs))
    ensures WellFormed(Obj(gs))
  {
    forall i | 0 <= i < |gs|
      ensures WellFormed(gs[i].value)
    {
      assert gs[i] in fs;
    }
  }

  lemma ReorderedNorms(gs: seq<Field>, fs: seq<Field>, lt: Before)
    requires Reorders(gs, fs)
    ensures forall f :: f in NormFields(gs, lt) <==> f in NormFields(fs, lt)
  {
    forall f
      ensures f in NormFields(gs, lt) <==> f in NormFields(fs, lt)
    {
      if f in NormFields(gs, lt) {
        var i :| 0 <= i < |gs| && NormFields(gs, lt)[i] == f;
        assert gs[i] in fs;
        var j :| 0 <= j < |fs| && fs[j] == gs[i];
        assert NormFields(fs, lt)[j] == f;
      }
      if f in NormFields(fs, lt) {
        var i :| 0 <= i < |fs| && NormFields(fs, lt)[i] == f;
        assert fs[i] in gs;
        var j :| 0 <= j < |gs| && gs[j] == fs[i];
        assert NormFields(gs, lt)[j] == f;
      }
    }
  }

  /** Under a strict weak order all orderings of an object's fields have one text exactly when no two of
      its keys are tied. */
  lemma OrderShowsExactlyOnTies(fs: seq<Field>, lt: Before)
    requires StrictWeak(lt) && WellFormed(Obj(fs))
    ensures KeysUntied(fs, lt) <==> forall gs :: Reorders(gs, fs) ==> Print(Obj(gs), lt) == Print(Obj(fs), lt)
  {
    if KeysUntied(fs, lt) {
      forall gs | Reorders(gs, fs)
        ensures Print(Obj(gs), lt) == Print(Obj(fs), lt)
      {
        ReorderedIsWellFormed(gs, fs);
        ReorderedNorms(gs, fs, lt);
        SameSort(NormFields(fs, lt), NormFields(gs, lt), lt);
        PrintFollowsNorm(Obj(gs), Obj(fs), lt);
      }
    } else {
      var i, j :| 0 <= i < j < |fs| && Tied(lt, fs[i].key, fs[j].key);
      SwappedKeeps(fs, i, j);
      SwapKeepsShape(fs, i, j);
      SwapChangesNorm(fs, i, j, lt);
      PrintFollowsNorm(Obj(Swapped(fs, i, j)), Obj(fs), lt);
      assert Reorders(Swapped(fs, i, j), fs);
    }
  }

  /** `b` means what `a` means and has another normal form. */
  ghost predicate Twin(b: Json, a: Json, lt: Before) {
    WellFormed(b) && Finite(b) && Meaning(b) == Meaning(a) && Norm(b, lt) != Norm(a, lt)
  }

  lemma TwinOfItem(items: seq<Json>, i: nat, w: Json, lt: Before)
    requires WellFormed(Arr(items)) && Finite(Arr(items)) && i < |items| && Twin(w, items[i], lt)
    ensures Twin(Arr(items[i := w]), Arr(items), lt)
  {
    var bs := items[i := w];
    assert Meanings(bs) == Meanings(items);
    assert NormItems(bs, lt)[i] != NormItems(items, lt)[i];
  }

  lemma ReplacedShape(fs: seq<Field>, i: nat, w: Json)
    requires WellFormed(Obj(fs)) && Finite(Obj(fs)) && i < |fs|
    requires WellFormed(w) && Finite(w) && Meaning(w) == Meaning(fs[i].value)
    ensures
      var b := Obj(fs[i := Field(fs[i].key, w)]);
      WellFormed(b) && Finite(b) && Meaning(b) == Meaning(Obj(fs))
  {
    var gs := fs[i := Field(fs[i].key, w)];
    forall k | 0 <= k < |fs|
      ensures Covers(gs, fs, k) && HasKey(fs, gs[k].key)
    {
      assert gs[k].key == fs[k].key && Meaning(gs[k].value) == Meaning(fs[k].value);
    }
    SameFieldsSameMap(fs, gs);
  }

  lemma ReplacedNorm(fs: seq<Field>, i: nat, w: Json, lt: Before)
    requires DistinctKeys(fs) && i < |fs| && Norm(w, lt) != Norm(fs[i].value, lt)
    ensures Norm(Obj(fs[i := Field(fs[i].key, w)]), lt) != Norm(Obj(fs), lt)
  {
    var gs := fs[i := Field(fs[i].key, w)];
    var ns, ms := NormFields(fs, lt), NormFields(gs, lt);
    assert ms[i] in ms && ms[i] !in ns by {
      assert forall k :: 0 <= k < |ns| && ns[k].key == ms[i].key ==> k == i;
    }
    assert ms[i] in Sort(ms, lt) && ms[i] !in Sort(ns, lt);
  }

  lemma TwinOfField(fs: seq<Field>, i: nat, w: Json, lt: Before)
    requires WellFormed(Obj(fs)) && Finite(Obj(fs)) && i < |fs| && Twin(w, fs[i].value, lt)
    ensures Twin(Obj(fs[i := Field(fs[i].key, w)]), Obj(fs), lt)
  {
    ReplacedShape(fs, i, w);
    ReplacedNorm(fs, i, w, lt);
  }

  lemma TwinOfTie(fs: seq<Field>, i: nat, j: nat, lt: Before)
    requires WellFormed(Obj(fs)) && Finite(Obj(fs)) && i < j < |fs| && Tied(lt, fs[i].key, fs[j].key)
    ensures Twin(Obj(Swapped(fs, i, j)), Obj(fs), lt)
  {
    SwapKeepsShape(fs, i, j);
    SwapChangesNorm(fs, i, j, lt);
  }

  /** A tie anywhere inside a value gives another value of the same meaning with another normal form. */
  lemma {:induction false} TiedHasTwin(a: Json, lt: Before) returns (b: Json)
    requires WellFormed(a) && Finite(a) && !Untied(a, lt)
    ensures Twin(b, a, lt)
    decreases a
  {
    match a
    case Arr(items) =>
      var i :| 0 <= i < |items| && !Untied(items[i], lt);
      var w := TiedHasTwin(items[i], lt);
      TwinOfItem(items, i, w, lt);
      b := Arr(items[i := w]);
    case Obj(fields) =>
      if KeysUntied(fields, lt) {
        var i :| 0 <= i < |fields| && !Untied(fields[i].value, lt);
        var w := TiedHasTwin(fields[i].value, lt);
        TwinOfField(fields, i, w, lt);
        b := Obj(fields[i := Field(fields[i].key, w)]);
      } else {
        var i, j :| 0 <= i < j < |fields| && Tied(lt, fields[i].key, fields[j].key);
        TwinOfTie(fields, i, j, lt);
        b := Obj(Swapped(fields, i, j));
      }
  }

  /** And for whole values: the text is determined by the reading exactly when no object anywhere inside
      holds two tied keys. */
  lemma CanonicalExactlyWithoutTies(a: Json, lt: Before)
    requires StrictWeak(lt) && WellFormed(a)
    ensures Untied(a, lt) <==> forall b :: WellFormed(b) && Reading(b) == Reading(a) ==> Print(b, lt) == Print(a, lt)
  {
    if Untied(a, lt) {
      forall b | WellFormed(b) && Reading(b) == Reading(a)
        ensures Print(b, lt) == Print(a, lt)
      {
        CanonicalTextIsTheMeaning(a, b, lt);
      }
    } else {
      AsNullIsFinite(a);
      UntiedAsNull(a, lt);
      NormOfAsNull(a, lt);
      var b := TiedHasTwin(AsNull(a), lt);
      FiniteIsItself(b);
      PrintFollowsNorm(b, a, lt);
    }
  }

  // ----- a tie that the language's own comparison makes -----

  const COMPOSED: Text := [0xE9]
  const DECOMPOSED: Text := [0x65, 0x301]

  function UnitOrder(): (Unit, Unit) -> bool {
    (x: Unit, y: Unit) => x < y
  }

  /** Code-unit order, except that the two spellings of the letter e with an acute accent are one key. */
  function Collation(): Before {
    (x: Text, y: Text) => Sorting.Lex(UnitOrder(), Spelling(x), Spelling(y))
  }

  function Spelling(x: Text): Text {
    if x == DECOMPOSED then COMPOSED else x
  }

  lemma CollationIsStrictWeak()
    ensures StrictWeak(Collation())
    ensures forall x, y :: Tied(Collation(), x, y) <==> {x, y} == {COMPOSED, DECOMPOSED}
  {
    var lt := Collation();
    forall x: Text, y: Text
      ensures lt(x, y) ==> !lt(y, x)
      ensures Tied(lt, x, y) <==> {x, y} == {COMPOSED, DECOMPOSED}
    {
      Sorting.LexIsTotal(UnitOrder(), Spelling(x), Spelling(y));
      assert {x, y} == {COMPOSED, DECOMPOSED} <==> x != y && Spelling(x) == Spelling(y);
    }
    forall x: Text, y: Text, z: Text | !lt(x, y) && !lt(y, z)
      ensures !lt(x, z)
    {
      var p, q, r := Spelling(x), Spelling(y), Spelling(z);
      Sorting.LexIsTotal(UnitOrder(), p, q);
      Sorting.LexIsTotal(UnitOrder(), q, r);
      Sorting.LexIsTotal(UnitOrder(), p, r);
      if Sorting.Lex(UnitOrder(), r, q) && Sorting.Lex(UnitOrder(), q, p) {
        Sorting.LexIsTransitive(UnitOrder(), r, q, p);
      }
    }
  }

  /** A comparator that ties only those two keys already gives one object two texts. */
  lemma TieExample()
    ensures
      var f, g := Field(COMPOSED, Null), Field(DECOMPOSED, Null);
      WellFormed(Obj([f, g])) && Reading(Obj([f, g])) == Reading(Obj([g, f])) &&
      Print(Obj([f, g]), Collation()) != Print(Obj([g, f]), Collation())
  {
    CollationIsStrictWeak();
    var f, g := Field(COMPOSED, Null), Field(DECOMPOSED, Null);
    var fs := [f, g];
    assert Tied(Collation(), fs[0].key, fs[1].key);
    SwapKeepsShape(fs, 0, 1);
    SwapChangesNorm(fs, 0, 1, Collation());
    assert Swapped(fs, 0, 1) == [g, f];
    FiniteIsItself(Obj(fs));
    FiniteIsItself(Obj([g, f]));
    PrintFollowsNorm(Obj([g, f]), Obj(fs), Collation());
  }
}
