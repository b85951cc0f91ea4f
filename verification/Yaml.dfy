/** YAML documents as the migrator sees them, and the Python conversions that it applies to them. */
module Yaml {
  import opened Text

  /** A float carries its printed form and its integer value, if it has one. */
  datatype Node =
    | Null
    | Bool(b: bool)
    | Int(n: int)
    | Float(repr: string, whole: Option<int>)
    | Str(s: string)
    | List(items: seq<Node>)
    | Map(fields: seq<Field>)

  /** Fields keep the insertion order of a Python dict. */
  datatype Field = Field(key: Node, value: Node)

  // ---- Lookup ----

  /** `mapping.get(name)` */
  function Get(node: Node, name: string): (r: Option<Node>)
    ensures r.Some? ==> node.Map? && r.value < node
  {
    if node.Map? then GetField(node.fields, name) else None
  }

  function GetField(fields: seq<Field>, name: string): (r: Option<Node>)
    ensures r.Some? ==> exists i :: 0 <= i < |fields| && fields[i].value == r.value && fields[i].key == Str(name)
  {
    if fields == [] then None
    else if fields[0].key == Str(name) then Some(fields[0].value)
    else GetField(fields[1..], name)
  }

  function GetOr(node: Node, name: string, default: Node): Node {
    var r := Get(node, name);
    if r.Some? then r.value else default
  }

  /** The items of a list under this name; no items if there is no list. */
  function ListAt(node: Node, name: string): seq<Node> {
    var r := Get(node, name);
    if r.Some? && r.value.List? then r.value.items else []
  }

  /** `str(key)` */
  function PythonText(key: Node): string {
    match key
    case Null => "None"
    case Bool(b) => if b then "True" else "False"
    case _ => ToString(key)
  }

  /** `read_mapping_value` for one name: keys compared in lower case, the last match wins. */
  function GetIgnoringCase(fields: seq<Field>, name: string): Option<Node> {
    if fields == [] then None
    else
      var (init, last) := (fields[..|fields| - 1], fields[|fields| - 1]);
      if Lower(PythonText(last.key)) == Lower(name) then Some(last.value) else GetIgnoringCase(init, name)
  }

  function ReadMappingValue(node: Node, names: seq<string>): Node
    requires node.Map?
  {
    if names == [] then Null
    else
      var r := GetIgnoringCase(node.fields, names[0]);
      if r.Some? then r.value else ReadMappingValue(node, names[1..])
  }

  /** The key is this name, in any letter case. */
  predicate Names(key: Node, name: string) {
    match key
    case Null => SameIgnoringCase("none", name)
    case Bool(b) => SameIgnoringCase(if b then "true" else "false", name)
    case _ => SameIgnoringCase(ToString(key), name)
  }

  lemma NamesIs(key: Node, name: string)
    ensures Names(key, name) <==> Lower(PythonText(key)) == Lower(name)
  {
    assert Lower("None") == Lower("none") && Lower("True") == Lower("true") && Lower("False") == Lower("false");
    LowerIsCaseless("none", name);
    LowerIsCaseless("true", name);
    LowerIsCaseless("false", name);
    LowerIsCaseless(ToString(key), name);
  }

  /** The last field of this name. */
  ghost predicate LastNamed(fields: seq<Field>, name: string, i: nat) {
    i < |fields| && Names(fields[i].key, name) && forall j :: i < j < |fields| ==> !Names(fields[j].key, name)
  }

  ghost predicate Unnamed(fields: seq<Field>, name: string) {
    forall i :: 0 <= i < |fields| ==> !Names(fields[i].key, name)
  }

  /** The last field of the first of the names that any key has. */
  ghost predicate ChosenAt(fields: seq<Field>, names: seq<string>, k: nat, i: nat) {
    k < |names| && LastNamed(fields, names[k], i) && forall j :: 0 <= j < k ==> Unnamed(fields, names[j])
  }

  /** What a mapping holds under the first of the names that any of its keys has; nothing if none has. */
  ghost predicate Holds(node: Node, names: seq<string>, value: Node)
    requires node.Map?
  {
    || (value.Null? && forall k :: 0 <= k < |names| ==> Unnamed(node.fields, names[k]))
    || exists k: nat, i: nat :: ChosenAt(node.fields, names, k, i) && node.fields[i].value == value
  }

  /** What `GetIgnoringCase` gives, by position. */
  ghost predicate IsLastNamed(fields: seq<Field>, name: string, r: Option<Node>) {
    if r.None? then Unnamed(fields, name)
    else exists i: nat :: LastNamed(fields, name, i) && fields[i].value == r.value
  }

  lemma LastNamedMore(init: seq<Field>, last: Field, name: string, r: Option<Node>)
    requires IsLastNamed(init, name, r)
    ensures IsLastNamed(init + [last], name, if Names(last.key, name) then Some(last.value) else r)
  {
    var fields := init + [last];
    if Names(last.key, name) {
      assert LastNamed(fields, name, |init|);
    } else if r.Some? {
      var i: nat :| LastNamed(init, name, i) && init[i].value == r.value;
      assert LastNamed(fields, name, i) && fields[i] == init[i];
    }
  }

  lemma {:induction false} GetIgnoringCaseIs(fields: seq<Field>, name: string)
    ensures IsLastNamed(fields, name, GetIgnoringCase(fields, name))
  {
    if fields != [] {
      var (init, last) := (fields[..|fields| - 1], fields[|fields| - 1]);
      assert fields == init + [last];
      NamesIs(last.key, name);
      GetIgnoringCaseIs(init, name);
      LastNamedMore(init, last, name, GetIgnoringCase(init, name));
    }
  }

  lemma {:induction false} ReadMappingValueHolds(node: Node, names: seq<string>)
    requires node.Map?
    ensures Holds(node, names, ReadMappingValue(node, names))
  {
    if names != [] {
      var fields, rest := node.fields, names[1..];
      GetIgnoringCaseIs(fields, names[0]);
      ReadMappingValueHolds(node, rest);
      var value := ReadMappingValue(node, rest);
      if GetIgnoringCase(fields, names[0]).Some? {
        var i: nat :| LastNamed(fields, names[0], i) && fields[i].value == ReadMappingValue(node, names);
        assert ChosenAt(fields, names, 0, i);
      } else if exists k: nat, i: nat :: ChosenAt(fields, rest, k, i) && fields[i].value == value {
        var k: nat, i: nat :| ChosenAt(fields, rest, k, i) && fields[i].value == value;
        forall j | 0 <= j < k + 1
          ensures Unnamed(fields, names[j])
        {
          assert j > 0 ==> Unnamed(fields, rest[j - 1]);
        }
        assert ChosenAt(fields, names, k + 1, i);
      } else {
        forall k | 0 <= k < |names|
          ensures Unnamed(fields, names[k])
        {
          assert k > 0 ==> Unnamed(fields, rest[k - 1]);
        }
      }
    }
  }

  lemma ChosenIsNamed(fields: seq<Field>, names: seq<string>, k: nat, i: nat)
    requires ChosenAt(fields, names, k, i)
    ensures !Unnamed(fields, names[k])
  {
    assert Names(fields[i].key, names[k]);
  }

  lemma HeldIsOne(node: Node, names: seq<string>, a: Node, b: Node)
    requires node.Map? && Holds(node, names, a) && Holds(node, names, b)
    ensures a == b
  {
    var fields := node.fields;
    forall k: nat, i: nat | ChosenAt(fields, names, k, i)
      ensures !Unnamed(fields, names[k])
    {
      ChosenIsNamed(fields, names, k, i);
    }
    if !a.Null? && !b.Null? {
      var k: nat, i: nat :| ChosenAt(fields, names, k, i) && fields[i].value == a;
      var l: nat, j: nat :| ChosenAt(fields, names, l, j) && fields[j].value == b;
      assert k == l && i == j;
    }
  }

  /**
   For any mapping and names: the value of the last field whose key is, ignoring case, the first of the names that
   any key is; nothing if there is no such name.
   */
  lemma ReadMappingValueExactly(node: Node, names: seq<string>, value: Node)
    requires node.Map?
    ensures ReadMappingValue(node, names) == value <==> Holds(node, names, value)
  {
    ReadMappingValueHolds(node, names);
    if Holds(node, names, value) {
      HeldIsOne(node, names, value, ReadMappingValue(node, names));
    }
  }

  // ---- Text ----

  /** The characters that `str.strip` removes. */
  predicate IsPythonSpace(c: char) {
    IsWhiteSpace(c) || '\U{001C}' <= c <= '\U{001F}'
  }

  function Strip(s: string): string {
    TrimBy(s, IsPythonSpace)
  }

  predicate Stripped(s: string) {
    TrimmedBy(s, IsPythonSpace)
  }

  function Numeral(n: int): string {
    if n < 0 then "-" + Decimal(-n) else Decimal(n)
  }

  function ToString(node: Node): string {
    match node
    case Null => ""
    case Str(s) => s
    case Bool(b) => if b then "true" else "false"
    case Int(n) => Numeral(n)
    case Float(repr, _) => repr
    case List(_) => Json(node)
    case Map(_) => Json(node)
  }

  /** `json.dumps` without spaces and without escaping non-ASCII characters. */
  function Json(node: Node): string {
    match node
    case Null => "null"
    case Str(s) => JsonString(s)
    case Bool(b) => if b then "true" else "false"
    case Int(n) => Numeral(n)
    case Float(repr, _) => repr
    case List(items) => "[" + JsonItems(items) + "]"
    case Map(fields) => "{" + JsonFields(fields) + "}"
  }

  function JsonItems(items: seq<Node>): string {
    if items == [] then ""
    else Json(items[0]) + (if |items| == 1 then "" else "," + JsonItems(items[1..]))
  }

  function JsonFields(fields: seq<Field>): string {
    if fields == [] then ""
    else
      JsonField(fields[0]) + (if |fields| == 1 then "" else "," + JsonFields(fields[1..]))
  }

  function JsonField(field: Field): string {
    (if field.key.Str? then Json(field.key) else "\"" + Json(field.key) + "\"") + ":" + Json(field.value)
  }

  function JsonString(s: string): string {
    "\"" + JsonChars(s) + "\""
  }

  function HexDigit(d: nat): char
    requires d < 16
  {
    if d < 10 then Digit(d) else ('a' as int + d - 10) as char
  }

  function JsonChars(s: string): string {
    if s == "" then "" else JsonChar(s[0]) + JsonChars(s[1..])
  }

  function JsonChar(c: char): string {
    if c == '"' then "\\\""
    else if c == '\\' then "\\\\"
    else if c == '\n' then "\\n"
    else if c == '\r' then "\\r"
    else if c == '\t' then "\\t"
    else if c == '\U{0008}' then "\\b"
    else if c == '\U{000C}' then "\\f"
    else if c < ' ' then "\\u00" + [HexDigit(c as int / 16), HexDigit(c as int % 16)]
    else [c]
  }

  /** The stripped text of a field; blank when the field is absent. */
  function TextAt(node: Node, name: string): string {
    Strip(ToString(GetOr(node, name, Null)))
  }

  // ---- Integers ----

  /** `parse_int_like` */
  function IntLike(node: Node): Option<int> {
    match node
    case Int(n) => Some(n)
    case Float(_, whole) => whole
    case Str(s) => IntOfText(Strip(s))
    case _ => None
  }

  function IntOfText(text: string): Option<int> {
    if AllDigits(text) then Some(Natural(text))
    else if text != "" && text[0] == '-' && AllDigits(text[1..]) then Some(0 - Natural(text[1..]))
    else None
  }

  // ---- Dicts under construction ----

  /** `out[key] = value`: an existing key keeps its place. */
  function Put(fields: seq<Field>, key: string, value: Node): seq<Field> {
    if fields == [] then [Field(Str(key), value)]
    else if fields[0].key == Str(key) then [Field(Str(key), value)] + fields[1..]
    else [fields[0]] + Put(fields[1..], key, value)
  }

  // ---- Numerals ----

  function Zeros(k: nat): string {
    seq(k, _ => '0')
  }

  /** A numeral of this number: a sign if it is negative or has one all the same, then digits with zeros before them. */
  ghost predicate IsNumeral(text: string, n: int) {
    exists minus: bool, k: nat, m: nat :: NumeralIs(text, minus, k, m) && n == Signed(minus, m)
  }

  function Signed(minus: bool, m: nat): int {
    if minus then 0 - m else m
  }

  predicate NumeralIs(text: string, minus: bool, k: nat, m: nat) {
    text == (if minus then "-" else "") + Zeros(k) + Decimal(m)
  }

  lemma {:induction false} NaturalAfterZeros(k: nat, s: string)
    requires AllDigits(s)
    ensures AllDigits(Zeros(k) + s) && Natural(Zeros(k) + s) == Natural(s)
    decreases |s|
  {
    var t := Zeros(k) + s;
    assert t[..|t| - 1] == Zeros(k) + s[..|s| - 1];
    if |s| > 1 {
      NaturalAfterZeros(k, s[..|s| - 1]);
    } else {
      ZerosAreZero(k);
      assert s[..0] == "" && Zeros(k) + "" == Zeros(k);
    }
  }

  lemma {:induction false} ZerosAreZero(k: nat)
    ensures Natural(Zeros(k)) == 0
  {
    if k > 0 {
      assert Zeros(k)[..k - 1] == Zeros(k - 1);
      ZerosAreZero(k - 1);
    }
  }

  lemma NaturalAppend(init: string, d: char)
    requires AllDigits(init) && '0' <= d <= '9'
    ensures Natural(init + [d]) == Natural(init) * 10 + (d as int - '0' as int)
  {
    assert (init + [d])[..|init|] == init;
  }

  lemma DecimalAppend(m: nat, d: char)
    requires m > 0 && '0' <= d <= '9'
    ensures Decimal(m * 10 + (d as int - '0' as int)) == Decimal(m) + [d]
  {
    var n := m * 10 + (d as int - '0' as int);
    assert n / 10 == m && n % 10 == d as int - '0' as int;
  }

  lemma ZerosAppend(k: nat)
    ensures Zeros(k) + "0" == Zeros(k + 1)
  {
  }

  lemma DigitAfter(init: string, d: char, k: nat) returns (more: nat)
    requires AllDigits(init) && '0' <= d <= '9' && init == Zeros(k) + Decimal(Natural(init))
    ensures init + [d] == Zeros(more) + Decimal(Natural(init + [d]))
  {
    NaturalAppend(init, d);
    var m := Natural(init);
    if m == 0 {
      more := k + 1;
      ZerosAppend(k);
      OneDigit(d);
      NaturalAppend(init, d);
      assert Decimal(d as int - '0' as int) == [d];
    } else {
      more := k;
      DecimalAppend(m, d);
      assert Zeros(k) + (Decimal(m) + [d]) == Zeros(k) + Decimal(m) + [d];
    }
  }

  /** Any digits are the decimal numeral of their number with zeros before it. */
  lemma {:induction false} DigitsAre(s: string) returns (k: nat)
    requires AllDigits(s)
    ensures s == Zeros(k) + Decimal(Natural(s))
    decreases |s|
  {
    var (init, d) := (s[..|s| - 1], s[|s| - 1]);
    assert s == init + [d];
    if init == "" {
      OneDigit(d);
      k := 0;
      assert Zeros(0) + [d] == [d] && s == [d];
    } else {
      k := DigitsAre(init);
      k := DigitAfter(init, d, k);
    }
  }

  lemma OneDigit(d: char)
    requires '0' <= d <= '9'
    ensures Natural([d]) == d as int - '0' as int && Decimal(d as int - '0' as int) == [d]
  {
    assert [d][..0] == "";
  }

  lemma NumeralIsDigits(text: string, minus: bool, k: nat, m: nat)
    requires NumeralIs(text, minus, k, m)
    ensures var digits := if minus then text[1..] else text;
      (minus ==> text[0] == '-') && AllDigits(digits) && Natural(digits) == m
  {
    DecimalIsDigits(m);
    NaturalAfterZeros(k, Decimal(m));
    if minus {
      assert text == ['-'] + (Zeros(k) + Decimal(m));
    } else {
      assert text == Zeros(k) + Decimal(m);
    }
  }

  lemma DigitsAreNumeral(digits: string, minus: bool)
    requires AllDigits(digits)
    ensures IsNumeral(if minus then ['-'] + digits else digits, Signed(minus, Natural(digits)))
  {
    var k := DigitsAre(digits);
    var text := if minus then ['-'] + digits else digits;
    assert text == (if minus then "-" else "") + Zeros(k) + Decimal(Natural(digits));
    assert NumeralIs(text, minus, k, Natural(digits));
  }

  lemma ReadIsNumeral(text: string, n: int)
    requires IntOfText(text) == Some(n)
    ensures IsNumeral(text, n)
  {
    if AllDigits(text) {
      DigitsAreNumeral(text, false);
    } else {
      assert text == ['-'] + text[1..];
      DigitsAreNumeral(text[1..], true);
    }
  }

  lemma NumeralIsRead(text: string, n: int)
    requires IsNumeral(text, n)
    ensures IntOfText(text) == Some(n)
  {
    var minus: bool, k: nat, m: nat :| NumeralIs(text, minus, k, m) && n == Signed(minus, m);
    NumeralIsDigits(text, minus, k, m);
  }

  /** For any text: a number is read exactly when the text is, between white space, one of its numerals. */
  lemma IntLikeExactly(s: string, n: int)
    ensures IntLike(Str(s)) == Some(n) <==> IsNumeral(Strip(s), n)
  {
    if IntLike(Str(s)) == Some(n) {
      ReadIsNumeral(Strip(s), n);
    }
    if IsNumeral(Strip(s), n) {
      NumeralIsRead(Strip(s), n);
    }
  }

  lemma NumeralIsNumeral(n: int)
    ensures IsNumeral(Numeral(n), n)
  {
    var (minus, m) := (n < 0, if n < 0 then -n else n);
    assert Zeros(0) == "" && "" + Decimal(m) == Decimal(m) && "-" + "" == "-";
    assert NumeralIs(Numeral(n), minus, 0, m);
  }

  lemma DigitsAreStripped(text: string, digits: string)
    requires AllDigits(digits) && (text == digits || text == ['-'] + digits)
    ensures Strip(text) == text
  {
    assert text[|text| - 1] == digits[|digits| - 1];
    TrimIsTrimmed(text, IsPythonSpace);
  }

  lemma NumeralIsStripped(text: string, n: int)
    requires IsNumeral(text, n)
    ensures Strip(text) == text
  {
    var minus: bool, k: nat, m: nat :| NumeralIs(text, minus, k, m) && n == Signed(minus, m);
    NumeralIsDigits(text, minus, k, m);
    if minus {
      assert text == [text[0]] + text[1..];
      DigitsAreStripped(text, text[1..]);
    } else {
      DigitsAreStripped(text, text);
    }
  }

  /** A number that was written as text is read back. */
  lemma NumeralReadsBack(n: int)
    ensures IntLike(Str(ToString(Int(n)))) == Some(n)
  {
    NumeralIsNumeral(n);
    NumeralIsStripped(Numeral(n), n);
    IntLikeExactly(Numeral(n), n);
  }
}
