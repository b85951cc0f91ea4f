/** Reading JSON texts: what the migrator writes for nested values can be read back. */
module JsonReading {
  import opened Text
  import opened Yaml

  // ---- A reader ----

  predicate IsDigit(c: char) {
    '0' <= c <= '9'
  }

  function HexValue(c: char): Option<nat> {
    if IsDigit(c) then Some(c as int - '0' as int)
    else if 'a' <= c <= 'f' then Some(c as int - 'a' as int + 10)
    else None
  }

  /** What stands for a character after a backslash, but for the hexadecimal form. */
  function Unescaped(c: char): Option<char> {
    if c == '"' || c == '\\' then Some(c)
    else if c == 'n' then Some('\n')
    else if c == 'r' then Some('\r')
    else if c == 't' then Some('\t')
    else if c == 'b' then Some('\U{0008}')
    else if c == 'f' then Some('\U{000C}')
    else None
  }

  /** One character of a string, and the text after it. */
  function ReadChar(s: string): (r: Option<(char, string)>)
    ensures r.Some? ==> |r.value.1| < |s|
  {
    if s == "" then None
    else if s[0] != '\\' then Some((s[0], s[1..]))
    else if |s| >= 6 && s[..4] == "\\u00" && HexValue(s[4]).Some? && HexValue(s[5]).Some?
    then Some(((HexValue(s[4]).value * 16 + HexValue(s[5]).value) as char, s[6..]))
    else if |s| >= 2 && Unescaped(s[1]).Some? then Some((Unescaped(s[1]).value, s[2..]))
    else None
  }

  /** The characters up to the closing quote, and the text after it. */
  function ReadChars(s: string): (r: Option<(string, string)>)
    ensures r.Some? ==> |r.value.1| < |s|
    decreases |s|
  {
    if s == "" then None
    else if s[0] == '"' then Some(("", s[1..]))
    else
      var first := ReadChar(s);
      if first.None? then None
      else
        var more := ReadChars(first.value.1);
        if more.None? then None else Some(([first.value.0] + more.value.0, more.value.1))
  }

  /** How many digits a text begins with. */
  function Digits(s: string): (n: nat)
    ensures n <= |s| && forall i :: 0 <= i < n ==> IsDigit(s[i])
  {
    if s != "" && IsDigit(s[0]) then 1 + Digits(s[1..]) else 0
  }

  function ReadNatural(s: string): (r: Option<(nat, string)>)
    ensures r.Some? ==> |r.value.1| < |s|
  {
    var n := Digits(s);
    if n == 0 then None else Some((Natural(s[..n]), s[n..]))
  }

  function ReadNumber(s: string): (r: Option<(int, string)>)
    ensures r.Some? ==> |r.value.1| < |s|
  {
    if s != "" && s[0] == '-' then
      var n := ReadNatural(s[1..]);
      if n.None? then None else Some((0 - n.value.0, n.value.1))
    else ReadNatural(s)
  }

  predicate StartsWith(s: string, word: string) {
    |word| <= |s| && s[..|word|] == word
  }

  /** One value, and the text after it. */
  function ReadValue(s: string): (r: Option<(Node, string)>)
    ensures r.Some? ==> |r.value.1| < |s|
    decreases |s|, 2
  {
    if StartsWith(s, "null") then Some((Null, s[4..]))
    else if StartsWith(s, "true") then Some((Bool(true), s[4..]))
    else if StartsWith(s, "false") then Some((Bool(false), s[5..]))
    else if StartsWith(s, "\"") then
      var text := ReadChars(s[1..]);
      if text.None? then None else Some((Str(text.value.0), text.value.1))
    else if StartsWith(s, "[]") then Some((List([]), s[2..]))
    else if StartsWith(s, "[") then
      var items := ReadItems(s[1..]);
      if items.None? then None else Some((List(items.value.0), items.value.1))
    else if StartsWith(s, "{}") then Some((Map([]), s[2..]))
    else if StartsWith(s, "{") then
      var fields := ReadFields(s[1..]);
      if fields.None? then None else Some((Map(fields.value.0), fields.value.1))
    else
      var number := ReadNumber(s);
      if number.None? then None else Some((Int(number.value.0), number.value.1))
  }

  /** One value or more with commas between them, up to the closing bracket. */
  function ReadItems(s: string): (r: Option<(seq<Node>, string)>)
    ensures r.Some? ==> |r.value.1| < |s|
    decreases |s|, 3
  {
    var first := ReadValue(s);
    if first.None? then None else MoreItems(s, first.value.0, first.value.1)
  }

  function MoreItems(s: string, first: Node, rest: string): (r: Option<(seq<Node>, string)>)
    requires |rest| < |s|
    ensures r.Some? ==> |r.value.1| < |s|
    decreases |s|, 1
  {
    if StartsWith(rest, "]") then Some(([first], rest[1..]))
    else if !StartsWith(rest, ",") then None
    else
      var more := ReadItems(rest[1..]);
      if more.None? then None else Some(([first] + more.value.0, more.value.1))
  }

  function ReadField(s: string): (r: Option<(Field, string)>)
    ensures r.Some? ==> |r.value.1| < |s|
    decreases |s|, 3
  {
    if !StartsWith(s, "\"") then None
    else
      var key := ReadChars(s[1..]);
      if key.None? || !StartsWith(key.value.1, ":") then None
      else
        var value := ReadValue(key.value.1[1..]);
        if value.None? then None else Some((Field(Str(key.value.0), value.value.0), value.value.1))
  }

  function ReadFields(s: string): (r: Option<(seq<Field>, string)>)
    ensures r.Some? ==> |r.value.1| < |s|
    decreases |s|, 4
  {
    var first := ReadField(s);
    if first.None? then None else MoreFields(s, first.value.0, first.value.1)
  }

  function MoreFields(s: string, first: Field, rest: string): (r: Option<(seq<Field>, string)>)
    requires |rest| < |s|
    ensures r.Some? ==> |r.value.1| < |s|
    decreases |s|, 1
  {
    if StartsWith(rest, "}") then Some(([first], rest[1..]))
    else if !StartsWith(rest, ",") then None
    else
      var more := ReadFields(rest[1..]);
      if more.None? then None else Some(([first] + more.value.0, more.value.1))
  }

  // ---- What is read back ----

  predicate ScalarKey(key: Node) {
    key.Null? || key.Bool? || key.Int? || key.Str?
  }

  /** No floats, whose printed form is not modelled, and only keys that a dict can have. */
  predicate Readable(node: Node) {
    match node
    case Float(_, _) => false
    case List(items) => forall i :: 0 <= i < |items| ==> Readable(items[i])
    case Map(fields) => forall i :: 0 <= i < |fields| ==> ScalarKey(fields[i].key) && Readable(fields[i].value)
    case _ => true
  }

  /** The value with the text of every key for the key: all that JSON keeps of it. */
  function Keyed(node: Node): Node {
    match node
    case List(items) => List(KeyedItems(items))
    case Map(fields) => Map(KeyedFields(fields))
    case _ => node
  }

  function KeyedItems(items: seq<Node>): seq<Node> {
    if items == [] then [] else [Keyed(items[0])] + KeyedItems(items[1..])
  }

  function KeyedFields(fields: seq<Field>): seq<Field> {
    if fields == [] then [] else [KeyedField(fields[0])] + KeyedFields(fields[1..])
  }

  function KeyedField(field: Field): Field {
    Field(Str(if field.key.Str? then field.key.s else Json(field.key)), Keyed(field.value))
  }

  lemma HexReadsBack(d: nat)
    requires d < 16
    ensures HexValue(HexDigit(d)) == Some(d)
  {
  }

  lemma CharReadsBack(c: char, tail: string)
    ensures ReadChar(JsonChar(c) + tail) == Some((c, tail)) && (JsonChar(c) + tail)[0] != '"'
  {
    var s := JsonChar(c) + tail;
    if |JsonChar(c)| == 1 {
      assert s[1..] == tail;
    } else if |JsonChar(c)| == 2 {
      assert s[..2] == JsonChar(c) && s[2..] == tail;
      assert s[1] != 'u' && (|s| >= 6 ==> s[..4][1] == s[1]);
    } else {
      HexReadsBack(c as int / 16);
      HexReadsBack(c as int % 16);
      assert s[..4] == "\\u00" && s[4] == HexDigit(c as int / 16) && s[5] == HexDigit(c as int % 16) && s[6..] == tail;
    }
  }

  /** Escaped characters read back, whatever they are. */
  lemma {:induction false} CharsReadBack(text: string, rest: string)
    ensures ReadChars(JsonChars(text) + ("\"" + rest)) == Some((text, rest))
    decreases |text|
  {
    if text == "" {
      assert JsonChars(text) + ("\"" + rest) == "\"" + rest && ("\"" + rest)[1..] == rest;
    } else {
      var tail := JsonChars(text[1..]) + ("\"" + rest);
      assert JsonChars(text) + ("\"" + rest) == JsonChar(text[0]) + tail;
      CharReadsBack(text[0], tail);
      CharsReadBack(text[1..], rest);
      assert [text[0]] + text[1..] == text;
    }
  }

  // ---- Numbers ----

  /** What may follow a number. */
  predicate Ends(rest: string) {
    rest == "" || !IsDigit(rest[0])
  }

  lemma {:induction false} DigitsOf(a: string, rest: string)
    requires (forall i :: 0 <= i < |a| ==> IsDigit(a[i])) && Ends(rest)
    ensures Digits(a + rest) == |a|
    decreases |a|
  {
    if a == "" {
      assert a + rest == rest;
    } else {
      assert (a + rest)[1..] == a[1..] + rest;
      DigitsOf(a[1..], rest);
    }
  }

  lemma NaturalReadsBack(m: nat, rest: string)
    requires Ends(rest)
    ensures ReadNatural(Decimal(m) + rest) == Some((m, rest)) && IsDigit((Decimal(m) + rest)[0])
  {
    DecimalIsDigits(m);
    var (a, s) := (Decimal(m), Decimal(m) + rest);
    DigitsOf(a, rest);
    assert s[..|a|] == a && s[|a|..] == rest;
  }

  lemma NumberReadsBack(n: int, rest: string)
    requires Ends(rest)
    ensures var s := Numeral(n) + rest; ReadNumber(s) == Some((n, rest)) && (s[0] == '-' || IsDigit(s[0]))
  {
    if n < 0 {
      NaturalReadsBack(-n, rest);
      assert Numeral(n) + rest == "-" + (Decimal(-n) + rest);
      assert ("-" + (Decimal(-n) + rest))[1..] == Decimal(-n) + rest;
    } else {
      NaturalReadsBack(n, rest);
    }
  }

  // ---- Values ----

  /** What the first character of a text says about the value that it begins. */
  lemma ByFirstChar(s: string)
    requires s != ""
    ensures s[0] != 'n' ==> !StartsWith(s, "null")
    ensures s[0] != 't' ==> !StartsWith(s, "true")
    ensures s[0] != 'f' ==> !StartsWith(s, "false")
    ensures s[0] != '"' ==> !StartsWith(s, "\"")
    ensures s[0] != '[' ==> !StartsWith(s, "[") && !StartsWith(s, "[]")
    ensures s[0] != '{' ==> !StartsWith(s, "{") && !StartsWith(s, "{}")
  {
    forall word: string | word != "" && StartsWith(s, word)
      ensures s[0] == word[0]
    {
      assert s[..|word|][0] == s[0];
    }
  }

  lemma WordReadsBack(word: string, rest: string)
    ensures StartsWith(word + rest, word) && (word + rest)[|word|..] == rest
  {
    assert (word + rest)[..|word|] == word;
  }

  lemma TextReadsBack(text: string, rest: string)
    ensures ReadValue(JsonString(text) + rest) == Some((Str(text), rest))
  {
    var s := JsonString(text) + rest;
    assert s == "\"" + (JsonChars(text) + ("\"" + rest));
    WordReadsBack("\"", JsonChars(text) + ("\"" + rest));
    ByFirstChar(s);
    CharsReadBack(text, rest);
  }

  lemma ConstantReadsBack(node: Node, rest: string)
    requires node.Null? || node.Bool?
    ensures ReadValue(Json(node) + rest) == Some((node, rest))
  {
    WordReadsBack(Json(node), rest);
    ByFirstChar(Json(node) + rest);
  }

  lemma IntReadsBack(n: int, rest: string)
    requires Ends(rest)
    ensures ReadValue(Json(Int(n)) + rest) == Some((Int(n), rest))
  {
    NumberReadsBack(n, rest);
    ByFirstChar(Numeral(n) + rest);
  }

  /** No value begins with a closing bracket. */
  lemma ValueBegins(node: Node)
    requires Readable(node)
    ensures Json(node) != "" && Json(node)[0] != ']' && Json(node)[0] != '}'
  {
    match node
    case Int(n) => NumberReadsBack(n, "");
      assert Numeral(n) + "" == Numeral(n);
    case _ =>
  }

  /** A bracket with something behind it that does not close it. */
  lemma Opens(bracket: string, empty: string, tail: string)
    requires |bracket| == 1 && |empty| == 2 && empty[0] == bracket[0] && tail != "" && tail[0] != empty[1]
    ensures var s := bracket + tail; StartsWith(s, bracket) && s[1..] == tail && s[0] == bracket[0] && !StartsWith(s, empty)
  {
    var s := bracket + tail;
    WordReadsBack(bracket, tail);
    assert |s| >= 2 ==> s[..2][1] == tail[0];
  }

  lemma ListReads(tail: string)
    requires tail != "" && tail[0] != ']'
    ensures var items := ReadItems(tail);
      ReadValue("[" + tail) == if items.None? then None else Some((List(items.value.0), items.value.1))
  {
    Opens("[", "[]", tail);
    ByFirstChar("[" + tail);
  }

  lemma MapReads(tail: string)
    requires tail != "" && tail[0] != '}'
    ensures var fields := ReadFields(tail);
      ReadValue("{" + tail) == if fields.None? then None else Some((Map(fields.value.0), fields.value.1))
  {
    Opens("{", "{}", tail);
    ByFirstChar("{" + tail);
  }

  lemma EmptyReadsBack(node: Node, rest: string)
    requires node == List([]) || node == Map([])
    ensures ReadValue(Json(node) + rest) == Some((node, rest))
  {
    WordReadsBack(Json(node), rest);
    ByFirstChar(Json(node) + rest);
  }

  /** The JSON text of a value, whatever follows it, reads back as the value with the texts of its keys. */
  lemma {:induction false} ValueReadsBack(node: Node, rest: string)
    requires Readable(node) && Ends(rest)
    ensures ReadValue(Json(node) + rest) == Some((Keyed(node), rest))
    decreases node, 1
  {
    match node
    case Str(s) => TextReadsBack(s, rest);
    case Int(n) => IntReadsBack(n, rest);
    case List(items) => ListReadsBack(items, rest);
    case Map(fields) => MapReadsBack(fields, rest);
    case _ => ConstantReadsBack(node, rest);
  }

  lemma ItemsBegin(items: seq<Node>)
    requires items != [] && Readable(items[0])
    ensures JsonItems(items) != "" && JsonItems(items)[0] != ']'
  {
    ValueBegins(items[0]);
  }

  lemma FieldsBegin(fields: seq<Field>)
    requires fields != []
    ensures JsonFields(fields) != "" && JsonFields(fields)[0] != '}'
  {
    FieldBegins(fields[0]);
  }

  lemma {:induction false} ListReadsBack(items: seq<Node>, rest: string)
    requires forall i :: 0 <= i < |items| ==> Readable(items[i])
    ensures ReadValue(Json(List(items)) + rest) == Some((List(KeyedItems(items)), rest))
    decreases items, 3
  {
    if items == [] {
      EmptyReadsBack(List([]), rest);
    } else {
      var tail := JsonItems(items) + ("]" + rest);
      ItemsBegin(items);
      ItemsReadBack(items, rest);
      ListReads(tail);
      assert Json(List(items)) + rest == "[" + tail;
    }
  }

  lemma {:induction false} MapReadsBack(fields: seq<Field>, rest: string)
    requires forall i :: 0 <= i < |fields| ==> ScalarKey(fields[i].key) && Readable(fields[i].value)
    ensures ReadValue(Json(Map(fields)) + rest) == Some((Map(KeyedFields(fields)), rest))
    decreases fields, 4
  {
    if fields == [] {
      EmptyReadsBack(Map([]), rest);
    } else {
      var tail := JsonFields(fields) + ("}" + rest);
      FieldsBegin(fields);
      FieldsReadBack(fields, rest);
      MapReads(tail);
      assert Json(Map(fields)) + rest == "{" + tail;
    }
  }

  lemma FieldBegins(field: Field)
    ensures JsonField(field) != "" && JsonField(field)[0] == '"'
  {
  }

  lemma {:induction false} ItemsReadBack(items: seq<Node>, rest: string)
    requires items != [] && forall i :: 0 <= i < |items| ==> Readable(items[i])
    ensures ReadItems(JsonItems(items) + ("]" + rest)) == Some((KeyedItems(items), rest))
    decreases items, 2
  {
    var tail := if |items| == 1 then "]" + rest else "," + (JsonItems(items[1..]) + ("]" + rest));
    assert JsonItems(items) + ("]" + rest) == Json(items[0]) + tail;
    ValueReadsBack(items[0], tail);
    if |items| == 1 {
      WordReadsBack("]", rest);
      assert KeyedItems(items) == [Keyed(items[0])];
    } else {
      WordReadsBack(",", JsonItems(items[1..]) + ("]" + rest));
      assert !StartsWith(tail, "]") by { assert tail[..1][0] == ','; }
      ItemsReadBack(items[1..], rest);
    }
  }

  lemma KeyReadsBack(key: Node, tail: string)
    requires ScalarKey(key)
    ensures var text := if key.Str? then key.s else Json(key);
      var s := (if key.Str? then Json(key) else "\"" + Json(key) + "\"") + tail;
      StartsWith(s, "\"") && ReadChars(s[1..]) == Some((text, tail))
  {
    var text := if key.Str? then key.s else Json(key);
    PlainKey(key);
    var s := (if key.Str? then Json(key) else "\"" + Json(key) + "\"") + tail;
    assert s == "\"" + (JsonChars(text) + ("\"" + tail));
    WordReadsBack("\"", JsonChars(text) + ("\"" + tail));
    CharsReadBack(text, tail);
  }

  lemma {:induction false} PlainChars(s: string)
    requires forall i :: 0 <= i < |s| ==> s[i] > '\\'  || IsDigit(s[i]) || s[i] == '-'
    ensures JsonChars(s) == s
    decreases |s|
  {
    if s != "" {
      PlainChars(s[1..]);
      assert [s[0]] + s[1..] == s;
    }
  }

  lemma PlainKey(key: Node)
    requires key.Null? || key.Bool? || key.Int? || key.Str?
    ensures !key.Str? ==> JsonChars(Json(key)) == Json(key)
  {
    match key
    case Int(n) =>
      DecimalIsDigits(if n < 0 then -n else n);
      PlainChars(Numeral(n));
    case Str(_) =>
    case _ => PlainChars(Json(key));
  }

  lemma {:induction false} FieldReadsBack(field: Field, rest: string)
    requires ScalarKey(field.key) && Readable(field.value) && Ends(rest)
    ensures ReadField(JsonField(field) + rest) == Some((KeyedField(field), rest))
    decreases field, 2
  {
    var key := if field.key.Str? then Json(field.key) else "\"" + Json(field.key) + "\"";
    var tail := ":" + (Json(field.value) + rest);
    assert JsonField(field) + rest == key + tail;
    KeyReadsBack(field.key, tail);
    WordReadsBack(":", Json(field.value) + rest);
    ValueReadsBack(field.value, rest);
  }

  lemma {:induction false} FieldsReadBack(fields: seq<Field>, rest: string)
    requires fields != []
    requires forall i :: 0 <= i < |fields| ==> ScalarKey(fields[i].key) && Readable(fields[i].value)
    ensures ReadFields(JsonFields(fields) + ("}" + rest)) == Some((KeyedFields(fields), rest))
    decreases fields, 3
  {
    var tail := if |fields| == 1 then "}" + rest else "," + (JsonFields(fields[1..]) + ("}" + rest));
    assert JsonFields(fields) + ("}" + rest) == JsonField(fields[0]) + tail;
    FieldReadsBack(fields[0], tail);
    if |fields| == 1 {
      WordReadsBack("}", rest);
      assert KeyedFields(fields) == [KeyedField(fields[0])];
    } else {
      WordReadsBack(",", JsonFields(fields[1..]) + ("}" + rest));
      assert !StartsWith(tail, "}") by { assert tail[..1][0] == ','; }
      FieldsReadBack(fields[1..], rest);
    }
  }

  /** Nothing is lost: what the migrator writes for any value but a text or nothing reads back as it was. */
  lemma JsonReadsBack(node: Node)
    requires Readable(node)
    ensures ReadValue(Json(node)) == Some((Keyed(node), ""))
    ensures ToString(node) == if node.Null? then "" else if node.Str? then node.s else Json(node)
  {
    ValueReadsBack(node, "");
    assert Json(node) + "" == Json(node);
  }
}
