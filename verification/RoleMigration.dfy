/** The roles of a migrated workflow: the declared ones, and one for every role that a step names. */
module RoleMigration {
  import opened Text
  import opened Yaml
  import opened StepMigration

  const TEXT_NAMES := ["provider", "model", "system_prompt", "event_modules", "event_routes"]
  const NUMBER_NAMES := ["max_tokens", "max_tool_rounds", "max_history_messages", "stream_buffer_capacity"]
  const EXTRA_NAMES := TEXT_NAMES + NUMBER_NAMES + ["connectors", "extensions"]
  const ROLE_NAMES := ["id", "name"] + EXTRA_NAMES

  /** A normalized role; `extras` holds the optional fields in the order of `EXTRA_NAMES`. */
  datatype Role = Role(id: string, name: string, extras: seq<Option<Node>>)

  // ---- Titles ----

  predicate IsSeparator(c: char) {
    c == '_' || c == '-' || IsPythonSpace(c)
  }

  /** The maximal runs without separators, `word` being the run under way. */
  function Words(s: string, word: string): seq<string>
    decreases |s|
  {
    if s == "" then (if word == "" then [] else [word])
    else if IsSeparator(s[0]) then (if word == "" then [] else [word]) + Words(s[1..], "")
    else Words(s[1..], word + [s[0]])
  }

  function UpperChar(c: char): char {
    if 'a' <= c <= 'z' then (c as int - 32) as char else c
  }

  function Capitalize(word: string): string {
    if word == "" then "" else [UpperChar(word[0])] + Lower(word[1..])
  }

  function JoinTitle(words: seq<string>): string {
    if words == [] then ""
    else Capitalize(words[0]) + if |words| == 1 then "" else " " + JoinTitle(words[1..])
  }

  /** `title_from_role_id` */
  function Title(id: string): string {
    var words := Words(Strip(id), "");
    if words == [] then id else JoinTitle(words)
  }

  ghost predicate IsWord(word: string) {
    word != "" && forall i :: 0 <= i < |word| ==> !IsSeparator(word[i])
  }

  lemma {:induction false} WordsAreWords(s: string, word: string)
    requires word == "" || IsWord(word)
    ensures forall w :: w in Words(s, word) ==> IsWord(w)
    decreases |s|
  {
    if s != "" {
      if IsSeparator(s[0]) {
        WordsAreWords(s[1..], "");
      } else {
        WordsAreWords(s[1..], word + [s[0]]);
      }
    }
  }

  lemma CapitalizedWord(word: string)
    requires IsWord(word)
    ensures Capitalize(word) != "" && Stripped(Capitalize(word))
  {
    var (last, r) := (|word| - 1, Capitalize(word));
    assert !IsSeparator(word[0]) && !IsSeparator(word[last]);
    assert |r| == |word| && r[0] == UpperChar(word[0]) && !IsPythonSpace(r[0]);
    if last > 0 {
      assert r[last] == Lower(word[1..])[last - 1] == LowerChar(word[last]);
      assert !IsPythonSpace(r[last]);
    }
  }

  lemma {:induction false} JoinedTitleIsClean(words: seq<string>)
    requires words != [] && forall w :: w in words ==> IsWord(w)
    ensures JoinTitle(words) != "" && Stripped(JoinTitle(words))
  {
    CapitalizedWord(words[0]);
    if |words| > 1 {
      JoinedTitleIsClean(words[1..]);
      var head, rest := Capitalize(words[0]) + " ", JoinTitle(words[1..]);
      assert JoinTitle(words) == head + rest;
      assert JoinTitle(words)[|JoinTitle(words)| - 1] == rest[|rest| - 1];
    }
  }

  /** The title of a role id that needs no stripping is never blank and needs none either. */
  lemma TitleIsClean(id: string)
    requires id != "" && Stripped(id)
    ensures Title(id) != "" && Stripped(Title(id))
  {
    StripIsStripped(id);
    WordsAreWords(Strip(id), "");
    if Words(Strip(id), "") != [] {
      JoinedTitleIsClean(Words(Strip(id), ""));
    }
  }

  // ---- One role entry ----

  function NonBlankTexts(items: seq<Node>): seq<Node> {
    if items == [] then []
    else
      (if Strip(ToString(items[0])) == "" then [] else [Str(Strip(ToString(items[0])))]) + NonBlankTexts(items[1..])
  }

  const EXTENSION_NAMES := ["event_modules", "event_routes"]

  function ExtensionValues(value: Node): (values: seq<Option<Node>>)
    ensures |values| == 2
  {
    [NonBlank(TextAt(value, "event_modules")), NonBlank(TextAt(value, "event_routes"))]
  }

  /** What is kept of an optional field of a role. */
  function Extra(name: string, raw: Option<Node>): Option<Node> {
    if raw.None? || raw.value.Null? then None
    else if name in TEXT_NAMES then NonBlank(Strip(ToString(raw.value)))
    else if name in NUMBER_NAMES then Number(IntLike(raw.value))
    else if name == "connectors" then
      (if raw.value.List? && NonBlankTexts(raw.value.items) != [] then Some(List(NonBlankTexts(raw.value.items))) else None)
    else if raw.value.Map? then Dict(Present(EXTENSION_NAMES, ExtensionValues(raw.value)))
    else None
  }

  function Extras(raw: Node): (extras: seq<Option<Node>>)
    ensures |extras| == |EXTRA_NAMES|
  {
    seq(|EXTRA_NAMES|, i requires 0 <= i < |EXTRA_NAMES| => Extra(EXTRA_NAMES[i], Get(raw, EXTRA_NAMES[i])))
  }

  /** `normalize_role_entry` */
  function NormalizeRole(raw: Node): Option<Role> {
    var (id, name) := (TextAt(raw, "id"), TextAt(raw, "name"));
    if !raw.Map? || (id == "" && name == "") then None
    else
      var id' := if id != "" then id else name;
      Some(Role(id', if name != "" then name else Title(id'), Extras(raw)))
  }

  function EmitRole(role: Role): Node
    requires |role.extras| == |EXTRA_NAMES|
  {
    Map(Present(ROLE_NAMES, [Some(Str(role.id)), Some(Str(role.name))] + role.extras))
  }

  ghost predicate CleanRole(role: Role) {
    role.id != "" && Stripped(role.id) && role.name != "" && Stripped(role.name) && |role.extras| == |EXTRA_NAMES|
  }

  /** No optional field is one that a second pass would drop or change. */
  ghost predicate KeepsExtras(role: Role)
    requires |role.extras| == |EXTRA_NAMES|
  {
    forall i :: 0 <= i < |EXTRA_NAMES| ==> Extra(EXTRA_NAMES[i], role.extras[i]) == role.extras[i]
  }

  lemma RoleNamesAreDistinct()
    ensures Distinct(ROLE_NAMES)
  {
    assert ROLE_NAMES == ["id", "name", "provider", "model", "system_prompt", "event_modules", "event_routes",
      "max_tokens", "max_tool_rounds", "max_history_messages", "stream_buffer_capacity", "connectors", "extensions"];
    assert "event_modules"[6] != "event_routes"[6];
    assert "max_tokens"[4] != "max_tool_rounds"[4] || "max_tokens"[5] != "max_tool_rounds"[5] || "max_tokens"[6] != "max_tool_rounds"[6];
    assert |"provider"| == 8 && |"event_routes"| == 12 && |"extensions"| == 10 && |"max_tokens"| == 10;
    assert "extensions"[0] != "max_tokens"[0] && "connectors"[0] != "extensions"[0] && "connectors"[0] != "max_tokens"[0];
    assert "event_modules"[0] != "system_prompt"[0];
  }

  lemma NormalizedRoleIsClean(raw: Node)
    requires NormalizeRole(raw).Some?
    ensures CleanRole(NormalizeRole(raw).value)
  {
    TextIsStripped(raw, "id");
    TextIsStripped(raw, "name");
    TitleIsClean(NormalizeRole(raw).value.id);
  }

  lemma EmittedRoleAt(role: Role, i: nat)
    requires |role.extras| == |EXTRA_NAMES| && i < |EXTRA_NAMES|
    ensures Get(EmitRole(role), "id") == Some(Str(role.id)) && Get(EmitRole(role), "name") == Some(Str(role.name))
    ensures Get(EmitRole(role), EXTRA_NAMES[i]) == role.extras[i]
  {
    RoleNamesAreDistinct();
    var values := [Some(Str(role.id)), Some(Str(role.name))] + role.extras;
    GetPresent(ROLE_NAMES, values, 0);
    GetPresent(ROLE_NAMES, values, 1);
    GetPresent(ROLE_NAMES, values, i + 2);
  }

  /** Reading a written role changes nothing but the optional fields that a second pass would drop. */
  lemma RoleReadsBack(role: Role)
    requires CleanRole(role)
    ensures NormalizeRole(EmitRole(role)).Some?
    ensures var again := NormalizeRole(EmitRole(role)).value;
            again.id == role.id && again.name == role.name && (again == role <==> KeepsExtras(role))
  {
    EmittedRoleAt(role, 0);
    StripIsStripped(role.id);
    StripIsStripped(role.name);
    var again := NormalizeRole(EmitRole(role)).value;
    forall i | 0 <= i < |EXTRA_NAMES|
      ensures again.extras[i] == Extra(EXTRA_NAMES[i], role.extras[i])
    {
      EmittedRoleAt(role, i);
    }
    assert again.extras == role.extras <==> KeepsExtras(role);
  }

  lemma {:induction false} TextsReadBack(items: seq<Node>)
    ensures NonBlankTexts(NonBlankTexts(items)) == NonBlankTexts(items)
  {
    if items != [] {
      TextsReadBack(items[1..]);
      var text := Strip(ToString(items[0]));
      StripIsStripped(ToString(items[0]));
      StripIsStripped(text);
      if text != "" {
        var once := NonBlankTexts(items);
        assert once == [Str(text)] + NonBlankTexts(items[1..]) && once[1..] == NonBlankTexts(items[1..]);
        assert NonBlankTexts(once) == [Str(text)] + NonBlankTexts(once[1..]);
      } else {
        assert NonBlankTexts(items) == NonBlankTexts(items[1..]);
      }
    }
  }

  lemma ExtensionsReadBack(value: Node)
    ensures ExtensionValues(Written(EXTENSION_NAMES, ExtensionValues(value))) == ExtensionValues(value)
  {
    var values := ExtensionValues(value);
    assert EXTENSION_NAMES[0][6] != EXTENSION_NAMES[1][6];
    GetWritten(EXTENSION_NAMES, values, 0);
    GetWritten(EXTENSION_NAMES, values, 1);
    TextIsStripped(value, "event_modules");
    TextIsStripped(value, "event_routes");
    TextReadsBack(Written(EXTENSION_NAMES, values), "event_modules", TextAt(value, "event_modules"));
    TextReadsBack(Written(EXTENSION_NAMES, values), "event_routes", TextAt(value, "event_routes"));
  }

  /** Normalizing an optional field twice is normalizing it once. */
  lemma ExtraIsIdempotent(name: string, raw: Option<Node>)
    ensures Extra(name, Extra(name, raw)) == Extra(name, raw)
  {
    if raw.Some? && !raw.value.Null? {
      if name in TEXT_NAMES {
        StripIsStripped(ToString(raw.value));
        StripIsStripped(Strip(ToString(raw.value)));
      } else if name in NUMBER_NAMES {
      } else if name == "connectors" {
        if raw.value.List? {
          TextsReadBack(raw.value.items);
        }
      } else if raw.value.Map? {
        ExtensionsReadBack(raw.value);
      }
    }
  }

  lemma NormalizedRoleKeepsExtras(raw: Node)
    requires NormalizeRole(raw).Some?
    ensures KeepsExtras(NormalizeRole(raw).value)
  {
    forall i | 0 <= i < |EXTRA_NAMES|
      ensures Extra(EXTRA_NAMES[i], Extras(raw)[i]) == Extras(raw)[i]
    {
      ExtraIsIdempotent(EXTRA_NAMES[i], Get(raw, EXTRA_NAMES[i]));
    }
  }

  // ---- What a title keeps ----

  /** The characters but separators, with letters in lower case. */
  function Letters(s: string): string {
    if s == "" then ""
    else (if s[0] in ['_', '-'] || IsPythonSpace(s[0]) then "" else [LowerChar(s[0])]) + Letters(s[1..])
  }

  lemma {:induction false} LettersConcat(a: string, b: string)
    ensures Letters(a + b) == Letters(a) + Letters(b)
    decreases |a|
  {
    if a == "" {
      assert a + b == b;
    } else {
      assert (a + b)[1..] == a[1..] + b;
      LettersConcat(a[1..], b);
    }
  }

  function LettersOf(words: seq<string>): string {
    if words == [] then "" else Letters(words[0]) + LettersOf(words[1..])
  }

  lemma OneLetter(c: char)
    ensures Letters([c]) == if c in ['_', '-'] || IsPythonSpace(c) then "" else [LowerChar(c)]
  {
    assert [c][1..] == "";
  }

  lemma OneMoreWord(word: string, rest: seq<string>)
    ensures LettersOf((if word == "" then [] else [word]) + rest) == Letters(word) + LettersOf(rest)
  {
    if word == "" {
      assert [] + rest == rest;
    } else {
      assert ([word] + rest)[1..] == rest;
    }
  }

  lemma LettersOfMore(s: string)
    requires s != ""
    ensures Letters(s) == (if IsSeparator(s[0]) then "" else [LowerChar(s[0])]) + Letters(s[1..])
  {
  }

  lemma {:induction false} WordsKeepLetters(s: string, word: string)
    ensures LettersOf(Words(s, word)) == Letters(word) + Letters(s)
    decreases |s|
  {
    if s == "" {
      OneMoreWord(word, []);
      assert (if word == "" then [] else [word]) + [] == Words(s, word);
    } else if IsSeparator(s[0]) {
      WordsKeepLetters(s[1..], "");
      OneMoreWord(word, Words(s[1..], ""));
      LettersOfMore(s);
    } else {
      WordsKeepLetters(s[1..], word + [s[0]]);
      LettersConcat(word, [s[0]]);
      OneLetter(s[0]);
      LettersOfMore(s);
    }
  }

  lemma {:induction false} LowerKeepsLetters(s: string)
    ensures Letters(Lower(s)) == Letters(s)
    decreases |s|
  {
    if s != "" {
      assert Lower(s)[1..] == Lower(s[1..]);
      LowerKeepsLetters(s[1..]);
    }
  }

  lemma CapitalizeKeepsLetters(word: string)
    ensures Letters(Capitalize(word)) == Letters(word)
  {
    if word != "" {
      var (c, rest) := (UpperChar(word[0]), Lower(word[1..]));
      assert Capitalize(word)[1..] == rest;
      LowerKeepsLetters(word[1..]);
      assert LowerChar(c) == LowerChar(word[0]);
    }
  }

  lemma {:induction false} JoinKeepsLetters(words: seq<string>)
    ensures Letters(JoinTitle(words)) == LettersOf(words)
  {
    if words != [] {
      CapitalizeKeepsLetters(words[0]);
      var tail := if |words| == 1 then "" else " " + JoinTitle(words[1..]);
      LettersConcat(Capitalize(words[0]), tail);
      JoinKeepsLetters(words[1..]);
      if |words| > 1 {
        LettersConcat(" ", JoinTitle(words[1..]));
        OneLetter(' ');
      }
    }
  }

  lemma StripKeepsLetters(id: string)
    ensures Letters(Strip(id)) == Letters(id)
  {
    var i, j := TrimIsMiddle(id, IsPythonSpace);
    assert id == id[..i] + Strip(id) + id[j..];
    LettersConcat(id[..i] + Strip(id), id[j..]);
    LettersConcat(id[..i], Strip(id));
    SpacesHaveNoLetters(id[..i]);
    SpacesHaveNoLetters(id[j..]);
  }

  /** A title keeps every character of the role id but separators, in order, up to the case of letters. */
  lemma TitleKeepsLetters(id: string)
    ensures Letters(Title(id)) == Letters(id)
    ensures Words(Strip(id), "") == [] ==> Letters(id) == ""
  {
    StripKeepsLetters(id);
    WordsKeepLetters(Strip(id), "");
    JoinKeepsLetters(Words(Strip(id), ""));
  }

  lemma {:induction false} SpacesHaveNoLetters(s: string)
    requires forall i :: 0 <= i < |s| ==> IsPythonSpace(s[i])
    ensures Letters(s) == ""
    decreases |s|
  {
    if s != "" {
      SpacesHaveNoLetters(s[1..]);
    }
  }

  /** Words that begin with a capital, with one space between them and no other separator. */
  ghost predicate TitleCase(s: string) {
    && s != "" && s[0] != ' '
    && (forall i :: 0 <= i < |s| ==> s[i] == ' ' || (s[i] !in ['_', '-'] && !IsPythonSpace(s[i])))
    && (forall i :: 0 < i < |s| && s[i - 1] == ' ' ==> s[i] != ' ')
    && forall i :: 0 <= i < |s| ==> if i == 0 || s[i - 1] == ' ' then !('a' <= s[i] <= 'z') else !('A' <= s[i] <= 'Z')
  }

  lemma CapitalizedAt(word: string, i: nat)
    requires i < |word|
    ensures |Capitalize(word)| == |word|
    ensures Capitalize(word)[i] == if i == 0 then UpperChar(word[0]) else LowerChar(word[i])
  {
    var rest := Lower(word[1..]);
    assert Capitalize(word) == [UpperChar(word[0])] + rest;
    assert i > 0 ==> rest[i - 1] == LowerChar(word[1..][i - 1]);
  }

  /** What may stand at a position of a title, and whether it begins a word. */
  predicate FitsTitle(c: char, first: bool) {
    && c !in ['_', '-'] && !IsPythonSpace(c)
    && if first then !('a' <= c <= 'z') else !('A' <= c <= 'Z')
  }

  lemma CapitalizedFits(word: string, i: nat)
    requires IsWord(word) && i < |word|
    ensures |Capitalize(word)| == |word| && FitsTitle(Capitalize(word)[i], i == 0)
  {
    CapitalizedAt(word, i);
    assert !IsSeparator(word[i]);
  }

  lemma CapitalizedIsTitleCase(word: string)
    requires IsWord(word)
    ensures TitleCase(Capitalize(word)) && ' ' !in Capitalize(word)
  {
    var r := Capitalize(word);
    forall i | 0 <= i < |word|
      ensures |r| == |word| && FitsTitle(r[i], i == 0) && r[i] != ' '
    {
      CapitalizedFits(word, i);
    }
  }

  lemma TitleCaseJoined(a: string, b: string)
    requires TitleCase(a) && ' ' !in a && TitleCase(b)
    ensures TitleCase(a + (" " + b))
  {
    var s := a + (" " + b);
    assert forall i :: 0 <= i < |a| ==> s[i] == a[i] && a[i] in a;
    assert s[|a|] == ' ' && forall i :: 0 <= i < |b| ==> s[|a| + 1 + i] == b[i];
    forall i | |a| < i < |s|
      ensures s[i] == b[i - |a| - 1]
    {
    }
  }

  lemma {:induction false} JoinIsTitleCase(words: seq<string>)
    requires words != [] && forall w :: w in words ==> IsWord(w)
    ensures TitleCase(JoinTitle(words))
  {
    CapitalizedIsTitleCase(words[0]);
    if |words| > 1 {
      JoinIsTitleCase(words[1..]);
      TitleCaseJoined(Capitalize(words[0]), JoinTitle(words[1..]));
    }
  }

  /** The title of a role id is in title case, unless the id has nothing but separators and is kept. */
  lemma TitleIsTitleCase(id: string)
    ensures if Letters(id) == "" then Title(id) == id else TitleCase(Title(id))
  {
    var words := Words(Strip(id), "");
    TitleKeepsLetters(id);
    WordsAreWords(Strip(id), "");
    if words != [] {
      JoinIsTitleCase(words);
      LettersOfWord(words[0]);
      JoinKeepsLetters(words);
    }
  }

  lemma LettersOfWord(word: string)
    requires IsWord(word)
    ensures Letters(word) != ""
  {
    assert !IsSeparator(word[0]);
  }

  // ---- Which role fields are kept ----

  /**
   An entry is a role exactly when it is a mapping with an id or a name; each of the two stands in for the other, the
   id with its title.
   */
  lemma RoleIsKeptExactly(raw: Node)
    ensures var (id, name) := (TextAt(raw, "id"), TextAt(raw, "name")); var role := NormalizeRole(raw);
      && (role.Some? <==> raw.Map? && !(id == "" && name == ""))
      && (role.Some? && id != "" ==> role.value.id == id)
      && (role.Some? && id == "" ==> role.value.id == role.value.name == name)
      && (role.Some? && name != "" ==> role.value.name == name)
      && (role.Some? && name == "" ==> Letters(role.value.name) == Letters(id))
  {
    TitleKeepsLetters(TextAt(raw, "id"));
  }

  lemma {:induction false} NonBlankTextsAre(items: seq<Node>, text: string)
    ensures Str(text) in NonBlankTexts(items)
       <==> text != "" && exists i :: 0 <= i < |items| && Strip(ToString(items[i])) == text
    ensures forall n :: n in NonBlankTexts(items) ==> n.Str?
  {
    if items != [] {
      NonBlankTextsAre(items[1..], text);
      if exists i :: 0 <= i < |items| && Strip(ToString(items[i])) == text {
        var i :| 0 <= i < |items| && Strip(ToString(items[i])) == text;
        assert i > 0 ==> items[1..][i - 1] == items[i];
      }
      if i :| 0 <= i < |items[1..]| && Strip(ToString(items[1..][i])) == text {
        assert items[i + 1] == items[1..][i];
      }
    }
  }

  /** The list is kept when it has a text that is not blank, with exactly those texts. */
  lemma ConnectorsAreKept(value: Node, text: string)
    ensures var kept := Extra("connectors", Some(value));
      && (kept.Some? <==> value.List? && exists i :: 0 <= i < |value.items| && Strip(ToString(value.items[i])) != "")
      && (kept.Some? ==> kept.value.List?)
      && (kept.Some? ==>
            (Str(text) in kept.value.items
             <==> text != "" && exists i :: 0 <= i < |value.items| && Strip(ToString(value.items[i])) == text))
  {
    assert "connectors" !in TEXT_NAMES && "connectors" !in NUMBER_NAMES by {
      assert |"connectors"| == 10 && |"max_tokens"| == 10 && "connectors"[0] != "max_tokens"[0];
    }
    if value.List? {
      NonBlankTextsAre(value.items, text);
      var texts := NonBlankTexts(value.items);
      if texts != [] {
        NonBlankTextsAre(value.items, texts[0].s);
        assert texts[0] in texts;
      }
      forall i | 0 <= i < |value.items| && Strip(ToString(value.items[i])) != ""
        ensures texts != []
      {
        NonBlankTextsAre(value.items, Strip(ToString(value.items[i])));
      }
    }
  }

  /** The mapping is kept when one of the two texts is not blank, and then reads back as those texts. */
  lemma ExtensionsAreKept(value: Node)
    ensures var kept := Extra("extensions", Some(value));
      && (kept.Some? <==> value.Map? && (TextAt(value, "event_modules") != "" || TextAt(value, "event_routes") != ""))
      && (kept.Some? ==> TextAt(kept.value, "event_modules") == TextAt(value, "event_modules")
                         && TextAt(kept.value, "event_routes") == TextAt(value, "event_routes"))
  {
    assert "extensions" !in TEXT_NAMES && "extensions" !in NUMBER_NAMES by {
      assert |"extensions"| == 10 && |"max_tokens"| == 10 && "extensions"[0] != "max_tokens"[0];
    }
    assert "extensions" != "connectors" by { assert "extensions"[0] != "connectors"[0]; }
    if value.Map? {
      ExtensionsReadBack(value);
      var values := ExtensionValues(value);
      PresentExtensions(values[0], values[1]);
      var written := Written(EXTENSION_NAMES, values);
      assert ExtensionValues(written)[0] == values[0] && ExtensionValues(written)[1] == values[1];
    }
  }

  lemma PresentExtensions(a: Option<Node>, b: Option<Node>)
    ensures Present(EXTENSION_NAMES, [a, b]) != [] <==> a.Some? || b.Some?
  {
    assert EXTENSION_NAMES[1..] == ["event_routes"] && [a, b][1..] == [b];
    assert Present(["event_routes"], [b]) == if b.Some? then [Field(Str("event_routes"), b.value)] else [];
  }

  /** A text is kept when it is not blank, a number when it can be read as one. */
  lemma TextsAndNumbersAreKept(name: string, value: Node, text: string, n: int)
    requires !value.Null?
    ensures name in TEXT_NAMES ==> (Extra(name, Some(value)) == Some(Str(text)) <==> text != "" && text == Strip(ToString(value)))
    ensures name in NUMBER_NAMES ==> (Extra(name, Some(value)) == Some(Int(n)) <==> IntLike(value) == Some(n))
  {
    assert name in NUMBER_NAMES ==> name !in TEXT_NAMES by {
      assert "max_tokens"[0] == 'm' && "model"[1] != 'a' && "stream_buffer_capacity"[1] != "system_prompt"[1];
    }
  }

  /** The role that is made up for a name found in a step. */
  function DerivedRole(name: string): Role {
    Role(Strip(name), Title(name),
         seq(|EXTRA_NAMES|, i requires 0 <= i < |EXTRA_NAMES| => if EXTRA_NAMES[i] == "system_prompt" then Some(Str("")) else None))
  }

  /** A derived role carries an empty prompt, which a second pass drops. */
  lemma DerivedRoleIsUnstable(name: string)
    ensures !KeepsExtras(DerivedRole(name))
  {
    assert EXTRA_NAMES[2] == "system_prompt" && TEXT_NAMES[2] == "system_prompt";
    StripIsStripped("");
    assert Extra(EXTRA_NAMES[2], DerivedRole(name).extras[2]) == None;
  }

  // ---- Adding roles that are not there yet ----

  /** Role ids are compared without regard to case. */
  function KeyOf(role: Role): string {
    Lower(role.id)
  }

  ghost function Keys(roles: seq<Role>): set<string> {
    set i | 0 <= i < |roles| :: KeyOf(roles[i])
  }

  ghost function AddRole(roles: seq<Role>, entry: Option<Role>): seq<Role> {
    if entry.None? || KeyOf(entry.value) in Keys(roles) then roles else roles + [entry.value]
  }

  /** The roles after the first `n` entries. */
  ghost function AddFirst(roles: seq<Role>, entries: seq<Option<Role>>, n: nat): seq<Role>
    requires n <= |entries|
  {
    if n == 0 then roles else AddRole(AddFirst(roles, entries, n - 1), entries[n - 1])
  }

  ghost function AddAll(roles: seq<Role>, entries: seq<Option<Role>>): seq<Role> {
    AddFirst(roles, entries, |entries|)
  }

  ghost predicate DistinctKeys(roles: seq<Role>) {
    forall i, j :: 0 <= i < j < |roles| ==> KeyOf(roles[i]) != KeyOf(roles[j])
  }

  ghost function EntryKeys(entries: seq<Option<Role>>, n: nat): set<string>
    requires n <= |entries|
  {
    set i | 0 <= i < n && entries[i].Some? :: KeyOf(entries[i].value)
  }

  lemma KeysOfMore(roles: seq<Role>, role: Role)
    ensures Keys(roles + [role]) == Keys(roles) + {KeyOf(role)}
  {
    var more := roles + [role];
    assert more[|roles|] == role;
    forall key | key in Keys(roles)
      ensures key in Keys(more)
    {
      var i :| 0 <= i < |roles| && key == KeyOf(roles[i]);
      assert more[i] == roles[i];
    }
    forall key | key in Keys(more)
      ensures key in Keys(roles) || key == KeyOf(role)
    {
      var i :| 0 <= i < |more| && key == KeyOf(more[i]);
      if i < |roles| {
        assert more[i] == roles[i];
      }
    }
  }

  lemma AddRoleIs(roles: seq<Role>, entry: Option<Role>)
    requires DistinctKeys(roles)
    ensures DistinctKeys(AddRole(roles, entry))
    ensures Keys(AddRole(roles, entry)) == Keys(roles) + if entry.Some? then {KeyOf(entry.value)} else {}
  {
    if entry.Some? && KeyOf(entry.value) !in Keys(roles) {
      KeysOfMore(roles, entry.value);
      var r := AddRole(roles, entry);
      forall i, j | 0 <= i < j < |r|
        ensures KeyOf(r[i]) != KeyOf(r[j])
      {
        assert KeyOf(roles[i]) in Keys(roles);
      }
    }
  }

  lemma EntryKeysStep(entries: seq<Option<Role>>, n: nat)
    requires 0 < n <= |entries|
    ensures EntryKeys(entries, n)
         == EntryKeys(entries, n - 1) + if entries[n - 1].Some? then {KeyOf(entries[n - 1].value)} else {}
  {
  }

  lemma {:induction false} AddFirstIs(roles: seq<Role>, entries: seq<Option<Role>>, n: nat)
    requires DistinctKeys(roles) && n <= |entries|
    ensures DistinctKeys(AddFirst(roles, entries, n))
    ensures Keys(AddFirst(roles, entries, n)) == Keys(roles) + EntryKeys(entries, n)
    decreases n
  {
    if n > 0 {
      AddFirstIs(roles, entries, n - 1);
      AddRoleIs(AddFirst(roles, entries, n - 1), entries[n - 1]);
      EntryKeysStep(entries, n);
    }
  }

  /** Roles are only added at the end, each from one of the entries. */
  lemma {:induction false} AddFirstAppends(roles: seq<Role>, entries: seq<Option<Role>>, n: nat)
    requires n <= |entries|
    ensures var r := AddFirst(roles, entries, n);
      && |roles| <= |r| && (forall i :: 0 <= i < |roles| ==> r[i] == roles[i])
      && forall i :: |roles| <= i < |r| ==> exists j :: 0 <= j < n && entries[j] == Some(r[i])
    decreases n
  {
    if n > 0 {
      AddFirstAppends(roles, entries, n - 1);
      var (before, r) := (AddFirst(roles, entries, n - 1), AddFirst(roles, entries, n));
      forall i | |roles| <= i < |r|
        ensures exists j :: 0 <= j < n && entries[j] == Some(r[i])
      {
        if i < |before| {
          assert r[i] == before[i];
          var j :| 0 <= j < n - 1 && entries[j] == Some(before[i]);
        } else {
          assert entries[n - 1] == Some(r[i]);
        }
      }
    }
  }

  /** None is added exactly when every entry has a role already. */
  lemma {:induction false} NoneAddedExactly(roles: seq<Role>, entries: seq<Option<Role>>, n: nat)
    requires n <= |entries|
    ensures AddFirst(roles, entries, n) == roles <==> EntryKeys(entries, n) <= Keys(roles)
    decreases n
  {
    if n > 0 {
      NoneAddedExactly(roles, entries, n - 1);
      AddFirstAppends(roles, entries, n - 1);
      EntryKeysStep(entries, n);
      var before := AddFirst(roles, entries, n - 1);
      if |before| == |roles| {
        assert before == roles;
      }
    }
  }

  /** Entries that are all there, with distinct ids, are all added, in order. */
  lemma {:induction false} AllAdded(entries: seq<Option<Role>>, n: nat)
    requires n <= |entries| && forall i :: 0 <= i < |entries| ==> entries[i].Some?
    requires forall i, j :: 0 <= i < j < |entries| ==> KeyOf(entries[i].value) != KeyOf(entries[j].value)
    ensures var r := AddFirst([], entries, n); |r| == n && forall i :: 0 <= i < n ==> r[i] == entries[i].value
  {
    if n > 0 {
      AllAdded(entries, n - 1);
    }
  }

  // ---- All roles ----

  function RoleItems(raw: Node): seq<Node> {
    if raw.List? then raw.items else []
  }

  /** What each raw role entry gives. */
  ghost function Declarations(items: seq<Node>): (entries: seq<Option<Role>>)
    ensures |entries| == |items|
  {
    seq(|items|, i requires 0 <= i < |items| => NormalizeRole(items[i]))
  }

  /** What each collected name gives. */
  function Derivation(name: string): Option<Role> {
    if Strip(name) == "" then None else Some(DerivedRole(name))
  }

  ghost function Derivations(names: seq<string>): (entries: seq<Option<Role>>)
    ensures |entries| == |names|
  {
    seq(|names|, i requires 0 <= i < |names| => Derivation(names[i]))
  }

  ghost function DeclaredRoles(items: seq<Node>): seq<Role> {
    AddAll([], Declarations(items))
  }

  ghost function NormalizeRoles(raw: Node, names: seq<string>): seq<Role> {
    AddAll(DeclaredRoles(RoleItems(raw)), Derivations(names))
  }

  lemma NormalizedKey(raw: Node)
    requires NormalizeRole(raw).Some?
    ensures Lower(Strip(NormalizeRole(raw).value.id)) == KeyOf(NormalizeRole(raw).value)
  {
    NormalizedRoleIsClean(raw);
    StripIsStripped(NormalizeRole(raw).value.id);
  }

  /** A role is added and its key is remembered, unless the key was seen. */
  method AddUnseen(roles: seq<Role>, seen: set<string>, key: string, role: Role)
    returns (roles': seq<Role>, seen': set<string>)
    requires seen == Keys(roles) && key == KeyOf(role)
    ensures roles' == AddRole(roles, Some(role)) && seen' == Keys(roles')
  {
    roles', seen' := roles, seen;
    if key !in seen {
      KeysOfMore(roles, role);
      seen' := seen + {key};
      roles' := roles + [role];
    }
  }

  /** The two loops of the migrator, with the set of keys that they have seen. */
  method BuildRoles(raw: Node, names: seq<string>) returns (roles: seq<Role>)
    ensures roles == NormalizeRoles(raw, names)
  {
    roles := [];
    var seen: set<string> := {};
    var items := RoleItems(raw);
    ghost var declarations := Declarations(items);
    for i := 0 to |items|
      invariant roles == AddFirst([], declarations, i) && seen == Keys(roles)
    {
      var normalized := NormalizeRole(items[i]);
      assert declarations[i] == normalized;
      if normalized.Some? {
        NormalizedKey(items[i]);
        roles, seen := AddUnseen(roles, seen, Lower(Strip(normalized.value.id)), normalized.value);
      }
    }
    ghost var declared, derivations := roles, Derivations(names);
    for i := 0 to |names|
      invariant roles == AddFirst(declared, derivations, i) && seen == Keys(roles)
    {
      assert derivations[i] == Derivation(names[i]);
      if Strip(names[i]) != "" {
        roles, seen := AddUnseen(roles, seen, Lower(Strip(names[i])), DerivedRole(names[i]));
      }
    }
  }

  ghost function DeclaredKeys(items: seq<Node>): set<string> {
    EntryKeys(Declarations(items), |items|)
  }

  ghost function NameKeys(names: seq<string>): set<string> {
    EntryKeys(Derivations(names), |names|)
  }

  /**
   No two roles of a migrated workflow have ids that differ in case only, and up to case the ids are those of
   the declared roles and of the names given.
   */
  lemma RolesAre(raw: Node, names: seq<string>)
    ensures DistinctKeys(NormalizeRoles(raw, names))
    ensures Keys(NormalizeRoles(raw, names)) == DeclaredKeys(RoleItems(raw)) + NameKeys(names)
  {
    var items := RoleItems(raw);
    AddFirstIs([], Declarations(items), |items|);
    AddFirstIs(DeclaredRoles(items), Derivations(names), |names|);
  }
}
