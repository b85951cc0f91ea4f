/** The command tokenizer: white space separates tokens, quotes of either kind protect it. */
module CommandTokens {
  import opened Text

  /** The open quote, or NUL outside quotes. */
  const NO_QUOTE := '\0'

  predicate IsQuote(c: char) {
    c == '"' || c == '\''
  }

  function Flush(current: string): seq<string> {
    if current == "" then [] else [current]
  }

  /** The tokens of the rest of the text, given the open quote and the token under construction. */
  function Scan(text: string, quote: char, current: string): seq<string>
    decreases |text|
  {
    if text == "" then Flush(current)
    else
      var (ch, rest) := (text[0], text[1..]);
      if quote == NO_QUOTE then
        if IsQuote(ch) then Scan(rest, ch, current)
        else if IsWhiteSpace(ch) then Flush(current) + Scan(rest, quote, "")
        else Scan(rest, quote, current + [ch])
      else if ch == quote then Scan(rest, NO_QUOTE, current)
      else Scan(rest, quote, current + [ch])
  }

  function Tokens(text: string): seq<string> {
    Scan(text, NO_QUOTE, "")
  }

  lemma {:induction false} BlankHasNoTokens(text: string)
    requires IsBlank(text)
    ensures Tokens(text) == []
  {
    if text != "" {
      BlankHasNoTokens(text[1..]);
    }
  }

  method FlushToken(tokens: seq<string>, current: string) returns (flushed: seq<string>, emptied: string)
    ensures flushed == tokens + Flush(current) && emptied == ""
  {
    emptied := "";
    if current == "" {
      assert tokens + [] == tokens;
      return tokens, emptied;
    }
    flushed := tokens + [current];
  }

  method Tokenize(text: string) returns (tokens: seq<string>)
    ensures tokens == Tokens(text)
  {
    if IsBlank(text) {
      BlankHasNoTokens(text);
      return [];
    }
    tokens := [];
    var current: string := "";
    var quote := NO_QUOTE;
    for i := 0 to |text|
      invariant tokens + Scan(text[i..], quote, current) == Tokens(text)
    {
      var ch := text[i];
      assert text[i..][1..] == text[i + 1..];
      if quote == NO_QUOTE {
        if IsQuote(ch) {
          quote := ch;
          continue;
        }
        if IsWhiteSpace(ch) {
          tokens, current := FlushToken(tokens, current);
          continue;
        }
        current := current + [ch];
        continue;
      }
      if ch == quote {
        quote := NO_QUOTE;
        continue;
      }
      current := current + [ch];
    }
    tokens, current := FlushToken(tokens, current);
  }

  // ---- What the tokens are ----

  /** The tokenizer's state after a text: finished tokens, open quote, token under construction. */
  datatype Cursor = Cursor(done: seq<string>, quote: char, current: string)

  function Advance(c: Cursor, ch: char): Cursor {
    if c.quote == NO_QUOTE then
      if IsQuote(ch) then c.(quote := ch)
      else if IsWhiteSpace(ch) then Cursor(c.done + Flush(c.current), NO_QUOTE, "")
      else c.(current := c.current + [ch])
    else if ch == c.quote then c.(quote := NO_QUOTE)
    else c.(current := c.current + [ch])
  }

  function AdvanceOver(c: Cursor, text: string): Cursor
    decreases |text|
  {
    if text == "" then c else AdvanceOver(Advance(c, text[0]), text[1..])
  }

  const START := Cursor([], NO_QUOTE, "")

  lemma {:induction false} ScanSplits(c: Cursor, a: string, b: string)
    ensures var d := AdvanceOver(c, a);
      c.done + Scan(a + b, c.quote, c.current) == d.done + Scan(b, d.quote, d.current)
    ensures var d := AdvanceOver(c, a);
      c.done == [] ==> (Scan(a + b, c.quote, c.current) == d.done + Scan(b, d.quote, d.current))
    decreases |a|
  {
    if a == "" {
      assert a + b == b;
    } else {
      assert (a + b)[1..] == a[1..] + b;
      var d := Advance(c, a[0]);
      ScanSplits(d, a[1..], b);
      assert c.done + (Flush(c.current) + Scan(a[1..] + b, NO_QUOTE, ""))
          == c.done + Flush(c.current) + Scan(a[1..] + b, NO_QUOTE, "");
    }
  }

  /** White space outside quotes splits the text: the tokens of both sides are independent of each other. */
  lemma SplitsAtSpace(a: string, w: char, b: string)
    requires AdvanceOver(START, a).quote == NO_QUOTE && IsWhiteSpace(w)
    ensures Tokens(a + [w] + b) == Tokens(a) + Tokens(b)
  {
    var d := AdvanceOver(START, a);
    assert a + [w] + b == a + ([w] + b) && a + "" == a;
    ScanSplits(START, a, [w] + b);
    ScanSplits(START, a, "");
    assert ([w] + b)[1..] == b;
    assert Tokens(a) == d.done + Flush(d.current);
    assert Tokens(a + [w] + b) == d.done + (Flush(d.current) + Scan(b, NO_QUOTE, ""));
    assert d.done + (Flush(d.current) + Scan(b, NO_QUOTE, "")) == d.done + Flush(d.current) + Scan(b, NO_QUOTE, "");
  }

  lemma {:induction false} TokensAreNonEmpty(text: string, quote: char, current: string)
    ensures "" !in Scan(text, quote, current)
    decreases |text|
  {
    if text != "" {
      var (ch, rest) := (text[0], text[1..]);
      if quote == NO_QUOTE {
        TokensAreNonEmpty(rest, ch, current);
        TokensAreNonEmpty(rest, quote, "");
      } else {
        TokensAreNonEmpty(rest, NO_QUOTE, current);
      }
      TokensAreNonEmpty(rest, quote, current + [ch]);
    }
  }

  function Concat(tokens: seq<string>): string {
    if tokens == [] then "" else tokens[0] + Concat(tokens[1..])
  }

  /** The text without the delimiting quotes and without the white space outside quotes. */
  function Stripped(text: string, quote: char): string
    decreases |text|
  {
    if text == "" then ""
    else
      var (ch, rest) := (text[0], text[1..]);
      if quote == NO_QUOTE && IsQuote(ch) then Stripped(rest, ch)
      else if quote == NO_QUOTE && IsWhiteSpace(ch) then Stripped(rest, quote)
      else if quote != NO_QUOTE && ch == quote then Stripped(rest, NO_QUOTE)
      else [ch] + Stripped(rest, quote)
  }

  lemma ConcatFlush(current: string, tokens: seq<string>)
    ensures Concat(Flush(current) + tokens) == current + Concat(tokens)
  {
    if current != "" {
      assert (Flush(current) + tokens)[1..] == tokens;
    } else {
      assert Flush(current) + tokens == tokens;
    }
  }

  /** The characters of the tokens, in order, are exactly the stripped text. */
  lemma {:induction false} TokensKeepCharacters(text: string, quote: char, current: string)
    ensures Concat(Scan(text, quote, current)) == current + Stripped(text, quote)
    decreases |text|
  {
    if text == "" {
      ConcatFlush(current, []);
      assert Flush(current) + [] == Flush(current);
    } else {
      var (ch, rest) := (text[0], text[1..]);
      if quote == NO_QUOTE && IsQuote(ch) {
        TokensKeepCharacters(rest, ch, current);
      } else if quote == NO_QUOTE && IsWhiteSpace(ch) {
        TokensKeepCharacters(rest, quote, "");
        ConcatFlush(current, Scan(rest, quote, ""));
      } else if quote != NO_QUOTE && ch == quote {
        TokensKeepCharacters(rest, NO_QUOTE, current);
      } else {
        TokensKeepCharacters(rest, quote, current + [ch]);
        assert current + [ch] + Stripped(rest, quote) == current + ([ch] + Stripped(rest, quote));
      }
    }
  }

  // ---- Quoting round trip ----

  /** A character inside quotes of a kind that it is not. */
  function QuoteChar(c: char): string {
    var quote := if c == '"' then '\'' else '"';
    [quote, c, quote]
  }

  function QuoteToken(token: string): string {
    if token == "" then "" else QuoteChar(token[0]) + QuoteToken(token[1..])
  }

  function QuoteLine(tokens: seq<string>): string {
    if tokens == [] then ""
    else QuoteToken(tokens[0]) + (if |tokens| == 1 then "" else " " + QuoteLine(tokens[1..]))
  }

  /** A quoted character is taken over, whatever follows. */
  lemma ScanQuotedChar(c: char, tail: string, current: string)
    ensures Scan(QuoteChar(c) + tail, NO_QUOTE, current) == Scan(tail, NO_QUOTE, current + [c])
  {
    var q := QuoteChar(c)[0];
    var (one, two) := ([c] + ([q] + tail), [q] + tail);
    assert QuoteChar(c) + tail == [q] + one;
    assert ([q] + one)[1..] == one && one[1..] == two && two[1..] == tail;
    assert Scan([q] + one, NO_QUOTE, current) == Scan(one, q, current);
    assert Scan(one, q, current) == Scan(two, q, current + [c]);
  }

  lemma {:induction false} ScanQuoted(token: string, rest: string, current: string)
    ensures Scan(QuoteToken(token) + rest, NO_QUOTE, current) == Scan(rest, NO_QUOTE, current + token)
    decreases |token|
  {
    if token == "" {
      assert QuoteToken(token) + rest == rest && current + token == current;
    } else {
      var tail := QuoteToken(token[1..]) + rest;
      assert QuoteToken(token) + rest == QuoteChar(token[0]) + tail;
      ScanQuotedChar(token[0], tail, current);
      ScanQuoted(token[1..], rest, current + [token[0]]);
      assert current + [token[0]] + token[1..] == current + token;
    }
  }

  /** Quoting every character protects any list of tokens, exactly when none of them is empty. */
  lemma {:induction false} QuotingRoundTrip(tokens: seq<string>)
    ensures Tokens(QuoteLine(tokens)) == tokens <==> "" !in tokens
  {
    if "" in tokens {
      TokensAreNonEmpty(QuoteLine(tokens), NO_QUOTE, "");
    } else if tokens != [] {
      var rest := if |tokens| == 1 then "" else " " + QuoteLine(tokens[1..]);
      ScanQuoted(tokens[0], rest, "");
      assert "" + tokens[0] == tokens[0];
      if |tokens| > 1 {
        QuotingRoundTrip(tokens[1..]);
        assert rest[1..] == QuoteLine(tokens[1..]);
      }
    }
  }

  // ---- Named arguments ----

  /** The first position of a character, or -1. */
  function IndexOfChar(s: string, c: char): (i: int)
    ensures -1 <= i < |s|
    ensures i >= 0 ==> s[i] == c
    ensures forall j :: 0 <= j < (if i < 0 then |s| else i) ==> s[j] != c
  {
    if s == "" then -1
    else if s[0] == c then 0
    else
      var i := IndexOfChar(s[1..], c);
      if i < 0 then -1 else i + 1
  }

  /** Keys are compared ignoring case, so the map holds their folded form. */
  type Arguments = map<string, string>

  function WithArgument(values: Arguments, token: string): Arguments {
    var separator := IndexOfChar(token, '=');
    if separator <= 0 || separator == |token| - 1 then values
    else
      var (key, value) := (Trim(token[..separator]), Trim(token[separator + 1..]));
      if key == "" then values else values[Lower(key) := value]
  }

  function NamedArguments(tokens: seq<string>, startIndex: nat): Arguments
    requires startIndex <= |tokens|
    decreases |tokens|
  {
    if startIndex == |tokens| then map[]
    else WithArgument(NamedArguments(tokens[..|tokens| - 1], startIndex), tokens[|tokens| - 1])
  }

  lemma NamedArgumentsStep(tokens: seq<string>, startIndex: nat, i: nat)
    requires startIndex <= i < |tokens|
    ensures NamedArguments(tokens[..i + 1], startIndex)
         == WithArgument(NamedArguments(tokens[..i], startIndex), tokens[i])
  {
    assert tokens[..i + 1][..i] == tokens[..i];
  }

  method ParseNamedArguments(tokens: seq<string>, startIndex: nat) returns (values: Arguments)
    requires startIndex <= |tokens|
    ensures values == NamedArguments(tokens, startIndex)
  {
    values := map[];
    for i := startIndex to |tokens|
      invariant values == NamedArguments(tokens[..i], startIndex)
    {
      var token := tokens[i];
      NamedArgumentsStep(tokens, startIndex, i);
      var separatorIndex := IndexOfChar(token, '=');
      if separatorIndex <= 0 || separatorIndex == |token| - 1 {
        continue;
      }
      var key := Trim(token[..separatorIndex]);
      var value := Trim(token[separatorIndex + 1..]);
      if key == "" {
        continue;
      }
      values := values[Lower(key) := value];
    }
    assert tokens[..|tokens|] == tokens;
  }

  // ---- The named arguments of any tokens ----

  /** `name=text`, with the separator at `e`: the folded name is the key, the trimmed text the value. */
  predicate ArgumentAt(token: string, key: string, value: string, e: nat) {
    && 0 < e < |token| - 1 && token[e] == '=' && (forall j :: 0 <= j < e ==> token[j] != '=')
    && !IsBlank(token[..e]) && key == Lower(Trim(token[..e])) && value == Trim(token[e + 1..])
  }

  ghost predicate IsArgument(token: string, key: string, value: string) {
    exists e: nat :: ArgumentAt(token, key, value, e)
  }

  ghost predicate GivesKey(token: string, key: string) {
    exists value :: IsArgument(token, key, value)
  }

  lemma ArgumentIs(token: string, key: string, value: string)
    ensures var e := IndexOfChar(token, '=');
      IsArgument(token, key, value) <==> e >= 0 && ArgumentAt(token, key, value, e)
  {
    var e := IndexOfChar(token, '=');
    if IsArgument(token, key, value) {
      var f: nat :| ArgumentAt(token, key, value, f);
      assert token[f] == '=' && !(e < 0);
      assert f == e;
    }
  }

  lemma WithArgumentIs(values: Arguments, token: string, key: string, value: string)
    ensures var next := WithArgument(values, token);
      key in next && next[key] == value
      <==> IsArgument(token, key, value) || (!GivesKey(token, key) && key in values && values[key] == value)
  {
    var e := IndexOfChar(token, '=');
    ArgumentIs(token, key, value);
    if 0 < e < |token| - 1 {
      TrimBlank(token[..e]);
      var (name, text) := (Lower(Trim(token[..e])), Trim(token[e + 1..]));
      ArgumentIs(token, name, text);
    }
    forall v | IsArgument(token, key, v)
      ensures e > 0 && ArgumentAt(token, key, v, e)
    {
      ArgumentIs(token, key, v);
    }
  }

  /** The last of the tokens that is an argument for the key gives this value. */
  ghost predicate LastArgument(tokens: seq<string>, startIndex: nat, key: string, value: string) {
    exists i :: startIndex <= i < |tokens| && LastAt(tokens, key, value, i)
  }

  ghost predicate LastAt(tokens: seq<string>, key: string, value: string, i: nat)
    requires i < |tokens|
  {
    IsArgument(tokens[i], key, value) && forall j :: i < j < |tokens| ==> !GivesKey(tokens[j], key)
  }

  lemma LastOfMore(init: seq<string>, last: string, startIndex: nat, key: string, value: string)
    requires startIndex <= |init|
    requires IsArgument(last, key, value) || (!GivesKey(last, key) && LastArgument(init, startIndex, key, value))
    ensures LastArgument(init + [last], startIndex, key, value)
  {
    var tokens := init + [last];
    if IsArgument(last, key, value) {
      assert LastAt(tokens, key, value, |init|);
    } else {
      var i :| startIndex <= i < |init| && LastAt(init, key, value, i);
      assert tokens[i] == init[i];
      forall j | i < j < |tokens|
        ensures !GivesKey(tokens[j], key)
      {
        assert j < |init| ==> tokens[j] == init[j];
      }
      assert LastAt(tokens, key, value, i);
    }
  }

  lemma LastOfFewer(init: seq<string>, last: string, startIndex: nat, key: string, value: string)
    requires startIndex <= |init| && LastArgument(init + [last], startIndex, key, value)
    ensures IsArgument(last, key, value) || (!GivesKey(last, key) && LastArgument(init, startIndex, key, value))
  {
    var tokens := init + [last];
    var i :| startIndex <= i < |tokens| && LastAt(tokens, key, value, i);
    assert tokens[|init|] == last;
    if i < |init| {
      assert tokens[i] == init[i];
      forall j | i < j < |init|
        ensures !GivesKey(init[j], key)
      {
        assert tokens[j] == init[j];
      }
      assert LastAt(init, key, value, i);
    }
  }

  /** The arguments hold exactly the last value that the tokens give for each key, compared without case. */
  lemma {:induction false} NamedArgumentsExactly(tokens: seq<string>, startIndex: nat, key: string, value: string)
    requires startIndex <= |tokens|
    ensures var values := NamedArguments(tokens, startIndex);
      key in values && values[key] == value <==> LastArgument(tokens, startIndex, key, value)
    decreases |tokens|
  {
    if startIndex < |tokens| {
      var (init, last) := (tokens[..|tokens| - 1], tokens[|tokens| - 1]);
      NamedArgumentsExactly(init, startIndex, key, value);
      WithArgumentIs(NamedArguments(init, startIndex), last, key, value);
      assert tokens == init + [last];
      if LastArgument(tokens, startIndex, key, value) {
        LastOfFewer(init, last, startIndex, key, value);
      } else if IsArgument(last, key, value) || (!GivesKey(last, key) && LastArgument(init, startIndex, key, value)) {
        LastOfMore(init, last, startIndex, key, value);
      }
    }
  }
}
