/** The text commands that resume a workflow: the Feishu port prints them, the channel router parses them. */
module WorkflowCommands {
  import opened Text
  import opened CommandTokens

  // ---- Printing ----

  datatype HumanInteraction = HumanInteraction(actorId: string, runId: string, stepId: string)

  function NormalizeOptional(value: string): Option<string> {
    var normalized := Trim(value);
    if normalized == "" then None else Some(normalized)
  }

  function BuildCommand(verb: string, request: HumanInteraction, suffix: Option<string>): string {
    var line := verb + " actor_id=" + request.actorId + " run_id=" + request.runId + " step_id=" + request.stepId;
    var normalized := if suffix.None? then None else NormalizeOptional(suffix.value);
    if normalized.None? then line else line + " " + normalized.value
  }

  // ---- Parsing ----

  datatype Inbound = Inbound(text: string, platform: string, conversationId: string, messageId: string)

  datatype ResumeCommand = ResumeCommand(
    actorId: string,
    runId: string,
    stepId: string,
    commandId: Option<string>,
    approved: bool,
    userInput: Option<string>,
    metadata: map<string, string>,
    editedContent: Option<string>,
    feedback: Option<string>)

  function Verdict(commandToken: string): Option<bool> {
    if commandToken == "/approve" then Some(true)
    else if commandToken == "/reject" then Some(false)
    else if commandToken == "/submit" then Some(true)
    else None
  }

  function Optional(values: Arguments, key: string): Option<string> {
    if key in values then NormalizeOptional(values[key]) else None
  }

  function OrElse(first: Option<string>, second: Option<string>): Option<string> {
    if first.Some? then first else second
  }

  function ResolveUserInput(values: Arguments, approved: bool, editedContent: Option<string>): Option<string> {
    if approved && editedContent.Some? then editedContent
    else
      OrElse(Optional(values, "user_input"),
      OrElse(Optional(values, "value"),
        if approved then
          OrElse(Optional(values, "comment"), OrElse(Optional(values, "notes"), editedContent))
        else
          OrElse(Optional(values, "feedback"),
          OrElse(Optional(values, "user_input"),
          OrElse(Optional(values, "comment"), Optional(values, "notes"))))))
  }

  function ResolveFeedback(values: Arguments, approved: bool): Option<string> {
    if approved then
      OrElse(Optional(values, "comment"),
      OrElse(Optional(values, "user_input"), Optional(values, "notes")))
    else
      OrElse(Optional(values, "feedback"),
      OrElse(Optional(values, "comment"),
      OrElse(Optional(values, "user_input"), Optional(values, "notes"))))
  }

  function Metadata(inbound: Inbound): map<string, string> {
    var metadata := map["channel.platform" := inbound.platform, "channel.conversation_id" := inbound.conversationId];
    if IsBlank(inbound.messageId) then metadata else metadata["channel.message_id" := inbound.messageId]
  }

  function TryBuildWorkflowResumeCommand(inbound: Inbound): Option<ResumeCommand> {
    var tokens := Tokens(inbound.text);
    if tokens == [] then None
    else
      var approved := Verdict(tokens[0]);
      if approved.None? then None
      else
        var args := NamedArguments(tokens, 1);
        var (actorId, runId, stepId) :=
          (Optional(args, "actor_id"), Optional(args, "run_id"), Optional(args, "step_id"));
        if actorId.None? || runId.None? || stepId.None? then None
        else
          var editedContent := if tokens[0] == "/submit" then None else Optional(args, "edited_content");
          Some(ResumeCommand(
            actorId.value, runId.value, stepId.value, NormalizeOptional(inbound.messageId), approved.value,
            ResolveUserInput(args, approved.value, editedContent), Metadata(inbound), editedContent,
            ResolveFeedback(args, approved.value)))
  }

  // ---- Printing and parsing undo each other ----

  /** No white space and no quotes. */
  predicate Plain(s: string) {
    forall i :: 0 <= i < |s| ==> !IsWhiteSpace(s[i]) && !IsQuote(s[i])
  }

  lemma {:induction false} AdvancePlain(c: Cursor, s: string)
    requires Plain(s) && c.quote == NO_QUOTE
    ensures AdvanceOver(c, s) == c.(current := c.current + s)
    decreases |s|
  {
    if s != "" {
      AdvancePlain(Advance(c, s[0]), s[1..]);
      assert c.current + [s[0]] + s[1..] == c.current + s;
    } else {
      assert c.current + s == c.current;
    }
  }

  lemma {:induction false} AdvanceQuoted(c: Cursor, s: string)
    requires '"' !in s && c.quote == '"'
    ensures AdvanceOver(c, s) == c.(current := c.current + s)
    decreases |s|
  {
    if s != "" {
      assert s[0] in s;
      AdvanceQuoted(Advance(c, s[0]), s[1..]);
      assert c.current + [s[0]] + s[1..] == c.current + s;
    } else {
      assert c.current + s == c.current;
    }
  }

  /** A plain word is its own token. */
  lemma PlainWord(a: string)
    requires Plain(a) && a != ""
    ensures AdvanceOver(START, a) == Cursor([], NO_QUOTE, a) && Tokens(a) == [a]
  {
    AdvancePlain(START, a);
    assert "" + a == a && a + "" == a;
    ScanSplits(START, a, "");
  }

  /** `key=pre"value"` is one token, without the quotes. */
  lemma QuotedWord(head: string, value: string)
    requires Plain(head) && head != "" && '"' !in value
    ensures Tokens(head + "\"" + value + "\"") == [head + value]
  {
    var c1 := Cursor([], NO_QUOTE, head);
    var c2 := Cursor([], '"', head);
    var c3 := Cursor([], '"', head + value);
    AdvancePlain(START, head);
    assert "" + head == head;
    AdvanceQuoted(c2, value);
    var text := head + "\"" + value + "\"";
    assert text == head + ("\"" + (value + "\""));
    ScanSplits(START, head, "\"" + (value + "\""));
    assert ("\"" + (value + "\""))[1..] == value + "\"";
    ScanSplits(c2, value, "\"");
    assert Scan("\"", '"', head + value) == [head + value];
  }

  function Spaced(words: seq<string>): string
    requires words != []
  {
    if |words| == 1 then words[0] else words[0] + " " + Spaced(words[1..])
  }

  lemma {:induction false} SpacedWords(words: seq<string>, last: string)
    requires forall w :: w in words ==> Plain(w) && w != ""
    ensures Tokens(Spaced(words + [last])) == words + Tokens(last)
  {
    if words == [] {
      assert words + [last] == [last];
    } else {
      var w := words[0];
      SpacedWords(words[1..], last);
      assert (words + [last])[1..] == words[1..] + [last];
      PlainWord(w);
      SplitsAtSpace(w, ' ', Spaced(words[1..] + [last]));
      assert w + " " + Spaced(words[1..] + [last]) == w + [' '] + Spaced(words[1..] + [last]);
    }
  }

  // ---- The arguments of a printed line ----

  predicate PlainId(id: string) {
    Plain(id) && id != ""
  }

  /** The argument keys are made of lower-case letters and underscores. */
  predicate IsKey(key: string) {
    key != "" && forall i :: 0 <= i < |key| ==> 'a' <= key[i] <= 'z' || key[i] == '_'
  }

  lemma KeyIsPlain(key: string)
    requires IsKey(key)
    ensures Plain(key) && '=' !in key && Lower(key) == key
  {
  }

  lemma KeysAreKeys()
    ensures IsKey("actor_id") && IsKey("run_id") && IsKey("step_id")
    ensures IsKey("edited_content") && IsKey("feedback") && IsKey("user_input")
  {
  }

  lemma ArgumentOf(values: Arguments, key: string, value: string)
    requires IsKey(key)
    ensures WithArgument(values, key + "=" + value)
         == if value == "" then values else values[key := Trim(value)]
  {
    KeyIsPlain(key);
    var token := key + "=" + value;
    var i := IndexOfChar(token, '=');
    assert token[|key|] == '=';
    assert forall j :: 0 <= j < |key| ==> token[j] == key[j] && key[j] in key;
    assert i == |key|;
    assert token[..i] == key && token[i + 1..] == value;
    TrimIsTrimmed(key, IsWhiteSpace);
  }

  const VERBS := {"/approve", "/reject", "/submit"}

  function IdWords(verb: string, request: HumanInteraction): seq<string> {
    [verb, "actor_id=" + request.actorId, "run_id=" + request.runId, "step_id=" + request.stepId]
  }

  function IdArguments(request: HumanInteraction): Arguments {
    map["actor_id" := request.actorId, "run_id" := request.runId, "step_id" := request.stepId]
  }

  predicate PlainRequest(request: HumanInteraction) {
    PlainId(request.actorId) && PlainId(request.runId) && PlainId(request.stepId)
  }

  lemma IdWordsArePlain(verb: string, request: HumanInteraction)
    requires verb in VERBS && PlainRequest(request)
    ensures forall w :: w in IdWords(verb, request) ==> Plain(w) && w != ""
  {
    assert Plain("/approve") && Plain("/reject") && Plain("/submit");
    assert Plain("actor_id=") && Plain("run_id=") && Plain("step_id=");
  }

  lemma PlainIdIsTrimmed(id: string)
    requires PlainId(id)
    ensures Trim(id) == id
  {
    TrimIsTrimmed(id, IsWhiteSpace);
  }

  /** One more printed argument. */
  lemma OneMoreArgument(words: seq<string>, args: Arguments, key: string, value: string)
    requires words != [] && NamedArguments(words, 1) == args && IsKey(key)
    ensures NamedArguments(words + [key + "=" + value], 1) == if value == "" then args else args[key := Trim(value)]
  {
    var last := key + "=" + value;
    var more := words + [last];
    assert more[..|more| - 1] == words && more[|more| - 1] == last;
    ArgumentOf(args, key, value);
  }

  lemma OneMoreId(words: seq<string>, args: Arguments, key: string, id: string)
    requires words != [] && NamedArguments(words, 1) == args && IsKey(key) && PlainId(id)
    ensures NamedArguments(words + [key + "=" + id], 1) == args[key := id]
  {
    OneMoreArgument(words, args, key, id);
    PlainIdIsTrimmed(id);
  }

  lemma IdWordsAre(verb: string, request: HumanInteraction)
    ensures IdWords(verb, request)
         == [verb] + ["actor_id" + "=" + request.actorId] + ["run_id" + "=" + request.runId] + ["step_id" + "=" + request.stepId]
  {
    assert "actor_id=" == "actor_id" + "=" && "run_id=" == "run_id" + "=" && "step_id=" == "step_id" + "=";
  }

  lemma IdArgumentsOf(verb: string, request: HumanInteraction)
    requires PlainRequest(request)
    ensures NamedArguments(IdWords(verb, request), 1) == IdArguments(request)
  {
    KeysAreKeys();
    IdWordsAre(verb, request);
    var words, args := [verb], map[];
    OneMoreId(words, args, "actor_id", request.actorId);
    words, args := words + ["actor_id" + "=" + request.actorId], args["actor_id" := request.actorId];
    OneMoreId(words, args, "run_id", request.runId);
    words, args := words + ["run_id" + "=" + request.runId], args["run_id" := request.runId];
    OneMoreId(words, args, "step_id", request.stepId);
  }

  /** The line printed for a request is its words with single spaces between them. */
  lemma LineIsSpaced(verb: string, request: HumanInteraction)
    ensures BuildCommand(verb, request, None) == Spaced(IdWords(verb, request)[..3] + [IdWords(verb, request)[3]])
  {
    var w := IdWords(verb, request);
    assert w[..3] + [w[3]] == w;
    assert Spaced(w[3..]) == w[3] && w[2..][1..] == w[3..] && w[1..][1..] == w[2..];
    assert Spaced(w[2..]) == w[2] + " " + w[3];
    assert Spaced(w[1..]) == w[1] + " " + Spaced(w[2..]);
    assert " actor_id=" == " " + "actor_id=" && " run_id=" == " " + "run_id=" && " step_id=" == " " + "step_id=";
  }

  lemma {:induction false} SpacedAppend(words: seq<string>, last: string)
    requires words != []
    ensures Spaced(words + [last]) == Spaced(words) + " " + last
  {
    assert (words + [last])[1..] == words[1..] + [last];
    if |words| > 1 {
      SpacedAppend(words[1..], last);
    }
  }

  lemma TokensOfLine(verb: string, request: HumanInteraction)
    requires verb in VERBS && PlainRequest(request)
    ensures Tokens(BuildCommand(verb, request, None)) == IdWords(verb, request)
  {
    var w := IdWords(verb, request);
    LineIsSpaced(verb, request);
    IdWordsArePlain(verb, request);
    assert w[3] in w && forall x :: x in w[..3] ==> x in w;
    SpacedWords(w[..3], w[3]);
    PlainWord(w[3]);
  }

  lemma TokensOfLineWith(verb: string, request: HumanInteraction, suffix: string)
    requires verb in VERBS && PlainRequest(request) && suffix != "" && TrimmedBy(suffix, IsWhiteSpace)
    ensures Tokens(BuildCommand(verb, request, Some(suffix))) == IdWords(verb, request) + Tokens(suffix)
  {
    var w := IdWords(verb, request);
    TrimIsTrimmed(suffix, IsWhiteSpace);
    LineIsSpaced(verb, request);
    assert w[..3] + [w[3]] == w;
    SpacedAppend(w, suffix);
    IdWordsArePlain(verb, request);
    SpacedWords(w, suffix);
  }

  /** The one optional argument that the port prints with each verb. */
  function KeyOf(verb: string): string {
    if verb == "/approve" then "edited_content" else if verb == "/reject" then "feedback" else "user_input"
  }

  /** The resume command that a verb with this value of its argument stands for. */
  function Intended(inbound: Inbound, verb: string, request: HumanInteraction, value: string): ResumeCommand {
    var given := NormalizeOptional(value);
    ResumeCommand(
      request.actorId, request.runId, request.stepId, NormalizeOptional(inbound.messageId),
      verb != "/reject", given, Metadata(inbound),
      if verb == "/approve" then given else None,
      if verb == "/approve" then None else given)
  }

  function GivenArguments(verb: string, request: HumanInteraction, value: string): Arguments {
    if value == "" then IdArguments(request) else IdArguments(request)[KeyOf(verb) := Trim(value)]
  }

  lemma GivenValue(verb: string, request: HumanInteraction, value: string)
    requires verb in VERBS && PlainRequest(request)
    ensures Optional(GivenArguments(verb, request, value), KeyOf(verb)) == NormalizeOptional(value)
  {
    TrimIsTrimmed(value, IsWhiteSpace);
    TrimIsTrimmed(Trim(value), IsWhiteSpace);
  }

  lemma GivenIds(verb: string, request: HumanInteraction, value: string)
    requires verb in VERBS && PlainRequest(request)
    ensures var args := GivenArguments(verb, request, value);
      && Optional(args, "actor_id") == Some(request.actorId) && Optional(args, "run_id") == Some(request.runId)
      && Optional(args, "step_id") == Some(request.stepId)
    ensures forall key :: key !in ["actor_id", "run_id", "step_id", KeyOf(verb)] ==>
              Optional(GivenArguments(verb, request, value), key) == None
  {
    PlainIdIsTrimmed(request.actorId);
    PlainIdIsTrimmed(request.runId);
    PlainIdIsTrimmed(request.stepId);
  }

  /** An argument given under the key of the verb alone ends up in the fields of the verb. */
  lemma ResolvedFields(verb: string, args: Arguments)
    requires verb in VERBS
    requires forall key :: key !in ["actor_id", "run_id", "step_id", KeyOf(verb)] ==> Optional(args, key) == None
    ensures var given := Optional(args, KeyOf(verb));
      var editedContent := if verb == "/submit" then None else Optional(args, "edited_content");
      && editedContent == (if verb == "/approve" then given else None)
      && ResolveUserInput(args, verb != "/reject", editedContent) == given
      && ResolveFeedback(args, verb != "/reject") == if verb == "/approve" then None else given
  {
    var others := ["actor_id", "run_id", "step_id", KeyOf(verb)];
    assert "value" !in others && "comment" !in others && "notes" !in others;
    assert verb != "/approve" ==> "edited_content" !in others;
    assert verb != "/reject" ==> "feedback" !in others;
    assert verb != "/submit" ==> "user_input" !in others;
  }

  lemma IntendedFromArguments(inbound: Inbound, verb: string, request: HumanInteraction, value: string)
    requires verb in VERBS && PlainRequest(request)
    requires var tokens := Tokens(inbound.text);
      tokens != [] && tokens[0] == verb && NamedArguments(tokens, 1) == GivenArguments(verb, request, value)
    ensures TryBuildWorkflowResumeCommand(inbound) == Some(Intended(inbound, verb, request, value))
  {
    GivenValue(verb, request, value);
    GivenIds(verb, request, value);
    ResolvedFields(verb, GivenArguments(verb, request, value));
  }

  lemma ArgumentsOfLineWith(verb: string, request: HumanInteraction, value: string)
    requires verb in VERBS && PlainRequest(request)
    ensures NamedArguments(IdWords(verb, request) + [KeyOf(verb) + "=" + value], 1) == GivenArguments(verb, request, value)
  {
    KeysAreKeys();
    IdArgumentsOf(verb, request);
    OneMoreArgument(IdWords(verb, request), IdArguments(request), KeyOf(verb), value);
  }

  /** A command printed without an argument parses back to the request, approved unless the verb is reject. */
  lemma PrintedCommandParses(inbound: Inbound, verb: string, request: HumanInteraction)
    requires verb in VERBS && PlainRequest(request) && inbound.text == BuildCommand(verb, request, None)
    ensures TryBuildWorkflowResumeCommand(inbound) == Some(Intended(inbound, verb, request, ""))
  {
    TokensOfLine(verb, request);
    IdArgumentsOf(verb, request);
    IntendedFromArguments(inbound, verb, request, "");
  }

  lemma QuotedSuffix(key: string, mark: string, value: string)
    requires IsKey(key) && Plain(mark) && '"' !in value
    ensures var suffix := key + "=" + mark + "\"" + value + "\"";
      suffix != "" && TrimmedBy(suffix, IsWhiteSpace) && Tokens(suffix) == [key + "=" + (mark + value)]
  {
    KeyIsPlain(key);
    QuotedWord(key + "=" + mark, value);
    assert key + "=" + mark + value == key + "=" + (mark + value);
  }

  /**
   The round trip: a command printed with its argument in double quotes parses back to the same ids, the
   right verdict, and the argument's trimmed value in the right fields.
   */
  lemma PrintedArgumentParses(inbound: Inbound, verb: string, request: HumanInteraction, value: string)
    requires verb in VERBS && PlainRequest(request) && '"' !in value
    requires inbound.text == BuildCommand(verb, request, Some(KeyOf(verb) + "=" + "\"" + value + "\""))
    ensures TryBuildWorkflowResumeCommand(inbound) == Some(Intended(inbound, verb, request, value))
  {
    KeysAreKeys();
    QuotedSuffix(KeyOf(verb), "", value);
    assert KeyOf(verb) + "=" + "" + "\"" == KeyOf(verb) + "=" + "\"" && "" + value == value;
    TokensOfLineWith(verb, request, KeyOf(verb) + "=" + "\"" + value + "\"");
    ArgumentsOfLineWith(verb, request, value);
    IntendedFromArguments(inbound, verb, request, value);
  }

  /**
   The fallback lines of the legacy markdown put a backslash before each quote. The parser knows no escapes:
   the value it reads is the advertised one between two backslashes, so this round trip never succeeds.
   */
  lemma LegacyMarkdownNeverRoundTrips(inbound: Inbound, verb: string, request: HumanInteraction, value: string)
    requires verb in VERBS && PlainRequest(request) && '"' !in value
    requires inbound.text == BuildCommand(verb, request, Some(KeyOf(verb) + "=" + "\\" + "\"" + value + "\\" + "\""))
    ensures TryBuildWorkflowResumeCommand(inbound) == Some(Intended(inbound, verb, request, "\\" + value + "\\"))
    ensures TryBuildWorkflowResumeCommand(inbound) != Some(Intended(inbound, verb, request, value))
  {
    KeysAreKeys();
    QuotedSuffix(KeyOf(verb), "\\", value + "\\");
    var read := "\\" + value + "\\";
    assert "\\" + (value + "\\") == read;
    var suffix := KeyOf(verb) + "=" + "\\" + "\"" + value + "\\" + "\"";
    assert suffix == KeyOf(verb) + "=" + "\\" + "\"" + (value + "\\") + "\"";
    TokensOfLineWith(verb, request, suffix);
    ArgumentsOfLineWith(verb, request, read);
    IntendedFromArguments(inbound, verb, request, read);
    TrimIsTrimmed(read, IsWhiteSpace);
    TrimIsTrimmed(value, IsWhiteSpace);
  }

  // ---- The resume command of any text ----

  const APPROVAL_FEEDBACK_KEYS := ["comment", "user_input", "notes"]
  const REJECTION_FEEDBACK_KEYS := ["feedback", "comment", "user_input", "notes"]
  const APPROVAL_INPUT_KEYS := ["user_input", "value", "comment", "notes"]
  const REJECTION_INPUT_KEYS := ["user_input", "value", "feedback", "user_input", "comment", "notes"]

  /** The argument has a value that is not blank. */
  predicate Given(values: Arguments, key: string) {
    key in values && !IsBlank(values[key])
  }

  /** The trimmed value of the first of the keys that is given, if one is. */
  ghost predicate FirstGiven(values: Arguments, keys: seq<string>, found: Option<string>) {
    if found.None? then forall k :: 0 <= k < |keys| ==> !Given(values, keys[k])
    else exists k :: 0 <= k < |keys| && GivenFirst(values, keys, k) && found.value == Trim(values[keys[k]])
  }

  ghost predicate GivenFirst(values: Arguments, keys: seq<string>, k: nat)
    requires k < |keys|
  {
    Given(values, keys[k]) && forall j :: 0 <= j < k ==> !Given(values, keys[j])
  }

  /** The loop over the keys, as a chain of alternatives. */
  function FirstOf(values: Arguments, keys: seq<string>): Option<string> {
    if keys == [] then None else OrElse(Optional(values, keys[0]), FirstOf(values, keys[1..]))
  }

  lemma OptionalIs(values: Arguments, key: string)
    ensures Optional(values, key) == if Given(values, key) then Some(Trim(values[key])) else None
  {
    if key in values {
      TrimBlank(values[key]);
    }
  }

  lemma {:induction false} FirstOfIs(values: Arguments, keys: seq<string>)
    ensures FirstGiven(values, keys, FirstOf(values, keys))
  {
    if keys != [] {
      OptionalIs(values, keys[0]);
      FirstOfIs(values, keys[1..]);
      var found := FirstOf(values, keys[1..]);
      if Given(values, keys[0]) {
        assert GivenFirst(values, keys, 0);
      } else if found.Some? {
        var k :| 0 <= k < |keys[1..]| && GivenFirst(values, keys[1..], k) && found.value == Trim(values[keys[1..][k]]);
        forall j | 0 <= j < k + 1
          ensures !Given(values, keys[j])
        {
          assert j > 0 ==> !Given(values, keys[1..][j - 1]);
        }
        assert GivenFirst(values, keys, k + 1);
      } else {
        forall k | 0 <= k < |keys|
          ensures !Given(values, keys[k])
        {
          assert k > 0 ==> !Given(values, keys[1..][k - 1]);
        }
      }
    }
  }

  lemma FirstGivenIsOne(values: Arguments, keys: seq<string>, a: Option<string>, b: Option<string>)
    requires FirstGiven(values, keys, a) && FirstGiven(values, keys, b)
    ensures a == b
  {
    if a.Some? && b.Some? {
      var i :| 0 <= i < |keys| && GivenFirst(values, keys, i) && a.value == Trim(values[keys[i]]);
      var k :| 0 <= k < |keys| && GivenFirst(values, keys, k) && b.value == Trim(values[keys[k]]);
      assert i == k;
    }
  }

  lemma FourKeys(values: Arguments, keys: seq<string>)
    requires |keys| == 4
    ensures FirstOf(values, keys) == OrElse(Optional(values, keys[0]), OrElse(Optional(values, keys[1]),
                                     OrElse(Optional(values, keys[2]), Optional(values, keys[3]))))
    ensures FirstOf(values, keys[1..]) == OrElse(Optional(values, keys[1]), OrElse(Optional(values, keys[2]),
                                          Optional(values, keys[3])))
  {
    var (a, b, c) := (keys[1..], keys[2..], keys[3..]);
    assert a[1..] == b && b[1..] == c && c[1..] == [];
    assert FirstOf(values, c) == OrElse(Optional(values, keys[3]), FirstOf(values, []));
    assert FirstOf(values, b) == OrElse(Optional(values, keys[2]), FirstOf(values, c));
    assert FirstOf(values, a) == OrElse(Optional(values, keys[1]), FirstOf(values, b));
  }

  /** For any arguments: the feedback is the first of the verdict's keys that is given, and none if none is. */
  lemma FeedbackExactly(values: Arguments, approved: bool, feedback: Option<string>)
    ensures ResolveFeedback(values, approved) == feedback
       <==> FirstGiven(values, if approved then APPROVAL_FEEDBACK_KEYS else REJECTION_FEEDBACK_KEYS, feedback)
  {
    var keys := if approved then APPROVAL_FEEDBACK_KEYS else REJECTION_FEEDBACK_KEYS;
    FourKeys(values, REJECTION_FEEDBACK_KEYS);
    assert REJECTION_FEEDBACK_KEYS[1..] == APPROVAL_FEEDBACK_KEYS;
    FirstOfIs(values, keys);
    assert ResolveFeedback(values, approved) == FirstOf(values, keys);
    if FirstGiven(values, keys, feedback) {
      FirstGivenIsOne(values, keys, feedback, FirstOf(values, keys));
    }
  }

  lemma SixKeys(values: Arguments, keys: seq<string>)
    requires |keys| == 6
    ensures FirstOf(values, keys)
         == OrElse(Optional(values, keys[0]), OrElse(Optional(values, keys[1]), FirstOf(values, keys[2..])))
  {
    assert keys[1..][1..] == keys[2..];
    assert FirstOf(values, keys[1..]) == OrElse(Optional(values, keys[1]), FirstOf(values, keys[2..]));
  }

  /**
   For any arguments: the user input is the edited content when it is approved and there is one, and otherwise the
   first of the verdict's keys that is given, and none if none is.
   */
  lemma UserInputExactly(values: Arguments, approved: bool, editedContent: Option<string>, input: Option<string>)
    ensures ResolveUserInput(values, approved, editedContent) == input
       <==> if approved && editedContent.Some? then input == editedContent
            else FirstGiven(values, if approved then APPROVAL_INPUT_KEYS else REJECTION_INPUT_KEYS, input)
  {
    if !(approved && editedContent.Some?) {
      var keys := if approved then APPROVAL_INPUT_KEYS else REJECTION_INPUT_KEYS;
      FourKeys(values, APPROVAL_INPUT_KEYS);
      SixKeys(values, REJECTION_INPUT_KEYS);
      assert REJECTION_INPUT_KEYS[2..] == ["feedback", "user_input", "comment", "notes"];
      FourKeys(values, ["feedback", "user_input", "comment", "notes"]);
      FirstOfIs(values, keys);
      assert ResolveUserInput(values, approved, editedContent) == FirstOf(values, keys);
      if FirstGiven(values, keys, input) {
        FirstGivenIsOne(values, keys, input, FirstOf(values, keys));
      }
    }
  }

  /** What the metadata of a command holds, key by key. */
  predicate Describes(metadata: map<string, string>, inbound: Inbound) {
    && metadata.Keys == {"channel.platform", "channel.conversation_id"}
                        + (if IsBlank(inbound.messageId) then {} else {"channel.message_id"})
    && metadata["channel.platform"] == inbound.platform
    && metadata["channel.conversation_id"] == inbound.conversationId
    && (!IsBlank(inbound.messageId) ==> metadata["channel.message_id"] == inbound.messageId)
  }

  /** The command that the tokens and arguments of a text stand for, field by field. */
  ghost predicate Resumes(c: ResumeCommand, inbound: Inbound, verb: string, values: Arguments)
    requires Given(values, "actor_id") && Given(values, "run_id") && Given(values, "step_id")
  {
    && c.actorId == Trim(values["actor_id"]) && c.runId == Trim(values["run_id"]) && c.stepId == Trim(values["step_id"])
    && c.commandId == (if IsBlank(inbound.messageId) then None else Some(Trim(inbound.messageId)))
    && c.approved == (verb != "/reject") && Describes(c.metadata, inbound)
    && FirstGiven(values, if verb == "/submit" then [] else ["edited_content"], c.editedContent)
    && FirstGiven(values, if c.approved then APPROVAL_FEEDBACK_KEYS else REJECTION_FEEDBACK_KEYS, c.feedback)
    && (if c.approved && c.editedContent.Some? then c.userInput == c.editedContent
        else FirstGiven(values, if c.approved then APPROVAL_INPUT_KEYS else REJECTION_INPUT_KEYS, c.userInput))
  }

  lemma EditedContentIs(values: Arguments, verb: string)
    ensures FirstGiven(values, if verb == "/submit" then [] else ["edited_content"],
                       if verb == "/submit" then None else Optional(values, "edited_content"))
  {
    OptionalIs(values, "edited_content");
    assert Given(values, "edited_content") ==> GivenFirst(values, ["edited_content"], 0);
  }

  /**
   Any text is a resume command if and only if its first token is one of the verbs and the three ids are given; then
   each field is what `Resumes` says.
   */
  lemma ResumeCommandExactly(inbound: Inbound)
    ensures var tokens := Tokens(inbound.text); var built := TryBuildWorkflowResumeCommand(inbound);
      && (built.Some? <==>
            && tokens != [] && tokens[0] in VERBS
            && var values := NamedArguments(tokens, 1);
               Given(values, "actor_id") && Given(values, "run_id") && Given(values, "step_id"))
      && (built.Some? ==> Resumes(built.value, inbound, tokens[0], NamedArguments(tokens, 1)))
  {
    var tokens := Tokens(inbound.text);
    if tokens != [] {
      var values := NamedArguments(tokens, 1);
      OptionalIs(values, "actor_id");
      OptionalIs(values, "run_id");
      OptionalIs(values, "step_id");
      TrimBlank(inbound.messageId);
      EditedContentIs(values, tokens[0]);
      var built := TryBuildWorkflowResumeCommand(inbound);
      if built.Some? {
        FeedbackExactly(values, built.value.approved, built.value.feedback);
        UserInputExactly(values, built.value.approved, built.value.editedContent, built.value.userInput);
      }
    }
  }
}
