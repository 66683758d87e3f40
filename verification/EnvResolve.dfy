/** The merge and the validation of the video configuration: the process environment wins over the file,
    and every broken rule is collected before anything is refused. */
module EnvResolve {
  import opened Collections
  import opened Common
  import opened EnvFile
  import opened Text
  import opened Utf8

  /** What depends on Unicode tables and settings: str.isdigit of one character, the decimal value of a
      character that has one, str.lower, the number of digits int takes at most, and the secrets that
      count as placeholders. */
  datatype Host = Host(
    isDigit: char -> bool, decimal: char -> Option<nat>, lower: string -> string, maxDigits: Option<nat>,
    placeholders: set<string>)

  datatype Mode = ForcedTurn | Direct

  /** The env file: none asked for, no such file, one that cannot be read, or its bytes. */
  datatype Source = NotGiven | Missing | Unreadable | Content(bytes: seq<byte>)

  datatype Problem =
    | Required(name: string)
    | PlaceholderSecret(secret: string)
    | SecretTooShort
    | ApiKeyCharacters
    | WebhookPath
    | WebhookScheme
    | TtlNotPositive
    | PortOutOfRange

  datatype Refusal = FileNotFound | NotKeyValueLine(number: nat) | Broke(problems: seq<Problem>)

  datatype Outcome = Resolved(values: map<string, string>) | RenderError(refusal: Refusal) | ValueError | OsError

  const COMMON_VARS := [
    "LIVEKIT_API_KEY", "LIVEKIT_API_SECRET", "TURN_PUBLIC_HOST", "TURN_PUBLIC_PORT", "TURN_REALM",
    "TURN_EXTERNAL_IP", "TURN_STATIC_AUTH_SECRET", "TURN_CREDENTIAL_TTL_SECONDS", "VIDEO_WEBHOOK_URL"]

  const SECRET_VARS := ["LIVEKIT_API_SECRET", "TURN_STATIC_AUTH_SECRET"]

  const TTL := "TURN_CREDENTIAL_TTL_SECONDS"
  const PORT := "TURN_PUBLIC_PORT"

  const WEBHOOK_PATH := "/api/v1/video/webhook"

  function RequiredVars(mode: Mode): seq<string> {
    COMMON_VARS + if mode.Direct? then ["LIVEKIT_ADVERTISE_IP"] else []
  }

  // ----- merging -----

  predicate Overrides(environ: map<string, string>, name: string) {
    name in environ && environ[name] != ""
  }

  function Merge(file: map<string, string>, environ: map<string, string>, names: seq<string>): map<string, string> {
    if names == [] then file
    else
      var last := names[|names| - 1];
      var merged := Merge(file, environ, names[..|names| - 1]);
      if Overrides(environ, last) then merged[last := environ[last]] else merged
  }

  /** A required name has its nonempty process value if there is one; it, and every other name, has its
      file value otherwise. */
  lemma {:induction false} ProcessValueWins(file: map<string, string>, environ: map<string, string>,
                                            names: seq<string>, name: string)
    ensures var merged := Merge(file, environ, names);
            if name in names && Overrides(environ, name) then name in merged && merged[name] == environ[name]
            else (name in merged <==> name in file) && (name in file ==> merged[name] == file[name])
  {
    if names != [] {
      ProcessValueWins(file, environ, names[..|names| - 1], name);
      assert names == names[..|names| - 1] + [names[|names| - 1]];
    }
  }

  // ----- the rules -----

  /** `(merged.get(name) or "").strip()`. */
  function Setting(merged: map<string, string>, name: string): (value: string)
    ensures Trimmed(value)
  {
    if name in merged then Strip(merged[name]) else ""
  }

  predicate IsDigits(host: Host, s: string) {
    s != "" && forall i :: 0 <= i < |s| ==> host.isDigit(s[i])
  }

  function NumberOf(host: Host, s: string): nat {
    if s == [] then 0 else NumberOf(host, s[..|s| - 1]) * 10 + host.decimal(s[|s| - 1]).GetOr(0)
  }

  /** int of a text of digits; None where it raises. */
  function Int(host: Host, s: string): Option<nat> {
    if (forall i :: 0 <= i < |s| ==> host.decimal(s[i]).Some?) && (host.maxDigits.Some? ==> |s| <= host.maxDigits.value)
    then Some(NumberOf(host, s))
    else None
  }

  datatype Checked = Valid | Invalid | Raises

  /** One numeric setting; a blank one is not checked. */
  function CheckText(host: Host, text: string, high: Option<nat>): Checked {
    if text == "" then Valid
    else if !IsDigits(host, text) then Invalid
    else
      match Int(host, text)
      case None => Raises
      case Some(n) => if 1 <= n && (high.Some? ==> n <= high.value) then Valid else Invalid
  }

  const HIGHEST_PORT := 65535

  /** The pattern of a YAML key; its value is trimmed, so $ matches at the end only. */
  predicate Identifier(s: string) {
    s != "" && forall i :: 0 <= i < |s| ==>
      'A' <= s[i] <= 'Z' || 'a' <= s[i] <= 'z' || '0' <= s[i] <= '9' || s[i] == '_' || s[i] == '.' || s[i] == '-'
  }

  function RStripSlashes(s: string): string {
    if s != "" && s[|s| - 1] == '/' then RStripSlashes(s[..|s| - 1]) else s
  }

  predicate Broken(host: Host, merged: map<string, string>, p: Problem) {
    match p
    case Required(name) => Setting(merged, name) == ""
    case PlaceholderSecret(name) =>
      Setting(merged, name) != "" && host.lower(Setting(merged, name)) in host.placeholders
    case SecretTooShort => 0 < |Setting(merged, "LIVEKIT_API_SECRET")| < 16
    case ApiKeyCharacters =>
      Setting(merged, "LIVEKIT_API_KEY") != "" && !Identifier(Setting(merged, "LIVEKIT_API_KEY"))
    case WebhookPath =>
      var url := Setting(merged, "VIDEO_WEBHOOK_URL");
      url != "" && !EndsWith(RStripSlashes(url), WEBHOOK_PATH)
    case WebhookScheme =>
      var url := Setting(merged, "VIDEO_WEBHOOK_URL");
      url != "" && !StartsWith(url, "http://") && !StartsWith(url, "https://")
    case TtlNotPositive => CheckText(host, Setting(merged, TTL), None) != Valid
    case PortOutOfRange => CheckText(host, Setting(merged, PORT), Some(HIGHEST_PORT)) != Valid
  }

  const LIVEKIT_RULES := [SecretTooShort, ApiKeyCharacters]
  const WEBHOOK_RULES := [WebhookPath, WebhookScheme]
  const NUMBER_RULES := [TtlNotPositive, PortOutOfRange]

  /** The rules of a mode, in the order they are checked. */
  function Rules(mode: Mode): seq<Problem> {
    RequiredRules(RequiredVars(mode)) + SecretRules(SECRET_VARS) + LIVEKIT_RULES + WEBHOOK_RULES + NUMBER_RULES
  }

  function RequiredRules(names: seq<string>): (rules: seq<Problem>)
    ensures |rules| == |names| && forall i :: 0 <= i < |rules| ==> rules[i] == Required(names[i])
  {
    seq(|names|, i requires 0 <= i < |names| => Required(names[i]))
  }

  function SecretRules(names: seq<string>): (rules: seq<Problem>)
    ensures |rules| == |names| && forall i :: 0 <= i < |rules| ==> rules[i] == PlaceholderSecret(names[i])
  {
    seq(|names|, i requires 0 <= i < |names| => PlaceholderSecret(names[i]))
  }

  function Problems(host: Host, merged: map<string, string>, rules: seq<Problem>): seq<Problem> {
    Filter(rules, p => Broken(host, merged, p))
  }

  /** The checks on the merged settings. */
  function Validate(host: Host, merged: map<string, string>, mode: Mode): Outcome {
    if CheckText(host, Setting(merged, TTL), None).Raises? then ValueError
    else if CheckText(host, Setting(merged, PORT), Some(HIGHEST_PORT)).Raises? then ValueError
    else
      var problems := Problems(host, merged, Rules(mode));
      if problems == [] then Resolved(merged) else RenderError(Broke(problems))
  }

  datatype Read = File(values: map<string, string>) | Stop(outcome: Outcome)

  function ReadFile(source: Source): Read {
    match source
    case NotGiven => File(map[])
    case Missing => Stop(RenderError(FileNotFound))
    case Unreadable => Stop(OsError)
    case Content(bytes) =>
      match Decode(bytes)
      case None => Stop(ValueError)
      case Some(text) =>
        match LoadText(text)
        case BadLine(number) => Stop(RenderError(NotKeyValueLine(number)))
        case Values(values) => File(values)
  }

  /** The file's dictionary with the process environment merged in, or why there is none. */
  function Merged(source: Source, environ: map<string, string>, names: seq<string>): Read {
    match ReadFile(source)
    case Stop(outcome) => Stop(outcome)
    case File(file) => File(Merge(file, environ, names))
  }

  function ResolveOutcome(host: Host, source: Source, environ: map<string, string>, mode: Mode): Outcome {
    match Merged(source, environ, RequiredVars(mode))
    case Stop(outcome) => outcome
    case File(merged) => Validate(host, merged, mode)
  }

  // ----- the loops -----

  method MergeSources(source: Source, environ: map<string, string>, names: seq<string>) returns (merged: Read)
    ensures merged == Merged(source, environ, names)
  {
    var values: map<string, string> := map[];
    match source {
      case NotGiven =>
      case Missing => return Stop(RenderError(FileNotFound));
      case Unreadable => return Stop(OsError);
      case Content(bytes) =>
        var text := Decode(bytes);
        if text.None? { return Stop(ValueError); }
        var loaded := LoadEnvFile(text.value);
        if loaded.BadLine? { return Stop(RenderError(NotKeyValueLine(loaded.number))); }
        values := loaded.values;
    }
    ghost var file := values;
    for i := 0 to |names|
      invariant values == Merge(file, environ, names[..i])
    {
      assert names[..i + 1][..i] == names[..i];
      if names[i] in environ && environ[names[i]] != "" { values := values[names[i] := environ[names[i]]]; }
    }
    assert names[..|names|] == names;
    merged := File(values);
  }

  method CheckRequired(host: Host, merged: map<string, string>, names: seq<string>) returns (problems: seq<Problem>)
    ensures problems == Problems(host, merged, RequiredRules(names))
  {
    ghost var rules := RequiredRules(names);
    ghost var broken := p => Broken(host, merged, p);
    problems := [];
    for i := 0 to |names|
      invariant problems == Filter(rules[..i], broken)
    {
      FilterStep(rules, i, broken);
      if Setting(merged, names[i]) == "" { problems := problems + [Required(names[i])]; }
    }
    assert rules[..|rules|] == rules;
  }

  method CheckPlaceholders(host: Host, merged: map<string, string>, names: seq<string>) returns (problems: seq<Problem>)
    ensures problems == Problems(host, merged, SecretRules(names))
  {
    ghost var rules := SecretRules(names);
    ghost var broken := p => Broken(host, merged, p);
    problems := [];
    for i := 0 to |names|
      invariant problems == Filter(rules[..i], broken)
    {
      FilterStep(rules, i, broken);
      var value := Setting(merged, names[i]);
      if value != "" && host.lower(value) in host.placeholders { problems := problems + [PlaceholderSecret(names[i])]; }
    }
    assert rules[..|rules|] == rules;
  }

  function Found(host: Host, merged: map<string, string>, p: Problem): seq<Problem> {
    if Broken(host, merged, p) then [p] else []
  }

  lemma TwoProblems(host: Host, merged: map<string, string>, p: Problem, q: Problem)
    ensures Problems(host, merged, [p, q]) == Found(host, merged, p) + Found(host, merged, q)
  {
    var broken := r => Broken(host, merged, r);
    FilterOne(p, broken);
    FilterOne(q, broken);
    FilterAppend([p], [q], broken);
    assert [p, q] == [p] + [q];
  }

  method CheckLivekit(host: Host, merged: map<string, string>) returns (problems: seq<Problem>)
    ensures problems == Problems(host, merged, LIVEKIT_RULES)
  {
    TwoProblems(host, merged, SecretTooShort, ApiKeyCharacters);
    problems := [];
    var secret := Setting(merged, "LIVEKIT_API_SECRET");
    if secret != "" && |secret| < 16 { problems := problems + [SecretTooShort]; }
    var apiKey := Setting(merged, "LIVEKIT_API_KEY");
    if apiKey != "" && !Identifier(apiKey) { problems := problems + [ApiKeyCharacters]; }
  }

  method CheckWebhook(host: Host, merged: map<string, string>) returns (problems: seq<Problem>)
    ensures problems == Problems(host, merged, WEBHOOK_RULES)
  {
    TwoProblems(host, merged, WebhookPath, WebhookScheme);
    problems := [];
    var url := Setting(merged, "VIDEO_WEBHOOK_URL");
    if url != "" && !EndsWith(RStripSlashes(url), WEBHOOK_PATH) { problems := problems + [WebhookPath]; }
    if url != "" && !(StartsWith(url, "http://") || StartsWith(url, "https://")) {
      problems := problems + [WebhookScheme];
    }
  }

  /** None when int raises. */
  method CheckNumbers(host: Host, merged: map<string, string>) returns (problems: Option<seq<Problem>>)
    ensures problems.None? <==>
            || CheckText(host, Setting(merged, TTL), None).Raises?
            || CheckText(host, Setting(merged, PORT), Some(HIGHEST_PORT)).Raises?
    ensures problems.Some? ==> problems.value == Problems(host, merged, NUMBER_RULES)
  {
    TwoProblems(host, merged, TtlNotPositive, PortOutOfRange);
    var found := [];
    var ttl := Setting(merged, TTL);
    if ttl != "" {
      var positive := IsDigits(host, ttl);
      if positive {
        var number := Int(host, ttl);
        if number.None? { return None; }
        positive := number.value > 0;
      }
      if !positive { found := found + [TtlNotPositive]; }
    }
    var port := Setting(merged, PORT);
    if port != "" {
      var inRange := IsDigits(host, port);
      if inRange {
        var number := Int(host, port);
        if number.None? { return None; }
        inRange := 1 <= number.value <= HIGHEST_PORT;
      }
      if !inRange { found := found + [PortOutOfRange]; }
    }
    problems := Some(found);
  }

  lemma ProblemsAppend(host: Host, merged: map<string, string>, rules: seq<Problem>, more: seq<Problem>)
    ensures Problems(host, merged, rules + more) == Problems(host, merged, rules) + Problems(host, merged, more)
  {
    FilterAppend(rules, more, p => Broken(host, merged, p));
  }

  lemma RulesSplit(host: Host, merged: map<string, string>, mode: Mode)
    ensures Problems(host, merged, Rules(mode)) ==
            Problems(host, merged, RequiredRules(RequiredVars(mode))) + Problems(host, merged, SecretRules(SECRET_VARS))
            + Problems(host, merged, LIVEKIT_RULES) + Problems(host, merged, WEBHOOK_RULES)
            + Problems(host, merged, NUMBER_RULES)
  {
    FiveLists(host, merged, RequiredRules(RequiredVars(mode)), SecretRules(SECRET_VARS),
              LIVEKIT_RULES, WEBHOOK_RULES, NUMBER_RULES);
  }

  lemma FiveLists(host: Host, merged: map<string, string>,
                  a: seq<Problem>, b: seq<Problem>, c: seq<Problem>, d: seq<Problem>, e: seq<Problem>)
    ensures Problems(host, merged, a + b + c + d + e) ==
            Problems(host, merged, a) + Problems(host, merged, b) + Problems(host, merged, c)
            + Problems(host, merged, d) + Problems(host, merged, e)
  {
    ProblemsAppend(host, merged, a, b);
    ProblemsAppend(host, merged, a + b, c);
    ProblemsAppend(host, merged, a + b + c, d);
    ProblemsAppend(host, merged, a + b + c + d, e);
  }

  method Resolve(host: Host, source: Source, environ: map<string, string>, mode: Mode) returns (outcome: Outcome)
    ensures outcome == ResolveOutcome(host, source, environ, mode)
  {
    var sources := MergeSources(source, environ, RequiredVars(mode));
    if sources.Stop? { return sources.outcome; }
    var merged := sources.values;
    var problems := CheckRequired(host, merged, RequiredVars(mode));
    var more := CheckPlaceholders(host, merged, SECRET_VARS);
    problems := problems + more;
    more := CheckLivekit(host, merged);
    problems := problems + more;
    more := CheckWebhook(host, merged);
    problems := problems + more;
    var numbers := CheckNumbers(host, merged);
    if numbers.None? { return ValueError; }
    problems := problems + numbers.value;
    RulesSplit(host, merged, mode);
    outcome := if problems == [] then Resolved(merged) else RenderError(Broke(problems));
  }

  // ----- what resolving promises -----

  /** What a required setting comes to, from the file and the process environment. */
  function Final(file: map<string, string>, environ: map<string, string>, name: string): string {
    if Overrides(environ, name) then Strip(environ[name]) else Setting(file, name)
  }

  lemma FinalSetting(file: map<string, string>, environ: map<string, string>, mode: Mode, name: string)
    requires name in RequiredVars(mode)
    ensures Setting(Merge(file, environ, RequiredVars(mode)), name) == Final(file, environ, name)
  {
    ProcessValueWins(file, environ, RequiredVars(mode), name);
  }

  lemma NumericVars(mode: Mode)
    ensures TTL in RequiredVars(mode) && PORT in RequiredVars(mode)
  {
    assert COMMON_VARS[7] == TTL && COMMON_VARS[3] == PORT;
    assert TTL in COMMON_VARS && PORT in COMMON_VARS;
  }

  /** Every character is a digit, but some is not decimal, such as a superscript two, or there are more of
      them than int takes. */
  predicate NoNumber(host: Host, s: string) {
    && s != "" && (forall i :: 0 <= i < |s| ==> host.isDigit(s[i]))
    && ((exists i :: 0 <= i < |s| && host.decimal(s[i]).None?) || (host.maxDigits.Some? && |s| > host.maxDigits.value))
  }

  lemma RaisesOnCharacters(host: Host, s: string, high: Option<nat>)
    ensures CheckText(host, s, high).Raises? <==> NoNumber(host, s)
  {
  }

  predicate SomeRuleBroken(host: Host, merged: map<string, string>, mode: Mode) {
    exists p :: p in Rules(mode) && Broken(host, merged, p)
  }

  lemma RaisingBreaksARule(host: Host, merged: map<string, string>, mode: Mode)
    requires Validate(host, merged, mode) == ValueError
    ensures SomeRuleBroken(host, merged, mode)
  {
    assert NUMBER_RULES[0] == TtlNotPositive && NUMBER_RULES[1] == PortOutOfRange;
    assert TtlNotPositive in Rules(mode) && PortOutOfRange in Rules(mode);
    assert Broken(host, merged, TtlNotPositive) || Broken(host, merged, PortOutOfRange);
  }

  lemma ValidateExactly(host: Host, merged: map<string, string>, mode: Mode)
    ensures var outcome := Validate(host, merged, mode);
            && (outcome == Resolved(merged) <==> !SomeRuleBroken(host, merged, mode))
            && outcome != OsError && (outcome.Resolved? ==> outcome.values == merged)
            && (outcome == ValueError <==>
                NoNumber(host, Setting(merged, TTL)) || NoNumber(host, Setting(merged, PORT)))
            && (outcome.RenderError? ==>
                  && outcome.refusal.Broke?
                  && forall p :: p in outcome.refusal.problems <==> p in Rules(mode) && Broken(host, merged, p))
  {
    RaisesOnCharacters(host, Setting(merged, TTL), None);
    RaisesOnCharacters(host, Setting(merged, PORT), Some(HIGHEST_PORT));
    if Validate(host, merged, mode) == ValueError { RaisingBreaksARule(host, merged, mode); }
    var problems := Problems(host, merged, Rules(mode));
    if problems != [] { assert problems[0] in problems; }
  }

  /** What reading the file comes to. */
  lemma ReadExactly(source: Source)
    ensures ReadFile(source) == Stop(ValueError) <==> source.Content? && NotUtf8(source.bytes)
    ensures ReadFile(source) == Stop(OsError) <==> source.Unreadable?
    ensures ReadFile(source).Stop? ==> !ReadFile(source).outcome.Resolved?
    ensures ReadFile(source).Stop? && ReadFile(source).outcome.RenderError? <==>
            source.Missing? || (source.Content? && exists text :: BadFile(source.bytes, text))
  {
    if source.Content? {
      RefusedExactly(source.bytes);
      var decoded := Decode(source.bytes);
      if decoded.Some? {
        DecodeExactly(source.bytes, decoded.value);
        assert LoadText(decoded.value).BadLine? <==> BadFile(source.bytes, decoded.value);
        forall text | BadFile(source.bytes, text) ensures text == decoded.value {
          DecodeExactly(source.bytes, text);
        }
      } else {
        forall text ensures !BadFile(source.bytes, text) { }
      }
    }
  }

  /** The bytes of a text with a line that is neither blank, nor a comment, nor an assignment. */
  predicate BadFile(bytes: seq<byte>, text: string) {
    bytes == Encode(text) && LoadText(text).BadLine?
  }

  lemma ReadEncoded(text: string, values: map<string, string>)
    requires LoadText(text) == Values(values)
    ensures ReadFile(Content(Encode(text))) == File(values)
  {
    DecodeUndoesEncode(text);
    ReadDecoded(Encode(text), text, values);
  }

  lemma ReadDecoded(bytes: seq<byte>, text: string, values: map<string, string>)
    requires Decode(bytes) == Some(text) && LoadText(text) == Values(values)
    ensures ReadFile(Content(bytes)) == File(values)
  {
  }

  /** A file printed from readable entries and encoded gives exactly their dictionary. */
  lemma ReadUndoesPrint(entries: seq<Entry>)
    requires forall i :: 0 <= i < |entries| ==>
               Readable(entries[i]) && OneLine(entries[i].name) && OneLine(entries[i].value)
    ensures ReadFile(Content(Encode(PrintFile(entries)))) == File(Dictionary(entries))
  {
    LoadUndoesPrint(entries);
    ReadEncoded(PrintFile(entries), Dictionary(entries));
  }

  /** From the file and the environment: a ValueError escapes exactly when the file is not UTF-8, or when
      it loads and one of the two numeric settings is made of digits that are no number; an OSError exactly
      when the file cannot be read. Otherwise the values are returned exactly when no rule is broken, and
      everything else is the RenderError that is promised, naming exactly the broken rules. */
  lemma RaisesExactly(host: Host, source: Source, environ: map<string, string>, mode: Mode)
    ensures var outcome := ResolveOutcome(host, source, environ, mode);
            var read := ReadFile(source);
            && (outcome == ValueError <==>
                || (source.Content? && NotUtf8(source.bytes))
                || (read.File? && (NoNumber(host, Final(read.values, environ, TTL))
                                   || NoNumber(host, Final(read.values, environ, PORT)))))
            && (outcome == OsError <==> source.Unreadable?)
            && (outcome.Resolved? <==>
                read.File? && !SomeRuleBroken(host, Merge(read.values, environ, RequiredVars(mode)), mode))
            && (outcome.RenderError? && outcome.refusal.Broke? ==>
                  && read.File?
                  && var merged := Merge(read.values, environ, RequiredVars(mode));
                     forall p :: p in outcome.refusal.problems <==> p in Rules(mode) && Broken(host, merged, p))
  {
    ReadExactly(source);
    if ReadFile(source).File? {
      var file := ReadFile(source).values;
      NumericVars(mode);
      FinalSetting(file, environ, mode, TTL);
      FinalSetting(file, environ, mode, PORT);
      ValidateExactly(host, Merge(file, environ, RequiredVars(mode)), mode);
    }
  }

  /** An input of the first kind: with any file that loads and any other settings, a credential lifetime
      of superscript two, which Unicode makes a digit without decimal value. */
  lemma SuperscriptTtlEscapes(host: Host, source: Source, environ: map<string, string>, mode: Mode)
    requires host.isDigit('\U{B2}') && host.decimal('\U{B2}').None?
    requires ReadFile(source).File? && TTL in environ && environ[TTL] == "\U{B2}"
    ensures ResolveOutcome(host, source, environ, mode) == ValueError
  {
    RaisesExactly(host, source, environ, mode);
    SuperscriptIsNoNumber(host);
  }

  lemma SuperscriptIsNoNumber(host: Host)
    requires host.isDigit('\U{B2}') && host.decimal('\U{B2}').None?
    ensures NoNumber(host, Strip("\U{B2}"))
  {
    var s := "\U{B2}";
    assert Trimmed(s) && Strip(s) == s && s[0] == '\U{B2}';
  }

  /** And one of the other: whatever the environment, a file that starts with a byte UTF-8 never uses. */
  lemma UndecodableFileEscapes(host: Host, rest: seq<byte>, environ: map<string, string>, mode: Mode)
    ensures ResolveOutcome(host, Content([0xFF] + rest), environ, mode) == ValueError
  {
    assert DecodeFirst([0xFF] + rest) == None;
  }

  /** A secret that lowers to a placeholder is never let through. */
  lemma PlaceholdersAreRefused(host: Host, source: Source, environ: map<string, string>, mode: Mode, name: string)
    requires name in SECRET_VARS && ReadFile(source).File?
    requires host.lower(Final(ReadFile(source).values, environ, name)) in host.placeholders
    ensures !ResolveOutcome(host, source, environ, mode).Resolved?
  {
    RaisesExactly(host, source, environ, mode);
    var file := ReadFile(source).values;
    var merged := Merge(file, environ, RequiredVars(mode));
    SecretIsRequired(mode, name);
    FinalSetting(file, environ, mode, name);
    RequiredIsARule(mode, name);
    SecretIsARule(mode, name);
    assert Broken(host, merged, Required(name)) || Broken(host, merged, PlaceholderSecret(name));
  }

  lemma SecretIsRequired(mode: Mode, name: string)
    requires name in SECRET_VARS
    ensures name in RequiredVars(mode)
  {
    assert COMMON_VARS[1] == SECRET_VARS[0] && COMMON_VARS[6] == SECRET_VARS[1];
    assert SECRET_VARS[0] in COMMON_VARS && SECRET_VARS[1] in COMMON_VARS;
  }

  lemma SecretIsARule(mode: Mode, name: string)
    requires name in SECRET_VARS
    ensures PlaceholderSecret(name) in Rules(mode)
  {
    var i :| 0 <= i < |SECRET_VARS| && SECRET_VARS[i] == name;
    assert SecretRules(SECRET_VARS)[i] == PlaceholderSecret(name);
  }

  lemma RequiredIsARule(mode: Mode, name: string)
    requires name in RequiredVars(mode)
    ensures Required(name) in Rules(mode)
  {
  }

  /** What is returned is complete: every required name is there, with a value that is not blank, taken
      from the process if that has a nonempty one and from the file otherwise. */
  lemma ResolvedIsComplete(host: Host, source: Source, environ: map<string, string>, mode: Mode, name: string)
    requires ResolveOutcome(host, source, environ, mode).Resolved? && name in RequiredVars(mode)
    ensures ReadFile(source).File?
    ensures var file, values := ReadFile(source).values, ResolveOutcome(host, source, environ, mode).values;
            && name in values && Strip(values[name]) != ""
            && (Overrides(environ, name) ==> values[name] == environ[name])
            && (!Overrides(environ, name) ==> name in file && values[name] == file[name])
  {
    ReadExactly(source);
    var file := ReadFile(source).values;
    var merged := Merge(file, environ, RequiredVars(mode));
    ProcessValueWins(file, environ, RequiredVars(mode), name);
    ValidateExactly(host, merged, mode);
    RequiredIsARule(mode, name);
    assert !Broken(host, merged, Required(name));
  }
}
