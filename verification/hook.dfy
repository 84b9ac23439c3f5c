/**
 * `hook.py`: the pre-tool-use hook. It reads the tool call, lets tools it
 * does not govern through, checks the path of a file tool against the
 * tool's path patterns and the command of a command tool against the
 * command patterns, and answers with a permission decision.
 *
 * Standard input, the configuration files, the environment and the
 * transcript are inputs here: the decoded input, the decoded contents of
 * the discovered files, the `extended_syntax` setting, and whether the
 * start-up validation or the transcript reading raised. Logging is left out.
 */
module Hook {
  import opened Results
  import opened Text
  import opened Values
  import opened Lists
  import opened Environment
  import opened Permissions
  import Config
  import Compound
  import Normalization

  /** Tools whose input is a file path; the other governed tools run commands. */
  const FilePathTools: set<string> := {"Read", "Write", "Edit"}

  // ---------------------------------------------------------------------
  // `create_hook_output`
  // ---------------------------------------------------------------------

  /** The word a decision is written as. */
  function VerdictText(v: Verdict): string {
    match v
    case Allow => "allow"
    case Deny => "deny"
  }

  /** `create_hook_output(decision, reason)`: the dictionary printed as JSON. */
  function CreateHookOutput(decision: string, reason: string): (r: Value)
    ensures r.Obj? && |r.entries| == 1
  {
    Obj([("hookSpecificOutput", Obj([
      ("hookEventName", Str("PreToolUse")),
      ("permissionDecision", Str(decision)),
      ("permissionDecisionReason", Str(reason))]))])
  }

  /** What a reader of the output takes from it: the decision and its reason. */
  function ReadDecision(output: Value): Option<(string, string)> {
    if !output.Obj? then None
    else
      match Lookup(output.entries, "hookSpecificOutput")
      case Some(Obj(inner)) =>
        (match (Lookup(inner, "permissionDecision"), Lookup(inner, "permissionDecisionReason"))
         case (Some(Str(d)), Some(Str(r))) => Some((d, r))
         case _ => None)
      case _ => None
  }

  /** The output carries the decision and the reason it was made with. */
  lemma ReadCreated(decision: string, reason: string)
    ensures ReadDecision(CreateHookOutput(decision, reason)) == Some((decision, reason))
  {
    var inner := [
      ("hookEventName", Str("PreToolUse")),
      ("permissionDecision", Str(decision)),
      ("permissionDecisionReason", Str(reason))];
    assert "hookEventName"[0] != "permissionDecision"[0];
    assert Lookup(inner, "permissionDecision") == Lookup(inner[1..], "permissionDecision");
    assert |"permissionDecision"| != |"permissionDecisionReason"|;
    assert Lookup(inner, "permissionDecisionReason") == Lookup(inner[1..], "permissionDecisionReason");
    assert Lookup(inner[1..], "permissionDecisionReason") == Lookup(inner[2..], "permissionDecisionReason");
  }

  // ---------------------------------------------------------------------
  // `load_file_path_patterns`
  // ---------------------------------------------------------------------

  /**
   * The loop of `load_file_path_patterns` from file `files[0]` on: each
   * file's patterns are added to those collected so far, skipping repeats.
   * A file that did not load is skipped; one whose sections have the wrong
   * type raises, and the error is not caught.
   */
  function CollectPatterns(prefix: string, files: seq<Option<Value>>, acc: Config.Perms): (r: Result<Config.Perms, string>)
    requires Config.IsOpener(prefix)
    decreases |files|
  {
    if files == [] then Ok(acc)
    else
      match Config.PatternsFromFile(prefix, files[0])
      case Err(e) => Err(e)
      case Ok(p) => CollectPatterns(prefix, files[1..], Config.Perms(AddNew(acc.allow, p.allow), AddNew(acc.deny, p.deny)))
  }

  /** `load_file_path_patterns(tool)` over the decoded config files. */
  function LoadFilePathPatterns(tool: string, files: seq<Option<Value>>): Result<Config.Perms, string> {
    CollectPatterns(tool + "(", files, Config.Perms([], []))
  }

  /** The patterns of every file, when all of them can be read. */
  function AllPatterns(prefix: string, files: seq<Option<Value>>): (r: Result<seq<Config.Perms>, string>)
    requires Config.IsOpener(prefix)
    ensures r.Ok? ==>
      && |r.value| == |files|
      && forall k :: 0 <= k < |files| ==> Config.PatternsFromFile(prefix, files[k]) == Ok(r.value[k])
    ensures r.Err? <==> exists k :: 0 <= k < |files| && Config.PatternsFromFile(prefix, files[k]).Err?
    decreases |files|
  {
    if files == [] then Ok([])
    else
      var rest := AllPatterns(prefix, files[1..]);
      assert forall k :: 0 < k < |files| ==> files[k] == files[1..][k - 1];
      match Config.PatternsFromFile(prefix, files[0])
      case Err(e) => Err(e)
      case Ok(p) =>
        match rest
        case Err(e) => Err(e)
        case Ok(ps) => Ok([p] + ps)
  }

  lemma {:induction false} CollectPatternsMerge(prefix: string, files: seq<Option<Value>>, a: seq<string>, d: seq<string>)
    requires Config.IsOpener(prefix)
    ensures var r := CollectPatterns(prefix, files, Config.Perms(a, d));
      match AllPatterns(prefix, files)
      case Err(_) => r.Err?
      case Ok(ps) => r == Ok(Config.Perms(AddNew(a, Flatten(Config.AllowLists(ps))), AddNew(d, Flatten(Config.DenyLists(ps)))))
    decreases |files|
  {
    if files != [] {
      match Config.PatternsFromFile(prefix, files[0])
      case Err(_) =>
      case Ok(p) =>
        var a' := AddNew(a, p.allow);
        var d' := AddNew(d, p.deny);
        CollectPatternsMerge(prefix, files[1..], a', d');
        match AllPatterns(prefix, files[1..])
        case Err(_) =>
        case Ok(rest) =>
          var ps := [p] + rest;
          assert ps[1..] == rest;
          assert Flatten(Config.AllowLists(ps)) == p.allow + Flatten(Config.AllowLists(rest)) by {
            assert Config.AllowLists(ps)[1..] == Config.AllowLists(rest);
          }
          assert Flatten(Config.DenyLists(ps)) == p.deny + Flatten(Config.DenyLists(rest)) by {
            assert Config.DenyLists(ps)[1..] == Config.DenyLists(rest);
          }
          AddNewAppend(a, p.allow, Flatten(Config.AllowLists(rest)));
          AddNewAppend(d, p.deny, Flatten(Config.DenyLists(rest)));
    }
  }

  /**
   * Collecting file by file is merging: when every file can be read, the
   * result is `merge_permissions` of the files' patterns, so it has no
   * repeats and holds a pattern exactly when some file grants (refuses)
   * it; otherwise it is an error.
   */
  lemma LoadFilePathPatternsSpec(tool: string, files: seq<Option<Value>>, p: string)
    ensures var prefix := tool + "(";
      var r := LoadFilePathPatterns(tool, files);
      && (r.Err? <==> exists k :: 0 <= k < |files| && Config.PatternsFromFile(prefix, files[k]).Err?)
      && (r.Ok? ==>
            && Distinct(r.value.allow) && Distinct(r.value.deny)
            && (p in r.value.allow <==> exists k :: 0 <= k < |files| && p in Config.PatternsFromFile(prefix, files[k]).value.allow)
            && (p in r.value.deny <==> exists k :: 0 <= k < |files| && p in Config.PatternsFromFile(prefix, files[k]).value.deny))
  {
    var prefix := tool + "(";
    CollectPatternsMerge(prefix, files, [], []);
    match AllPatterns(prefix, files)
    case Err(_) =>
    case Ok(ps) =>
      assert LoadFilePathPatterns(tool, files) == Ok(Config.MergePermissions(ps));
      Config.MergePermissionsSpec(ps, p);
  }

  // ---------------------------------------------------------------------
  // `check_file_path_permission`
  // ---------------------------------------------------------------------

  /** `PurePath(expanded).full_match(expand_tilde(pattern))`; a pattern that raises does not match. */
  function PathTest(expanded: string, h: Host): string -> Result<bool, string> {
    p => Ok(h.fullMatch(expanded, Normalization.ExpandTilde(p, h.home)) == Some(true))
  }

  /** Whether `pattern` matches `path`, both tilde-expanded. */
  predicate PathMatches(path: string, pattern: string, h: Host) {
    h.fullMatch(Normalization.ExpandTilde(path, h.home), Normalization.ExpandTilde(pattern, h.home)) == Some(true)
  }

  /**
   * `check_file_path_permission(path, allow, deny)`: deny patterns first,
   * then allow patterns, else denied; it never raises.
   */
  function CheckFilePathPermission(path: string, allow: seq<string>, deny: seq<string>, h: Host): (r: Decision)
    ensures r.verdict == Allow ==> exists p :: p in allow && r.reason == MatchedReason("Path", "allow", p)
    ensures r.verdict == Deny ==>
      || r.reason == UnmatchedReason("Path")
      || exists p :: p in deny && r.reason == MatchedReason("Path", "deny", p)
  {
    var test := PathTest(Normalization.ExpandTilde(path, h.home), h);
    DecideOk("Path", allow, deny, test);
    Decide("Path", allow, deny, test).value
  }

  /** The first deny pattern that matches denies the path, naming it, whatever the allow patterns say. */
  lemma PathDenyWins(path: string, allow: seq<string>, deny: seq<string>, h: Host, m: nat)
    requires m < |deny| && PathMatches(path, deny[m], h)
    requires forall k :: 0 <= k < m ==> !PathMatches(path, deny[k], h)
    ensures CheckFilePathPermission(path, allow, deny, h) == Decision(Deny, MatchedReason("Path", "deny", deny[m]))
  {
    var test := PathTest(Normalization.ExpandTilde(path, h.home), h);
    assert NoneIn(deny, 0, m, test);
    DenyWins("Path", allow, deny, m, test);
  }

  /** A path is allowed exactly when no deny pattern matches it and some allow pattern does. */
  lemma PathAllowedIff(path: string, allow: seq<string>, deny: seq<string>, h: Host)
    ensures CheckFilePathPermission(path, allow, deny, h).verdict == Allow <==>
      && (forall k :: 0 <= k < |deny| ==> !PathMatches(path, deny[k], h))
      && (exists k :: 0 <= k < |allow| && PathMatches(path, allow[k], h))
  {
    var test := PathTest(Normalization.ExpandTilde(path, h.home), h);
    FirstMatchNone(deny, 0, test);
    FirstMatchNone(allow, 0, test);
    assert NoneIn(deny, 0, |deny|, test) <==> forall k :: 0 <= k < |deny| ==> !PathMatches(path, deny[k], h);
    assert NoneIn(allow, 0, |allow|, test) <==> forall k :: 0 <= k < |allow| ==> !PathMatches(path, allow[k], h);
  }

  /** When no pattern matches, the path is denied by default. */
  lemma PathDeniedByDefault(path: string, allow: seq<string>, deny: seq<string>, h: Host)
    requires forall k :: 0 <= k < |deny| ==> !PathMatches(path, deny[k], h)
    requires forall k :: 0 <= k < |allow| ==> !PathMatches(path, allow[k], h)
    ensures CheckFilePathPermission(path, allow, deny, h) == Decision(Deny, UnmatchedReason("Path"))
  {
    var test := PathTest(Normalization.ExpandTilde(path, h.home), h);
    assert NoneIn(deny, 0, |deny|, test);
    assert NoneIn(allow, 0, |allow|, test);
    DeniedByDefault("Path", allow, deny, test);
  }

  /** Only the tilde-expanded path counts: `~/x` and `<home>/x` get the same decision. */
  lemma PathTildeExpanded(path: string, allow: seq<string>, deny: seq<string>, h: Host)
    requires h.home == [] || h.home[0] != '~'
    ensures CheckFilePathPermission(Normalization.ExpandTilde(path, h.home), allow, deny, h) == CheckFilePathPermission(path, allow, deny, h)
  {
    Normalization.ExpandTildeIdempotent(path, h.home);
  }

  // ---------------------------------------------------------------------
  // `parse_hook_input` and `main`
  // ---------------------------------------------------------------------

  /** Standard input: blank, not JSON (with the decoder's complaint), or a decoded value. */
  datatype Stdin = Blank | NotJson(complaint: string) | Json(data: Value)

  /** How `main` fails: the three `except` clauses it has. */
  datatype Failure = BadJson(message: string) | BadValue(message: string) | Raised(message: string)

  const RequiredFields: seq<string> := ["tool_name", "tool_input", "hook_event_name"]

  /** Python's `field in data`, for a value that supports `in` with a string. */
  function Has(data: Value, field: string): (r: Result<bool, string>)
    ensures r.Ok? <==> data.Obj? || data.Arr? || data.Str?
  {
    match data
    case Obj(entries) => Ok(Lookup(entries, field).Some?)
    case Arr(items) => Ok(Str(field) in items)
    case Str(s) => Ok(Find(s, field, 0).Some?)
    case _ => Err("argument of type '" + TypeName(data) + "' is not iterable")
  }

  /** The first required field `data` lacks, checking from `fields[0]` on. */
  function MissingField(data: Value, fields: seq<string>): Result<Option<string>, string>
    decreases |fields|
  {
    if fields == [] then Ok(None)
    else
      match Has(data, fields[0])
      case Err(e) => Err(e)
      case Ok(true) => MissingField(data, fields[1..])
      case Ok(false) => Ok(Some(fields[0]))
  }

  /** The decoded tool call: its `tool_name` and `tool_input`. */
  datatype Call = Call(toolName: Value, toolInput: Value)

  /**
   * `parse_hook_input()` followed by `hook_data['tool_name']` and
   * `hook_data['tool_input']`: blank input and a missing required field
   * are `ValueError`s, undecodable input a `JSONDecodeError`; indexing a
   * list or a string with a field name raises.
   */
  function ParseHookInput(stdin: Stdin): (r: Result<Call, Failure>)
    ensures stdin.Blank? ==> r == Err(BadValue("Empty input from stdin"))
    ensures stdin.NotJson? ==> r.Err? && r.error.BadJson?
    ensures r.Ok? ==> stdin.Json? && stdin.data.Obj?
  {
    match stdin
    case Blank => Err(BadValue("Empty input from stdin"))
    case NotJson(complaint) => Err(BadJson("Invalid JSON from stdin: " + complaint))
    case Json(data) =>
      match MissingField(data, RequiredFields)
      case Err(e) => Err(Raised(e))
      case Ok(Some(f)) => Err(BadValue("Missing required field: " + f))
      case Ok(None) =>
        match data
        case Obj(entries) => Ok(Call(Lookup(entries, "tool_name").GetOr(Null), Lookup(entries, "tool_input").GetOr(Null)))
        case Arr(_) => Err(Raised("list indices must be integers or slices, not str"))
        case _ => Err(Raised("string indices must be integers, not 'str'"))
  }

  /** A dictionary with the three required fields yields its tool name and tool input. */
  lemma ParseWellFormed(name: Value, input: Value, event: Value)
    ensures ParseHookInput(Json(Obj([("tool_name", name), ("tool_input", input), ("hook_event_name", event)]))) == Ok(Call(name, input))
  {
    var entries := [("tool_name", name), ("tool_input", input), ("hook_event_name", event)];
    assert "tool_name"[5] != "tool_input"[5];
    assert "tool_name"[0] != "hook_event_name"[0] && "tool_input"[0] != "hook_event_name"[0];
    assert Lookup(entries, "tool_input") == Lookup(entries[1..], "tool_input");
    assert Lookup(entries, "hook_event_name") == Lookup(entries[1..], "hook_event_name");
    assert Lookup(entries[1..], "hook_event_name") == Lookup(entries[2..], "hook_event_name");
    assert RequiredFields[1..][1..][1..] == [];
  }

  /** The inputs of `main` besides standard input. */
  datatype Setup = Setup(
    /** What `get_env_config` raised, if anything (an unexpandable `~user`, a missing working directory). */
    envError: Option<string>,
    /** The `extended_syntax` setting. */
    extended: bool,
    /** What the start-up validation raised, if anything. */
    startupError: Option<string>,
    /** The decoded `toolguard_hook` files among the discovered files, in order (`None`: did not load). */
    hookFiles: seq<Option<Value>>,
    /** The decoded discovered config files, in order (`None`: did not load). */
    configFiles: seq<Option<Value>>,
    /**
     * What `identify_current_agent` raised, if anything, as `main` catches
     * it: a decoding error while reading the transcript is a `ValueError`
     * (`BadValue`); an attribute or type error from malformed entries, or
     * any other, is `Raised`.
     */
    transcriptError: Option<Failure>)

  /** `", ".join(xs)` */
  function JoinComma(xs: seq<string>): string
    decreases |xs|
  {
    if xs == [] then []
    else if |xs| == 1 then xs[0]
    else xs[0] + ", " + JoinComma(xs[1..])
  }

  /** The reason given to a tool the hook does not govern. */
  function UngovernedReason(governed: seq<string>): string {
    "Not a governed tool (governed: " + JoinComma(governed) + ")"
  }

  /** An error of the modelled code, as `main` catches it. */
  function Raise<T>(r: Result<T, string>): Result<T, Failure>
    ensures r.Ok? <==> Raise(r).Ok?
  {
    match r
    case Ok(v) => Ok(v)
    case Err(e) => Err(Raised(e))
  }

  /** `main` for a file tool, from `tool_input.get('file_path', '')` on. */
  function FileTool(tool: string, toolInput: Value, s: Setup, h: Host): (r: Result<Decision, Failure>)
    ensures r.Ok? && r.value.verdict == Allow ==> exists path :: Get(toolInput, "file_path", Str("")) == Ok(Str(path))
  {
    match Get(toolInput, "file_path", Str(""))
    case Err(e) => Err(Raised(e))
    case Ok(path) =>
      if !Truthy(path) then Ok(Decision(Deny, "No file_path provided in tool input"))
      else
        match LoadFilePathPatterns(tool, s.configFiles)
        case Err(e) => Err(Raised(e))
        case Ok(patterns) =>
          if patterns.allow == [] then
            Ok(Decision(Deny, "No " + tool + " permissions found in settings - all operations blocked"))
          else if !path.Str? then Err(Raised("'" + TypeName(path) + "' object has no attribute 'startswith'"))
          else Ok(CheckFilePathPermission(path.s, patterns.allow, patterns.deny, h))
  }

  /** The check a command tool's command goes through: its command, then the allow and deny patterns. */
  type CommandCheck = (string, seq<string>, seq<string>) -> Result<Decision, string>

  /** `check_compound_permission` with the configured syntax and host. */
  function CompoundCheck(s: Setup, h: Host): CommandCheck {
    (command, allow, deny) => Compound.CheckCompoundPermission(command, allow, deny, s.extended, h)
  }

  /** `main` for a command tool, from `tool_input.get('command', '')` on. */
  function CommandTool(toolInput: Value, s: Setup, check: CommandCheck): (r: Result<Decision, Failure>)
  {
    match Get(toolInput, "command", Str(""))
    case Err(e) => Err(Raised(e))
    case Ok(command) =>
      if !Truthy(command) then Ok(Decision(Deny, "No command provided in tool input"))
      else
        var perms := Config.LoadPermissions(s.configFiles);
        if perms.allow == [] then Ok(Decision(Deny, "No Bash permissions found in settings - all commands blocked"))
        else if !command.Str? then Err(Raised("'" + TypeName(command) + "' object has no attribute 'strip'"))
        else Raise(check(command.s, perms.allow, perms.deny))
  }

  /** The body of `main`'s `try`: the decision, or what it raised; `check` judges commands. */
  function Outcome(stdin: Stdin, s: Setup, h: Host, check: CommandCheck): (r: Result<Decision, Failure>)
  {
    if s.envError.Some? then Err(Raised(s.envError.value))
    else
    match ParseHookInput(stdin)
    case Err(f) => Err(f)
    case Ok(call) =>
      if s.startupError.Some? then Err(Raised(s.startupError.value))
      else
        match Config.LoadGovernedTools(s.hookFiles)
        case Err(e) => Err(Raised(e))
        case Ok(governed) =>
          if !(call.toolName.Str? && call.toolName.s in governed) then Ok(Decision(Allow, UngovernedReason(governed)))
          else if s.transcriptError.Some? then Err(s.transcriptError.value)
          else if call.toolName.s in FilePathTools then FileTool(call.toolName.s, call.toolInput, s, h)
          else CommandTool(call.toolInput, s, check)
  }

  /** Where the output goes. */
  datatype Stream = Stdout | Stderr

  /** What `main` prints: the JSON output, its stream, and for an unexpected error a further line on standard error. */
  datatype Emission = Emission(output: Value, stream: Stream, errorLine: Option<string>)

  /** How `main` reports an outcome: a decision on standard output, anything raised as a denial on standard error. */
  function Emit(outcome: Result<Decision, Failure>): (e: Emission)
  {
    match outcome
    case Ok(d) => Emission(CreateHookOutput(VerdictText(d.verdict), d.reason), Stdout, None)
    case Err(BadJson(m)) => Emission(CreateHookOutput("deny", "Failed to parse hook input: " + m), Stderr, None)
    case Err(BadValue(m)) => Emission(CreateHookOutput("deny", "Invalid hook input: " + m), Stderr, None)
    case Err(Raised(m)) =>
      var reason := "Unexpected error in hook: " + m;
      Emission(CreateHookOutput("deny", reason), Stderr, Some("Error: " + reason))
  }

  /** `main()`: the outcome with commands judged by the compound check, as printed. */
  function Main(stdin: Stdin, s: Setup, h: Host): (e: Emission)
  {
    Emit(Outcome(stdin, s, h, CompoundCheck(s, h)))
  }

  /** The call reaches the check for `tool`: it parsed, nothing raised on the way, and `tool` is governed. */
  predicate Reaches(stdin: Stdin, s: Setup, tool: string) {
    && ParseHookInput(stdin).Ok? && ParseHookInput(stdin).value.toolName == Str(tool)
    && s.envError.None? && s.startupError.None? && s.transcriptError.None?
    && Config.LoadGovernedTools(s.hookFiles).Ok? && tool in Config.LoadGovernedTools(s.hookFiles).value
  }

  /**
   * Every outcome is printed as a readable decision; it goes to standard
   * error exactly when something raised, and then it is a denial, with the
   * further error line only for an unexpected error.
   */
  lemma EmitFailsClosed(outcome: Result<Decision, Failure>)
    ensures var e := Emit(outcome);
      && ReadDecision(e.output).Some?
      && ReadDecision(e.output).value.0 in {"allow", "deny"}
      && (e.stream == Stderr <==> outcome.Err?)
      && (e.stream == Stderr ==> ReadDecision(e.output).value.0 == "deny")
      && (e.errorLine.Some? <==> outcome.Err? && outcome.error.Raised?)
      && (outcome.Ok? ==> ReadDecision(e.output).value == (VerdictText(outcome.value.verdict), outcome.value.reason))
  {
    match outcome
    case Ok(d) => ReadCreated(VerdictText(d.verdict), d.reason);
    case Err(BadJson(m)) => ReadCreated("deny", "Failed to parse hook input: " + m);
    case Err(BadValue(m)) => ReadCreated("deny", "Invalid hook input: " + m);
    case Err(Raised(m)) => ReadCreated("deny", "Unexpected error in hook: " + m);
  }

  /** Every run of `main` ends in a readable decision, and a denial whenever anything raised. */
  lemma MainFailsClosed(stdin: Stdin, s: Setup, h: Host)
    ensures var e := Main(stdin, s, h);
      && ReadDecision(e.output).Some?
      && ReadDecision(e.output).value.0 in {"allow", "deny"}
      && (e.stream == Stderr ==> ReadDecision(e.output).value.0 == "deny")
  {
    EmitFailsClosed(Outcome(stdin, s, h, CompoundCheck(s, h)));
  }

  /**
   * When loading the environment configuration raises, every call is
   * denied on standard error as an unexpected error, whatever standard
   * input holds: `main` has not read it yet.
   */
  lemma EnvErrorDeniesAll(stdin: Stdin, s: Setup, h: Host)
    requires s.envError.Some?
    ensures var e := Main(stdin, s, h);
      && e.stream == Stderr
      && ReadDecision(e.output) == Some(("deny", "Unexpected error in hook: " + s.envError.value))
      && e == Main(Blank, s, h)
  {
    var failed := Err(Raised(s.envError.value));
    assert Outcome(stdin, s, h, CompoundCheck(s, h)) == failed;
    assert Outcome(Blank, s, h, CompoundCheck(s, h)) == failed;
    ReadCreated("deny", "Unexpected error in hook: " + s.envError.value);
  }

  /** A tool outside the governed list is let through, naming the governed tools. */
  lemma UngovernedAllowed(stdin: Stdin, s: Setup, h: Host, check: CommandCheck)
    requires s.envError.None? && ParseHookInput(stdin).Ok? && s.startupError.None? && Config.LoadGovernedTools(s.hookFiles).Ok?
    requires var name := ParseHookInput(stdin).value.toolName;
      !(name.Str? && name.s in Config.LoadGovernedTools(s.hookFiles).value)
    ensures Outcome(stdin, s, h, check) == Ok(Decision(Allow, UngovernedReason(Config.LoadGovernedTools(s.hookFiles).value)))
  {
  }

  /**
   * A governed call whose transcript could not be decoded is denied on
   * standard error as invalid hook input, without the further error line
   * an unexpected error gets.
   */
  lemma TranscriptDecodeError(stdin: Stdin, s: Setup, h: Host, tool: string, message: string)
    requires s.envError.None? && s.startupError.None? && s.transcriptError == Some(BadValue(message))
    requires ParseHookInput(stdin).Ok? && ParseHookInput(stdin).value.toolName == Str(tool)
    requires Config.LoadGovernedTools(s.hookFiles).Ok? && tool in Config.LoadGovernedTools(s.hookFiles).value
    ensures var e := Main(stdin, s, h);
      && e.stream == Stderr && e.errorLine.None?
      && ReadDecision(e.output) == Some(("deny", "Invalid hook input: " + message))
  {
    assert Outcome(stdin, s, h, CompoundCheck(s, h)) == Err(BadValue(message));
    ReadCreated("deny", "Invalid hook input: " + message);
  }

  /** A governed call that nothing stopped goes to the check for its kind of tool. */
  lemma Routes(stdin: Stdin, s: Setup, h: Host, check: CommandCheck, tool: string)
    requires Reaches(stdin, s, tool)
    ensures var input := ParseHookInput(stdin).value.toolInput;
      Outcome(stdin, s, h, check) == if tool in FilePathTools then FileTool(tool, input, s, h) else CommandTool(input, s, check)
  {
  }

  /**
   * A governed file tool is denied without a non-empty `file_path`, and
   * denied when no file grants the tool any path, before any matching.
   */
  lemma FileToolGuards(stdin: Stdin, s: Setup, h: Host, check: CommandCheck, tool: string)
    requires Reaches(stdin, s, tool) && tool in FilePathTools
    ensures var input := ParseHookInput(stdin).value.toolInput;
      var path := Get(input, "file_path", Str(""));
      && (path.Ok? && !Truthy(path.value) ==> Outcome(stdin, s, h, check) == Ok(Decision(Deny, "No file_path provided in tool input")))
      && (path.Ok? && Truthy(path.value) && LoadFilePathPatterns(tool, s.configFiles).Ok? && LoadFilePathPatterns(tool, s.configFiles).value.allow == [] ==>
            Outcome(stdin, s, h, check) == Ok(Decision(Deny, "No " + tool + " permissions found in settings - all operations blocked")))
  {
    Routes(stdin, s, h, check, tool);
  }

  /**
   * A governed command tool is denied without a non-empty `command`, and
   * denied, whatever the compound check would say, when no file grants any `Bash(...)` pattern.
   */
  lemma CommandToolGuards(stdin: Stdin, s: Setup, h: Host, check: CommandCheck, tool: string)
    requires Reaches(stdin, s, tool) && tool !in FilePathTools
    ensures var input := ParseHookInput(stdin).value.toolInput;
      var command := Get(input, "command", Str(""));
      && (command.Ok? && !Truthy(command.value) ==> Outcome(stdin, s, h, check) == Ok(Decision(Deny, "No command provided in tool input")))
      && (command.Ok? && Truthy(command.value) && Config.LoadPermissions(s.configFiles).allow == [] ==>
            Outcome(stdin, s, h, check) == Ok(Decision(Deny, "No Bash permissions found in settings - all commands blocked")))
  {
    Routes(stdin, s, h, check, tool);
  }

  /**
   * An allowed governed call was allowed by its check: a file tool's path
   * by the path patterns, a command tool's command by the command check.
   */
  lemma AllowedByCheck(stdin: Stdin, s: Setup, h: Host, check: CommandCheck, tool: string)
    requires Reaches(stdin, s, tool)
    requires Outcome(stdin, s, h, check).Ok? && Outcome(stdin, s, h, check).value.verdict == Allow
    ensures var input := ParseHookInput(stdin).value.toolInput;
      if tool in FilePathTools then
        exists path: string, ps: Config.Perms ::
          && Get(input, "file_path", Str("")) == Ok(Str(path))
          && LoadFilePathPatterns(tool, s.configFiles) == Ok(ps)
          && Outcome(stdin, s, h, check) == Ok(CheckFilePathPermission(path, ps.allow, ps.deny, h))
      else
        exists command: string ::
          && Get(input, "command", Str("")) == Ok(Str(command))
          && var perms := Config.LoadPermissions(s.configFiles);
             Outcome(stdin, s, h, check) == Raise(check(command, perms.allow, perms.deny))
  {
    var input := ParseHookInput(stdin).value.toolInput;
    Routes(stdin, s, h, check, tool);
    if tool in FilePathTools {
      var path := Get(input, "file_path", Str("")).value.s;
      var ps := LoadFilePathPatterns(tool, s.configFiles).value;
      assert Outcome(stdin, s, h, check) == Ok(CheckFilePathPermission(path, ps.allow, ps.deny, h));
    } else {
      var command := Get(input, "command", Str("")).value;
      assert command.Str?;
    }
  }
}
