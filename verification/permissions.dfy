/**
 * The permission check for one command, as `permissions.py` performs it:
 * the command and its path-normalised form are compared against an
 * ordered list of patterns, deny patterns first, and anything not
 * explicitly allowed is denied.
 *
 * A pattern the code cannot handle (a `:` pattern whose command part is
 * blank, where `split()[0]` raises `IndexError`) makes the whole check an
 * `Err` carrying Python's message for that error.
 */
module Permissions {
  import opened Results
  import opened Text
  import Normalization
  import FnMatch
  import Patterns
  import opened Environment

  /** The message of the `IndexError` raised by `[][0]`. */
  const IndexErrorMessage := "list index out of range"

  /** `args.startswith(('.', '/', '-', '~'))`. */
  predicate LeadsAsPath(args: string) {
    args != [] && (args[0] == '.' || args[0] == '/' || args[0] == '-' || args[0] == '~')
  }

  /**
   * The second step of `normalize_path_in_command`: when the command has
   * arguments and they do not already start like a path or a flag, `./` is
   * put in front of them (of the whole remainder, not of each argument).
   */
  function DotSlashArgs(s: string): string {
    var parts := SplitOnce(s);
    if |parts| == 2 && !LeadsAsPath(parts[1]) then parts[0] + " ./" + parts[1] else s
  }

  /**
   * The rewriting keeps the command word and whether there are arguments,
   * and afterwards the arguments always start like a path or a flag; they
   * are the old ones, possibly behind `./`.
   */
  lemma DotSlashArgsShape(s: string)
    ensures var r := DotSlashArgs(s);
      && |SplitOnce(r)| == |SplitOnce(s)|
      && (|SplitOnce(s)| >= 1 ==> SplitOnce(r)[0] == SplitOnce(s)[0])
      && (|SplitOnce(s)| == 2 ==> LeadsAsPath(SplitOnce(r)[1]))
      && (|SplitOnce(s)| == 2 ==> SplitOnce(r)[1] in {SplitOnce(s)[1], "./" + SplitOnce(s)[1]})
  {
    var parts := SplitOnce(s);
    if |parts| == 2 && !LeadsAsPath(parts[1]) {
      SplitOnceFirst(s);
      WordsShape(s);
      assert parts[0] + " ./" + parts[1] == parts[0] + " " + ("./" + parts[1]);
      SplitOnceCons(parts[0], "./" + parts[1]);
    }
  }

  /** Adding `./` a second time changes nothing. */
  lemma DotSlashArgsIdempotent(s: string)
    ensures DotSlashArgs(DotSlashArgs(s)) == DotSlashArgs(s)
  {
    DotSlashArgsShape(s);
  }

  /**
   * `normalize_path_in_command(command)`. It calls `normalize_command`
   * without a project root, so every relative path argument gains `./`.
   */
  function NormalizePathInCommand(command: string, h: Host): string {
    DotSlashArgs(Normalization.NormalizeCommand(command, h.resolve, None))
  }

  /**
   * A blank command normalises to the empty string; otherwise the result
   * has arguments exactly when the normalised command does, keeps its
   * command word, and its arguments then start like a path or a flag.
   */
  lemma NormalizePathInCommandShape(command: string, h: Host)
    ensures AllSpace(command) ==> NormalizePathInCommand(command, h) == []
    ensures var n := Normalization.NormalizeCommand(command, h.resolve, None);
      var r := NormalizePathInCommand(command, h);
      && |SplitOnce(r)| == |SplitOnce(n)|
      && (|SplitOnce(n)| >= 1 ==> SplitOnce(r)[0] == SplitOnce(n)[0])
      && (|SplitOnce(n)| == 2 ==> LeadsAsPath(SplitOnce(r)[1]))
  {
    DotSlashArgsShape(Normalization.NormalizeCommand(command, h.resolve, None));
  }

  /** `arg.replace('\\', '/')`. */
  function Slashed(arg: string): string {
    Replace(arg, "\\", "/")
  }

  /** `component in arg.replace('\\', '/').split('/')`. */
  predicate ArgHasComponent(arg: string, component: string) {
    component in SplitOn(Slashed(arg), '/')
  }

  /** `contains_path_component(command, component)`: some argument after the command word has `component` between slashes. */
  function ContainsPathComponent(command: string, component: string): bool {
    var parts := SplitOnce(command);
    |parts| == 2 && exists arg :: arg in Words(parts[1]) && ArgHasComponent(arg, component)
  }

  /**
   * An argument has the component exactly when, with backslashes read as
   * slashes, the component is a whole stretch between two slashes or the
   * ends of the argument.
   */
  lemma ArgHasComponentIff(arg: string, component: string)
    ensures ArgHasComponent(arg, component) <==>
      exists a: nat, b: nat :: FieldFrom(Slashed(arg), '/', 0, a, b) && Slashed(arg)[a..b] == component
  {
    SplitOnMember(Slashed(arg), '/', component);
  }

  /** The component is looked for in every word after the first, and only there. */
  lemma ContainsPathComponentWords(command: string, component: string)
    ensures ContainsPathComponent(command, component) <==>
      exists k :: 1 <= k < |Words(command)| && ArgHasComponent(Words(command)[k], component)
  {
    SplitOnceRest(command);
    var ws := Words(command);
    if ContainsPathComponent(command, component) {
      var arg :| arg in Words(SplitOnce(command)[1]) && ArgHasComponent(arg, component);
      var k' :| 0 <= k' < |ws[1..]| && ws[1..][k'] == arg;
      assert ws[k' + 1] == arg;
    }
    if exists k :: 1 <= k < |ws| && ArgHasComponent(ws[k], component) {
      var k :| 1 <= k < |ws| && ArgHasComponent(ws[k], component);
      assert ws[k] == ws[1..][k - 1];
    }
  }

  /** `actual_pattern[3:-3]`, the text between the leading `**` plus slash and the trailing slash plus `**`; Python gives `""` when the two ends overlap. */
  function InnerComponent(actual: string): (r: string)
    requires StartsWith(actual, "**/") && EndsWith(actual, "/**")
  {
    if |actual| < 6 then [] else actual[3..|actual| - 3]
  }

  /**
   * The `:` syntax of `match_command`: `cmd_pattern` and `args_pattern`
   * are the stripped halves around the first colon. A bare `*`, `**` or
   * empty args pattern asks for the pattern's first word to begin the
   * command and for the command to match `cmd_pattern*`; any other args
   * pattern is matched together with the command pattern.
   */
  function ColonMatch(cmdPattern: string, argsPattern: string, variants: seq<string>, inClass: (string, char) -> bool): Result<bool, string> {
    if argsPattern == "*" || argsPattern == "**" || argsPattern == [] then
      var parts := SplitOnce(cmdPattern);
      if parts == [] then Err(IndexErrorMessage)
      else
        var base := parts[0];
        Ok(exists v :: v in variants && (StartsWith(v, base + " ") || v == base) && FnMatch.FnMatch(v, cmdPattern + "*", inClass))
    else
      Ok(exists v :: v in variants && FnMatch.FnMatch(v, cmdPattern + " " + argsPattern, inClass))
  }

  /**
   * One iteration of the loop of `match_command`: whether `pattern` matches
   * the command. `variants` are the command and its normalised form.
   */
  function PatternMatches(pattern: string, command: string, variants: seq<string>, extended: bool, h: Host): Result<bool, string> {
    var (kind, actual) := Patterns.ParsePattern(pattern, extended);
    if kind == Patterns.Regex || kind == Patterns.Glob then
      Ok(Patterns.MatchPattern(kind, actual, command, h.search, h.fullMatch, h.home, h.inClass))
    else if StartsWith(actual, "**/") && EndsWith(actual, "/**") then
      Ok(ContainsPathComponent(command, InnerComponent(actual)))
    else
      var normalized := Replace(actual, "**", "*");
      match IndexOf(normalized, ':')
      case None => Ok(exists v :: v in variants && FnMatch.FnMatch(v, normalized, h.inClass))
      case Some(k) => ColonMatch(Trim(normalized[..k]), Trim(normalized[k + 1..]), variants, h.inClass)
  }

  /**
   * The loop of `match_command` from the pattern at index `i` on, with
   * `test` deciding each pattern: the first pattern that matches, or the
   * first error.
   */
  function FirstMatch(patterns: seq<string>, i: nat, test: string -> Result<bool, string>): (r: Result<Option<string>, string>)
    requires i <= |patterns|
    ensures r.Ok? && r.value.Some? ==> r.value.value in patterns[i..]
    ensures r.Err? ==> exists p :: p in patterns[i..] && test(p) == Err(r.error)
    decreases |patterns| - i
  {
    if i == |patterns| then Ok(None)
    else
      match test(patterns[i])
      case Err(e) => Err(e)
      case Ok(true) => Ok(Some(patterns[i]))
      case Ok(false) => FirstMatch(patterns, i + 1, test)
  }

  /** The patterns from `i` up to `m` all fail to match, without error. */
  ghost predicate NoneIn(patterns: seq<string>, i: nat, m: nat, test: string -> Result<bool, string>)
    requires m <= |patterns|
  {
    forall j :: i <= j < m ==> test(patterns[j]) == Ok(false)
  }

  lemma {:induction false} FirstMatchDecided(patterns: seq<string>, i: nat, m: nat, test: string -> Result<bool, string>)
    requires i <= m < |patterns| && NoneIn(patterns, i, m, test) && test(patterns[m]) != Ok(false)
    ensures FirstMatch(patterns, i, test) == if test(patterns[m]).Ok? then Ok(Some(patterns[m])) else Err(test(patterns[m]).error)
    decreases m - i
  {
    if i < m {
      FirstMatchDecided(patterns, i + 1, m, test);
    }
  }

  lemma {:induction false} FirstMatchNone(patterns: seq<string>, i: nat, test: string -> Result<bool, string>)
    requires i <= |patterns|
    ensures FirstMatch(patterns, i, test) == Ok(None) <==> NoneIn(patterns, i, |patterns|, test)
    decreases |patterns| - i
  {
    if i < |patterns| {
      FirstMatchNone(patterns, i + 1, test);
    }
  }

  /** A reported pattern is the first one that matched, and every pattern before it failed without error. */
  lemma {:induction false} FirstMatchSome(patterns: seq<string>, i: nat, test: string -> Result<bool, string>)
    requires i <= |patterns| && FirstMatch(patterns, i, test).Ok? && FirstMatch(patterns, i, test).value.Some?
    ensures exists m ::
      && i <= m < |patterns| && NoneIn(patterns, i, m, test) && test(patterns[m]) == Ok(true)
      && FirstMatch(patterns, i, test).value.value == patterns[m]
    decreases |patterns| - i
  {
    if test(patterns[i]) == Ok(false) {
      FirstMatchSome(patterns, i + 1, test);
      var m :| i + 1 <= m < |patterns| && NoneIn(patterns, i + 1, m, test) && test(patterns[m]) == Ok(true) &&
        FirstMatch(patterns, i + 1, test).value.value == patterns[m];
      assert NoneIn(patterns, i, m, test);
    } else {
      assert NoneIn(patterns, i, i, test);
    }
  }

  /** The two forms of the command every pattern is tried against. */
  function Variants(command: string, h: Host): seq<string> {
    [command, NormalizePathInCommand(command, h)]
  }

  /** How `match_command` decides each pattern for this command. */
  function Tester(command: string, extended: bool, h: Host): string -> Result<bool, string> {
    var variants := Variants(command, h);
    p => PatternMatches(p, command, variants, extended, h)
  }

  /** `match_command(command, patterns, extended)`: `Some(pattern)` for the first pattern that matches. */
  function MatchCommand(command: string, patterns: seq<string>, extended: bool, h: Host): (r: Result<Option<string>, string>)
    ensures patterns == [] ==> r == Ok(None)
    ensures r.Ok? && r.value.Some? ==> r.value.value in patterns
  {
    FirstMatch(patterns, 0, Tester(command, extended, h))
  }

  /**
   * Patterns are tried in order: the first pattern that does not simply
   * fail decides. If it matches, it is the one reported; if it raises, the
   * error is the result.
   */
  lemma MatchCommandFirst(command: string, patterns: seq<string>, m: nat, extended: bool, h: Host)
    requires m < |patterns|
    requires forall j :: 0 <= j < m ==> PatternMatches(patterns[j], command, Variants(command, h), extended, h) == Ok(false)
    requires PatternMatches(patterns[m], command, Variants(command, h), extended, h) != Ok(false)
    ensures var o := PatternMatches(patterns[m], command, Variants(command, h), extended, h);
      MatchCommand(command, patterns, extended, h) == if o.Ok? then Ok(Some(patterns[m])) else Err(o.error)
  {
    FirstMatchDecided(patterns, 0, m, Tester(command, extended, h));
  }

  /** A reported pattern is the first one that matched. */
  lemma MatchCommandSome(command: string, patterns: seq<string>, extended: bool, h: Host)
    requires MatchCommand(command, patterns, extended, h).Ok? && MatchCommand(command, patterns, extended, h).value.Some?
    ensures exists m ::
      && 0 <= m < |patterns| && patterns[m] == MatchCommand(command, patterns, extended, h).value.value
      && PatternMatches(patterns[m], command, Variants(command, h), extended, h) == Ok(true)
      && forall j :: 0 <= j < m ==> PatternMatches(patterns[j], command, Variants(command, h), extended, h) == Ok(false)
  {
    FirstMatchSome(patterns, 0, Tester(command, extended, h));
  }

  /** No pattern is reported exactly when every pattern fails to match without error. */
  lemma MatchCommandNone(command: string, patterns: seq<string>, extended: bool, h: Host)
    ensures MatchCommand(command, patterns, extended, h) == Ok(None) <==>
      forall j :: 0 <= j < |patterns| ==> PatternMatches(patterns[j], command, Variants(command, h), extended, h) == Ok(false)
  {
    FirstMatchNone(patterns, 0, Tester(command, extended, h));
  }

  /** Regular-expression and glob patterns see only the command as given: path normalisation and `fnmatch` classes play no part. */
  lemma ExtendedIgnoresNormalization(pattern: string, command: string, variants: seq<string>, variants': seq<string>, extended: bool, h: Host,
                                     resolve': string -> string, inClass': (string, char) -> bool)
    requires Patterns.ParsePattern(pattern, extended).0 in {Patterns.Regex, Patterns.Glob}
    ensures PatternMatches(pattern, command, variants, extended, h) ==
      PatternMatches(pattern, command, variants', extended, h.(resolve := resolve', inClass := inClass'))
  {
  }

  /** `**` + `/c/` + `**` asks whether `c` is a path component of some argument. */
  lemma ComponentPattern(component: string, command: string, variants: seq<string>, extended: bool, h: Host)
    ensures PatternMatches("**/" + component + "/**", command, variants, extended, h) == Ok(ContainsPathComponent(command, component))
  {
    var p := "**/" + component + "/**";
    assert p[0] == '*' && p[|p| - 1] == '*';
    TrimNoEdge(p);
    Patterns.ParsePatternDefault(p, extended);
    assert p[..3] == "**/" && p[|p| - 3..] == "/**";
    assert p[3..|p| - 3] == component;
  }

  /**
   * A pattern without wildcards or `:` (and not starting or ending with
   * whitespace) matches exactly the command as written or as normalised.
   */
  lemma PlainPatternExact(pattern: string, command: string, variants: seq<string>, extended: bool, h: Host)
    requires pattern != [] && Trim(pattern) == pattern && FnMatch.Plain(pattern) && ':' !in pattern
    ensures PatternMatches(pattern, command, variants, extended, h) == Ok(pattern in variants)
  {
    assert !FnMatch.IsSpecial(pattern[0]);
    Patterns.ParsePatternDefault(pattern, extended);
    forall j: nat
      ensures !OccursAt(pattern, "**", j)
    {
      assert j < |pattern| ==> !FnMatch.IsSpecial(pattern[j]);
    }
    ReplaceAbsent(pattern, "**", "*");
    forall v | v in variants
      ensures FnMatch.FnMatch(v, pattern, h.inClass) <==> v == pattern
    {
      FnMatch.PlainMatchesItself(v, pattern, h.inClass);
    }
  }

  /** How `match_command` reads `word:*`: a default pattern, no `**` to shorten, and the colon right after the word. */
  lemma WordColonShape(word: string)
    requires word != [] && NoSpace(word) && FnMatch.Plain(word) && ':' !in word
    ensures var p := word + ":*";
      && Trim(p) == p && p[0] != '[' && !StartsWith(p, "**/")
      && Replace(p, "**", "*") == p
      && IndexOf(p, ':') == Some(|word|)
      && p[..|word|] == word && p[|word| + 1..] == "*"
  {
    var p := word + ":*";
    assert p[0] == word[0] && p[|p| - 1] == '*';
    assert !FnMatch.IsSpecial(word[0]) && !IsSpace(word[0]);
    TrimNoEdge(p);
    Patterns.DiffersAt(p, "**/", 0);
    forall j: nat
      ensures !OccursAt(p, "**", j)
    {
      assert j < |word| ==> p[j] == word[j] && !FnMatch.IsSpecial(word[j]);
      assert j == |word| ==> p[j] == ':';
    }
    ReplaceAbsent(p, "**", "*");
    assert p[|word|] == ':';
    assert p[..|word|] == word && p[|word| + 1..] == "*";
  }

  /** With a single plain word before it, `:*` asks for exactly that command or that command and a space. */
  lemma ColonStarMatch(word: string, variants: seq<string>, inClass: (string, char) -> bool)
    requires word != [] && NoSpace(word) && FnMatch.Plain(word)
    ensures ColonMatch(word, "*", variants, inClass) == Ok(exists v :: v in variants && (v == word || StartsWith(v, word + " ")))
  {
    SplitOnceOne(word);
    forall v | v in variants
      ensures (StartsWith(v, word + " ") || v == word) && FnMatch.FnMatch(v, word + "*", inClass) <==>
        v == word || StartsWith(v, word + " ")
    {
      FnMatch.PlainStarMatchesPrefix(v, word, inClass);
      if StartsWith(v, word + " ") {
        assert v[..|word|] == (word + " ")[..|word|] == word;
      }
    }
  }

  /**
   * `word:*` matches the command that is exactly `word` or starts with
   * `word` and a space, as written or as normalised.
   */
  lemma ColonStarWord(word: string, command: string, variants: seq<string>, extended: bool, h: Host)
    requires word != [] && NoSpace(word) && FnMatch.Plain(word) && ':' !in word
    ensures PatternMatches(word + ":*", command, variants, extended, h) ==
      Ok(exists v :: v in variants && (v == word || StartsWith(v, word + " ")))
  {
    WordColonShape(word);
    Patterns.ParsePatternDefault(word + ":*", extended);
    TrimNoEdge(word);
    TrimNoEdge("*");
    ColonStarMatch(word, variants, h.inClass);
  }

  /** A `:` pattern with nothing before the colon raises, whatever the command. */
  lemma BlankColonFails(command: string, variants: seq<string>, extended: bool, h: Host)
    ensures PatternMatches(":*", command, variants, extended, h) == Err(IndexErrorMessage)
  {
    var p := ":*";
    TrimNoEdge(p);
    Patterns.ParsePatternDefault(p, extended);
    assert Replace(p, "**", "*") == [':'] + Replace("*", "**", "*");
    assert IndexOf(p, ':') == Some(0);
    assert p[..0] == [] && p[1..] == "*";
    TrimNoEdge("*");
  }

  datatype Verdict = Allow | Deny

  /** A decision and the reason given for it. */
  datatype Decision = Decision(verdict: Verdict, reason: string)

  /** The reason for a decision made by a pattern of the `list` ("allow" or "deny") list. */
  function MatchedReason(subject: string, list: string, pattern: string): string {
    subject + " matches " + list + " pattern: " + pattern
  }

  /** The reason for a denial by default. */
  function UnmatchedReason(subject: string): string {
    subject + " does not match any allow patterns"
  }

  /**
   * The algorithm of `check_permission` and of
   * `check_file_path_permission`, with `test` deciding each pattern and
   * `subject` naming what is checked ("Command" or "Path") in the reason:
   * a matching deny pattern denies, then a matching allow pattern allows,
   * and otherwise the subject is denied. Only a pattern that raises makes
   * the result an error.
   */
  function Decide(subject: string, allow: seq<string>, deny: seq<string>, test: string -> Result<bool, string>): (r: Result<Decision, string>)
    ensures allow == [] && r.Ok? ==> r.value.verdict == Deny
    ensures r.Ok? && r.value.verdict == Allow ==>
      exists p :: p in allow && r.value.reason == MatchedReason(subject, "allow", p)
    ensures r.Ok? && r.value.verdict == Deny ==>
      || r.value.reason == UnmatchedReason(subject)
      || exists p :: p in deny && r.value.reason == MatchedReason(subject, "deny", p)
    ensures r.Err? ==> exists p :: p in deny + allow && test(p) == Err(r.error)
  {
    var denied: Result<Option<string>, string> := if deny == [] then Ok(None) else FirstMatch(deny, 0, test);
    match denied
    case Err(e) => Err(e)
    case Ok(Some(p)) => Ok(Decision(Deny, MatchedReason(subject, "deny", p)))
    case Ok(None) =>
      match FirstMatch(allow, 0, test)
      case Err(e) => Err(e)
      case Ok(Some(p)) => Ok(Decision(Allow, MatchedReason(subject, "allow", p)))
      case Ok(None) => Ok(Decision(Deny, UnmatchedReason(subject)))
  }

  /** A test that never raises gives a decision. */
  lemma DecideOk(subject: string, allow: seq<string>, deny: seq<string>, test: string -> Result<bool, string>)
    requires forall p :: test(p).Ok?
    ensures Decide(subject, allow, deny, test).Ok?
  {
  }

  /** `check_permission(command, allow, deny, extended)`. */
  function CheckPermission(command: string, allow: seq<string>, deny: seq<string>, extended: bool, h: Host): Result<Decision, string> {
    Decide("Command", allow, deny, Tester(command, extended, h))
  }

  /**
   * Deny patterns come first: when a deny pattern is the first deny
   * pattern to match and none before it raises, the command is denied
   * naming it, whatever the allow patterns say.
   */
  lemma DenyWins(subject: string, allow: seq<string>, deny: seq<string>, m: nat, test: string -> Result<bool, string>)
    requires m < |deny| && NoneIn(deny, 0, m, test) && test(deny[m]) == Ok(true)
    ensures Decide(subject, allow, deny, test) == Ok(Decision(Deny, MatchedReason(subject, "deny", deny[m])))
  {
    FirstMatchDecided(deny, 0, m, test);
  }

  /** An allowed command matched no deny pattern, and the reason names the first allow pattern that matched. */
  lemma AllowedSound(subject: string, allow: seq<string>, deny: seq<string>, test: string -> Result<bool, string>)
    requires Decide(subject, allow, deny, test).Ok? && Decide(subject, allow, deny, test).value.verdict == Allow
    ensures NoneIn(deny, 0, |deny|, test)
    ensures exists m: nat ::
      && m < |allow| && NoneIn(allow, 0, m, test) && test(allow[m]) == Ok(true)
      && Decide(subject, allow, deny, test) == Ok(Decision(Allow, MatchedReason(subject, "allow", allow[m])))
  {
    FirstMatchNone(deny, 0, test);
    FirstMatchSome(allow, 0, test);
  }

  /** A command that matches no deny pattern and some allow pattern is allowed, naming the first allow pattern that matches. */
  lemma AllowedComplete(subject: string, allow: seq<string>, deny: seq<string>, m: nat, test: string -> Result<bool, string>)
    requires NoneIn(deny, 0, |deny|, test)
    requires m < |allow| && NoneIn(allow, 0, m, test) && test(allow[m]) == Ok(true)
    ensures Decide(subject, allow, deny, test) == Ok(Decision(Allow, MatchedReason(subject, "allow", allow[m])))
  {
    FirstMatchNone(deny, 0, test);
    FirstMatchDecided(allow, 0, m, test);
  }

  /** When no pattern of either list matches or raises, the command is denied by default. */
  lemma DeniedByDefault(subject: string, allow: seq<string>, deny: seq<string>, test: string -> Result<bool, string>)
    requires NoneIn(deny, 0, |deny|, test) && NoneIn(allow, 0, |allow|, test)
    ensures Decide(subject, allow, deny, test) == Ok(Decision(Deny, UnmatchedReason(subject)))
  {
    FirstMatchNone(deny, 0, test);
    FirstMatchNone(allow, 0, test);
  }
}
