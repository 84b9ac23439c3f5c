/**
 * The permission check for a whole command line, as `compound.py`
 * performs it: the line is broken into the commands it would run, each is
 * checked on its own, and the strictest decision wins.
 *
 * A sub-command whose check raises aborts the whole check with that error.
 * `check_permission` only ever answers allow or deny, so the "ask" branch
 * of the original is never taken and has no counterpart here.
 */
module Compound {
  import opened Results
  import opened Text
  import opened Grammar
  import Extractor
  import Permissions
  import opened Environment

  const NoCommandsReason := "No valid commands found in command line"

  /** The reason given when a compound line is denied because of sub-command `cmd`, itself denied for `reason`. */
  function DeniedReason(cmd: string, reason: string): string {
    "Compound command contains denied sub-command: " + cmd + " (" + reason + ")"
  }

  /** The reason given when all `n` sub-commands are allowed. */
  function AllowedReason(n: nat): string {
    "All " + NatToString(n) + " sub-commands in compound command are allowed"
  }

  /**
   * The loop of `check_compound_permission` from sub-command `i` on: the
   * decision for each, or the error of the first check that raises.
   */
  function CheckFrom(commands: seq<string>, i: nat, check: string -> Result<Permissions.Decision, string>): (r: Result<seq<Permissions.Decision>, string>)
    requires i <= |commands|
    ensures r.Ok? ==> |r.value| == |commands| - i
    decreases |commands| - i
  {
    if i == |commands| then Ok([])
    else
      match check(commands[i])
      case Err(e) => Err(e)
      case Ok(d) =>
        match CheckFrom(commands, i + 1, check)
        case Err(e) => Err(e)
        case Ok(ds) => Ok([d] + ds)
  }

  /** Decision `k` of the loop is the check of sub-command `i + k`. */
  lemma {:induction false} CheckFromAt(commands: seq<string>, i: nat, check: string -> Result<Permissions.Decision, string>, k: nat)
    requires i <= |commands| && CheckFrom(commands, i, check).Ok? && k < |commands| - i
    ensures check(commands[i + k]) == Ok(CheckFrom(commands, i, check).value[k])
    decreases k
  {
    if k > 0 {
      CheckFromAt(commands, i + 1, check, k - 1);
    }
  }

  /** The loop fails exactly when some sub-command's check raises, and then with the first such error. */
  lemma {:induction false} CheckFromErr(commands: seq<string>, i: nat, check: string -> Result<Permissions.Decision, string>)
    requires i <= |commands|
    ensures CheckFrom(commands, i, check).Err? <==> exists k :: i <= k < |commands| && check(commands[k]).Err?
    ensures CheckFrom(commands, i, check).Err? ==> exists k :: i <= k < |commands| && check(commands[k]) == Err(CheckFrom(commands, i, check).error)
    decreases |commands| - i
  {
    if i < |commands| {
      CheckFromErr(commands, i + 1, check);
    }
  }

  /** The first denied decision at or after index `i`. */
  function FirstDenied(ds: seq<Permissions.Decision>, i: nat): (r: Option<nat>)
    requires i <= |ds|
    ensures r.Some? ==> i <= r.value < |ds| && ds[r.value].verdict == Permissions.Deny
    ensures r.Some? ==> forall j :: i <= j < r.value ==> ds[j].verdict == Permissions.Allow
    ensures r.None? ==> forall j :: i <= j < |ds| ==> ds[j].verdict == Permissions.Allow
    decreases |ds| - i
  {
    if i == |ds| then None
    else
      match ds[i].verdict
      case Deny => Some(i)
      case Allow => FirstDenied(ds, i + 1)
  }

  /**
   * The strictest-decision rule, with `check` deciding each sub-command: no
   * command is denied, a single command gets its own decision, and several
   * are denied if any one is and allowed otherwise.
   */
  function Combine(commands: seq<string>, check: string -> Result<Permissions.Decision, string>): (r: Result<Permissions.Decision, string>)
    ensures commands == [] ==> r == Ok(Permissions.Decision(Permissions.Deny, NoCommandsReason))
  {
    if commands == [] then Ok(Permissions.Decision(Permissions.Deny, NoCommandsReason))
    else if |commands| == 1 then check(commands[0])
    else
      match CheckFrom(commands, 0, check)
      case Err(e) => Err(e)
      case Ok(ds) =>
        match FirstDenied(ds, 0)
        case Some(k) => Ok(Permissions.Decision(Permissions.Deny, DeniedReason(commands[k], ds[k].reason)))
        case None => Ok(Permissions.Decision(Permissions.Allow, AllowedReason(|commands|)))
  }

  /** The sub-command `c` is checked and allowed. */
  predicate AllowedBy(check: string -> Result<Permissions.Decision, string>, c: string) {
    check(c).Ok? && check(c).value.verdict == Permissions.Allow
  }

  /** A command line is allowed exactly when it has at least one sub-command and every sub-command is allowed. */
  lemma CombineAllowedIff(commands: seq<string>, check: string -> Result<Permissions.Decision, string>)
    ensures var r := Combine(commands, check);
      (r.Ok? && r.value.verdict == Permissions.Allow) <==>
        commands != [] && forall k :: 0 <= k < |commands| ==> AllowedBy(check, commands[k])
  {
    if |commands| >= 2 {
      CheckFromErr(commands, 0, check);
      match CheckFrom(commands, 0, check) {
        case Err(e) =>
        case Ok(ds) =>
          forall k | 0 <= k < |commands|
            ensures check(commands[k]) == Ok(ds[k])
          {
            CheckFromAt(commands, 0, check, k);
          }
      }
    }
  }

  /**
   * When every check succeeds and sub-command `m` is the first denied one,
   * a line of two or more sub-commands is denied, naming `m` and its reason.
   */
  lemma CombineDeniedFirst(commands: seq<string>, check: string -> Result<Permissions.Decision, string>, m: nat)
    requires |commands| >= 2 && m < |commands|
    requires forall k :: 0 <= k < |commands| ==> check(commands[k]).Ok?
    requires check(commands[m]).value.verdict == Permissions.Deny
    requires forall k :: 0 <= k < m ==> check(commands[k]).value.verdict == Permissions.Allow
    ensures Combine(commands, check) ==
      Ok(Permissions.Decision(Permissions.Deny, DeniedReason(commands[m], check(commands[m]).value.reason)))
  {
    CheckFromErr(commands, 0, check);
    var ds := CheckFrom(commands, 0, check).value;
    forall k | 0 <= k < |commands|
      ensures check(commands[k]) == Ok(ds[k])
    {
      CheckFromAt(commands, 0, check, k);
    }
    var f := FirstDenied(ds, 0);
    assert f.Some? && f.value == m;
  }

  /** A check that fails reports the error of a sub-command's check. */
  lemma CombineErr(commands: seq<string>, check: string -> Result<Permissions.Decision, string>)
    requires Combine(commands, check).Err?
    ensures exists k :: 0 <= k < |commands| && check(commands[k]) == Err(Combine(commands, check).error)
  {
    if |commands| >= 2 {
      CheckFromErr(commands, 0, check);
    }
  }

  /** How each sub-command is checked. */
  function SubCheck(allow: seq<string>, deny: seq<string>, extended: bool, h: Host): string -> Result<Permissions.Decision, string> {
    c => Permissions.CheckPermission(c, allow, deny, extended, h)
  }

  /** `check_compound_permission(command, allow, deny, ask, extended)`; the ask patterns are never consulted. */
  function CheckCompoundPermission(command: string, allow: seq<string>, deny: seq<string>, extended: bool, h: Host): Result<Permissions.Decision, string> {
    Combine(Extractor.Extract(command), SubCheck(allow, deny, extended, h))
  }

  /** `get_command_breakdown(command)`: the sub-commands, stripped and without repeats. */
  function GetCommandBreakdown(command: string): (r: seq<string>)
    ensures Extractor.Distinct(r) && Extractor.Clean(r)
    ensures AllSpace(command) ==> r == []
  {
    Extractor.Extract(command)
  }

  /**
   * Nothing slips through inside an allowed line: every simple command of
   * the parsed line, however deeply nested, is itself allowed by the
   * single-command check.
   */
  lemma NestedCommandChecked(line: string, tree: Node, m: Node, allow: seq<string>, deny: seq<string>, extended: bool, h: Host)
    requires Trim(line) != [] && Parse(line) == Some(tree)
    requires Extractor.Contains(tree, m) && m.SimpleCommand? && Trim(m.text) != []
    requires var r := CheckCompoundPermission(line, allow, deny, extended, h); r.Ok? && r.value.verdict == Permissions.Allow
    ensures var r := Permissions.CheckPermission(Trim(m.text), allow, deny, extended, h); r.Ok? && r.value.verdict == Permissions.Allow
  {
    var cmds := Extractor.Extract(line);
    var check := SubCheck(allow, deny, extended, h);
    Extractor.NestedCommandSurfaced(line, tree, m);
    CombineAllowedIff(cmds, check);
    var k :| 0 <= k < |cmds| && cmds[k] == Trim(m.text);
    assert AllowedBy(check, cmds[k]);
  }

  /** A line that does not parse is allowed only if the whole stripped line is allowed as one command. */
  lemma UnparsedLineChecked(line: string, allow: seq<string>, deny: seq<string>, extended: bool, h: Host)
    requires Trim(line) != [] && Parse(line).None?
    ensures CheckCompoundPermission(line, allow, deny, extended, h) == Permissions.CheckPermission(Trim(line), allow, deny, extended, h)
  {
  }
}
