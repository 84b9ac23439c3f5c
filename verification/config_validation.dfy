/**
 * `config_validation.py`: warnings about tools that appear in the
 * permission lists but that the gate cannot govern, or does not govern.
 *
 * Python collects the mentioned tools in a set and walks it in an order it
 * does not specify; here they are walked in order of first mention.
 */
module ConfigValidation {
  import opened Results
  import opened Text
  import opened Values
  import opened Lists

  const KnownSupportedTools: set<string> :=
    {"Bash", "Read", "Write", "Edit", "mcp__jetbrains__execute_terminal_command"}

  /** `extract_tool_name`: the text before the first `(`, or the whole permission. */
  function ExtractToolName(permission: string): (r: string)
    ensures '(' !in r
    ensures StartsWith(permission, r)
    ensures r != permission ==> permission[|r|] == '('
  {
    match IndexOf(permission, '(')
    case None => permission
    case Some(k) => permission[..k]
  }

  /** The name comes back from `name(args)` and from a bare `name`. */
  lemma ExtractToolNameOf(name: string, args: string)
    requires '(' !in name
    ensures ExtractToolName(name + "(" + args) == name
    ensures ExtractToolName(name) == name
  {
    var p := name + "(" + args;
    assert p[|name|] == '(';
    assert p[..|name|] == name;
    assert '(' !in p[..|name|];
  }

  /** A warning of `validate_permissions`, by kind and tool; its dictionary form is rendered below. */
  datatype Warning = Unsupported(tool: string) | Ungoverned(tool: string)

  /** The `level` entry. */
  function Level(w: Warning): string {
    "warning"
  }

  /** The `message` entry. */
  function Message(w: Warning): string {
    Quoted("Tool ", w.tool) + (if w.Unsupported? then " is not a known supported tool"
      else " appears in permissions but is not in governed_tools list")
  }

  /** `f'{lead}"{name}"'` */
  function Quoted(lead: string, name: string): (r: string)
    ensures |r| == |lead| + |name| + 2
    ensures r[..|lead| + 1] == lead + "\"" && r[|lead| + 1..|lead| + 1 + |name|] == name && r[|r| - 1] == '"'
  {
    lead + "\"" + name + "\""
  }

  /** The `corrective_steps` entry. */
  function CorrectiveSteps(w: Warning): (r: string)
    ensures r != []
  {
    match w
    case Unsupported(t) =>
      "If \"" + t + "\" is a valid tool that should be governed, "
      + "add it to \"additional_supported_tools\" in your config. "
      + "Otherwise, remove it from permissions or update the tool name."
    case Ungoverned(t) =>
      "Add \"" + t + "\" to governed_tools if you want toolguard to enforce these permissions. "
      + "Otherwise, remove \"" + t + "\" permissions from the config."
  }

  /** The message quotes the tool right after `Tool "`, so it tells the warnings of different tools apart. */
  lemma MessageNamesTool(w: Warning)
    ensures var m := Message(w);
      |m| > 7 + |w.tool| && m[..6] == "Tool \"" && m[6..6 + |w.tool|] == w.tool && m[6 + |w.tool|] == '"'
  {
    var q := Quoted("Tool ", w.tool);
    var m := Message(w);
    assert m[..|q|] == q;
  }

  /** `config.get(key, default)` when it is a list, else `default`. */
  function ListOr(config: Value, key: string, default: seq<Value>): (r: seq<Value>)
    requires config.Obj?
  {
    match Get(config, key, Arr(default))
    case Ok(Arr(items)) => items
    case _ => default
  }

  /** A value Python can put in a set. */
  predicate Hashable(v: Value) {
    !v.Arr? && !v.Obj?
  }

  /** The tool names of the string entries of one permission list, in order. */
  function ToolNames(vs: seq<Value>): (r: seq<string>)
    ensures forall t :: t in r <==> exists p :: Str(p) in vs && ExtractToolName(p) == t
    decreases |vs|
  {
    if vs == [] then []
    else
      var rest := ToolNames(vs[1..]);
      assert forall p :: Str(p) in vs <==> Str(p) == vs[0] || Str(p) in vs[1..];
      match vs[0]
      case Str(p) => [ExtractToolName(p)] + rest
      case _ => rest
  }

  /** The tools mentioned in the `allow`, `deny` and `ask` lists of a permissions dictionary, each once. */
  function MentionedTools(permissions: Value): (r: seq<string>)
    requires permissions.Obj?
    ensures Distinct(r)
  {
    var all := ToolNames(ListOr(permissions, "allow", []))
      + ToolNames(ListOr(permissions, "deny", []))
      + ToolNames(ListOr(permissions, "ask", []));
    UniqueSpec(all);
    Unique(all)
  }

  /** `[mk(t) for t in ts if cond(t)]` */
  function WarnFor(ts: seq<string>, cond: string -> bool, mk: string -> Warning): (r: seq<Warning>)
    ensures forall w :: w in r ==> exists t :: t in ts && cond(t) && w == mk(t)
    ensures forall t :: t in ts && cond(t) ==> mk(t) in r
    decreases |ts|
  {
    if ts == [] then []
    else
      var rest := WarnFor(ts[1..], cond, mk);
      assert forall t :: t in ts <==> t == ts[0] || t in ts[1..];
      if cond(ts[0]) then [mk(ts[0])] + rest else rest
  }

  /** Distinct tools and distinct warnings per tool give distinct warnings. */
  lemma {:induction false} WarnForDistinct(ts: seq<string>, cond: string -> bool, mk: string -> Warning)
    requires Distinct(ts)
    requires forall a, b :: a != b ==> mk(a) != mk(b)
    ensures Distinct(WarnFor(ts, cond, mk))
    decreases |ts|
  {
    if ts != [] {
      var rest := WarnFor(ts[1..], cond, mk);
      WarnForDistinct(ts[1..], cond, mk);
      if cond(ts[0]) {
        assert ts[0] !in ts[1..] by {
          forall i | 1 <= i < |ts| ensures ts[i] != ts[0] { }
        }
        assert mk(ts[0]) !in rest;
        var r := [mk(ts[0])] + rest;
        assert forall a, b :: 0 < a < b < |r| ==> r[a] == rest[a - 1] && r[b] == rest[b - 1];
      }
    }
  }

  /** `tool in all_supported_tools` */
  predicate Supported(tool: string, additional: seq<Value>) {
    tool in KnownSupportedTools || Str(tool) in additional
  }

  /** The first value among `vs` that cannot go into a set. */
  function FirstUnhashable(vs: seq<Value>): (r: Option<Value>)
    ensures r.Some? ==> r.value in vs && !Hashable(r.value)
    ensures r.None? ==> forall v :: v in vs ==> Hashable(v)
    decreases |vs|
  {
    if vs == [] then None
    else if !Hashable(vs[0]) then Some(vs[0])
    else
      var r := FirstUnhashable(vs[1..]);
      assert forall v :: v in vs ==> v == vs[0] || v in vs[1..];
      r
  }

  /** The two loops of `validate_permissions` over the mentioned tools. */
  function Warnings(tools: seq<string>, additional: seq<Value>, governed: seq<Value>): seq<Warning> {
    WarnFor(tools, t => !Supported(t, additional), t => Unsupported(t))
      + WarnFor(tools, t => Supported(t, additional) && Str(t) !in governed, t => Ungoverned(t))
  }

  /** Warnings for `tool` exactly as its mention, support and governance require. */
  lemma WarningsIff(tools: seq<string>, additional: seq<Value>, governed: seq<Value>, tool: string)
    ensures var r := Warnings(tools, additional, governed);
      && (Unsupported(tool) in r <==> tool in tools && !Supported(tool, additional))
      && (Ungoverned(tool) in r <==> tool in tools && Supported(tool, additional) && Str(tool) !in governed)
  {
  }

  /** One warning at most per tool and kind when the tools are distinct. */
  lemma WarningsDistinct(tools: seq<string>, additional: seq<Value>, governed: seq<Value>)
    requires Distinct(tools)
    ensures Distinct(Warnings(tools, additional, governed))
  {
    var u := WarnFor(tools, t => !Supported(t, additional), t => Unsupported(t));
    var g := WarnFor(tools, t => Supported(t, additional) && Str(t) !in governed, t => Ungoverned(t));
    WarnForDistinct(tools, t => !Supported(t, additional), t => Unsupported(t));
    WarnForDistinct(tools, t => Supported(t, additional) && Str(t) !in governed, t => Ungoverned(t));
    assert forall w :: w in u ==> w.Unsupported?;
    assert forall w :: w in g ==> w.Ungoverned?;
    var r := u + g;
    forall a, b | 0 <= a < b < |r|
      ensures r[a] != r[b]
    {
      if b < |u| {
      } else if a >= |u| {
        assert r[a] == g[a - |u|] && r[b] == g[b - |u|];
      } else {
        assert r[a] in u && r[b] in g;
      }
    }
  }

  /** The tools a configuration mentions, as `validate_permissions` sees them. */
  function Mentioned(config: Value): (r: seq<string>)
    requires config.Obj?
    ensures Distinct(r)
  {
    match Get(config, "permissions", Obj([]))
    case Ok(Obj(entries)) => MentionedTools(Obj(entries))
    case _ => []
  }

  /**
   * `validate_permissions(config)`: an "unsupported" warning for each
   * mentioned tool outside the known and additional tools, then an
   * "ungoverned" warning for each supported one missing from
   * `governed_tools`. Building the set of additional tools raises when one
   * of them is a list or a dictionary.
   */
  function ValidatePermissions(config: Value): (r: Result<seq<Warning>, string>)
    requires config.Obj?
    ensures r.Ok? <==> forall v :: v in ListOr(config, "additional_supported_tools", []) ==> Hashable(v)
  {
    var governed := ListOr(config, "governed_tools", [Str("Bash")]);
    var additional := ListOr(config, "additional_supported_tools", []);
    match FirstUnhashable(additional)
    case Some(v) => Err("unhashable type: '" + TypeName(v) + "'")
    case None => Ok(Warnings(Mentioned(config), additional, governed))
  }

  /**
   * Exactly the right warnings: "unsupported" for each mentioned tool that
   * is neither known nor additional, "ungoverned" for each supported
   * mentioned tool outside `governed_tools` (which defaults to `["Bash"]`);
   * so no tool gets both.
   */
  lemma ValidateWarningsIff(config: Value, tool: string)
    requires config.Obj? && ValidatePermissions(config).Ok?
    ensures var r := ValidatePermissions(config).value;
      var additional := ListOr(config, "additional_supported_tools", []);
      var governed := ListOr(config, "governed_tools", [Str("Bash")]);
      && (Unsupported(tool) in r <==> tool in Mentioned(config) && !Supported(tool, additional))
      && (Ungoverned(tool) in r <==>
            tool in Mentioned(config) && Supported(tool, additional) && Str(tool) !in governed)
      && !(Unsupported(tool) in r && Ungoverned(tool) in r)
      && Distinct(r)
  {
    var additional := ListOr(config, "additional_supported_tools", []);
    var governed := ListOr(config, "governed_tools", [Str("Bash")]);
    WarningsDistinct(Mentioned(config), additional, governed);
    WarningsIff(Mentioned(config), ListOr(config, "additional_supported_tools", []), ListOr(config, "governed_tools", [Str("Bash")]), tool);
  }

  /** A configuration without a permissions dictionary, the empty one included, draws no warning. */
  lemma NoPermissionsNoWarnings(config: Value)
    requires config.Obj? && ValidatePermissions(config).Ok?
    requires !Get(config, "permissions", Obj([])).value.Obj? || config == Obj([])
    ensures ValidatePermissions(config) == Ok([])
  {
    if config == Obj([]) {
      var p := Obj([]);
      assert Get(config, "permissions", Obj([])) == Ok(p);
      assert ListOr(p, "allow", []) == [] && ListOr(p, "deny", []) == [] && ListOr(p, "ask", []) == [];
      assert MentionedTools(p) == [];
    }
  }

  /** Every warning is one of the two kinds, about a mentioned tool. */
  lemma WarningNamesTool(config: Value, w: Warning)
    requires config.Obj? && ValidatePermissions(config).Ok? && w in ValidatePermissions(config).value
    ensures w.tool in Mentioned(config)
  {
  }
}
