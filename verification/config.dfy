/**
 * The pure side of `config.py`: which configuration files are consulted
 * and in what order, how `Bash(...)` patterns and the `governed_tools`
 * list are read out of a decoded file, and how several files are merged.
 *
 * Reading and decoding a file is I/O: a file is given as `Some(value)`
 * once decoded, or `None` when opening or decoding it failed. Which paths
 * exist is the set `present`. The `CLAUDE_SETTINGS_PATH` override and the
 * search for the project root are left out.
 */
module Config {
  import opened Results
  import opened Text
  import opened Values
  import opened Lists

  // ---------------------------------------------------------------------
  // `Tool(...)` wrappers
  // ---------------------------------------------------------------------

  /** A wrapper prefix such as `Bash(`: the tool name and an opening parenthesis. */
  predicate IsOpener(prefix: string) {
    prefix != [] && prefix[|prefix| - 1] == '('
  }

  /**
   * `isinstance(perm, str) and perm.startswith(prefix) and perm.endswith(')')`,
   * and then `perm[len(prefix):-1]`.
   */
  function Unwrap(prefix: string, v: Value): (r: Option<string>)
    requires IsOpener(prefix)
  {
    match v
    case Str(s) =>
      if StartsWith(s, prefix) && EndsWith(s, ")") then
        assert s[|prefix| - 1] == '(';
        Some(s[|prefix|..|s| - 1])
      else None
    case _ => None
  }

  /** Unwrapping gives `p` exactly for the string `prefix + p + ")"`. */
  lemma UnwrapIff(prefix: string, v: Value, p: string)
    requires IsOpener(prefix)
    ensures Unwrap(prefix, v) == Some(p) <==> v == Str(prefix + p + ")")
  {
    if v == Str(prefix + p + ")") {
      var s := prefix + p + ")";
      assert s[..|prefix|] == prefix;
      assert s[|s| - 1..] == ")";
      assert s[|prefix|..|s| - 1] == p;
    }
    if Unwrap(prefix, v) == Some(p) {
      var s := v.s;
      assert s == s[..|prefix|] + s[|prefix|..|s| - 1] + s[|s| - 1..];
    }
  }

  /** The loop over a permission list: every wrapped pattern, in order, repeats kept. */
  function UnwrapAll(prefix: string, vs: seq<Value>): (r: seq<string>)
    requires IsOpener(prefix)
    ensures |r| <= |vs|
    decreases |vs|
  {
    if vs == [] then []
    else
      match Unwrap(prefix, vs[0])
      case Some(p) => [p] + UnwrapAll(prefix, vs[1..])
      case None => UnwrapAll(prefix, vs[1..])
  }

  /** A pattern is extracted exactly when its wrapped form is in the list. */
  lemma {:induction false} UnwrapAllMember(prefix: string, vs: seq<Value>, p: string)
    requires IsOpener(prefix)
    ensures p in UnwrapAll(prefix, vs) <==> Str(prefix + p + ")") in vs
    decreases |vs|
  {
    if vs != [] {
      UnwrapAllMember(prefix, vs[1..], p);
      UnwrapIff(prefix, vs[0], p);
      assert vs == [vs[0]] + vs[1..];
    }
  }

  /** `[Str(prefix + p + ")") for p in ps]` */
  function WrapAll(prefix: string, ps: seq<string>): (r: seq<Value>)
    ensures |r| == |ps|
    ensures forall k :: 0 <= k < |ps| ==> r[k] == Str(prefix + ps[k] + ")")
  {
    if ps == [] then [] else [Str(prefix + ps[0] + ")")] + WrapAll(prefix, ps[1..])
  }

  /** Extraction undoes wrapping, keeping order and repeats. */
  lemma {:induction false} UnwrapWrapAll(prefix: string, ps: seq<string>)
    requires IsOpener(prefix)
    ensures UnwrapAll(prefix, WrapAll(prefix, ps)) == ps
    decreases |ps|
  {
    if ps != [] {
      UnwrapIff(prefix, Str(prefix + ps[0] + ")"), ps[0]);
      assert WrapAll(prefix, ps)[1..] == WrapAll(prefix, ps[1..]);
      UnwrapWrapAll(prefix, ps[1..]);
    }
  }

  // ---------------------------------------------------------------------
  // `load_permissions_from_file`, `merge_permissions`, `load_permissions`
  // ---------------------------------------------------------------------

  datatype Perms = Perms(allow: seq<string>, deny: seq<string>)

  /** `permissions.get(kind, [])`, iterated, with the `prefix...)` patterns taken out. */
  function WrappedList(permissions: Value, kind: string, prefix: string): (r: Result<seq<string>, string>)
    requires IsOpener(prefix)
  {
    match Get(permissions, kind, Arr([]))
    case Err(e) => Err(e)
    case Ok(list) =>
      match Elements(list)
      case Err(e) => Err(e)
      case Ok(vs) => Ok(UnwrapAll(prefix, vs))
  }

  /**
   * The patterns one decoded file grants and refuses a tool whose wrapper
   * opens with `prefix`: a file that does not load gives none; a decoded
   * file whose sections have the wrong type raises.
   */
  function PatternsFromFile(prefix: string, loaded: Option<Value>): (r: Result<Perms, string>)
    requires IsOpener(prefix)
    ensures loaded.None? ==> r == Ok(Perms([], []))
    ensures loaded.Some? && !loaded.value.Obj? ==> r.Err?
  {
    match loaded
    case None => Ok(Perms([], []))
    case Some(config) =>
      match Get(config, "permissions", Obj([]))
      case Err(e) => Err(e)
      case Ok(permissions) =>
        match WrappedList(permissions, "allow", prefix)
        case Err(e) => Err(e)
        case Ok(allow) =>
          match WrappedList(permissions, "deny", prefix)
          case Err(e) => Err(e)
          case Ok(deny) => Ok(Perms(allow, deny))
  }

  /** `load_permissions_from_file` (not strict): the `Bash(...)` patterns of one file. */
  function LoadPermissionsFromFile(loaded: Option<Value>): Result<Perms, string> {
    PatternsFromFile("Bash(", loaded)
  }

  /** A well-formed file with lists of permissions yields exactly the `prefix...)` entries of each list, unwrapped. */
  lemma PatternsFromLists(prefix: string, allow: seq<Value>, deny: seq<Value>, p: string)
    requires IsOpener(prefix)
    ensures var r := PatternsFromFile(prefix, Some(Obj([("permissions", Obj([("allow", Arr(allow)), ("deny", Arr(deny))]))])));
      && r.Ok?
      && (p in r.value.allow <==> Str(prefix + p + ")") in allow)
      && (p in r.value.deny <==> Str(prefix + p + ")") in deny)
  {
    var perms := Obj([("allow", Arr(allow)), ("deny", Arr(deny))]);
    var config := Obj([("permissions", perms)]);
    assert Get(config, "permissions", Obj([])) == Ok(perms);
    assert Get(perms, "allow", Arr([])) == Ok(Arr(allow));
    assert "allow"[0] != "deny"[0];
    assert perms.entries[1..] == [("deny", Arr(deny))];
    assert Lookup(perms.entries, "deny") == Lookup(perms.entries[1..], "deny");
    assert Get(perms, "deny", Arr([])) == Ok(Arr(deny));
    UnwrapAllMember(prefix, allow, p);
    UnwrapAllMember(prefix, deny, p);
  }

  function AllowLists(ps: seq<Perms>): (r: seq<seq<string>>)
    ensures |r| == |ps| && forall k :: 0 <= k < |ps| ==> r[k] == ps[k].allow
  {
    if ps == [] then [] else [ps[0].allow] + AllowLists(ps[1..])
  }

  function DenyLists(ps: seq<Perms>): (r: seq<seq<string>>)
    ensures |r| == |ps| && forall k :: 0 <= k < |ps| ==> r[k] == ps[k].deny
  {
    if ps == [] then [] else [ps[0].deny] + DenyLists(ps[1..])
  }

  /** `merge_permissions`: the union of the allow lists and of the deny lists, each in first-occurrence order. */
  function MergePermissions(ps: seq<Perms>): Perms {
    Perms(Unique(Flatten(AllowLists(ps))), Unique(Flatten(DenyLists(ps))))
  }

  /**
   * The merged lists have no repeats; a pattern is allowed (denied) after
   * merging exactly when some source allows (denies) it.
   */
  lemma MergePermissionsSpec(ps: seq<Perms>, p: string)
    ensures Distinct(MergePermissions(ps).allow) && Distinct(MergePermissions(ps).deny)
    ensures p in MergePermissions(ps).allow <==> exists k :: 0 <= k < |ps| && p in ps[k].allow
    ensures p in MergePermissions(ps).deny <==> exists k :: 0 <= k < |ps| && p in ps[k].deny
  {
    UniqueSpec(Flatten(AllowLists(ps)));
    UniqueSpec(Flatten(DenyLists(ps)));
    FlattenMember(AllowLists(ps), p);
    FlattenMember(DenyLists(ps), p);
  }

  /** Merging the first sources gives a prefix of merging them all: earlier sources keep their patterns' positions. */
  lemma MergePermissionsPrefix(ps: seq<Perms>, k: nat)
    requires k <= |ps|
    ensures MergePermissions(ps[..k]).allow <= MergePermissions(ps).allow
    ensures MergePermissions(ps[..k]).deny <= MergePermissions(ps).deny
  {
    assert AllowLists(ps[..k]) == AllowLists(ps)[..k];
    assert DenyLists(ps[..k]) == DenyLists(ps)[..k];
    UniqueFlattenPrefix(AllowLists(ps), k);
    UniqueFlattenPrefix(DenyLists(ps), k);
  }

  /** The files that loaded, in order; a file whose loading raises is skipped. */
  function LoadedPerms(files: seq<Option<Value>>): (r: seq<Perms>)
    decreases |files|
  {
    if files == [] then []
    else
      match LoadPermissionsFromFile(files[0])
      case Ok(p) => [p] + LoadedPerms(files[1..])
      case Err(_) => LoadedPerms(files[1..])
  }

  /** `load_permissions` over the discovered files (without `CLAUDE_SETTINGS_PATH`). */
  function LoadPermissions(files: seq<Option<Value>>): Perms {
    MergePermissions(LoadedPerms(files))
  }

  /** A pattern is allowed after loading exactly when some file loads and allows it; a broken file costs only its own patterns. */
  lemma {:induction false} LoadedAllowMember(files: seq<Option<Value>>, p: string)
    ensures p in Flatten(AllowLists(LoadedPerms(files))) <==>
      exists j :: 0 <= j < |files| && LoadPermissionsFromFile(files[j]).Ok? && p in LoadPermissionsFromFile(files[j]).value.allow
    decreases |files|
  {
    if files != [] {
      LoadedAllowMember(files[1..], p);
      var rest := LoadedPerms(files[1..]);
      var here := LoadPermissionsFromFile(files[0]);
      if here.Ok? {
        assert LoadedPerms(files) == [here.value] + rest;
        assert ([here.value] + rest)[1..] == rest;
        assert AllowLists(LoadedPerms(files)) == [here.value.allow] + AllowLists(rest);
        assert ([here.value.allow] + AllowLists(rest))[1..] == AllowLists(rest);
      }
      forall j | 0 <= j < |files| - 1
        ensures files[1..][j] == files[j + 1]
      {
      }
    }
  }

  /** After merging, a pattern is allowed exactly when some file that loads allows it. */
  lemma LoadPermissionsAllow(files: seq<Option<Value>>, p: string)
    ensures p in LoadPermissions(files).allow <==>
      exists j :: 0 <= j < |files| && LoadPermissionsFromFile(files[j]).Ok? && p in LoadPermissionsFromFile(files[j]).value.allow
  {
    UniqueSpec(Flatten(AllowLists(LoadedPerms(files))));
    LoadedAllowMember(files, p);
  }

  // ---------------------------------------------------------------------
  // `governed_tools`
  // ---------------------------------------------------------------------

  /**
   * `load_governed_tools_from_file`: a file that does not load gives
   * nothing, a non-list `governed_tools` gives nothing, and otherwise its
   * string entries are kept in order.
   */
  function GovernedToolsFromFile(loaded: Option<Value>): (r: Result<seq<string>, string>)
    ensures loaded.None? ==> r == Ok([])
    ensures loaded.Some? ==> (r.Ok? <==> loaded.value.Obj?)
  {
    match loaded
    case None => Ok([])
    case Some(config) =>
      match Get(config, "governed_tools", Arr([]))
      case Err(e) => Err(e)
      case Ok(Arr(items)) => Ok(Strings(items))
      case Ok(_) => Ok([])
  }

  /** `merge_governed_tools`: the union in first-occurrence order. */
  function MergeGovernedTools(lists: seq<seq<string>>): (r: seq<string>)
    ensures lists == [] ==> r == []
  {
    Unique(Flatten(lists))
  }

  /** The merged list has no repeats and holds exactly the tools of the inputs. */
  lemma MergeGovernedToolsSpec(lists: seq<seq<string>>, t: string)
    ensures Distinct(MergeGovernedTools(lists))
    ensures t in MergeGovernedTools(lists) <==> exists k :: 0 <= k < |lists| && t in lists[k]
  {
    UniqueSpec(Flatten(lists));
    FlattenMember(lists, t);
  }

  /** The non-empty tool lists of the hook files, in order; the first file that raises aborts. */
  function ToolLists(hookFiles: seq<Option<Value>>): (r: Result<seq<seq<string>>, string>)
    ensures r.Ok? ==> forall k :: 0 <= k < |r.value| ==> r.value[k] != []
    decreases |hookFiles|
  {
    if hookFiles == [] then Ok([])
    else
      match GovernedToolsFromFile(hookFiles[0])
      case Err(e) => Err(e)
      case Ok(tools) =>
        match ToolLists(hookFiles[1..])
        case Err(e) => Err(e)
        case Ok(rest) => if tools != [] then Ok([tools] + rest) else Ok(rest)
  }

  const DefaultGoverned: seq<string> := ["Bash"]

  /**
   * `load_governed_tools` over the `toolguard_hook` files that exist:
   * `["Bash"]` when there are none or none names a tool, else the merge.
   */
  function LoadGovernedTools(hookFiles: seq<Option<Value>>): (r: Result<seq<string>, string>)
    ensures hookFiles == [] ==> r == Ok(DefaultGoverned)
    ensures r.Ok? ==> r.value != [] && Distinct(r.value)
  {
    if hookFiles == [] then Ok(DefaultGoverned)
    else
      match ToolLists(hookFiles)
      case Err(e) => Err(e)
      case Ok(lists) =>
        if lists == [] then Ok(DefaultGoverned)
        else
          UniqueSpec(Flatten(lists));
          FlattenMember(lists, lists[0][0]);
          Ok(MergeGovernedTools(lists))
  }

  /** When every hook file loads but none names a tool, the default `["Bash"]` applies. */
  lemma {:induction false} NoToolsDefault(hookFiles: seq<Option<Value>>)
    requires forall k :: 0 <= k < |hookFiles| ==> GovernedToolsFromFile(hookFiles[k]) == Ok([])
    ensures LoadGovernedTools(hookFiles) == Ok(DefaultGoverned)
  {
    NoToolLists(hookFiles);
  }

  lemma {:induction false} NoToolLists(hookFiles: seq<Option<Value>>)
    requires forall k :: 0 <= k < |hookFiles| ==> GovernedToolsFromFile(hookFiles[k]) == Ok([])
    ensures ToolLists(hookFiles) == Ok([])
    decreases |hookFiles|
  {
    if hookFiles != [] {
      assert GovernedToolsFromFile(hookFiles[0]) == Ok([]);
      NoToolLists(hookFiles[1..]);
    }
  }

  /**
   * A loaded dictionary names exactly the strings of its `governed_tools`
   * list, and nothing when that entry is missing or not a list.
   */
  lemma GovernedToolsMember(entries: seq<(string, Value)>, t: string)
    ensures var r := GovernedToolsFromFile(Some(Obj(entries)));
      var g := Lookup(entries, "governed_tools");
      r.Ok? && (t in r.value <==> g.Some? && g.value.Arr? && Str(t) in g.value.items)
  {
  }

  // ---------------------------------------------------------------------
  // `discover_config_files`
  // ---------------------------------------------------------------------

  datatype Source = Claude | ToolguardHook
  datatype Format = Json | Toml

  datatype ConfigFile = ConfigFile(path: string, source: Source, format: Format)

  /** A base name to look for in a directory, and whether a `.toml` form is preferred. */
  datatype Candidate = Candidate(dir: string, base: string, source: Source, preferToml: bool)

  /** The four candidates of one `.claude` directory, in priority order. */
  function Level(dir: string): seq<Candidate> {
    [ Candidate(dir, "toolguard_hook.local", ToolguardHook, true),
      Candidate(dir, "settings.local", Claude, false),
      Candidate(dir, "toolguard_hook", ToolguardHook, true),
      Candidate(dir, "settings", Claude, false) ]
  }

  function PathOf(c: Candidate, ext: string): string {
    c.dir + "/" + c.base + "." + ext
  }

  /** The file one candidate contributes: its TOML form if preferred and present, else its JSON form if present. */
  function Pick(c: Candidate, present: set<string>): (r: Option<ConfigFile>)
    ensures r.Some? ==> r.value.source == c.source && r.value.path in present
    ensures r.Some? && r.value.format == Toml ==> c.preferToml
  {
    if c.preferToml && PathOf(c, "toml") in present then Some(ConfigFile(PathOf(c, "toml"), c.source, Toml))
    else if PathOf(c, "json") in present then Some(ConfigFile(PathOf(c, "json"), c.source, Json))
    else None
  }

  /** The loop of `discover_config_files` over the candidates, in order. */
  function PickAll(cs: seq<Candidate>, present: set<string>): (r: seq<ConfigFile>)
    ensures |r| <= |cs|
    ensures forall f :: f in r <==> exists c :: c in cs && Pick(c, present) == Some(f)
    decreases |cs|
  {
    if cs == [] then []
    else
      var rest := PickAll(cs[1..], present);
      assert forall c :: c in cs <==> c == cs[0] || c in cs[1..];
      match Pick(cs[0], present)
      case Some(f) => [f] + rest
      case None => rest
  }

  /**
   * The candidates of `discover_config_files`: the project's `.claude`
   * directory (when a project root was found), then the user's.
   */
  function Candidates(projectDir: Option<string>, userDir: string): seq<Candidate> {
    (match projectDir case Some(d) => Level(d) case None => []) + Level(userDir)
  }

  /**
   * `discover_config_files`: every candidate that has a file to read
   * contributes exactly that file, and nothing else is discovered.
   */
  function DiscoverConfigFiles(projectDir: Option<string>, userDir: string, present: set<string>): (r: seq<ConfigFile>)
    ensures |r| <= 8
    ensures forall f :: f in r <==> exists c :: c in Candidates(projectDir, userDir) && Pick(c, present) == Some(f)
  {
    PickAll(Candidates(projectDir, userDir), present)
  }

  /** Every discovered file comes from some candidate; it exists; TOML is chosen only where preferred. */
  lemma {:induction false} PickAllSound(cs: seq<Candidate>, present: set<string>, f: ConfigFile)
    requires f in PickAll(cs, present)
    ensures exists c :: c in cs && Pick(c, present) == Some(f)
    ensures f.path in present
    ensures f.format == Toml ==> f.source == ToolguardHook || exists c :: c in cs && c.preferToml && c.source == f.source
    decreases |cs|
  {
    if Pick(cs[0], present) != Some(f) {
      PickAllSound(cs[1..], present, f);
    }
  }

  /**
   * The files picked from `cs`, in candidate order: `idx` lists, for each
   * picked file, the index of the candidate it comes from; the indices
   * increase, and every candidate with a file to read appears among them.
   */
  predicate PickedInOrder(cs: seq<Candidate>, present: set<string>, r: seq<ConfigFile>, idx: seq<nat>) {
    && |idx| == |r|
    && (forall i :: 0 <= i < |idx| ==> idx[i] < |cs| && Pick(cs[idx[i]], present) == Some(r[i]))
    && (forall i, j :: 0 <= i < j < |idx| ==> idx[i] < idx[j])
    && (forall j :: 0 <= j < |cs| && Pick(cs[j], present).Some? ==> j in idx)
  }

  /** The loop keeps one file per candidate that has one, in candidate order. */
  lemma {:induction false} PickAllInOrder(cs: seq<Candidate>, present: set<string>) returns (idx: seq<nat>)
    ensures PickedInOrder(cs, present, PickAll(cs, present), idx)
    decreases |cs|
  {
    if cs == [] {
      idx := [];
    } else {
      var tail := PickAll(cs[1..], present);
      var rest := PickAllInOrder(cs[1..], present);
      idx := ShiftIndexes(cs, present, tail, rest);
      match Pick(cs[0], present)
      case Some(f) =>
        assert PickAll(cs, present) == [f] + tail;
        idx := PrependFirst(cs, present, tail, idx, f);
      case None =>
        assert PickAll(cs, present) == tail;
    }
  }

  /** Indices into `cs[1..]` become indices into `cs`, skipping `cs[0]`. */
  lemma ShiftIndexes(cs: seq<Candidate>, present: set<string>, r: seq<ConfigFile>, rest: seq<nat>) returns (idx: seq<nat>)
    requires cs != []
    requires PickedInOrder(cs[1..], present, r, rest)
    ensures |idx| == |r|
    ensures forall i :: 0 <= i < |idx| ==> 0 < idx[i] < |cs| && Pick(cs[idx[i]], present) == Some(r[i])
    ensures forall i, j :: 0 <= i < j < |idx| ==> idx[i] < idx[j]
    ensures forall j :: 0 < j < |cs| && Pick(cs[j], present).Some? ==> j in idx
  {
    idx := seq(|rest|, i requires 0 <= i < |rest| => rest[i] + 1);
    ShiftedPicks(cs, present, r, rest, idx);
    ShiftedCovers(cs, present, rest, idx);
  }

  /** Each shifted index still names the candidate its file came from. */
  lemma ShiftedPicks(cs: seq<Candidate>, present: set<string>, r: seq<ConfigFile>, rest: seq<nat>, idx: seq<nat>)
    requires cs != [] && |rest| == |r| == |idx|
    requires forall i :: 0 <= i < |rest| ==> rest[i] < |cs| - 1 && Pick(cs[1..][rest[i]], present) == Some(r[i])
    requires forall i :: 0 <= i < |rest| ==> idx[i] == rest[i] + 1
    ensures forall i :: 0 <= i < |idx| ==> 0 < idx[i] < |cs| && Pick(cs[idx[i]], present) == Some(r[i])
  {
    forall i | 0 <= i < |idx|
      ensures 0 < idx[i] < |cs| && Pick(cs[idx[i]], present) == Some(r[i])
    {
      assert cs[1..][rest[i]] == cs[idx[i]];
    }
  }

  /** Every later candidate with a file to read is among the shifted indices. */
  lemma ShiftedCovers(cs: seq<Candidate>, present: set<string>, rest: seq<nat>, idx: seq<nat>)
    requires cs != [] && |rest| == |idx|
    requires forall j :: 0 <= j < |cs| - 1 && Pick(cs[1..][j], present).Some? ==> j in rest
    requires forall i :: 0 <= i < |rest| ==> idx[i] == rest[i] + 1
    ensures forall j :: 0 < j < |cs| && Pick(cs[j], present).Some? ==> j in idx
  {
    forall j | 0 < j < |cs| && Pick(cs[j], present).Some?
      ensures j in idx
    {
      assert cs[1..][j - 1] == cs[j];
      var i :| 0 <= i < |rest| && rest[i] == j - 1;
      assert idx[i] == j;
    }
  }

  /** A file picked from `cs[0]` goes in front, at index 0. */
  lemma PrependFirst(cs: seq<Candidate>, present: set<string>, r: seq<ConfigFile>, shifted: seq<nat>, f: ConfigFile) returns (idx: seq<nat>)
    requires cs != [] && Pick(cs[0], present) == Some(f)
    requires |shifted| == |r|
    requires forall i :: 0 <= i < |shifted| ==> 0 < shifted[i] < |cs| && Pick(cs[shifted[i]], present) == Some(r[i])
    requires forall i, j :: 0 <= i < j < |shifted| ==> shifted[i] < shifted[j]
    requires forall j :: 0 < j < |cs| && Pick(cs[j], present).Some? ==> j in shifted
    ensures PickedInOrder(cs, present, [f] + r, idx)
  {
    idx := [0] + shifted;
    assert forall i :: 0 < i < |idx| ==> idx[i] == shifted[i - 1] && ([f] + r)[i] == r[i - 1];
  }

  /**
   * The discovered files are one per candidate that has a file to read, in
   * candidate order: the project's local hook file, local settings, hook
   * file and settings, then the user's in the same order.
   */
  lemma DiscoverOrder(projectDir: Option<string>, userDir: string, present: set<string>) returns (idx: seq<nat>)
    ensures PickedInOrder(Candidates(projectDir, userDir), present, DiscoverConfigFiles(projectDir, userDir, present), idx)
  {
    idx := PickAllInOrder(Candidates(projectDir, userDir), present);
  }

  /**
   * Format preference: when both forms exist, a candidate that prefers TOML
   * reads the TOML file and any other reads the JSON one; a candidate
   * contributes nothing exactly when no form it may read exists; and the
   * file read always has the candidate's own path, extension and source.
   */
  lemma PickPrefers(c: Candidate, present: set<string>)
    ensures PathOf(c, "toml") in present && PathOf(c, "json") in present ==>
      Pick(c, present).Some? && Pick(c, present).value.format == (if c.preferToml then Toml else Json)
    ensures Pick(c, present).None? <==> PathOf(c, "json") !in present && !(c.preferToml && PathOf(c, "toml") in present)
    ensures Pick(c, present).Some? ==>
      var f := Pick(c, present).value;
      f.source == c.source && f.path == PathOf(c, if f.format == Toml then "toml" else "json")
  {
  }

  /** The `toolguard_hook` files among the discovered ones, as `load_governed_tools` filters them. */
  function HookFiles(files: seq<ConfigFile>): (r: seq<ConfigFile>)
    ensures forall f :: f in r <==> f in files && f.source == ToolguardHook
    decreases |files|
  {
    if files == [] then []
    else
      var rest := HookFiles(files[1..]);
      assert forall f :: f in files <==> f == files[0] || f in files[1..];
      if files[0].source == ToolguardHook then [files[0]] + rest else rest
  }
}
