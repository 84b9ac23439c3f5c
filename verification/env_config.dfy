/**
 * `env_config.py`: the line parser of `load_env_file` and the boolean
 * lookup `get_bool_env`. The file's lines and the process environment
 * (`os.environ`) are parameters; locating the project root and reading the
 * file are left out.
 */
module EnvConfig {
  import opened Results
  import opened Text

  /**
   * `value[1:-1]` when `value` starts and ends with the same quote, `"`
   * tried first; a lone quote character becomes empty.
   */
  function StripQuotes(value: string): (r: string)
    ensures |r| <= |value|
  {
    if (StartsWith(value, "\"") && EndsWith(value, "\"")) || (StartsWith(value, "'") && EndsWith(value, "'")) then
      if |value| == 1 then [] else value[1..|value| - 1]
    else value
  }

  /** One pair of surrounding quotes comes off, and only one. */
  lemma StripQuotesOf(v: string)
    ensures StripQuotes("\"" + v + "\"") == v
    ensures StripQuotes("'" + v + "'") == v
    ensures v == [] || (v[0] != '"' && v[0] != '\'') ==> StripQuotes(v) == v
  {
    var d := "\"" + v + "\"";
    assert d[1..|d| - 1] == v;
    var q := "'" + v + "'";
    assert q[1..|q| - 1] == v;
  }

  /**
   * One line of the `.env` file: blank lines, `#` comments and lines
   * without `=` give nothing; otherwise the line is split at its first `=`,
   * key and value are stripped, and the value loses one pair of quotes.
   */
  function ParseEnvLine(raw: string): (r: Option<(string, string)>)
    ensures r.None? <==> Trim(raw) == [] || StartsWith(Trim(raw), "#") || '=' !in Trim(raw)
    ensures r.Some? ==> '=' !in r.value.0 && Trim(r.value.0) == r.value.0
  {
    var line := Trim(raw);
    if line == [] || StartsWith(line, "#") then None
    else
      match IndexOf(line, '=')
      case None => None
      case Some(k) =>
        TrimIdempotent(line[..k]);
        TrimSubstring(line[..k]);
        Some((Trim(line[..k]), StripQuotes(Trim(line[k + 1..]))))
  }

  /** Stripping keeps a substring, so a key without `=` stays without it. */
  lemma TrimSubstring(s: string)
    ensures forall c :: c in Trim(s) ==> c in s
  {
    TrimRemovesOnlySpace(s);
  }

  /** `KEY=VALUE` with a plain key and an unquoted value parses to exactly that pair. */
  lemma ParsePlainLine(key: string, value: string)
    requires key != [] && NoSpace(key) && '=' !in key && key[0] != '#'
    requires NoSpace(value) && (value == [] || (value[0] != '"' && value[0] != '\''))
    ensures ParseEnvLine(key + "=" + value) == Some((key, value))
  {
    var line := key + "=" + value;
    assert line[0] == key[0];
    assert line[|line| - 1] == if value == [] then '=' else value[|value| - 1];
    TrimNoEdge(line);
    assert line[..|key|] == key && line[|key|] == '=';
    assert line[|key| + 1..] == value;
    assert '=' !in line[..|key|];
    FirstIndex(line, '=', |key|);
    assert !StartsWith(line, "#") by {
      assert line[..1][0] == key[0];
    }
    assert ParseEnvLine(line) == Some((Trim(line[..|key|]), StripQuotes(Trim(line[|key| + 1..]))));
    TrimNoEdge(key);
    TrimNoEdge(value);
    StripQuotesOf(value);
  }

  /** The first occurrence of `c` is where `c` occurs with none before it. */
  lemma FirstIndex(s: string, c: char, i: nat)
    requires i < |s| && s[i] == c && c !in s[..i]
    ensures IndexOf(s, c) == Some(i)
  {
    var k := IndexOf(s, c).value;
    assert s[..i + 1][i] == c;
  }

  /** What each line of the file sets, if anything. */
  function ParseAll(lines: seq<string>): (r: seq<Option<(string, string)>>)
    ensures |r| == |lines|
    ensures forall k :: 0 <= k < |r| ==> r[k] == ParseEnvLine(lines[k])
  {
    seq(|lines|, k requires 0 <= k < |lines| => ParseEnvLine(lines[k]))
  }

  /** Applies the assignments in order, so a later one overrides an earlier one. */
  function Assign(ps: seq<Option<(string, string)>>): map<string, string>
    decreases |ps|
  {
    if ps == [] then map[]
    else
      var before := Assign(ps[..|ps| - 1]);
      match ps[|ps| - 1]
      case None => before
      case Some((k, v)) => before[k := v]
  }

  /** The loop of `load_env_file`: each parsed line sets its key, a later line overriding an earlier one. */
  function ParseEnvLines(lines: seq<string>): map<string, string> {
    Assign(ParseAll(lines))
  }

  /** The assignment at `j` is the last one to `key`. */
  ghost predicate LastAssigns(ps: seq<Option<(string, string)>>, j: nat, key: string, value: string) {
    && j < |ps| && ps[j] == Some((key, value))
    && forall i :: j < i < |ps| ==> ps[i].None? || ps[i].value.0 != key
  }

  lemma {:induction false} AssignLast(ps: seq<Option<(string, string)>>, key: string)
    ensures key in Assign(ps) <==> exists j :: 0 <= j < |ps| && ps[j].Some? && ps[j].value.0 == key
    ensures key in Assign(ps) ==> exists j: nat :: LastAssigns(ps, j, key, Assign(ps)[key])
    decreases |ps|
  {
    if ps != [] {
      var init := ps[..|ps| - 1];
      var n := |ps| - 1;
      AssignLast(init, key);
      assert forall j :: 0 <= j < n ==> init[j] == ps[j];
      if ps[n].Some? && ps[n].value.0 == key {
        assert LastAssigns(ps, n, key, Assign(ps)[key]);
      } else if key in Assign(init) {
        var j: nat :| LastAssigns(init, j, key, Assign(init)[key]);
        assert LastAssigns(ps, j, key, Assign(ps)[key]);
      }
    }
  }

  /**
   * A key is set exactly when some line defines it, and then to the value
   * of the last line that does.
   */
  lemma ParseEnvLinesLast(lines: seq<string>, key: string)
    ensures key in ParseEnvLines(lines) <==>
      exists j :: 0 <= j < |lines| && ParseEnvLine(lines[j]).Some? && ParseEnvLine(lines[j]).value.0 == key
    ensures key in ParseEnvLines(lines) ==> exists j: nat ::
      && j < |lines| && ParseEnvLine(lines[j]) == Some((key, ParseEnvLines(lines)[key]))
      && forall i :: j < i < |lines| ==> ParseEnvLine(lines[i]).None? || ParseEnvLine(lines[i]).value.0 != key
  {
    var ps := ParseAll(lines);
    AssignLast(ps, key);
    if key in ParseEnvLines(lines) {
      var j: nat :| LastAssigns(ps, j, key, Assign(ps)[key]);
      assert j < |lines| && ParseEnvLine(lines[j]) == Some((key, ParseEnvLines(lines)[key]));
    }
  }

  /** `'true'`, `'1'` and `'yes'` in any case. */
  predicate Truthy(value: string) {
    AsciiLower(value) in {"true", "1", "yes"}
  }

  /** `'false'`, `'0'` and `'no'` in any case. */
  predicate Falsy(value: string) {
    AsciiLower(value) in {"false", "0", "no"}
  }

  /** The value `get_bool_env` consults: the environment first, then the `.env` map. */
  function Lookup(name: string, environ: map<string, string>, envVars: map<string, string>): Option<string> {
    if name in environ then Some(environ[name])
    else if name in envVars then Some(envVars[name])
    else None
  }

  /** What a found value means: a true word, a false word, or the default. */
  predicate Reads(value: string, default: bool, r: bool) {
    && (Truthy(value) ==> r)
    && (Falsy(value) ==> !r)
    && (!Truthy(value) && !Falsy(value) ==> r == default)
  }

  /**
   * `get_bool_env(name, default, env_vars)`: the environment wins over the
   * `.env` map, which wins over the default; an unrecognised value gives
   * the default.
   */
  function GetBoolEnv(name: string, default: bool, environ: map<string, string>, envVars: map<string, string>): (r: bool)
    ensures name in environ ==> Reads(environ[name], default, r)
    ensures name !in environ && name in envVars ==> Reads(envVars[name], default, r)
    ensures name !in environ && name !in envVars ==> r == default
  {
    match Lookup(name, environ, envVars)
    case None => default
    case Some(v) => if Truthy(v) then true else if Falsy(v) then false else default
  }

  /** No value is both a true word and a false word. */
  lemma TruthyFalsyDisjoint(value: string)
    ensures !(Truthy(value) && Falsy(value))
  {
  }

  /** The case of the letters does not matter: a value and its lower-case form read the same. */
  lemma {:induction false} GetBoolCaseInsensitive(value: string)
    ensures Truthy(AsciiLower(value)) == Truthy(value) && Falsy(AsciiLower(value)) == Falsy(value)
  {
    AsciiLowerIdempotent(value);
  }

  lemma {:induction false} AsciiLowerIdempotent(s: string)
    ensures AsciiLower(AsciiLower(s)) == AsciiLower(s)
    decreases |s|
  {
    if s != [] {
      AsciiLowerIdempotent(s[1..]);
    }
  }
}
