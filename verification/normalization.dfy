/**
 * The string rewriting of `normalization.py`: tilde expansion, path
 * normalisation and the path-token rewriting of a command line.
 *
 * The home directory is a parameter. Symlink resolution and the rewriting
 * of paths under the home directory to `~/...` consult the file system;
 * together they are the parameter `resolve`, applied after the leading
 * slashes are collapsed. Whether `project_root / path` exists is the
 * parameter `rootHas` (`None` when no project root is given).
 */
module Normalization {
  import opened Results
  import opened Text

  /** `expand_tilde(path)` with `Path.home()` as `home`. */
  function ExpandTilde(path: string, home: string): (r: string)
    ensures !StartsWith(path, "~") ==> r == path
    ensures path == "~" ==> r == home
    ensures StartsWith(path, "~/") ==> r == home + path[1..]
    ensures StartsWith(path, "~") && path != "~" && !StartsWith(path, "~/") ==> r == path
  {
    if path == [] || path[0] != '~' then path
    else if path == "~" then home
    else if |path| >= 2 && path[1] == '/' then home + path[1..]
    else path
  }

  /** Expanding twice is expanding once, as long as the home directory does not itself start with `~`. */
  lemma ExpandTildeIdempotent(path: string, home: string)
    requires home == [] || home[0] != '~'
    ensures ExpandTilde(ExpandTilde(path, home), home) == ExpandTilde(path, home)
  {
    var r := ExpandTilde(path, home);
    if StartsWith(path, "~/") && home == [] {
      assert r == path[1..] && r[0] == '/';
    } else if StartsWith(path, "~/") {
      assert r[0] == home[0];
    }
  }

  predicate IsSlash(c: char) {
    c == '/'
  }

  /** `re.sub(r'^/+', '/', path)`: a leading run of slashes becomes one slash. */
  function CollapseLeadingSlashes(path: string): (r: string)
    ensures path == [] || path[0] != '/' ==> r == path
    ensures path != [] && path[0] == '/' ==>
      && r != [] && r[0] == '/' && (|r| == 1 || r[1] != '/')
      && r[1..] == path[Run(path, 0, IsSlash, true)..]
  {
    if path == [] || path[0] != '/' then path
    else "/" + path[Run(path, 0, IsSlash, true)..]
  }

  /** Collapsing is idempotent. */
  lemma CollapseIdempotent(path: string)
    ensures CollapseLeadingSlashes(CollapseLeadingSlashes(path)) == CollapseLeadingSlashes(path)
  {
    var r := CollapseLeadingSlashes(path);
    if r != [] && r[0] == '/' {
      RunExact(r, 0, 1, IsSlash, true);
      assert r == "/" + r[1..];
    }
  }

  /** `path.startswith(('/', '~', '.'))`. */
  predicate Anchored(path: string) {
    path != [] && (path[0] == '/' || path[0] == '~' || path[0] == '.')
  }

  /**
   * `normalize_path(path, project_root)`: collapse leading slashes, let the
   * file system resolve the result, then give a relative path a `./` prefix
   * (without a project root always, with one only when the path exists there).
   */
  function NormalizePath(path: string, resolve: string -> string, rootHas: Option<string -> bool>): string {
    if path == [] then path
    else
      var p := resolve(CollapseLeadingSlashes(path));
      if Anchored(p) then p
      else
        match rootHas
        case None => "./" + p
        case Some(has) => if has(p) then "./" + p else p
  }

  /**
   * An empty path stays empty; otherwise the result is the resolved path,
   * possibly behind a `./`, and without a project root it always starts
   * with `/`, `~` or `.`.
   */
  lemma NormalizePathShape(path: string, resolve: string -> string, rootHas: Option<string -> bool>)
    ensures path == [] ==> NormalizePath(path, resolve, rootHas) == []
    ensures path != [] ==>
      var p := resolve(CollapseLeadingSlashes(path));
      NormalizePath(path, resolve, rootHas) in {p, "./" + p}
    ensures path != [] && rootHas.None? ==> Anchored(NormalizePath(path, resolve, rootHas))
  {
  }

  predicate IsAsciiAlnum(c: char) {
    ('a' <= c <= 'z') || ('A' <= c <= 'Z') || ('0' <= c <= '9')
  }

  /** `s.isalnum()` for ASCII text: non-empty, letters and digits only. */
  function IsAlnum(s: string): (r: bool)
    ensures r <==> s != [] && forall k :: 0 <= k < |s| ==> IsAsciiAlnum(s[k])
  {
    s != [] && IsAsciiAlnum(s[0]) && (|s| == 1 || IsAlnum(s[1..]))
  }

  /**
   * `token.rsplit('.', 1)` gives an extension of at most four characters,
   * all letters or digits.
   */
  function HasShortExtension(token: string): (r: bool)
    ensures r <==> exists k :: (LastDotAt(token, k) && 0 < |token| - k - 1 <= 4
                                && forall j :: k < j < |token| ==> IsAsciiAlnum(token[j]))
  {
    match LastIndexBefore(token, '.', |token|)
    case None => false
    case Some(k) =>
      assert LastDotAt(token, k);
      assert forall d :: LastDotAt(token, d) ==> d == k;
      assert forall j :: k < j < |token| ==> token[k + 1..][j - k - 1] == token[j];
      |token| - k - 1 <= 4 && IsAlnum(token[k + 1..])
  }

  /** `k` is the position of the last `.` in `token`. */
  predicate LastDotAt(token: string, k: int) {
    0 <= k < |token| && token[k] == '.' && forall j :: k < j < |token| ==> token[j] != '.'
  }

  /**
   * The heuristic of `normalize_command` for "looks like a path": contains
   * `/`, starts with `~` or `.`, or has a short alphanumeric extension.
   */
  predicate LooksLikePath(token: string) {
    IndexOf(token, '/').Some? || StartsWith(token, "~") || StartsWith(token, ".") || HasShortExtension(token)
  }

  /**
   * What `normalize_command` does to the token at index `i`: the command
   * name, every flag and every token that does not look like a path are
   * kept; the others are normalised as paths.
   */
  function RewriteToken(t: string, i: nat, resolve: string -> string, rootHas: Option<string -> bool>): string {
    if i == 0 || StartsWith(t, "-") || !LooksLikePath(t) then t else NormalizePath(t, resolve, rootHas)
  }

  /**
   * The command name, flags and tokens that do not look like paths come
   * through unchanged; every other token is replaced by its normalised path.
   */
  lemma RewriteTokenCases(t: string, i: nat, resolve: string -> string, rootHas: Option<string -> bool>)
    ensures var r := RewriteToken(t, i, resolve, rootHas);
      && (i == 0 || StartsWith(t, "-") || !LooksLikePath(t) ==> r == t)
      && (i > 0 && !StartsWith(t, "-") && LooksLikePath(t) ==> r == NormalizePath(t, resolve, rootHas))
  {
  }

  /** Apply `f` to every element from index `i` on, together with its index. */
  function MapIndexed(xs: seq<string>, i: nat, f: (string, nat) -> string): (r: seq<string>)
    requires i <= |xs|
    ensures |r| == |xs| - i
    decreases |xs| - i
  {
    if i == |xs| then [] else [f(xs[i], i)] + MapIndexed(xs, i + 1, f)
  }

  /** Element `k - i` of the result is `f` applied to element `k` and its index. */
  lemma {:induction false} MapIndexedAt(xs: seq<string>, i: nat, f: (string, nat) -> string, k: nat)
    requires i <= k < |xs|
    ensures MapIndexed(xs, i, f)[k - i] == f(xs[k], k)
    decreases k - i
  {
    if i < k {
      MapIndexedAt(xs, i + 1, f, k);
    }
  }

  /** The loop of `normalize_command` over the tokens. */
  function NormalizeTokens(tokens: seq<string>, resolve: string -> string, rootHas: Option<string -> bool>): (r: seq<string>)
    ensures |r| == |tokens|
  {
    MapIndexed(tokens, 0, (t: string, i: nat) => RewriteToken(t, i, resolve, rootHas))
  }

  /** `normalize_command(command, project_root)`. */
  function NormalizeCommand(command: string, resolve: string -> string, rootHas: Option<string -> bool>): (r: string)
    ensures AllSpace(command) ==> r == []
  {
    if command == [] then command
    else
      assert Words(command) == [] <==> AllSpace(command);
      Unwords(NormalizeTokens(Words(command), resolve, rootHas))
  }

  /** The loop rewrites each token in place, by its own index. */
  lemma NormalizeTokensAt(tokens: seq<string>, resolve: string -> string, rootHas: Option<string -> bool>, k: nat)
    requires k < |tokens|
    ensures NormalizeTokens(tokens, resolve, rootHas)[k] == RewriteToken(tokens[k], k, resolve, rootHas)
  {
    MapIndexedAt(tokens, 0, (t: string, i: nat) => RewriteToken(t, i, resolve, rootHas), k);
  }

  /**
   * When path normalisation never produces an empty string or whitespace,
   * the normalised command has exactly as many words as the original, and
   * word `k` is the rewriting of word `k`.
   */
  lemma NormalizeCommandWords(command: string, resolve: string -> string, rootHas: Option<string -> bool>)
    requires forall t {:trigger NormalizePath(t, resolve, rootHas)} :: t != [] && NoSpace(t) ==> NoSpace(NormalizePath(t, resolve, rootHas)) && NormalizePath(t, resolve, rootHas) != []
    ensures Words(NormalizeCommand(command, resolve, rootHas)) == NormalizeTokens(Words(command), resolve, rootHas)
  {
    if command != [] {
      var ws := Words(command);
      WordsShape(command);
      var ns := NormalizeTokens(ws, resolve, rootHas);
      forall k | 0 <= k < |ns|
        ensures ns[k] != [] && NoSpace(ns[k])
      {
        NormalizeTokensAt(ws, resolve, rootHas, k);
        var t := ws[k];
        assert t != [] && NoSpace(t);
        var n := NormalizePath(t, resolve, rootHas);
        assert n != [] && NoSpace(n);
        RewriteTokenCases(t, k, resolve, rootHas);
      }
      WordsUnwords(ns);
    }
  }
}
