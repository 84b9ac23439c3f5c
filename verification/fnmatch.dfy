/**
 * Python's `fnmatch.fnmatch(name, pat)` on a POSIX system (no case
 * folding): the pattern is compiled to tokens the way `fnmatch.translate`
 * reads it, then the whole name must match the tokens.
 *
 * `*` matches any run of characters (slashes and newlines included), `?`
 * any one character, and `[...]` one character of a class. Which characters
 * a class admits (ranges, negation with `!`) is left to the parameter
 * `inClass`, applied to the text between the brackets; only the extent of a
 * class is computed here.
 */
module FnMatch {
  import opened Results

  datatype Tok = Star | AnyChar | Lit(c: char) | Class(body: string)

  predicate IsSpecial(c: char) {
    c == '*' || c == '?' || c == '['
  }

  /** No character of `s` has a meaning in a pattern. */
  predicate Plain(s: string) {
    forall k :: 0 <= k < |s| ==> !IsSpecial(s[k])
  }

  /**
   * Where the class opened by the `[` just before offset `i` closes: an
   * optional `!`, then an optional `]` that belongs to the class, then
   * anything up to the next `]`. `None` when no `]` follows; the `[` is then
   * an ordinary character.
   */
  function ClassEnd(pat: string, i: nat): (r: Option<nat>)
    requires i <= |pat|
    ensures r.Some? ==> i <= r.value < |pat| && pat[r.value] == ']'
  {
    var j := if i < |pat| && pat[i] == '!' then i + 1 else i;
    var j' := if j < |pat| && pat[j] == ']' then j + 1 else j;
    CloseFrom(pat, j')
  }

  function CloseFrom(pat: string, j: nat): (r: Option<nat>)
    requires j <= |pat|
    ensures r.Some? ==> j <= r.value < |pat| && pat[r.value] == ']'
    ensures r.None? ==> forall k :: j <= k < |pat| ==> pat[k] != ']'
    decreases |pat| - j
  {
    if j == |pat| then None
    else if pat[j] == ']' then Some(j)
    else CloseFrom(pat, j + 1)
  }

  /** `fnmatch.translate`, read as a token list, from offset `i` of the pattern. */
  function Compile(pat: string, i: nat): (r: seq<Tok>)
    requires i <= |pat|
    decreases |pat| - i
  {
    if i == |pat| then []
    else if pat[i] == '*' then [Star] + Compile(pat, i + 1)
    else if pat[i] == '?' then [AnyChar] + Compile(pat, i + 1)
    else if pat[i] == '[' then
      match ClassEnd(pat, i + 1)
      case None => [Lit('[')] + Compile(pat, i + 1)
      case Some(j) => [Class(pat[i + 1..j])] + Compile(pat, j + 1)
    else [Lit(pat[i])] + Compile(pat, i + 1)
  }

  /** The tokens from `k` on match exactly the characters of `name` from `i` on. */
  function MatchFrom(toks: seq<Tok>, k: nat, name: string, i: nat, inClass: (string, char) -> bool): bool
    requires k <= |toks| && i <= |name|
    decreases |name| - i, |toks| - k
  {
    if k == |toks| then i == |name|
    else
      match toks[k]
      case Star =>
        MatchFrom(toks, k + 1, name, i, inClass) || (i < |name| && MatchFrom(toks, k, name, i + 1, inClass))
      case AnyChar => i < |name| && MatchFrom(toks, k + 1, name, i + 1, inClass)
      case Lit(c) => i < |name| && name[i] == c && MatchFrom(toks, k + 1, name, i + 1, inClass)
      case Class(body) => i < |name| && inClass(body, name[i]) && MatchFrom(toks, k + 1, name, i + 1, inClass)
  }

  /** `fnmatch.fnmatch(name, pat)`. */
  function FnMatch(name: string, pat: string, inClass: (string, char) -> bool): bool {
    MatchFrom(Compile(pat, 0), 0, name, 0, inClass)
  }

  /** A plain pattern compiles to one literal per character. */
  lemma {:induction false} CompilePlain(pat: string, i: nat)
    requires i <= |pat| && Plain(pat)
    ensures |Compile(pat, i)| == |pat| - i
    ensures forall m :: 0 <= m < |pat| - i ==> Compile(pat, i)[m] == Lit(pat[i + m])
    decreases |pat| - i
  {
    if i < |pat| {
      assert !IsSpecial(pat[i]);
      CompilePlain(pat, i + 1);
    }
  }

  /** A trailing star stays a trailing star token. */
  lemma {:induction false} CompilePlainStar(pat: string, i: nat)
    requires i <= |pat| && Plain(pat)
    ensures Compile(pat + "*", i) == Compile(pat, i) + [Star]
    decreases |pat| - i
  {
    var p := pat + "*";
    if i == |pat| {
      assert p[i] == '*';
      assert Compile(p, i + 1) == [];
    } else {
      assert p[i] == pat[i] && !IsSpecial(pat[i]);
      CompilePlainStar(pat, i + 1);
    }
  }

  /** Literal tokens match exactly the characters they spell. */
  lemma {:induction false} MatchLits(toks: seq<Tok>, k: nat, lit: string, name: string, i: nat, inClass: (string, char) -> bool)
    requires k <= |toks| && i <= |name| && |toks| - k == |lit|
    requires forall m :: 0 <= m < |lit| ==> toks[k + m] == Lit(lit[m])
    ensures MatchFrom(toks, k, name, i, inClass) <==> name[i..] == lit
    decreases |toks| - k
  {
    if k < |toks| {
      assert toks[k] == Lit(lit[0]);
      var lit' := lit[1..];
      forall m | 0 <= m < |lit'|
        ensures toks[k + 1 + m] == Lit(lit'[m])
      {
        assert toks[k + (1 + m)] == Lit(lit[1 + m]);
      }
      if i < |name| {
        MatchLits(toks, k + 1, lit', name, i + 1, inClass);
        assert name[i..] == [name[i]] + name[i + 1..];
      }
    }
  }

  /** A final star matches whatever is left. */
  lemma {:induction false} FinalStar(toks: seq<Tok>, name: string, i: nat, inClass: (string, char) -> bool)
    requires |toks| > 0 && toks[|toks| - 1] == Star && i <= |name|
    ensures MatchFrom(toks, |toks| - 1, name, i, inClass)
    decreases |name| - i
  {
    if i < |name| {
      FinalStar(toks, name, i + 1, inClass);
    }
  }

  /** Literal tokens followed by a final star match exactly the names that start with their spelling. */
  lemma {:induction false} MatchLitsStar(toks: seq<Tok>, k: nat, lit: string, name: string, i: nat, inClass: (string, char) -> bool)
    requires k < |toks| && i <= |name| && |toks| - 1 - k == |lit| && toks[|toks| - 1] == Star
    requires forall m :: 0 <= m < |lit| ==> toks[k + m] == Lit(lit[m])
    ensures MatchFrom(toks, k, name, i, inClass) <==> lit <= name[i..]
    decreases |toks| - k
  {
    if k == |toks| - 1 {
      FinalStar(toks, name, i, inClass);
    } else {
      assert toks[k] == Lit(lit[0]);
      var lit' := lit[1..];
      forall m | 0 <= m < |lit'|
        ensures toks[k + 1 + m] == Lit(lit'[m])
      {
        assert toks[k + (1 + m)] == Lit(lit[1 + m]);
      }
      if i < |name| {
        MatchLitsStar(toks, k + 1, lit', name, i + 1, inClass);
        assert name[i..] == [name[i]] + name[i + 1..];
      }
    }
  }

  /** A pattern without `*`, `?` or `[` matches exactly itself. */
  lemma PlainMatchesItself(name: string, pat: string, inClass: (string, char) -> bool)
    requires Plain(pat)
    ensures FnMatch(name, pat, inClass) <==> name == pat
  {
    CompilePlain(pat, 0);
    MatchLits(Compile(pat, 0), 0, pat, name, 0, inClass);
  }

  /** A plain pattern followed by `*` matches exactly the names it starts. */
  lemma PlainStarMatchesPrefix(name: string, pat: string, inClass: (string, char) -> bool)
    requires Plain(pat)
    ensures FnMatch(name, pat + "*", inClass) <==> pat <= name
  {
    CompilePlain(pat, 0);
    CompilePlainStar(pat, 0);
    var toks := Compile(pat + "*", 0);
    forall m | 0 <= m < |pat|
      ensures toks[m] == Lit(pat[m])
    {
      assert toks[m] == Compile(pat, 0)[m];
    }
    MatchLitsStar(toks, 0, pat, name, 0, inClass);
  }

  /** `*` matches every name. */
  lemma StarMatchesAll(name: string, inClass: (string, char) -> bool)
    ensures FnMatch(name, "*", inClass)
  {
    assert Compile("*", 0) == [Star];
    FinalStar([Star], name, 0, inClass);
  }
}
