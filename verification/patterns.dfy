/**
 * The pattern kinds of `patterns.py`: a prefix `[regex]`, `[glob]` or
 * `[native]` selects how a pattern is matched; anything else is a plain
 * `fnmatch` pattern.
 *
 * Regular-expression search and `PurePath.full_match` are parameters: each
 * answers `Some(b)` or `None` when the library raises (an invalid regular
 * expression, an invalid path pattern). The `[native]` matcher is defined
 * here in full, together with the reference meaning of a pattern whose only
 * wildcard is `*`.
 */
module Patterns {
  import opened Results
  import opened Text
  import Normalization
  import FnMatch

  datatype PatternType = Default | Regex | Glob | Native

  /** The prefix that selects each kind; the default kind has none. */
  function Prefix(kind: PatternType): string {
    match kind
    case Default => ""
    case Regex => "[regex]"
    case Glob => "[glob]"
    case Native => "[native]"
  }

  /**
   * `parse_pattern(pattern_str, extended_syntax)`: the pattern is stripped;
   * with extended syntax a recognised prefix is cut off and what follows is
   * stripped again.
   */
  function ParsePattern(s: string, extended: bool): (r: (PatternType, string))
    ensures !extended ==> r.0 == Default
    ensures r.0 == Default ==> r.1 == Trim(s)
  {
    var t := Trim(s);
    if !extended then (Default, t)
    else if StartsWith(t, "[regex]") then (Regex, Trim(t[7..]))
    else if StartsWith(t, "[glob]") then (Glob, Trim(t[6..]))
    else if StartsWith(t, "[native]") then (Native, Trim(t[8..]))
    else (Default, t)
  }

  /**
   * With extended syntax, the kind is the one whose prefix the stripped
   * pattern carries, and the pattern is what follows the prefix, stripped.
   */
  lemma ParsePatternPrefix(s: string)
    ensures var (kind, p) := ParsePattern(s, true);
      && (kind != Default ==> StartsWith(Trim(s), Prefix(kind)) && p == Trim(Trim(s)[|Prefix(kind)|..]))
      && (kind == Default <==>
            !StartsWith(Trim(s), "[regex]") && !StartsWith(Trim(s), "[glob]") && !StartsWith(Trim(s), "[native]"))
  {
    var t := Trim(s);
    if StartsWith(t, "[glob]") {
      assert t[1] == 'g';
    }
    if StartsWith(t, "[native]") {
      assert t[1] == 'n';
    }
  }

  /** No string starts with the prefixes of two different kinds. */
  lemma PrefixUnique(s: string, a: PatternType, b: PatternType)
    requires a != Default && b != Default
    requires StartsWith(s, Prefix(a)) && StartsWith(s, Prefix(b))
    ensures a == b
  {
    assert s[1] == Prefix(a)[1] == Prefix(b)[1];
  }

  /**
   * Writing a stripped pattern behind the prefix of its kind and parsing it
   * again gives back the kind and the pattern, as long as a default pattern
   * does not itself begin with one of the prefixes.
   */
  lemma ParsePatternRoundTrip(kind: PatternType, p: string)
    requires Trim(p) == p
    requires kind == Default ==> !StartsWith(p, "[regex]") && !StartsWith(p, "[glob]") && !StartsWith(p, "[native]")
    ensures ParsePattern(Prefix(kind) + p, true) == (kind, p)
  {
    var s := Prefix(kind) + p;
    ParsePatternPrefix(s);
    var (kind', p') := ParsePattern(s, true);
    if kind == Default {
      assert s == p;
    } else {
      TrimBehind(Prefix(kind), p);
      assert s[..|Prefix(kind)|] == Prefix(kind) && s[|Prefix(kind)|..] == p;
      assert StartsWith(s, Prefix(kind));
      assert kind' != Default;
      PrefixUnique(s, kind, kind');
    }
  }

  /** A stripped pattern that does not begin with `[` is a default pattern, kept as it is. */
  lemma ParsePatternDefault(s: string, extended: bool)
    requires s != [] && s[0] != '[' && Trim(s) == s
    ensures ParsePattern(s, extended) == (Default, s)
  {
    if extended {
      DiffersAt(s, "[regex]", 0);
      DiffersAt(s, "[glob]", 0);
      DiffersAt(s, "[native]", 0);
    }
  }

  /** A stripped string behind a prefix without surrounding whitespace stays stripped. */
  lemma TrimBehind(pre: string, p: string)
    requires pre != [] && !IsSpace(pre[0]) && !IsSpace(pre[|pre| - 1]) && Trim(p) == p
    ensures Trim(pre + p) == pre + p
  {
    var s := pre + p;
    assert s[0] == pre[0];
    if p == [] {
      assert s == pre;
    } else {
      assert s[|s| - 1] == p[|p| - 1];
    }
    TrimNoEdge(s);
  }

  /** A string that differs from `q` at an index both share does not start with `q`. */
  lemma DiffersAt(s: string, q: string, i: nat)
    requires i < |q| && i < |s| && s[i] != q[i]
    ensures !StartsWith(s, q)
  {
    if |q| <= |s| {
      assert s[..|q|][i] == s[i];
    }
  }

  /*
   * The reference meaning of a pattern whose only wildcard is `*`, read as
   * the literal pieces between its stars: the first piece starts the text,
   * the last piece ends it, and the pieces in between occur in order without
   * overlapping. A star may stand for any text, spaces included.
   */

  /** The last piece ends the text and starts at or after offset `i`. */
  ghost predicate EndPiece(c: string, last: string, i: nat) {
    i + |last| <= |c| && EndsWith(c, last)
  }

  /**
   * Pieces `k` onwards, each preceded by a star, match the text from offset
   * `i` to its end.
   */
  ghost predicate After(segs: seq<string>, k: nat, c: string, i: nat)
    requires 1 <= k < |segs|
    decreases |segs| - k
  {
    if k == |segs| - 1 then EndPiece(c, segs[k], i)
    else exists j: nat :: i <= j && OccursAt(c, segs[k], j) && After(segs, k + 1, c, j + |segs[k]|)
  }

  /** The whole text matches the pieces. */
  ghost predicate Pieces(segs: seq<string>, c: string)
    requires |segs| >= 1
  {
    if |segs| == 1 then c == segs[0]
    else StartsWith(c, segs[0]) && After(segs, 1, c, |segs[0]|)
  }

  /** `c` matches `pattern` when `*` is the only wildcard. */
  ghost predicate StarGlob(pattern: string, c: string) {
    Pieces(SplitOn(pattern, '*'), c)
  }

  /**
   * One turn of the search loop of the `[native]` matcher, for piece `seg`
   * at index `k`: an empty piece is skipped; otherwise the leftmost
   * occurrence at or after `pos` is taken, and the first piece must sit at
   * offset 0 when the pattern is `anchored` (does not start with `*`). The
   * result is where the search resumes; `None` is an early `return False`.
   */
  function Step(seg: string, k: nat, anchored: bool, c: string, pos: nat): (r: Option<nat>)
    ensures r.Some? ==> pos <= r.value && |seg| <= r.value
    ensures r.Some? && pos <= |c| ==> r.value <= |c| && pos <= r.value - |seg| && OccursAt(c, seg, r.value - |seg|)
    ensures r.Some? && k == 0 && anchored && seg != [] ==> r.value == |seg|
  {
    if seg == [] then Some(pos)
    else
      match Find(c, seg, pos)
      case None => None
      case Some(idx) => if k == 0 && anchored && idx != 0 then None else Some(idx + |seg|)
  }

  /** The search loop over the pieces `k` up to `stop`. */
  function Scan(segs: seq<string>, k: nat, stop: nat, anchored: bool, c: string, pos: nat): (r: Option<nat>)
    requires k <= stop <= |segs|
    ensures r.Some? ==> pos <= r.value
    ensures r.Some? && pos <= |c| ==> r.value <= |c|
    decreases stop - k
  {
    if k == stop then Some(pos)
    else
      match Step(segs[k], k, anchored, c, pos)
      case None => None
      case Some(next) => Scan(segs, k + 1, stop, anchored, c, next)
  }

  /**
   * `match_pattern(PatternType.NATIVE, pattern, command)` as written: every
   * piece, the last one included, is found by a leftmost search, and the
   * last piece must then end exactly at the end of the command.
   */
  function NativeAsWritten(pattern: string, c: string): bool {
    if '*' !in pattern then pattern == c
    else
      var segs := SplitOn(pattern, '*');
      match Scan(segs, 0, |segs|, !StartsWith(pattern, "*"), c, 0)
      case None => false
      case Some(pos) => !(segs[|segs| - 1] != [] && !EndsWith(pattern, "*")) || pos == |c|
  }

  /**
   * The `[native]` matcher with the last piece anchored at the end: the
   * pieces before the last are found by leftmost search, and the last piece
   * must be a suffix of the command that starts at or after the position the
   * search reached.
   */
  function NativeMatch(pattern: string, c: string): bool {
    if '*' !in pattern then pattern == c
    else
      var segs := SplitOn(pattern, '*');
      var last := segs[|segs| - 1];
      match Scan(segs, 0, |segs| - 1, !StartsWith(pattern, "*"), c, 0)
      case None => false
      case Some(pos) => pos + |last| <= |c| && EndsWith(c, last)
  }

  /** The last piece of a join is a suffix of it. */
  lemma {:induction false} JoinEndsWith(fields: seq<string>, c: char)
    requires |fields| >= 1
    ensures EndsWith(JoinWith(fields, c), fields[|fields| - 1])
    decreases |fields|
  {
    if |fields| > 1 {
      JoinEndsWith(fields[1..], c);
      assert fields[1..][|fields| - 2] == fields[|fields| - 1];
    }
  }

  /**
   * How the pieces of a pattern sit in it: no star means one piece, the
   * pattern itself; with a star there are at least two pieces, a non-empty
   * first piece means the pattern does not start with `*`, and a non-empty
   * last piece means it does not end with `*`.
   */
  lemma SplitStars(pattern: string)
    ensures var segs := SplitOn(pattern, '*');
      && ('*' !in pattern ==> segs == [pattern])
      && ('*' in pattern ==> |segs| >= 2)
      && (segs[0] != [] ==> !StartsWith(pattern, "*"))
      && (segs[|segs| - 1] != [] ==> !EndsWith(pattern, "*"))
  {
    var segs := SplitOn(pattern, '*');
    SplitJoin(pattern, '*');
    JoinEndsWith(segs, '*');
    assert '*' !in segs[0] && '*' !in segs[|segs| - 1];
    if |segs| == 1 {
      assert pattern == segs[0];
    } else {
      assert pattern == segs[0] + ['*'] + JoinWith(segs[1..], '*');
    }
    if segs[0] != [] {
      assert pattern[0] == segs[0][0];
    }
    var last := segs[|segs| - 1];
    if last != [] {
      assert pattern[|pattern| - 1] == last[|last| - 1];
    }
    if '*' !in pattern {
      assert SplitFrom(pattern, '*', 0) == [pattern[0..]];
    }
  }

  /** A later start never helps: pieces that match from `i` also match from any earlier offset. */
  lemma AfterEarlier(segs: seq<string>, k: nat, c: string, i: nat, i': nat)
    requires 1 <= k < |segs| && i' <= i
    requires After(segs, k, c, i)
    ensures After(segs, k, c, i')
  {
    if k < |segs| - 1 {
      var j: nat :| i <= j && OccursAt(c, segs[k], j) && After(segs, k + 1, c, j + |segs[k]|);
      assert i' <= j;
    }
  }

  /** A placement of piece `k` followed by a placement of the rest is a placement from `k` on. */
  lemma AfterIntro(segs: seq<string>, k: nat, c: string, pos: nat, j: nat)
    requires 1 <= k < |segs| - 1 && pos <= j
    requires OccursAt(c, segs[k], j) && After(segs, k + 1, c, j + |segs[k]|)
    ensures After(segs, k, c, pos)
  {
  }

  /** From a placement of the pieces from `k` on, the loop's turn on piece `k` leaves room for the rest. */
  lemma AfterLeftmost(segs: seq<string>, k: nat, c: string, pos: nat)
    requires 1 <= k < |segs| - 1 && pos <= |c|
    requires After(segs, k, c, pos)
    ensures forall anchored :: Step(segs[k], k, anchored, c, pos).Some?
    ensures forall anchored :: After(segs, k + 1, c, Step(segs[k], k, anchored, c, pos).value)
  {
    var j: nat :| pos <= j && OccursAt(c, segs[k], j) && After(segs, k + 1, c, j + |segs[k]|);
    if segs[k] == [] {
      AfterEarlier(segs, k + 1, c, j, pos);
    } else {
      FindLeftmost(c, segs[k], pos, j);
      var idx := Find(c, segs[k], pos).value;
      AfterEarlier(segs, k + 1, c, j + |segs[k]|, idx + |segs[k]|);
    }
  }

  /** Whatever the search loop accepts among the middle pieces is a genuine placement of them. */
  lemma {:induction false} ScanSound(segs: seq<string>, k: nat, anchored: bool, c: string, pos: nat)
    requires 1 <= k < |segs| && pos <= |c|
    requires Scan(segs, k, |segs| - 1, anchored, c, pos).Some?
    requires EndPiece(c, segs[|segs| - 1], Scan(segs, k, |segs| - 1, anchored, c, pos).value)
    ensures After(segs, k, c, pos)
    decreases |segs| - k
  {
    if k == |segs| - 1 {
      assert Scan(segs, k, k, anchored, c, pos) == Some(pos);
    } else {
      var next := Step(segs[k], k, anchored, c, pos).value;
      ScanSound(segs, k + 1, anchored, c, next);
      AfterIntro(segs, k, c, pos, next - |segs[k]|);
    }
  }

  /** The leftmost search loses nothing: when a placement exists, the loop finds one. */
  lemma {:induction false} ScanComplete(segs: seq<string>, k: nat, anchored: bool, c: string, pos: nat)
    requires 1 <= k < |segs| && pos <= |c|
    requires After(segs, k, c, pos)
    ensures Scan(segs, k, |segs| - 1, anchored, c, pos).Some?
    ensures EndPiece(c, segs[|segs| - 1], Scan(segs, k, |segs| - 1, anchored, c, pos).value)
    decreases |segs| - k
  {
    if k == |segs| - 1 {
      assert Scan(segs, k, k, anchored, c, pos) == Some(pos);
      assert EndPiece(c, segs[k], pos);
    } else {
      AfterLeftmost(segs, k, c, pos);
      var next := Step(segs[k], k, anchored, c, pos).value;
      ScanComplete(segs, k + 1, anchored, c, next);
    }
  }

  /** The corrected `[native]` matcher accepts exactly the texts the pattern describes. */
  lemma NativeMatchExact(pattern: string, c: string)
    ensures NativeMatch(pattern, c) <==> StarGlob(pattern, c)
  {
    SplitStars(pattern);
    if '*' in pattern {
      var segs := SplitOn(pattern, '*');
      var anchored := !StartsWith(pattern, "*");
      var m := |segs| - 1;
      var first := Step(segs[0], 0, anchored, c, 0);
      if segs[0] == [] {
        assert first == Some(0);
      } else if StartsWith(c, segs[0]) {
        assert OccursAt(c, segs[0], 0);
        FindLeftmost(c, segs[0], 0, 0);
        assert first == Some(|segs[0]|);
      }
      if NativeMatch(pattern, c) {
        ScanSound(segs, 1, anchored, c, first.value);
        if segs[0] != [] {
          assert OccursAt(c, segs[0], 0);
        }
      }
      if StarGlob(pattern, c) {
        ScanComplete(segs, 1, anchored, c, |segs[0]|);
      }
    }
  }

  /**
   * Running the loop over all the pieces is running it over all but the
   * last, then one more turn.
   */
  lemma {:induction false} ScanSplit(segs: seq<string>, k: nat, anchored: bool, c: string, pos: nat)
    requires k < |segs|
    requires Scan(segs, k, |segs|, anchored, c, pos).Some?
    ensures Scan(segs, k, |segs| - 1, anchored, c, pos).Some?
    ensures var mid := Scan(segs, k, |segs| - 1, anchored, c, pos).value;
      Scan(segs, k, |segs|, anchored, c, pos) == Step(segs[|segs| - 1], |segs| - 1, anchored, c, mid)
    decreases |segs| - k
  {
    if k < |segs| - 1 {
      var next := Step(segs[k], k, anchored, c, pos).value;
      ScanSplit(segs, k + 1, anchored, c, next);
    } else {
      assert Scan(segs, k + 1, |segs|, anchored, c, Step(segs[k], k, anchored, c, pos).value)
        == Step(segs[k], k, anchored, c, pos);
    }
  }

  /**
   * When the loop over all the pieces ends where the matcher as written
   * wants it to (at the end of the command, for a non-empty last piece of a
   * pattern that does not end with `*`), the loop over all but the last
   * piece stops at a position the last piece can follow to the end.
   */
  lemma ScanToEnd(segs: seq<string>, anchored: bool, endsStar: bool, c: string)
    requires |segs| >= 2
    requires segs[|segs| - 1] != [] ==> !endsStar
    requires Scan(segs, 0, |segs|, anchored, c, 0).Some?
    requires !(segs[|segs| - 1] != [] && !endsStar) || Scan(segs, 0, |segs|, anchored, c, 0).value == |c|
    ensures Scan(segs, 0, |segs| - 1, anchored, c, 0).Some?
    ensures EndPiece(c, segs[|segs| - 1], Scan(segs, 0, |segs| - 1, anchored, c, 0).value)
  {
    ScanSplit(segs, 0, anchored, c, 0);
    var m := |segs| - 1;
    var last := segs[m];
    var mid := Scan(segs, 0, m, anchored, c, 0).value;
    if last != [] {
      var e := Step(last, m, anchored, c, mid).value;
      assert e == |c| && OccursAt(c, last, e - |last|);
      assert c[|c| - |last|..] == last;
    }
  }

  /**
   * Whatever the matcher as written accepts, the corrected matcher accepts
   * too, so the pattern describes it.
   */
  lemma NativeAsWrittenSound(pattern: string, c: string)
    requires NativeAsWritten(pattern, c)
    ensures NativeMatch(pattern, c)
    ensures StarGlob(pattern, c)
  {
    SplitStars(pattern);
    if '*' in pattern {
      var segs := SplitOn(pattern, '*');
      ScanToEnd(segs, !StartsWith(pattern, "*"), EndsWith(pattern, "*"), c);
    }
    NativeMatchExact(pattern, c);
  }

  /** The pieces of `x*yz`. */
  lemma SplitExample()
    ensures SplitOn("x*yz", '*') == ["x", "yz"]
  {
    var p := "x*yz";
    assert IndexFrom(p, '*', 2) == None;
    assert SplitFrom(p, '*', 2) == [p[2..]] == ["yz"];
    assert IndexFrom(p, '*', 0) == Some(1);
    assert p[0..1] == "x";
    assert SplitFrom(p, '*', 0) == [p[0..1]] + SplitFrom(p, '*', 2) == ["x", "yz"];
  }

  /** The loop over both pieces of `x*yz` on `xyzyz` finds `x` at 0 and `yz` at 1. */
  lemma ScanExample()
    ensures Scan(["x", "yz"], 0, 2, true, "xyzyz", 0) == Some(3)
    ensures Scan(["x", "yz"], 0, 1, true, "xyzyz", 0) == Some(1)
  {
    var c := "xyzyz";
    assert c[0..1] == "x" && c[1..3] == "yz";
    assert Find(c, "x", 0) == Some(0);
    assert Find(c, "yz", 1) == Some(1);
    assert Step("x", 0, true, c, 0) == Some(1);
    assert Step("yz", 1, true, c, 1) == Some(3);
    assert Scan(["x", "yz"], 1, 2, true, c, 1) == Some(3);
  }

  /**
   * The matcher as written misses a match: in `x*yz` against `xyzyz` the
   * search for the last piece stops at its first occurrence, offset 1, and
   * the end check then fails, although the star can stand for `yz`.
   */
  lemma NativeAsWrittenMissesMatch()
    ensures !NativeAsWritten("x*yz", "xyzyz")
    ensures NativeMatch("x*yz", "xyzyz")
    ensures StarGlob("x*yz", "xyzyz")
  {
    var p := "x*yz";
    var c := "xyzyz";
    SplitExample();
    ScanExample();
    assert p[1] == '*' && p[0] != '*' && p[3] != '*';
    assert '*' in p && !StartsWith(p, "*") && !EndsWith(p, "*");
    assert c[3..] == "yz";
    NativeMatchExact(p, c);
  }

  /** Without a star, a `[native]` pattern matches exactly the command equal to it. */
  lemma NativeNoStar(pattern: string, c: string)
    requires '*' !in pattern
    ensures NativeAsWritten(pattern, c) <==> c == pattern
    ensures NativeMatch(pattern, c) <==> c == pattern
    ensures StarGlob(pattern, c) <==> c == pattern
  {
    SplitStars(pattern);
  }

  /** Every character is a star. */
  predicate AllStars(pattern: string) {
    forall k :: 0 <= k < |pattern| ==> pattern[k] == '*'
  }

  /** Splitting a run of stars at its stars leaves only empty pieces. */
  lemma StarsSplitEmpty(pattern: string)
    requires AllStars(pattern)
    ensures forall k :: 0 <= k < |SplitOn(pattern, '*')| ==> SplitOn(pattern, '*')[k] == []
  {
    var segs := SplitOn(pattern, '*');
    forall k | 0 <= k < |segs|
      ensures segs[k] == []
    {
      SplitOnMember(pattern, '*', segs[k]);
      var a: nat, b: nat :| FieldFrom(pattern, '*', 0, a, b) && pattern[a..b] == segs[k];
      StarIn(pattern, a, b);
    }
  }

  /** A non-empty stretch of a run of stars holds a star. */
  lemma StarIn(pattern: string, a: nat, b: nat)
    requires AllStars(pattern) && a <= b <= |pattern|
    ensures a < b ==> '*' in pattern[a..b]
  {
    if a < b {
      assert pattern[a..b][0] == '*';
    }
  }

  /** Empty pieces leave the search where it is. */
  lemma {:induction false} ScanEmpty(segs: seq<string>, k: nat, stop: nat, anchored: bool, c: string, pos: nat)
    requires k <= stop <= |segs| && forall j :: k <= j < stop ==> segs[j] == []
    ensures Scan(segs, k, stop, anchored, c, pos) == Some(pos)
    decreases stop - k
  {
    if k < stop {
      ScanEmpty(segs, k + 1, stop, anchored, c, pos);
    }
  }

  /** A `[native]` pattern made only of stars matches every command. */
  lemma NativeAllStars(pattern: string, c: string)
    requires pattern != [] && AllStars(pattern)
    ensures NativeAsWritten(pattern, c)
  {
    assert pattern[0] == '*';
    StarsSplitEmpty(pattern);
    var segs := SplitOn(pattern, '*');
    ScanEmpty(segs, 0, |segs|, false, c, 0);
  }

  /** So does the corrected matcher. */
  lemma NativeMatchAllStars(pattern: string, c: string)
    requires pattern != [] && AllStars(pattern)
    ensures NativeMatch(pattern, c)
  {
    assert '*' in pattern by { assert pattern[0] == '*'; }
    StarsSplitEmpty(pattern);
    SplitStars(pattern);
    var segs := SplitOn(pattern, '*');
    ScanEmpty(segs, 0, |segs| - 1, !StartsWith(pattern, "*"), c, 0);
    assert segs[|segs| - 1] == [];
    assert c[|c|..] == [];
  }

  /** And so does the reference meaning: a run of stars describes every text. */
  lemma StarGlobAllStars(pattern: string, c: string)
    requires pattern != [] && AllStars(pattern)
    ensures StarGlob(pattern, c)
  {
    NativeMatchAllStars(pattern, c);
    NativeMatchExact(pattern, c);
  }

  /**
   * What the `[native]` matcher as written promises: it never accepts a
   * command the pattern does not describe, it is plain equality without a
   * star, and a pattern of stars only accepts everything.
   */
  lemma NativeAsWrittenSpec(pattern: string, c: string)
    ensures NativeAsWritten(pattern, c) ==> StarGlob(pattern, c)
    ensures '*' !in pattern ==> (NativeAsWritten(pattern, c) <==> c == pattern)
    ensures pattern != [] && AllStars(pattern) ==> NativeAsWritten(pattern, c)
  {
    if NativeAsWritten(pattern, c) {
      NativeAsWrittenSound(pattern, c);
    }
    if '*' !in pattern {
      NativeNoStar(pattern, c);
    }
    if pattern != [] && AllStars(pattern) {
      NativeAllStars(pattern, c);
    }
  }

  /**
   * `match_pattern(pattern_type, pattern, command)`. `search` stands for
   * `re.search` and `fullMatch` for `PurePath(command).full_match(pattern)`;
   * `None` from either is a raised error, which counts as no match. A
   * `[glob]` pattern and the command both have a leading `~` expanded first.
   * A `[native]` pattern goes through the star matcher as written. A
   * default pattern is an `fnmatch` pattern.
   */
  function MatchPattern(kind: PatternType, pattern: string, command: string,
                        search: (string, string) -> Option<bool>,
                        fullMatch: (string, string) -> Option<bool>,
                        home: string, inClass: (string, char) -> bool): (r: bool)
    ensures kind == Regex ==> (r <==> search(pattern, command) == Some(true))
    ensures kind == Glob ==>
      (r <==> fullMatch(Normalization.ExpandTilde(command, home), Normalization.ExpandTilde(pattern, home)) == Some(true))
    ensures kind == Native ==> (r ==> StarGlob(pattern, command))
    ensures kind == Native && '*' !in pattern ==> (r <==> command == pattern)
    ensures kind == Native && pattern != [] && AllStars(pattern) ==> r
    ensures kind == Default ==> (r <==> FnMatch.FnMatch(command, pattern, inClass))
  {
    match kind
    case Regex => search(pattern, command).GetOr(false)
    case Glob =>
      var p := Normalization.ExpandTilde(pattern, home);
      var c := Normalization.ExpandTilde(command, home);
      fullMatch(c, p).GetOr(false)
    case Native =>
      NativeAsWrittenSpec(pattern, command);
      NativeAsWritten(pattern, command)
    case Default => FnMatch.FnMatch(command, pattern, inClass)
  }
}
