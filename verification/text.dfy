/**
 * The parts of Python's `str` API the modelled code relies on: `strip`,
 * `split()` on whitespace (with and without a split limit), `split` on one
 * character, `find`, `replace`, `startswith`/`endswith`, ASCII lower-casing
 * and decimal rendering of a count.
 */
module Text {
  import opened Results

  /** Python's `str.isspace()`: the characters `strip()` and `split()` remove. */
  predicate IsSpace(c: char) {
    c == ' ' || ('\t' <= c <= '\r') || ('\U{001C}' <= c <= '\U{001F}')
    || c == '\U{0085}' || c == '\U{00A0}' || c == '\U{1680}'
    || ('\U{2000}' <= c <= '\U{200A}') || c == '\U{2028}' || c == '\U{2029}'
    || c == '\U{202F}' || c == '\U{205F}' || c == '\U{3000}'
  }

  predicate AllSpace(s: string) {
    forall k :: 0 <= k < |s| ==> IsSpace(s[k])
  }

  predicate NoSpace(s: string) {
    forall k :: 0 <= k < |s| ==> !IsSpace(s[k])
  }

  predicate StartsWith(s: string, p: string) {
    |p| <= |s| && s[..|p|] == p
  }

  predicate EndsWith(s: string, p: string) {
    |p| <= |s| && s[|s| - |p|..] == p
  }

  /**
   * End of the longest run, starting at `i`, of characters `c` with
   * `p(c) == want`.
   */
  function Run(s: string, i: nat, p: char -> bool, want: bool): (e: nat)
    requires i <= |s|
    ensures i <= e <= |s|
    ensures e == |s| || p(s[e]) != want
    decreases |s| - i
  {
    if i < |s| && p(s[i]) == want then Run(s, i + 1, p, want) else i
  }

  /** Every character a run passes over has the wanted value. */
  lemma {:induction false} RunHolds(s: string, i: nat, p: char -> bool, want: bool)
    requires i <= |s|
    ensures forall k :: i <= k < Run(s, i, p, want) ==> p(s[k]) == want
    decreases |s| - i
  {
    if i < |s| && p(s[i]) == want {
      RunHolds(s, i + 1, p, want);
    }
  }

  /** Start of the longest run, ending at `j`, of characters satisfying `p`. */
  function RunBack(s: string, j: nat, p: char -> bool): (b: nat)
    requires j <= |s|
    ensures b <= j
    ensures forall k :: b <= k < j ==> p(s[k])
    ensures b == 0 || !p(s[b - 1])
  {
    if j > 0 && p(s[j - 1]) then RunBack(s, j - 1, p) else j
  }

  /** `s.strip()`. */
  function Trim(s: string): (r: string)
    ensures r == [] || (!IsSpace(r[0]) && !IsSpace(r[|r| - 1]))
    ensures r == [] <==> AllSpace(s)
    ensures |r| <= |s|
  {
    var a := Run(s, 0, IsSpace, true);
    RunHolds(s, 0, IsSpace, true);
    if a == |s| then [] else s[a..RunBack(s, |s|, IsSpace)]
  }

  /** `strip()` removes whitespace from the two ends and nothing else. */
  lemma TrimRemovesOnlySpace(s: string)
    ensures exists a, b ::
              && 0 <= a <= b <= |s| && Trim(s) == s[a..b]
              && (forall k :: 0 <= k < a ==> IsSpace(s[k]))
              && (forall k :: b <= k < |s| ==> IsSpace(s[k]))
  {
    var a := Run(s, 0, IsSpace, true);
    RunHolds(s, 0, IsSpace, true);
    if a == |s| {
      assert Trim(s) == s[a..a];
    } else {
      var b := RunBack(s, |s|, IsSpace);
      assert Trim(s) == s[a..b];
    }
  }

  /** A string without surrounding whitespace is its own `strip()`. */
  lemma TrimNoEdge(s: string)
    requires s == [] || (!IsSpace(s[0]) && !IsSpace(s[|s| - 1]))
    ensures Trim(s) == s
  {
    if s != [] {
      assert Run(s, 0, IsSpace, true) == 0;
      assert RunBack(s, |s|, IsSpace) == |s|;
      assert s[0..|s|] == s;
    }
  }

  /** `strip()` is idempotent. */
  lemma TrimIdempotent(s: string)
    ensures Trim(Trim(s)) == Trim(s)
  {
    TrimNoEdge(Trim(s));
  }

  /**
   * The maximal runs of characters failing `p`, from offset `i` on;
   * with `p` the whitespace test this is `split()`.
   */
  function Fields(s: string, i: nat, p: char -> bool): (r: seq<string>)
    requires i <= |s|
    ensures r == [] <==> Run(s, i, p, true) == |s|
    decreases |s| - i
  {
    var j := Run(s, i, p, true);
    if j == |s| then [] else [Piece(s, j, Run(s, j, p, false))] + Fields(s, Run(s, j, p, false), p)
  }

  /** `s[j..e]`, built character by character. */
  function Piece(s: string, j: nat, e: nat): (r: string)
    requires j <= e <= |s|
    ensures |r| == e - j
    ensures forall k :: 0 <= k < |r| ==> r[k] == s[j + k]
    decreases e - j
  {
    if j == e then [] else [s[j]] + Piece(s, j + 1, e)
  }

  lemma PieceIsSlice(s: string, j: nat, e: nat)
    requires j <= e <= |s|
    ensures Piece(s, j, e) == s[j..e]
  {
  }

  lemma {:induction false} PieceShift(s: string, t: string, d: nat, j: nat, e: nat)
    requires SuffixAt(s, t, d) && j <= e <= |t|
    ensures Piece(t, j, e) == Piece(s, d + j, d + e)
    decreases e - j
  {
    if j < e {
      PieceShift(s, t, d, j + 1, e);
    }
  }

  /** Every field is non-empty and none of its characters satisfies `p`. */
  lemma {:induction false} FieldsShape(s: string, i: nat, p: char -> bool)
    requires i <= |s|
    ensures forall k :: 0 <= k < |Fields(s, i, p)| ==>
      Fields(s, i, p)[k] != [] && forall m :: 0 <= m < |Fields(s, i, p)[k]| ==> !p(Fields(s, i, p)[k][m])
    decreases |s| - i
  {
    var j := Run(s, i, p, true);
    if j < |s| {
      var e := Run(s, j, p, false);
      RunHolds(s, j, p, false);
      FieldsShape(s, e, p);
      var r := Fields(s, i, p);
      assert r[0] == Piece(s, j, e);
      assert forall k :: 0 < k < |r| ==> r[k] == Fields(s, e, p)[k - 1];
    }
  }

  /** Python's `s.split()`: the maximal runs of non-whitespace, in order. */
  function Words(s: string): (r: seq<string>)
    ensures r == [] <==> AllSpace(s)
  {
    var r := Fields(s, 0, IsSpace);
    RunHolds(s, 0, IsSpace, true);
    assert Run(s, 0, IsSpace, true) < |s| ==> !IsSpace(s[Run(s, 0, IsSpace, true)]);
    r
  }

  /** `split()` yields non-empty words without whitespace. */
  lemma WordsShape(s: string)
    ensures forall k :: 0 <= k < |Words(s)| ==> Words(s)[k] != [] && NoSpace(Words(s)[k])
  {
    FieldsShape(s, 0, IsSpace);
  }

  /** The characters of `s` from offset `i` on that fail `p`, in order. */
  function Kept(s: string, i: nat, p: char -> bool): (r: string)
    requires i <= |s|
    decreases |s| - i
  {
    if i == |s| then []
    else if p(s[i]) then Kept(s, i + 1, p)
    else [s[i]] + Kept(s, i + 1, p)
  }

  function Concat(ws: seq<string>): string {
    if ws == [] then [] else ws[0] + Concat(ws[1..])
  }

  lemma {:induction false} KeptSkipsRun(s: string, i: nat, j: nat, p: char -> bool)
    requires i <= j <= |s|
    requires forall k :: i <= k < j ==> p(s[k])
    ensures Kept(s, i, p) == Kept(s, j, p)
    decreases j - i
  {
    if i < j {
      KeptSkipsRun(s, i + 1, j, p);
    }
  }

  lemma {:induction false} KeptKeepsRun(s: string, i: nat, j: nat, p: char -> bool)
    requires i <= j <= |s|
    requires forall k :: i <= k < j ==> !p(s[k])
    ensures Kept(s, i, p) == s[i..j] + Kept(s, j, p)
    decreases j - i
  {
    if i < j {
      KeptKeepsRun(s, i + 1, j, p);
      calc {
        Kept(s, i, p);
        [s[i]] + Kept(s, i + 1, p);
        [s[i]] + (s[i + 1..j] + Kept(s, j, p));
        { assert s[i..j] == [s[i]] + s[i + 1..j]; }
        s[i..j] + Kept(s, j, p);
      }
    }
  }

  lemma {:induction false} FieldsCoverKept(s: string, i: nat, p: char -> bool)
    requires i <= |s|
    ensures Concat(Fields(s, i, p)) == Kept(s, i, p)
    decreases |s| - i
  {
    var j := Run(s, i, p, true);
    RunHolds(s, i, p, true);
    KeptSkipsRun(s, i, j, p);
    if j < |s| {
      var e := Run(s, j, p, false);
      RunHolds(s, j, p, false);
      KeptKeepsRun(s, j, e, p);
      FieldsCoverKept(s, e, p);
      var ws := Fields(s, i, p);
      PieceIsSlice(s, j, e);
      assert ws[0] == s[j..e] && ws[1..] == Fields(s, e, p);
    }
  }

  /** `split()` loses exactly the whitespace: its words glued together are the non-whitespace characters. */
  lemma WordsCoverVisible(s: string)
    ensures Concat(Words(s)) == Kept(s, 0, IsSpace)
  {
    FieldsCoverKept(s, 0, IsSpace);
  }

  /** `t` is `s` with its first `d` characters removed, stated pointwise. */
  predicate SuffixAt(s: string, t: string, d: nat) {
    |t| + d == |s| && forall k :: 0 <= k < |t| ==> t[k] == s[d + k]
  }

  lemma {:induction false} RunShift(s: string, t: string, d: nat, i: nat, p: char -> bool, want: bool)
    requires SuffixAt(s, t, d) && i <= |t|
    ensures Run(t, i, p, want) + d == Run(s, d + i, p, want)
    decreases |t| - i
  {
    if i < |t| && p(t[i]) == want {
      RunShift(s, t, d, i + 1, p, want);
    }
  }

  /** One unfolding of `Fields` past its first field. */
  lemma FieldsStep(s: string, i: nat, p: char -> bool, j: nat, e: nat)
    requires i <= |s| && j == Run(s, i, p, true) && j < |s| && e == Run(s, j, p, false)
    ensures Fields(s, i, p) == [Piece(s, j, e)] + Fields(s, e, p)
  {
  }

  /** The fields of a suffix are the fields of the whole string from that offset. */
  lemma {:induction false} FieldsShift(s: string, t: string, d: nat, i: nat, p: char -> bool)
    requires SuffixAt(s, t, d) && i <= |t|
    ensures Fields(t, i, p) == Fields(s, d + i, p)
    decreases |t| - i
  {
    RunShift(s, t, d, i, p, true);
    var j := Run(t, i, p, true);
    if j < |t| {
      RunShift(s, t, d, j, p, false);
      var e := Run(t, j, p, false);
      FieldsShift(s, t, d, e, p);
      PieceShift(s, t, d, j, e);
      FieldsStep(t, i, p, j, e);
      FieldsStep(s, d + i, p, d + j, d + e);
    } else {
      assert Run(s, d + i, p, true) == |s|;
    }
  }

  lemma WordsOfSuffix(s: string, k: nat)
    requires k <= |s|
    ensures Words(s[k..]) == Fields(s, k, IsSpace)
  {
    FieldsShift(s, s[k..], k, 0, IsSpace);
  }

  /**
   * Python's `s.split(None, 1)`: the first word and, when something
   * non-blank follows it, the remainder with its leading whitespace removed
   * and its trailing whitespace kept.
   */
  function SplitOnce(s: string): (r: seq<string>)
    ensures |r| <= 2
    ensures r == [] <==> AllSpace(s)
    ensures forall k :: 0 <= k < |r| ==> r[k] != [] && !IsSpace(r[k][0])
  {
    var j := Run(s, 0, IsSpace, true);
    RunHolds(s, 0, IsSpace, true);
    if j == |s| then []
    else
      var e := Run(s, j, IsSpace, false);
      var k := Run(s, e, IsSpace, true);
      if k == |s| then [s[j..e]] else [s[j..e], s[k..]]
  }

  /** A single word splits once into itself. */
  lemma SplitOnceOne(w: string)
    requires w != [] && NoSpace(w)
    ensures SplitOnce(w) == [w]
  {
    WordsOne(w);
    SplitOnceFirst(w);
    SplitOnceRest(w);
  }

  /** A word, one space and a text starting with a non-space splits once into the word and that text. */
  lemma SplitOnceCons(w: string, t: string)
    requires w != [] && NoSpace(w) && t != [] && !IsSpace(t[0])
    ensures SplitOnce(w + " " + t) == [w, t]
  {
    var s := w + " " + t;
    assert s[0] == w[0];
    RunExact(s, 0, 0, IsSpace, true);
    assert forall k :: 0 <= k < |w| ==> s[k] == w[k];
    RunExact(s, 0, |w|, IsSpace, false);
    assert s[|w| + 1] == t[0];
    RunExact(s, |w|, |w| + 1, IsSpace, true);
    assert s[0..|w|] == w && s[|w| + 1..] == t;
  }

  /** `split(None, 1)` agrees with `split()` on the first word. */
  lemma SplitOnceFirst(s: string)
    ensures |SplitOnce(s)| >= 1 ==> SplitOnce(s)[0] == Words(s)[0]
  {
  }

  /** `split(None, 1)` has a remainder exactly when `split()` finds a second word, and the remainder has exactly the remaining words. */
  lemma SplitOnceRest(s: string)
    ensures |SplitOnce(s)| == 2 <==> |Words(s)| >= 2
    ensures |SplitOnce(s)| == 2 ==> Words(SplitOnce(s)[1]) == Words(s)[1..]
  {
    var j := Run(s, 0, IsSpace, true);
    if j < |s| {
      var e := Run(s, j, IsSpace, false);
      var k := Run(s, e, IsSpace, true);
      assert Words(s)[1..] == Fields(s, e, IsSpace);
      if k < |s| {
        assert Run(s, k, IsSpace, true) == k;
        WordsOfSuffix(s, k);
      }
    }
  }

  /** Position of the first `c` in `s` at or after `i`. */
  function IndexFrom(s: string, c: char, i: nat): (r: Option<nat>)
    requires i <= |s|
    ensures r.Some? ==> i <= r.value < |s| && s[r.value] == c
    ensures r.Some? ==> forall k :: i <= k < r.value ==> s[k] != c
    ensures r.None? ==> forall k :: i <= k < |s| ==> s[k] != c
    decreases |s| - i
  {
    if i == |s| then None
    else if s[i] == c then Some(i)
    else IndexFrom(s, c, i + 1)
  }

  /** Position of the first `c` in `s`, as Python's `s.find(c)` when it is not -1. */
  function IndexOf(s: string, c: char): (r: Option<nat>)
    ensures r.Some? ==> r.value < |s| && s[r.value] == c && c !in s[..r.value]
    ensures r.None? <==> c !in s
  {
    var r := IndexFrom(s, c, 0);
    assert r.None? ==> forall k :: 0 <= k < |s| ==> s[k] != c;
    r
  }

  /** Position of the last `c` in `s` before offset `j`. */
  function LastIndexBefore(s: string, c: char, j: nat): (r: Option<nat>)
    requires j <= |s|
    ensures r.Some? ==> r.value < j && s[r.value] == c
    ensures r.Some? ==> forall k :: r.value < k < j ==> s[k] != c
    ensures r.None? ==> forall k :: 0 <= k < j ==> s[k] != c
  {
    if j == 0 then None
    else if s[j - 1] == c then Some(j - 1)
    else LastIndexBefore(s, c, j - 1)
  }

  /** The fields of `s` from offset `i` on, separated by `c`. */
  function SplitFrom(s: string, c: char, i: nat): (r: seq<string>)
    requires i <= |s|
    ensures |r| >= 1
    ensures forall k :: 0 <= k < |r| ==> c !in r[k]
    decreases |s| - i
  {
    match IndexFrom(s, c, i)
    case None => [s[i..]]
    case Some(k) =>
      var rest := SplitFrom(s, c, k + 1);
      assert forall f :: 0 < f <= |rest| ==> ([s[i..k]] + rest)[f] == rest[f - 1];
      [s[i..k]] + rest
  }

  /** Python's `s.split(c)` for a one-character separator: every field, empty ones included. */
  function SplitOn(s: string, c: char): (r: seq<string>)
    ensures |r| >= 1
    ensures forall k :: 0 <= k < |r| ==> c !in r[k]
  {
    SplitFrom(s, c, 0)
  }

  /** Python's `c.join(fields)`. */
  function JoinWith(fields: seq<string>, c: char): string
    requires |fields| >= 1
  {
    if |fields| == 1 then fields[0] else fields[0] + [c] + JoinWith(fields[1..], c)
  }

  lemma {:induction false} SplitFromJoin(s: string, c: char, i: nat)
    requires i <= |s|
    ensures JoinWith(SplitFrom(s, c, i), c) == s[i..]
    decreases |s| - i
  {
    match IndexFrom(s, c, i) {
      case None =>
      case Some(k) =>
        SplitFromJoin(s, c, k + 1);
        var fields := SplitFrom(s, c, i);
        assert fields[0] == s[i..k] && fields[1..] == SplitFrom(s, c, k + 1);
        assert s[i..] == s[i..k] + [c] + s[k + 1..];
    }
  }

  /** Splitting on `c` and joining with `c` gives back the original string. */
  lemma SplitJoin(s: string, c: char)
    ensures JoinWith(SplitOn(s, c), c) == s
  {
    SplitFromJoin(s, c, 0);
  }

  /**
   * `s[a..b]` is a whole field of `s` when splitting from offset `i` on
   * `c`: it begins at `i` or just after a separator, ends at the end or just
   * before a separator, and holds no separator itself.
   */
  ghost predicate FieldFrom(s: string, c: char, i: nat, a: nat, b: nat) {
    i <= a <= b <= |s| && (a == i || s[a - 1] == c) && (b == |s| || s[b] == c) && c !in s[a..b]
  }

  /** Every field `split` returns is a separator-bounded stretch of `s`. */
  lemma {:induction false} SplitFromSound(s: string, c: char, i: nat, x: string)
    requires i <= |s| && x in SplitFrom(s, c, i)
    ensures exists a: nat, b: nat :: FieldFrom(s, c, i, a, b) && s[a..b] == x
    decreases |s| - i
  {
    match IndexFrom(s, c, i) {
      case None =>
        assert FieldFrom(s, c, i, i, |s|);
      case Some(k) =>
        var rest := SplitFrom(s, c, k + 1);
        assert SplitFrom(s, c, i) == [s[i..k]] + rest;
        if x == s[i..k] {
          assert FieldFrom(s, c, i, i, k);
        } else {
          assert x in rest;
          SplitFromSound(s, c, k + 1, x);
          var a: nat, b: nat :| FieldFrom(s, c, k + 1, a, b) && s[a..b] == x;
          assert FieldFrom(s, c, i, a, b);
        }
    }
  }

  /** Every separator-bounded stretch of `s` is one of the fields `split` returns. */
  lemma {:induction false} SplitFromComplete(s: string, c: char, i: nat, a: nat, b: nat)
    requires FieldFrom(s, c, i, a, b)
    ensures s[a..b] in SplitFrom(s, c, i)
    decreases |s| - i
  {
    match IndexFrom(s, c, i) {
      case None =>
        assert a == i && b == |s|;
        assert SplitFrom(s, c, i) == [s[i..]] && s[a..b] == s[i..];
      case Some(k) =>
        var rest := SplitFrom(s, c, k + 1);
        assert SplitFrom(s, c, i) == [s[i..k]] + rest;
        if a == i {
          assert b == k;
        } else {
          assert FieldFrom(s, c, k + 1, a, b);
          SplitFromComplete(s, c, k + 1, a, b);
        }
    }
  }

  /** `x` is one of the fields of `s.split(c)` exactly when it is a separator-bounded stretch of `s`. */
  lemma SplitOnMember(s: string, c: char, x: string)
    ensures x in SplitOn(s, c) <==> exists a: nat, b: nat :: FieldFrom(s, c, 0, a, b) && s[a..b] == x
  {
    if x in SplitOn(s, c) {
      SplitFromSound(s, c, 0, x);
    }
    if exists a: nat, b: nat :: FieldFrom(s, c, 0, a, b) && s[a..b] == x {
      var a: nat, b: nat :| FieldFrom(s, c, 0, a, b) && s[a..b] == x;
      SplitFromComplete(s, c, 0, a, b);
    }
  }

  /** `sub` occurs in `s` at position `j`. */
  predicate OccursAt(s: string, sub: string, j: nat) {
    j + |sub| <= |s| && s[j..j + |sub|] == sub
  }

  /**
   * Python's `s.find(sub, start)`: the leftmost occurrence of `sub` at or
   * after `start`, or `None` for -1.
   */
  function Find(s: string, sub: string, start: nat): (r: Option<nat>)
    ensures r.Some? ==> start <= r.value && OccursAt(s, sub, r.value)
    decreases |s| - start
  {
    if start + |sub| > |s| then None
    else if s[start..start + |sub|] == sub then Some(start)
    else Find(s, sub, start + 1)
  }

  /** `find` misses no occurrence: it reports one at or before any occurrence at or after `start`. */
  lemma {:induction false} FindLeftmost(s: string, sub: string, start: nat, j: nat)
    requires start <= j && OccursAt(s, sub, j)
    ensures Find(s, sub, start).Some? && Find(s, sub, start).value <= j
    decreases j - start
  {
    if start < j && s[start..start + |sub|] != sub {
      FindLeftmost(s, sub, start + 1, j);
    }
  }

  /**
   * Python's `s.replace(pat, rep)`: occurrences are replaced left to right
   * without overlapping, so `"***".replace("**", "*")` is `"**"`.
   */
  function Replace(s: string, pat: string, rep: string): (r: string)
    requires |pat| > 0
    decreases |s|
  {
    if |s| < |pat| then s
    else if s[..|pat|] == pat then rep + Replace(s[|pat|..], pat, rep)
    else [s[0]] + Replace(s[1..], pat, rep)
  }

  /** A string without any occurrence of `pat` is unchanged by `replace`. */
  lemma {:induction false} ReplaceAbsent(s: string, pat: string, rep: string)
    requires |pat| > 0
    requires forall j: nat :: !OccursAt(s, pat, j)
    ensures Replace(s, pat, rep) == s
    decreases |s|
  {
    if |s| >= |pat| {
      assert !OccursAt(s, pat, 0);
      forall j: nat
        ensures !OccursAt(s[1..], pat, j)
      {
        assert !OccursAt(s, pat, j + 1);
        if j + |pat| <= |s[1..]| {
          assert s[1..][j..j + |pat|] == s[j + 1..j + 1 + |pat|];
        }
      }
      ReplaceAbsent(s[1..], pat, rep);
    }
  }

  /** Python's `str.lower()` restricted to ASCII letters; other characters are kept. */
  function AsciiLower(s: string): (r: string)
    ensures |r| == |s|
    ensures forall k :: 0 <= k < |s| ==> (r[k] != s[k] <==> 'A' <= s[k] <= 'Z')
  {
    if s == [] then []
    else
      var c := s[0];
      var d := if 'A' <= c <= 'Z' then (c as int + 32) as char else c;
      [d] + AsciiLower(s[1..])
  }

  function DigitChar(d: nat): (c: char)
    requires d < 10
    ensures '0' <= c <= '9'
  {
    ['0', '1', '2', '3', '4', '5', '6', '7', '8', '9'][d]
  }

  /** Decimal rendering of a natural number, as Python's `str(n)`. */
  function NatToString(n: nat): (r: string)
    ensures r != []
    ensures forall k :: 0 <= k < |r| ==> '0' <= r[k] <= '9'
  {
    if n < 10 then [DigitChar(n)] else NatToString(n / 10) + [DigitChar(n % 10)]
  }

  /** The value of a string of decimal digits. */
  function DigitsValue(s: string): int
    requires forall k :: 0 <= k < |s| ==> '0' <= s[k] <= '9'
  {
    if s == [] then 0 else 10 * DigitsValue(s[..|s| - 1]) + (s[|s| - 1] as int - '0' as int)
  }

  /** The rendering reads back as the same number. */
  lemma {:induction false} NatToStringValue(n: nat)
    ensures DigitsValue(NatToString(n)) == n
  {
    if n >= 10 {
      NatToStringValue(n / 10);
      var r := NatToString(n);
      assert r[..|r| - 1] == NatToString(n / 10);
    }
  }

  /** Python's `" ".join(ws)`. */
  function Unwords(ws: seq<string>): (r: string)
    decreases |ws|
  {
    if ws == [] then [] else if |ws| == 1 then ws[0] else ws[0] + " " + Unwords(ws[1..])
  }

  /** A run ends exactly where the wanted characters stop. */
  lemma {:induction false} RunExact(s: string, i: nat, e: nat, p: char -> bool, want: bool)
    requires i <= e <= |s|
    requires forall k :: i <= k < e ==> p(s[k]) == want
    requires e == |s| || p(s[e]) != want
    ensures Run(s, i, p, want) == e
    decreases e - i
  {
    if i < e {
      RunExact(s, i + 1, e, p, want);
    }
  }

  /** Fields never start with a separator. */
  lemma FieldsSkip(s: string, i: nat, p: char -> bool)
    requires i < |s| && p(s[i])
    ensures Fields(s, i, p) == Fields(s, i + 1, p)
  {
    assert Run(s, i, p, true) == Run(s, i + 1, p, true);
  }

  /** A word followed by a space and more text splits into that word and the words of the rest. */
  lemma WordsCons(w: string, t: string)
    requires w != [] && NoSpace(w)
    ensures Words(w + " " + t) == [w] + Words(t)
  {
    var s := w + " " + t;
    assert s[0] == w[0];
    RunExact(s, 0, 0, IsSpace, true);
    assert forall k :: 0 <= k < |w| ==> s[k] == w[k];
    RunExact(s, 0, |w|, IsSpace, false);
    FieldsStep(s, 0, IsSpace, 0, |w|);
    PieceIsSlice(s, 0, |w|);
    assert s[0..|w|] == w;
    FieldsSkip(s, |w|, IsSpace);
    assert SuffixAt(s, t, |w| + 1);
    FieldsShift(s, t, |w| + 1, 0, IsSpace);
  }

  /** A single word splits into itself. */
  lemma WordsOne(w: string)
    requires w != [] && NoSpace(w)
    ensures Words(w) == [w]
  {
    RunExact(w, 0, 0, IsSpace, true);
    RunExact(w, 0, |w|, IsSpace, false);
    FieldsStep(w, 0, IsSpace, 0, |w|);
    PieceIsSlice(w, 0, |w|);
    assert w[0..|w|] == w;
  }

  /** Joining words with spaces and splitting again gives back the words. */
  lemma {:induction false} WordsUnwords(ws: seq<string>)
    requires forall k :: 0 <= k < |ws| ==> ws[k] != [] && NoSpace(ws[k])
    ensures Words(Unwords(ws)) == ws
    decreases |ws|
  {
    if |ws| == 1 {
      WordsOne(ws[0]);
    } else if |ws| > 1 {
      WordsUnwords(ws[1..]);
      WordsCons(ws[0], Unwords(ws[1..]));
    }
  }
}
