/**
 * The heredoc rule of the generated parser, kept apart from the grammar.
 *
 * As generated, `heredoc` ends with `heredoc_content <- (![\n\r] .)*`, which
 * takes the rest of the line after the delimiter as if it were the heredoc's
 * body. A shell reads the body from the FOLLOWING lines, and what follows the
 * delimiter on the same line is more shell syntax. So in `cat <<EOF; rm -rf /`
 * the rule as written swallows `; rm -rf /` into a redirection of a single
 * simple command `cat <<EOF; rm -rf /`, and the command after `;` is never
 * surfaced on its own. The grammar of the model stops after the delimiter
 * (`Grammar.HeredocRule`); this module keeps the rule as written and relates
 * the two.
 */
module HeredocFinding {
  import opened Results
  import Text
  import opened Grammar

  /** `![\n\r] .`: any character but a line break. */
  predicate NotLineEnd(c: char) {
    c != '\n' && c != '\r'
  }

  /** `heredoc_content <- (![\n\r] .)*`: the offset of the end of the line. */
  function HeredocContentEnd(s: string, j: nat): (e: nat)
    requires j <= |s|
    ensures j <= e <= |s|
    ensures e == |s| || s[e] == '\n' || s[e] == '\r'
    ensures forall k :: j <= k < e ==> NotLineEnd(s[k])
  {
    Text.RunHolds(s, j, NotLineEnd, true);
    Text.Run(s, j, NotLineEnd, true)
  }

  /**
   * `heredoc <- "<<" "-"? spacing heredoc_delimiter spacing heredoc_content?`
   * as generated: once the delimiter is read, the rule runs to the end of
   * the line.
   */
  function HeredocAsWritten(s: string, i: nat): (r: Res)
    requires i <= |s|
    ensures Spans(s, i, r)
    ensures r.Parsed? ==> r.node.Redirect? && r.node.redirect == HereDoc && r.node.operand.Some?
    ensures r.Parsed? ==> r.end == |s| || s[r.end] == '\n' || s[r.end] == '\r'
  {
    if At(s, i, "<<") then
      var j := if At(s, i + 2, "-") then i + 3 else i + 2;
      match HeredocDelimiter(s, Spacing(s, j))
      case Fail => Fail
      case Parsed(d, k) =>
        var e := HeredocContentEnd(s, Spacing(s, k));
        Parsed(Redirect(s[i..e], i, HereDoc, Some(d)), e)
    else
      Fail
  }

  /**
   * In `cat <<EOF; rm -rf /` the rule as written takes everything from
   * `<<` to the end, the `;` and the command after it included, while the
   * corrected rule stops after `EOF`, right before the `;`.
   */
  lemma HeredocSwallowsCommand(s: string)
    requires s == "cat <<EOF; rm -rf /"
    ensures HeredocAsWritten(s, 4).Parsed? && HeredocAsWritten(s, 4).end == |s|
    ensures HeredocRule(s, 4).Parsed? && HeredocRule(s, 4).end == 9 && s[9] == ';'
  {
    ExampleDelimiter(s);
    ExampleContent(s);
    BothRules(s, 4, 6, HeredocWord(s[6..9], 6), 9);
  }

  /** Both rules after a plain `<<` and a delimiter `d` ending at `k` with no blanks after it. */
  lemma BothRules(s: string, i: nat, j: nat, d: Node, k: nat)
    requires i + 2 == j <= |s| && At(s, i, "<<") && !At(s, j, "-") && Spacing(s, j) == j
    requires HeredocDelimiter(s, j) == Parsed(d, k) && k <= |s| && Spacing(s, k) == k
    ensures HeredocRule(s, i) == Parsed(Redirect(s[i..k], i, HereDoc, Some(d)), k)
    ensures HeredocAsWritten(s, i).Parsed? && HeredocAsWritten(s, i).end == HeredocContentEnd(s, k)
  {
  }

  /** In the example the delimiter is the word `EOF` right after `<<`. */
  lemma ExampleDelimiter(s: string)
    requires s == "cat <<EOF; rm -rf /"
    ensures At(s, 4, "<<") && !At(s, 6, "-") && Spacing(s, 6) == 6
    ensures HeredocDelimiter(s, 6) == Parsed(HeredocWord(s[6..9], 6), 9)
    ensures s[9] == ';' && Spacing(s, 9) == 9
  {
    assert s[4..6] == "<<" && s[6] != '-';
    assert Text.Run(s, 7, IsNameChar, true) == 9 by {
      assert IsNameChar(s[7]) && IsNameChar(s[8]) && !IsNameChar(s[9]);
      assert Text.Run(s, 8, IsNameChar, true) == Text.Run(s, 9, IsNameChar, true);
    }
  }

  /** In the example the line runs on to the end of the input. */
  lemma ExampleContent(s: string)
    requires s == "cat <<EOF; rm -rf /"
    ensures HeredocContentEnd(s, 9) == |s|
  {
    assert forall k :: 9 <= k < |s| ==> NotLineEnd(s[k]);
  }

  /**
   * The two rules accept at the same offsets and read the same delimiter;
   * the corrected one ends no later, and where the line ends right after
   * the delimiter and its blanks they agree exactly.
   */
  lemma CorrectedIsPrefix(s: string, i: nat)
    requires i <= |s|
    ensures HeredocAsWritten(s, i).Parsed? <==> HeredocRule(s, i).Parsed?
    ensures HeredocRule(s, i).Parsed? ==>
      && HeredocRule(s, i).node.operand == HeredocAsWritten(s, i).node.operand
      && HeredocRule(s, i).end <= HeredocAsWritten(s, i).end
    ensures HeredocRule(s, i).Parsed? && (HeredocRule(s, i).end == |s| || !NotLineEnd(s[HeredocRule(s, i).end])) ==>
      HeredocRule(s, i) == HeredocAsWritten(s, i)
  {
  }

  /**
   * The corrected rule consumes nothing after the delimiter but blanks, so
   * an operator or a line break that follows is left to the rules that
   * split commands.
   */
  lemma HeredocStopsAfterDelimiter(s: string, i: nat)
    requires i <= |s| && HeredocRule(s, i).Parsed?
    ensures var r := HeredocRule(s, i);
      var d := r.node.operand.value;
      && i + 2 <= d.offset && d.offset + |d.text| <= r.end
      && forall k :: d.offset + |d.text| <= k < r.end ==> IsBlank(s[k])
  {
    var j := if At(s, i + 2, "-") then i + 3 else i + 2;
    var d := HeredocDelimiter(s, Spacing(s, j));
    assert d.Parsed? && Spans(s, Spacing(s, j), d);
  }
}
