/**
 * Properties of the shell-line grammar that the separators and the
 * reserved-word check promise: which operator a `&`, `|` or `;` is read as,
 * where an unquoted word ends, and which words `command_word` refuses.
 */
module GrammarFacts {
  import opened Results
  import Text
  import opened Grammar

  /** A token that starts with `tok0` starts with its first character. */
  lemma AtFirst(s: string, j: nat, tok: string)
    requires At(s, j, tok) && tok != []
    ensures j < |s| && s[j] == tok[0]
  {
    assert s[j..j + |tok|][0] == s[j];
  }

  /**
   * `control_op` tries `&&`, `||`, `;` and `&` in that order after the
   * blanks: `&&` is never read as two `&`, a lone `&` is a background
   * operator, and nothing else (a `|` on its own included) is a control
   * operator.
   */
  lemma ControlOpChoice(s: string, i: nat)
    requires i <= |s|
    ensures var j := Spacing(s, i);
      var r := ControlOp(s, i);
      && (At(s, j, "&&") ==> r.Parsed? && r.node.kind == AndOp)
      && (At(s, j, "||") ==> r.Parsed? && r.node.kind == OrOp)
      && (At(s, j, ";") ==> r.Parsed? && r.node.kind == SemicolonOp)
      && (At(s, j, "&") && !At(s, j, "&&") ==> r.Parsed? && r.node.kind == BackgroundOp)
      && (r.Parsed? <==> At(s, j, "&") || At(s, j, "||") || At(s, j, ";"))
  {
    var j := Spacing(s, i);
    if At(s, j, "&&") {
      AtFirst(s, j, "&&");
      assert s[j + 1] == '&' by { assert s[j..j + 2][1] == s[j + 1]; }
    } else if At(s, j, "&") {
      AtFirst(s, j, "&");
    }
    if At(s, j, "||") {
      AtFirst(s, j, "||");
    }
    if At(s, j, ";") {
      AtFirst(s, j, ";");
    }
  }

  /** `|` is a pipe exactly when it is not the first half of `||`. */
  lemma PipeNotOr(s: string, i: nat)
    requires i <= |s|
    ensures var j := Spacing(s, i);
      PipeRule(s, i).Parsed? <==> At(s, j, "|") && !At(s, j, "||")
  {
    var j := Spacing(s, i);
    if At(s, j, "||") {
      assert s[j + 1] == '|' by { assert s[j..j + 2][1] == s[j + 1]; }
    }
  }

  /** A keyword match is a word of the list that no name character follows. */
  lemma KeywordShape(s: string, j: nat, words: seq<string>)
    requires KeywordAt(s, j, words)
    ensures exists w :: w in words && At(s, j, w) && (j + |w| == |s| || !IsNameChar(s[j + |w|]))
  {
    var w := FirstLiteral(s, j, words).value;
    assert w in words && At(s, j, w);
  }

  /** A refused word starts with a reserved word that no name character follows. */
  lemma ReservedWordShape(s: string, j: nat)
    requires ReservedWordAt(s, j)
    ensures exists w :: w in ReservedWords && At(s, j, w) && (j + |w| == |s| || !IsNameChar(s[j + |w|]))
  {
    KeywordShape(s, j, ReservedWords);
  }

  /** Ordered choice passes over the words that are not present. */
  lemma {:induction false} FirstLiteralSkip(s: string, j: nat, words: seq<string>, n: nat)
    requires n <= |words|
    requires forall k :: 0 <= k < n ==> !At(s, j, words[k])
    ensures FirstLiteral(s, j, words) == FirstLiteral(s, j, words[n..])
    decreases n
  {
    if n > 0 {
      assert !At(s, j, words[0]);
      FirstLiteralSkip(s, j, words[1..], n - 1);
      assert words[1..][n - 1..] == words[n..];
    }
  }

  /** `if` followed by a blank is refused as a command word. */
  lemma IfIsReserved()
    ensures ReservedWordAt("if x", 0) && CommandWordRule("if x", 0).Fail?
  {
    var s := "if x";
    assert At(s, 0, ReservedWords[0]) by { assert s[0..2] == "if"; }
    assert FirstLiteral(s, 0, ReservedWords) == Some("if");
  }

  /** `iffy` is a word: the lookahead after `if` sees a name character. */
  lemma IffyIsWord()
    ensures !ReservedWordAt("iffy", 0)
  {
    var s := "iffy";
    assert At(s, 0, ReservedWords[0]) by { assert s[0..2] == "if"; }
    assert FirstLiteral(s, 0, ReservedWords) == Some("if");
  }

  /**
   * `done` is a word too: the choice commits to `do`, whose lookahead then
   * fails on `n`, and the later `done` is never tried.
   */
  lemma DoneIsWord()
    ensures !ReservedWordAt("done", 0)
  {
    var d := "done";
    var before := ["if", "then", "else", "elif", "fi", "case", "esac", "for", "while", "until"];
    var after := ["do", "done", "in", "function"];
    assert ReservedWords == before + after;
    NothingBeforeDo(d, before);
    FirstLiteralSkip(d, 0, before + after, |before|);
    assert (before + after)[|before|..] == after;
    DoComesFirst(d, after);
  }

  /** Of the words from `do` on, the choice commits to `do`, and a name character follows it in `done`. */
  lemma DoComesFirst(d: string, after: seq<string>)
    requires d == "done" && after == ["do", "done", "in", "function"]
    ensures FirstLiteral(d, 0, after) == Some("do") && IsNameChar(d[2])
  {
    assert At(d, 0, "do") by { assert d[0..2] == "do"; }
  }

  /** None of the reserved words tried before `do` starts `done`. */
  lemma NothingBeforeDo(d: string, before: seq<string>)
    requires d == "done"
    requires before == ["if", "then", "else", "elif", "fi", "case", "esac", "for", "while", "until"]
    ensures forall k :: 0 <= k < |before| ==> !At(d, 0, before[k])
  {
    forall k | 0 <= k < |before|
      ensures !At(d, 0, before[k])
    {
      var w := before[k];
      assert |w| >= 2 && (w[0] != 'd' || w[1] != 'o');
    }
  }

  /**
   * The pieces of an unquoted word: every literal piece is one character
   * that is not a delimiter, and the word stops at the end of the input or
   * at a delimiter that no backslash escapes.
   */
  lemma {:induction false} UnquotedPiecesBounds(s: string, j: nat)
    requires j <= |s|
    ensures var r := UnquotedPieces(s, j);
      && (forall n :: n in r.nodes && n.Literal? ==> |n.text| == 1 && !IsDelimiter(n.text[0]))
      && (r.end == |s| || IsDelimiter(s[r.end]))
    decreases |s| - j
  {
    match UnquotedPiece(s, j)
    case Fail =>
      if j < |s| {
        assert EscapedChar(s, j).None? && VarRefEnd(s, j).None?;
      }
    case Parsed(n, k) =>
      UnquotedPiecesBounds(s, k);
      var rest := UnquotedPieces(s, k);
      assert UnquotedPieces(s, j).nodes == [n] + rest.nodes;
      if n.Literal? {
        assert n.text == s[j..j + 1] && n.text[0] == s[j];
      }
  }

  /** An unquoted word contains no unescaped delimiter and ends at one or at the end of the input. */
  lemma UnquotedWordBounds(s: string, j: nat)
    requires j <= |s| && UnquotedWordRule(s, j).Parsed?
    ensures var r := UnquotedWordRule(s, j);
      && j < r.end
      && (forall n :: n in r.node.parts && n.Literal? ==> |n.text| == 1 && !IsDelimiter(n.text[0]))
      && (r.end == |s| || IsDelimiter(s[r.end]))
  {
    UnquotedPiecesBounds(s, j);
  }

  /**
   * A `$(…)` inside the modifier of `${name:-…}` is part of the modifier's
   * text: in `${x:-$(rm -rf /)}` the variable reference runs from the `$`
   * to the closing brace, so the substitution at offset 5 never becomes a
   * node of its own.
   */
  lemma ModifierHidesSubstitution(s: string)
    requires s == "${x:-$(rm -rf /)}"
    ensures At(s, 5, "$(")
    ensures VarRefEnd(s, 0) == Some(|s|)
  {
    assert s[5..7] == "$(";
    assert Identifier(s, 2) == Some(3) by {
      assert IsNameStart(s[2]) && !IsNameChar(s[3]);
    }
    Text.RunHolds(s, 5, NotCloseBrace, true);
    assert forall k :: 5 <= k < 16 ==> NotCloseBrace(s[k]);
    assert !NotCloseBrace(s[16]);
    assert VarModifier(s, 3) == Some(16);
  }
}
