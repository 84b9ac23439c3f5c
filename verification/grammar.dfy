/**
 * The shell-line grammar: a packrat PEG parser for a subset of the POSIX
 * Shell Command Language (pipelines, lists, grouping, command substitution,
 * redirection and quoting).
 *
 * Every rule is a function `Rule(s, i)` that either fails or yields a node
 * together with the offset just past the text it consumed.  PEG choice is
 * ordered and commits to the first alternative that succeeds; repetition is
 * greedy and never gives characters back.  The memo table of the generated
 * parser only caches these results and is left out.
 *
 * The recursive rules terminate on the pair (characters left, rule rank):
 * a rule either calls a lower-ranked rule at the same offset or any rule
 * at a strictly larger offset.
 */
module Grammar {
  import opened Results
  import Text

  datatype OpKind =
    | AndOp | OrOp | SemicolonOp | BackgroundOp | PipeOp
    | TrailingBackground | TrailingSemicolon

  datatype RedirectKind =
    | AppendOut | Output | HereDoc | InputFrom | StderrOut | StderrToStdout | FdDup

  /** One constructor per production; every node records its text and start offset. */
  datatype Node =
    | CommandLine(text: string, offset: nat, body: Node)
    | Compound(text: string, offset: nat, first: Node, links: seq<Node>, trailer: Option<Node>)
    | Link(text: string, offset: nat, op: Node, target: Node)
    | Operator(text: string, offset: nat, kind: OpKind)
    | Pipeline(text: string, offset: nat, first: Node, links: seq<Node>)
    | Subshell(text: string, offset: nat, body: Node)
    | BraceGroup(text: string, offset: nat, body: Node)
    | SimpleCommand(text: string, offset: nat, parts: seq<Node>)
    | CommandWord(text: string, offset: nat, word: Node)
    | Redirect(text: string, offset: nat, redirect: RedirectKind, operand: Option<Node>)
    | DollarSub(text: string, offset: nat, body: Node)
    | BacktickSub(text: string, offset: nat, body: Node)
    | SingleQuoted(text: string, offset: nat)
    | DoubleQuoted(text: string, offset: nat, parts: seq<Node>)
    | DollarQuoted(text: string, offset: nat)
    | UnquotedWord(text: string, offset: nat, parts: seq<Node>)
    | UnquotedPath(text: string, offset: nat)
    | HeredocWord(text: string, offset: nat)
    | VarRef(text: string, offset: nat)
    | Escaped(text: string, offset: nat)
    | Literal(text: string, offset: nat)

  /** Outcome of one rule: failure, or a node and the offset after it. */
  datatype Res = Fail | Parsed(node: Node, end: nat)

  /** Outcome of a repetition, which always succeeds (possibly with no nodes). */
  datatype Many = Many(nodes: seq<Node>, end: nat)

  /** A successful result consumed at least one character and its node is the slice it consumed. */
  predicate Spans(s: string, i: nat, r: Res) {
    r.Parsed? ==> i < r.end <= |s| && r.node.offset == i && r.node.text == s[i..r.end]
  }

  /** The nodes lie back to back, each non-empty and equal to its slice, from `i` up to `j`. */
  predicate Tiles(s: string, i: nat, nodes: seq<Node>, j: nat)
    decreases |nodes|
  {
    if nodes == [] then i == j
    else
      var n := nodes[0];
      n.offset == i && i + |n.text| <= j <= |s| && n.text != []
      && s[i..i + |n.text|] == n.text && Tiles(s, i + |n.text|, nodes[1..], j)
  }

  lemma {:induction false} TilesAdvance(s: string, i: nat, nodes: seq<Node>, j: nat)
    requires Tiles(s, i, nodes, j)
    ensures i <= j && (nodes != [] ==> i < j)
    decreases |nodes|
  {
    if nodes != [] {
      TilesAdvance(s, i + |nodes[0].text|, nodes[1..], j);
    }
  }

  /** A node spanning `s[i..k]` followed by nodes tiling `k..j` tiles `i..j`. */
  lemma TilesCons(s: string, i: nat, n: Node, k: nat, nodes: seq<Node>, j: nat)
    requires i < k <= |s| && n.offset == i && n.text == s[i..k]
    requires Tiles(s, k, nodes, j)
    ensures Tiles(s, i, [n] + nodes, j)
    ensures forall x :: x in [n] + nodes ==> x == n || x in nodes
  {
    TilesAdvance(s, k, nodes, j);
    assert ([n] + nodes)[1..] == nodes;
  }

  // ---------------------------------------------------------------------
  // Character classes and lexical rules (outside the recursive core)
  // ---------------------------------------------------------------------

  /** `s` has the literal `tok` at offset `j`. */
  predicate At(s: string, j: nat, tok: string) {
    j + |tok| <= |s| && s[j..j + |tok|] == tok
  }

  predicate IsLetter(c: char) {
    ('a' <= c <= 'z') || ('A' <= c <= 'Z')
  }

  predicate IsDigit(c: char) {
    '0' <= c <= '9'
  }

  /** `[a-zA-Z_]` */
  predicate IsNameStart(c: char) {
    IsLetter(c) || c == '_'
  }

  /** `[a-zA-Z0-9_]` */
  predicate IsNameChar(c: char) {
    IsLetter(c) || IsDigit(c) || c == '_'
  }

  /** `[ \t]`: the only characters `spacing` consumes. */
  predicate IsBlank(c: char) {
    c == ' ' || c == '\t'
  }

  /** The characters that end an unquoted word. */
  predicate IsDelimiter(c: char) {
    c in " \t\n\r|&;<>(){}$`\"'"
  }

  /** `[?$!#@*0-9-]` */
  predicate IsSpecialVar(c: char) {
    c in "?$!#@*-" || IsDigit(c)
  }

  /** `[a-zA-Z0-9_./-]` */
  predicate IsPathChar(c: char) {
    IsNameChar(c) || c == '.' || c == '/' || c == '-'
  }

  /** `spacing <- [ \t]*` */
  function Spacing(s: string, j: nat): (e: nat)
    requires j <= |s|
    ensures j <= e <= |s|
    ensures forall k :: j <= k < e ==> IsBlank(s[k])
    ensures e == |s| || !IsBlank(s[e])
  {
    Text.RunHolds(s, j, IsBlank, true);
    Text.Run(s, j, IsBlank, true)
  }

  /** `fd_num <- [0-9]+`: the end of the digits at `j`, if there is at least one. */
  function FdNum(s: string, j: nat): (e: Option<nat>)
    requires j <= |s|
    ensures e.Some? ==> j < e.value <= |s|
  {
    var e := Text.Run(s, j, IsDigit, true);
    if e > j then Some(e) else None
  }

  /** `identifier <- [a-zA-Z_] [a-zA-Z0-9_]*` */
  function Identifier(s: string, j: nat): (e: Option<nat>)
    requires j <= |s|
    ensures e.Some? ==> j < e.value <= |s|
  {
    if j < |s| && IsNameStart(s[j]) then Some(Text.Run(s, j + 1, IsNameChar, true)) else None
  }

  /** `escaped_char <- "\\" .` */
  function EscapedChar(s: string, j: nat): (e: Option<nat>)
    requires j <= |s|
    ensures e.Some? ==> e.value == j + 2 <= |s| && s[j] == '\\'
  {
    if j + 1 < |s| && s[j] == '\\' then Some(j + 2) else None
  }

  predicate NotCloseBrace(c: char) {
    c != '}'
  }

  predicate NotQuote(c: char) {
    c != '\''
  }

  /** `var_modifier <- ":" [-+=?] [^}]*` */
  function VarModifier(s: string, j: nat): (e: Option<nat>)
    requires j <= |s|
    ensures e.Some? ==> j + 2 <= e.value <= |s|
  {
    if j + 1 < |s| && s[j] == ':' && s[j + 1] in "-+=?" then Some(Text.Run(s, j + 2, NotCloseBrace, true)) else None
  }

  /**
   * `var_ref <- "$" identifier / "${" identifier var_modifier? "}" / "$" special_var`
   */
  function VarRefEnd(s: string, j: nat): (e: Option<nat>)
    requires j <= |s|
    ensures e.Some? ==> j < e.value <= |s| && s[j] == '$'
  {
    if j < |s| && s[j] == '$' && Identifier(s, j + 1).Some? then
      Identifier(s, j + 1)
    else if At(s, j, "${") && Identifier(s, j + 2).Some? then
      var k := Identifier(s, j + 2).value;
      var m := VarModifier(s, k).GetOr(k);
      if m < |s| && s[m] == '}' then Some(m + 1) else None
    else if j + 1 < |s| && s[j] == '$' && IsSpecialVar(s[j + 1]) then
      Some(j + 2)
    else
      None
  }

  /** `single_quoted <- "'" (!"'" .)* "'"` */
  function SingleQuotedRule(s: string, j: nat): (r: Res)
    requires j <= |s|
    ensures Spans(s, j, r)
    ensures r.Parsed? ==> r.node.SingleQuoted? && r.end >= j + 2
    ensures r.Parsed? ==> s[j] == '\'' && s[r.end - 1] == '\''
    ensures r.Parsed? ==> forall k :: j < k < r.end - 1 ==> s[k] != '\''
  {
    if j < |s| && s[j] == '\'' then
      var e := Text.Run(s, j + 1, NotQuote, true);
      Text.RunHolds(s, j + 1, NotQuote, true);
      if e < |s| then Parsed(SingleQuoted(s[j..e + 1], j), e + 1) else Fail
    else
      Fail
  }

  /** One piece of `dollar_content <- (escaped_char / !"'" .)*`. */
  function DollarPieceEnd(s: string, j: nat): (e: Option<nat>)
    requires j <= |s|
    ensures e.Some? ==> j < e.value <= |s|
  {
    if EscapedChar(s, j).Some? then EscapedChar(s, j)
    else if j < |s| && s[j] != '\'' then Some(j + 1)
    else None
  }

  function DollarContentEnd(s: string, j: nat): (e: nat)
    requires j <= |s|
    ensures j <= e <= |s|
    decreases |s| - j
  {
    match DollarPieceEnd(s, j)
    case None => j
    case Some(k) => DollarContentEnd(s, k)
  }

  /** `dollar_quoted <- "$'" dollar_content "'"` */
  function DollarQuotedRule(s: string, j: nat): (r: Res)
    requires j <= |s|
    ensures Spans(s, j, r)
    ensures r.Parsed? ==> r.node.DollarQuoted?
  {
    if At(s, j, "$'") then
      var e := DollarContentEnd(s, j + 2);
      if e < |s| && s[e] == '\'' then Parsed(DollarQuoted(s[j..e + 1], j), e + 1) else Fail
    else
      Fail
  }

  /** One piece of `unquoted_word <- (escaped_char / var_ref / !delimiter .)+`. */
  function UnquotedPiece(s: string, j: nat): (r: Res)
    requires j <= |s|
    ensures Spans(s, j, r)
    ensures r.Parsed? ==>
      || (r.node.Escaped? && s[j] == '\\' && r.end == j + 2)
      || (r.node.VarRef? && s[j] == '$')
      || (r.node.Literal? && !IsDelimiter(s[j]) && r.end == j + 1)
  {
    if EscapedChar(s, j).Some? then
      Parsed(Escaped(s[j..j + 2], j), j + 2)
    else if VarRefEnd(s, j).Some? then
      var e := VarRefEnd(s, j).value;
      Parsed(VarRef(s[j..e], j), e)
    else if j < |s| && !IsDelimiter(s[j]) then
      Parsed(Literal(s[j..j + 1], j), j + 1)
    else
      Fail
  }

  function UnquotedPieces(s: string, j: nat): (r: Many)
    requires j <= |s|
    ensures Tiles(s, j, r.nodes, r.end)
    ensures forall n :: n in r.nodes ==> n.Escaped? || n.VarRef? || n.Literal?
    decreases |s| - j
  {
    match UnquotedPiece(s, j)
    case Fail => Many([], j)
    case Parsed(n, k) =>
      var rest := UnquotedPieces(s, k);
      TilesCons(s, j, n, k, rest.nodes, rest.end);
      Many([n] + rest.nodes, rest.end)
  }

  /** `unquoted_word`: at least one piece. */
  function UnquotedWordRule(s: string, j: nat): (r: Res)
    requires j <= |s|
    ensures Spans(s, j, r)
    ensures r.Parsed? ==> r.node.UnquotedWord? && Tiles(s, j, r.node.parts, r.end)
  {
    var pieces := UnquotedPieces(s, j);
    if pieces.nodes == [] then Fail
    else
      TilesAdvance(s, j, pieces.nodes, pieces.end);
      Parsed(UnquotedWord(s[j..pieces.end], j, pieces.nodes), pieces.end)
  }

  /** `path_char <- [a-zA-Z0-9_./-] / escaped_char` */
  function PathCharsEnd(s: string, j: nat): (e: nat)
    requires j <= |s|
    ensures j <= e <= |s|
    decreases |s| - j
  {
    if j < |s| && IsPathChar(s[j]) then PathCharsEnd(s, j + 1)
    else if EscapedChar(s, j).Some? then PathCharsEnd(s, j + 2)
    else j
  }

  /** `unquoted_path <- path_start path_char*` with `path_start <- "/" / "~" / "." / [a-zA-Z_]` */
  function UnquotedPathRule(s: string, j: nat): (r: Res)
    requires j <= |s|
    ensures Spans(s, j, r)
    ensures r.Parsed? ==> r.node.UnquotedPath?
  {
    if j < |s| && (s[j] == '/' || s[j] == '~' || s[j] == '.' || IsNameStart(s[j])) then
      var e := PathCharsEnd(s, j + 1);
      Parsed(UnquotedPath(s[j..e], j), e)
    else
      Fail
  }

  /** `unquoted_heredoc_word <- [a-zA-Z_] [a-zA-Z0-9_]*` */
  function HeredocWordRule(s: string, j: nat): (r: Res)
    requires j <= |s|
    ensures Spans(s, j, r)
    ensures r.Parsed? ==> r.node.HeredocWord?
  {
    match Identifier(s, j)
    case None => Fail
    case Some(e) => Parsed(HeredocWord(s[j..e], j), e)
  }

  /** The reserved words, in the order the grammar tries them. */
  const ReservedWords: seq<string> :=
    ["if", "then", "else", "elif", "fi", "case", "esac", "for", "while", "until",
     "do", "done", "in", "function"]

  /** The first word of `words` present at offset `j` (ordered choice of literals). */
  function FirstLiteral(s: string, j: nat, words: seq<string>): (r: Option<string>)
    ensures r.Some? ==> r.value in words && At(s, j, r.value)
    ensures r.None? ==> forall w :: w in words ==> !At(s, j, w)
  {
    if words == [] then None
    else if At(s, j, words[0]) then Some(words[0])
    else FirstLiteral(s, j, words[1..])
  }

  /** A word of `words`, chosen by ordered choice, that no name character follows. */
  predicate KeywordAt(s: string, j: nat, words: seq<string>) {
    match FirstLiteral(s, j, words)
    case None => false
    case Some(w) => !(j + |w| < |s| && IsNameChar(s[j + |w|]))
  }

  /**
   * `reserved_word <- ("if" / "then" / ... / "function") ![a-zA-Z0-9_]`.
   * The lookahead applies only to the literal the choice committed to.
   */
  predicate ReservedWordAt(s: string, j: nat) {
    KeywordAt(s, j, ReservedWords)
  }

  /** A literal operator surrounded by `spacing`, optionally refusing one following character. */
  function Symbol(s: string, i: nat, tok: string, refuse: Option<char>, kind: OpKind): (r: Res)
    requires i <= |s| && tok != []
    ensures Spans(s, i, r)
    ensures r.Parsed? ==> r.node.Operator? && r.node.kind == kind
  {
    var j := Spacing(s, i);
    var k := j + |tok|;
    if At(s, j, tok) && !(refuse.Some? && k < |s| && s[k] == refuse.value) then
      var e := Spacing(s, k);
      Parsed(Operator(s[i..e], i, kind), e)
    else
      Fail
  }

  /** `and_op <- spacing "&&" spacing` */
  function AndRule(s: string, i: nat): (r: Res)
    requires i <= |s|
    ensures Spans(s, i, r)
  {
    Symbol(s, i, "&&", None, AndOp)
  }

  /** `or_op <- spacing "||" spacing` */
  function OrRule(s: string, i: nat): (r: Res)
    requires i <= |s|
    ensures Spans(s, i, r)
  {
    Symbol(s, i, "||", None, OrOp)
  }

  /** `semicolon <- spacing ";" spacing` */
  function SemicolonRule(s: string, i: nat): (r: Res)
    requires i <= |s|
    ensures Spans(s, i, r)
  {
    Symbol(s, i, ";", None, SemicolonOp)
  }

  /** `background <- spacing "&" !"&" spacing` */
  function BackgroundRule(s: string, i: nat): (r: Res)
    requires i <= |s|
    ensures Spans(s, i, r)
  {
    Symbol(s, i, "&", Some('&'), BackgroundOp)
  }

  /** `pipe <- spacing "|" !"|" spacing` */
  function PipeRule(s: string, i: nat): (r: Res)
    requires i <= |s|
    ensures Spans(s, i, r)
    ensures r.Parsed? ==> r.node.Operator? && r.node.kind == PipeOp
  {
    Symbol(s, i, "|", Some('|'), PipeOp)
  }

  /** `control_op <- and_op / or_op / semicolon / background` */
  function ControlOp(s: string, i: nat): (r: Res)
    requires i <= |s|
    ensures Spans(s, i, r)
    ensures r.Parsed? ==> r.node.Operator? && r.node.kind in {AndOp, OrOp, SemicolonOp, BackgroundOp}
  {
    var a := AndRule(s, i);
    if a.Parsed? then a
    else
      var o := OrRule(s, i);
      if o.Parsed? then o
      else
        var m := SemicolonRule(s, i);
        if m.Parsed? then m else BackgroundRule(s, i)
  }

  /**
   * `(trailing_background / trailing_semicolon)?` where
   * `trailing_background <- spacing "&" !"&" spacing?` and
   * `trailing_semicolon <- spacing ";" spacing?`.
   */
  function Trailer(s: string, i: nat): (r: Res)
    requires i <= |s|
    ensures Spans(s, i, r)
    ensures r.Parsed? ==> r.node.Operator?
  {
    var b := Symbol(s, i, "&", Some('&'), TrailingBackground);
    if b.Parsed? then b else Symbol(s, i, ";", None, TrailingSemicolon)
  }

  /** `stderr_to_stdout <- "2>&1" spacing` */
  function StderrToStdoutRule(s: string, i: nat): (r: Res)
    requires i <= |s|
    ensures Spans(s, i, r)
    ensures r.Parsed? ==> r.node.Redirect?
  {
    if At(s, i, "2>&1") then
      var e := Spacing(s, i + 4);
      Parsed(Redirect(s[i..e], i, StderrToStdout, None), e)
    else
      Fail
  }

  /** `fd_redirect <- fd_num (">&" / "<&") fd_num spacing` */
  function FdRedirectRule(s: string, i: nat): (r: Res)
    requires i <= |s|
    ensures Spans(s, i, r)
    ensures r.Parsed? ==> r.node.Redirect?
  {
    match FdNum(s, i)
    case None => Fail
    case Some(j) =>
      if At(s, j, ">&") || At(s, j, "<&") then
        match FdNum(s, j + 2)
        case None => Fail
        case Some(k) =>
          var e := Spacing(s, k);
          Parsed(Redirect(s[i..e], i, FdDup, None), e)
      else
        Fail
  }

  /**
   * End of the operator of a file redirection:
   * `append_redirect <- fd_num? ">>" ...`, `output_redirect <- fd_num? ">" !">" ...`,
   * `input_redirect <- "<" !"<" ...`, `stderr_redirect <- "2>" !">" ...`.
   */
  function RedirectOperatorEnd(s: string, i: nat, kind: RedirectKind): (e: Option<nat>)
    requires i <= |s|
    ensures e.Some? ==> i < e.value <= |s|
  {
    var afterFd := Text.Run(s, i, IsDigit, true);
    match kind
    case AppendOut =>
      if At(s, afterFd, ">>") then Some(afterFd + 2) else None
    case Output =>
      if At(s, afterFd, ">") && !At(s, afterFd + 1, ">") then Some(afterFd + 1) else None
    case InputFrom =>
      if At(s, i, "<") && !At(s, i + 1, "<") then Some(i + 1) else None
    case StderrOut =>
      if At(s, i, "2>") && !At(s, i + 2, ">") then Some(i + 2) else None
    case _ => None
  }

  // ---------------------------------------------------------------------
  // The recursive core
  // ---------------------------------------------------------------------

  /** `compound_command <- pipeline (control_op pipeline)* (trailing_background / trailing_semicolon)?` */
  function CompoundRule(s: string, i: nat): (r: Res)
    requires i <= |s|
    ensures Spans(s, i, r)
    ensures r.Parsed? ==> r.node.Compound?
    decreases |s| - i, 30
  {
    match PipelineRule(s, i)
    case Fail => Fail
    case Parsed(p, j) =>
      var links := CompoundLinks(s, j);
      var t := Trailer(s, links.end);
      var e := if t.Parsed? then t.end else links.end;
      Parsed(Compound(s[i..e], i, p, links.nodes, if t.Parsed? then Some(t.node) else None), e)
  }

  /** `(control_op pipeline)*` */
  function CompoundLinks(s: string, i: nat): (r: Many)
    requires i <= |s|
    ensures Tiles(s, i, r.nodes, r.end)
    ensures forall n :: n in r.nodes ==> n.Link? && n.target.Pipeline?
    decreases |s| - i, 29
  {
    match ControlOp(s, i)
    case Fail => Many([], i)
    case Parsed(op, j) =>
      match PipelineRule(s, j)
      case Fail => Many([], i)
      case Parsed(p, k) =>
        var rest := CompoundLinks(s, k);
        TilesCons(s, i, Link(s[i..k], i, op, p), k, rest.nodes, rest.end);
        Many([Link(s[i..k], i, op, p)] + rest.nodes, rest.end)
  }

  /** `pipeline <- pipeline_element (pipe pipeline_element)*` */
  function PipelineRule(s: string, i: nat): (r: Res)
    requires i <= |s|
    ensures Spans(s, i, r)
    ensures r.Parsed? ==> r.node.Pipeline?
    decreases |s| - i, 28
  {
    match PipelineElement(s, i)
    case Fail => Fail
    case Parsed(e, j) =>
      var links := PipelineLinks(s, j);
      TilesAdvance(s, j, links.nodes, links.end);
      Parsed(Pipeline(s[i..links.end], i, e, links.nodes), links.end)
  }

  /** `(pipe pipeline_element)*` */
  function PipelineLinks(s: string, i: nat): (r: Many)
    requires i <= |s|
    ensures Tiles(s, i, r.nodes, r.end)
    ensures forall n :: n in r.nodes ==> n.Link?
    decreases |s| - i, 27
  {
    match PipeRule(s, i)
    case Fail => Many([], i)
    case Parsed(op, j) =>
      match PipelineElement(s, j)
      case Fail => Many([], i)
      case Parsed(e, k) =>
        var rest := PipelineLinks(s, k);
        TilesCons(s, i, Link(s[i..k], i, op, e), k, rest.nodes, rest.end);
        Many([Link(s[i..k], i, op, e)] + rest.nodes, rest.end)
  }

  /** `pipeline_element <- subshell / brace_group / simple_command` */
  function PipelineElement(s: string, i: nat): (r: Res)
    requires i <= |s|
    ensures Spans(s, i, r)
    ensures r.Parsed? ==> r.node.Subshell? || r.node.BraceGroup? || r.node.SimpleCommand?
    decreases |s| - i, 27
  {
    var a := SubshellRule(s, i);
    if a.Parsed? then a
    else
      var b := BraceGroupRule(s, i);
      if b.Parsed? then b else SimpleCommandRule(s, i)
  }

  /** `subshell <- "(" spacing compound_command spacing ")"` */
  function SubshellRule(s: string, i: nat): (r: Res)
    requires i <= |s|
    ensures Spans(s, i, r)
    ensures r.Parsed? ==> r.node.Subshell? && r.node.body.Compound?
    decreases |s| - i, 26
  {
    if At(s, i, "(") then
      match CompoundRule(s, Spacing(s, i + 1))
      case Fail => Fail
      case Parsed(c, k) =>
        var m := Spacing(s, k);
        if At(s, m, ")") then Parsed(Subshell(s[i..m + 1], i, c), m + 1) else Fail
    else
      Fail
  }

  /** `brace_group <- "{" spacing compound_command spacing "}"` */
  function BraceGroupRule(s: string, i: nat): (r: Res)
    requires i <= |s|
    ensures Spans(s, i, r)
    ensures r.Parsed? ==> r.node.BraceGroup? && r.node.body.Compound?
    decreases |s| - i, 26
  {
    if At(s, i, "{") then
      match CompoundRule(s, Spacing(s, i + 1))
      case Fail => Fail
      case Parsed(c, k) =>
        var m := Spacing(s, k);
        if At(s, m, "}") then Parsed(BraceGroup(s[i..m + 1], i, c), m + 1) else Fail
    else
      Fail
  }

  /** `simple_command <- (redirection / cmd_substitution / command_word)+` */
  function SimpleCommandRule(s: string, i: nat): (r: Res)
    requires i <= |s|
    ensures Spans(s, i, r)
    ensures r.Parsed? ==> r.node.SimpleCommand? && Tiles(s, i, r.node.parts, r.end)
    decreases |s| - i, 26
  {
    var parts := SimpleParts(s, i);
    if parts.nodes == [] then Fail
    else
      TilesAdvance(s, i, parts.nodes, parts.end);
      Parsed(SimpleCommand(s[i..parts.end], i, parts.nodes), parts.end)
  }

  function SimpleParts(s: string, i: nat): (r: Many)
    requires i <= |s|
    ensures Tiles(s, i, r.nodes, r.end)
    ensures forall n :: n in r.nodes ==> n.Redirect? || n.DollarSub? || n.BacktickSub? || n.CommandWord?
    decreases |s| - i, 25
  {
    match SimpleElement(s, i)
    case Fail => Many([], i)
    case Parsed(n, j) =>
      var rest := SimpleParts(s, j);
      TilesCons(s, i, n, j, rest.nodes, rest.end);
      Many([n] + rest.nodes, rest.end)
  }

  function SimpleElement(s: string, i: nat): (r: Res)
    requires i <= |s|
    ensures Spans(s, i, r)
    ensures r.Parsed? ==> r.node.Redirect? || r.node.DollarSub? || r.node.BacktickSub? || r.node.CommandWord?
    decreases |s| - i, 24
  {
    var a := RedirectionRule(s, i);
    if a.Parsed? then a
    else
      var b := CmdSubstitution(s, i);
      if b.Parsed? then b else CommandWordRule(s, i)
  }

  /**
   * `redirection <- append_redirect / output_redirect / heredoc / input_redirect
   *                / stderr_redirect / stderr_to_stdout / fd_redirect`
   */
  function RedirectionRule(s: string, i: nat): (r: Res)
    requires i <= |s|
    ensures Spans(s, i, r)
    ensures r.Parsed? ==> r.node.Redirect?
    decreases |s| - i, 23
  {
    var a := FileRedirect(s, i, AppendOut);
    if a.Parsed? then a else
    var o := FileRedirect(s, i, Output);
    if o.Parsed? then o else
    var h := HeredocRule(s, i);
    if h.Parsed? then h else
    var n := FileRedirect(s, i, InputFrom);
    if n.Parsed? then n else
    var e := FileRedirect(s, i, StderrOut);
    if e.Parsed? then e else
    var d := StderrToStdoutRule(s, i);
    if d.Parsed? then d else FdRedirectRule(s, i)
  }

  /** A redirection operator, then `spacing file_path spacing`. */
  function FileRedirect(s: string, i: nat, kind: RedirectKind): (r: Res)
    requires i <= |s|
    ensures Spans(s, i, r)
    ensures r.Parsed? ==> r.node.Redirect? && r.node.redirect == kind && r.node.operand.Some?
    decreases |s| - i, 22
  {
    match RedirectOperatorEnd(s, i, kind)
    case None => Fail
    case Some(j) =>
      match FilePathRule(s, Spacing(s, j))
      case Fail => Fail
      case Parsed(f, k) =>
        var e := Spacing(s, k);
        Parsed(Redirect(s[i..e], i, kind, Some(f)), e)
  }

  /**
   * `heredoc <- "<<" "-"? spacing heredoc_delimiter spacing`.
   * The generated parser also takes the rest of the line as same-line
   * heredoc content; that form is kept apart as a documented defect and this
   * rule stops after the delimiter, as a shell does.
   */
  function HeredocRule(s: string, i: nat): (r: Res)
    requires i <= |s|
    ensures Spans(s, i, r)
    ensures r.Parsed? ==> r.node.Redirect? && r.node.redirect == HereDoc && r.node.operand.Some?
    decreases |s| - i, 22
  {
    if At(s, i, "<<") then
      var j := if At(s, i + 2, "-") then i + 3 else i + 2;
      match HeredocDelimiter(s, Spacing(s, j))
      case Fail => Fail
      case Parsed(d, k) =>
        var e := Spacing(s, k);
        Parsed(Redirect(s[i..e], i, HereDoc, Some(d)), e)
    else
      Fail
  }

  /** `heredoc_delimiter <- single_quoted / double_quoted / unquoted_heredoc_word` */
  function HeredocDelimiter(s: string, i: nat): (r: Res)
    requires i <= |s|
    ensures Spans(s, i, r)
    decreases |s| - i, 21
  {
    var a := SingleQuotedRule(s, i);
    if a.Parsed? then a
    else
      var b := DoubleQuotedRule(s, i);
      if b.Parsed? then b else HeredocWordRule(s, i)
  }

  /** `file_path <- quoted_path / unquoted_path`, `quoted_path <- single_quoted / double_quoted` */
  function FilePathRule(s: string, i: nat): (r: Res)
    requires i <= |s|
    ensures Spans(s, i, r)
    ensures r.Parsed? ==> r.node.SingleQuoted? || r.node.DoubleQuoted? || r.node.UnquotedPath?
    decreases |s| - i, 21
  {
    var a := SingleQuotedRule(s, i);
    if a.Parsed? then a
    else
      var b := DoubleQuotedRule(s, i);
      if b.Parsed? then b else UnquotedPathRule(s, i)
  }

  /** `command_word <- !reserved_word word spacing` */
  function CommandWordRule(s: string, i: nat): (r: Res)
    requires i <= |s|
    ensures Spans(s, i, r)
    ensures r.Parsed? ==> r.node.CommandWord? && !ReservedWordAt(s, i)
    decreases |s| - i, 23
  {
    if ReservedWordAt(s, i) then Fail
    else
      match WordRule(s, i)
      case Fail => Fail
      case Parsed(w, j) =>
        var e := Spacing(s, j);
        Parsed(CommandWord(s[i..e], i, w), e)
  }

  /** `word <- quoted_string / unquoted_word`, `quoted_string <- single_quoted / double_quoted / dollar_quoted` */
  function WordRule(s: string, i: nat): (r: Res)
    requires i <= |s|
    ensures Spans(s, i, r)
    ensures r.Parsed? ==> r.node.SingleQuoted? || r.node.DoubleQuoted? || r.node.DollarQuoted? || r.node.UnquotedWord?
    decreases |s| - i, 22
  {
    var a := SingleQuotedRule(s, i);
    if a.Parsed? then a
    else
      var b := DoubleQuotedRule(s, i);
      if b.Parsed? then b
      else
        var c := DollarQuotedRule(s, i);
        if c.Parsed? then c else UnquotedWordRule(s, i)
  }

  /** `double_quoted <- '"' double_content '"'` */
  function DoubleQuotedRule(s: string, i: nat): (r: Res)
    requires i <= |s|
    ensures Spans(s, i, r)
    ensures r.Parsed? ==> r.node.DoubleQuoted? && r.end >= i + 2
    ensures r.Parsed? ==> s[i] == '"' && s[r.end - 1] == '"' && Tiles(s, i + 1, r.node.parts, r.end - 1)
    decreases |s| - i, 19
  {
    if At(s, i, "\"") then
      var content := DoubleContent(s, i + 1);
      if At(s, content.end, "\"") then
        Parsed(DoubleQuoted(s[i..content.end + 1], i, content.nodes), content.end + 1)
      else
        Fail
    else
      Fail
  }

  /** `double_content <- (escaped_char / var_ref / cmd_substitution / !'"' .)*` */
  function DoubleContent(s: string, i: nat): (r: Many)
    requires i <= |s|
    ensures Tiles(s, i, r.nodes, r.end)
    ensures forall n :: n in r.nodes ==> n.Literal? ==> n.text != "\""
    decreases |s| - i, 18
  {
    match DoublePart(s, i)
    case Fail => Many([], i)
    case Parsed(n, j) =>
      var rest := DoubleContent(s, j);
      TilesCons(s, i, n, j, rest.nodes, rest.end);
      Many([n] + rest.nodes, rest.end)
  }

  function DoublePart(s: string, i: nat): (r: Res)
    requires i <= |s|
    ensures Spans(s, i, r)
    ensures r.Parsed? && r.node.Literal? ==> r.node.text != "\""
    decreases |s| - i, 17
  {
    if EscapedChar(s, i).Some? then
      Parsed(Escaped(s[i..i + 2], i), i + 2)
    else if VarRefEnd(s, i).Some? then
      var e := VarRefEnd(s, i).value;
      Parsed(VarRef(s[i..e], i), e)
    else
      var c := CmdSubstitution(s, i);
      if c.Parsed? then c
      else if i < |s| && s[i] != '"' then Parsed(Literal(s[i..i + 1], i), i + 1)
      else Fail
  }

  /** `cmd_substitution <- dollar_paren_sub / backtick_sub` */
  function CmdSubstitution(s: string, i: nat): (r: Res)
    requires i <= |s|
    ensures Spans(s, i, r)
    ensures r.Parsed? ==> (r.node.DollarSub? || r.node.BacktickSub?) && r.node.body.Compound?
    decreases |s| - i, 16
  {
    var a := DollarParenRule(s, i);
    if a.Parsed? then a else BacktickRule(s, i)
  }

  /** `dollar_paren_sub <- "$(" spacing compound_command spacing ")" spacing` */
  function DollarParenRule(s: string, i: nat): (r: Res)
    requires i <= |s|
    ensures Spans(s, i, r)
    ensures r.Parsed? ==> r.node.DollarSub? && r.node.body.Compound?
    decreases |s| - i, 15
  {
    if At(s, i, "$(") then
      match CompoundRule(s, Spacing(s, i + 2))
      case Fail => Fail
      case Parsed(c, k) =>
        var m := Spacing(s, k);
        if At(s, m, ")") then
          var e := Spacing(s, m + 1);
          Parsed(DollarSub(s[i..e], i, c), e)
        else
          Fail
    else
      Fail
  }

  /** `backtick_sub <- "`" spacing compound_command spacing "`" spacing` */
  function BacktickRule(s: string, i: nat): (r: Res)
    requires i <= |s|
    ensures Spans(s, i, r)
    ensures r.Parsed? ==> r.node.BacktickSub? && r.node.body.Compound?
    decreases |s| - i, 15
  {
    if At(s, i, "`") then
      match CompoundRule(s, Spacing(s, i + 1))
      case Fail => Fail
      case Parsed(c, k) =>
        var m := Spacing(s, k);
        if At(s, m, "`") then
          var e := Spacing(s, m + 1);
          Parsed(BacktickSub(s[i..e], i, c), e)
        else
          Fail
    else
      Fail
  }

  // ---------------------------------------------------------------------
  // Entry point
  // ---------------------------------------------------------------------

  /** `command_line <- spacing compound_command spacing` */
  function CommandLineRule(s: string): (r: Res)
    ensures Spans(s, 0, r)
    ensures r.Parsed? ==> r.node.CommandLine? && r.node.body.Compound?
  {
    match CompoundRule(s, Spacing(s, 0))
    case Fail => Fail
    case Parsed(c, k) =>
      var e := Spacing(s, k);
      Parsed(CommandLine(s[..e], 0, c), e)
  }

  /**
   * `Parser.parse`: the tree when `command_line` matches the whole input;
   * `None` stands for `ParseError`.
   */
  function Parse(s: string): (r: Option<Node>)
    ensures r.Some? ==> r.value.CommandLine? && r.value.text == s && r.value.body.Compound?
    ensures r.Some? <==> CommandLineRule(s).Parsed? && CommandLineRule(s).end == |s|
  {
    var c := CommandLineRule(s);
    if c.Parsed? && c.end == |s| then Some(c.node) else None
  }
}
