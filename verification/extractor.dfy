/**
 * Sub-command extraction: every command a shell line would run, as a
 * trimmed, duplicate-free list in first-seen order.  The list holds each
 * simple command, the wrapper and inner text of each subshell and brace
 * group, and the inner text of each command substitution at any depth.
 *
 * The walk is one exhaustive match over the tagged tree.  The generated
 * tree is probed by attribute in the original, which visits some subtrees
 * twice; a second visit only finds texts the first visit already added, so
 * after de-duplication the result is the same as this single walk.
 */
module Extractor {
  import opened Results
  import opened Text
  import opened Grammar

  /** Text of the compound inside a grouping or substitution: stripped, one trailing `;` dropped, stripped again. */
  function InnerText(body: Node): string {
    var t := Trim(body.text);
    if |t| > 0 && t[|t| - 1] == ';' then Trim(t[..|t| - 1]) else t
  }

  /** The inner text carries no surrounding whitespace and is no longer than the body. */
  lemma InnerTextShape(body: Node)
    ensures Trim(InnerText(body)) == InnerText(body)
    ensures |InnerText(body)| <= |body.text|
  {
    var t := Trim(body.text);
    if |t| > 0 && t[|t| - 1] == ';' {
      TrimIdempotent(t[..|t| - 1]);
    } else {
      TrimIdempotent(body.text);
    }
  }

  /** The strings a single node contributes, before trimming and de-duplication. */
  function Own(n: Node): seq<string> {
    match n
    case Subshell(t, _, body) => [t, InnerText(body)]
    case BraceGroup(t, _, body) => [t, InnerText(body)]
    case SimpleCommand(t, _, _) => [t]
    case DollarSub(_, _, body) => [InnerText(body)]
    case BacktickSub(_, _, body) => [InnerText(body)]
    case _ => []
  }

  /** `m` is `n` or lies anywhere below it. */
  predicate Contains(n: Node, m: Node)
    decreases n, 1
  {
    n == m ||
    match n
    case CommandLine(_, _, body) => Contains(body, m)
    case Compound(_, _, first, links, trailer) =>
      Contains(first, m) || ContainsAny(links, m) || (match trailer case Some(t) => Contains(t, m) case None => false)
    case Link(_, _, op, target) => Contains(op, m) || Contains(target, m)
    case Pipeline(_, _, first, links) => Contains(first, m) || ContainsAny(links, m)
    case Subshell(_, _, body) => Contains(body, m)
    case BraceGroup(_, _, body) => Contains(body, m)
    case SimpleCommand(_, _, parts) => ContainsAny(parts, m)
    case CommandWord(_, _, word) => Contains(word, m)
    case Redirect(_, _, _, operand) => (match operand case Some(o) => Contains(o, m) case None => false)
    case DollarSub(_, _, body) => Contains(body, m)
    case BacktickSub(_, _, body) => Contains(body, m)
    case DoubleQuoted(_, _, parts) => ContainsAny(parts, m)
    case UnquotedWord(_, _, parts) => ContainsAny(parts, m)
    case _ => false
  }

  predicate ContainsAny(ns: seq<Node>, m: Node)
    decreases ns, 0
  {
    ns != [] && (Contains(ns[0], m) || ContainsAny(ns[1..], m))
  }

  /**
   * The walk: every node's own strings, parents before children, children
   * left to right.  Operator nodes own nothing, so visiting them adds nothing.
   */
  function Walk(n: Node): seq<string>
    decreases n, 1
  {
    match n
    case CommandLine(_, _, body) => Walk(body)
    case Compound(_, _, first, links, trailer) =>
      Walk(first) + WalkAll(links) + (match trailer case Some(t) => Walk(t) case None => [])
    case Link(_, _, op, target) => Walk(op) + Walk(target)
    case Pipeline(_, _, first, links) => Walk(first) + WalkAll(links)
    case Subshell(t, _, body) => [t, InnerText(body)] + Walk(body)
    case BraceGroup(t, _, body) => [t, InnerText(body)] + Walk(body)
    case SimpleCommand(t, _, parts) => [t] + WalkAll(parts)
    case CommandWord(_, _, word) => Walk(word)
    case Redirect(_, _, _, operand) => (match operand case Some(o) => Walk(o) case None => [])
    case DollarSub(_, _, body) => [InnerText(body)] + Walk(body)
    case BacktickSub(_, _, body) => [InnerText(body)] + Walk(body)
    case DoubleQuoted(_, _, parts) => WalkAll(parts)
    case UnquotedWord(_, _, parts) => WalkAll(parts)
    case _ => []
  }

  function WalkAll(ns: seq<Node>): seq<string>
    decreases ns, 0
  {
    if ns == [] then [] else Walk(ns[0]) + WalkAll(ns[1..])
  }

  /** Everything the walk emits is owned by some node of the tree. */
  lemma {:induction false} WalkSound(n: Node, x: string)
    requires x in Walk(n)
    ensures exists m :: Contains(n, m) && x in Own(m)
    decreases n, 1
  {
    match n
    case CommandLine(_, _, body) =>
      WalkSound(body, x);
    case Compound(_, _, first, links, trailer) =>
      if x in Walk(first) {
        WalkSound(first, x);
      } else if x in WalkAll(links) {
        WalkAllSound(links, x);
      } else {
        match trailer {
          case Some(t) => WalkSound(t, x);
        }
      }
    case Link(_, _, op, target) =>
      if x in Walk(op) { WalkSound(op, x); } else { WalkSound(target, x); }
    case Pipeline(_, _, first, links) =>
      if x in Walk(first) { WalkSound(first, x); } else { WalkAllSound(links, x); }
    case Subshell(t, _, body) =>
      if x in Own(n) { assert Contains(n, n); } else { WalkSound(body, x); }
    case BraceGroup(t, _, body) =>
      if x in Own(n) { assert Contains(n, n); } else { WalkSound(body, x); }
    case SimpleCommand(t, _, parts) =>
      if x in Own(n) { assert Contains(n, n); } else { WalkAllSound(parts, x); }
    case CommandWord(_, _, word) =>
      WalkSound(word, x);
    case Redirect(_, _, _, operand) =>
      match operand {
        case Some(o) => WalkSound(o, x);
      }
    case DollarSub(_, _, body) =>
      if x in Own(n) { assert Contains(n, n); } else { WalkSound(body, x); }
    case BacktickSub(_, _, body) =>
      if x in Own(n) { assert Contains(n, n); } else { WalkSound(body, x); }
    case DoubleQuoted(_, _, parts) =>
      WalkAllSound(parts, x);
    case UnquotedWord(_, _, parts) =>
      WalkAllSound(parts, x);
  }

  lemma {:induction false} WalkAllSound(ns: seq<Node>, x: string)
    requires x in WalkAll(ns)
    ensures exists m :: ContainsAny(ns, m) && x in Own(m)
    decreases ns, 0
  {
    if x in Walk(ns[0]) {
      WalkSound(ns[0], x);
    } else {
      WalkAllSound(ns[1..], x);
    }
  }

  /** A node's own strings open its walk. */
  lemma OwnOpensWalk(n: Node)
    ensures Own(n) <= Walk(n)
  {
  }

  /** Every string owned by a node of the tree is emitted by the walk. */
  lemma {:induction false} WalkComplete(n: Node, m: Node, x: string)
    requires Contains(n, m) && x in Own(m)
    ensures x in Walk(n)
    decreases n, 1
  {
    if n == m {
      OwnOpensWalk(n);
    } else {
      match n {
        case CommandLine(_, _, body) =>
          WalkComplete(body, m, x);
        case Compound(_, _, first, links, trailer) =>
          if Contains(first, m) {
            WalkComplete(first, m, x);
          } else if ContainsAny(links, m) {
            WalkAllComplete(links, m, x);
          } else {
            match trailer {
              case Some(t) => WalkComplete(t, m, x);
            }
          }
        case Link(_, _, op, target) =>
          if Contains(op, m) { WalkComplete(op, m, x); } else { WalkComplete(target, m, x); }
        case Pipeline(_, _, first, links) =>
          if Contains(first, m) { WalkComplete(first, m, x); } else { WalkAllComplete(links, m, x); }
        case Subshell(_, _, body) =>
          WalkComplete(body, m, x);
        case BraceGroup(_, _, body) =>
          WalkComplete(body, m, x);
        case SimpleCommand(_, _, parts) =>
          WalkAllComplete(parts, m, x);
        case CommandWord(_, _, word) =>
          WalkComplete(word, m, x);
        case Redirect(_, _, _, operand) =>
          match operand {
            case Some(o) => WalkComplete(o, m, x);
          }
        case DollarSub(_, _, body) =>
          WalkComplete(body, m, x);
        case BacktickSub(_, _, body) =>
          WalkComplete(body, m, x);
        case DoubleQuoted(_, _, parts) =>
          WalkAllComplete(parts, m, x);
        case UnquotedWord(_, _, parts) =>
          WalkAllComplete(parts, m, x);
      }
    }
  }

  lemma {:induction false} WalkAllComplete(ns: seq<Node>, m: Node, x: string)
    requires ContainsAny(ns, m) && x in Own(m)
    ensures x in WalkAll(ns)
    decreases ns, 0
  {
    if Contains(ns[0], m) {
      WalkComplete(ns[0], m, x);
    } else {
      WalkAllComplete(ns[1..], m, x);
    }
  }

  // ---------------------------------------------------------------------
  // De-duplication (`add_command`)
  // ---------------------------------------------------------------------

  /** Add each string, stripped, unless it is empty or already present. */
  function AddAll(acc: seq<string>, xs: seq<string>): (r: seq<string>)
    decreases |xs|
  {
    if xs == [] then acc
    else
      var t := Trim(xs[0]);
      AddAll(if t != [] && t !in acc then acc + [t] else acc, xs[1..])
  }

  function Dedup(xs: seq<string>): seq<string> {
    AddAll([], xs)
  }

  predicate Distinct(xs: seq<string>) {
    forall a, b :: 0 <= a < b < |xs| ==> xs[a] != xs[b]
  }

  /** Every element is non-empty and already stripped. */
  predicate Clean(xs: seq<string>) {
    forall a :: 0 <= a < |xs| ==> xs[a] != [] && Trim(xs[a]) == xs[a]
  }

  /** `x` is the stripped form of some input string, and not empty. */
  predicate Yields(xs: seq<string>, x: string) {
    x != [] && exists y :: y in xs && Trim(y) == x
  }

  /** One step of `AddAll` keeps the collected list clean and duplicate-free. */
  lemma AddOneShape(acc: seq<string>, y: string)
    requires Distinct(acc) && Clean(acc)
    ensures var t := Trim(y);
      var acc' := if t != [] && t !in acc then acc + [t] else acc;
      Distinct(acc') && Clean(acc')
  {
    TrimIdempotent(y);
  }

  lemma {:induction false} AddAllShape(acc: seq<string>, xs: seq<string>)
    requires Distinct(acc) && Clean(acc)
    ensures Distinct(AddAll(acc, xs)) && Clean(AddAll(acc, xs))
    decreases |xs|
  {
    if xs != [] {
      var t := Trim(xs[0]);
      AddOneShape(acc, xs[0]);
      AddAllShape(if t != [] && t !in acc then acc + [t] else acc, xs[1..]);
    }
  }

  /** A string ends up in the list exactly when it was there already or some input strips to it. */
  lemma {:induction false} AddAllMembers(acc: seq<string>, xs: seq<string>, x: string)
    ensures x in AddAll(acc, xs) <==> x in acc || Yields(xs, x)
    decreases |xs|
  {
    if xs != [] {
      var t := Trim(xs[0]);
      var acc' := if t != [] && t !in acc then acc + [t] else acc;
      AddAllMembers(acc', xs[1..], x);
      if Yields(xs[1..], x) {
        var y :| y in xs[1..] && Trim(y) == x;
        assert y in xs;
      }
      if Yields(xs, x) && x !in acc' {
        var y :| y in xs && Trim(y) == x;
        if y != xs[0] {
          assert y in xs[1..];
        }
      }
    }
  }

  /** The de-duplicated list: clean, distinct, and exactly the non-empty stripped inputs. */
  lemma DedupSpec(xs: seq<string>)
    ensures Distinct(Dedup(xs)) && Clean(Dedup(xs))
    ensures forall x :: x in Dedup(xs) <==> Yields(xs, x)
  {
    AddAllShape([], xs);
    forall x
      ensures x in Dedup(xs) <==> Yields(xs, x)
    {
      AddAllMembers([], xs, x);
    }
  }

  lemma {:induction false} AddAllAppend(acc: seq<string>, xs: seq<string>, ys: seq<string>)
    ensures AddAll(acc, xs + ys) == AddAll(AddAll(acc, xs), ys)
    decreases |xs|
  {
    if xs == [] {
      assert xs + ys == ys;
    } else {
      assert (xs + ys)[0] == xs[0];
      assert (xs + ys)[1..] == xs[1..] + ys;
      var t := Trim(xs[0]);
      AddAllAppend(if t != [] && t !in acc then acc + [t] else acc, xs[1..], ys);
    }
  }

  lemma {:induction false} AddAllGrows(acc: seq<string>, xs: seq<string>)
    ensures acc <= AddAll(acc, xs)
    decreases |xs|
  {
    if xs != [] {
      var t := Trim(xs[0]);
      AddAllGrows(if t != [] && t !in acc then acc + [t] else acc, xs[1..]);
    }
  }

  /**
   * First-seen order: what has been collected after any prefix of the input
   * stays, unchanged and in place, at the front of the final list.
   */
  lemma DedupPrefix(xs: seq<string>, k: nat)
    requires k <= |xs|
    ensures Dedup(xs[..k]) <= Dedup(xs)
  {
    assert xs == xs[..k] + xs[k..];
    AddAllAppend([], xs[..k], xs[k..]);
    AddAllGrows(Dedup(xs[..k]), xs[k..]);
  }

  // ---------------------------------------------------------------------
  // `extract_commands`
  // ---------------------------------------------------------------------

  /**
   * `extract_commands(line)`: nothing for a blank line, the whole stripped
   * line when it does not parse, else the de-duplicated walk of the tree.
   */
  function Extract(line: string): (r: seq<string>)
    ensures Trim(line) == [] ==> r == []
    ensures Trim(line) != [] && Parse(line).None? ==> r == [Trim(line)]
    ensures Distinct(r) && Clean(r)
  {
    if Trim(line) == [] then []
    else
      match Parse(line)
      case None =>
        TrimIdempotent(line);
        [Trim(line)]
      case Some(tree) =>
        AddAllShape([], Walk(tree));
        Dedup(Walk(tree))
  }

  /** `parse_command_line`, the older name of `extract_commands`: the same stripped, duplicate-free list. */
  function ParseCommandLine(line: string): (r: seq<string>)
    ensures Trim(line) == [] ==> r == []
    ensures Distinct(r) && Clean(r)
  {
    Extract(line)
  }

  /**
   * Nothing is hidden: for a line that parses, every simple command,
   * grouping and substitution anywhere in its tree contributes its stripped
   * text.
   */
  lemma ExtractSurfaces(line: string, tree: Node, m: Node, y: string)
    requires Trim(line) != [] && Parse(line) == Some(tree)
    requires Contains(tree, m) && y in Own(m) && Trim(y) != []
    ensures Trim(y) in Extract(line)
  {
    WalkComplete(tree, m, y);
    DedupSpec(Walk(tree));
    assert Yields(Walk(tree), Trim(y));
  }

  /** And nothing else: every extracted string is the stripped text of some node of the tree. */
  lemma ExtractSound(line: string, tree: Node, x: string)
    requires Trim(line) != [] && Parse(line) == Some(tree)
    requires x in Extract(line)
    ensures x != [] && exists m, y :: Contains(tree, m) && y in Own(m) && Trim(y) == x
  {
    DedupSpec(Walk(tree));
    var y :| y in Walk(tree) && Trim(y) == x;
    WalkSound(tree, y);
  }

  lemma SubstitutionOwnsInner(m: Node)
    requires m.DollarSub? || m.BacktickSub?
    ensures InnerText(m.body) in Own(m)
  {
    match m {
      case DollarSub(_, _, body) => assert Own(m)[0] == InnerText(body);
      case BacktickSub(_, _, body) => assert Own(m)[0] == InnerText(body);
    }
  }

  /** In particular every simple command in the tree, however deeply nested, is surfaced. */
  lemma NestedCommandSurfaced(line: string, tree: Node, m: Node)
    requires Trim(line) != [] && Parse(line) == Some(tree)
    requires Contains(tree, m) && m.SimpleCommand? && Trim(m.text) != []
    ensures Trim(m.text) in Extract(line)
  {
    ExtractSurfaces(line, tree, m, m.text);
  }

  /** And so is the inner text of every command substitution. */
  lemma NestedSubstitutionSurfaced(line: string, tree: Node, m: Node)
    requires Trim(line) != [] && Parse(line) == Some(tree)
    requires Contains(tree, m) && (m.DollarSub? || m.BacktickSub?) && InnerText(m.body) != []
    ensures InnerText(m.body) in Extract(line)
  {
    SubstitutionOwnsInner(m);
    InnerTextShape(m.body);
    ExtractSurfaces(line, tree, m, InnerText(m.body));
  }
}
