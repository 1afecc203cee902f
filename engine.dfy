/**
 * The check engine: string tests, tree tests and counts, the evaluation of
 * one command against the cache, and `check`, which runs the commands of a
 * template in order and stops at the first failure.
 */
module Engine {
  import opened Failures
  import opened Text
  import opened Directives
  import opened Tree
  import opened Markup
  import opened Environment
  import opened Cache

  // ---------------------------------------------------------------------
  // check_string

  /**
   * `check_string`: an empty pattern always matches; a regular expression
   * is searched for; a literal pattern must occur in the text once both have
   * their whitespace runs collapsed to single spaces and trimmed.
   */
  function CheckString(h: Host, data: string, pat: string, regexp: bool): (r: Result<bool>)
    ensures pat == "" ==> r == Ok(true)
    ensures !regexp ==> r.Ok?
    ensures r.Err? ==> r.error == RegexSyntax(pat)
  {
    if pat == "" then Ok(true)
    else if regexp then
      match h.search(pat, data)
      case None => Err(RegexSyntax(pat))
      case Some(found) => Ok(found)
    else Ok(IsInfix(Collapse(pat), Collapse(data)))
  }

  /** Every string occurs in itself. */
  lemma InfixSelf(s: string)
    ensures IsInfix(s, s)
  {
    assert OccursAt(s, s, 0);
  }

  /** The empty string occurs in every string. */
  lemma InfixEmpty(s: string)
    ensures IsInfix("", s)
  {
    assert OccursAt(s, "", 0);
  }

  /** A literal test does not see how the text or the pattern is spaced. */
  lemma LiteralIgnoresSpacing(h: Host, data: string, pat: string)
    ensures CheckString(h, data, pat, false) == CheckString(h, Collapse(data), Collapse(pat), false)
  {
    var d := Collapse(data);
    var q := Collapse(pat);
    CollapseIdempotent(data);
    CollapseIdempotent(pat);
    InfixEmpty(d);
  }

  /** A text always contains itself, however it is spaced. */
  lemma LiteralFindsItself(h: Host, data: string, pat: string)
    requires Collapse(data) == Collapse(pat)
    ensures CheckString(h, data, pat, false) == Ok(true)
  {
    InfixSelf(Collapse(data));
  }

  // ---------------------------------------------------------------------
  // Tree tests

  /** The elements a path selects in a tree, or the error its normalisation or evaluation raises. */
  function Select(h: Host, tree: Node, path: string): (r: Result<seq<Node>>)
    ensures NormalizeXPath(path).Err? ==> r == Err(NonAbsoluteXPath(path))
  {
    match NormalizeXPath(path)
    case Err(e) => Err(e)
    case Ok(p) =>
      match h.findall(tree, p)
      case None => Err(XPathSyntax(p))
      case Some(es) => Ok(es)
  }

  /**
   * The attribute test over the selected elements, in order: elements
   * without the attribute are skipped, the first value that matches decides,
   * and a pattern that does not compile raises on the first value tested.
   */
  function AnyAttr(h: Host, es: seq<Node>, attr: string, pat: string, regexp: bool): Result<bool>
    decreases |es|
  {
    if es == [] then Ok(false)
    else if attr !in es[0].attrib then AnyAttr(h, es[1..], attr, pat, regexp)
    else match CheckString(h, es[0].attrib[attr], pat, regexp)
      case Err(e) => Err(e)
      case Ok(true) => Ok(true)
      case Ok(false) => AnyAttr(h, es[1..], attr, pat, regexp)
  }

  /** The text test over the selected elements: the first flattened text that matches decides. */
  function AnyText(h: Host, es: seq<Node>, pat: string, regexp: bool): Result<bool>
    decreases |es|
  {
    if es == [] then Ok(false)
    else match CheckString(h, Flatten(es[0]), pat, regexp)
      case Err(e) => Err(e)
      case Ok(true) => Ok(true)
      case Ok(false) => AnyText(h, es[1..], pat, regexp)
  }

  /** Element `e` has attribute `attr`, and its value matches the literal pattern. */
  predicate AttrMatches(h: Host, e: Node, attr: string, pat: string) {
    attr in e.attrib && CheckString(h, e.attrib[attr], pat, false) == Ok(true)
  }

  /** The flattened text of element `e` matches the literal pattern. */
  predicate TextMatches(h: Host, e: Node, pat: string) {
    CheckString(h, Flatten(e), pat, false) == Ok(true)
  }

  /** A literal attribute test holds iff some selected element has the attribute with a matching value. */
  lemma {:induction false} AnyAttrLiteral(h: Host, es: seq<Node>, attr: string, pat: string)
    ensures AnyAttr(h, es, attr, pat, false)
      == Ok(exists i :: 0 <= i < |es| && AttrMatches(h, es[i], attr, pat))
    decreases |es|
  {
    if es != [] {
      AnyAttrLiteral(h, es[1..], attr, pat);
      assert forall i :: 1 <= i < |es| ==> es[i] == es[1..][i - 1];
      assert forall i :: 0 <= i < |es| - 1 ==> es[1..][i] == es[i + 1];
    }
  }

  /** With an empty pattern the attribute test is a presence test, even for a regular expression. */
  lemma {:induction false} AnyAttrPresence(h: Host, es: seq<Node>, attr: string, regexp: bool)
    ensures AnyAttr(h, es, attr, "", regexp) == Ok(exists i :: 0 <= i < |es| && attr in es[i].attrib)
    decreases |es|
  {
    if es != [] {
      AnyAttrPresence(h, es[1..], attr, regexp);
      assert forall i :: 1 <= i < |es| ==> es[i] == es[1..][i - 1];
      assert forall i :: 0 <= i < |es| - 1 ==> es[1..][i] == es[i + 1];
    }
  }

  /** A literal text test holds iff the flattened text of some selected element matches. */
  lemma {:induction false} AnyTextLiteral(h: Host, es: seq<Node>, pat: string)
    ensures AnyText(h, es, pat, false) == Ok(SomeText(h, es, pat))
    decreases |es|
  {
    if es != [] {
      var rest := es[1..];
      AnyTextLiteral(h, rest, pat);
      AnyTextStep(h, es, pat);
      SomeTextStep(h, es, pat);
    }
  }

  /** Some element of `es` has a flattened text that matches the literal pattern. */
  predicate SomeText(h: Host, es: seq<Node>, pat: string) {
    exists i :: 0 <= i < |es| && TextMatches(h, es[i], pat)
  }

  /** `SomeText` on a non-empty sequence: the first element, or one of the rest. */
  lemma SomeTextStep(h: Host, es: seq<Node>, pat: string)
    requires es != []
    ensures SomeText(h, es, pat) == (TextMatches(h, es[0], pat) || SomeText(h, es[1..], pat))
  {
    var p := e => TextMatches(h, e, pat);
    ExistsStep(es, p);
    assert SomeText(h, es, pat) == Exists(es, p);
    assert SomeText(h, es[1..], pat) == Exists(es[1..], p);
  }

  /** Some element of `es` satisfies `p`. */
  predicate Exists<T>(es: seq<T>, p: T -> bool) {
    exists i :: 0 <= i < |es| && p(es[i])
  }

  /** `Exists` on a non-empty sequence: the first element, or one of the rest. */
  lemma ExistsStep<T>(es: seq<T>, p: T -> bool)
    requires es != []
    ensures Exists(es, p) == (p(es[0]) || Exists(es[1..], p))
  {
    var rest := es[1..];
    if Exists(rest, p) {
      var j :| 0 <= j < |rest| && p(rest[j]);
      assert es[j + 1] == rest[j];
    }
    if Exists(es, p) && !p(es[0]) {
      var i :| 0 <= i < |es| && p(es[i]);
      assert rest[i - 1] == es[i];
    }
  }

  /** One step of the text test, with the first element's match written as `TextMatches`. */
  lemma AnyTextStep(h: Host, es: seq<Node>, pat: string)
    requires es != []
    ensures AnyText(h, es, pat, false) == if TextMatches(h, es[0], pat) then Ok(true) else AnyText(h, es[1..], pat, false)
  {
  }

  /** With an empty pattern the text test holds iff the path selects something. */
  lemma AnyTextPresence(h: Host, es: seq<Node>, regexp: bool)
    ensures AnyText(h, es, "", regexp) == Ok(es != [])
  {
  }

  /** `re.search(pat, d) is not None` for a pattern that compiles, with the empty pattern matching anything. */
  predicate Searched(h: Host, pat: string, d: string) {
    pat == "" || h.search(pat, d) == Some(true)
  }

  /**
   * With a pattern that compiles, a regular-expression attribute test holds
   * iff some selected element has the attribute with a value the pattern is found in.
   */
  lemma {:induction false} AnyAttrRegex(h: Host, es: seq<Node>, attr: string, pat: string)
    requires forall d :: h.search(pat, d).Some?
    ensures AnyAttr(h, es, attr, pat, true)
      == Ok(exists i :: 0 <= i < |es| && attr in es[i].attrib && Searched(h, pat, es[i].attrib[attr]))
    decreases |es|
  {
    if es != [] {
      AnyAttrRegex(h, es[1..], attr, pat);
      assert forall i :: 1 <= i < |es| ==> es[i] == es[1..][i - 1];
      assert forall i :: 0 <= i < |es| - 1 ==> es[1..][i] == es[i + 1];
    }
  }

  /**
   * With a pattern that does not compile, a regular-expression attribute test
   * raises as soon as one selected element has the attribute.
   */
  lemma {:induction false} AnyAttrRegexSyntax(h: Host, es: seq<Node>, attr: string, pat: string)
    requires pat != "" && forall d :: h.search(pat, d).None?
    ensures AnyAttr(h, es, attr, pat, true)
      == if exists i :: 0 <= i < |es| && attr in es[i].attrib then Err(RegexSyntax(pat)) else Ok(false)
    decreases |es|
  {
    if es != [] {
      AnyAttrRegexSyntax(h, es[1..], attr, pat);
      assert forall i :: 1 <= i < |es| ==> es[i] == es[1..][i - 1];
      assert forall i :: 0 <= i < |es| - 1 ==> es[1..][i] == es[i + 1];
    }
  }

  /**
   * With a pattern that compiles, a regular-expression text test holds iff
   * the pattern is found in the flattened text of some selected element.
   */
  lemma {:induction false} AnyTextRegex(h: Host, es: seq<Node>, pat: string)
    requires forall d :: h.search(pat, d).Some?
    ensures AnyText(h, es, pat, true) == Ok(exists i :: 0 <= i < |es| && Searched(h, pat, Flatten(es[i])))
    decreases |es|
  {
    if es != [] {
      AnyTextRegex(h, es[1..], pat);
      assert forall i :: 1 <= i < |es| ==> es[i] == es[1..][i - 1];
      assert forall i :: 0 <= i < |es| - 1 ==> es[1..][i] == es[i + 1];
    }
  }

  /** With a pattern that does not compile, a regular-expression text test raises unless nothing is selected. */
  lemma {:induction false} AnyTextRegexSyntax(h: Host, es: seq<Node>, pat: string)
    requires pat != "" && forall d :: h.search(pat, d).None?
    ensures AnyText(h, es, pat, true) == if es == [] then Ok(false) else Err(RegexSyntax(pat))
  {
    if es != [] {
      assert h.search(pat, Flatten(es[0])).None?;
    }
  }

  /** What `check_tree_attr` answers: the attribute test on the elements the path selects. */
  function TreeAttr(h: Host, tree: Node, path: string, attr: string, pat: string, regexp: bool): Result<bool> {
    match Select(h, tree, path)
    case Err(e) => Err(e)
    case Ok(es) => AnyAttr(h, es, attr, pat, regexp)
  }

  /** What `check_tree_text` answers: the text test on the elements the path selects. */
  function TreeText(h: Host, tree: Node, path: string, pat: string, regexp: bool): Result<bool> {
    match Select(h, tree, path)
    case Err(e) => Err(e)
    case Ok(es) => AnyText(h, es, pat, regexp)
  }

  /** `check_tree_attr`, as the loop the source runs. */
  method CheckTreeAttr(h: Host, tree: Node, path: string, attr: string, pat: string, regexp: bool) returns (r: Result<bool>)
    ensures r == TreeAttr(h, tree, path, attr, pat, regexp)
  {
    var sel := NormalizeXPath(path);
    if sel.Err? {
      return Err(sel.error);
    }
    var found := h.findall(tree, sel.value);
    if found.None? {
      return Err(XPathSyntax(sel.value));
    }
    var es := found.value;
    var ret := false;
    var i := 0;
    while i < |es|
      invariant i <= |es|
      invariant AnyAttr(h, es, attr, pat, regexp) == AnyAttr(h, es[i..], attr, pat, regexp)
    {
      assert es[i..][1..] == es[i + 1..];
      var e := es[i];
      if attr !in e.attrib {
        i := i + 1;
        continue;
      }
      var value := e.attrib[attr];
      var test := CheckString(h, value, pat, regexp);
      if test.Err? {
        return Err(test.error);
      }
      ret := test.value;
      if ret {
        return Ok(true);
      }
      i := i + 1;
    }
    assert es[i..] == [];
    return Ok(false);
  }

  /** `check_tree_text`, as the loop the source runs. */
  method CheckTreeText(h: Host, tree: Node, path: string, pat: string, regexp: bool) returns (r: Result<bool>)
    ensures r == TreeText(h, tree, path, pat, regexp)
  {
    var sel := NormalizeXPath(path);
    if sel.Err? {
      return Err(sel.error);
    }
    var found := h.findall(tree, sel.value);
    if found.None? {
      return Err(XPathSyntax(sel.value));
    }
    var es := found.value;
    var i := 0;
    while i < |es|
      invariant i <= |es|
      invariant AnyText(h, es, pat, regexp) == AnyText(h, es[i..], pat, regexp)
    {
      assert es[i..][1..] == es[i + 1..];
      var value := FlattenText(es[i]);
      var test := CheckString(h, value, pat, regexp);
      if test.Err? {
        return Err(test.error);
      }
      if test.value {
        return Ok(true);
      }
      i := i + 1;
    }
    assert es[i..] == [];
    return Ok(false);
  }

  /** `check_tree_count`: the path must select exactly `count` elements. */
  function TreeCount(h: Host, tree: Node, path: string, count: int): (r: Result<bool>)
    ensures r.Ok? <==> Select(h, tree, path).Ok?
    ensures r.Ok? ==> (r.value <==> |Select(h, tree, path).value| == count)
  {
    match Select(h, tree, path)
    case Err(e) => Err(e)
    case Ok(es) => Ok(|es| == count)
  }

  // ---------------------------------------------------------------------
  // Queries of a three-argument @has / @matches

  /** What the middle argument of a tree test asks for: an attribute's value, or the text. */
  datatype Query = AttrQuery(path: string, attr: string) | TextQuery(path: string)

  /**
   * The middle argument split at its first `/@` into path and attribute;
   * without one, the text of the path, with one trailing `/text()` dropped.
   */
  function SplitQuery(arg: string): (q: Query)
    ensures q.AttrQuery? <==> IsInfix("/@", arg)
    ensures q.AttrQuery? ==> arg == q.path + "/@" + q.attr && !IsInfix("/@", q.path)
    ensures q.TextQuery? && EndsWith(arg, "/text()") ==> arg == q.path + "/text()"
    ensures q.TextQuery? && !EndsWith(arg, "/text()") ==> q.path == arg
  {
    match FindFrom(arg, "/@", 0)
    case Some(k) =>
      var path := arg[..k];
      assert arg == path + "/@" + arg[k + 2..];
      assert !IsInfix("/@", path) by {
        forall i: nat | i <= |path| ensures !OccursAt(path, "/@", i) {
          if i + 2 <= |path| {
            assert !OccursAt(arg, "/@", i);
            assert arg[i..i + 2] == path[i..i + 2];
          }
        }
      }
      AttrQuery(path, arg[k + 2..])
    case None =>
      if EndsWith(arg, "/text()") then
        assert arg == arg[..|arg| - 7] + "/text()";
        TextQuery(arg[..|arg| - 7])
      else TextQuery(arg)
  }

  /** An attribute query written out is read back as the same query. */
  lemma SplitAttrQuery(path: string, attr: string)
    requires !IsInfix("/@", path)
    ensures SplitQuery(path + "/@" + attr) == AttrQuery(path, attr)
  {
    var arg := path + "/@" + attr;
    assert arg[|path|..|path| + 2] == "/@";
    assert OccursAt(arg, "/@", |path|);
    forall j: nat | j < |path| ensures !OccursAt(arg, "/@", j) {
      NoEarlySeparator(path, attr, j);
    }
    var k := FindFrom(arg, "/@", 0).value;
    assert k == |path|;
    assert arg[..k] == path;
    assert arg[k + 2..] == attr;
  }

  /** A text query written out with `/text()` is read back as the bare path. */
  lemma SplitTextQuery(path: string)
    requires !IsInfix("/@", path)
    ensures SplitQuery(path + "/text()") == TextQuery(path)
  {
    var arg := path + "/text()";
    forall j: nat | j <= |arg| ensures !OccursAt(arg, "/@", j) {
      if j + 2 <= |path| {
        assert !OccursAt(path, "/@", j);
        assert arg[j..j + 2] == path[j..j + 2];
      } else if j + 2 <= |arg| {
        assert arg[j + 1] in "/text()";
      }
    }
    assert arg[|arg| - 7..] == "/text()";
    assert arg[..|arg| - 7] == path;
  }

  lemma NoEarlySeparator(path: string, attr: string, j: nat)
    requires !IsInfix("/@", path) && j < |path|
    ensures !OccursAt(path + "/@" + attr, "/@", j)
  {
    var arg := path + "/@" + attr;
    if j + 2 <= |path| {
      assert !OccursAt(path, "/@", j);
      assert arg[j..j + 2] == path[j..j + 2];
    } else {
      assert arg[j + 1] == '/';
    }
  }

  // ---------------------------------------------------------------------
  // One command

  /**
   * The result one command computes before its negation is applied, and the
   * cache after it; or the error it raises. Only a command of a known kind
   * with a fitting number of arguments computes a result; a one-argument
   * `@has` always does; and only a command that names a file can change the
   * cache.
   */
  function Eval(h: Host, root: string, st: CacheState, c: Command): (r: (Result<bool>, CacheState))
    ensures r.0.Ok? ==> ArgumentsFit(c)
    ensures c.cmd == "has" && |c.args| == 1 ==> r.0.Ok?
    ensures r.1 != st ==> ArgumentsFit(c)
  {
    if c.cmd == "has" || c.cmd == "matches" then
      var regexp := c.cmd == "matches";
      if |c.args| == 1 && !regexp then
        var (f, st1) := FetchFile(h, root, st, c.args[0]);
        (Ok(f.Ok?), st1)
      else if |c.args| == 2 then
        var (f, st1) := FetchFile(h, root, st, c.args[0]);
        match f
        case Err(e) => (Err(e), st1)
        case Ok(data) => (CheckString(h, data, c.args[1], regexp), st1)
      else if |c.args| == 3 then
        var (t1, st1) := FetchTree(h, root, st, c.args[0]);
        if t1.Err? then (Err(t1.error), st1)
        else
          var (t2, st2) := FetchTree(h, root, st1, c.args[0]);
          match t2
          case Err(e) => (Err(e), st2)
          case Ok(tree) =>
            match SplitQuery(c.args[1])
            case AttrQuery(path, attr) =>
              (TreeAttr(h, tree, path, attr, c.args[2], regexp), st2)
            case TextQuery(path) =>
              (TreeText(h, tree, path, c.args[2], regexp), st2)
      else (Err(InvalidArgumentCount(c.cmd, c.lineno)), st)
    else if c.cmd == "count" then
      if |c.args| == 3 then
        var (t, st1) := FetchTree(h, root, st, c.args[0]);
        match t
        case Err(e) => (Err(e), st1)
        case Ok(tree) =>
          match ParseInt(c.args[2], 10)
          case None => (Err(NotAnInteger(c.args[2])), st1)
          case Some(n) => (TreeCount(h, tree, c.args[1], n), st1)
      else (Err(InvalidArgumentCount(c.cmd, c.lineno)), st)
    else if c.cmd == "valid-html" || c.cmd == "valid-links" then (Err(Unimplemented(c.cmd, c.lineno)), st)
    else (Err(Unrecognized(c.cmd, c.lineno)), st)
  }

  /** Evaluating a command keeps a cache that agrees with the disk in agreement. */
  lemma EvalCoherent(h: Host, root: string, st: CacheState, c: Command)
    requires Coherent(h, root, st)
    ensures Coherent(h, root, Eval(h, root, st, c).1)
  {
    if c.args != [] {
      var p := c.args[0];
      if (c.cmd == "has" || c.cmd == "matches") && |c.args| <= 2 {
        FetchFileTransparent(h, root, st, p);
      } else if (c.cmd == "has" || c.cmd == "matches" || c.cmd == "count") && |c.args| == 3 {
        FetchTreeTransparent(h, root, st, p);
        FetchTreeTransparent(h, root, FetchTree(h, root, st, p).1, p);
        if c.cmd == "count" {
          EvalCountState(h, root, st, c);
        } else {
          EvalTreeState(h, root, st, c);
        }
      }
    }
  }

  /** A count leaves the cache as its tree fetch does. */
  lemma EvalCountState(h: Host, root: string, st: CacheState, c: Command)
    requires c.cmd == "count" && |c.args| == 3
    ensures Eval(h, root, st, c).1 == FetchTree(h, root, st, c.args[0]).1
  {
  }

  /** A tree test leaves the cache as its tree fetches do. */
  lemma EvalTreeState(h: Host, root: string, st: CacheState, c: Command)
    requires (c.cmd == "has" || c.cmd == "matches") && |c.args| == 3
    ensures var st1 := FetchTree(h, root, st, c.args[0]).1;
      Eval(h, root, st, c).1 == st1 || Eval(h, root, st, c).1 == FetchTree(h, root, st1, c.args[0]).1
  {
    var t1 := FetchTree(h, root, st, c.args[0]);
    if t1.0.Ok? {
      var t2 := FetchTree(h, root, t1.1, c.args[0]);
      if t2.0.Ok? {
        var q := SplitQuery(c.args[1]);
        assert Eval(h, root, st, c).1 == t2.1;
      }
    }
  }

  /** A known test command with a number of arguments it accepts. */
  predicate ArgumentsFit(c: Command) {
    || (c.cmd == "has" && 1 <= |c.args| <= 3)
    || (c.cmd == "matches" && 2 <= |c.args| <= 3)
    || (c.cmd == "count" && |c.args| == 3)
  }

  /** A command passes when its result differs from its negation flag. */
  function Run(h: Host, root: string, st: CacheState, c: Command): (r: (Outcome, CacheState))
    ensures r.1 == Eval(h, root, st, c).1
    ensures r.0 == Pass <==> Eval(h, root, st, c).0 == Ok(!c.negated)
    ensures Eval(h, root, st, c).0.Err? ==> r.0 == Fail(Eval(h, root, st, c).0.error)
    ensures Eval(h, root, st, c).0 == Ok(c.negated) ==> r.0 == Fail(CheckFailed(c.negated, c.cmd, c.lineno))
  {
    var (e, st1) := Eval(h, root, st, c);
    match e
    case Err(err) => (Fail(err), st1)
    case Ok(ret) => if ret == c.negated then (Fail(CheckFailed(c.negated, c.cmd, c.lineno)), st1) else (Pass, st1)
  }

  /** Negating a command that evaluates flips its outcome; one that raises fails either way. */
  lemma NegationFlips(h: Host, root: string, st: CacheState, c: Command)
    ensures Eval(h, root, st, c.(negated := !c.negated)) == Eval(h, root, st, c)
    ensures Eval(h, root, st, c).0.Ok? ==> (Run(h, root, st, c).0 == Pass <==> Run(h, root, st, c.(negated := !c.negated)).0 != Pass)
    ensures Eval(h, root, st, c).0.Err? ==> Run(h, root, st, c).0 == Run(h, root, st, c.(negated := !c.negated)).0
  {
  }

  /** `@valid-html` and `@valid-links` are not implemented: they fail, negated or not. */
  lemma UnimplementedFails(h: Host, root: string, st: CacheState, c: Command)
    requires c.cmd == "valid-html" || c.cmd == "valid-links"
    ensures Run(h, root, st, c) == (Fail(Unimplemented(c.cmd, c.lineno)), st)
  {
  }

  /** A command the checker does not know fails, negated or not, and touches nothing. */
  lemma UnknownFails(h: Host, root: string, st: CacheState, c: Command)
    requires c.cmd != "has" && c.cmd != "matches" && c.cmd != "count" && c.cmd != "valid-html" && c.cmd != "valid-links"
    ensures Run(h, root, st, c) == (Fail(Unrecognized(c.cmd, c.lineno)), st)
  {
  }

  /**
   * A wrong number of arguments raises, negated or not, and touches nothing:
   * `@has` and `@matches` take one to three (`@matches` at least two), and
   * `@count` exactly three.
   */
  lemma WrongArgumentCountFails(h: Host, root: string, st: CacheState, c: Command)
    requires || ((c.cmd == "has" || c.cmd == "matches") && (|c.args| == 0 || |c.args| > 3 || (c.cmd == "matches" && |c.args| == 1)))
             || (c.cmd == "count" && |c.args| != 3)
    ensures Run(h, root, st, c) == (Fail(InvalidArgumentCount(c.cmd, c.lineno)), st)
  {
  }

  /** `@matches` needs a pattern: with one argument it is malformed. */
  lemma MatchesNeedsPattern(h: Host, root: string, st: CacheState, c: Command)
    requires c.cmd == "matches" && |c.args| == 1
    ensures Eval(h, root, st, c) == (Err(InvalidArgumentCount("matches", c.lineno)), st)
  {
  }

  /**
   * `@has PATH` tests that the file exists and never raises: with a
   * coherent cache it holds iff the file is on disk (or, for `-`, iff there
   * is a previous path and its file is on disk).
   */
  lemma HasFileExists(h: Host, root: string, st: CacheState, c: Command)
    requires c.cmd == "has" && |c.args| == 1
    requires Coherent(h, root, st)
    ensures Eval(h, root, st, c).0 == Ok(ReadFile(h, root, st.lastPath, c.args[0]).Ok?)
    ensures c.args[0] != "-" ==> Eval(h, root, st, c).0 == Ok(h.join(root, h.normpath(c.args[0])) in h.disk)
    ensures Coherent(h, root, Eval(h, root, st, c).1)
  {
    FetchFileTransparent(h, root, st, c.args[0]);
  }

  /** `@count PATH XPATH N` holds iff the path selects exactly `N` elements. */
  lemma CountIsExact(h: Host, root: string, st: CacheState, c: Command, n: int, tree: Node)
    requires c.cmd == "count" && |c.args| == 3 && c.args[2] == Numeral(n)
    requires FetchTree(h, root, st, c.args[0]).0 == Ok(tree)
    requires Select(h, tree, c.args[1]).Ok?
    ensures Eval(h, root, st, c).0 == Ok(|Select(h, tree, c.args[1]).value| == n)
  {
    ParseIntNumeral(n);
  }

  /** A three-argument tree test fetches its tree twice, and the second fetch is a cache hit. */
  lemma TreeTestFetchesOnce(h: Host, root: string, st: CacheState, path: string)
    requires FetchTree(h, root, st, path).0.Ok?
    ensures FetchTree(h, root, FetchTree(h, root, st, path).1, path) == FetchTree(h, root, st, path)
  {
    FetchTreeAgain(h, root, st, path);
  }

  // ---------------------------------------------------------------------
  // check

  /**
   * `check` over the commands a template yields: each command runs in turn
   * against the shared cache and the first failure ends the run; after the
   * last command, an error the template raised ends it.
   */
  function CheckAll(h: Host, root: string, st: CacheState, cs: seq<Command>, end: Option<Error>): (r: Outcome)
    ensures r.Fail? && (end.None? || r.error != end.value) ==> cs != []
    decreases |cs|
  {
    if cs == [] then (if end.Some? then Fail(end.value) else Pass)
    else
      var (o, st1) := Run(h, root, st, cs[0]);
      if o.Fail? then o else CheckAll(h, root, st1, cs[1..], end)
  }

  /**
   * `check(target, commands)` from a fresh cache: a stream that raised never
   * passes, and without commands the run fails exactly when it raised.
   */
  function CheckStream(h: Host, root: string, commands: Stream<Command>): (r: Outcome)
    ensures commands.end.Some? ==> r.Fail?
    ensures commands.items == [] ==> (r.Fail? <==> commands.end.Some?)
  {
    var r := CheckAll(h, root, Empty, commands.items, commands.end);
    if commands.end.Some? then TemplateErrorFails(h, root, Empty, commands.items, commands.end.value); r else r
  }

  /** The whole run: the template's lines are read into commands, and these are checked. */
  function CheckTemplate(h: Host, root: string, template: seq<string>): Outcome {
    CheckStream(h, root, GetCommands(template, h.split))
  }

  /** An error in the template never goes unreported. */
  lemma {:induction false} TemplateErrorFails(h: Host, root: string, st: CacheState, cs: seq<Command>, e: Error)
    ensures CheckAll(h, root, st, cs, Some(e)).Fail?
    decreases |cs|
  {
    if cs != [] {
      var (o, st1) := Run(h, root, st, cs[0]);
      if o.Pass? {
        TemplateErrorFails(h, root, st1, cs[1..], e);
      }
    }
  }

  /** A run passes only when every command passes, each in the cache state the ones before it left. */
  lemma {:induction false} PassMeansAllPass(h: Host, root: string, st: CacheState, cs: seq<Command>, end: Option<Error>)
    requires CheckAll(h, root, st, cs, end) == Pass
    ensures end.None?
    ensures cs != [] ==> Run(h, root, st, cs[0]).0 == Pass && CheckAll(h, root, Run(h, root, st, cs[0]).1, cs[1..], end) == Pass
    decreases |cs|
  {
    if cs != [] {
      PassMeansAllPass(h, root, Run(h, root, st, cs[0]).1, cs[1..], end);
    }
  }

  /** Once a prefix of the commands fails, nothing after it, command or template error, is looked at. */
  lemma {:induction false} FailureHidesRest(h: Host, root: string, st: CacheState, xs: seq<Command>, ys: seq<Command>, ys': seq<Command>, end: Option<Error>, end': Option<Error>)
    requires CheckAll(h, root, st, xs, None).Fail?
    ensures CheckAll(h, root, st, xs + ys, end) == CheckAll(h, root, st, xs + ys', end') == CheckAll(h, root, st, xs, None)
    decreases |xs|
  {
    assert xs != [];
    assert (xs + ys)[0] == xs[0] && (xs + ys')[0] == xs[0];
    assert (xs + ys)[1..] == xs[1..] + ys && (xs + ys')[1..] == xs[1..] + ys';
    var (o, st1) := Run(h, root, st, xs[0]);
    if o.Pass? {
      FailureHidesRest(h, root, st1, xs[1..], ys, ys', end, end');
    }
  }

  /** A template whose last line is a lone continued line is never accepted. */
  lemma TrailingBackslashFails(h: Host, root: string, line: string)
    requires EndsWithBackslash(RStripNewlines(line))
    ensures CheckTemplate(h, root, [line]) == Fail(TrailingBackslash)
  {
    LoneContinuedLineRaises(line);
  }

  /** A template that raises while being read fails the run. */
  lemma BadTemplateFails(h: Host, root: string, template: seq<string>)
    requires GetCommands(template, h.split).end.Some?
    ensures CheckTemplate(h, root, template).Fail?
  {
    TemplateErrorFails(h, root, Empty, GetCommands(template, h.split).items, GetCommands(template, h.split).end.value);
  }

  // ---------------------------------------------------------------------
  // The imperative check loop

  /** One command against the cache object. */
  method RunCommand(h: Host, cache: CachedFiles, c: Command) returns (o: Outcome)
    modifies cache
    ensures (o, cache.State()) == Run(h, cache.root, old(cache.State()), c)
  {
    var ret: bool;
    if c.cmd == "has" || c.cmd == "matches" {
      var regexp := c.cmd == "matches";
      if |c.args| == 1 && !regexp {
        var f := cache.GetFile(h, c.args[0]);
        ret := f.Ok?;
      } else if |c.args| == 2 {
        var f := cache.GetFile(h, c.args[0]);
        if f.Err? {
          return Fail(f.error);
        }
        var test := CheckString(h, f.value, c.args[1], regexp);
        if test.Err? {
          return Fail(test.error);
        }
        ret := test.value;
      } else if |c.args| == 3 {
        var tree := cache.GetTree(h, c.args[0]);
        if tree.Err? {
          return Fail(tree.error);
        }
        tree := cache.GetTree(h, c.args[0]);
        if tree.Err? {
          return Fail(tree.error);
        }
        var test;
        match SplitQuery(c.args[1]) {
          case AttrQuery(path, attr) =>
            test := CheckTreeAttr(h, tree.value, path, attr, c.args[2], regexp);
          case TextQuery(path) =>
            test := CheckTreeText(h, tree.value, path, c.args[2], regexp);
        }
        if test.Err? {
          return Fail(test.error);
        }
        ret := test.value;
      } else {
        return Fail(InvalidArgumentCount(c.cmd, c.lineno));
      }
    } else if c.cmd == "count" {
      if |c.args| == 3 {
        var tree := cache.GetTree(h, c.args[0]);
        if tree.Err? {
          return Fail(tree.error);
        }
        var n := ParseInt(c.args[2], 10);
        if n.None? {
          return Fail(NotAnInteger(c.args[2]));
        }
        var test := TreeCount(h, tree.value, c.args[1], n.value);
        if test.Err? {
          return Fail(test.error);
        }
        ret := test.value;
      } else {
        return Fail(InvalidArgumentCount(c.cmd, c.lineno));
      }
    } else if c.cmd == "valid-html" || c.cmd == "valid-links" {
      return Fail(Unimplemented(c.cmd, c.lineno));
    } else {
      return Fail(Unrecognized(c.cmd, c.lineno));
    }
    if ret == c.negated {
      return Fail(CheckFailed(c.negated, c.cmd, c.lineno));
    }
    return Pass;
  }

  /** `check(target, commands)`: a fresh cache, then the commands in order until one fails. */
  method Check(h: Host, target: string, commands: Stream<Command>) returns (o: Outcome)
    ensures o == CheckStream(h, target, commands)
  {
    var cache := new CachedFiles(target);
    var cs := commands.items;
    var i := 0;
    while i < |cs|
      invariant i <= |cs| && cache.root == target
      invariant CheckStream(h, target, commands) == CheckAll(h, target, cache.State(), cs[i..], commands.end)
    {
      assert cs[i..][0] == cs[i] && cs[i..][1..] == cs[i + 1..];
      o := RunCommand(h, cache, cs[i]);
      if o.Fail? {
        return;
      }
      i := i + 1;
    }
    assert cs[i..] == [];
    if commands.end.Some? {
      return Fail(commands.end.value);
    }
    return Pass;
  }
}
