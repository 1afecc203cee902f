/**
 * The element trees the checker queries, the text flattening `flatten`
 * used by `@has`/`@matches` with a path, and `normalize_xpath`.
 *
 * An element's `text` and `tail` are strings; the empty string stands for
 * ElementTree's `None`, which `flatten` skips just as it skips `''`.
 */
module Tree {
  import opened Failures
  import opened Text

  /** An element: tag, attributes, text before the first child, children, text after its end tag. */
  datatype Node = Node(tag: string, attrib: map<string, string>, text: string, children: seq<Node>, tail: string)

  /** `[s]` if `s` is truthy, nothing otherwise. */
  function NonEmpty(s: string): (r: seq<string>)
    ensures |r| <= 1
    ensures r == [] <==> s == ""
  {
    if s == "" then [] else [s]
  }

  /**
   * The pieces `_flatten(node, acc)` appends to `acc`, in order: the node's
   * text, then for every child its pieces followed by its tail.
   */
  function Parts(n: Node): seq<string>
    decreases n, |n.children| + 1
  {
    NonEmpty(n.text) + ChildParts(n, |n.children|)
  }

  /** The pieces contributed by the first `i` children of `n`. */
  function ChildParts(n: Node, i: nat): seq<string>
    requires i <= |n.children|
    decreases n, i
  {
    if i == 0 then []
    else
      var c := n.children[i - 1];
      ChildParts(n, i - 1) + Parts(c) + NonEmpty(c.tail)
  }

  /** `''.join(parts)`. */
  function Concat(parts: seq<string>): string {
    if parts == [] then "" else Concat(parts[..|parts| - 1]) + parts[|parts| - 1]
  }

  /**
   * The text content of an element, as a reader would define it: its own
   * text, then each child's text content followed by that child's tail.
   */
  function Flatten(n: Node): (r: string)
    ensures StartsWith(r, n.text)
    decreases n, |n.children| + 1
  {
    var r := n.text + FlattenChildren(n, |n.children|);
    assert r[..|n.text|] == n.text;
    r
  }

  /** The text content of the first `i` children of `n`, each followed by its tail. */
  function FlattenChildren(n: Node, i: nat): string
    requires i <= |n.children|
    decreases n, i
  {
    if i == 0 then ""
    else
      var c := n.children[i - 1];
      FlattenChildren(n, i - 1) + Flatten(c) + c.tail
  }

  lemma {:induction false} ConcatAppend(a: seq<string>, b: seq<string>)
    ensures Concat(a + b) == Concat(a) + Concat(b)
    decreases |b|
  {
    if b == [] {
      AppendNil(a);
    } else {
      var b' := b[..|b| - 1];
      DropLastAppend(a, b);
      ConcatAppend(a, b');
      assert Concat(a + b) == Concat(a + b') + b[|b| - 1];
    }
  }

  lemma AppendNil<T>(a: seq<T>)
    ensures a + [] == a
  {
  }

  /** Dropping the last element of `a + b`, for non-empty `b`, drops it from `b`. */
  lemma DropLastAppend<T>(a: seq<T>, b: seq<T>)
    requires b != []
    ensures (a + b)[..|a + b| - 1] == a + b[..|b| - 1]
    ensures (a + b)[|a + b| - 1] == b[|b| - 1]
  {
  }

  lemma ConcatNonEmpty(s: string)
    ensures Concat(NonEmpty(s)) == s
  {
    if s != "" {
      assert NonEmpty(s)[..0] == [];
    }
  }

  /** Joining the pieces `_flatten` collects gives the text content. */
  lemma {:induction false} ConcatParts(n: Node)
    ensures Concat(Parts(n)) == Flatten(n)
    decreases n, |n.children| + 1
  {
    ConcatAppend(NonEmpty(n.text), ChildParts(n, |n.children|));
    ConcatNonEmpty(n.text);
    ConcatChildParts(n, |n.children|);
  }

  lemma {:induction false} ConcatChildParts(n: Node, i: nat)
    requires i <= |n.children|
    ensures Concat(ChildParts(n, i)) == FlattenChildren(n, i)
    decreases n, i
  {
    if i > 0 {
      var k := i - 1;
      var c := n.children[k];
      var before, own, tail := ChildParts(n, k), Parts(c), NonEmpty(c.tail);
      assert ChildParts(n, i) == before + own + tail;
      ConcatChildParts(n, k);
      ConcatParts(c);
      ConcatNonEmpty(c.tail);
      ConcatAppend(before + own, tail);
      ConcatAppend(before, own);
      assert Concat(ChildParts(n, i)) == Concat(before) + Concat(own) + Concat(tail);
      assert FlattenChildren(n, i) == FlattenChildren(n, k) + Flatten(c) + c.tail;
    }
  }

  /** `_flatten(node, acc)`: `acc` gains the pieces of `node`, in order, and nothing else. */
  method FlattenInto(node: Node, acc: seq<string>) returns (out: seq<string>)
    ensures out == acc + Parts(node)
    decreases node
  {
    out := acc;
    if node.text != "" {
      out := out + [node.text];
    }
    var i := 0;
    while i < |node.children|
      invariant i <= |node.children|
      invariant out == acc + PartsUpTo(node, i)
    {
      var e := node.children[i];
      ghost var before := out;
      out := FlattenInto(e, out);
      if e.tail != "" {
        out := out + [e.tail];
      }
      assert out == before + Parts(e) + NonEmpty(e.tail);
      PartsUpToStep(node, i);
      AppendAssoc(acc, PartsUpTo(node, i), Parts(e), NonEmpty(e.tail));
      i := i + 1;
    }
  }

  /** The pieces of `n` up to and including its first `i` children. */
  function PartsUpTo(n: Node, i: nat): seq<string>
    requires i <= |n.children|
  {
    NonEmpty(n.text) + ChildParts(n, i)
  }

  lemma PartsUpToStep(n: Node, i: nat)
    requires i < |n.children|
    ensures PartsUpTo(n, i + 1) == PartsUpTo(n, i) + Parts(n.children[i]) + NonEmpty(n.children[i].tail)
  {
    var c := n.children[i];
    assert ChildParts(n, i + 1) == ChildParts(n, i) + Parts(c) + NonEmpty(c.tail);
  }

  lemma AppendAssoc<T>(a: seq<T>, b: seq<T>, c: seq<T>, d: seq<T>)
    ensures a + (b + c + d) == a + b + c + d
  {
  }

  /** `flatten(node)`: the text content of `node`. */
  method FlattenText(node: Node) returns (r: string)
    ensures r == Flatten(node)
  {
    var acc := FlattenInto(node, []);
    ConcatParts(node);
    assert acc == Parts(node);
    r := Concat(acc);
  }

  /** An element without children contributes just its text. */
  lemma FlattenLeaf(tag: string, attrib: map<string, string>, text: string, tail: string)
    ensures Flatten(Node(tag, attrib, text, [], tail)) == text
  {
  }

  /** Appending a child appends its text content and its tail. */
  lemma FlattenAppendChild(n: Node, c: Node)
    ensures Flatten(n.(children := n.children + [c])) == Flatten(n) + Flatten(c) + c.tail
  {
    var m := n.(children := n.children + [c]);
    SameChildrenPrefix(n, m, |n.children|);
  }

  /** The first `i` children of two elements agreeing on them flatten alike. */
  lemma {:induction false} SameChildrenPrefix(n: Node, m: Node, i: nat)
    requires i <= |n.children| && i <= |m.children|
    requires n.children[..i] == m.children[..i]
    ensures FlattenChildren(n, i) == FlattenChildren(m, i)
    decreases i
  {
    if i > 0 {
      assert n.children[..i - 1] == n.children[..i][..i - 1];
      assert m.children[..i - 1] == m.children[..i][..i - 1];
      assert n.children[i - 1] == n.children[..i][i - 1];
      assert m.children[i - 1] == m.children[..i][i - 1];
      SameChildrenPrefix(n, m, i - 1);
    }
  }

  /** The text content of every child, with its tail, occurs in the parent's. */
  lemma {:induction false} FlattenContainsChild(n: Node, i: nat)
    requires i < |n.children|
    ensures IsInfix(Flatten(n.children[i]) + n.children[i].tail, Flatten(n))
  {
    var c := n.children[i];
    var piece := Flatten(c) + c.tail;
    var before := n.text + FlattenChildren(n, i);
    var after := FlattenChildrenAfter(n, i + 1);
    FlattenChildrenSplit(n, i + 1);
    assert Flatten(n) == before + piece + after;
    assert OccursAt(Flatten(n), piece, |before|);
  }

  /** The text content of the children from index `i` on, each followed by its tail. */
  function FlattenChildrenAfter(n: Node, i: nat): string
    requires i <= |n.children|
    decreases |n.children| - i
  {
    if i == |n.children| then ""
    else
      var c := n.children[i];
      Flatten(c) + c.tail + FlattenChildrenAfter(n, i + 1)
  }

  lemma {:induction false} FlattenChildrenSplit(n: Node, i: nat)
    requires i <= |n.children|
    ensures FlattenChildren(n, |n.children|) == FlattenChildren(n, i) + FlattenChildrenAfter(n, i)
    decreases |n.children| - i
  {
    if i < |n.children| {
      FlattenChildrenSplit(n, i + 1);
      var c := n.children[i];
      assert FlattenChildren(n, i + 1) == FlattenChildren(n, i) + Flatten(c) + c.tail;
    }
  }

  // ---------------------------------------------------------------------
  // normalize_xpath

  /** `normalize_xpath`: only paths relative to the whole document are accepted, as `.//...`. */
  function NormalizeXPath(path: string): (r: Result<string>)
    ensures r.Ok? <==> StartsWith(path, "//") || StartsWith(path, ".//")
    ensures r.Ok? ==> StartsWith(r.value, ".//")
    ensures r.Ok? ==> r.value == path || r.value == "." + path
    ensures r.Err? ==> r.error == NonAbsoluteXPath(path)
  {
    if StartsWith(path, "//") then
      assert ("." + path)[..3] == "." + path[..2];
      Ok("." + path)
    else if StartsWith(path, ".//") then Ok(path)
    else Err(NonAbsoluteXPath(path))
  }

  /** A normalised path is left as it is. */
  lemma NormalizeXPathIdempotent(path: string)
    requires NormalizeXPath(path).Ok?
    ensures NormalizeXPath(NormalizeXPath(path).value) == NormalizeXPath(path)
  {
    var q := NormalizeXPath(path).value;
    assert q[..2] == "./";
  }
}
