/**
 * The element-tree builder the markup parser drives (ElementTree's
 * `TreeBuilder`), as an explicit stack of elements still open.
 *
 * Text arriving between builder calls is buffered and flushed at the next
 * `start` or `end`: into the text of the element last started, or into the
 * tail of the element last ended. Text before the first element is dropped,
 * and so is text after the last end tag, because `close` does not flush.
 */
module TreeBuilder {
  import opened Failures
  import opened Tree

  /** A call the parser makes on the builder. */
  datatype Call = Start(tag: string, attrib: map<string, string>) | End(tag: string) | Data(data: string)

  /** An element whose end tag has not been seen: what it has so far. */
  datatype Open = Open(tag: string, attrib: map<string, string>, text: string, children: seq<Node>)

  /** Which element the buffered text belongs to. */
  datatype Last =
    | NoLast    // no element started yet
    | Started   // the innermost open element: its text
    | Ended     // the element last closed: its tail

  /**
   * The builder's state: the open elements (outermost first), the last
   * top-level element closed, where buffered text goes, and the buffer.
   */
  datatype Builder = Builder(stack: seq<Open>, done: Option<Node>, last: Last, pending: string)

  const Initial := Builder([], None, NoLast, "")

  /**
   * The builder's invariant: text is routed to an element that exists. An
   * element last started is the innermost open one; an element last ended is
   * the last child of the innermost open one, or the top-level element.
   */
  predicate Wf(b: Builder) {
    && (b.last == NoLast ==> b.stack == [] && b.done.None?)
    && (b.last == Started ==> b.stack != [])
    && (b.last == Ended ==> if b.stack == [] then b.done.Some? else b.stack[|b.stack| - 1].children != [])
  }

  /** `o2` is `o` with the tail of its last child set to `t`, and nothing else changed. */
  predicate TailSet(o: Open, o2: Open, t: string)
    requires o.children != []
  {
    var k := |o.children| - 1;
    && o2.tag == o.tag && o2.attrib == o.attrib && o2.text == o.text
    && |o2.children| == |o.children| && o2.children[..k] == o.children[..k]
    && o2.children[k] == o.children[k].(tail := t)
  }

  /** Give the innermost open element the text `t`. */
  function SetText(stack: seq<Open>, t: string): (r: seq<Open>)
    requires stack != []
    ensures |r| == |stack| && r[..|r| - 1] == stack[..|stack| - 1]
    ensures r[|r| - 1] == stack[|stack| - 1].(text := t)
  {
    var top := stack[|stack| - 1];
    stack[..|stack| - 1] + [top.(text := t)]
  }

  /** Give the last child of the innermost open element the tail `t`. */
  function SetLastTail(stack: seq<Open>, t: string): (r: seq<Open>)
    requires stack != [] && stack[|stack| - 1].children != []
    ensures |r| == |stack| && r[..|r| - 1] == stack[..|stack| - 1]
    ensures r[|r| - 1].children != [] && TailSet(stack[|stack| - 1], r[|r| - 1], t)
  {
    var top := stack[|stack| - 1];
    var cs := top.children;
    stack[..|stack| - 1] + [top.(children := cs[..|cs| - 1] + [cs[|cs| - 1].(tail := t)])]
  }

  /** `_flush`: hand the buffered text to the element it belongs to. */
  function Flush(b: Builder): (r: Builder)
    requires Wf(b)
    ensures Wf(r) && r.pending == "" && r.last == b.last
    ensures |r.stack| == |b.stack| && (r.done.Some? <==> b.done.Some?)
    ensures b.pending == "" ==> r == b
    ensures b.pending != "" && b.last == NoLast ==> r == b.(pending := "")
    ensures b.pending != "" && b.last == Started ==>
      && r.done == b.done && r.stack[..|r.stack| - 1] == b.stack[..|b.stack| - 1]
      && r.stack[|r.stack| - 1] == b.stack[|b.stack| - 1].(text := b.pending)
    ensures b.pending != "" && b.last == Ended && b.stack == [] ==>
      r.stack == [] && r.done == Some(b.done.value.(tail := b.pending))
    ensures b.pending != "" && b.last == Ended && b.stack != [] ==>
      && r.done == b.done && r.stack[..|r.stack| - 1] == b.stack[..|b.stack| - 1]
      && TailSet(b.stack[|b.stack| - 1], r.stack[|r.stack| - 1], b.pending)
  {
    if b.pending == "" then b
    else match b.last
      case NoLast => b.(pending := "")
      case Started => Builder(SetText(b.stack, b.pending), b.done, b.last, "")
      case Ended =>
        if b.stack == [] then Builder(b.stack, Some(b.done.value.(tail := b.pending)), b.last, "")
        else Builder(SetLastTail(b.stack, b.pending), b.done, b.last, "")
  }

  /** A closed element joins its parent's children, or becomes the top-level element. */
  function Attach(stack: seq<Open>, done: Option<Node>, n: Node): (r: (seq<Open>, Option<Node>))
    ensures |r.0| == |stack|
    ensures stack == [] ==> r == (stack, Some(n))
    ensures stack != [] ==> r.1 == done && r.0[|r.0| - 1].children != []
  {
    if stack == [] then (stack, Some(n))
    else
      var top := stack[|stack| - 1];
      (stack[..|stack| - 1] + [top.(children := top.children + [n])], done)
  }

  /** One builder call: `start`, `end` or `data`. */
  function Apply(b: Builder, c: Call): (r: Result<Builder>)
    requires Wf(b)
    ensures r.Ok? ==> Wf(r.value)
    ensures r.Err? <==> c.End? && (b.stack == [] || b.stack[|b.stack| - 1].tag != c.tag)
    ensures r.Err? && b.stack == [] ==> r.error == UnbalancedEndTag(c.tag)
    ensures r.Err? && b.stack != [] ==> r.error == EndTagMismatch(b.stack[|b.stack| - 1].tag, c.tag)
  {
    match c
    case Data(d) => Ok(b.(pending := b.pending + d))
    case Start(tag, attrib) =>
      var f := Flush(b);
      Ok(Builder(f.stack + [Open(tag, attrib, "", [])], f.done, Started, ""))
    case End(tag) =>
      var f := Flush(b);
      if f.stack == [] then Err(UnbalancedEndTag(tag))
      else
        var top := f.stack[|f.stack| - 1];
        assert top == b.stack[|b.stack| - 1].(text := top.text, children := top.children);
        if top.tag != tag then Err(EndTagMismatch(top.tag, tag))
        else
          var a := Attach(f.stack[..|f.stack| - 1], f.done, Node(top.tag, top.attrib, top.text, top.children, ""));
          Ok(Builder(a.0, a.1, Ended, ""))
  }

  /** A sequence of calls, stopping at the first that fails. */
  function ApplyAll(b: Builder, cs: seq<Call>): (r: Result<Builder>)
    requires Wf(b)
    ensures r.Ok? ==> Wf(r.value)
    decreases |cs|
  {
    if cs == [] then Ok(b)
    else match Apply(b, cs[0])
      case Err(e) => Err(e)
      case Ok(b') => ApplyAll(b', cs[1..])
  }

  /** `close`: every element must be closed and one must exist; the last top-level one is returned. */
  function Close(b: Builder): (r: Result<Node>)
    requires Wf(b)
    ensures r.Ok? <==> b.stack == [] && b.last != NoLast
    ensures r.Ok? ==> Some(r.value) == b.done
  {
    if b.stack != [] then Err(MissingEndTags)
    else if b.last == NoLast then Err(MissingTopLevel)
    else Ok(b.done.value)
  }

  /** The element tree a whole call sequence builds. */
  function Build(cs: seq<Call>): Result<Node> {
    match ApplyAll(Initial, cs)
    case Err(e) => Err(e)
    case Ok(b) => Close(b)
  }

  lemma {:induction false} ApplyAllAppend(b: Builder, xs: seq<Call>, ys: seq<Call>)
    requires Wf(b)
    ensures ApplyAll(b, xs + ys) == if ApplyAll(b, xs).Err? then ApplyAll(b, xs) else ApplyAll(ApplyAll(b, xs).value, ys)
    decreases |xs|
  {
    if xs == [] {
      assert xs + ys == ys;
    } else {
      assert (xs + ys)[0] == xs[0];
      assert (xs + ys)[1..] == xs[1..] + ys;
      if Apply(b, xs[0]).Ok? {
        ApplyAllAppend(Apply(b, xs[0]).value, xs[1..], ys);
      }
    }
  }

  lemma ApplyAllOne(b: Builder, c: Call)
    requires Wf(b)
    ensures ApplyAll(b, [c]) == Apply(b, c)
  {
    assert [c][1..] == [];
  }

  lemma ApplyAllTwo(b: Builder, c: Call, d: Call)
    requires Wf(b)
    ensures ApplyAll(b, [c, d]) == if Apply(b, c).Err? then Apply(b, c) else Apply(Apply(b, c).value, d)
  {
    assert [c, d][1..] == [d];
    if Apply(b, c).Ok? {
      ApplyAllOne(Apply(b, c).value, d);
    }
  }

  // ---------------------------------------------------------------------
  // Rendering a tree as builder calls

  /** `[Data(s)]` for non-empty `s`. */
  function DataCall(s: string): seq<Call> {
    if s == "" then [] else [Data(s)]
  }

  /**
   * The calls a well-formed document makes for element `n` and the text
   * after it: start, its text, each child in turn, end, its tail.
   */
  function Render(n: Node): seq<Call>
    decreases n, 1
  {
    [Start(n.tag, n.attrib)] + DataCall(n.text) + RenderChildren(n, |n.children|) + [End(n.tag)] + DataCall(n.tail)
  }

  /** The calls for the first `i` children of `n`. */
  function RenderChildren(n: Node, i: nat): seq<Call>
    requires i <= |n.children|
    decreases n, 0, i
  {
    if i == 0 then [] else RenderChildren(n, i - 1) + Render(n.children[i - 1])
  }

  /** Buffered text does not matter to a call that flushes first. */
  lemma ApplyFlushed(b: Builder, c: Call)
    requires Wf(b) && !c.Data?
    ensures Apply(b, c) == Apply(Flush(b), c)
  {
  }

  /** The state after an element's calls: it is attached and its tail is buffered. */
  function After(f: Builder, n: Node): Builder {
    var a := Attach(f.stack, f.done, n.(tail := ""));
    Builder(a.0, a.1, Ended, n.tail)
  }

  /**
   * The state inside element `n` (whose enclosing elements are `base`)
   * after its start, its text and its first `i` children: what is flushed
   * at the next call is still buffered.
   */
  function Midway(base: seq<Open>, done: Option<Node>, n: Node, i: nat): (b: Builder)
    requires i <= |n.children|
    ensures Wf(b)
  {
    if i == 0 then Builder(base + [Open(n.tag, n.attrib, "", [])], done, Started, n.text)
    else
      var c := n.children[i - 1];
      Builder(base + [Open(n.tag, n.attrib, n.text, n.children[..i - 1] + [c.(tail := "")])], done, Ended, c.tail)
  }

  /** Flushing inside `n` completes the text or the last child seen so far. */
  lemma FlushMidway(base: seq<Open>, done: Option<Node>, n: Node, i: nat)
    requires i <= |n.children|
    ensures Flush(Midway(base, done, n, i))
      == Builder(base + [Open(n.tag, n.attrib, n.text, n.children[..i])], done, if i == 0 then Started else Ended, "")
  {
    var m := Midway(base, done, n, i);
    var stack := base + [Open(n.tag, n.attrib, n.text, n.children[..i])];
    if i > 0 {
      var c := n.children[i - 1];
      assert n.children[..i] == n.children[..i - 1] + [c];
      if c.tail == "" {
        assert c.(tail := "") == c;
      } else {
        assert SetLastTail(m.stack, c.tail) == stack;
      }
    } else if n.text != "" {
      assert SetText(m.stack, n.text) == stack;
    }
  }

  /**
   * Applying the calls that render element `n` attaches exactly `n`: to the
   * innermost open element, or as the top-level element, with its tail
   * buffered.
   */
  lemma {:induction false} RenderBuilds(b: Builder, n: Node)
    requires Wf(b)
    ensures ApplyAll(b, Render(n)) == Ok(After(Flush(b), n))
    decreases n, 1
  {
    var f := Flush(b);
    var k := |n.children|;
    var head := [Start(n.tag, n.attrib)] + DataCall(n.text);
    var children := RenderChildren(n, k);
    var finish := [End(n.tag)] + DataCall(n.tail);
    var m := Midway(f.stack, f.done, n, 0);
    RenderSplit(n);
    ApplyAllAppend(b, head, children + finish);
    StartBuilds(b, n);
    ApplyAllAppend(m, children, finish);
    RenderChildrenBuilds(f.stack, f.done, n, k);
    FinishBuilds(f.stack, f.done, n);
  }

  /** An element's calls are its opening calls, its children's calls and its closing calls. */
  lemma RenderSplit(n: Node)
    ensures Render(n)
      == ([Start(n.tag, n.attrib)] + DataCall(n.text))
         + (RenderChildren(n, |n.children|) + ([End(n.tag)] + DataCall(n.tail)))
  {
  }

  /** The start tag and the element's text lead to the state inside `n` before its children. */
  lemma StartBuilds(b: Builder, n: Node)
    requires Wf(b)
    ensures ApplyAll(b, [Start(n.tag, n.attrib)] + DataCall(n.text)) == Ok(Midway(Flush(b).stack, Flush(b).done, n, 0))
  {
    var f := Flush(b);
    var b1 := Builder(f.stack + [Open(n.tag, n.attrib, "", [])], f.done, Started, "");
    ApplyAllAppend(b, [Start(n.tag, n.attrib)], DataCall(n.text));
    ApplyAllOne(b, Start(n.tag, n.attrib));
    assert Apply(b, Start(n.tag, n.attrib)) == Ok(b1);
    if n.text != "" {
      ApplyAllOne(b1, Data(n.text));
      assert "" + n.text == n.text;
    }
  }

  /** The children's calls take the state inside `n` from its text to past its `i`-th child. */
  lemma {:induction false} RenderChildrenBuilds(base: seq<Open>, done: Option<Node>, n: Node, i: nat)
    requires i <= |n.children|
    ensures ApplyAll(Midway(base, done, n, 0), RenderChildren(n, i)) == Ok(Midway(base, done, n, i))
    decreases n, 0, i
  {
    if i > 0 {
      var j := i - 1;
      var c := n.children[j];
      RenderChildrenBuilds(base, done, n, j);
      var m := Midway(base, done, n, j);
      ApplyAllAppend(Midway(base, done, n, 0), RenderChildren(n, j), Render(c));
      RenderBuilds(m, c);
      AfterMidway(base, done, n, i);
    }
  }

  /** After its `i`-th child's calls, the state inside `n` is past that child. */
  lemma AfterMidway(base: seq<Open>, done: Option<Node>, n: Node, i: nat)
    requires 0 < i <= |n.children|
    ensures After(Flush(Midway(base, done, n, i - 1)), n.children[i - 1]) == Midway(base, done, n, i)
  {
    FlushMidway(base, done, n, i - 1);
    var c := n.children[i - 1];
    var o := Open(n.tag, n.attrib, n.text, n.children[..i - 1]);
    var stack := base + [o];
    assert stack[..|stack| - 1] == base;
    assert stack[|stack| - 1] == o;
  }

  /** The end tag closes `n` with everything it received, and its tail is buffered. */
  lemma FinishBuilds(base: seq<Open>, done: Option<Node>, n: Node)
    ensures ApplyAll(Midway(base, done, n, |n.children|), [End(n.tag)] + DataCall(n.tail))
      == Ok(After(Builder(base, done, Ended, ""), n))
  {
    var k := |n.children|;
    var m := Midway(base, done, n, k);
    FlushMidway(base, done, n, k);
    assert n.children[..k] == n.children;
    var node := Node(n.tag, n.attrib, n.text, n.children, "");
    assert node == n.(tail := "");
    var a := Attach(base, done, node);
    assert Apply(m, End(n.tag)) == Ok(Builder(a.0, a.1, Ended, ""));
    assert "" + n.tail == n.tail;
    ApplyAllAppend(m, [End(n.tag)], DataCall(n.tail));
  }

  /**
   * A well-formed document is rebuilt exactly: building the calls that
   * render a root element gives back that element (its tail, text after
   * the document, is never flushed).
   */
  lemma BuildRender(root: Node)
    ensures Build(Render(root)) == Ok(root.(tail := ""))
  {
    RenderBuilds(Initial, root);
  }
}
