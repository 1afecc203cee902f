/**
 * The markup parser: `CustomHTMLParser`, whose handlers turn the events of
 * an HTML tokenizer into calls on the tree builder, closing void elements
 * at once and resolving entity and character references; and the entity
 * table, extended with `larrb` and `rarrb`.
 *
 * The tokenizer itself (`HTMLParser`) is outside the model: it is given as
 * the sequence of events it reports, ended by the error it raises, if any.
 */
module Markup {
  import opened Failures
  import opened Text
  import opened Tree
  import opened TreeBuilder

  /** An attribute as the tokenizer reports it; a valueless attribute has no value. */
  type Attr = (string, Option<string>)

  /** A tokenizer event, dispatched to the handler of the same name. */
  datatype Event =
    | StartTag(tag: string, attrs: seq<Attr>)
    | EndTag(tag: string)
    | StartEndTag(tag: string, attrs: seq<Attr>)
    | Text(data: string)
    | EntityRef(name: string)
    | CharRef(name: string)
    | Ignored   // comments, declarations, processing instructions: no handler is overridden

  /** The void elements of the HTML standard: they take neither children nor an end tag. */
  const VoidElements: set<string> :=
    {"area", "base", "br", "col", "embed", "hr", "img", "input", "keygen",
     "link", "menuitem", "meta", "param", "source", "track", "wbr"}

  /** The entity table: the standard one with `&larrb;` and `&rarrb;` added. */
  function Entities(standard: map<string, string>): (defs: map<string, string>)
    ensures defs.Keys == standard.Keys + {"larrb", "rarrb"}
    ensures defs["larrb"] == "⇤" && defs["rarrb"] == "⇥"
    ensures forall name :: name in standard && name != "larrb" && name != "rarrb" ==> defs[name] == standard[name]
  {
    standard["larrb" := "⇤"]["rarrb" := "⇥"]
  }

  /** `v or ''`. */
  function OrEmpty(v: Option<string>): string {
    if v.Some? then v.value else ""
  }

  /** No later attribute has the name of the one at index `i`. */
  predicate LastOf(attrs: seq<Attr>, i: nat)
    requires i < |attrs|
  {
    forall j :: i < j < |attrs| ==> attrs[j].0 != attrs[i].0
  }

  /** `dict((k, v or '') for k, v in attrs)`: a later attribute of the same name wins. */
  function AttrDict(attrs: seq<Attr>): (d: map<string, string>)
    ensures forall k :: k in d <==> exists i :: 0 <= i < |attrs| && attrs[i].0 == k
  {
    if attrs == [] then map[]
    else
      var init := attrs[..|attrs| - 1];
      assert forall i :: 0 <= i < |init| ==> init[i] == attrs[i];
      AttrDict(init)[attrs[|attrs| - 1].0 := OrEmpty(attrs[|attrs| - 1].1)]
  }

  /** The value of every attribute is the one its last occurrence gives, or `''` if it has none. */
  lemma {:induction false} AttrDictLastWins(attrs: seq<Attr>, i: nat)
    requires i < |attrs| && LastOf(attrs, i)
    ensures attrs[i].0 in AttrDict(attrs) && AttrDict(attrs)[attrs[i].0] == OrEmpty(attrs[i].1)
    decreases |attrs|
  {
    if i < |attrs| - 1 {
      var init := attrs[..|attrs| - 1];
      assert attrs[|attrs| - 1].0 != attrs[i].0;
      assert init[i] == attrs[i];
      assert LastOf(init, i) by {
        forall j | i < j < |init| ensures init[j].0 != init[i].0 {
          assert init[j] == attrs[j];
        }
      }
      AttrDictLastWins(init, i);
    }
  }

  /** A code point that a character can hold: not above U+10FFFF and not a surrogate. */
  predicate IsScalar(code: int) {
    0 <= code <= 0x10FFFF && !(0xD800 <= code <= 0xDFFF)
  }

  /** The code point a character reference names: hexadecimal after `x` or `X`, decimal otherwise. */
  function CharRefCode(name: string): Option<int> {
    if StartsWith(name, "x") || StartsWith(name, "X") then ParseInt(name[1..], 16) else ParseInt(name, 10)
  }

  /**
   * `handle_charref`: a reference `&#N;` or `&#xH;` becomes the character
   * with that code point; a name that is not a number, or a code point no
   * character has, raises.
   */
  function CharRefText(name: string): (r: Result<string>)
    ensures r.Ok? <==> CharRefCode(name).Some? && IsScalar(CharRefCode(name).value)
    ensures r.Ok? ==> r.value == [CharRefCode(name).value as char]
    ensures r.Err? ==> r.error == BadCharRef(name)
  {
    var code := CharRefCode(name);
    if code.None? || !IsScalar(code.value) then Err(BadCharRef(name))
    else Ok([code.value as char])
  }

  /** A decimal reference to any character decodes to that character. */
  lemma CharRefDecimal(c: char)
    ensures CharRefText(Numeral(c as int)) == Ok([c])
  {
    var s := Decimal(c as nat);
    assert Numeral(c as int) == s;
    assert DigitValue(s[0], 10).Some?;
    assert s[..1] != "x" && s[..1] != "X";
    ParseIntNumeral(c as int);
    assert CharRefCode(s) == Some(c as int);
    assert IsScalar(c as int);
    assert [(c as int) as char] == [c];
  }

  /** A hexadecimal reference to any character, after `x` or `X`, decodes to that character. */
  lemma CharRefHex(c: char)
    ensures CharRefText("x" + Hex(c as nat)) == Ok([c])
    ensures CharRefText("X" + Hex(c as nat)) == Ok([c])
  {
    ParseIntHex(c as nat);
    assert IsScalar(c as int);
    assert [(c as int) as char] == [c];
    HexReference("x", c);
    HexReference("X", c);
  }

  lemma HexReference(x: string, c: char)
    requires x == "x" || x == "X"
    requires ParseInt(Hex(c as nat), 16) == Some(c as int)
    ensures CharRefCode(x + Hex(c as nat)) == Some(c as int)
  {
    var s := x + Hex(c as nat);
    assert s[..1] == x;
    assert s[1..] == Hex(c as nat);
  }

  /** The builder calls a handler makes for one event, or the error it raises. */
  function Handle(defs: map<string, string>, ev: Event): (r: Result<seq<Call>>)
    ensures r.Err? <==> (ev.EntityRef? && ev.name !in defs) || (ev.CharRef? && CharRefText(ev.name).Err?)
    ensures r.Err? && ev.EntityRef? ==> r.error == UnknownEntity(ev.name)
  {
    match ev
    case StartTag(tag, attrs) =>
      Ok([Start(tag, AttrDict(attrs))] + (if tag in VoidElements then [End(tag)] else []))
    case EndTag(tag) => Ok([End(tag)])
    case StartEndTag(tag, attrs) => Ok([Start(tag, AttrDict(attrs)), End(tag)])
    case Text(data) => Ok([Data(data)])
    case EntityRef(name) =>
      if name in defs then Ok([Data(defs[name])]) else Err(UnknownEntity(name))
    case CharRef(name) =>
      (match CharRefText(name)
       case Ok(s) => Ok([Data(s)])
       case Err(e) => Err(e))
    case Ignored => Ok([])
  }

  /** The builder after one event, or the error the handler or the builder raises. */
  function Step(defs: map<string, string>, b: Builder, ev: Event): (r: Result<Builder>)
    requires Wf(b)
    ensures r.Ok? ==> Wf(r.value)
  {
    match Handle(defs, ev)
    case Err(e) => Err(e)
    case Ok(calls) => ApplyAll(b, calls)
  }

  /** Feeding events in order, stopping at the first error. */
  function FeedAll(defs: map<string, string>, b: Builder, evs: seq<Event>): (r: Result<Builder>)
    requires Wf(b)
    ensures r.Ok? ==> Wf(r.value)
    decreases |evs|
  {
    if evs == [] then Ok(b)
    else match Step(defs, b, evs[0])
      case Err(e) => Err(e)
      case Ok(b') => FeedAll(defs, b', evs[1..])
  }

  /**
   * Parsing a document: its events are handled in order; then the error the
   * tokenizer stops with, if any, is raised; then the builder is closed.
   */
  function ParseEvents(defs: map<string, string>, events: Stream<Event>): (r: Result<Node>)
    ensures events.end.Some? ==> r.Err?
    ensures events.items == [] ==> r.Err?
  {
    match FeedAll(defs, Initial, events.items)
    case Err(e) => Err(e)
    case Ok(b) => if events.end.Some? then Err(events.end.value) else Close(b)
  }

  /** All the builder calls of a sequence of events, or the first handler error. */
  function HandleAll(defs: map<string, string>, evs: seq<Event>): Result<seq<Call>>
    decreases |evs|
  {
    if evs == [] then Ok([])
    else match Handle(defs, evs[0])
      case Err(e) => Err(e)
      case Ok(calls) =>
        match HandleAll(defs, evs[1..])
        case Err(e) => Err(e)
        case Ok(rest) => Ok(calls + rest)
  }

  /** When no handler raises, feeding the events is applying their calls. */
  lemma {:induction false} FeedAllIsApplyAll(defs: map<string, string>, b: Builder, evs: seq<Event>)
    requires Wf(b)
    requires HandleAll(defs, evs).Ok?
    ensures FeedAll(defs, b, evs) == ApplyAll(b, HandleAll(defs, evs).value)
    decreases |evs|
  {
    if evs != [] {
      var calls := Handle(defs, evs[0]).value;
      var rest := HandleAll(defs, evs[1..]).value;
      ApplyAllAppend(b, calls, rest);
      if ApplyAll(b, calls).Ok? {
        FeedAllIsApplyAll(defs, ApplyAll(b, calls).value, evs[1..]);
      }
    }
  }

  /**
   * A document whose events ask the builder for exactly the calls that
   * render an element tree parses back to that tree.
   */
  lemma ParseRendered(defs: map<string, string>, evs: seq<Event>, root: Node)
    requires HandleAll(defs, evs) == Ok(Render(root))
    ensures ParseEvents(defs, Stream(evs, None)) == Ok(root.(tail := ""))
  {
    FeedAllIsApplyAll(defs, Initial, evs);
    BuildRender(root);
    assert FeedAll(defs, Initial, evs) == ApplyAll(Initial, Render(root));
  }

  /** A void element's start tag is handled exactly as the self-closing form. */
  lemma VoidStartSelfCloses(defs: map<string, string>, tag: string, attrs: seq<Attr>)
    requires tag in VoidElements
    ensures Handle(defs, StartTag(tag, attrs)) == Handle(defs, StartEndTag(tag, attrs))
  {
    var start := Start(tag, AttrDict(attrs));
    assert [start] + [End(tag)] == [start, End(tag)];
  }

  /**
   * A void element's start tag attaches, at once, an element without text
   * or children, wherever the builder stands.
   */
  lemma VoidStartIsLeaf(defs: map<string, string>, b: Builder, tag: string, attrs: seq<Attr>)
    requires Wf(b)
    requires tag in VoidElements
    ensures Step(defs, b, StartTag(tag, attrs)) == Ok(After(Flush(b), Node(tag, AttrDict(attrs), "", [], "")))
  {
    var leaf := Node(tag, AttrDict(attrs), "", [], "");
    LeafRender(tag, AttrDict(attrs));
    assert [Start(tag, AttrDict(attrs))] + [End(tag)] == Render(leaf);
    assert Handle(defs, StartTag(tag, attrs)) == Ok(Render(leaf));
    RenderBuilds(b, leaf);
  }

  /**
   * A self-closing tag, void or not, attaches at once an element without
   * text or children, wherever the builder stands.
   */
  lemma SelfClosingIsLeaf(defs: map<string, string>, b: Builder, tag: string, attrs: seq<Attr>)
    requires Wf(b)
    ensures Step(defs, b, StartEndTag(tag, attrs)) == Ok(After(Flush(b), Node(tag, AttrDict(attrs), "", [], "")))
  {
    var leaf := Node(tag, AttrDict(attrs), "", [], "");
    LeafRender(tag, AttrDict(attrs));
    assert Handle(defs, StartEndTag(tag, attrs)) == Ok(Render(leaf));
    RenderBuilds(b, leaf);
  }

  /** An element without text, children or tail is one start and one end call. */
  lemma LeafRender(tag: string, attrib: map<string, string>)
    ensures Render(Node(tag, attrib, "", [], "")) == [Start(tag, attrib), End(tag)]
  {
    var leaf := Node(tag, attrib, "", [], "");
    assert DataCall("") == [] && RenderChildren(leaf, 0) == [];
  }

  /** A builder that has seen no element yet: only buffered text. */
  predicate Blank(b: Builder) {
    b.stack == [] && b.done.None? && b.last == NoLast
  }

  /** Two feeding results that differ at most in text buffered before any element. */
  predicate SameBar(x: Result<Builder>, y: Result<Builder>) {
    x == y || (x.Ok? && y.Ok? && Blank(x.value) && Blank(y.value))
  }

  /** Text buffered before any element makes no difference to what follows. */
  lemma {:induction false} BlankFeeds(defs: map<string, string>, b: Builder, evs: seq<Event>)
    requires Blank(b)
    ensures SameBar(FeedAll(defs, b, evs), FeedAll(defs, Initial, evs))
    decreases |evs|
  {
    if evs != [] {
      var rest := evs[1..];
      var x, y := Step(defs, b, evs[0]), Step(defs, Initial, evs[0]);
      BlankStep(defs, b, evs[0]);
      if x != y {
        var nx, ny := x.value, y.value;
        BlankFeeds(defs, nx, rest);
        BlankFeeds(defs, ny, rest);
      }
    }
  }

  /** One event handled with only text buffered: as if nothing were buffered. */
  lemma BlankStep(defs: map<string, string>, b: Builder, ev: Event)
    requires Blank(b)
    ensures SameBar(Step(defs, b, ev), Step(defs, Initial, ev))
  {
    match ev
    case Text(d) =>
      ApplyAllOne(b, Data(d));
      ApplyAllOne(Initial, Data(d));
    case EntityRef(name) =>
      if name in defs {
        ApplyAllOne(b, Data(defs[name]));
        ApplyAllOne(Initial, Data(defs[name]));
      }
    case CharRef(name) =>
      if CharRefText(name).Ok? {
        var t := CharRefText(name).value;
        ApplyAllOne(b, Data(t));
        ApplyAllOne(Initial, Data(t));
      }
    case Ignored =>
    case StartTag(tag, attrs) =>
      ApplyAllOne(b, Start(tag, AttrDict(attrs)));
      ApplyAllTwo(b, Start(tag, AttrDict(attrs)), End(tag));
      ApplyAllOne(Initial, Start(tag, AttrDict(attrs)));
      ApplyAllTwo(Initial, Start(tag, AttrDict(attrs)), End(tag));
      assert Flush(b) == Initial;
      ApplyFlushed(b, Start(tag, AttrDict(attrs)));
    case StartEndTag(tag, attrs) =>
      ApplyAllTwo(b, Start(tag, AttrDict(attrs)), End(tag));
      ApplyAllTwo(Initial, Start(tag, AttrDict(attrs)), End(tag));
      assert Flush(b) == Initial;
      ApplyFlushed(b, Start(tag, AttrDict(attrs)));
    case EndTag(tag) =>
      ApplyAllOne(b, End(tag));
      ApplyAllOne(Initial, End(tag));
  }

  /** Text before the document's first element is dropped. */
  lemma LeadingTextDropped(defs: map<string, string>, data: string, evs: seq<Event>, end: Option<Error>)
    ensures ParseEvents(defs, Stream([Text(data)] + evs, end)) == ParseEvents(defs, Stream(evs, end))
  {
    ApplyAllOne(Initial, Data(data));
    assert ([Text(data)] + evs)[0] == Text(data);
    assert ([Text(data)] + evs)[1..] == evs;
    BlankFeeds(defs, Initial.(pending := "" + data), evs);
  }

  // ---------------------------------------------------------------------
  // CustomHTMLParser

  /**
   * The parser object: the entity table it resolves names with and the
   * builder it drives. Each handler forwards to the builder as the pure
   * `Handle` describes.
   */
  class CustomHtmlParser {
    const entitydefs: map<string, string>
    var builder: Builder

    predicate Valid()
      reads this
    {
      Wf(builder)
    }

    constructor(entitydefs: map<string, string>)
      ensures Valid() && this.entitydefs == entitydefs && builder == Initial
    {
      this.entitydefs := entitydefs;
      builder := Initial;
    }

    /** `handle_starttag`: start the element, and end it at once if it is void. */
    method HandleStartTag(tag: string, attrs: seq<Attr>)
      requires Valid()
      modifies this
      ensures Valid()
      ensures Ok(builder) == Step(entitydefs, old(builder), StartTag(tag, attrs))
    {
      var attrib := AttrDict(attrs);
      ApplyAllOne(builder, Start(tag, attrib));
      ApplyAllTwo(builder, Start(tag, attrib), End(tag));
      builder := Apply(builder, Start(tag, attrib)).value;
      if tag in VoidElements {
        builder := Apply(builder, End(tag)).value;
      }
    }

    /** `handle_endtag`: end the element; the builder raises on a stray or mismatched end tag. */
    method HandleEndTag(tag: string) returns (err: Option<Error>)
      requires Valid()
      modifies this
      ensures Valid()
      ensures err.None? ==> Ok(builder) == Step(entitydefs, old(builder), EndTag(tag))
      ensures err.Some? ==> Err(err.value) == Step(entitydefs, old(builder), EndTag(tag)) && builder == old(builder)
    {
      ApplyAllOne(builder, End(tag));
      match Apply(builder, End(tag))
      case Ok(b) =>
        builder := b;
        err := None;
      case Err(e) =>
        err := Some(e);
    }

    /** `handle_startendtag`: start and end the element. */
    method HandleStartEndTag(tag: string, attrs: seq<Attr>)
      requires Valid()
      modifies this
      ensures Valid()
      ensures Ok(builder) == Step(entitydefs, old(builder), StartEndTag(tag, attrs))
    {
      var attrib := AttrDict(attrs);
      ApplyAllTwo(builder, Start(tag, attrib), End(tag));
      builder := Apply(builder, Start(tag, attrib)).value;
      builder := Apply(builder, End(tag)).value;
    }

    /** `handle_data`: pass the text on. */
    method HandleData(data: string)
      requires Valid()
      modifies this
      ensures Valid()
      ensures Ok(builder) == Step(entitydefs, old(builder), Text(data))
    {
      ApplyAllOne(builder, Data(data));
      builder := Apply(builder, Data(data)).value;
    }

    /** `handle_entityref`: pass on the entity's text; an unknown name raises. */
    method HandleEntityRef(name: string) returns (err: Option<Error>)
      requires Valid()
      modifies this
      ensures Valid()
      ensures err.None? ==> Ok(builder) == Step(entitydefs, old(builder), EntityRef(name))
      ensures err.Some? ==> Err(err.value) == Step(entitydefs, old(builder), EntityRef(name)) && builder == old(builder)
    {
      if name in entitydefs {
        ApplyAllOne(builder, Data(entitydefs[name]));
        builder := Apply(builder, Data(entitydefs[name])).value;
        err := None;
      } else {
        err := Some(UnknownEntity(name));
      }
    }

    /** `handle_charref`: pass on the referenced character; a bad reference raises. */
    method HandleCharRef(name: string) returns (err: Option<Error>)
      requires Valid()
      modifies this
      ensures Valid()
      ensures err.None? ==> Ok(builder) == Step(entitydefs, old(builder), CharRef(name))
      ensures err.Some? ==> Err(err.value) == Step(entitydefs, old(builder), CharRef(name)) && builder == old(builder)
    {
      match CharRefText(name)
      case Ok(s) =>
        ApplyAllOne(builder, Data(s));
        builder := Apply(builder, Data(s)).value;
        err := None;
      case Err(e) =>
        err := Some(e);
    }

    /** The tokenizer reporting one event to its handler. */
    method Dispatch(ev: Event) returns (err: Option<Error>)
      requires Valid()
      modifies this
      ensures Valid()
      ensures err.None? ==> Ok(builder) == Step(entitydefs, old(builder), ev)
      ensures err.Some? ==> Err(err.value) == Step(entitydefs, old(builder), ev)
    {
      err := None;
      match ev
      case StartTag(tag, attrs) => HandleStartTag(tag, attrs);
      case EndTag(tag) => err := HandleEndTag(tag);
      case StartEndTag(tag, attrs) => HandleStartEndTag(tag, attrs);
      case Text(data) => HandleData(data);
      case EntityRef(name) => err := HandleEntityRef(name);
      case CharRef(name) => err := HandleCharRef(name);
      case Ignored =>
    }

    /** `feed`: report the events in order, stopping at the first that raises. */
    method Feed(evs: seq<Event>) returns (err: Option<Error>)
      requires Valid()
      modifies this
      ensures Valid()
      ensures err.None? ==> Ok(builder) == FeedAll(entitydefs, old(builder), evs)
      ensures err.Some? ==> Err(err.value) == FeedAll(entitydefs, old(builder), evs)
    {
      var i := 0;
      err := None;
      while i < |evs|
        invariant i <= |evs| && Valid() && err.None?
        invariant FeedAll(entitydefs, old(builder), evs) == FeedAll(entitydefs, builder, evs[i..])
      {
        assert evs[i..][1..] == evs[i + 1..];
        ghost var before := builder;
        err := Dispatch(evs[i]);
        assert FeedAll(entitydefs, before, evs[i..]) == match Step(entitydefs, before, evs[i])
          case Err(e) => Err(e)
          case Ok(b') => FeedAll(entitydefs, b', evs[i + 1..]);
        if err.Some? {
          return;
        }
        i := i + 1;
      }
      assert evs[i..] == [];
    }

    /** `close`: the tokenizer's own error first, then the builder's `close`. */
    method Close(end: Option<Error>) returns (r: Result<Node>)
      requires Valid()
      ensures end.Some? ==> r == Err(end.value)
      ensures end.None? ==> r == TreeBuilder.Close(builder)
    {
      if end.Some? {
        return Err(end.value);
      }
      r := TreeBuilder.Close(builder);
    }
  }

  /** Parsing a document with a fresh parser object: feed every event, then close. */
  method ParseDocument(entitydefs: map<string, string>, events: Stream<Event>) returns (r: Result<Node>)
    ensures r == ParseEvents(entitydefs, events)
  {
    var parser := new CustomHtmlParser(entitydefs);
    var err := parser.Feed(events.items);
    if err.Some? {
      return Err(err.value);
    }
    r := parser.Close(events.end);
  }
}
