/** Walking an element tree, and extracting a template from the walk
    (experimental/compiler/src/walk.ts, template.ts). */
module TemplateWalk {
  import opened Prelude
  import opened NavPlans

  // ---------------------------------------------------------------------
  // The tree
  // ---------------------------------------------------------------------

  /** A literal attribute carries its escaped value; any other is filled in when
      the template is used. */
  datatype Attribute = Attribute(name: string, literal: bool, value: string)

  datatype ElementNode = ElementNode(tag: string, isComponent: bool, attributes: seq<Attribute>, handlers: seq<string>, children: seq<ChildNode>)

  datatype ChildNode =
    | Element(node: ElementNode)
    | Content(literal: bool, text: string)
    | Loop
    | Conditional
    | Statement
    | Binding
    | LabeledBlock

  /** What becomes a node of the document. */
  predicate IsDomProducing(child: ChildNode) {
    !child.Statement? && !child.Binding? && !child.LabeledBlock?
  }

  const VOID_ELEMENTS: set<string> :=
    {"area", "base", "br", "col", "embed", "hr", "img", "input", "link", "meta", "param", "source", "track", "wbr"}

  datatype WalkEvent =
    | ElementStart(tag: string, path: Path)
    | ElementEnd(tag: string, isVoid: bool)
    | StaticAttribute(name: string, value: string)
    | DynamicAttribute(attr: Attribute, path: Path)
    | EventHandler(handler: string, path: Path)
    | StaticText(text: string)
    | DynamicContent(source: string, path: Path)
    | RegionPlaceholder(isLoop: bool, path: Path)
    | ComponentPlaceholder(tag: string, path: Path)

  // ---------------------------------------------------------------------
  // The events of a tree
  // ---------------------------------------------------------------------

  function AttributeEvent(attr: Attribute, path: Path): WalkEvent {
    if attr.literal then StaticAttribute(attr.name, attr.value) else DynamicAttribute(attr, path)
  }

  function AttributeEvents(attrs: seq<Attribute>, path: Path): seq<WalkEvent> {
    seq(|attrs|, i requires 0 <= i < |attrs| => AttributeEvent(attrs[i], path))
  }

  function HandlerEvents(handlers: seq<string>, path: Path): seq<WalkEvent> {
    seq(|handlers|, i requires 0 <= i < |handlers| => EventHandler(handlers[i], path))
  }

  /** The number of document nodes among the first `n` children. */
  function DomCount(children: seq<ChildNode>, n: nat): nat
    requires n <= |children|
  {
    if n == 0 then 0 else DomCount(children, n - 1) + (if IsDomProducing(children[n - 1]) then 1 else 0)
  }

  function OpeningEvents(node: ElementNode, path: Path): seq<WalkEvent> {
    [ElementStart(node.tag, path)] + AttributeEvents(node.attributes, path) + HandlerEvents(node.handlers, path)
  }

  /** An element as markup: its opening, its children unless it is void, its end. */
  function MarkupEvents(node: ElementNode, path: Path): seq<WalkEvent>
    decreases node, |node.children| + 1
  {
    if node.tag in VOID_ELEMENTS then OpeningEvents(node, path) + [ElementEnd(node.tag, true)]
    else OpeningEvents(node, path) + ChildrenEvents(node, |node.children|, path) + [ElementEnd(node.tag, false)]
  }

  function ElementEvents(node: ElementNode, path: Path): seq<WalkEvent>
    decreases node, |node.children| + 2
  {
    if node.isComponent then [ComponentPlaceholder(node.tag, path)] else MarkupEvents(node, path)
  }

  /** The events of the first `n` children. Their paths count document nodes, not
      children. */
  function ChildrenEvents(node: ElementNode, n: nat, path: Path): seq<WalkEvent>
    requires n <= |node.children|
    decreases node, n
  {
    if n == 0 then []
    else
      var child := node.children[n - 1];
      ChildrenEvents(node, n - 1, path)
      + (if IsDomProducing(child) then ChildEvents(child, path + [DomCount(node.children, n - 1)]) else [])
  }

  function ChildEvents(child: ChildNode, path: Path): seq<WalkEvent>
    decreases child
  {
    match child
    case Element(node) => ElementEvents(node, path)
    case Content(literal, text) => if literal then [StaticText(text)] else [DynamicContent(text, path)]
    case Loop => [RegionPlaceholder(true, path)]
    case Conditional => [RegionPlaceholder(false, path)]
    case _ => []
  }

  // ---------------------------------------------------------------------
  // The walker
  // ---------------------------------------------------------------------

  /** The walk keeps one mutable path and copies it into the events. */
  class Walker {
    var pathStack: Path
    var events: seq<WalkEvent>

    constructor ()
      ensures pathStack == [] && events == []
    {
      pathStack, events := [], [];
    }

    method Yield(e: WalkEvent)
      modifies this`events
      ensures events == old(events) + [e]
    {
      events := events + [e];
    }

    method WalkOpening(node: ElementNode)
      modifies this
      ensures pathStack == old(pathStack) && events == old(events) + OpeningEvents(node, pathStack)
    {
      ghost var before := events;
      Yield(ElementStart(node.tag, pathStack));
      for i := 0 to |node.attributes|
        invariant pathStack == old(pathStack)
        invariant events == before + [ElementStart(node.tag, pathStack)] + AttributeEvents(node.attributes, pathStack)[..i]
      {
        Yield(AttributeEvent(node.attributes[i], pathStack));
      }
      ghost var opening := events;
      for i := 0 to |node.handlers|
        invariant pathStack == old(pathStack)
        invariant events == opening + HandlerEvents(node.handlers, pathStack)[..i]
      {
        Yield(EventHandler(node.handlers[i], pathStack));
      }
      assert events == before + OpeningEvents(node, pathStack);
    }

    /** A builder, or an element that is not a component. */
    method WalkMarkup(node: ElementNode)
      modifies this
      decreases node, |node.children| + 1
      ensures pathStack == old(pathStack) && events == old(events) + MarkupEvents(node, pathStack)
    {
      WalkOpening(node);
      if node.tag in VOID_ELEMENTS {
        Yield(ElementEnd(node.tag, true));
        assert events == old(events) + MarkupEvents(node, pathStack);
        return;
      }
      ghost var opening := events;
      var domIndex := 0;
      for i := 0 to |node.children|
        invariant pathStack == old(pathStack) && domIndex == DomCount(node.children, i)
        invariant events == opening + ChildrenEvents(node, i, pathStack)
      {
        var child := node.children[i];
        if IsDomProducing(child) {
          pathStack := pathStack + [domIndex];
          WalkChild(child);
          pathStack := pathStack[..|pathStack| - 1];
          domIndex := domIndex + 1;
        }
      }
      Yield(ElementEnd(node.tag, false));
      assert events == old(events) + MarkupEvents(node, pathStack);
    }

    method WalkElement(node: ElementNode)
      modifies this
      decreases node, |node.children| + 2
      ensures pathStack == old(pathStack) && events == old(events) + ElementEvents(node, pathStack)
    {
      if node.isComponent {
        Yield(ComponentPlaceholder(node.tag, pathStack));
      } else {
        WalkMarkup(node);
      }
    }

    method WalkChild(child: ChildNode)
      modifies this
      decreases child
      ensures pathStack == old(pathStack) && events == old(events) + ChildEvents(child, pathStack)
    {
      match child {
        case Element(node) => WalkElement(node);
        case Content(literal, text) =>
          if literal {
            Yield(StaticText(text));
          } else {
            Yield(DynamicContent(text, pathStack));
          }
        case Loop => Yield(RegionPlaceholder(true, pathStack));
        case Conditional => Yield(RegionPlaceholder(false, pathStack));
        case _ =>
      }
    }
  }

  // ---------------------------------------------------------------------
  // Extraction
  // ---------------------------------------------------------------------

  /** A region's markers are two comments; the opening one carries an id. */
  datatype HtmlPart = Raw(text: string) | RegionOpen(isLoop: bool, id: nat) | RegionClose(isLoop: bool)

  /** What a hole is for. */
  datatype HoleKind =
    | AttributeHole(attr: Attribute)
    | EventHole(handler: string)
    | TextHole(source: string)
    | RegionHole(isLoop: bool)
    | ComponentHole(tag: string)

  datatype Hole = Hole(path: Path, kind: HoleKind)

  datatype Extraction = Extraction(html: seq<HtmlPart>, holes: seq<Hole>, inOpeningTag: bool, markerIds: nat)

  /** An opening tag still open is closed before anything but an attribute. */
  function Closing(x: Extraction): seq<HtmlPart> {
    if x.inOpeningTag then [Raw(">")] else []
  }

  function ProcessStep(x: Extraction, e: WalkEvent): Extraction {
    match e
    case ElementStart(tag, _) => Extraction(x.html + Closing(x) + [Raw("<" + tag)], x.holes, true, x.markerIds)
    case ElementEnd(tag, isVoid) =>
      if isVoid then Extraction(x.html + [Raw(">")], x.holes, false, x.markerIds)
      else Extraction(x.html + Closing(x) + [Raw("</" + tag + ">")], x.holes, false, x.markerIds)
    case StaticAttribute(name, value) => x.(html := x.html + [Raw(" " + name + "=\"" + value + "\"")])
    case DynamicAttribute(attr, path) =>
      x.(html := x.html + [Raw(" " + attr.name + "=\"\"")], holes := x.holes + [Hole(path, AttributeHole(attr))])
    case EventHandler(handler, path) => x.(holes := x.holes + [Hole(path, EventHole(handler))])
    case StaticText(text) => Extraction(x.html + Closing(x) + [Raw(text)], x.holes, false, x.markerIds)
    case DynamicContent(source, path) => Extraction(x.html + Closing(x) + [Raw("<!---->")], x.holes + [Hole(path, TextHole(source))], false, x.markerIds)
    case RegionPlaceholder(isLoop, path) =>
      Extraction(x.html + Closing(x) + [RegionOpen(isLoop, x.markerIds + 1), RegionClose(isLoop)], x.holes + [Hole(path, RegionHole(isLoop))], false, x.markerIds + 1)
    case ComponentPlaceholder(tag, path) => Extraction(x.html + Closing(x) + [Raw("<!---->")], x.holes + [Hole(path, ComponentHole(tag))], false, x.markerIds)
  }

  function Process(x: Extraction, es: seq<WalkEvent>): Extraction {
    if es == [] then x else ProcessStep(Process(x, es[..|es| - 1]), es[|es| - 1])
  }

  lemma {:induction false} ProcessConcat(x: Extraction, a: seq<WalkEvent>, b: seq<WalkEvent>)
    ensures Process(x, a + b) == Process(Process(x, a), b)
  {
    if b == [] {
      assert a + b == a;
    } else {
      assert (a + b)[..|a + b| - 1] == a + b[..|b| - 1];
      ProcessConcat(x, a, b[..|b| - 1]);
    }
  }

  lemma ProcessOne(x: Extraction, e: WalkEvent)
    ensures Process(x, [e]) == ProcessStep(x, e)
  {
    assert [e][..0] == [];
  }

  const NOTHING_EXTRACTED := Extraction([], [], false, 0)

  /** The root is a builder, or an element that may be a component. */
  function RootEvents(node: ElementNode, isBuilder: bool): seq<WalkEvent> {
    if isBuilder then MarkupEvents(node, []) else ElementEvents(node, [])
  }

  method ExtractTemplate(node: ElementNode, isBuilder: bool) returns (html: seq<HtmlPart>, holes: seq<Hole>, markerIds: nat)
    ensures var x := Process(NOTHING_EXTRACTED, RootEvents(node, isBuilder));
      html == x.html && holes == x.holes && markerIds == x.markerIds
    ensures holes == RootPlaces(node, isBuilder)
  {
    var walker := new Walker();
    if isBuilder {
      walker.WalkMarkup(node);
    } else {
      walker.WalkElement(node);
    }
    assert [] + RootEvents(node, isBuilder) == RootEvents(node, isBuilder);
    html, holes, markerIds := ProcessEvents(walker.events);
    ProcessHoles(NOTHING_EXTRACTED, RootEvents(node, isBuilder));
    RootHolesArePlaces(node, isBuilder);
  }

  method ProcessEvents(events: seq<WalkEvent>) returns (html: seq<HtmlPart>, holes: seq<Hole>, markerIds: nat)
    ensures var x := Process(NOTHING_EXTRACTED, events); html == x.html && holes == x.holes && markerIds == x.markerIds
  {
    html, holes, markerIds := [], [], 0;
    var inOpeningTag := false;
    for i := 0 to |events|
      invariant Process(NOTHING_EXTRACTED, events[..i]) == Extraction(html, holes, inOpeningTag, markerIds)
    {
      assert events[..i + 1][..i] == events[..i];
      var x := ProcessStep(Extraction(html, holes, inOpeningTag, markerIds), events[i]);
      html, holes, inOpeningTag, markerIds := x.html, x.holes, x.inOpeningTag, x.markerIds;
    }
    assert events[..|events|] == events;
  }

  // ---------------------------------------------------------------------
  // The markup
  // ---------------------------------------------------------------------

  function AttributeMarkup(attrs: seq<Attribute>): seq<HtmlPart> {
    seq(|attrs|, i requires 0 <= i < |attrs| =>
      if attrs[i].literal then Raw(" " + attrs[i].name + "=\"" + attrs[i].value + "\"") else Raw(" " + attrs[i].name + "=\"\""))
  }

  /** Markup and the number of region ids used so far. */
  datatype Markup = Markup(parts: seq<HtmlPart>, ids: nat)

  /** An element as markup, written down directly: its tag with its attributes,
      then unless it is void its children and its closing tag. */
  function Render(node: ElementNode, ids: nat): Markup
    decreases node, |node.children| + 1
  {
    var head := [Raw("<" + node.tag)] + AttributeMarkup(node.attributes) + [Raw(">")];
    if node.tag in VOID_ELEMENTS then Markup(head, ids)
    else
      var kids := RenderChildren(node, |node.children|, ids);
      Markup(head + kids.parts + [Raw("</" + node.tag + ">")], kids.ids)
  }

  function RenderChildren(node: ElementNode, n: nat, ids: nat): Markup
    requires n <= |node.children|
    decreases node, n
  {
    if n == 0 then Markup([], ids)
    else
      var before := RenderChildren(node, n - 1, ids);
      var child := RenderChild(node.children[n - 1], before.ids);
      Markup(before.parts + child.parts, child.ids)
  }

  function RenderChild(child: ChildNode, ids: nat): Markup
    decreases child
  {
    match child
    case Element(node) => if node.isComponent then Markup([Raw("<!---->")], ids) else Render(node, ids)
    case Content(literal, text) => Markup([Raw(if literal then text else "<!---->")], ids)
    case Loop => Markup([RegionOpen(true, ids + 1), RegionClose(true)], ids + 1)
    case Conditional => Markup([RegionOpen(false, ids + 1), RegionClose(false)], ids + 1)
    case _ => Markup([], ids)
  }

  lemma ProcessNext(x: Extraction, es: seq<WalkEvent>, n: nat)
    requires 0 < n <= |es|
    ensures Process(x, es[..n]) == ProcessStep(Process(x, es[..n - 1]), es[n - 1])
  {
    assert es[..n][..n - 1] == es[..n - 1];
  }

  lemma {:induction false} AttributesMarkup(attrs: seq<Attribute>, path: Path, n: nat, x: Extraction)
    requires n <= |attrs|
    ensures var y := Process(x, AttributeEvents(attrs, path)[..n]);
      y.html == x.html + AttributeMarkup(attrs)[..n] && y.inOpeningTag == x.inOpeningTag && y.markerIds == x.markerIds
  {
    var es := AttributeEvents(attrs, path);
    if n > 0 {
      AttributesMarkup(attrs, path, n - 1, x);
      ProcessNext(x, es, n);
      assert AttributeMarkup(attrs)[..n] == AttributeMarkup(attrs)[..n - 1] + [AttributeMarkup(attrs)[n - 1]];
    }
  }

  lemma {:induction false} HandlersMarkup(handlers: seq<string>, path: Path, n: nat, x: Extraction)
    requires n <= |handlers|
    ensures var y := Process(x, HandlerEvents(handlers, path)[..n]);
      y.html == x.html && y.inOpeningTag == x.inOpeningTag && y.markerIds == x.markerIds
  {
    var es := HandlerEvents(handlers, path);
    if n > 0 {
      HandlersMarkup(handlers, path, n - 1, x);
      ProcessNext(x, es, n);
    }
  }

  lemma OpeningMarkup(node: ElementNode, path: Path, x: Extraction)
    ensures var y := Process(x, OpeningEvents(node, path));
      y.html == x.html + Closing(x) + [Raw("<" + node.tag)] + AttributeMarkup(node.attributes) && y.inOpeningTag && y.markerIds == x.markerIds
  {
    var a, b, c := [ElementStart(node.tag, path)], AttributeEvents(node.attributes, path), HandlerEvents(node.handlers, path);
    ProcessOne(x, a[0]);
    ProcessConcat(x, a, b);
    ProcessConcat(x, a + b, c);
    assert b[..|b|] == b && c[..|c|] == c;
    AttributesMarkup(node.attributes, path, |b|, Process(x, a));
    HandlersMarkup(node.handlers, path, |c|, Process(x, a + b));
    assert AttributeMarkup(node.attributes)[..|b|] == AttributeMarkup(node.attributes);
  }

  /** The streamed markup of an element is its markup written down directly, after
      the opening tag before it is closed. */
  lemma {:induction false} StreamIsMarkup(node: ElementNode, path: Path, x: Extraction)
    ensures var y, markup := Process(x, MarkupEvents(node, path)), Render(node, x.markerIds);
      y.html == x.html + Closing(x) + markup.parts && !y.inOpeningTag && y.markerIds == markup.ids
    decreases node, |node.children| + 1
  {
    var o := Process(x, OpeningEvents(node, path));
    OpeningMarkup(node, path, x);
    if node.tag in VOID_ELEMENTS {
      ProcessConcat(x, OpeningEvents(node, path), [ElementEnd(node.tag, true)]);
      ProcessOne(o, ElementEnd(node.tag, true));
    } else {
      ChildrenStream(node, |node.children|, path, o);
      CloseElement(node, path, x);
      Assemble(x.html + Closing(x), [Raw("<" + node.tag)], AttributeMarkup(node.attributes), [Raw(">")],
               RenderChildren(node, |node.children|, x.markerIds).parts, [Raw("</" + node.tag + ">")]);
    }
  }

  lemma Assemble(start: seq<HtmlPart>, tag: seq<HtmlPart>, attrs: seq<HtmlPart>, close: seq<HtmlPart>, kids: seq<HtmlPart>, end: seq<HtmlPart>)
    ensures start + tag + attrs + close + kids + end == start + (tag + attrs + close + kids + end)
  {
  }

  lemma CloseElement(node: ElementNode, path: Path, x: Extraction)
    requires node.tag !in VOID_ELEMENTS
    ensures var y, z := Process(x, MarkupEvents(node, path)), Process(Process(x, OpeningEvents(node, path)), ChildrenEvents(node, |node.children|, path));
      y.html == z.html + Closing(z) + [Raw("</" + node.tag + ">")] && !y.inOpeningTag && y.markerIds == z.markerIds
  {
    var opening, kids := OpeningEvents(node, path), ChildrenEvents(node, |node.children|, path);
    ProcessConcat(x, opening, kids);
    ProcessConcat(x, opening + kids, [ElementEnd(node.tag, false)]);
    ProcessOne(Process(x, opening + kids), ElementEnd(node.tag, false));
  }

  lemma NoChildrenStream(node: ElementNode, path: Path, x: Extraction)
    requires x.inOpeningTag
    ensures Process(x, ChildrenEvents(node, 0, path)) == x && RenderChildren(node, 0, x.markerIds) == Markup([], x.markerIds)
    ensures x.html + Closing(x) == x.html + [Raw(">")] + []
  {
  }

  /** The first document node among the children closes the opening tag. */
  lemma {:induction false} ChildrenStream(node: ElementNode, n: nat, path: Path, x: Extraction)
    requires n <= |node.children| && x.inOpeningTag
    ensures var y, markup := Process(x, ChildrenEvents(node, n, path)), RenderChildren(node, n, x.markerIds);
      && y.markerIds == markup.ids
      && y.html + Closing(y) == x.html + [Raw(">")] + markup.parts
    decreases node, n
  {
    hide Process, ProcessStep, ChildEvents, RenderChild, Closing;
    if n == 0 {
      NoChildrenStream(node, path, x);
    } else {
      ChildrenStream(node, n - 1, path, x);
      var child, k := node.children[n - 1], DomCount(node.children, n - 1);
      var before := ChildrenEvents(node, n - 1, path);
      if IsDomProducing(child) {
        var y := Process(x, before);
        ProcessConcat(x, before, ChildEvents(child, path + [k]));
        ChildStream(child, path + [k], y);
        AppendMarkup(x.html + [Raw(">")], RenderChildren(node, n - 1, x.markerIds), RenderChild(child, y.markerIds));
        StreamStep(x.html + [Raw(">")], y, Process(y, ChildEvents(child, path + [k])), RenderChildren(node, n - 1, x.markerIds), RenderChild(child, y.markerIds));
      } else {
        assert before + [] == before;
        NothingRendered(node, n, x.markerIds);
      }
    }
  }

  lemma StreamStep(start: seq<HtmlPart>, y: Extraction, z: Extraction, before: Markup, child: Markup)
    requires y.html + Closing(y) == start + before.parts && z.html == y.html + Closing(y) + child.parts && !z.inOpeningTag
    ensures z.html + Closing(z) == start + (before.parts + child.parts)
  {
  }

  lemma AppendMarkup(start: seq<HtmlPart>, a: Markup, b: Markup)
    ensures (start + a.parts) + b.parts == start + (a.parts + b.parts)
  {
  }

  lemma NothingRendered(node: ElementNode, n: nat, ids: nat)
    requires 0 < n <= |node.children| && !IsDomProducing(node.children[n - 1])
    ensures RenderChildren(node, n, ids) == RenderChildren(node, n - 1, ids)
  {
    var before := RenderChildren(node, n - 1, ids);
    assert before.parts + [] == before.parts;
  }

  lemma {:induction false} ChildStream(child: ChildNode, path: Path, x: Extraction)
    requires IsDomProducing(child)
    ensures var y, markup := Process(x, ChildEvents(child, path)), RenderChild(child, x.markerIds);
      y.html == x.html + Closing(x) + markup.parts && !y.inOpeningTag && y.markerIds == markup.ids
    decreases child
  {
    match child
    case Element(node) =>
      if node.isComponent {
        ProcessOne(x, ComponentPlaceholder(node.tag, path));
      } else {
        StreamIsMarkup(node, path, x);
      }
    case Content(literal, text) => ProcessOne(x, ChildEvents(child, path)[0]);
    case Loop => ProcessOne(x, RegionPlaceholder(true, path));
    case Conditional => ProcessOne(x, RegionPlaceholder(false, path));
  }

  // ---------------------------------------------------------------------
  // Where the holes are
  // ---------------------------------------------------------------------

  /** The path of the hole an event records, if it records one. */
  function HoleOf(e: WalkEvent): Option<Hole> {
    match e
    case DynamicAttribute(attr, path) => Some(Hole(path, AttributeHole(attr)))
    case EventHandler(handler, path) => Some(Hole(path, EventHole(handler)))
    case DynamicContent(source, path) => Some(Hole(path, TextHole(source)))
    case RegionPlaceholder(isLoop, path) => Some(Hole(path, RegionHole(isLoop)))
    case ComponentPlaceholder(tag, path) => Some(Hole(path, ComponentHole(tag)))
    case _ => None
  }

  function HolesOf(es: seq<WalkEvent>): seq<Hole> {
    if es == [] then []
    else HolesOf(es[..|es| - 1]) + HolesOfEvent(es[|es| - 1])
  }

  /** What one event adds to the holes. */
  function HolesOfEvent(e: WalkEvent): seq<Hole> {
    match HoleOf(e)
    case Some(h) => [h]
    case None => []
  }

  lemma StepHoles(x: Extraction, e: WalkEvent)
    ensures ProcessStep(x, e).holes == x.holes + HolesOfEvent(e)
  {
  }

  lemma {:induction false} ProcessHoles(x: Extraction, es: seq<WalkEvent>)
    ensures Process(x, es).holes == x.holes + HolesOf(es)
  {
    hide ProcessStep, HoleOf, HolesOfEvent;
    if es != [] {
      var init, last := es[..|es| - 1], es[|es| - 1];
      ProcessHoles(x, init);
      StepHoles(Process(x, init), last);
      assert (x.holes + HolesOf(init)) + HolesOfEvent(last) == x.holes + (HolesOf(init) + HolesOfEvent(last));
    }
  }

  lemma {:induction false} HolesConcat(a: seq<WalkEvent>, b: seq<WalkEvent>)
    ensures HolesOf(a + b) == HolesOf(a) + HolesOf(b)
  {
    if b == [] {
      assert a + b == a;
    } else {
      assert (a + b)[..|a + b| - 1] == a + b[..|b| - 1];
      HolesConcat(a, b[..|b| - 1]);
    }
  }

  /** Holes in document order. */
  ghost predicate Ordered(holes: seq<Hole>) {
    forall i, j :: 0 <= i < j < |holes| ==> Before(holes[i].path, holes[j].path)
  }

  ghost predicate AllAt(holes: seq<Hole>, path: Path) {
    forall i :: 0 <= i < |holes| ==> holes[i].path == path
  }

  ghost predicate AllUnder(holes: seq<Hole>, path: Path) {
    forall i :: 0 <= i < |holes| ==> path <= holes[i].path
  }

  /** Under the children of `path` numbered below `k`. */
  ghost predicate AllUnderBelow(holes: seq<Hole>, path: Path, k: nat) {
    forall i :: 0 <= i < |holes| ==> |path| < |holes[i].path| && path <= holes[i].path && holes[i].path[|path|] < k
  }

  lemma {:induction false} PrefixBefore(p: Path, x: Path)
    requires p <= x
    ensures Before(p, x)
  {
    if p != [] {
      assert p[1..] <= x[1..];
      PrefixBefore(p[1..], x[1..]);
    }
  }

  lemma {:induction false} SiblingsBefore(p: Path, x: Path, y: Path)
    requires p <= x && p <= y && |p| < |x| && |p| < |y| && x[|p|] < y[|p|]
    ensures Before(x, y)
    decreases |p|
  {
    if p != [] {
      assert p[1..] <= x[1..] && p[1..] <= y[1..] && x[0] == y[0];
      SiblingsBefore(p[1..], x[1..], y[1..]);
    }
  }

  lemma {:induction false} EventsAt(es: seq<WalkEvent>, path: Path)
    requires forall i :: 0 <= i < |es| && HoleOf(es[i]).Some? ==> HoleOf(es[i]).value.path == path
    ensures AllAt(HolesOf(es), path)
  {
    if es != [] {
      EventsAt(es[..|es| - 1], path);
    }
  }

  lemma AtThenUnder(a: seq<Hole>, b: seq<Hole>, path: Path)
    requires AllAt(a, path) && AllUnder(b, path) && Ordered(b)
    ensures Ordered(a + b) && AllUnder(a + b, path)
  {
    PrefixBefore(path, path);
    forall i, j | 0 <= i < j < |a + b| ensures Before((a + b)[i].path, (a + b)[j].path) {
      if i < |a| {
        PrefixBefore(path, (a + b)[j].path);
      }
    }
  }

  /** The holes of an element are in document order, all at the element or below
      it. */
  lemma {:induction false} MarkupHoles(node: ElementNode, path: Path)
    ensures Ordered(HolesOf(MarkupEvents(node, path))) && AllUnder(HolesOf(MarkupEvents(node, path)), path)
    decreases node, |node.children| + 1
  {
    var opening := OpeningEvents(node, path);
    EventsAt(opening, path);
    var end := [ElementEnd(node.tag, node.tag in VOID_ELEMENTS)];
    EventsAt(end, path);
    assert HolesOf(end) == [] by {
      assert end[..0] == [];
    }
    if node.tag in VOID_ELEMENTS {
      HolesConcat(opening, end);
      AtThenUnder(HolesOf(opening), [], path);
      assert HolesOf(opening) + [] == HolesOf(opening);
    } else {
      var kids := ChildrenEvents(node, |node.children|, path);
      ChildrenHoles(node, |node.children|, path);
      KidHolesAre(node, |node.children|, path);
      HolesConcat(opening, kids);
      HolesConcat(opening + kids, end);
      AtThenUnder(HolesOf(opening), HolesOf(kids), path);
      assert HolesOf(opening) + HolesOf(kids) + [] == HolesOf(opening) + HolesOf(kids);
    }
  }

  lemma {:induction false} ChildrenHoles(node: ElementNode, n: nat, path: Path)
    requires n <= |node.children|
    ensures HolesUpTo(KidHoles(node, n, path), path, DomCount(node.children, n))
    decreases node, n
  {
    if n > 0 {
      ChildrenHoles(node, n - 1, path);
      AddChild(KidHoles(node, n - 1, path), KidHoles(node, n, path), node.children[n - 1], path,
               DomCount(node.children, n - 1), DomCount(node.children, n));
    }
  }

  /** The holes of the first `n` children, child by child. */
  ghost function KidHoles(node: ElementNode, n: nat, path: Path): seq<Hole>
    requires n <= |node.children|
  {
    if n == 0 then []
    else
      var child := node.children[n - 1];
      KidHoles(node, n - 1, path) + (if IsDomProducing(child) then HolesOf(ChildEvents(child, path + [DomCount(node.children, n - 1)])) else [])
  }

  lemma {:induction false} KidHolesAre(node: ElementNode, n: nat, path: Path)
    requires n <= |node.children|
    ensures KidHoles(node, n, path) == HolesOf(ChildrenEvents(node, n, path))
  {
    hide ChildEvents, HolesOfEvent, IsDomProducing;
    if n > 0 {
      var child, before := node.children[n - 1], ChildrenEvents(node, n - 1, path);
      KidHolesAre(node, n - 1, path);
      if IsDomProducing(child) {
        HolesConcat(before, ChildEvents(child, path + [DomCount(node.children, n - 1)]));
      } else {
        assert before + [] == before;
      }
    }
  }

  /** One child more, at position `k` if it takes one. */
  lemma {:induction false} AddChild(before: seq<Hole>, all: seq<Hole>, child: ChildNode, path: Path, k: nat, next: nat)
    requires HolesUpTo(before, path, k) && next == k + (if IsDomProducing(child) then 1 else 0)
    requires all == before + if IsDomProducing(child) then HolesOf(ChildEvents(child, path + [k])) else []
    ensures HolesUpTo(all, path, next)
    decreases child, 1
  {
    if IsDomProducing(child) {
      ChildHoles(child, path + [k]);
      NextSibling(before, HolesOf(ChildEvents(child, path + [k])), path, k);
    } else {
      assert before + [] == before;
    }
  }

  /** The holes of the children before position `k`. */
  ghost predicate HolesUpTo(holes: seq<Hole>, path: Path, k: nat) {
    Ordered(holes) && AllUnder(holes, path) && AllUnderBelow(holes, path, k)
  }

  /** The holes of a node at `path`. */
  ghost predicate HolesAt(holes: seq<Hole>, path: Path) {
    Ordered(holes) && AllUnder(holes, path)
  }

  lemma NextSibling(a: seq<Hole>, b: seq<Hole>, path: Path, k: nat)
    requires HolesUpTo(a, path, k) && HolesAt(b, path + [k])
    ensures HolesUpTo(a + b, path, k + 1)
  {
    forall j | 0 <= j < |b| ensures |path| < |b[j].path| && path <= b[j].path && b[j].path[|path|] == k {
      assert path + [k] <= b[j].path;
      assert (path + [k])[|path|] == k;
    }
    forall i, j | 0 <= i < j < |a + b| ensures Before((a + b)[i].path, (a + b)[j].path) {
      if i < |a| <= j {
        SiblingsBefore(path, (a + b)[i].path, (a + b)[j].path);
      }
    }
  }

  lemma {:induction false} ChildHoles(child: ChildNode, path: Path)
    ensures HolesAt(HolesOf(ChildEvents(child, path)), path)
    decreases child, 0
  {
    if child.Element? && !child.node.isComponent {
      MarkupHoles(child.node, path);
    } else {
      var es := ChildEvents(child, path);
      EventsAt(es, path);
      assert |es| <= 1 && |HolesOf(es)| <= 1 by {
        assert es != [] ==> es[..|es| - 1] == [];
      }
    }
  }

  // ---------------------------------------------------------------------
  // The holes exist in the document
  // ---------------------------------------------------------------------

  /** The document some markup stands for: one node for each child that becomes
      one. */
  function MarkupTree(node: ElementNode): Tree
    decreases node, |node.children| + 1
  {
    Tree(if node.tag in VOID_ELEMENTS then [] else DomChildren(node, |node.children|))
  }

  /** A component stands for a comment, whatever its children. */
  function DomTree(node: ElementNode): Tree
    decreases node, |node.children| + 2
  {
    if node.isComponent then Tree([]) else MarkupTree(node)
  }

  function DomChildren(node: ElementNode, n: nat): seq<Tree>
    requires n <= |node.children|
    decreases node, n
  {
    if n == 0 then []
    else DomChildren(node, n - 1) + (if IsDomProducing(node.children[n - 1]) then [ChildTree(node.children[n - 1])] else [])
  }

  function ChildTree(child: ChildNode): Tree
    decreases child
  {
    if child.Element? then DomTree(child.node) else Tree([])
  }

  lemma {:induction false} DomChildrenCount(node: ElementNode, n: nat)
    requires n <= |node.children|
    ensures |DomChildren(node, n)| == DomCount(node.children, n)
  {
    if n > 0 {
      DomChildrenCount(node, n - 1);
    }
  }

  lemma {:induction false} DomChildrenPrefix(node: ElementNode, n: nat, m: nat)
    requires n <= m <= |node.children|
    ensures DomChildren(node, n) <= DomChildren(node, m)
    decreases m - n
  {
    if n < m {
      DomChildrenPrefix(node, n + 1, m);
    }
  }

  /** Relative to `path`, every hole is a node of the tree. */
  ghost predicate AllInTree(holes: seq<Hole>, path: Path, t: Tree) {
    forall i :: 0 <= i < |holes| ==> path <= holes[i].path && InTree(t, holes[i].path[|path|..])
  }

  lemma {:induction false} MarkupInTree(node: ElementNode, path: Path)
    ensures AllInTree(HolesOf(MarkupEvents(node, path)), path, MarkupTree(node))
    decreases node, |node.children| + 1
  {
    var opening := OpeningEvents(node, path);
    var end := [ElementEnd(node.tag, node.tag in VOID_ELEMENTS)];
    EventsAt(opening, path);
    EventsAt(end, path);
    AtIsInTree(HolesOf(opening), path, MarkupTree(node));
    AtIsInTree(HolesOf(end), path, MarkupTree(node));
    if node.tag in VOID_ELEMENTS {
      HolesConcat(opening, end);
    } else {
      var kids := ChildrenEvents(node, |node.children|, path);
      ChildrenInTree(node, |node.children|, path);
      KidHolesAre(node, |node.children|, path);
      HolesConcat(opening, kids);
      HolesConcat(opening + kids, end);
      InTreeConcat(HolesOf(opening), HolesOf(kids), path, MarkupTree(node));
      InTreeConcat(HolesOf(opening) + HolesOf(kids), HolesOf(end), path, MarkupTree(node));
    }
  }

  lemma AtIsInTree(holes: seq<Hole>, path: Path, t: Tree)
    requires AllAt(holes, path)
    ensures AllInTree(holes, path, t)
  {
  }

  lemma InTreeConcat(a: seq<Hole>, b: seq<Hole>, path: Path, t: Tree)
    requires AllInTree(a, path, t) && AllInTree(b, path, t)
    ensures AllInTree(a + b, path, t)
  {
  }

  lemma {:induction false} ChildrenInTree(node: ElementNode, n: nat, path: Path)
    requires n <= |node.children|
    ensures AllInTree(KidHoles(node, n, path), path, Tree(DomChildren(node, n)))
    decreases node, n
  {
    if n > 0 {
      ChildrenInTree(node, n - 1, path);
      DomChildrenCount(node, n - 1);
      AddChildInTree(KidHoles(node, n - 1, path), KidHoles(node, n, path), node.children[n - 1], path, DomCount(node.children, n - 1),
                     DomChildren(node, n - 1), DomChildren(node, n));
    }
  }

  lemma {:induction false} AddChildInTree(before: seq<Hole>, all: seq<Hole>, child: ChildNode, path: Path, k: nat, a: seq<Tree>, b: seq<Tree>)
    requires AllInTree(before, path, Tree(a)) && |a| == k && b == a + if IsDomProducing(child) then [ChildTree(child)] else []
    requires all == before + if IsDomProducing(child) then HolesOf(ChildEvents(child, path + [k])) else []
    ensures AllInTree(all, path, Tree(b))
    decreases child, 1
  {
    GrowTree(before, path, a, b);
    if IsDomProducing(child) {
      var holes := HolesOf(ChildEvents(child, path + [k]));
      ChildHolesInTree(child, path + [k]);
      UnderChild(holes, path, k, b, ChildTree(child));
      InTreeConcat(before, holes, path, Tree(b));
    } else {
      assert before + [] == before;
    }
  }

  lemma GrowTree(holes: seq<Hole>, path: Path, a: seq<Tree>, b: seq<Tree>)
    requires a <= b && AllInTree(holes, path, Tree(a))
    ensures AllInTree(holes, path, Tree(b))
  {
  }

  lemma UnderChild(holes: seq<Hole>, path: Path, k: nat, kids: seq<Tree>, t: Tree)
    requires k < |kids| && kids[k] == t && AllInTree(holes, path + [k], t)
    ensures AllInTree(holes, path, Tree(kids))
  {
    forall i | 0 <= i < |holes| ensures path <= holes[i].path && InTree(Tree(kids), holes[i].path[|path|..]) {
      var p := holes[i].path;
      assert path + [k] <= p && (path + [k])[|path|] == k;
      assert p[|path|..][1..] == p[|path + [k]|..];
    }
  }

  lemma {:induction false} ChildHolesInTree(child: ChildNode, path: Path)
    ensures AllInTree(HolesOf(ChildEvents(child, path)), path, ChildTree(child))
    decreases child, 0
  {
    if child.Element? && !child.node.isComponent {
      MarkupInTree(child.node, path);
    } else {
      EventsAt(ChildEvents(child, path), path);
    }
  }

  // ---------------------------------------------------------------------
  // The dynamic places of a tree
  // ---------------------------------------------------------------------

  /** One place for every attribute that is not literal. */
  function AttributePlaces(attrs: seq<Attribute>, path: Path): seq<Hole> {
    if attrs == [] then []
    else (if attrs[0].literal then [] else [Hole(path, AttributeHole(attrs[0]))]) + AttributePlaces(attrs[1..], path)
  }

  function HandlerPlaces(handlers: seq<string>, path: Path): seq<Hole> {
    if handlers == [] then [] else [Hole(path, EventHole(handlers[0]))] + HandlerPlaces(handlers[1..], path)
  }

  /** The places of an element that is no component, at `path`: its own, and then its
      children's, unless it is void. */
  function ElementPlaces(node: ElementNode, path: Path): seq<Hole>
    decreases node, |node.children| + 1
  {
    AttributePlaces(node.attributes, path) + HandlerPlaces(node.handlers, path)
    + (if node.tag in VOID_ELEMENTS then [] else PlacesFrom(node, 0, 0, path))
  }

  /** The places of the children from the `i`th on, which finds `k` nodes of the
      document before it: elements, contents, loops and conditionals are nodes. */
  function PlacesFrom(node: ElementNode, i: nat, k: nat, path: Path): seq<Hole>
    requires i <= |node.children|
    decreases node, |node.children| - i
  {
    if i == |node.children| then []
    else match node.children[i]
      case Element(e) =>
        (if e.isComponent then [Hole(path + [k], ComponentHole(e.tag))] else ElementPlaces(e, path + [k])) + PlacesFrom(node, i + 1, k + 1, path)
      case Content(literal, source) => (if literal then [] else [Hole(path + [k], TextHole(source))]) + PlacesFrom(node, i + 1, k + 1, path)
      case Loop => [Hole(path + [k], RegionHole(true))] + PlacesFrom(node, i + 1, k + 1, path)
      case Conditional => [Hole(path + [k], RegionHole(false))] + PlacesFrom(node, i + 1, k + 1, path)
      case Statement => PlacesFrom(node, i + 1, k, path)
      case Binding => PlacesFrom(node, i + 1, k, path)
      case LabeledBlock => PlacesFrom(node, i + 1, k, path)
  }

  /** The places of a root: a component there is one place. */
  function RootPlaces(node: ElementNode, isBuilder: bool): seq<Hole> {
    if node.isComponent && !isBuilder then [Hole([], ComponentHole(node.tag))] else ElementPlaces(node, [])
  }

  lemma HolesOfOne(e: WalkEvent)
    ensures HolesOf([e]) == HolesOfEvent(e)
  {
    assert [e][..0] == [];
  }

  lemma {:induction false} AttributeHoles(attrs: seq<Attribute>, path: Path)
    ensures HolesOf(AttributeEvents(attrs, path)) == AttributePlaces(attrs, path)
  {
    if attrs != [] {
      var first := AttributeEvent(attrs[0], path);
      assert AttributeEvents(attrs, path) == [first] + AttributeEvents(attrs[1..], path);
      AttributeHoles(attrs[1..], path);
      HolesConcat([first], AttributeEvents(attrs[1..], path));
      HolesOfOne(first);
    }
  }

  lemma {:induction false} HandlerHoles(handlers: seq<string>, path: Path)
    ensures HolesOf(HandlerEvents(handlers, path)) == HandlerPlaces(handlers, path)
  {
    if handlers != [] {
      var first := EventHandler(handlers[0], path);
      assert HandlerEvents(handlers, path) == [first] + HandlerEvents(handlers[1..], path);
      HandlerHoles(handlers[1..], path);
      HolesConcat([first], HandlerEvents(handlers[1..], path));
      HolesOfOne(first);
    }
  }

  lemma OpeningHoles(node: ElementNode, path: Path)
    ensures HolesOf(OpeningEvents(node, path)) == AttributePlaces(node.attributes, path) + HandlerPlaces(node.handlers, path)
  {
    hide HolesOf, AttributeEvents, HandlerEvents, AttributePlaces, HandlerPlaces;
    var a, b, c := [ElementStart(node.tag, path)], AttributeEvents(node.attributes, path), HandlerEvents(node.handlers, path);
    HolesOfOne(a[0]);
    HolesConcat(a, b);
    HolesConcat(a + b, c);
    AttributeHoles(node.attributes, path);
    HandlerHoles(node.handlers, path);
  }

  /** The holes that the walk of an element leaves are exactly its places, in order. */
  lemma {:induction false} HolesArePlaces(node: ElementNode, path: Path)
    ensures HolesOf(MarkupEvents(node, path)) == ElementPlaces(node, path)
    decreases node, |node.children| + 1
  {
    hide HolesOf, OpeningEvents, ChildrenEvents, AttributePlaces, HandlerPlaces, KidHoles, PlacesFrom, DomCount;
    var opening, end := OpeningEvents(node, path), [ElementEnd(node.tag, node.tag in VOID_ELEMENTS)];
    OpeningHoles(node, path);
    HolesOfOne(end[0]);
    if node.tag in VOID_ELEMENTS {
      HolesConcat(opening, end);
    } else {
      var kids := ChildrenEvents(node, |node.children|, path);
      HolesConcat(opening, kids);
      HolesConcat(opening + kids, end);
      KidHolesAre(node, |node.children|, path);
      KidsArePlaces(node, 0, path);
      NoKids(node, path);
    }
  }

  lemma NoKids(node: ElementNode, path: Path)
    ensures KidHoles(node, 0, path) == [] && DomCount(node.children, 0) == 0
  {
  }

  lemma {:induction false} KidsArePlaces(node: ElementNode, i: nat, path: Path)
    requires i <= |node.children|
    ensures KidHoles(node, |node.children|, path) == KidHoles(node, i, path) + PlacesFrom(node, i, DomCount(node.children, i), path)
    decreases node, |node.children| - i
  {
    if i < |node.children| {
      KidsArePlaces(node, i + 1, path);
      ChildIsPlaces(node.children[i], path + [DomCount(node.children, i)]);
      OneChildPlaces(node, i, path);
    }
  }

  /** The places of one child. */
  function ChildPlaces(child: ChildNode, path: Path): seq<Hole> {
    match child
    case Element(e) => if e.isComponent then [Hole(path, ComponentHole(e.tag))] else ElementPlaces(e, path)
    case Content(literal, source) => if literal then [] else [Hole(path, TextHole(source))]
    case Loop => [Hole(path, RegionHole(true))]
    case Conditional => [Hole(path, RegionHole(false))]
    case _ => []
  }

  lemma {:induction false} ChildIsPlaces(child: ChildNode, path: Path)
    ensures HolesOf(ChildEvents(child, path)) == ChildPlaces(child, path)
    decreases child
  {
    match child
    case Element(e) => if e.isComponent { HolesOfOne(ComponentPlaceholder(e.tag, path)); } else { HolesArePlaces(e, path); }
    case Content(literal, text) => HolesOfOne(ChildEvents(child, path)[0]);
    case Loop => HolesOfOne(RegionPlaceholder(true, path));
    case Conditional => HolesOfOne(RegionPlaceholder(false, path));
    case _ =>
  }

  lemma OneChildPlaces(node: ElementNode, i: nat, path: Path)
    requires i < |node.children|
    requires HolesOf(ChildEvents(node.children[i], path + [DomCount(node.children, i)])) == ChildPlaces(node.children[i], path + [DomCount(node.children, i)])
    ensures KidHoles(node, i, path) + PlacesFrom(node, i, DomCount(node.children, i), path)
      == KidHoles(node, i + 1, path) + PlacesFrom(node, i + 1, DomCount(node.children, i + 1), path)
  {
    hide HolesOf, ChildEvents, ElementPlaces, IsDomProducing;
    var child, k := node.children[i], DomCount(node.children, i);
    Positions(child);
    var here, rest := ChildPlaces(child, path + [k]), PlacesFrom(node, i + 1, DomCount(node.children, i + 1), path);
    assert PlacesFrom(node, i, k, path) == here + rest;
    assert KidHoles(node, i + 1, path) == KidHoles(node, i, path) + here;
  }

  lemma Positions(child: ChildNode)
    ensures IsDomProducing(child) <==> child.Element? || child.Content? || child.Loop? || child.Conditional?
  {
  }

  lemma RootHolesArePlaces(node: ElementNode, isBuilder: bool)
    ensures HolesOf(RootEvents(node, isBuilder)) == RootPlaces(node, isBuilder)
  {
    if node.isComponent && !isBuilder {
      HolesOfOne(ComponentPlaceholder(node.tag, []));
    } else {
      HolesArePlaces(node, []);
    }
  }

  // ---------------------------------------------------------------------
  // Extraction and planning together
  // ---------------------------------------------------------------------

  function Paths(holes: seq<Hole>): seq<Path> {
    seq(|holes|, i requires 0 <= i < |holes| => holes[i].path)
  }

  function RootTree(node: ElementNode, isBuilder: bool): Tree {
    if isBuilder then MarkupTree(node) else DomTree(node)
  }

  /** Extracting a template and planning its walk: on the document the root stands
      for, the walk never steps off, and grabs the holes one after the other in the
      order they were extracted, each at its own path. */
  method PlanTemplate(node: ElementNode, isBuilder: bool) returns (holes: seq<Hole>, ops: seq<NavOp>)
    ensures holes == RootPlaces(node, isBuilder)
    ensures Execute(RootTree(node, isBuilder), ops).Some?
    ensures Execute(RootTree(node, isBuilder), ops).value.grabs == seq(|holes|, i requires 0 <= i < |holes| => (i, holes[i].path))
  {
    var html, markerIds;
    html, holes, markerIds := ExtractTemplate(node, isBuilder);
    RootHolesArePlaces(node, isBuilder);
    var paths := Paths(holes);
    ops := PlanWalk(paths);
    RootHoles(node, isBuilder);
    OrderedWalks(RootTree(node, isBuilder), holes, paths, ops);
  }

  lemma RootHoles(node: ElementNode, isBuilder: bool)
    ensures Ordered(HolesOf(RootEvents(node, isBuilder)))
    ensures AllInTree(HolesOf(RootEvents(node, isBuilder)), [], RootTree(node, isBuilder))
  {
    if !isBuilder && node.isComponent {
      ComponentAtRoot(node.tag);
    } else {
      MarkupHoles(node, []);
      MarkupInTree(node, []);
    }
  }

  /** A component at the root is a single hole, at the root. */
  lemma ComponentAtRoot(tag: string)
    ensures HolesOf([ComponentPlaceholder(tag, [])]) == [Hole([], ComponentHole(tag))]
    ensures Ordered(HolesOf([ComponentPlaceholder(tag, [])])) && AllInTree(HolesOf([ComponentPlaceholder(tag, [])]), [], Tree([]))
  {
    var es := [ComponentPlaceholder(tag, [])];
    assert es[..0] == [] && HolesOf([]) == [];
    assert HolesOf(es) == [Hole([], ComponentHole(tag))];
    AtIsInTree([Hole([], ComponentHole(tag))], [], Tree([]));
  }

  /** Holes of a tree in document order are grabbed in their own order. */
  lemma OrderedWalks(t: Tree, holes: seq<Hole>, paths: seq<Path>, ops: seq<NavOp>)
    requires Ordered(holes) && AllInTree(holes, [], t) && paths == Paths(holes) && Walks(paths, ops)
    ensures Execute(t, ops).Some?
    ensures Execute(t, ops).value.grabs == seq(|holes|, i requires 0 <= i < |holes| => (i, holes[i].path))
  {
    var sorted, at :| SortedHoles(paths, sorted) && Reaches(paths, ops, at, GrabsOf(paths, sorted));
    forall i | 0 <= i < |paths| ensures InTree(t, paths[i]) {
      assert holes[i].path[0..] == paths[i];
    }
    AlreadySorted(paths, sorted);
  }
}
