/**
 * The XML emission primitive: the stream of SAX-style calls the feed
 * serializers make (startDocument, startElement, characters, a raw CDATA
 * write, endElement), the element tree that such a stream denotes, and the
 * writer object that records the calls.
 */
module Xml {
  import opened Wrappers

  /** One call on the XML generator, as it reaches the output stream. */
  datatype Event =
    | Prolog                                            // startDocument(): the XML declaration
    | Start(name: string, attrs: map<string, string>)   // startElement(name, attrs)
    | Chars(text: string)                               // characters(text), entity-escaped
    | CData(text: string)                               // stream.write('<![CDATA[...]]>')
    | End(name: string)                                 // endElement(name)

  /** An XML tree: what a balanced stretch of events stands for. */
  datatype Node =
    | Element(name: string, attrs: map<string, string>, kids: seq<Node>)
    | CharData(text: string)
    | CDataSection(text: string)

  /** The events that write one node. */
  function Emit(n: Node): seq<Event>
  {
    match n
    case Element(name, attrs, kids) => [Start(name, attrs)] + EmitAll(kids) + [End(name)]
    case CharData(s) => [Chars(s)]
    case CDataSection(s) => [CData(s)]
  }

  /** The events that write a sequence of sibling nodes, in order. */
  function EmitAll(ns: seq<Node>): seq<Event>
  {
    if ns == [] then [] else Emit(ns[0]) + EmitAll(ns[1..])
  }

  lemma {:induction false} EmitAllAppend(a: seq<Node>, b: seq<Node>)
    ensures EmitAll(a + b) == EmitAll(a) + EmitAll(b)
  {
    if a == [] {
      assert a + b == b;
    } else {
      assert (a + b)[0] == a[0];
      assert (a + b)[1..] == a[1..] + b;
      EmitAllAppend(a[1..], b);
    }
  }

  lemma {:induction false} EmitAllOne(n: Node)
    ensures EmitAll([n]) == Emit(n)
  {
    assert [n][1..] == [];
  }

  /** The events of an element are its start tag, its children's events and its end tag. */
  lemma {:induction false} EmitElement(name: string, attrs: map<string, string>, kids: seq<Node>)
    ensures EmitAll([Element(name, attrs, kids)]) == [Start(name, attrs)] + EmitAll(kids) + [End(name)]
  {
    EmitAllOne(Element(name, attrs, kids));
  }

  /** The elements named `name` among the sibling nodes `ns`, in order. */
  function Named(ns: seq<Node>, name: string): (r: seq<Node>)
    ensures forall i :: 0 <= i < |r| ==> r[i].Element? && r[i].name == name
    ensures |r| <= |ns|
  {
    if ns == [] then []
    else (if ns[0].Element? && ns[0].name == name then [ns[0]] else []) + Named(ns[1..], name)
  }

  lemma {:induction false} NamedAppend(a: seq<Node>, b: seq<Node>, name: string)
    ensures Named(a + b, name) == Named(a, name) + Named(b, name)
  {
    if a == [] {
      assert a + b == b;
    } else {
      assert (a + b)[0] == a[0];
      assert (a + b)[1..] == a[1..] + b;
      NamedAppend(a[1..], b, name);
    }
  }

  lemma {:induction false} NamedAll(ns: seq<Node>, name: string)
    requires forall i :: 0 <= i < |ns| ==> ns[i].Element? && ns[i].name == name
    ensures Named(ns, name) == ns
  {
    if ns != [] {
      NamedAll(ns[1..], name);
      assert [ns[0]] + ns[1..] == ns;
    }
  }

  lemma {:induction false} NamedNone(ns: seq<Node>, name: string)
    requires forall i :: 0 <= i < |ns| ==> !(ns[i].Element? && ns[i].name == name)
    ensures Named(ns, name) == []
  {
    if ns != [] {
      NamedNone(ns[1..], name);
    }
  }

  lemma {:induction false} NamedOne(n: Node, name: string)
    ensures Named([n], name) == if n.Element? && n.name == name then [n] else []
  {
    assert [n][1..] == [];
  }

  lemma {:induction false} Named3(a: seq<Node>, b: seq<Node>, c: seq<Node>, name: string)
    ensures Named(a + b + c, name) == Named(a, name) + Named(b, name) + Named(c, name)
  {
    NamedAppend(a + b, c, name);
    NamedAppend(a, b, name);
  }

  /** The children named `name` of a three-run list whose middle run is exactly the named ones. */
  lemma {:induction false} NamedMiddle(a: seq<Node>, b: seq<Node>, c: seq<Node>, name: string)
    requires forall i :: 0 <= i < |a| ==> !(a[i].Element? && a[i].name == name)
    requires forall i :: 0 <= i < |b| ==> b[i].Element? && b[i].name == name
    requires forall i :: 0 <= i < |c| ==> !(c[i].Element? && c[i].name == name)
    ensures Named(a + b + c, name) == b
  {
    NamedAppend(a + b, c, name);
    NamedAppend(a, b, name);
    NamedNone(a, name);
    NamedAll(b, name);
    NamedNone(c, name);
  }

  /** The same, when the named ones are the last run. */
  lemma {:induction false} NamedLast(a: seq<Node>, b: seq<Node>, c: seq<Node>, name: string)
    requires forall i :: 0 <= i < |a| ==> !(a[i].Element? && a[i].name == name)
    requires forall i :: 0 <= i < |b| ==> !(b[i].Element? && b[i].name == name)
    requires forall i :: 0 <= i < |c| ==> c[i].Element? && c[i].name == name
    ensures Named(a + b + c, name) == c
  {
    NamedAppend(a + b, c, name);
    NamedAppend(a, b, name);
    NamedNone(a, name);
    NamedNone(b, name);
    NamedAll(c, name);
  }

  /** A sequence that agrees with `zs` on its first |zs| places and holds `y` after them is `zs + [y]`. */
  lemma {:induction false} SeqSnoc<T>(ys: seq<T>, zs: seq<T>, y: T)
    requires |ys| == |zs| + 1 && ys[|zs|] == y
    requires forall j :: 0 <= j < |zs| ==> ys[j] == zs[j]
    ensures ys == zs + [y]
  {
  }

  /** Writing an element whose children come in three runs, after `before`. */
  lemma {:induction false} EmitElement3(before: seq<Event>, name: string, attrs: map<string, string>, a: seq<Node>, b: seq<Node>, c: seq<Node>)
    ensures before + [Start(name, attrs)] + EmitAll(a) + EmitAll(b) + EmitAll(c) + [End(name)] ==
      before + EmitAll([Element(name, attrs, a + b + c)])
  {
    EmitElement(name, attrs, a + b + c);
    EmitAllAppend(a + b, c);
    EmitAllAppend(a, b);
    var s := [Start(name, attrs)];
    var e := [End(name)];
    var ea, eb, ec := EmitAll(a), EmitAll(b), EmitAll(c);
    Concat3(before + s, ea, eb);
    Concat3(before + s, ea + eb, ec);
    Concat3(before, s, ea + eb + ec);
    Concat3(before, s + (ea + eb + ec), e);
  }

  /** Writing an element that holds one element, after `before`. */
  lemma {:induction false} EmitNested(before: seq<Event>, outer: string, outerAttrs: map<string, string>,
                   inner: string, innerAttrs: map<string, string>, kids: seq<Node>)
    ensures before + [Start(outer, outerAttrs)] + [Start(inner, innerAttrs)] + EmitAll(kids) + [End(inner)] + [End(outer)] ==
      before + EmitAll([Element(outer, outerAttrs, [Element(inner, innerAttrs, kids)])])
  {
    EmitElement(inner, innerAttrs, kids);
    EmitElement(outer, outerAttrs, [Element(inner, innerAttrs, kids)]);
  }

  /** Writing one element around `kids`, after `before`. */
  lemma {:induction false} EmitWrapped(before: seq<Event>, name: string, attrs: map<string, string>, kids: seq<Node>)
    ensures before + [Start(name, attrs)] + EmitAll(kids) + [End(name)] ==
      before + EmitAll([Element(name, attrs, kids)])
  {
    EmitElement(name, attrs, kids);
  }

  /** Two runs of siblings written one after the other. */
  lemma {:induction false} EmitPair(before: seq<Event>, a: seq<Node>, b: seq<Node>)
    ensures before + EmitAll(a) + EmitAll(b) == before + EmitAll(a + b)
  {
    EmitAllAppend(a, b);
    Concat3(before, EmitAll(a), EmitAll(b));
  }

  /** Appending one node appends its events. */
  lemma {:induction false} EmitSnoc(before: seq<Event>, ns: seq<Node>, n: Node)
    ensures before + EmitAll(ns) + EmitAll([n]) == before + EmitAll(ns + [n])
  {
    EmitPair(before, ns, [n]);
  }

  lemma {:induction false} Concat3<T>(a: seq<T>, b: seq<T>, c: seq<T>)
    ensures a + b + c == a + (b + c)
  {
  }

  /**
   * Reads a sequence of sibling nodes back from the front of `evs`, up to the
   * first unmatched end tag or the end of the input; returns the nodes and
   * the unread rest. None when the events are not properly nested.
   */
  function ParseForest(evs: seq<Event>): (r: Option<(seq<Node>, seq<Event>)>)
    ensures r.Some? ==> |r.value.1| <= |evs|
    ensures r.Some? ==> r.value.1 == [] || r.value.1[0].End?
    decreases |evs|, 1
  {
    if evs == [] || evs[0].End? then Some(([], evs))
    else
      match ParseNode(evs)
      case None => None
      case Some(head) =>
        match ParseForest(head.1)
        case None => None
        case Some(tail) => Some(([head.0] + tail.0, tail.1))
  }

  /** Reads one node from the front of `evs`, which does not start with an end tag. */
  function ParseNode(evs: seq<Event>): (r: Option<(Node, seq<Event>)>)
    requires evs != []
    ensures r.Some? ==> |r.value.1| < |evs|
    decreases |evs|, 0
  {
    match evs[0]
    case Chars(s) => Some((CharData(s), evs[1..]))
    case CData(s) => Some((CDataSection(s), evs[1..]))
    case Start(name, attrs) =>
      (match ParseForest(evs[1..])
       case None => None
       case Some(inner) =>
         if inner.1 != [] && inner.1[0] == End(name) then Some((Element(name, attrs, inner.0), inner.1[1..]))
         else None)
    case _ => None
  }

  /** The tree a whole event sequence denotes, if it is properly nested. */
  function Parse(evs: seq<Event>): Option<seq<Node>>
  {
    match ParseForest(evs)
    case Some((ns, rest)) => if rest == [] then Some(ns) else None
    case None => None
  }

  /** Reading back what was written gives the same nodes, and stops at the next end tag. */
  lemma {:induction false} ParseEmitAll(ns: seq<Node>, rest: seq<Event>)
    requires rest == [] || rest[0].End?
    ensures ParseForest(EmitAll(ns) + rest) == Some((ns, rest))
    decreases |EmitAll(ns)|, 1
  {
    if ns == [] {
      assert EmitAll(ns) + rest == rest;
    } else {
      var after := EmitAll(ns[1..]) + rest;
      var evs := EmitAll(ns) + rest;
      Concat3(Emit(ns[0]), EmitAll(ns[1..]), rest);
      ParseEmitNode(ns[0], after);
      ParseEmitAll(ns[1..], rest);
      assert [ns[0]] + ns[1..] == ns;
    }
  }

  lemma {:induction false} ParseEmitNode(n: Node, after: seq<Event>)
    ensures ParseNode(Emit(n) + after) == Some((n, after))
    decreases |Emit(n)|, 0
  {
    var evs := Emit(n) + after;
    match n
    case CharData(s) =>
      assert evs[0] == Chars(s) && evs[1..] == after;
    case CDataSection(s) =>
      assert evs[0] == CData(s) && evs[1..] == after;
    case Element(name, attrs, kids) =>
      var tail := [End(name)] + after;
      assert evs[0] == Start(name, attrs) && evs[1..] == EmitAll(kids) + tail;
      ParseEmitAll(kids, tail);
      assert tail[0] == End(name) && tail[1..] == after;
  }

  /** Whatever the parser accepts is exactly the emission of what it returns. */
  lemma {:induction false} ParseForestSound(evs: seq<Event>, ns: seq<Node>, rest: seq<Event>)
    requires ParseForest(evs) == Some((ns, rest))
    ensures evs == EmitAll(ns) + rest
    decreases |evs|, 1
  {
    if evs == [] || evs[0].End? {
      assert ns == [] && rest == evs;
    } else {
      var head := ParseNode(evs).value;
      var tail := ParseForest(head.1).value;
      assert ns == [head.0] + tail.0 && rest == tail.1;
      ParseNodeSound(evs, head.0, head.1);
      ParseForestSound(head.1, tail.0, tail.1);
      assert ns[0] == head.0 && ns[1..] == tail.0;
      assert EmitAll(ns) == Emit(head.0) + EmitAll(tail.0);
      assert evs == Emit(head.0) + (EmitAll(tail.0) + tail.1);
    }
  }

  lemma {:induction false} ParseNodeSound(evs: seq<Event>, n: Node, rest: seq<Event>)
    requires evs != [] && ParseNode(evs) == Some((n, rest))
    ensures evs == Emit(n) + rest
    decreases |evs|, 0
  {
    match evs[0]
    case Chars(s) =>
      assert evs == [evs[0]] + evs[1..];
    case CData(s) =>
      assert evs == [evs[0]] + evs[1..];
    case Start(name, attrs) =>
      var inner := ParseForest(evs[1..]).value;
      var kids := inner.0;
      var after := inner.1;
      ParseForestSound(evs[1..], kids, after);
      EmitStartSplit(evs, name, attrs, kids, after);
  }

  /** An element's events, followed by more, taken apart at its end tag. */
  lemma {:induction false} EmitStartSplit(evs: seq<Event>, name: string, attrs: map<string, string>, kids: seq<Node>, after: seq<Event>)
    requires evs != [] && evs[0] == Start(name, attrs) && evs[1..] == EmitAll(kids) + after
    requires after != [] && after[0] == End(name)
    ensures evs == Emit(Element(name, attrs, kids)) + after[1..]
  {
    assert evs == [evs[0]] + evs[1..];
    assert after == [End(name)] + after[1..];
    assert evs == [Start(name, attrs)] + (EmitAll(kids) + ([End(name)] + after[1..]));
  }

  /** A stream the parser reads completely is the emission of the nodes it returns. */
  lemma {:induction false} ParseSound(evs: seq<Event>, ns: seq<Node>)
    requires Parse(evs) == Some(ns)
    ensures evs == EmitAll(ns)
  {
    var r := ParseForest(evs).value;
    ParseForestSound(evs, r.0, r.1);
    assert evs == EmitAll(ns) + [];
  }

  /** Emission is injective: the event stream determines the tree. */
  lemma {:induction false} ParseRoundTrip(ns: seq<Node>)
    ensures Parse(EmitAll(ns)) == Some(ns)
  {
    ParseEmitAll(ns, []);
    assert EmitAll(ns) + [] == EmitAll(ns);
  }

  /**
   * The writer's view of nesting: the stack of open element names after the
   * events `evs`, starting from `open`; None when an end tag does not match
   * the innermost open element, when text appears outside every element, or
   * when a second declaration appears.
   */
  function Nest(evs: seq<Event>, open: seq<string>): Option<seq<string>>
    decreases |evs|
  {
    if evs == [] then Some(open)
    else
      match evs[0]
      case Prolog => None
      case Start(name, _) => Nest(evs[1..], open + [name])
      case End(name) =>
        if open != [] && open[|open| - 1] == name then Nest(evs[1..], open[..|open| - 1]) else None
      case Chars(_) => if open != [] then Nest(evs[1..], open) else None
      case CData(_) => if open != [] then Nest(evs[1..], open) else None
  }

  lemma {:induction false} NestAppend(a: seq<Event>, b: seq<Event>, open: seq<string>)
    ensures Nest(a + b, open) == match Nest(a, open) case None => None case Some(o) => Nest(b, o)
    decreases |a|
  {
    if a == [] {
      assert a + b == b;
    } else {
      assert (a + b)[0] == a[0];
      assert (a + b)[1..] == a[1..] + b;
      match a[0]
      case Prolog =>
      case Start(name, _) => NestAppend(a[1..], b, open + [name]);
      case End(name) =>
        if open != [] && open[|open| - 1] == name {
          NestAppend(a[1..], b, open[..|open| - 1]);
        }
      case Chars(_) => if open != [] { NestAppend(a[1..], b, open); }
      case CData(_) => if open != [] { NestAppend(a[1..], b, open); }
    }
  }

  /** Emitted trees are balanced: inside an open element they leave the stack as it was. */
  lemma {:induction false} NestEmitAll(ns: seq<Node>, open: seq<string>)
    requires open != []
    ensures Nest(EmitAll(ns), open) == Some(open)
    decreases |EmitAll(ns)|, 1
  {
    if ns != [] {
      NestAppend(Emit(ns[0]), EmitAll(ns[1..]), open);
      NestEmitAll(ns[1..], open);
      match ns[0]
      case CharData(_) =>
      case CDataSection(_) =>
      case Element(name, attrs, kids) =>
        NestElement(name, attrs, kids, open);
    }
  }

  /** An element is balanced wherever it stands, even outside every element. */
  lemma {:induction false} NestElement(name: string, attrs: map<string, string>, kids: seq<Node>, open: seq<string>)
    ensures Nest(Emit(Element(name, attrs, kids)), open) == Some(open)
    decreases |EmitAll(kids)| + 2, 0
  {
    var inner := open + [name];
    assert Emit(Element(name, attrs, kids))[1..] == EmitAll(kids) + [End(name)];
    NestAppend(EmitAll(kids), [End(name)], inner);
    NestEmitAll(kids, inner);
    assert inner[..|inner| - 1] == open;
  }

  /** Writing whole trees inside an open element leaves the same elements open. */
  lemma {:induction false} NestThenTrees(prefix: seq<Event>, ns: seq<Node>, open: seq<string>)
    requires Nest(prefix, []) == Some(open) && open != []
    ensures Nest(prefix + EmitAll(ns), []) == Some(open)
  {
    NestAppend(prefix, EmitAll(ns), []);
    NestEmitAll(ns, open);
  }

  /** A start tag opens one more element. */
  lemma {:induction false} NestThenStart(prefix: seq<Event>, name: string, attrs: map<string, string>, open: seq<string>)
    requires Nest(prefix, []) == Some(open)
    ensures Nest(prefix + [Start(name, attrs)], []) == Some(open + [name])
  {
    NestAppend(prefix, [Start(name, attrs)], []);
  }

  /** A root, whole trees inside it, and one more start tag: two elements left open. */
  lemma {:induction false} NestRootThenCut(root: string, rootAttrs: map<string, string>, ns: seq<Node>, cut: string, cutAttrs: map<string, string>)
    ensures Nest([Start(root, rootAttrs)] + EmitAll(ns) + [Start(cut, cutAttrs)], []) == Some([root, cut])
  {
    var r := [Start(root, rootAttrs)];
    assert r[1..] == [] && [] + [root] == [root];
    assert Nest(r, []) == Some([root]);
    NestThenTrees(r, ns, [root]);
    NestThenStart(r + EmitAll(ns), cut, cutAttrs, [root]);
    assert [root] + [cut] == [root, cut];
  }

  /**
   * A stream cut short three levels below its root: the root, an element, a
   * child of that element and a child of that child are left open.
   */
  lemma {:induction false} NestFourOpen(root: string, rootAttrs: map<string, string>, done: seq<Node>,
                     outer: string, outerAttrs: map<string, string>, mid1: seq<Node>, mid2: seq<Node>,
                     inner: string, innerAttrs: map<string, string>, inside: seq<Node>,
                     cut: string, cutAttrs: map<string, string>,
                     innerOut: seq<Event>, outerOut: seq<Event>, rootOut: seq<Event>, body: seq<Event>)
    requires innerOut == EmitAll(inside) + [Start(cut, cutAttrs)]
    requires outerOut == [Start(outer, outerAttrs)] + EmitAll(mid1) + EmitAll(mid2) + [Start(inner, innerAttrs)] + innerOut
    requires rootOut == EmitAll(done) + outerOut
    requires body == [Start(root, rootAttrs)] + rootOut + []
    ensures Nest(body, []) == Some([root, outer, inner, cut])
  {
    assert body == [Start(root, rootAttrs)] + rootOut;
    NestStartIn(root, rootAttrs, [], rootOut);
    assert [] + [root] == [root];
    NestTreesIn(done, [root], outerOut);
    NestOuterOpen(outer, outerAttrs, mid1, mid2, inner, innerAttrs, inside, cut, cutAttrs, innerOut, outerOut, [root]);
    assert [root] + [outer, inner, cut] == [root, outer, inner, cut];
  }

  lemma {:induction false} NestOuterOpen(outer: string, outerAttrs: map<string, string>, mid1: seq<Node>, mid2: seq<Node>,
                      inner: string, innerAttrs: map<string, string>, inside: seq<Node>,
                      cut: string, cutAttrs: map<string, string>,
                      innerOut: seq<Event>, outerOut: seq<Event>, open: seq<string>)
    requires innerOut == EmitAll(inside) + [Start(cut, cutAttrs)]
    requires outerOut == [Start(outer, outerAttrs)] + EmitAll(mid1) + EmitAll(mid2) + [Start(inner, innerAttrs)] + innerOut
    ensures Nest(outerOut, open) == Some(open + [outer, inner, cut])
  {
    var si := [Start(inner, innerAttrs)];
    var e1 := EmitAll(mid1);
    var e2 := EmitAll(mid2);
    var o1 := open + [outer];
    var o2 := o1 + [inner];
    assert outerOut == [Start(outer, outerAttrs)] + (e1 + (e2 + (si + innerOut)));
    NestStartIn(outer, outerAttrs, open, e1 + (e2 + (si + innerOut)));
    NestTreesIn(mid1, o1, e2 + (si + innerOut));
    NestTreesIn(mid2, o1, si + innerOut);
    NestStartIn(inner, innerAttrs, o1, innerOut);
    NestTreesIn(inside, o2, [Start(cut, cutAttrs)]);
    NestStartIn(cut, cutAttrs, o2, []);
    assert [Start(cut, cutAttrs)] + [] == [Start(cut, cutAttrs)];
    assert o2 + [cut] == open + [outer, inner, cut];
  }

  /** Whole trees inside an open element leave the stack for what follows as it was. */
  lemma {:induction false} NestTreesIn(ns: seq<Node>, open: seq<string>, after: seq<Event>)
    requires open != []
    ensures Nest(EmitAll(ns) + after, open) == Nest(after, open)
  {
    NestAppend(EmitAll(ns), after, open);
    NestEmitAll(ns, open);
  }

  /** A start tag pushes its name for what follows. */
  lemma {:induction false} NestStartIn(name: string, attrs: map<string, string>, open: seq<string>, after: seq<Event>)
    ensures Nest([Start(name, attrs)] + after, open) == Nest(after, open + [name])
  {
    assert ([Start(name, attrs)] + after)[0] == Start(name, attrs);
    assert ([Start(name, attrs)] + after)[1..] == after;
  }

  lemma {:induction false} EventsAssoc(a: seq<Event>, b: seq<Event>, c: seq<Event>, d: seq<Event>)
    ensures a + b + c + d == a + (b + c + d)
    ensures d == [] ==> a + b + c == a + (b + c + d)
  {
  }

  /** Closing the element just opened gives back the stack before it. */
  lemma {:induction false} DropLast(open: seq<string>, name: string)
    ensures (open + [name])[..|open + [name]| - 1] == open
  {
  }

  /** A complete document: one declaration, then a properly nested, closed body. */
  predicate WellFormedDocument(evs: seq<Event>)
  {
    |evs| > 0 && evs[0] == Prolog && Nest(evs[1..], []) == Some([])
  }

  /** The declaration followed by a single root element is a complete document. */
  lemma {:induction false} DocumentOfRoot(root: Node)
    requires root.Element?
    ensures WellFormedDocument([Prolog] + Emit(root))
    ensures Parse(([Prolog] + Emit(root))[1..]) == Some([root])
  {
    assert ([Prolog] + Emit(root))[1..] == Emit(root);
    NestElement(root.name, root.attrs, root.kids, []);
    EmitAllOne(root);
    ParseRoundTrip([root]);
  }

  /**
   * The XML generator and its output stream. `events` is everything written so
   * far; `open` is the stack of elements started and not yet ended.
   */
  class XmlWriter {
    var events: seq<Event>
    var open: seq<string>

    /** The document has been started and everything written since is properly nested. */
    ghost predicate Valid()
      reads this
    {
      |events| > 0 && events[0] == Prolog && Nest(events[1..], []) == Some(open)
    }

    constructor ()
      ensures events == [] && open == []
    {
      events := [];
      open := [];
    }

    method StartDocument()
      requires events == [] && open == []
      modifies this
      ensures Valid()
      ensures events == [Prolog] && open == []
    {
      events := [Prolog];
    }

    method StartElement(name: string, attrs: map<string, string>)
      requires Valid()
      modifies this
      ensures Valid()
      ensures events == old(events) + [Start(name, attrs)]
      ensures open == old(open) + [name]
    {
      NestAppend(events[1..], [Start(name, attrs)], []);
      assert (events + [Start(name, attrs)])[1..] == events[1..] + [Start(name, attrs)];
      events := events + [Start(name, attrs)];
      open := open + [name];
    }

    /** Ending an element other than the innermost open one is a programming error. */
    method EndElement(name: string)
      requires Valid()
      requires open != [] && open[|open| - 1] == name
      modifies this
      ensures Valid()
      ensures events == old(events) + [End(name)]
      ensures open == old(open)[..|old(open)| - 1]
    {
      NestAppend(events[1..], [End(name)], []);
      assert (events + [End(name)])[1..] == events[1..] + [End(name)];
      events := events + [End(name)];
      open := open[..|open| - 1];
    }

    method Characters(text: string)
      requires Valid() && open != []
      modifies this
      ensures Valid()
      ensures events == old(events) + [Chars(text)] && open == old(open)
    {
      NestAppend(events[1..], [Chars(text)], []);
      assert (events + [Chars(text)])[1..] == events[1..] + [Chars(text)];
      events := events + [Chars(text)];
    }

    /** The raw `<![CDATA[...]]>` write that bypasses the generator's escaping. */
    method WriteCData(text: string)
      requires Valid() && open != []
      modifies this
      ensures Valid()
      ensures events == old(events) + [CData(text)] && open == old(open)
    {
      NestAppend(events[1..], [CData(text)], []);
      assert (events + [CData(text)])[1..] == events[1..] + [CData(text)];
      events := events + [CData(text)];
    }

    /** endDocument() only flushes the stream; the document must be closed by then. */
    method EndDocument()
      requires Valid() && open == []
      ensures WellFormedDocument(events)
    {
    }
  }
}
