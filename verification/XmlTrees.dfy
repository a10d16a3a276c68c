/**
 Reading an SCL file: expat's events build a tree of nodes in which extension elements and free text are
 left out with everything inside them.
 */
module XmlTrees {
  import opened Results

  const SCL_NS := "http://www.iec.ch/61850/2003/SCL"

  /** Namespace and local name; expat joins them with a brace. */
  function SplitName(name: string): (string, string) {
    if name == "" then ("", "")
    else
      var n := |name| - 1;
      if name[n] == '}' then (name[..n], "")
      else
        var (ns, local) := SplitName(name[..n]);
        (ns, local + [name[n]])
  }

  /** The split is at the last brace; without one, everything is the local name. */
  lemma {:induction false} SplitNameMeans(name: string)
    ensures var (ns, local) := SplitName(name);
            && '}' !in local
            && if '}' in name then name == ns + "}" + local else ns == "" && local == name
  {
    if name != "" {
      var n := |name| - 1;
      SplitNameMeans(name[..n]);
      assert name == name[..n] + [name[n]];
    }
  }

  /** A foreign namespace, or one of the elements that only carry text and extensions. */
  predicate Skipped(name: string) {
    var (ns, local) := SplitName(name);
    (ns != "" && ns != SCL_NS) || local == "Private" || local == "Text"
  }

  type Attributes = map<string, string>

  function PlainAttributes(attrs: Attributes): Attributes {
    map k | k in attrs && '}' !in k :: attrs[k]
  }

  datatype Event = StartTag(name: string, attrs: Attributes) | EndTag | Chars(text: string)

  /** A well-formed document, as the parser sees it. */
  datatype Xml = Elem(name: string, attrs: Attributes, content: seq<Xml>) | Text(text: string)

  function Events(x: Xml): seq<Event>
    decreases x, 0
  {
    match x
    case Elem(name, attrs, content) => [StartTag(name, attrs)] + AllEvents(content) + [EndTag]
    case Text(t) => [Chars(t)]
  }

  function AllEvents(xs: seq<Xml>): seq<Event>
    decreases xs, 1
  {
    if xs == [] then [] else Events(xs[0]) + AllEvents(xs[1..])
  }

  // ---------------------------------------------------------------- pruning

  datatype Element = Element(tag: string, attrs: Attributes, text: seq<string>, children: seq<Element>)

  /** The element without skipped elements, and without the text inside those. */
  function Pruned(x: Xml): Element
    requires x.Elem?
    decreases x, 0
  {
    Element(SplitName(x.name).1, PlainAttributes(x.attrs), TextsOf(x.content), PrunedAll(x.content))
  }

  function PrunedAll(xs: seq<Xml>): seq<Element>
    decreases xs, 1
  {
    if xs == [] then []
    else (if xs[0].Elem? && !Skipped(xs[0].name) then [Pruned(xs[0])] else []) + PrunedAll(xs[1..])
  }

  function TextsOf(xs: seq<Xml>): seq<string> {
    if xs == [] then [] else (if xs[0].Text? then [xs[0].text] else []) + TextsOf(xs[1..])
  }

  // ---------------------------------------------------------------- the handlers on values

  /** The elements still open, outermost first, each without its open child; the finished root; and how
      deep inside a skipped element the parser is. */
  datatype Machine = Machine(open: seq<Element>, root: Option<Element>, skip: nat) {
    function Start(name: string, attrs: Attributes): Option<Machine> {
      if skip > 0 then Some(this.(skip := skip + 1))
      else if Skipped(name) then (if open == [] then None else Some(this.(skip := 1)))
      else Some(this.(open := open + [Element(SplitName(name).1, PlainAttributes(attrs), [], [])]))
    }

    function End(): Option<Machine> {
      if skip > 0 then Some(this.(skip := skip - 1))
      else if open == [] then None
      else
        var n := |open| - 1;
        if n == 0 then Some(Machine([], if root.None? then Some(open[0]) else root, 0))
        else Some(this.(open := open[..n - 1] + [open[n - 1].(children := open[n - 1].children + [open[n]])]))
    }

    function Characters(text: string): Machine {
      if skip > 0 || open == [] then this
      else this.(open := open[..|open| - 1] + [open[|open| - 1].(text := open[|open| - 1].text + [text])])
    }

    /** One event; None where the handler raises. */
    function Handle(e: Event): Option<Machine> {
      match e
      case StartTag(name, attrs) => Start(name, attrs)
      case EndTag => End()
      case Chars(text) => Some(Characters(text))
    }

    function Run(es: seq<Event>): Option<Machine>
      decreases |es|
    {
      if es == [] then Some(this)
      else
        var next := Handle(es[0]);
        if next.None? then None else next.value.Run(es[1..])
    }

    /** The innermost open element with more text and children. */
    function Filled(text: seq<string>, children: seq<Element>): (m: Machine)
      requires open != []
      ensures |m.open| == |open| && m.skip == skip
    {
      var top := open[|open| - 1];
      this.(open := open[..|open| - 1] + [top.(text := top.text + text, children := top.children + children)])
    }
  }

  lemma {:induction false} RunConcat(m: Machine, a: seq<Event>, b: seq<Event>)
    ensures m.Run(a + b) == if m.Run(a).None? then None else m.Run(a).value.Run(b)
    decreases |a|
  {
    if a == [] {
      assert a + b == b;
    } else {
      assert (a + b)[0] == a[0] && (a + b)[1..] == a[1..] + b;
      if m.Handle(a[0]).Some? {
        RunConcat(m.Handle(a[0]).value, a[1..], b);
      }
    }
  }

  /** Inside a skipped element nothing happens, however deep it goes. */
  lemma {:induction false} SkipsElement(m: Machine, x: Xml)
    requires m.skip > 0
    ensures m.Run(Events(x)) == Some(m)
    decreases x, 0
  {
    match x
    case Text(t) =>
      assert [Chars(t)][1..] == [];
    case Elem(name, attrs, content) =>
      var inside := m.(skip := m.skip + 1);
      SkipsAll(inside, content);
      RunConcat(m, [StartTag(name, attrs)] + AllEvents(content), [EndTag]);
      RunConcat(m, [StartTag(name, attrs)], AllEvents(content));
      OneEvent(m, StartTag(name, attrs));
      OneEvent(inside, EndTag);
  }

  lemma OneEvent(m: Machine, e: Event)
    ensures m.Run([e]) == m.Handle(e)
  {
  }

  lemma {:induction false} SkipsAll(m: Machine, xs: seq<Xml>)
    requires m.skip > 0
    ensures m.Run(AllEvents(xs)) == Some(m)
    decreases xs, 1
  {
    if xs != [] {
      SkipsElement(m, xs[0]);
      SkipsAll(m, xs[1..]);
      RunConcat(m, Events(xs[0]), AllEvents(xs[1..]));
    }
  }

  /** An element inside an open one adds its pruning to that one, or nothing. */
  lemma {:induction false} BuildsChild(m: Machine, x: Xml)
    requires m.skip == 0 && m.open != []
    ensures m.Run(Events(x)) == Some(m.Filled(TextsOf([x]), PrunedAll([x])))
    decreases x, 0
  {
    assert [x][1..] == [];
    match x
    case Text(t) =>
      OneEvent(m, Chars(t));
      assert m.open[|m.open| - 1].children + [] == m.open[|m.open| - 1].children;
      assert TextsOf([x]) == [t] && PrunedAll([x]) == [];
    case Elem(name, attrs, content) =>
      RunConcat(m, [StartTag(name, attrs)] + AllEvents(content), [EndTag]);
      RunConcat(m, [StartTag(name, attrs)], AllEvents(content));
      OneEvent(m, StartTag(name, attrs));
      if Skipped(name) {
        SkipsAll(m.(skip := 1), content);
        OneEvent(m.(skip := 1), EndTag);
        assert m.(skip := 1).(skip := 0) == m;
        FilledWithNothing(m);
      } else {
        assert TextsOf([x]) == [] && PrunedAll([x]) == [Pruned(x)];
        var inside := m.Start(name, attrs).value;
        BuildsChildren(inside, content);
        var full := inside.Filled(TextsOf(content), PrunedAll(content));
        OneEvent(full, EndTag);
        Closes(m, Element(SplitName(name).1, PlainAttributes(attrs), [], []), TextsOf(content), PrunedAll(content));
      }
  }

  lemma FilledWithNothing(m: Machine)
    requires m.open != []
    ensures m.Filled([], []) == m
  {
    var n := |m.open| - 1;
    assert m.open == m.open[..n] + [m.open[n]];
    assert m.open[n].text + [] == m.open[n].text && m.open[n].children + [] == m.open[n].children;
  }

  /** Ending the element just filled hands it to the one around it. */
  lemma Closes(m: Machine, e: Element, text: seq<string>, children: seq<Element>)
    requires m.skip == 0 && m.open != [] && e.text == [] && e.children == []
    ensures var inside := m.(open := m.open + [e]);
            inside.Filled(text, children).End() == Some(m.Filled([], [e.(text := text, children := children)]))
  {
    var inside := m.(open := m.open + [e]);
    var full := inside.Filled(text, children);
    var n := |m.open|;
    assert inside.open[..n] == m.open;
    assert [] + text == text && [] + children == children;
    assert m.open[n - 1].text + [] == m.open[n - 1].text;
    assert full.open == m.open + [e.(text := text, children := children)];
    assert full.open[..n - 1] == m.open[..n - 1] && full.open[n - 1] == m.open[n - 1];
  }

  lemma {:induction false} BuildsChildren(m: Machine, xs: seq<Xml>)
    requires m.skip == 0 && m.open != []
    ensures m.Run(AllEvents(xs)) == Some(m.Filled(TextsOf(xs), PrunedAll(xs)))
    decreases xs, 1
  {
    hide Machine.Run, Machine.Filled;
    if xs == [] {
      FilledWithNothing(m);
      assert m.Run([]) == Some(m) by { NoEvents(m); }
    } else {
      BuildsChild(m, xs[0]);
      var next := m.Filled(TextsOf([xs[0]]), PrunedAll([xs[0]]));
      BuildsChildren(next, xs[1..]);
      RunConcat(m, Events(xs[0]), AllEvents(xs[1..]));
      FilledTwice(m, TextsOf([xs[0]]), PrunedAll([xs[0]]), TextsOf(xs[1..]), PrunedAll(xs[1..]));
      HeadFirst(xs);
    }
  }

  lemma NoEvents(m: Machine)
    ensures m.Run([]) == Some(m)
  {
  }

  lemma HeadFirst(xs: seq<Xml>)
    requires xs != []
    ensures TextsOf(xs) == TextsOf([xs[0]]) + TextsOf(xs[1..])
    ensures PrunedAll(xs) == PrunedAll([xs[0]]) + PrunedAll(xs[1..])
  {
  }

  lemma FilledTwice(m: Machine, t: seq<string>, c: seq<Element>, t': seq<string>, c': seq<Element>)
    requires m.open != []
    ensures m.Filled(t, c).Filled(t', c') == m.Filled(t + t', c + c')
  {
    var n := |m.open| - 1;
    var once := m.Filled(t, c);
    assert once.open[..n] == m.open[..n];
    assert (m.open[n].text + t) + t' == m.open[n].text + (t + t');
    assert (m.open[n].children + c) + c' == m.open[n].children + (c + c');
  }

  const FRESH := Machine([], None, 0)

  /** Over the events of a whole document the handlers leave exactly the pruned tree, with nothing open
      and nothing being skipped; a document whose root is skipped is refused. */
  lemma BuildsThePruning(x: Xml)
    requires x.Elem?
    ensures FRESH.Run(Events(x)) == if Skipped(x.name) then None else Some(Machine([], Some(Pruned(x)), 0))
  {
    RunConcat(FRESH, [StartTag(x.name, x.attrs)] + AllEvents(x.content), [EndTag]);
    RunConcat(FRESH, [StartTag(x.name, x.attrs)], AllEvents(x.content));
    OneEvent(FRESH, StartTag(x.name, x.attrs));
    if !Skipped(x.name) {
      var inside := FRESH.Start(x.name, x.attrs).value;
      BuildsChildren(inside, x.content);
      var full := inside.Filled(TextsOf(x.content), PrunedAll(x.content));
      OneEvent(full, EndTag);
      assert inside.open == [Element(SplitName(x.name).1, PlainAttributes(x.attrs), [], [])];
      assert [] + TextsOf(x.content) == TextsOf(x.content) && [] + PrunedAll(x.content) == PrunedAll(x.content);
      assert full.open == [Pruned(x)];
    }
  }

  // ---------------------------------------------------------------- the handlers on nodes

  class XmlNode {
    const tag: string
    const attrs: Attributes
    var children: seq<XmlNode>
    var text: seq<string>

    constructor (tag: string, attrs: Attributes)
      ensures this.tag == tag && this.attrs == attrs && children == [] && text == []
    {
      this.tag, this.attrs, children, text := tag, attrs, [], [];
    }
  }

  /** `n` and the nodes below it, all among `closed`, are the element `e`. */
  ghost predicate IsElement(n: XmlNode, e: Element, closed: set<XmlNode>)
    reads closed
    decreases e
  {
    && n in closed && n.tag == e.tag && n.attrs == e.attrs && n.text == e.text
    && AreElements(n.children, e.children, closed)
  }

  ghost predicate AreElements(ns: seq<XmlNode>, es: seq<Element>, closed: set<XmlNode>)
    reads closed
    decreases es
  {
    |ns| == |es| && forall i :: 0 <= i < |ns| ==> IsElement(ns[i], es[i], closed)
  }

  lemma {:induction false} MoreClosed(n: XmlNode, e: Element, closed: set<XmlNode>, more: set<XmlNode>)
    requires IsElement(n, e, closed) && closed <= more
    ensures IsElement(n, e, more)
    decreases e
  {
    forall i | 0 <= i < |n.children|
      ensures IsElement(n.children[i], e.children[i], more)
    {
      MoreClosed(n.children[i], e.children[i], closed, more);
    }
  }

  lemma MoreElements(ns: seq<XmlNode>, es: seq<Element>, closed: set<XmlNode>, more: set<XmlNode>)
    requires AreElements(ns, es, closed) && closed <= more
    ensures AreElements(ns, es, more)
  {
    forall i | 0 <= i < |ns|
      ensures IsElement(ns[i], es[i], more)
    {
      MoreClosed(ns[i], es[i], closed, more);
    }
  }

  /** `n` is an open element; `inner` is the open element inside it, already its last child. */
  ghost predicate IsOpen(n: XmlNode, e: Element, inner: Option<XmlNode>, closed: set<XmlNode>)
    reads n, closed
  {
    && n.tag == e.tag && n.attrs == e.attrs && n.text == e.text
    && |n.children| == |e.children| + (if inner.Some? then 1 else 0)
    && (inner.Some? ==> n.children[|e.children|] == inner.value)
    && AreElements(n.children[..|e.children|], e.children, closed)
  }

  function Above(stack: seq<XmlNode>, k: nat): Option<XmlNode> {
    if k + 1 < |stack| then Some(stack[k + 1]) else None
  }

  /** An open element whose end is seen is finished; the one around it has it as its last child. */
  lemma Finish(n: XmlNode, e: Element, closed: set<XmlNode>)
    requires IsOpen(n, e, None, closed)
    ensures IsElement(n, e, closed + {n})
  {
    assert n.children[..|e.children|] == n.children;
    MoreElements(n.children, e.children, closed, closed + {n});
  }

  lemma StillOpen(n: XmlNode, e: Element, inner: Option<XmlNode>, closed: set<XmlNode>, more: set<XmlNode>)
    requires IsOpen(n, e, inner, closed) && closed <= more
    ensures IsOpen(n, e, inner, more)
  {
    MoreElements(n.children[..|e.children|], e.children, closed, more);
  }

  lemma HandedOver(parent: XmlNode, e: Element, n: XmlNode, child: Element, more: set<XmlNode>)
    requires IsOpen(parent, e, Some(n), more) && IsElement(n, child, more)
    ensures IsOpen(parent, e.(children := e.children + [child]), None, more)
  {
  }

  lemma NothingInside(n: XmlNode, closed: set<XmlNode>)
    requires n.children == [] && n.text == []
    ensures IsOpen(n, Element(n.tag, n.attrs, [], []), None, closed)
  {
  }

  lemma NothingOpenInside(n: XmlNode, e: Element, closed: set<XmlNode>)
    requires IsOpen(n, e, None, closed)
    ensures n.tag == e.tag && n.attrs == e.attrs && n.text == e.text && AreElements(n.children, e.children, closed)
  {
  }

  lemma TakesIn(n: XmlNode, e: Element, before: seq<XmlNode>, inner: XmlNode, closed: set<XmlNode>)
    requires n.tag == e.tag && n.attrs == e.attrs && n.text == e.text
    requires AreElements(before, e.children, closed) && n.children == before + [inner]
    ensures IsOpen(n, e, Some(inner), closed)
  {
  }

  lemma SaysMore(n: XmlNode, e: Element, text: string, closed: set<XmlNode>)
    requires n.tag == e.tag && n.attrs == e.attrs && n.text == e.text + [text] && AreElements(n.children, e.children, closed)
    ensures IsOpen(n, e.(text := e.text + [text]), None, closed)
  {
  }

  lemma SaysNothing(m: Machine, text: string)
    ensures var r := m.Characters(text);
            if m.skip > 0 || m.open == [] then r == m
            else
              var n := |m.open| - 1;
              && r.skip == m.skip && r.root == m.root && |r.open| == |m.open|
              && (forall k :: 0 <= k < n ==> r.open[k] == m.open[k])
              && r.open[n] == m.open[n].(text := m.open[n].text + [text])
  {
  }

  class TreeBuilder {
    var stack: seq<XmlNode>
    var root: seq<XmlNode>
    var skipDepth: nat
    /** What the nodes stand for, and the nodes whose end was seen. */
    ghost var machine: Machine
    ghost var closed: set<XmlNode>
    ghost var repr: set<XmlNode>

    constructor ()
      ensures Valid() && machine == FRESH && repr == {}
    {
      stack, root, skipDepth := [], [], 0;
      machine, closed, repr := FRESH, {}, {};
    }

    ghost predicate Valid()
      reads this, stack, closed
    {
      && skipDepth == machine.skip && |stack| == |machine.open|
      && (forall i, j :: 0 <= i < j < |stack| ==> stack[i] != stack[j])
      && (forall n :: n in stack ==> n in repr && n !in closed)
      && (forall k :: 0 <= k < |stack| ==> IsOpen(stack[k], machine.open[k], Above(stack, k), closed))
      && (if machine.root.Some? then root != [] && IsElement(root[0], machine.root.value, closed)
          else if stack == [] then root == []
          else root == [stack[0]])
    }

    /** The start-element handler; a skipped root is refused. */
    method Start(name: string, attrs: Attributes) returns (refused: bool)
      requires Valid()
      modifies this, repr
      ensures refused <==> old(machine).Start(name, attrs).None?
      ensures refused ==> machine == old(machine)
      ensures !refused ==> Some(machine) == old(machine).Start(name, attrs)
      ensures Valid() && fresh(repr - old(repr))
    {
      hide AreElements, IsElement, IsOpen, SplitName, PlainAttributes;
      if skipDepth > 0 {
        skipDepth := skipDepth + 1;
        machine := machine.(skip := skipDepth);
        return false;
      }
      var (ns, local) := SplitName(name);
      if (ns != "" && ns != SCL_NS) || local == "Private" || local == "Text" {
        if stack == [] {
          return true;
        }
        skipDepth := 1;
        machine := machine.(skip := 1);
        return false;
      }
      var node := new XmlNode(local, PlainAttributes(attrs));
      Push(node);
      refused := false;
    }

    /** Append a new node to the innermost open one, or make it the root, and open it. */
    method Push(node: XmlNode)
      requires Valid() && skipDepth == 0 && node.children == [] && node.text == [] && node !in stack && node !in closed
      modifies this, repr
      ensures Valid() && machine == old(machine).(open := old(machine).open + [Element(node.tag, node.attrs, [], [])])
      ensures repr == old(repr) + {node}
    {
      hide AreElements, IsElement, IsOpen;
      NothingInside(node, closed);
      if stack != [] {
        var top := stack[|stack| - 1];
        ghost var e, before := machine.open[|stack| - 1], top.children;
        NothingOpenInside(top, e, closed);
        top.children := top.children + [node];
        TakesIn(top, e, before, node, closed);
      } else {
        root := root + [node];
      }
      stack, repr := stack + [node], repr + {node};
      machine := machine.(open := machine.open + [Element(node.tag, node.attrs, [], [])]);
    }

    /** The end-element handler. */
    method End()
      requires Valid() && machine.End().Some?
      modifies this
      ensures Valid() && Some(machine) == old(machine).End() && repr == old(repr)
    {
      hide AreElements, IsElement, IsOpen;
      if skipDepth > 0 {
        skipDepth := skipDepth - 1;
        machine := machine.(skip := skipDepth);
        return;
      }
      Pop();
    }

    /** `stack.pop()`. */
    method Pop()
      requires Valid() && skipDepth == 0 && stack != []
      modifies this
      ensures Valid() && Some(machine) == old(machine).End() && repr == old(repr)
    {
      hide AreElements, IsElement, IsOpen, Machine.End, Above;
      var n := |stack| - 1;
      ghost var more, after := closed + {stack[n]}, machine.End();
      EndLast(n, more);
      stack := stack[..n];
      machine := after.value;
      closed := more;
    }

    /** What holds of the nodes once the last element is ended. */
    lemma EndLast(n: nat, more: set<XmlNode>)
      requires Valid() && skipDepth == 0 && |stack| == n + 1 && more == closed + {stack[n]}
      ensures machine.End().Some?
      ensures var m := machine.End().value;
              && m.skip == 0 && |m.open| == n
              && (forall k :: 0 <= k < n ==> IsOpen(stack[k], m.open[k], Above(stack[..n], k), more))
              && (if m.root.Some? then root != [] && IsElement(root[0], m.root.value, more) else n > 0 && root == [stack[0]])
    {
      hide AreElements, IsElement, IsOpen;
      FinishLast(n, more);
    }

    lemma FinishLast(n: nat, more: set<XmlNode>)
      requires Valid() && skipDepth == 0 && |stack| == n + 1 && more == closed + {stack[n]}
      ensures IsElement(stack[n], machine.open[n], more)
      ensures forall k :: 0 <= k < n - 1 ==> IsOpen(stack[k], machine.open[k], Some(stack[k + 1]), more)
      ensures n > 0 ==>
                var e := machine.open[n - 1];
                IsOpen(stack[n - 1], e.(children := e.children + [machine.open[n]]), None, more)
      ensures machine.root.Some? ==> IsElement(root[0], machine.root.value, more)
    {
      hide AreElements, IsElement, IsOpen;
      Finish(stack[n], machine.open[n], closed);
      forall k | 0 <= k < n
        ensures IsOpen(stack[k], machine.open[k], Some(stack[k + 1]), more)
      {
        StillOpen(stack[k], machine.open[k], Some(stack[k + 1]), closed, more);
      }
      if machine.root.Some? {
        MoreClosed(root[0], machine.root.value, closed, more);
      }
      if n > 0 {
        HandedOver(stack[n - 1], machine.open[n - 1], stack[n], machine.open[n], more);
      }
    }

    /** The character-data handler. */
    method Characters(text: string)
      requires Valid()
      modifies this, repr
      ensures Valid() && machine == old(machine).Characters(text)
      ensures repr == old(repr)
    {
      hide AreElements, IsElement, IsOpen, Machine.Characters;
      SaysNothing(machine, text);
      if skipDepth == 0 && stack != [] {
        var n := |stack| - 1;
        var top := stack[n];
        ghost var e := machine.open[n];
        NothingOpenInside(top, e, closed);
        top.text := top.text + [text];
        SaysMore(top, e, text, closed);
        machine := machine.Characters(text);
      }
    }
  }

  lemma RootFirst(x: Xml)
    requires x.Elem?
    ensures Events(x) != [] && Events(x)[0] == StartTag(x.name, x.attrs)
    ensures Skipped(x.name) ==> FRESH.Start(x.name, x.attrs).None?
    ensures !Skipped(x.name) ==> FRESH.Start(x.name, x.attrs).Some?
  {
  }

  datatype XmlError = NotScl | EmptyDocument

  /** The handlers over the events of a well-formed document: the root is the pruned tree, nothing is
      left open and nothing is being skipped. */
  method Parse(events: seq<Event>, ghost document: Xml) returns (r: Result<XmlNode, XmlError>, builder: TreeBuilder)
    requires document.Elem? && events == Events(document)
    ensures builder.Valid()
    ensures Skipped(document.name) ==> r == Err(NotScl)
    ensures !Skipped(document.name) ==>
              r.Ok? && IsElement(r.value, Pruned(document), builder.closed) && builder.stack == [] && builder.skipDepth == 0
  {
    hide Machine.Start, Machine.End, Machine.Characters, IsElement, IsOpen, Pruned, Events;
    builder := new TreeBuilder();
    BuildsThePruning(document);
    RootFirst(document);
    assert events[0..] == events;
    for i := 0 to |events|
      invariant fresh(builder) && fresh(builder.repr) && builder.Valid()
      invariant (i == 0 ==> builder.machine == FRESH) && (Skipped(document.name) ==> i == 0)
      invariant builder.machine.Run(events[i..]) == if Skipped(document.name) then None else Some(Machine([], Some(Pruned(document)), 0))
    {
      assert events[i..][0] == events[i] && events[i..][1..] == events[i + 1..];
      match events[i] {
        case StartTag(name, attrs) =>
          var refused := builder.Start(name, attrs);
          if refused {
            return Err(NotScl), builder;
          }
        case EndTag =>
          builder.End();
        case Chars(text) =>
          builder.Characters(text);
      }
    }
    assert events[|events|..] == [];
    if builder.root == [] {
      return Err(EmptyDocument), builder;
    }
    r := Ok(builder.root[0]);
  }
}
