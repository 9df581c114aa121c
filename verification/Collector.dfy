/**
 The semantic-tree collector: one recursive walk over a DOM tree that numbers the nodes it keeps,
 marks their elements, lists the headings, and stops at a node limit.  Computed facts about an
 element (role, style, geometry, accessible name) are fields of it.
 */
module Collector {
  import opened Wrappers
  import opened Strings

  // ─── Elements ─────────────────────────────────────────────────

  datatype Rect = Rect(x: real, y: real, width: real, height: real)

  datatype Element = Element(
    tag: string,
    displayNone: bool,
    visibilityHidden: bool,
    hiddenAttr: bool,
    ariaHidden: bool,
    inert: bool,
    rect: Rect,
    role: string,
    roleAttr: Option<string>,
    interactiveRole: bool,
    onclick: bool,
    tabindex: Option<int>,
    contenteditable: bool,
    namingAttr: bool,       // aria-label, aria-labelledby or title is present
    name: Option<string>,
    value: Option<string>,
    markdownVisible: bool,
    children: seq<Element>)

  /** The element at a locator: the child indices that lead to it. */
  type Locator = seq<nat>

  function Find(root: Element, at: Locator): Option<Element>
    decreases |at|
  {
    if at == [] then Some(root)
    else if at[0] >= |root.children| then None
    else Find(root.children[at[0]], at[1..])
  }

  datatype Options = Options(
    maxNodes: nat,
    includeHidden: bool,
    includeGeometry: bool,
    interactiveOnly: bool,
    includeNonInteractive: bool,
    includePath: bool)

  datatype Viewport = Viewport(width: real, height: real)

  // ─── What becomes of an element ───────────────────────────────

  predicate Excluded(tag: string) {
    tag in ["script", "style", "meta", "link", "template", "noscript", "head"]
  }

  predicate Hidden(e: Element) {
    e.hiddenAttr || e.ariaHidden || e.inert || e.displayNone || e.visibilityHidden
  }

  predicate NaturallyFocusable(e: Element) {
    e.tag in ["input", "select", "textarea", "button", "a"] || (e.tabindex.Some? && e.tabindex.value >= 0)
  }

  predicate Interactive(e: Element) {
    e.interactiveRole || e.onclick || NaturallyFocusable(e) || e.contenteditable
  }

  predicate ZeroSize(e: Element) {
    (e.rect.width <= 0.0 || e.rect.height <= 0.0) && !Interactive(e)
  }

  predicate EmptyGeneric(e: Element) {
    e.role == "generic" && e.name.None? && e.value.None? && e.children == [] && !e.markdownVisible
  }

  /** A drawing: an `svg` with nothing that makes it more than one. */
  predicate Drawing(e: Element) {
    e.tag == "svg" && e.roleAttr.None? && !Interactive(e) && !e.namingAttr
  }

  predicate Barred(e: Element, opts: Options) {
    Excluded(e.tag) || (Hidden(e) && !opts.includeHidden) || (opts.includeGeometry && ZeroSize(e))
  }

  predicate OnlyInteractive(opts: Options) {
    opts.interactiveOnly && !opts.includeNonInteractive
  }

  /** Kept: the walk makes a node for the element when it gets there. */
  predicate Kept(e: Element, opts: Options) {
    !Barred(e, opts) && (OnlyInteractive(opts) ==> Interactive(e)) && !EmptyGeneric(e)
  }

  /** Open: the walk goes on to the children. */
  predicate Open(e: Element, opts: Options) {
    !Barred(e, opts) && (OnlyInteractive(opts) || !Drawing(e))
  }

  // ─── The walk without a limit ─────────────────────────────────

  datatype Visit = Visit(at: Locator, element: Element, parentPath: string)

  function ChildPath(parentPath: string, e: Element, opts: Options): string {
    if opts.includePath then parentPath + e.tag + "/" else ""
  }

  function Walk(e: Element, at: Locator, parentPath: string, opts: Options): seq<Visit>
    decreases e, |e.children| + 1
  {
    (if Kept(e, opts) then [Visit(at, e, parentPath)] else [])
    + (if Open(e, opts) then WalkChildren(e, |e.children|, at, ChildPath(parentPath, e, opts), opts) else [])
  }

  /** The walks of the first `n` children, one after the other. */
  function WalkChildren(e: Element, n: nat, at: Locator, path: string, opts: Options): seq<Visit>
    requires n <= |e.children|
    decreases e, n
  {
    if n == 0 then []
    else WalkChildren(e, n - 1, at, path, opts) + Walk(e.children[n - 1], at + [n - 1], path, opts)
  }

  // ─── Snapshots ────────────────────────────────────────────────

  datatype SemanticNode = SemanticNode(
    refId: string,
    role: string,
    name: Option<string>,
    tag: string,
    value: Option<string>,
    rect: Option<Rect>,
    inViewport: bool,
    visible: bool,
    path: Option<string>)

  datatype OutlineNode = OutlineNode(name: string, refId: string)

  datatype Snapshot = Snapshot(nodes: seq<SemanticNode>, outline: Option<seq<OutlineNode>>)

  function RefOf(n: nat): string {
    "e" + Decimal(n)
  }

  predicate InViewport(r: Rect, view: Viewport) {
    r.x + r.width > 0.0 && r.y + r.height > 0.0 && r.x < view.width && r.y < view.height
  }

  function NodeOf(v: Visit, n: nat, opts: Options, view: Viewport): SemanticNode {
    var e := v.element;
    SemanticNode(RefOf(n), e.role, e.name, e.tag, e.value,
                 if opts.includeGeometry then Some(e.rect) else None,
                 opts.includeGeometry && InViewport(e.rect, view),
                 !Hidden(e),
                 if opts.includePath then Some(v.parentPath + e.tag) else None)
  }

  function NodesOf(visits: seq<Visit>, opts: Options, view: Viewport): (nodes: seq<SemanticNode>)
    ensures |nodes| == |visits|
  {
    seq(|visits|, i requires 0 <= i < |visits| => NodeOf(visits[i], i + 1, opts, view))
  }

  function HeadingEntry(node: SemanticNode): seq<OutlineNode> {
    if node.role != "heading" then []
    else [OutlineNode(if node.name.Some? then node.name.value else "", node.refId)]
  }

  /** The heading nodes in order. */
  function OutlineOf(nodes: seq<SemanticNode>): seq<OutlineNode> {
    if nodes == [] then []
    else
      var node := nodes[|nodes| - 1];
      OutlineOf(nodes[..|nodes| - 1]) + HeadingEntry(node)
  }

  /** Which element carries which `data-ref-id`. */
  function MarksOf(visits: seq<Visit>): map<Locator, string> {
    if visits == [] then map[]
    else MarksOf(visits[..|visits| - 1])[visits[|visits| - 1].at := RefOf(|visits|)]
  }

  lemma OneMore(visits: seq<Visit>, v: Visit, opts: Options, view: Viewport)
    ensures NodesOf(visits + [v], opts, view) == NodesOf(visits, opts, view) + [NodeOf(v, |visits| + 1, opts, view)]
  {
    hide NodeOf;
  }

  lemma OneMoreMark(visits: seq<Visit>, v: Visit)
    ensures MarksOf(visits + [v]) == MarksOf(visits)[v.at := RefOf(|visits| + 1)]
  {
    hide RefOf;
    assert (visits + [v])[..|visits|] == visits;
  }

  lemma OneMoreNode(nodes: seq<SemanticNode>, node: SemanticNode)
    ensures OutlineOf(nodes + [node]) == OutlineOf(nodes) + HeadingEntry(node)
  {
    assert (nodes + [node])[..|nodes|] == nodes;
  }

  function Min(a: nat, b: nat): nat {
    if a < b then a else b
  }

  /** `done` and then as much of `more` as the limit leaves room for. */
  function Upto(done: seq<Visit>, more: seq<Visit>, max: nat): seq<Visit> {
    done + more[..Min(|more|, if max <= |done| then 0 else max - |done|)]
  }

  lemma UptoTwice(done: seq<Visit>, a: seq<Visit>, b: seq<Visit>, max: nat)
    ensures Upto(Upto(done, a, max), b, max) == Upto(done, a + b, max)
    ensures Upto(done, [], max) == done
    ensures max <= |done| ==> Upto(done, a, max) == done
    ensures |done| < max && |a| == 1 ==> Upto(done, a, max) == done + a
  {
  }

  lemma WalkUnfolds(e: Element, at: Locator, parentPath: string, opts: Options)
    ensures var below := WalkChildren(e, |e.children|, at, ChildPath(parentPath, e, opts), opts);
            var here := [Visit(at, e, parentPath)];
            Walk(e, at, parentPath, opts)
            == if Barred(e, opts) then []
               else if OnlyInteractive(opts) && !Interactive(e) then below
               else if EmptyGeneric(e) then []
               else if Drawing(e) then here
               else here + below
  {
  }

  /** What a snapshot of `root` contains: the unlimited walk, cut at the limit. */
  function Collected(root: Element, opts: Options): seq<Visit> {
    var walk := Walk(root, [], "", opts);
    walk[..Min(|walk|, opts.maxNodes)]
  }

  function SnapshotOf(root: Element, opts: Options, view: Viewport): Snapshot {
    var nodes := NodesOf(Collected(root, opts), opts, view);
    Snapshot(nodes, if OutlineOf(nodes) == [] then None else Some(OutlineOf(nodes)))
  }

  // ─── The walk as the source runs it ───────────────────────────

  class RefAllocator {
    var next: nat

    constructor ()
      ensures next == 1
    {
      next := 1;
    }

    method Allocate() returns (id: string)
      modifies this
      ensures id == RefOf(old(next)) && next == old(next) + 1
    {
      id := "e" + Decimal(next);
      next := next + 1;
    }
  }

  class Collector {
    const opts: Options
    const view: Viewport
    const allocator: RefAllocator
    var nodes: seq<SemanticNode>
    var outline: seq<OutlineNode>
    var marks: map<Locator, string>
    ghost var visits: seq<Visit>

    ghost predicate Valid()
      reads this, allocator
    {
      && allocator.next == |visits| + 1
      && nodes == NodesOf(visits, opts, view)
      && outline == OutlineOf(nodes)
      && marks == MarksOf(visits)
    }

    constructor (opts: Options, view: Viewport)
      ensures Valid() && visits == [] && fresh(allocator) && this.opts == opts && this.view == view
    {
      this.opts := opts;
      this.view := view;
      allocator := new RefAllocator();
      nodes := [];
      outline := [];
      marks := map[];
      visits := [];
    }

    /** Number the element, mark it, and record its node. */
    method Keep(element: Element, at: Locator, parentPath: string)
      requires Valid() && !(opts.includeGeometry && ZeroSize(element))
      modifies this, allocator
      ensures Valid() && visits == old(visits) + [Visit(at, element, parentPath)]
    {
      hide NodesOf, OutlineOf, MarksOf, RefOf, InViewport, Hidden;
      ghost var v := Visit(at, element, parentPath);
      OneMore(visits, v, opts, view);
      OneMoreMark(visits, v);
      OneMoreNode(nodes, NodeOf(v, |visits| + 1, opts, view));
      var path := if opts.includePath then Some(parentPath + element.tag) else None;
      var refId := allocator.Allocate();
      marks := marks[at := refId];
      if element.role == "heading" {
        outline := outline + [OutlineNode(if element.name.Some? then element.name.value else "", refId)];
      }
      var rect := if opts.includeGeometry then Some(element.rect) else None;
      var inViewport := if rect.Some? then InViewport(rect.value, view) else false;
      var zeroSize := if rect.Some? then ZeroSize(element) else false;
      var node := SemanticNode(refId, element.role, element.name, element.tag, element.value, rect, inViewport,
                               !Hidden(element) && !zeroSize, path);
      nodes := nodes + [node];
      visits := visits + [v];
    }

    method Traverse(element: Element, at: Locator, parentPath: string)
      requires Valid()
      modifies this, allocator
      ensures Valid() && visits == Upto(old(visits), Walk(element, at, parentPath, opts), opts.maxNodes)
      decreases element, 1
    {
      hide Walk, Upto, NodesOf, OutlineOf, MarksOf, Interactive, EmptyGeneric;
      ghost var path := ChildPath(parentPath, element, opts);
      ghost var below := WalkChildren(element, |element.children|, at, path, opts);
      ghost var here := [Visit(at, element, parentPath)];
      WalkUnfolds(element, at, parentPath, opts);
      UptoTwice(visits, Walk(element, at, parentPath, opts), [], opts.maxNodes);
      UptoTwice(visits, here, below, opts.maxNodes);
      if |nodes| >= opts.maxNodes {
        return;
      }
      if Excluded(element.tag) {
        return;
      }
      if Hidden(element) && !opts.includeHidden {
        return;
      }
      var interactive := Interactive(element);
      var zeroSize := if opts.includeGeometry then ZeroSize(element) else false;
      if zeroSize && !interactive {
        return;
      }
      if !interactive && opts.interactiveOnly && !opts.includeNonInteractive {
        if !Hidden(element) || opts.includeHidden {
          RecurseChildren(element, at, ChildPath(parentPath, element, opts));
        }
        return;
      }
      if EmptyGeneric(element) {
        return;
      }
      Keep(element, at, parentPath);
      if element.tag == "svg" && element.roleAttr.None? && !interactive && !element.namingAttr {
        return;
      }
      RecurseChildren(element, at, ChildPath(parentPath, element, opts));
    }

    method RecurseChildren(element: Element, at: Locator, path: string)
      requires Valid()
      modifies this, allocator
      ensures Valid()
      ensures visits == Upto(old(visits), WalkChildren(element, |element.children|, at, path, opts), opts.maxNodes)
      decreases element, 0
    {
      hide Walk, Upto, NodesOf, OutlineOf, MarksOf;
      UptoTwice(visits, [], [], opts.maxNodes);
      for i := 0 to |element.children|
        invariant Valid() && visits == Upto(old(visits), WalkChildren(element, i, at, path, opts), opts.maxNodes)
      {
        UptoTwice(old(visits), WalkChildren(element, i, at, path, opts),
                  Walk(element.children[i], at + [i], path, opts), opts.maxNodes);
        Traverse(element.children[i], at + [i], path);
      }
    }
  }

  method CollectElement(root: Element, opts: Options, view: Viewport)
    returns (snapshot: Snapshot, marks: map<Locator, string>)
    ensures snapshot == SnapshotOf(root, opts, view)
    ensures marks == MarksOf(Collected(root, opts))
  {
    var collector := new Collector(opts, view);
    collector.Traverse(root, [], "");
    assert collector.visits == Collected(root, opts);
    snapshot := Snapshot(collector.nodes, if collector.outline == [] then None else Some(collector.outline));
    marks := collector.marks;
  }
}
