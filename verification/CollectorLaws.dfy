/** What the collector's walk means for the tree it walks. */
module CollectorLaws {
  import opened Wrappers
  import opened Strings
  import opened Collector

  // ─── Membership ───────────────────────────────────────────────

  /** Every element above `at` lets the walk through. */
  ghost predicate AllOpen(root: Element, at: Locator, opts: Options) {
    forall k :: 0 <= k < |at| ==> Find(root, at[..k]).Some? && Open(Find(root, at[..k]).value, opts)
  }

  /** The path prefix under which the element at `at` is visited. */
  function ParentPath(root: Element, at: Locator, start: string, opts: Options): string
    decreases |at|
  {
    if at == [] || at[0] >= |root.children| then start
    else ParentPath(root.children[at[0]], at[1..], ChildPath(start, root, opts), opts)
  }

  /** `v` visits what lies at `rel` below `e`, when `e` is entered with the path `start`. */
  predicate IsVisit(e: Element, rel: Locator, start: string, opts: Options, v: Visit)
    decreases |rel|
  {
    if rel == [] then Kept(e, opts) && v.element == e && v.parentPath == start
    else Open(e, opts) && rel[0] < |e.children|
         && IsVisit(e.children[rel[0]], rel[1..], ChildPath(start, e, opts), opts, v)
  }

  lemma {:induction false} WalkMembers(e: Element, at: Locator, start: string, opts: Options, v: Visit)
    ensures v in Walk(e, at, start, opts) <==> at <= v.at && IsVisit(e, v.at[|at|..], start, opts, v)
    decreases e, |e.children| + 1
  {
    hide Kept, Open;
    var path := ChildPath(start, e, opts);
    ChildMembers(e, |e.children|, at, path, opts, v);
    var here := [Visit(at, e, start)];
    assert v in here <==> v == Visit(at, e, start);
    if at <= v.at {
      assert v.at[|at|..] == [] <==> v.at == at;
    }
  }

  lemma {:induction false} ChildMembers(e: Element, n: nat, at: Locator, path: string, opts: Options, v: Visit)
    requires n <= |e.children|
    ensures v in WalkChildren(e, n, at, path, opts)
       <==> at < v.at && v.at[|at|] < n
            && IsVisit(e.children[v.at[|at|]], v.at[|at| + 1..], path, opts, v)
    decreases e, n
  {
    hide Walk;
    if n > 0 {
      ChildMembers(e, n - 1, at, path, opts, v);
      WalkMembers(e.children[n - 1], at + [n - 1], path, opts, v);
      assert at + [n - 1] <= v.at <==> at < v.at && v.at[|at|] == n - 1;
    }
  }

  lemma {:induction false} VisitMeaning(e: Element, rel: Locator, start: string, opts: Options, v: Visit)
    ensures IsVisit(e, rel, start, opts, v)
       <==> Find(e, rel) == Some(v.element) && Kept(v.element, opts) && AllOpen(e, rel, opts)
            && v.parentPath == ParentPath(e, rel, start, opts)
    decreases |rel|
  {
    hide Kept, Open, ChildPath;
    if rel != [] {
      if rel[0] < |e.children| {
        var child := e.children[rel[0]];
        VisitMeaning(child, rel[1..], ChildPath(start, e, opts), opts, v);
        OpenBelow(e, rel, opts);
      } else {
        assert Find(e, rel).None?;
      }
    }
  }

  lemma OpenBelow(e: Element, rel: Locator, opts: Options)
    requires rel != [] && rel[0] < |e.children|
    ensures AllOpen(e, rel, opts) <==> Open(e, opts) && AllOpen(e.children[rel[0]], rel[1..], opts)
  {
    hide Open;
    var child := e.children[rel[0]];
    forall k | 0 < k <= |rel| ensures Find(e, rel[..k]) == Find(child, rel[1..][..k - 1]) {
      assert rel[..k][1..] == rel[1..][..k - 1];
    }
    assert Find(e, rel[..0]) == Some(e);
    if AllOpen(e, rel, opts) {
      forall k | 0 <= k < |rel[1..]|
        ensures Find(child, rel[1..][..k]).Some? && Open(Find(child, rel[1..][..k]).value, opts)
      {
        assert Find(e, rel[..k + 1]).Some?;
      }
    }
  }

  /**
   The collected elements are exactly those that are kept and below which nothing is shut:
   a skipped container still contributes its descendants, a pruned one contributes nothing.
   */
  lemma CollectedExactly(root: Element, opts: Options, v: Visit)
    ensures v in Walk(root, [], "", opts)
       <==> Find(root, v.at) == Some(v.element) && Kept(v.element, opts) && AllOpen(root, v.at, opts)
            && v.parentPath == ParentPath(root, v.at, "", opts)
  {
    WalkMembers(root, [], "", opts, v);
    VisitMeaning(root, v.at, "", opts, v);
    assert v.at[0..] == v.at;
  }

  // ─── Document order ───────────────────────────────────────────

  /** `a` comes before `b` in document order. */
  predicate Before(a: Locator, b: Locator)
    decreases |a|
  {
    b != [] && (a == [] || a[0] < b[0] || (a[0] == b[0] && Before(a[1..], b[1..])))
  }

  lemma {:induction false} BeforeBelow(at: Locator, a: Locator, b: Locator)
    ensures Before(at + a, at + b) <==> Before(a, b)
    decreases |at|
  {
    if at == [] {
      assert at + a == a && at + b == b;
    } else {
      BeforeBelow(at[1..], a, b);
      assert (at + a)[1..] == at[1..] + a && (at + b)[1..] == at[1..] + b;
    }
  }

  lemma {:induction false} BeforeIsStrict(a: Locator)
    ensures !Before(a, a)
    decreases |a|
  {
    if a != [] {
      BeforeIsStrict(a[1..]);
    }
  }

  ghost predicate InOrder(visits: seq<Visit>) {
    forall i, j :: 0 <= i < j < |visits| ==> Before(visits[i].at, visits[j].at)
  }

  lemma InOrderConcat(a: seq<Visit>, b: seq<Visit>)
    requires InOrder(a) && InOrder(b)
    requires forall u, v :: u in a && v in b ==> Before(u.at, v.at)
    ensures InOrder(a + b)
  {
  }

  lemma {:induction false} WalkInOrder(e: Element, at: Locator, start: string, opts: Options)
    ensures InOrder(Walk(e, at, start, opts))
    decreases e, |e.children| + 1
  {
    hide Kept, Open, WalkChildren, Before;
    var path := ChildPath(start, e, opts);
    var here := if Kept(e, opts) then [Visit(at, e, start)] else [];
    var below := if Open(e, opts) then WalkChildren(e, |e.children|, at, path, opts) else [];
    ChildrenInOrder(e, |e.children|, at, path, opts);
    forall u, v | u in here && v in below ensures Before(u.at, v.at) {
      ParentFirst(e, at, path, opts, v);
    }
    InOrderConcat(here, below);
  }

  lemma ParentFirst(e: Element, at: Locator, path: string, opts: Options, v: Visit)
    requires v in WalkChildren(e, |e.children|, at, path, opts)
    ensures Before(at, v.at)
  {
    ChildMembers(e, |e.children|, at, path, opts, v);
    BeforeBelow(at, [], v.at[|at|..]);
    assert at + [] == at && at + v.at[|at|..] == v.at;
  }

  lemma {:induction false} ChildrenInOrder(e: Element, n: nat, at: Locator, path: string, opts: Options)
    requires n <= |e.children|
    ensures InOrder(WalkChildren(e, n, at, path, opts))
    decreases e, n
  {
    hide Walk;
    if n > 0 {
      var before := WalkChildren(e, n - 1, at, path, opts);
      var last := Walk(e.children[n - 1], at + [n - 1], path, opts);
      ChildrenInOrder(e, n - 1, at, path, opts);
      WalkInOrder(e.children[n - 1], at + [n - 1], path, opts);
      forall u, v | u in before && v in last ensures Before(u.at, v.at) {
        ChildMembers(e, n - 1, at, path, opts, u);
        WalkMembers(e.children[n - 1], at + [n - 1], path, opts, v);
        BeforeBelow(at, u.at[|at|..], v.at[|at|..]);
        assert at + u.at[|at|..] == u.at && at + v.at[|at|..] == v.at;
      }
      InOrderConcat(before, last);
    }
  }

  /** Nodes come in document order, so no element is collected twice. */
  lemma DocumentOrder(root: Element, opts: Options, i: nat, j: nat)
    requires i < j < |Walk(root, [], "", opts)|
    ensures var walk := Walk(root, [], "", opts);
            Before(walk[i].at, walk[j].at) && walk[i].at != walk[j].at
  {
    WalkInOrder(root, [], "", opts);
    BeforeIsStrict(Walk(root, [], "", opts)[i].at);
  }

  // ─── The node limit ───────────────────────────────────────────

  lemma {:induction false} WalkIgnoresLimit(e: Element, at: Locator, start: string, opts: Options, k: nat)
    ensures Walk(e, at, start, opts.(maxNodes := k)) == Walk(e, at, start, opts)
    decreases e, |e.children| + 1
  {
    ChildrenIgnoreLimit(e, |e.children|, at, ChildPath(start, e, opts), opts, k);
  }

  lemma {:induction false} ChildrenIgnoreLimit(e: Element, n: nat, at: Locator, path: string, opts: Options, k: nat)
    requires n <= |e.children|
    ensures WalkChildren(e, n, at, path, opts.(maxNodes := k)) == WalkChildren(e, n, at, path, opts)
    decreases e, n
  {
    if n > 0 {
      ChildrenIgnoreLimit(e, n - 1, at, path, opts, k);
      WalkIgnoresLimit(e.children[n - 1], at + [n - 1], path, opts, k);
    }
  }

  /** An upper bound that no collection of this tree reaches. */
  function Unlimited(root: Element, opts: Options): Options {
    opts.(maxNodes := |Walk(root, [], "", opts)|)
  }

  lemma {:induction false} OutlinePrefix(nodes: seq<SemanticNode>, k: nat)
    requires k <= |nodes|
    ensures OutlineOf(nodes[..k]) <= OutlineOf(nodes)
    decreases |nodes|
  {
    if k == |nodes| {
      assert nodes[..k] == nodes;
    } else {
      var less := nodes[..|nodes| - 1];
      OutlinePrefix(less, k);
      assert less[..k] == nodes[..k];
    }
  }

  function HeadingsBefore(nodes: seq<SemanticNode>, i: nat): nat
    requires i <= |nodes|
  {
    if i == 0 then 0 else HeadingsBefore(nodes, i - 1) + if nodes[i - 1].role == "heading" then 1 else 0
  }

  lemma {:induction false} HeadingsOfPrefix(nodes: seq<SemanticNode>, k: nat, i: nat)
    requires i <= k <= |nodes|
    ensures HeadingsBefore(nodes[..k], i) == HeadingsBefore(nodes, i)
    decreases i
  {
    if i > 0 {
      HeadingsOfPrefix(nodes, k, i - 1);
    }
  }

  /** The outline has one entry for each heading node, at the place that node has among the headings. */
  lemma {:induction false} OutlineListsHeadings(nodes: seq<SemanticNode>, i: nat)
    requires i <= |nodes|
    ensures |OutlineOf(nodes)| == HeadingsBefore(nodes, |nodes|)
    ensures i < |nodes| && nodes[i].role == "heading" ==>
              var k := HeadingsBefore(nodes, i);
              k < |OutlineOf(nodes)| && OutlineOf(nodes)[k].refId == nodes[i].refId
              && OutlineOf(nodes)[k].name == (if nodes[i].name.Some? then nodes[i].name.value else "")
    decreases |nodes|
  {
    if nodes != [] {
      var last := |nodes| - 1;
      var front := nodes[..last];
      OutlineListsHeadings(front, if i < last then i else last);
      HeadingsOfPrefix(nodes, last, last);
      HeadingsOfPrefix(nodes, last, if i < last then i else last);
    }
  }

  /** There is an outline exactly when some node is a heading. */
  lemma OutlineOnlyWithHeadings(root: Element, opts: Options, view: Viewport)
    ensures var snapshot := SnapshotOf(root, opts, view);
            snapshot.outline.Some?
            <==> exists i :: 0 <= i < |snapshot.nodes| && snapshot.nodes[i].role == "heading"
  {
    var nodes := SnapshotOf(root, opts, view).nodes;
    OutlineListsHeadings(nodes, 0);
    SomeHeading(nodes, |nodes|);
  }

  lemma {:induction false} SomeHeading(nodes: seq<SemanticNode>, n: nat)
    requires n <= |nodes|
    ensures HeadingsBefore(nodes, n) > 0 <==> exists i :: 0 <= i < n && nodes[i].role == "heading"
    decreases n
  {
    if n > 0 {
      SomeHeading(nodes, n - 1);
    }
  }

  function Entries(snapshot: Snapshot): seq<OutlineNode> {
    if snapshot.outline.Some? then snapshot.outline.value else []
  }

  /** Collecting with a limit of `k` gives the first `k` nodes of the unlimited collection. */
  lemma TruncationIsPrefix(root: Element, opts: Options, view: Viewport, k: nat)
    ensures var full := SnapshotOf(root, Unlimited(root, opts), view);
            var cut := SnapshotOf(root, opts.(maxNodes := k), view);
            && cut.nodes == full.nodes[..Min(k, |full.nodes|)]
            && Entries(cut) <= Entries(full)
            && (k >= |full.nodes| ==> cut == full)
            && (forall i :: 0 <= i < |full.nodes| ==> full.nodes[i].refId == "e" + Decimal(i + 1))
  {
    hide Walk, OutlineOf, NodeOf;
    WalkIgnoresLimit(root, [], "", opts, k);
    WalkIgnoresLimit(root, [], "", opts, Unlimited(root, opts).maxNodes);
    var walk := Walk(root, [], "", opts);
    var full := NodesOf(walk, opts, view);
    assert walk[..|walk|] == walk;
    NodesPrefix(walk, Min(k, |walk|), opts, view);
    NodesIgnoreLimit(walk, opts, view, |walk|);
    NodesIgnoreLimit(walk[..Min(k, |walk|)], opts, view, k);
    OutlinePrefix(full, Min(k, |walk|));
    forall i | 0 <= i < |full| ensures full[i].refId == "e" + Decimal(i + 1) {
      NodeRef(walk[i], i + 1, opts, view);
    }
  }

  lemma NodeRef(v: Visit, n: nat, opts: Options, view: Viewport)
    ensures NodeOf(v, n, opts, view).refId == "e" + Decimal(n)
  {
  }

  lemma NodesPrefix(visits: seq<Visit>, k: nat, opts: Options, view: Viewport)
    requires k <= |visits|
    ensures NodesOf(visits[..k], opts, view) == NodesOf(visits, opts, view)[..k]
  {
    hide NodeOf;
  }

  lemma NodesIgnoreLimit(visits: seq<Visit>, opts: Options, view: Viewport, k: nat)
    ensures NodesOf(visits, opts.(maxNodes := k), view) == NodesOf(visits, opts, view)
  {
  }

  // ─── Hidden elements ──────────────────────────────────────────

  /** Without `include_hidden`, neither a collected element nor anything above it is hidden or excluded. */
  lemma NothingHidden(root: Element, opts: Options, v: Visit, k: nat)
    requires v in Walk(root, [], "", opts) && k <= |v.at|
    ensures var above := Find(root, v.at[..k]);
            above.Some? && !Excluded(above.value.tag) && (!opts.includeHidden ==> !Hidden(above.value))
  {
    CollectedExactly(root, opts, v);
    assert v.at[..|v.at|] == v.at;
  }

  /** A node says it is visible exactly when its own element is not hidden; what lies above is not asked. */
  lemma VisibleMeansOwn(root: Element, opts: Options, view: Viewport, i: nat)
    requires i < |Walk(root, [], "", opts)|
    ensures var v := Walk(root, [], "", opts)[i];
            var node := NodeOf(v, i + 1, opts, view);
            && (node.visible <==> !Hidden(v.element))
            && (!opts.includeHidden ==> node.visible)
  {
    var v := Walk(root, [], "", opts)[i];
    CollectedExactly(root, opts, v);
  }

  // ─── Paths ────────────────────────────────────────────────────

  /** The tags from the root down to the element at `at`. */
  function Tags(root: Element, at: Locator): (tags: seq<string>)
    ensures tags != []
    decreases |at|
  {
    [root.tag] + if at == [] || at[0] >= |root.children| then [] else Tags(root.children[at[0]], at[1..])
  }

  lemma {:induction false} PathSpelled(e: Element, rel: Locator, start: string, opts: Options)
    requires opts.includePath && Find(e, rel).Some?
    ensures ParentPath(e, rel, start, opts) + Find(e, rel).value.tag == start + Join(Tags(e, rel), "/")
    decreases |rel|
  {
    hide Join;
    if rel == [] {
      JoinOne(e.tag);
      assert Tags(e, rel) == [e.tag];
    } else {
      var child := e.children[rel[0]];
      var below := Tags(child, rel[1..]);
      PathSpelled(child, rel[1..], start + e.tag + "/", opts);
      assert Tags(e, rel) == [e.tag] + below;
      JoinFirst(e.tag, below);
      SlashInside(start, e.tag, Join(below, "/"));
    }
  }

  lemma JoinOne(s: string)
    ensures Join([s], "/") == s
  {
  }

  lemma JoinFirst(first: string, rest: seq<string>)
    requires rest != []
    ensures Join([first] + rest, "/") == first + "/" + Join(rest, "/")
  {
    assert ([first] + rest)[1..] == rest;
  }

  lemma SlashInside(a: string, b: string, c: string)
    ensures (a + b + "/") + c == a + (b + "/" + c)
  {
  }

  /** Each node's path spells the tags from the root to its element, skipped containers included. */
  lemma PathsSpellTags(root: Element, opts: Options, view: Viewport, i: nat)
    requires i < |Walk(root, [], "", opts)|
    ensures var v := Walk(root, [], "", opts)[i];
            NodeOf(v, i + 1, opts, view).path
            == if opts.includePath then Some(Join(Tags(root, v.at), "/")) else None
  {
    var v := Walk(root, [], "", opts)[i];
    CollectedExactly(root, opts, v);
    if opts.includePath {
      PathSpelled(root, v.at, "", opts);
      assert "" + Join(Tags(root, v.at), "/") == Join(Tags(root, v.at), "/");
    }
  }

  // ─── Refs ─────────────────────────────────────────────────────

  lemma {:induction false} MarksMeaning(visits: seq<Visit>)
    requires InOrder(visits)
    ensures forall i :: 0 <= i < |visits| ==>
              visits[i].at in MarksOf(visits) && MarksOf(visits)[visits[i].at] == RefOf(i + 1)
    ensures forall at :: at in MarksOf(visits) ==> exists i :: 0 <= i < |visits| && visits[i].at == at
    decreases |visits|
  {
    hide RefOf;
    if visits != [] {
      var last := |visits| - 1;
      MarksMeaning(visits[..last]);
      forall i | 0 <= i < last ensures visits[i].at != visits[last].at {
        BeforeIsStrict(visits[i].at);
      }
      forall at | at in MarksOf(visits) ensures exists i :: 0 <= i < |visits| && visits[i].at == at {
        if at != visits[last].at {
          var i :| 0 <= i < last && visits[..last][i].at == at;
          assert visits[i].at == at;
        } else {
          assert visits[last].at == at;
        }
      }
    }
  }

  /**
   An element carries the ref of a node exactly when the node was made for it: looking a ref up
   in the page finds the element of that node and no other.
   */
  lemma RefFindsItsElement(root: Element, opts: Options, i: nat, at: Locator)
    requires i < |Collected(root, opts)|
    ensures var marks := MarksOf(Collected(root, opts));
            (at in marks && marks[at] == RefOf(i + 1)) <==> at == Collected(root, opts)[i].at
  {
    hide Walk, MarksOf;
    var visits := Collected(root, opts);
    WalkInOrder(root, [], "", opts);
    MarksMeaning(visits);
    if at in MarksOf(visits) && MarksOf(visits)[at] == RefOf(i + 1) {
      var j :| 0 <= j < |visits| && visits[j].at == at;
      RefsDiffer(i + 1, j + 1);
    }
  }

  lemma RefsDiffer(m: nat, n: nat)
    ensures RefOf(m) == RefOf(n) ==> m == n
  {
    DecimalInjective(m, n);
    assert RefOf(m)[1..] == Decimal(m) && RefOf(n)[1..] == Decimal(n);
  }

  // ─── Interactive-only collections ─────────────────────────────

  ghost predicate InsideDrawing(root: Element, at: Locator) {
    exists k :: 0 <= k < |at| && Find(root, at[..k]).Some? && Drawing(Find(root, at[..k]).value)
  }

  /**
   The interactive-only collection holds every interactive element of the full one; what it holds
   is in the full one exactly when it does not lie inside a drawing, whose children only the
   interactive-only walk enters.
   */
  lemma InteractiveOnlyVersusFull(root: Element, opts: Options, v: Visit)
    requires OnlyInteractive(opts)
    ensures var full := opts.(interactiveOnly := false);
            v in Walk(root, [], "", opts)
            ==> (v in Walk(root, [], "", full) <==> !InsideDrawing(root, v.at))
    ensures var full := opts.(interactiveOnly := false);
            v in Walk(root, [], "", full) && Interactive(v.element) ==> v in Walk(root, [], "", opts)
  {
    hide Hidden, Excluded, ZeroSize, Interactive, Drawing, EmptyGeneric;
    var full := opts.(interactiveOnly := false);
    CollectedExactly(root, opts, v);
    CollectedExactly(root, full, v);
    SameParentPath(root, v.at, "", opts, full);
  }

  lemma {:induction false} SameParentPath(e: Element, at: Locator, start: string, opts: Options, other: Options)
    requires opts.includePath == other.includePath
    ensures ParentPath(e, at, start, opts) == ParentPath(e, at, start, other)
    decreases |at|
  {
    if at != [] && at[0] < |e.children| {
      SameParentPath(e.children[at[0]], at[1..], ChildPath(start, e, opts), opts, other);
    }
  }

  function Plain(tag: string, children: seq<Element>): Element {
    Element(tag, false, false, false, false, false, Rect(0.0, 0.0, 10.0, 10.0), tag, None, tag == "a", false, None,
            false, false, Some(tag), None, false, children)
  }

  /** A link inside a drawing: only the interactive-only collection has it. */
  lemma LinkInsideDrawing(opts: Options, full: Options)
    requires OnlyInteractive(opts) && full == opts.(interactiveOnly := false)
    ensures var root := Plain("svg", [Plain("a", [])]);
            |Walk(root, [], "", opts)| == 1 && Walk(root, [], "", opts)[0].at == [0]
            && |Walk(root, [], "", full)| == 1 && Walk(root, [], "", full)[0].at == []
  {
    var link := Plain("a", []);
    var root := Plain("svg", [link]);
    var path := ChildPath("", root, opts);
    assert Interactive(link) && !Interactive(root) && Drawing(root);
    assert Walk(link, [0], path, opts) == [Visit([0], link, path)];
    assert WalkChildren(root, 0, [], path, opts) == [];
    assert [] + [0] == [0];
    assert WalkChildren(root, 1, [], path, opts) == [Visit([0], link, path)];
  }

  // ─── Nodes and membership, spelled out ────────────────────────

  /** The element can be acted on: by role, click handler, focus or editing. */
  predicate Actionable(e: Element) {
    || e.interactiveRole || e.onclick || e.contenteditable
    || e.tag == "input" || e.tag == "select" || e.tag == "textarea" || e.tag == "button" || e.tag == "a"
    || (e.tabindex.Some? && e.tabindex.value >= 0)
  }

  /** The walk looks at the element at all. */
  predicate Entered(e: Element, opts: Options) {
    && !(e.tag in {"script", "style", "meta", "link", "template", "noscript", "head"})
    && (opts.includeHidden
        || !(e.hiddenAttr || e.ariaHidden || e.inert || e.displayNone || e.visibilityHidden))
    && (!opts.includeGeometry || Actionable(e) || (e.rect.width > 0.0 && e.rect.height > 0.0))
  }

  /** A container with no role, name, value, children or text to show. */
  predicate SaysNothing(e: Element) {
    e.role == "generic" && e.name == None && e.value == None && |e.children| == 0 && !e.markdownVisible
  }

  /** An `svg` that nothing marks as more than a picture. */
  predicate Picture(e: Element) {
    e.tag == "svg" && e.roleAttr == None && !e.namingAttr && !Actionable(e)
  }

  lemma RulesAgree(e: Element, opts: Options)
    ensures Kept(e, opts) <==> Entered(e, opts) && !SaysNothing(e) && (OnlyInteractive(opts) ==> Actionable(e))
    ensures Open(e, opts) <==> Entered(e, opts) && (OnlyInteractive(opts) || !Picture(e))
  {
  }

  /**
   An element is collected exactly when the walk enters it and everything above it, none above it is a
   mere picture, and it has something to say; in an interactive-only collection it has to be
   actionable, and pictures are no obstacle.  Its node is made under the tags above it.
   */
  lemma CollectedWhen(root: Element, opts: Options, v: Visit)
    ensures var only := opts.interactiveOnly && !opts.includeNonInteractive;
            var e := v.element;
            v in Walk(root, [], "", opts)
            <==> && Find(root, v.at) == Some(e)
                 && Entered(e, opts) && !SaysNothing(e) && (only ==> Actionable(e))
                 && (forall k :: 0 <= k < |v.at| ==>
                       var above := Find(root, v.at[..k]);
                       above.Some? && Entered(above.value, opts) && (only || !Picture(above.value)))
                 && v.parentPath + e.tag == if opts.includePath then Join(Tags(root, v.at), "/") else e.tag
  {
    CollectedExactly(root, opts, v);
    forall e: Element
      ensures Kept(e, opts) <==>
              Entered(e, opts) && !SaysNothing(e) && (OnlyInteractive(opts) ==> Actionable(e))
      ensures Open(e, opts) <==> Entered(e, opts) && (OnlyInteractive(opts) || !Picture(e))
    {
      RulesAgree(e, opts);
    }
    hide Kept, Open, Actionable, Entered, SaysNothing, Picture;
    if Find(root, v.at) == Some(v.element) {
      if opts.includePath {
        PathSpelled(root, v.at, "", opts);
      } else {
        NoPath(root, v.at, opts);
      }
      SamePrefix(v.parentPath, ParentPath(root, v.at, "", opts), v.element.tag);
    }
  }

  lemma SamePrefix(a: string, b: string, tail: string)
    ensures a + tail == b + tail <==> a == b
  {
    if a + tail == b + tail {
      assert |a| == |b|;
      assert (a + tail)[..|a|] == a && (b + tail)[..|b|] == b;
    }
  }

  lemma {:induction false} NoPath(e: Element, at: Locator, opts: Options)
    requires !opts.includePath
    ensures ParentPath(e, at, "", opts) == ""
    decreases |at|
  {
    if at != [] && at[0] < |e.children| {
      NoPath(e.children[at[0]], at[1..], opts);
    }
  }

  /** The place `(x, y)` lies strictly inside the rectangle. */
  predicate Inside(x: real, y: real, r: Rect) {
    r.x < x < r.x + r.width && r.y < y < r.y + r.height
  }

  lemma Between(a: real, b: real, c: real, d: real) returns (x: real)
    requires a < b && c < d && a < d && c < b
    ensures a < x < b && c < x < d
  {
    var low, high := if a > c then a else c, if b < d then b else d;
    x := (low + high) / 2.0;
  }

  /** A rectangle that has an area is in the viewport exactly when the two have a place in common. */
  lemma InViewportMeansOverlap(r: Rect, view: Viewport)
    requires r.width > 0.0 && r.height > 0.0 && view.width > 0.0 && view.height > 0.0
    ensures InViewport(r, view) <==>
            exists x, y :: Inside(x, y, r) && Inside(x, y, Rect(0.0, 0.0, view.width, view.height))
  {
    if InViewport(r, view) {
      var x := Between(r.x, r.x + r.width, 0.0, view.width);
      var y := Between(r.y, r.y + r.height, 0.0, view.height);
      assert Inside(x, y, r) && Inside(x, y, Rect(0.0, 0.0, view.width, view.height));
    }
  }

  /** Each node says of its own element, and of no other, everything it says. */
  lemma NodeOfElement(root: Element, opts: Options, view: Viewport, i: nat)
    requires i < |SnapshotOf(root, opts, view).nodes|
    ensures i < |Walk(root, [], "", opts)|
    ensures var v := Walk(root, [], "", opts)[i];
            var e, node := v.element, SnapshotOf(root, opts, view).nodes[i];
            && Find(root, v.at) == Some(e)
            && node.refId == "e" + Decimal(i + 1)
            && node.role == e.role && node.name == e.name && node.tag == e.tag && node.value == e.value
            && node.rect == (if opts.includeGeometry then Some(e.rect) else None)
            && (node.inViewport <==> opts.includeGeometry && InViewport(e.rect, view))
            && (node.visible <==>
                  !(e.hiddenAttr || e.ariaHidden || e.inert || e.displayNone || e.visibilityHidden))
            && node.path == (if opts.includePath then Some(Join(Tags(root, v.at), "/")) else None)
  {
    var v := Walk(root, [], "", opts)[i];
    CollectedExactly(root, opts, v);
    PathsSpellTags(root, opts, view, i);
    assert Collected(root, opts)[i] == v;
  }
}
