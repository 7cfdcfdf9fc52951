/**
 * The graph store owned by the top-level layout: the node list, the link
 * list, the selected node, the zoom factor and the id counter, with the
 * editing operations the sidebar and the canvas call.
 */
module Layout {
  import opened Family
  import opened Graph

  const InitialZoom: real := 1.0
  const MinZoom: real := 0.3
  const MaxZoom: real := 2.5
  const ZoomStep: real := 0.1

  /** Position given to an imported node that has no x or no y. */
  const DefaultCoord: real := 2500.0
  /** Position of a new root node when the board's geometry is unavailable. */
  const FallbackRoot: Point := Point(400.0, 100.0)
  /** Vertical distance between generations, and horizontal offset of each parent. */
  const GenerationGap: real := 200.0
  const ParentSpread: real := 120.0

  /** The display name that marks the user's own node. */
  const SelfName: string := "Я"
  const ChildPrefix: string := "Ребёнок "
  const ParentPrefix: string := "Родитель "

  // ---------------------------------------------------------------- zoom

  /** `Math.min(2.5, z + 0.1)` */
  function ZoomedIn(z: real): (r: real)
    ensures r <= MaxZoom && r <= z + ZoomStep
    ensures r == z + ZoomStep || r == MaxZoom
  {
    if z + ZoomStep < MaxZoom then z + ZoomStep else MaxZoom
  }

  /** `Math.max(0.3, z - 0.1)` */
  function ZoomedOut(z: real): (r: real)
    ensures r >= MinZoom && r >= z - ZoomStep
    ensures r == z - ZoomStep || r == MinZoom
  {
    if z - ZoomStep > MinZoom then z - ZoomStep else MinZoom
  }

  datatype ZoomClick = ZoomIn | ZoomOut

  /** The zoom factor after a series of clicks on the two zoom buttons. */
  function AfterClicks(z: real, clicks: seq<ZoomClick>): real
    decreases clicks
  {
    if clicks == [] then z
    else AfterClicks(if clicks[0] == ZoomIn then ZoomedIn(z) else ZoomedOut(z), clicks[1..])
  }

  /** Whatever the clicks, the zoom factor stays in [0.3, 2.5], so it is never zero. */
  lemma {:induction false} ZoomStaysInRange(z: real, clicks: seq<ZoomClick>)
    requires MinZoom <= z <= MaxZoom
    ensures MinZoom <= AfterClicks(z, clicks) <= MaxZoom
    ensures AfterClicks(z, clicks) > 0.0
    decreases clicks
  {
    if clicks != [] {
      ZoomStaysInRange(if clicks[0] == ZoomIn then ZoomedIn(z) else ZoomedOut(z), clicks[1..]);
    }
  }

  // -------------------------------------------------------------- import

  /** A node as it arrives in an imported document: its position may be missing. */
  datatype Imported = Imported(id: int, x: Option<real>, y: Option<real>, fields: map<Key, Value>)

  /** An imported entry is either the node itself or an object wrapping it under `node`. */
  datatype NodeLike = Wrapped(inner: Imported) | Bare(inner: Imported)

  /** The node stored for an imported entry: unwrapped, with missing coordinates set to 2500. */
  function Placed(n: NodeLike): (p: Person)
    ensures p.id == n.inner.id && p.fields == n.inner.fields
    ensures p.x == (if n.inner.x.Some? then n.inner.x.value else DefaultCoord)
    ensures p.y == (if n.inner.y.Some? then n.inner.y.value else DefaultCoord)
  {
    var raw := n.inner;
    Person(raw.id, if raw.x.None? then DefaultCoord else raw.x.value,
           if raw.y.None? then DefaultCoord else raw.y.value, raw.fields)
  }

  function Max(a: int, b: int): int { if a < b then b else a }

  /** `nodes.reduce((acc, cur) => Math.max(acc, cur.node.id), 0)` */
  function MaxNodeId(nodes: seq<Person>): (m: int)
    ensures m >= 0
    ensures forall i :: 0 <= i < |nodes| ==> nodes[i].id <= m
    ensures m == 0 || exists i :: 0 <= i < |nodes| && nodes[i].id == m
  {
    if nodes == [] then 0
    else
      var front := nodes[..|nodes| - 1];
      var m0 := MaxNodeId(front);
      assert forall i :: 0 <= i < |front| ==> nodes[i] == front[i];
      Max(m0, nodes[|nodes| - 1].id)
  }

  /** `edges.reduce((acc, cur) => Math.max(acc, cur.from, cur.to), 0)` */
  function MaxEndpoint(edges: seq<Link>): (m: int)
    ensures m >= 0
    ensures forall i :: 0 <= i < |edges| ==> edges[i].from <= m && edges[i].to <= m
    ensures m == 0 || m in EdgeIds(edges)
  {
    if edges == [] then 0
    else
      var front := edges[..|edges| - 1];
      var last := edges[|edges| - 1];
      var m0 := MaxEndpoint(front);
      assert forall i :: 0 <= i < |front| ==> edges[i] == front[i];
      assert EdgeIds(front) <= EdgeIds(edges);
      assert last.from in EdgeIds(edges) && last.to in EdgeIds(edges);
      Max(Max(m0, last.from), last.to)
  }

  /**
   * The counter after an import: never lower than before, above every
   * imported node id and link endpoint, and no higher than that requires.
   */
  function AdvancedCounter(counter: int, nodes: seq<Person>, edges: seq<Link>): (c: int)
    requires counter >= 1
    ensures c >= counter
    ensures IdsBelow(nodes, edges, c)
    ensures c == counter || c - 1 in EdgeIds(edges) || exists i :: 0 <= i < |nodes| && nodes[i].id == c - 1
  {
    var maxId := Max(Max(MaxNodeId(nodes), MaxEndpoint(edges)), counter - 1);
    Max(counter, maxId + 1)
  }

  // ------------------------------------------------------------- removal

  /** A node counts as the user's own when its name is exactly "Я". */
  predicate IsSelf(p: Person)
    ensures IsSelf(p) <==> Name in p.fields && p.fields[Name].Str? && Render(p.fields, Name) == SelfName
  {
    NamedAs(p, SelfName)
  }

  /**
   * The ids a removal of `p` deletes: the node itself and its ancestors,
   * and also its descendants when it is the user's own node.
   */
  ghost function RemovalSet(p: Person, edges: seq<Link>): set<int>
  {
    {p.id} + Lineage(edges, Up, p.id) + (if IsSelf(p) then Lineage(edges, Down, p.id) else {})
  }

  /** `nodes.filter((n) => !idsToRemove.has(n.node.id))` */
  function KeepNodes(nodes: seq<Person>, doomed: set<int>): (r: seq<Person>)
    ensures |r| <= |nodes|
    ensures forall p :: p in r <==> p in nodes && p.id !in doomed
  {
    if nodes == [] then []
    else (if nodes[0].id in doomed then [] else [nodes[0]]) + KeepNodes(nodes[1..], doomed)
  }

  /** `edges.filter((e) => !idsToRemove.has(e.from) && !idsToRemove.has(e.to))` */
  function KeepEdges(edges: seq<Link>, doomed: set<int>): (r: seq<Link>)
    ensures |r| <= |edges|
    ensures forall e :: e in r <==> e in edges && e.from !in doomed && e.to !in doomed
  {
    if edges == [] then []
    else
      var e := edges[0];
      (if e.from in doomed || e.to in doomed then [] else [e]) + KeepEdges(edges[1..], doomed)
  }

  /** The survivors keep their relative order: filtering splits over concatenation. */
  lemma {:induction false} KeepNodesAppend(a: seq<Person>, b: seq<Person>, doomed: set<int>)
    ensures KeepNodes(a + b, doomed) == KeepNodes(a, doomed) + KeepNodes(b, doomed)
  {
    if a != [] {
      assert (a + b)[1..] == a[1..] + b;
      KeepNodesAppend(a[1..], b, doomed);
    } else {
      assert a + b == b;
    }
  }

  /** The surviving links keep their relative order too. */
  lemma {:induction false} KeepEdgesAppend(a: seq<Link>, b: seq<Link>, doomed: set<int>)
    ensures KeepEdges(a + b, doomed) == KeepEdges(a, doomed) + KeepEdges(b, doomed)
  {
    if a != [] {
      assert (a + b)[1..] == a[1..] + b;
      KeepEdgesAppend(a[1..], b, doomed);
    } else {
      assert a + b == b;
    }
  }

  /**
   * Removing a node that is not the user's own also removes its parents:
   * for a child of "Я", that takes "Я" with it.
   */
  lemma RemovingChildTakesParent(parent: Person, child: Person, edges: seq<Link>)
    requires Link(parent.id, child.id) in edges
    ensures parent.id in RemovalSet(child, edges)
  {
    if parent.id != child.id {
      assert Arc(edges, Up, child.id, parent.id);
      ArcReaches(edges, Up, child.id, parent.id);
      ReachesEndpoint(edges, Up, child.id, parent.id);
    }
  }

  /** Filtering keeps every id below a bound that the unfiltered lists respected. */
  lemma KeepPreservesIds(nodes: seq<Person>, edges: seq<Link>, doomed: set<int>, bound: int)
    requires IdsBelow(nodes, edges, bound)
    ensures IdsBelow(KeepNodes(nodes, doomed), KeepEdges(edges, doomed), bound)
  {
    var ns, es := KeepNodes(nodes, doomed), KeepEdges(edges, doomed);
    forall i | 0 <= i < |ns| ensures ns[i].id < bound {
      assert ns[i] in nodes;
    }
    forall i | 0 <= i < |es| ensures es[i].from < bound && es[i].to < bound {
      assert es[i] in edges;
    }
  }

  /** Appending nodes and links whose ids are below a raised bound keeps every id below it. */
  lemma GrowPreservesIds(nodes: seq<Person>, edges: seq<Link>, low: int,
                         more: seq<Person>, links: seq<Link>, bound: int)
    requires IdsBelow(nodes, edges, low) && low <= bound
    requires forall i :: 0 <= i < |more| ==> more[i].id < bound
    requires forall i :: 0 <= i < |links| ==> links[i].from < bound && links[i].to < bound
    ensures IdsBelow(nodes + more, edges + links, bound)
  {
  }

  /** `new Set(list)` for a traversal's result is its lineage. */
  lemma AsSet(list: seq<int>, edges: seq<Link>, dir: Direction, id: int)
    requires forall x :: x in list <==> x in Lineage(edges, dir, id)
    ensures (set x | x in list) == Lineage(edges, dir, id)
  {
    var s := set x | x in list;
    forall x ensures x in s <==> x in Lineage(edges, dir, id) {
    }
  }

  /**
   * The removal set as `removeNode` builds it: the traversals' results
   * gathered into one set, the descendants only for the user's own node.
   */
  method IdsToRemove(target: Person, edges: seq<Link>) returns (ids: set<int>)
    ensures ids == RemovalSet(target, edges)
  {
    var id := target.id;
    if IsSelf(target) {
      var descendants := GetDescendants(id, edges);
      var ancestors := GetAncestors(id, edges);
      ids := {id} + (set x | x in descendants) + (set x | x in ancestors);
      AsSet(descendants, edges, Down, id);
      AsSet(ancestors, edges, Up, id);
    } else {
      var ancestors := GetAncestors(id, edges);
      ids := {id} + (set x | x in ancestors);
      AsSet(ancestors, edges, Up, id);
    }
  }

  /** The node's name is `prefix` followed by a canonical numeral that reads back as `id`. */
  predicate NamedWithId(p: Person, prefix: string, id: int)
  {
    && Name in p.fields && p.fields[Name].Str?
    && var s := p.fields[Name].s;
    && |prefix| <= |s| && s[..|prefix|] == prefix
    && CanonicalDecimal(s[|prefix|..]) && DecimalValue(s[|prefix|..]) == id
  }

  /** Only one name fits: `prefix` followed by `${id}`. */
  lemma NamedWithIdExact(p: Person, prefix: string, id: int)
    requires NamedWithId(p, prefix, id)
    ensures p.fields[Name] == Str(prefix + Decimal(id))
  {
    var s := p.fields[Name].s;
    DecimalRoundTrip(s[|prefix|..]);
    assert s == s[..|prefix|] + s[|prefix|..];
  }

  /** The user's own node, named "Я", placed at `pos`. */
  function SelfNode(id: int, pos: Point): (p: Person)
    ensures p.id == id && p.x == pos.x && p.y == pos.y
    ensures IsSelf(p) && p.fields.Keys == {Name}
  {
    Person(id, pos.x, pos.y, map[Name := Str(SelfName)])
  }

  /** A new child: 200 below `anchor`, named "Ребёнок <id>", never the user's own node. */
  function ChildNode(anchor: Person, id: int): (p: Person)
    ensures p.id == id && p.x == anchor.x && p.y == anchor.y + GenerationGap
    ensures NamedWithId(p, ChildPrefix, id) && !IsSelf(p) && p.fields.Keys == {Name}
  {
    var name := ChildPrefix + Decimal(id);
    assert name[..|ChildPrefix|] == ChildPrefix && name[|ChildPrefix|..] == Decimal(id);
    Person(id, anchor.x, anchor.y + GenerationGap, map[Name := Str(name)])
  }

  /** A new parent: 200 above `anchor`, `dx` to the side, named "Родитель <id>", never the user's own node. */
  function ParentNode(anchor: Person, id: int, dx: real): (p: Person)
    ensures p.id == id && p.x == anchor.x + dx && p.y == anchor.y - GenerationGap
    ensures NamedWithId(p, ParentPrefix, id) && !IsSelf(p) && p.fields.Keys == {Name}
  {
    var name := ParentPrefix + Decimal(id);
    assert name[..|ParentPrefix|] == ParentPrefix && name[|ParentPrefix|..] == Decimal(id);
    Person(id, anchor.x + dx, anchor.y - GenerationGap, map[Name := Str(name)])
  }

  /** The kind of relatives the sidebar's two add buttons create. */
  datatype Relative = Parent | Child

  class GraphStore {
    var nodes: seq<Person>
    var edges: seq<Link>
    var selected: Option<int>
    var zoom: real
    var counter: int

    /** The zoom is within its bounds and every id in use is below the counter. */
    ghost predicate Valid()
      reads this
    {
      MinZoom <= zoom <= MaxZoom && counter >= 1 && IdsBelow(nodes, edges, counter)
    }

    constructor ()
      ensures Valid()
      ensures nodes == [] && edges == [] && selected == None
      ensures zoom == InitialZoom && counter == 1
    {
      nodes, edges, selected := [], [], None;
      zoom, counter := InitialZoom, 1;
    }

    /** `generateID`: hand out the counter and advance it; the id is in use nowhere. */
    method GenerateId() returns (id: int)
      requires Valid()
      modifies this`counter
      ensures Valid()
      ensures id == old(counter) && counter == old(counter) + 1
      ensures Find(nodes, id).None? && id !in EdgeIds(edges)
    {
      id := counter;
      counter := counter + 1;
      assert forall e :: e in edges ==> e.from != id && e.to != id;
    }

    method ZoomIn()
      requires Valid()
      modifies this`zoom
      ensures Valid() && zoom == ZoomedIn(old(zoom))
    {
      zoom := ZoomedIn(zoom);
    }

    method ZoomOut()
      requires Valid()
      modifies this`zoom
      ensures Valid() && zoom == ZoomedOut(old(zoom))
    {
      zoom := ZoomedOut(zoom);
    }

    /**
     * `loadNodesFromJSON`: replace both lists, select the first imported
     * node if there is one (an empty import leaves the selection as it
     * was) and move the counter past every imported id.
     */
    method LoadNodesFromJson(data: seq<NodeLike>, newEdges: seq<Link>)
      requires Valid()
      modifies this
      ensures Valid()
      ensures |nodes| == |data| && forall j :: 0 <= j < |data| ==> nodes[j] == Placed(data[j])
      ensures edges == newEdges
      ensures selected == if data == [] then old(selected) else Some(data[0].inner.id)
      ensures counter == AdvancedCounter(old(counter), nodes, newEdges)
      ensures zoom == old(zoom)
    {
      var fixed: seq<Person> := [];
      for i := 0 to |data|
        invariant |fixed| == i
        invariant forall j :: 0 <= j < i ==> fixed[j] == Placed(data[j])
      {
        var n := data[i].inner;
        var x := if n.x.None? then DefaultCoord else n.x.value;
        var y := if n.y.None? then DefaultCoord else n.y.value;
        fixed := fixed + [Person(n.id, x, y, n.fields)];
      }
      nodes := fixed;
      edges := newEdges;
      if |fixed| > 0 {
        selected := Some(fixed[0].id);
      }
      counter := AdvancedCounter(counter, fixed, newEdges);
    }

    /**
     * `addNode`: with no selection, append the user's own node at the
     * given view centre (or the fallback) and select it; with a selection
     * that names no node, do nothing; otherwise add one child below the
     * selected node or two parents above it, linked to it.
     */
    method AddNode(kind: Relative, view: Option<Point>)
      requires Valid()
      modifies this
      ensures Valid()
      ensures zoom == old(zoom)
      ensures old(selected).None? ==>
        var pos := if view.Some? then view.value else FallbackRoot;
        && nodes == old(nodes) + [SelfNode(old(counter), pos)]
        && edges == old(edges)
        && selected == Some(old(counter))
        && counter == old(counter) + 1
      ensures old(selected).Some? && Find(old(nodes), old(selected).value).None? ==>
        nodes == old(nodes) && edges == old(edges) && selected == old(selected) && counter == old(counter)
      ensures old(selected).Some? && Find(old(nodes), old(selected).value).Some? ==>
        var a := Find(old(nodes), old(selected).value).value;
        var c := old(counter);
        && selected == old(selected)
        && (kind == Child ==>
              && nodes == old(nodes) + [ChildNode(a, c)]
              && edges == old(edges) + [Link(a.id, c)]
              && counter == c + 1)
        && (kind == Parent ==>
              && nodes == old(nodes) + [ParentNode(a, c, -ParentSpread), ParentNode(a, c + 1, ParentSpread)]
              && edges == old(edges) + [Link(c, a.id), Link(c + 1, a.id)]
              && counter == c + 2)
    {
      if selected.None? {
        var pos := if view.Some? then view.value else FallbackRoot;
        var meId := GenerateId();
        nodes := nodes + [SelfNode(meId, pos)];
        selected := Some(meId);
        return;
      }
      var found := Find(nodes, selected.value);
      if found.None? {
        return;
      }
      var anchor := found.value;
      assert anchor.id < counter;
      match kind
      case Child => AddChild(anchor);
      case Parent => AddParents(anchor);
    }

    /** The child branch of `addNode`: one node 200 below the anchor, linked from it. */
    method AddChild(anchor: Person)
      requires Valid() && anchor.id < counter
      modifies this`nodes, this`edges, this`counter
      ensures Valid()
      ensures var c := old(counter);
        && nodes == old(nodes) + [ChildNode(anchor, c)]
        && edges == old(edges) + [Link(anchor.id, c)]
        && counter == c + 1
    {
      var childId := GenerateId();
      nodes := nodes + [ChildNode(anchor, childId)];
      edges := edges + [Link(anchor.id, childId)];
    }

    /**
     * The parent branch of `addNode`: two nodes with consecutive ids, 200
     * above the anchor and 120 to either side, each linked to it.
     */
    method AddParents(anchor: Person)
      requires Valid() && anchor.id < counter
      modifies this`nodes, this`edges, this`counter
      ensures Valid()
      ensures var c := old(counter);
        && nodes == old(nodes) + [ParentNode(anchor, c, -ParentSpread), ParentNode(anchor, c + 1, ParentSpread)]
        && edges == old(edges) + [Link(c, anchor.id), Link(c + 1, anchor.id)]
        && counter == c + 2
    {
      ghost var before := counter;
      var motherId := GenerateId();
      var fatherId := GenerateId();
      var parents := [ParentNode(anchor, motherId, -ParentSpread), ParentNode(anchor, fatherId, ParentSpread)];
      var links := [Link(motherId, anchor.id), Link(fatherId, anchor.id)];
      assert links == [Link(before, anchor.id), Link(before + 1, anchor.id)];
      GrowPreservesIds(nodes, edges, before, parents, links, counter);
      nodes := nodes + parents;
      edges := edges + links;
    }

    /** `changeName`: rename the selected node; without a selection, nothing happens. */
    method ChangeName(newName: string)
      requires Valid()
      modifies this`nodes
      ensures Valid()
      ensures nodes == if old(selected).None? then old(nodes)
                       else ApplyEdit(old(nodes), selected.value, map[Name := Str(newName)])
    {
      if selected.None? {
        return;
      }
      nodes := ApplyEdit(nodes, selected.value, map[Name := Str(newName)]);
    }

    /**
     * `removeNode`: nothing for an unknown id; otherwise delete every node
     * of the removal set and every link touching it, and clear the
     * selection only when it pointed into that set.
     */
    method RemoveNode(id: int)
      requires Valid()
      modifies this
      ensures Valid()
      ensures zoom == old(zoom) && counter == old(counter)
      ensures Find(old(nodes), id).None? ==>
        nodes == old(nodes) && edges == old(edges) && selected == old(selected)
      ensures Find(old(nodes), id).Some? ==>
        var doomed := RemovalSet(Find(old(nodes), id).value, old(edges));
        && nodes == KeepNodes(old(nodes), doomed)
        && edges == KeepEdges(old(edges), doomed)
        && selected == if old(selected).Some? && old(selected).value in doomed then None else old(selected)
    {
      var found := Find(nodes, id);
      if found.None? {
        return;
      }
      var idsToRemove := IdsToRemove(found.value, edges);
      KeepPreservesIds(nodes, edges, idsToRemove, counter);
      var newEdges := KeepEdges(edges, idsToRemove);
      var newNodes := KeepNodes(nodes, idsToRemove);
      var newSelected := if selected.Some? && selected.value in idsToRemove then None else selected;
      nodes, edges, selected := newNodes, newEdges, newSelected;
    }
  }

  /**
   * An import of an empty list keeps the old selection although its node
   * is gone; from then on the add buttons do nothing and consume no id.
   */
  method StaleSelectionAfterEmptyImport() returns (after: seq<Person>, links: seq<Link>, idsBefore: int, idsAfter: int)
    ensures after == [] && links == []
    ensures idsAfter == idsBefore
  {
    var store := new GraphStore();
    store.AddNode(Child, None);
    store.LoadNodesFromJson([], []);
    idsBefore := store.counter;
    store.AddNode(Child, None);
    store.AddNode(Parent, None);
    after, links, idsAfter := store.nodes, store.edges, store.counter;
  }
}
