/**
 * The canvas: mouse and touch interaction (pan the board, drag a node, open a
 * node's inline form) and the drawing of links between nodes.  The
 * interaction state lives in a `Canvas` object that shares the graph
 * store with the layout.
 */
module CanvasArea {
  import opened Family
  import opened Layout

  const CanvasSize: real := 5000.0
  const NodeRadius: real := 30.0

  function Abs(v: real): real { if v < 0.0 then -v else v }

  /** A node centre lies in [30, 4970], so its whole circle stays on the board. */
  predicate OnBoard(v: real)
  {
    NodeRadius <= v <= CanvasSize - NodeRadius
  }

  /**
   * `Math.max(NODE_RADIUS, Math.min(CANVAS_SIZE - NODE_RADIUS, v))`: the
   * point of the board's range nearest to `v`.
   */
  function Clamp(v: real): (r: real)
    ensures OnBoard(r)
    ensures OnBoard(v) ==> r == v
    ensures forall w :: OnBoard(w) ==> Abs(r - v) <= Abs(w - v)
  {
    var upper := if CanvasSize - NodeRadius < v then CanvasSize - NodeRadius else v;
    if NodeRadius < upper then upper else NodeRadius
  }

  /**
   * The node list after a drag step: every node carrying `id` moves by the
   * cursor delta scaled by the zoom, clamped to the board; nothing else
   * changes.
   */
  function Dragged(nodes: seq<Person>, id: int, dx: real, dy: real, zoom: real): (r: seq<Person>)
    requires zoom > 0.0
    ensures |r| == |nodes|
    ensures forall i :: 0 <= i < |r| && nodes[i].id != id ==> r[i] == nodes[i]
    ensures forall i :: 0 <= i < |r| && nodes[i].id == id ==>
              && r[i].id == id && r[i].fields == nodes[i].fields
              && r[i].x == Clamp(nodes[i].x + dx / zoom) && r[i].y == Clamp(nodes[i].y + dy / zoom)
              && OnBoard(r[i].x) && OnBoard(r[i].y)
  {
    seq(|nodes|, i requires 0 <= i < |nodes| =>
      var n := nodes[i];
      if n.id == id then n.(x := Clamp(n.x + dx / zoom), y := Clamp(n.y + dy / zoom)) else n)
  }

  /** A drag step with no cursor movement, repeated, moves nothing further. */
  lemma DragZeroIdempotent(nodes: seq<Person>, id: int, zoom: real)
    requires zoom > 0.0
    ensures Dragged(Dragged(nodes, id, 0.0, 0.0, zoom), id, 0.0, 0.0, zoom) == Dragged(nodes, id, 0.0, 0.0, zoom)
  {
    var once := Dragged(nodes, id, 0.0, 0.0, zoom);
    var twice := Dragged(once, id, 0.0, 0.0, zoom);
    forall i | 0 <= i < |nodes| ensures twice[i] == once[i] {
      if nodes[i].id == id {
        assert once[i].x + 0.0 / zoom == once[i].x;
        assert once[i].y + 0.0 / zoom == once[i].y;
      }
    }
  }

  /** A drawn link: the two node records it joins. */
  datatype Segment = Segment(from: Person, to: Person)

  /** Both ends of the link name a node that is present. */
  predicate Resolves(nodes: seq<Person>, e: Link)
  {
    Find(nodes, e.from).Some? && Find(nodes, e.to).Some?
  }

  /** What one link draws: a segment when both ends resolve, nothing otherwise. */
  function Drawn(nodes: seq<Person>, e: Link): (r: seq<Segment>)
    ensures |r| == if Resolves(nodes, e) then 1 else 0
    ensures Resolves(nodes, e) ==> r == [Segment(Find(nodes, e.from).value, Find(nodes, e.to).value)]
    ensures forall s :: s in r ==> s.from in nodes && s.to in nodes
  {
    if Resolves(nodes, e) then [Segment(Find(nodes, e.from).value, Find(nodes, e.to).value)] else []
  }

  /**
   * The edge render loop: a segment per link whose two ends resolve, in
   * link order; a dangling link is skipped.
   */
  function RenderedEdges(nodes: seq<Person>, edges: seq<Link>): (r: seq<Segment>)
    ensures |r| <= |edges|
    ensures forall s :: s in r ==> s.from in nodes && s.to in nodes
  {
    if edges == [] then [] else Drawn(nodes, edges[0]) + RenderedEdges(nodes, edges[1..])
  }

  /** Every link whose two ends resolve is drawn, joining the nodes it names. */
  lemma {:induction false} RenderedComplete(nodes: seq<Person>, edges: seq<Link>)
    ensures forall e :: e in edges && Resolves(nodes, e) ==>
              Segment(Find(nodes, e.from).value, Find(nodes, e.to).value) in RenderedEdges(nodes, edges)
  {
    if edges != [] {
      RenderedComplete(nodes, edges[1..]);
      forall e | e in edges && Resolves(nodes, e)
        ensures Segment(Find(nodes, e.from).value, Find(nodes, e.to).value) in RenderedEdges(nodes, edges)
      {
        if e != edges[0] {
          assert e in edges[1..];
        }
      }
    }
  }

  /** Every segment drawn comes from a link whose two ends resolve, joining the nodes it names. */
  lemma {:induction false} RenderedSound(nodes: seq<Person>, edges: seq<Link>)
    ensures forall s :: s in RenderedEdges(nodes, edges) ==>
              exists e :: e in edges && Resolves(nodes, e) &&
                          s == Segment(Find(nodes, e.from).value, Find(nodes, e.to).value)
  {
    if edges != [] {
      RenderedSound(nodes, edges[1..]);
      var head, rest := Drawn(nodes, edges[0]), RenderedEdges(nodes, edges[1..]);
      assert RenderedEdges(nodes, edges) == head + rest;
      forall s | s in RenderedEdges(nodes, edges)
        ensures exists e :: e in edges && Resolves(nodes, e) &&
                            s == Segment(Find(nodes, e.from).value, Find(nodes, e.to).value)
      {
        if s in head {
          var e := edges[0];
          assert e in edges && Resolves(nodes, e);
        } else {
          assert s in rest;
          var e :| e in edges[1..] && Resolves(nodes, e) &&
                   s == Segment(Find(nodes, e.from).value, Find(nodes, e.to).value);
          assert e in edges;
        }
      }
    }
  }

  /** Segments come in link order: rendering splits over concatenation of the link list. */
  lemma {:induction false} RenderedAppend(nodes: seq<Person>, a: seq<Link>, b: seq<Link>)
    ensures RenderedEdges(nodes, a + b) == RenderedEdges(nodes, a) + RenderedEdges(nodes, b)
  {
    if a == [] {
      assert a + b == b;
    } else {
      assert (a + b)[1..] == a[1..] + b;
      RenderedAppend(nodes, a[1..], b);
    }
  }

  /** Every link is drawn exactly when no link dangles. */
  lemma {:induction false} RenderedAllIff(nodes: seq<Person>, edges: seq<Link>)
    ensures |RenderedEdges(nodes, edges)| == |edges| <==> forall i :: 0 <= i < |edges| ==> Resolves(nodes, edges[i])
  {
    if edges != [] {
      var rest := edges[1..];
      RenderedAllIff(nodes, rest);
      assert forall i :: 1 <= i < |edges| ==> edges[i] == rest[i - 1];
      if forall i :: 0 <= i < |edges| ==> Resolves(nodes, edges[i]) {
        assert forall i :: 0 <= i < |rest| ==> Resolves(nodes, rest[i]) by {
          forall i | 0 <= i < |rest| ensures Resolves(nodes, rest[i]) {
            assert rest[i] == edges[i + 1];
          }
        }
      }
    }
  }

  class Canvas {
    const store: GraphStore
    var draggingNode: Option<int>
    var panning: bool
    var lastPos: Option<Point>
    var editingNodeId: Option<int>
    /** The board's scroll offsets. */
    var scrollLeft: real
    var scrollTop: real

    ghost predicate Valid()
      reads this, store
    {
      store.Valid()
    }

    constructor (store: GraphStore)
      requires store.Valid()
      ensures Valid() && this.store == store
      ensures draggingNode == None && !panning && lastPos == None && editingNodeId == None
      ensures scrollLeft == 0.0 && scrollTop == 0.0
    {
      this.store := store;
      draggingNode, panning, lastPos, editingNodeId := None, false, None, None;
      scrollLeft, scrollTop := 0.0, 0.0;
    }

    /**
     * `startPanOrDrag`: on a node, start dragging it and select it; on the
     * bare board, start panning and close the inline form.  Either way the
     * cursor position is recorded.
     */
    method StartPanOrDrag(x: real, y: real, target: Option<int>)
      requires Valid()
      modifies this`draggingNode, this`panning, this`editingNodeId, this`lastPos, store`selected
      ensures Valid()
      ensures lastPos == Some(Point(x, y))
      ensures target.Some? ==>
        draggingNode == target && store.selected == target &&
        panning == old(panning) && editingNodeId == old(editingNodeId)
      ensures target.None? ==>
        panning && editingNodeId == None &&
        draggingNode == old(draggingNode) && store.selected == old(store.selected)
    {
      if target.Some? {
        draggingNode := target;
        store.selected := target;
      } else {
        panning := true;
        editingNodeId := None;
      }
      lastPos := Some(Point(x, y));
    }

    /**
     * `movePanOrDrag`: without a recorded position, nothing.  Otherwise a
     * drag moves the dragged node by the delta (drag wins over pan), a pan
     * scrolls the board the opposite way, and the new cursor position is
     * recorded so the next move applies only its own delta.
     */
    method MovePanOrDrag(x: real, y: real)
      requires Valid()
      modifies this`lastPos, this`scrollLeft, this`scrollTop, store`nodes
      ensures Valid()
      ensures old(lastPos).None? ==>
        lastPos == old(lastPos) && store.nodes == old(store.nodes) &&
        scrollLeft == old(scrollLeft) && scrollTop == old(scrollTop)
      ensures old(lastPos).Some? ==>
        var dx, dy := x - old(lastPos).value.x, y - old(lastPos).value.y;
        && lastPos == Some(Point(x, y))
        && (draggingNode.Some? ==>
              store.nodes == Dragged(old(store.nodes), draggingNode.value, dx, dy, store.zoom) &&
              scrollLeft == old(scrollLeft) && scrollTop == old(scrollTop))
        && (draggingNode.None? && panning ==>
              store.nodes == old(store.nodes) &&
              scrollLeft == old(scrollLeft) - dx && scrollTop == old(scrollTop) - dy)
        && (draggingNode.None? && !panning ==>
              store.nodes == old(store.nodes) &&
              scrollLeft == old(scrollLeft) && scrollTop == old(scrollTop))
    {
      if lastPos.None? {
        return;
      }
      var dx := x - lastPos.value.x;
      var dy := y - lastPos.value.y;
      if draggingNode.Some? {
        var moved := Dragged(store.nodes, draggingNode.value, dx, dy, store.zoom);
        assert forall i :: 0 <= i < |moved| ==> moved[i].id == store.nodes[i].id;
        store.nodes := moved;
      } else if panning {
        scrollLeft := scrollLeft - dx;
        scrollTop := scrollTop - dy;
      }
      lastPos := Some(Point(x, y));
    }

    /** `endPanOrDrag`: back to idle; the inline form and the selection stay. */
    method EndPanOrDrag()
      requires Valid()
      modifies this`draggingNode, this`panning, this`lastPos
      ensures Valid()
      ensures draggingNode == None && !panning && lastPos == None
    {
      draggingNode, panning, lastPos := None, false, None;
    }

    /** `onNodeDoubleClick`: open the node's inline form and nothing else. */
    method OnNodeDoubleClick(id: int)
      requires Valid()
      modifies this`editingNodeId
      ensures Valid() && editingNodeId == Some(id)
    {
      editingNodeId := Some(id);
    }

    /**
     * `handleTapNode`: a tap opens the form, starts a drag and selects the
     * node; the recorded cursor position is left alone.
     */
    method HandleTapNode(id: int)
      requires Valid()
      modifies this`editingNodeId, this`draggingNode, store`selected
      ensures Valid()
      ensures editingNodeId == Some(id) && draggingNode == Some(id) && store.selected == Some(id)
    {
      editingNodeId := Some(id);
      draggingNode := Some(id);
      store.selected := Some(id);
    }

    /**
     * `handleChangeNode`: merge an edit into the node carrying `id`.  The
     * edit's keys exclude id, x and y, so no node moves or is renumbered.
     */
    method HandleChangeNode(id: int, patch: map<Key, Value>)
      requires Valid()
      modifies store`nodes
      ensures Valid()
      ensures store.nodes == ApplyEdit(old(store.nodes), id, patch)
    {
      store.nodes := ApplyEdit(store.nodes, id, patch);
    }
  }

  /**
   * "Я" plus one child; a tap selects the child and the remove button
   * removes it.  Its parents go with it, so "Я" goes too and the board is
   * left empty.
   */
  method RemovingChildOfSelf() returns (left: seq<Person>, links: seq<Link>)
    ensures left == [] && links == []
  {
    var store := new GraphStore();
    store.AddNode(Child, None);
    var self := store.nodes[0];
    store.AddNode(Child, None);
    var child := store.nodes[1];
    var canvas := new Canvas(store);
    canvas.HandleTapNode(child.id);
    RemovingChildTakesParent(self, child, store.edges);
    store.RemoveNode(store.selected.value);
    left, links := store.nodes, store.edges;
  }
}
