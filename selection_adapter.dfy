/** SelectionAdapter: the mouse listener that lets a right-button drag draw
    a selection rectangle on the map. Only its own state is modelled; the
    map viewer it repaints and re-centres is not. */
module SelectionAdapter {
  import opened Outcomes

  /** `MouseEvent.BUTTON3`, the right button. */
  const BUTTON3: int := 3

  /** A point in component pixels. */
  datatype Point = Point(x: int, y: int)

  /** `java.awt.Rectangle`: a corner and a size. */
  datatype Rectangle = Rectangle(x: int, y: int, width: int, height: int)

  function Min(a: int, b: int): int { if a <= b then a else b }
  function Max(a: int, b: int): int { if a <= b then b else a }

  /** The rectangle with the componentwise minimum of two points as its
      corner, reaching their componentwise maximum. */
  function Span(a: Point, b: Point): (r: Rectangle)
    ensures r.width >= 0 && r.height >= 0
    ensures Covers(r, a) && Covers(r, b)
  {
    var x1 := Min(a.x, b.x);
    var y1 := Min(a.y, b.y);
    var x2 := Max(a.x, b.x);
    var y2 := Max(a.y, b.y);
    Rectangle(x1, y1, x2 - x1, y2 - y1)
  }

  /** `p` lies inside `r` or on its border. */
  predicate Covers(r: Rectangle, p: Point)
  {
    r.x <= p.x <= r.x + r.width && r.y <= p.y <= r.y + r.height
  }

  /** Every point of `inner` lies inside `outer` or on its border. */
  predicate Encloses(outer: Rectangle, inner: Rectangle)
  {
    outer.x <= inner.x && inner.x + inner.width <= outer.x + outer.width &&
    outer.y <= inner.y && inner.y + inner.height <= outer.y + outer.height
  }

  /** The span is the smallest rectangle covering both points: any
      rectangle covering both encloses it. */
  lemma SpanIsSmallest(a: Point, b: Point, q: Rectangle)
    ensures Covers(q, a) && Covers(q, b) <==> Encloses(q, Span(a, b))
  {
  }

  /** The span does not depend on which point came first. */
  lemma SpanSymmetric(a: Point, b: Point)
    ensures Span(a, b) == Span(b, a)
  {
  }

  class SelectionAdapter {
    var dragging: bool
    var startPos: Point
    var endPos: Point

    /** A new adapter is not dragging; both points are the origin, as a
        fresh `Point2D.Double` is. */
    constructor()
      ensures !dragging && startPos == Point(0, 0) && endPos == Point(0, 0)
    {
      dragging := false;
      startPos := Point(0, 0);
      endPos := Point(0, 0);
    }

    /** `mousePressed`: a right-button press starts a selection at `p`;
        any other button is ignored. */
    method MousePressed(button: int, p: Point)
      modifies this
      ensures button != BUTTON3 ==>
                dragging == old(dragging) && startPos == old(startPos) && endPos == old(endPos)
      ensures button == BUTTON3 ==> dragging && startPos == p && endPos == p
      ensures button == BUTTON3 ==> GetRectangle() == Some(Rectangle(p.x, p.y, 0, 0))
    {
      if button != BUTTON3 {
        return;
      }
      startPos := p;
      endPos := p;
      dragging := true;
    }

    /** `mouseDragged`: while a selection is open its far corner follows
        the pointer; otherwise nothing changes. */
    method MouseDragged(p: Point)
      modifies this
      ensures dragging == old(dragging) && startPos == old(startPos)
      ensures endPos == if old(dragging) then p else old(endPos)
      ensures dragging ==> GetRectangle() == Some(Span(startPos, p))
    {
      if !dragging {
        return;
      }
      endPos := p;
    }

    /** `mouseReleased`: releasing the right button ends an open selection
        and yields the rectangle the viewer is then centred on; a release
        with no open selection, or of another button, changes nothing. */
    method MouseReleased(button: int) returns (selected: Option<Rectangle>)
      modifies this
      ensures old(dragging) && button == BUTTON3 ==>
                !dragging && selected == Some(Span(old(startPos), old(endPos)))
      ensures !(old(dragging) && button == BUTTON3) ==>
                selected == None && dragging == old(dragging)
      ensures startPos == old(startPos) && endPos == old(endPos)
    {
      if !dragging {
        return None;
      }
      if button != BUTTON3 {
        return None;
      }
      var rectangle := GetRectangle();
      selected := rectangle;
      dragging := false;
    }

    /** `getRectangle`: the selection while one is open, null otherwise. */
    function GetRectangle(): (r: Option<Rectangle>)
      reads this
      ensures r.Some? <==> dragging
      ensures r.Some? ==> r.value.width >= 0 && r.value.height >= 0
      ensures r.Some? ==> Covers(r.value, startPos) && Covers(r.value, endPos)
      ensures r.Some? ==> forall q :: Covers(q, startPos) && Covers(q, endPos) ==> Encloses(q, r.value)
    {
      if dragging then Some(Span(startPos, endPos)) else None
    }
  }

  /** A right-button press at `a` followed by a drag to `b` selects the
      smallest rectangle covering both points. */
  method PressThenDrag(a: Point, b: Point) returns (r: Option<Rectangle>)
    ensures r == Some(Span(a, b))
    ensures r.value.width == (if a.x <= b.x then b.x - a.x else a.x - b.x)
    ensures r.value.height == (if a.y <= b.y then b.y - a.y else a.y - b.y)
  {
    var adapter := new SelectionAdapter();
    adapter.MousePressed(BUTTON3, a);
    adapter.MouseDragged(b);
    r := adapter.GetRectangle();
  }
}
