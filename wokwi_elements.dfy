/**
 * The `wokwi` slice of the Redux store: the list of circuit elements placed on the
 * canvas and whether the grid is shown. Each reducer mutates the slice's draft in
 * place; here the slice is a class and each reducer a method on it.
 */
module WokwiElements {
  import opened Lists

  /** A `DiagramsElement`; JavaScript numbers are modelled as reals. */
  datatype Element = Element(id: string, x: real, y: real, name: string, angle: real, locked: bool)

  function ElementId(e: Element): string {
    e.id
  }

  /** What `dragElement` does to the element it finds. */
  function MovedTo(x: real, y: real): Element -> Element {
    (e: Element) => e.(x := x, y := y)
  }

  /** What `editElementName` does to the element it finds. */
  function NamedAs(name: string): Element -> Element {
    (e: Element) => e.(name := name)
  }

  /** The elements after `dragElement({id, x, y})`. */
  function Dragged(elements: seq<Element>, id: string, x: real, y: real): (r: seq<Element>)
    ensures |r| == |elements|
  {
    UpdateFirst(elements, ElementId, id, MovedTo(x, y))
  }

  /** The elements after `editElementName({id, name})`. */
  function Renamed(elements: seq<Element>, id: string, name: string): (r: seq<Element>)
    ensures |r| == |elements|
  {
    UpdateFirst(elements, ElementId, id, NamedAs(name))
  }

  /** The elements after `deleteElement(id)`. */
  function Deleted(elements: seq<Element>, id: string): (r: seq<Element>)
    ensures forall j :: 0 <= j < |r| ==> r[j].id != id
  {
    Without(elements, ElementId, id)
  }

  class WokwiState {
    var elements: seq<Element>
    var showGrid: bool

    /** The initial state; `showGrid` is what local storage held, passed in. */
    constructor (storedShowGrid: bool)
      ensures elements == [] && showGrid == storedShowGrid
    {
      elements := [];
      showGrid := storedShowGrid;
    }

    method ToggleGrid()
      modifies this
      ensures showGrid == !old(showGrid)
      ensures elements == old(elements)
    {
      showGrid := !showGrid;
    }

    method SetElements(payload: seq<Element>)
      modifies this
      ensures elements == payload
      ensures showGrid == old(showGrid)
    {
      elements := payload;
    }

    method AddElement(payload: Element)
      modifies this
      ensures elements == old(elements) + [payload]
      ensures showGrid == old(showGrid)
    {
      elements := elements + [payload];
    }

    /** Moves the first element with `id`; the position `find` returns is written in place. */
    method DragElement(id: string, x: real, y: real)
      modifies this
      ensures elements == Dragged(old(elements), id, x, y)
      ensures showGrid == old(showGrid)
    {
      UpdateFirstAt(elements, ElementId, id, MovedTo(x, y));
      var i := FindIndex(elements, ElementId, id);
      if i != -1 {
        elements := elements[i := elements[i].(x := x, y := y)];
      }
    }

    method EditElementName(id: string, name: string)
      modifies this
      ensures elements == Renamed(old(elements), id, name)
      ensures showGrid == old(showGrid)
    {
      UpdateFirstAt(elements, ElementId, id, NamedAs(name));
      var i := FindIndex(elements, ElementId, id);
      if i != -1 {
        elements := elements[i := elements[i].(name := name)];
      }
    }

    method DeleteElement(id: string)
      modifies this
      ensures elements == Deleted(old(elements), id)
      ensures showGrid == old(showGrid)
    {
      elements := Without(elements, ElementId, id);
    }
  }

  /** Toggling the grid twice restores the original state. */
  method ToggleGridTwice(state: WokwiState)
    modifies state
    ensures state.showGrid == old(state.showGrid) && state.elements == old(state.elements)
  {
    state.ToggleGrid();
    state.ToggleGrid();
  }

  /**
   * `dragElement` changes only `x` and `y` of the first element with the id: every other
   * element, and every other field of that one, is unchanged, and an absent id changes nothing.
   */
  lemma DragChangesOnlyPosition(elements: seq<Element>, id: string, x: real, y: real)
    ensures var r := Dragged(elements, id, x, y);
      var i := FindIndex(elements, ElementId, id);
      (i == -1 ==> r == elements)
      && (i != -1 ==>
            r[i].x == x && r[i].y == y && r[i].id == id
            && r[i].name == elements[i].name && r[i].angle == elements[i].angle
            && r[i].locked == elements[i].locked
            && forall j :: 0 <= j < |r| && j != i ==> r[j] == elements[j])
  {
    UpdateFirstAt(elements, ElementId, id, MovedTo(x, y));
  }

  /** `editElementName` changes only `name` of the first element with the id, and nothing if absent. */
  lemma RenameChangesOnlyName(elements: seq<Element>, id: string, name: string)
    ensures var r := Renamed(elements, id, name);
      var i := FindIndex(elements, ElementId, id);
      (i == -1 ==> r == elements)
      && (i != -1 ==>
            r[i] == Element(id, elements[i].x, elements[i].y, name, elements[i].angle, elements[i].locked)
            && forall j :: 0 <= j < |r| && j != i ==> r[j] == elements[j])
  {
    UpdateFirstAt(elements, ElementId, id, NamedAs(name));
  }

  /** A second drag of the same element overrides the first. */
  lemma {:induction false} DragTwice(elements: seq<Element>, id: string, x1: real, y1: real, x2: real, y2: real)
    ensures Dragged(Dragged(elements, id, x1, y1), id, x2, y2) == Dragged(elements, id, x2, y2)
    decreases |elements|
  {
    if elements != [] && elements[0].id != id {
      DragTwice(elements[1..], id, x1, y1, x2, y2);
    }
  }

  /**
   * `deleteElement` removes every element with the id and keeps every other element:
   * an element survives exactly when it was there and carries another id, and the
   * survivors of two consecutive stretches of the list stay in that order.
   */
  lemma DeleteKeepsOthersInOrder(a: seq<Element>, b: seq<Element>, id: string, e: Element)
    ensures e in Deleted(a + b, id) <==> e in a + b && e.id != id
    ensures Deleted(a + b, id) == Deleted(a, id) + Deleted(b, id)
  {
    WithoutMembers(a + b, ElementId, id, e);
    WithoutAppend(a, b, ElementId, id);
  }

  /** Deleting an id that no element carries changes nothing; deleting twice is deleting once. */
  lemma DeleteAbsentOrTwice(elements: seq<Element>, id: string)
    ensures (forall j :: 0 <= j < |elements| ==> elements[j].id != id) ==> Deleted(elements, id) == elements
    ensures Deleted(Deleted(elements, id), id) == Deleted(elements, id)
  {
    if forall j :: 0 <= j < |elements| ==> elements[j].id != id {
      WithoutAbsent(elements, ElementId, id);
    }
    WithoutIdempotent(elements, ElementId, id);
  }

  /** After a delete, dragging or renaming that id finds nothing. */
  lemma EditAfterDelete(elements: seq<Element>, id: string, x: real, y: real, name: string)
    ensures Dragged(Deleted(elements, id), id, x, y) == Deleted(elements, id)
    ensures Renamed(Deleted(elements, id), id, name) == Deleted(elements, id)
  {
    var d := Deleted(elements, id);
    UpdateFirstAt(d, ElementId, id, MovedTo(x, y));
    UpdateFirstAt(d, ElementId, id, NamedAs(name));
  }
}
