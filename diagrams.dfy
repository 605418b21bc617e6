/**
 * The `diagrams` slice of the Redux store: the diagrams the server sent and, per
 * diagram id, its parts. `dragPart` moves a part in place; the fulfilled matchers
 * of the diagram and part requests recompute both fields from the server's reply;
 * the selectors look diagrams and parts up by id.
 */
module Diagrams {
  import opened Wrappers
  import opened Lists

  datatype Microcontroller = ATTiny85 | ArduinoNano | RasberryPiPico | ESP32

  /**
   * A part placed in a diagram. The reducer and the selector compare `part.id`, so
   * that is the key the model carries.
   */
  datatype Part = Part(id: string, x: real, y: real, name: string, angle: real, locked: bool, version: real)

  /** A diagram; `id` is its `_id`, a connection a pair of pin names. */
  datatype Diagram = Diagram(
    id: string, createdAt: string, updatedAt: string, owner: string, name: string,
    microcontroller: Microcontroller, parts: seq<Part>, connection: seq<(string, string)>)

  function PartId(p: Part): string {
    p.id
  }

  function DiagramId(d: Diagram): string {
    d.id
  }

  /** What `dragPart` does to the part it finds. */
  function MovedTo(x: real, y: real): Part -> Part {
    (p: Part) => p.(x := x, y := y)
  }

  /** The parts of a diagram after `dragPart` moved `partId` there. */
  function DraggedParts(parts: seq<Part>, partId: string, x: real, y: real): (r: seq<Part>)
    ensures |r| == |parts|
  {
    UpdateFirst(parts, PartId, partId, MovedTo(x, y))
  }

  /**
   * The `reduce` of the `getDiagrams` matcher: each diagram's id mapped to its parts,
   * folded from the first diagram to the last.
   */
  function PartsIndex(diagrams: seq<Diagram>): (m: map<string, seq<Part>>)
    ensures forall d :: d in diagrams ==> d.id in m
    ensures forall id :: id in m ==> exists j :: 0 <= j < |diagrams| && diagrams[j].id == id
    decreases |diagrams|
  {
    if diagrams == [] then map[]
    else
      var last := diagrams[|diagrams| - 1];
      var before := diagrams[..|diagrams| - 1];
      assert forall d :: d in diagrams ==> d in before || d == last by {
        assert diagrams == before + [last];
      }
      var inner := PartsIndex(before);
      assert forall id :: id in inner ==> exists j :: 0 <= j < |diagrams| && diagrams[j].id == id by {
        forall id | id in inner ensures exists j :: 0 <= j < |diagrams| && diagrams[j].id == id {
          var j :| 0 <= j < |before| && before[j].id == id;
          assert diagrams[j] == before[j];
        }
      }
      inner[last.id := last.parts]
  }

  /**
   * For each id, the index holds the parts of the LAST diagram with that id: a later
   * duplicate overwrites an earlier one.
   */
  lemma {:induction false} PartsIndexLastWins(diagrams: seq<Diagram>, j: nat)
    requires j < |diagrams|
    requires forall k :: j < k < |diagrams| ==> diagrams[k].id != diagrams[j].id
    ensures PartsIndex(diagrams)[diagrams[j].id] == diagrams[j].parts
    decreases |diagrams|
  {
    if j < |diagrams| - 1 {
      var before := diagrams[..|diagrams| - 1];
      assert before[j] == diagrams[j];
      PartsIndexLastWins(before, j);
    }
  }

  /** What `selectPartById` yields: a part, `undefined`, or a `TypeError` for a missing diagram key. */
  datatype PartLookup = TypeError | Returned(part: Option<Part>)

  class DiagramsState {
    var diagrams: seq<Diagram>
    var partsByDiagramId: map<string, seq<Part>>

    constructor ()
      ensures diagrams == [] && partsByDiagramId == map[]
    {
      diagrams := [];
      partsByDiagramId := map[];
    }

    /**
     * Moves the first part with `partId` under `diagramId`; nothing happens when the
     * diagram key or the part is missing.
     */
    method DragPart(diagramId: string, partId: string, x: real, y: real)
      modifies this
      ensures diagrams == old(diagrams)
      ensures diagramId !in old(partsByDiagramId) ==> partsByDiagramId == old(partsByDiagramId)
      ensures diagramId in old(partsByDiagramId) ==>
        partsByDiagramId == old(partsByDiagramId)[diagramId :=
          DraggedParts(old(partsByDiagramId)[diagramId], partId, x, y)]
    {
      if diagramId in partsByDiagramId {
        var parts := partsByDiagramId[diagramId];
        UpdateFirstAt(parts, PartId, partId, MovedTo(x, y));
        var partIndex := FindIndex(parts, PartId, partId);
        if partIndex != -1 {
          partsByDiagramId := partsByDiagramId[diagramId := parts[partIndex := parts[partIndex].(x := x, y := y)]];
        } else {
          assert partsByDiagramId[diagramId := parts] == partsByDiagramId;
        }
      }
    }

    /** The `getDiagrams` fulfilled matcher. */
    method GetDiagramsFulfilled(payload: seq<Diagram>)
      modifies this
      ensures diagrams == payload
      ensures partsByDiagramId == PartsIndex(payload)
    {
      diagrams := payload;
      partsByDiagramId := PartsIndex(payload);
    }

    /** The `addPart`, `updatePart` and `removePart` fulfilled matchers, whose bodies are identical. */
    method PartChangeFulfilled(diagram: Diagram)
      modifies this
      ensures partsByDiagramId == old(partsByDiagramId)[diagram.id := diagram.parts]
      ensures diagrams == ReplaceAll(old(diagrams), DiagramId, diagram.id, diagram)
    {
      partsByDiagramId := partsByDiagramId[diagram.id := diagram.parts];
      diagrams := ReplaceAll(diagrams, DiagramId, diagram.id, diagram);
    }

    /** `selectDiagramById`: the first diagram with that id, or `undefined`. */
    function SelectDiagramById(id: string): (r: Option<Diagram>)
      reads this
      ensures r.None? <==> forall j :: 0 <= j < |diagrams| ==> diagrams[j].id != id
      ensures r.Some? ==> r.value.id == id && r.value in diagrams
      ensures r.Some? ==> exists j :: 0 <= j < |diagrams| && diagrams[j] == r.value
                                      && forall k :: 0 <= k < j ==> diagrams[k].id != id
    {
      Find(diagrams, DiagramId, id)
    }

    /** `selectPartById`: the first part with `partId`; the lookup throws when `diagramId` is not a key of the index. */
    function SelectPartById(diagramId: string, partId: string): (r: PartLookup)
      reads this
      ensures r.TypeError? <==> diagramId !in partsByDiagramId
      ensures r.Returned? && r.part.Some? ==>
        r.part.value.id == partId && r.part.value in partsByDiagramId[diagramId]
      ensures r.Returned? && r.part.Some? ==>
        exists j :: 0 <= j < |partsByDiagramId[diagramId]| && partsByDiagramId[diagramId][j] == r.part.value
                    && forall k :: 0 <= k < j ==> partsByDiagramId[diagramId][k].id != partId
      ensures r.Returned? && r.part.None? ==>
        forall j :: 0 <= j < |partsByDiagramId[diagramId]| ==> partsByDiagramId[diagramId][j].id != partId
    {
      if diagramId !in partsByDiagramId then TypeError
      else Returned(Find(partsByDiagramId[diagramId], PartId, partId))
    }
  }

  /**
   * `dragPart` touches only `x` and `y` of the first part with the id: the other parts
   * and the part's other fields stay, and a missing part changes nothing.
   */
  lemma DragPartChangesOnlyPosition(parts: seq<Part>, partId: string, x: real, y: real)
    ensures var r := DraggedParts(parts, partId, x, y);
      var i := FindIndex(parts, PartId, partId);
      (i == -1 ==> r == parts)
      && (i != -1 ==>
            r[i] == Part(partId, x, y, parts[i].name, parts[i].angle, parts[i].locked, parts[i].version)
            && forall j :: 0 <= j < |r| && j != i ==> r[j] == parts[j])
  {
    UpdateFirstAt(parts, PartId, partId, MovedTo(x, y));
  }

  /** Looking a dragged part up again finds it at its new position. */
  lemma SelectDraggedPart(parts: seq<Part>, partId: string, x: real, y: real)
    ensures Find(DraggedParts(parts, partId, x, y), PartId, partId) ==
      match Find(parts, PartId, partId)
      case None => None
      case Some(p) => Some(p.(x := x, y := y))
  {
    FindAfterUpdateFirst(parts, PartId, partId, MovedTo(x, y));
  }

  /**
   * A part change keeps the list of diagrams the same length and order: each diagram
   * with the changed diagram's id becomes that diagram and every other stays; the
   * selectors then see the new diagram and its parts.
   */
  lemma PartChangeReplacesDiagram(diagrams: seq<Diagram>, index: map<string, seq<Part>>, diagram: Diagram)
    ensures var r := ReplaceAll(diagrams, DiagramId, diagram.id, diagram);
      |r| == |diagrams|
      && (forall j :: 0 <= j < |r| ==> r[j] == if diagrams[j].id == diagram.id then diagram else diagrams[j])
      && Find(r, DiagramId, diagram.id) ==
           (if exists j :: 0 <= j < |diagrams| && diagrams[j].id == diagram.id then Some(diagram) else None)
      && index[diagram.id := diagram.parts][diagram.id] == diagram.parts
      && forall k :: k in index && k != diagram.id ==> index[diagram.id := diagram.parts][k] == index[k]
  {
    ReplaceAllAt(diagrams, DiagramId, diagram.id, diagram);
    FindAfterReplaceAll(diagrams, DiagramId, diagram.id, diagram);
  }

  /** A part change that repeats the last one leaves the state as it was. */
  lemma PartChangeIdempotent(diagrams: seq<Diagram>, index: map<string, seq<Part>>, diagram: Diagram)
    ensures ReplaceAll(ReplaceAll(diagrams, DiagramId, diagram.id, diagram), DiagramId, diagram.id, diagram)
      == ReplaceAll(diagrams, DiagramId, diagram.id, diagram)
    ensures index[diagram.id := diagram.parts][diagram.id := diagram.parts] == index[diagram.id := diagram.parts]
  {
    ReplaceAllIdempotent(diagrams, DiagramId, diagram.id, diagram);
  }
}
