/**
  The session's pin list and its synchronisation with the drawing canvas:
  every run rebuilds the pins from the canvas's list of drawn objects, which
  carries no identity, and keeps ids and names by list position.
 */
module PinRegistry {
  import opened Wrappers

  /** One placed pin: its id, its centre on the image, its fill colour and its user-given name. */
  datatype Pin = Pin(id: int, x: real, y: real, color: string, name: string)

  /** One entry of the canvas's object list; every field may be missing. */
  datatype CanvasObject = CanvasObject(
    kind: Option<string>,
    radius: Option<real>,
    left: Option<real>,
    top: Option<real>,
    fill: Option<string>)

  const DefaultRadius: real := 8.0
  const DefaultFill: string := "#000000"

  /** Only circles drawn on the canvas are pins. */
  predicate IsCircle(o: CanvasObject)
  {
    o.kind == Some("circle")
  }

  /** The fill of an object, or black when the fill is missing or empty. */
  function FillOf(o: CanvasObject): (c: string)
    ensures c != ""
    ensures c == DefaultFill || o.fill == Some(c)
    ensures o.fill.Some? && o.fill.value != "" ==> c == o.fill.value
  {
    if o.fill.Some? && o.fill.value != "" then o.fill.value else DefaultFill
  }

  /**
    The pin an object is observed as, before ids and names are assigned: its
    centre is its top left corner shifted by its radius in both directions.
   */
  function PinOf(o: CanvasObject): (p: Pin)
    ensures p.id == 0 && p.name == "" && p.color != ""
    ensures p.color == FillOf(o)
    ensures p.x == o.left.GetOr(0.0) + o.radius.GetOr(DefaultRadius)
    ensures p.y == o.top.GetOr(0.0) + o.radius.GetOr(DefaultRadius)
  {
    var r := o.radius.GetOr(DefaultRadius);
    Pin(0, o.left.GetOr(0.0) + r, o.top.GetOr(0.0) + r, FillOf(o), "")
  }

  /** The circles among the objects, in their order. */
  function Circles(objects: seq<CanvasObject>): (cs: seq<CanvasObject>)
    ensures |cs| <= |objects|
    ensures forall o :: o in cs ==> IsCircle(o) && o in objects
  {
    if objects == [] then []
    else
      var last := objects[|objects| - 1];
      Circles(objects[..|objects| - 1]) + if IsCircle(last) then [last] else []
  }

  /** The pins observed on the canvas, one per circle, in order, with id 0 and no name. */
  function Observed(objects: seq<CanvasObject>): (pins: seq<Pin>)
    ensures |pins| == |Circles(objects)| <= |objects|
    ensures forall i :: 0 <= i < |pins| ==> pins[i].id == 0 && pins[i].name == "" && pins[i].color != ""
  {
    var cs := Circles(objects);
    seq(|cs|, i requires 0 <= i < |cs| => PinOf(cs[i]))
  }

  /** Number of pins that received a new id: those past the end of the previous list. */
  function Added(oldCount: nat, newCount: nat): (n: nat)
  {
    if newCount > oldCount then newCount - oldCount else 0
  }

  /** Every id is at least 1 and below `nextId`. */
  predicate IdsBelow(pins: seq<Pin>, nextId: int)
  {
    forall i :: 0 <= i < |pins| ==> 1 <= pins[i].id < nextId
  }

  /** No two pins share an id. */
  predicate IdsDistinct(pins: seq<Pin>)
  {
    forall i, j :: 0 <= i < j < |pins| ==> pins[i].id != pins[j].id
  }

  // ---------------------------------------------------------------------
  // Properties of the observation
  // ---------------------------------------------------------------------

  /** Filtering circles commutes with concatenation: the circles keep their relative order. */
  lemma {:induction false} CirclesAppend(a: seq<CanvasObject>, b: seq<CanvasObject>)
    ensures Circles(a + b) == Circles(a) + Circles(b)
    decreases |b|
  {
    if b == [] {
      assert a + b == a;
    } else {
      assert (a + b)[..|a + b| - 1] == a + b[..|b| - 1];
      CirclesAppend(a, b[..|b| - 1]);
    }
  }

  /** Each circle occurs among the circles as often as among the objects; every other object never. */
  lemma {:induction false} CirclesCount(objects: seq<CanvasObject>, o: CanvasObject)
    ensures multiset(Circles(objects))[o] == if IsCircle(o) then multiset(objects)[o] else 0
  {
    if objects != [] {
      var init, last := objects[..|objects| - 1], objects[|objects| - 1];
      assert objects == init + [last];
      CirclesCount(init, o);
    }
  }

  /** Observing one more object adds its pin at the end exactly when it is a circle. */
  lemma ObservedSnoc(objects: seq<CanvasObject>, o: CanvasObject)
    ensures Observed(objects + [o]) == Observed(objects) + if IsCircle(o) then [PinOf(o)] else []
  {
    assert (objects + [o])[..|objects|] == objects;
  }

  /**
    The pin at position `i` is centred on the circle at position `i`: its
    top left corner moved by the radius (8 when missing) in both directions,
    a missing corner coordinate counting as 0, and it takes that circle's fill.
   */
  lemma ObservedPins(objects: seq<CanvasObject>, i: int)
    requires 0 <= i < |Observed(objects)|
    ensures Observed(objects)[i].x == Circles(objects)[i].left.GetOr(0.0) + Circles(objects)[i].radius.GetOr(DefaultRadius)
    ensures Observed(objects)[i].y == Circles(objects)[i].top.GetOr(0.0) + Circles(objects)[i].radius.GetOr(DefaultRadius)
    ensures Observed(objects)[i].color == FillOf(Circles(objects)[i])
    ensures IsCircle(Circles(objects)[i])
  {
  }

  // ---------------------------------------------------------------------
  // The session state
  // ---------------------------------------------------------------------

  /** The session's pins and the next id to hand out. */
  class Registry {
    var pins: seq<Pin>
    var nextId: int

    /** Ids are distinct, positive and below the next id to hand out. */
    ghost predicate Valid()
      reads this
    {
      1 <= nextId && IdsBelow(pins, nextId) && IdsDistinct(pins)
    }

    /** A new session: no pins, next id 1. */
    constructor ()
      ensures Valid()
      ensures pins == [] && nextId == 1
    {
      pins := [];
      nextId := 1;
    }

    /** "Clear all pins": no pins and the id counter back at 1, whatever the state before. */
    method Clear()
      modifies this
      ensures Valid()
      ensures pins == [] && nextId == 1
    {
      pins := [];
      nextId := 1;
    }

    /**
      Rebuilds the pins from the canvas's objects. The new list has one pin per
      circle, in order, placed and coloured as observed. A pin at a position
      the old list also had takes that old pin's id and name; each further pin
      gets the next id in turn and no name. Old pins past the new length are
      dropped.
     */
    method Sync(objects: seq<CanvasObject>)
      modifies this
      ensures |pins| == |Observed(objects)|
      ensures forall i :: 0 <= i < |pins| ==>
        pins[i].x == Observed(objects)[i].x && pins[i].y == Observed(objects)[i].y &&
        pins[i].color == Observed(objects)[i].color
      ensures forall i :: 0 <= i < |pins| && i < |old(pins)| ==>
        pins[i].id == old(pins)[i].id && pins[i].name == old(pins)[i].name
      ensures forall i :: |old(pins)| <= i < |pins| ==>
        pins[i].id == old(nextId) + (i - |old(pins)|) && pins[i].name == ""
      ensures nextId == old(nextId) + Added(|old(pins)|, |pins|) && old(nextId) <= nextId
      ensures old(Valid()) ==> Valid()
    {
      var newPins: seq<Pin> := [];
      var k := 0;
      while k < |objects|
        invariant 0 <= k <= |objects|
        invariant newPins == Observed(objects[..k])
        invariant pins == old(pins) && nextId == old(nextId)
      {
        ObservedSnoc(objects[..k], objects[k]);
        assert objects[..k + 1] == objects[..k] + [objects[k]];
        if IsCircle(objects[k]) {
          newPins := newPins + [PinOf(objects[k])];
        }
        k := k + 1;
      }
      assert objects[..k] == objects;
      ghost var observed := newPins;

      ghost var oldNext := nextId;
      var i := 0;
      while i < |newPins|
        invariant 0 <= i <= |newPins| == |observed|
        invariant pins == old(pins) && oldNext == old(nextId)
        invariant forall j :: i <= j < |newPins| ==> newPins[j] == observed[j]
        invariant forall j :: 0 <= j < i ==>
          newPins[j].x == observed[j].x && newPins[j].y == observed[j].y && newPins[j].color == observed[j].color
        invariant forall j :: 0 <= j < i && j < |pins| ==>
          newPins[j].id == pins[j].id && newPins[j].name == pins[j].name
        invariant forall j :: |pins| <= j < i ==>
          newPins[j].id == oldNext + (j - |pins|) && newPins[j].name == ""
        invariant nextId == oldNext + Added(|pins|, i)
      {
        if i < |pins| {
          newPins := newPins[i := newPins[i].(id := pins[i].id, name := pins[i].name)];
        } else {
          newPins := newPins[i := newPins[i].(id := nextId)];
          nextId := nextId + 1;
        }
        i := i + 1;
      }
      pins := newPins;
    }
  }
}
