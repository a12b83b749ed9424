// The ruler's major tick interval and the dialog that adds guides at given
// distances from the artboard's edges (App.tsx).
module RulerGuides {
  import opened Wrappers
  import opened Types

  // ------------------------------------------------------------------ ruler

  /** The candidate tick intervals, smallest first. */
  const Intervals: seq<int> := [1, 5, 10, 25, 50, 100, 250, 500, 1000]

  /** The least number of screen pixels between two major ticks. */
  const MinGap: real := 50.0

  /** Whether ticks `k` apart are more than `MinGap` pixels apart on screen. */
  predicate Wide(k: int, zoom: real) { k as real * zoom > MinGap }

  /** The position `intervals.find(interval => interval * zoom > minGap)`
    * stops at, or -1 when it finds nothing. */
  function FirstWide(ks: seq<int>, zoom: real): (p: int)
    ensures -1 <= p < |ks|
    ensures p >= 0 ==> Wide(ks[p], zoom) && forall q :: 0 <= q < p ==> !Wide(ks[q], zoom)
    ensures p == -1 ==> forall q :: 0 <= q < |ks| ==> !Wide(ks[q], zoom)
  {
    if ks == [] then -1
    else if Wide(ks[0], zoom) then 0
    else
      var p := FirstWide(ks[1..], zoom);
      if p == -1 then -1 else p + 1
  }

  /** `intervals.find(...) || 1000`: the major tick interval at `zoom`. */
  function OptimalInterval(zoom: real): int {
    var p := FirstWide(Intervals, zoom);
    if p == -1 then 1000 else Intervals[p]
  }

  /** The interval is the smallest candidate whose ticks are more than 50
    * pixels apart on screen; when none is, it is the largest, 1000. */
  lemma OptimalIntervalChoice(zoom: real)
    ensures var i := OptimalInterval(zoom);
      i in Intervals &&
      (Wide(i, zoom) || (i == 1000 && forall k :: k in Intervals ==> !Wide(k, zoom))) &&
      (forall k :: k in Intervals && k < i ==> !Wide(k, zoom))
  {
    var p := FirstWide(Intervals, zoom);
    assert forall q, q' :: 0 <= q < q' < |Intervals| ==> Intervals[q] < Intervals[q'];
    forall k | k in Intervals && k < OptimalInterval(zoom)
      ensures !Wide(k, zoom)
    {
      var q :| 0 <= q < |Intervals| && Intervals[q] == k;
      assert p == -1 || q < p;
    }
  }

  /** At zoom 1 the ticks are 100 apart; at zoom 0.01 even 1000 is too
    * close, and 1000 is used. */
  lemma OptimalIntervalExamples()
    ensures OptimalInterval(1.0) == 100
    ensures OptimalInterval(0.01) == 1000
  {
    OptimalIntervalChoice(1.0);
    OptimalIntervalChoice(0.01);
  }

  // ----------------------------------------------------------------- guides

  /** The four offset fields of the dialog, as typed. */
  datatype Offsets = Offsets(top: string, left: string, bottom: string, right: string)

  datatype Side = Top | Left | Bottom | Right

  /** The sides in the order the dialog adds them. */
  const Sides: seq<Side> := [Top, Left, Bottom, Right]

  /** A guide handed to `onSetGuides`, before it gets an id. */
  datatype NewGuide = NewGuide(orientation: Orientation, position: real)

  function OffsetOf(o: Offsets, side: Side): string {
    match side
    case Top => o.top
    case Left => o.left
    case Bottom => o.bottom
    case Right => o.right
  }

  /** The guide at distance `d` from `side` of a `width` by `height`
    * artboard. */
  function Placed(side: Side, d: real, width: real, height: real): (g: NewGuide)
    ensures g.orientation == Horizontal <==> side == Top || side == Bottom
    ensures side == Top ==> g.position == d
    ensures side == Left ==> g.position == d
    ensures side == Bottom ==> height - g.position == d
    ensures side == Right ==> width - g.position == d
  {
    match side
    case Top => NewGuide(Horizontal, d)
    case Left => NewGuide(Vertical, d)
    case Bottom => NewGuide(Horizontal, height - d)
    case Right => NewGuide(Vertical, width - d)
  }

  /** The guides for the non-empty offsets among `sides`, in order.
    * `parseFloat` is the number parser, a parameter of the model. */
  function Requested(o: Offsets, sides: seq<Side>, width: real, height: real,
                     parseFloat: string -> real): (r: seq<NewGuide>)
    ensures |r| <= |sides|
  {
    if sides == [] then []
    else
      var side := sides[|sides| - 1];
      var d := OffsetOf(o, side);
      Requested(o, sides[..|sides| - 1], width, height, parseFloat)
        + (if d != "" then [Placed(side, parseFloat(d), width, height)] else [])
  }

  /** Every guide built sits at the parsed offset from a side whose field is
    * filled in, every filled-in side gets its guide, and there is no guide
    * when no field is filled in. */
  lemma {:induction false} RequestedSides(o: Offsets, sides: seq<Side>, width: real, height: real,
                                          parseFloat: string -> real)
    ensures var r := Requested(o, sides, width, height, parseFloat);
      (forall g :: g in r ==>
        exists side :: side in sides && OffsetOf(o, side) != "" &&
          g == Placed(side, parseFloat(OffsetOf(o, side)), width, height)) &&
      (forall side :: side in sides && OffsetOf(o, side) != "" ==>
        Placed(side, parseFloat(OffsetOf(o, side)), width, height) in r) &&
      (r == [] <==> forall side :: side in sides ==> OffsetOf(o, side) == "")
  {
    if sides != [] {
      var init := sides[..|sides| - 1];
      RequestedSides(o, init, width, height, parseFloat);
      assert forall side :: side in sides <==> side == sides[|sides| - 1] || side in init;
    }
  }

  /** `handleAdd`: pushes a guide per filled-in field (top, left, bottom,
    * right) and calls `onSetGuides` when there is a guide or the existing
    * ones are to be cleared; the call, if any, is the result. */
  method HandleAdd(o: Offsets, clearExisting: bool, width: real, height: real,
                   parseFloat: string -> real) returns (call: Option<(seq<NewGuide>, bool)>)
    ensures call.Some? <==> (clearExisting || o.top != "" || o.left != "" || o.bottom != "" || o.right != "")
    ensures call.Some? ==> call.value == (Requested(o, Sides, width, height, parseFloat), clearExisting)
  {
    assert Sides[..3][..2] == Sides[..2] && Sides[..2][..1] == Sides[..1] && Sides[..1][..0] == [];
    assert Sides[..4] == Sides;
    var guidesToAdd: seq<NewGuide> := [];
    if o.top != "" {
      guidesToAdd := guidesToAdd + [NewGuide(Horizontal, parseFloat(o.top))];
    }
    assert guidesToAdd == Requested(o, Sides[..1], width, height, parseFloat);
    if o.left != "" {
      guidesToAdd := guidesToAdd + [NewGuide(Vertical, parseFloat(o.left))];
    }
    assert guidesToAdd == Requested(o, Sides[..2], width, height, parseFloat);
    if o.bottom != "" {
      guidesToAdd := guidesToAdd + [NewGuide(Horizontal, height - parseFloat(o.bottom))];
    }
    assert guidesToAdd == Requested(o, Sides[..3], width, height, parseFloat);
    if o.right != "" {
      guidesToAdd := guidesToAdd + [NewGuide(Vertical, width - parseFloat(o.right))];
    }
    assert guidesToAdd == Requested(o, Sides[..4], width, height, parseFloat);
    if |guidesToAdd| > 0 || clearExisting {
      call := Some((guidesToAdd, clearExisting));
    } else {
      call := None;
    }
  }
}
