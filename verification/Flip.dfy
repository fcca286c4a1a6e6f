/**
 Popper's flip modifier: it tries the sides of a flip order one after another, from the side the popper is on, and runs
 the modifiers before it again for every side it tries.
 */
module Flip {
  import opened Sequences

  datatype Side = Left | Right | Top | Bottom

  datatype Variation = NoVariation | Start | End

  datatype Rect = Rect(left: real, top: real, right: real, bottom: real)

  /** A step of a flip order: a side, and for some orders a variation of its own. */
  datatype Step = Step(side: Side, own: Variation)

  /**
   The placement is the step last taken, followed by the popper's variation; reruns counts how often the earlier
   modifiers were run again.
   */
  datatype Data = Data(at: Step, variation: Variation, flipped: bool, popper: Rect, reruns: nat)

  function SideOf(data: Data): Step {
    Step(data.at.side, NoVariation)
  }

  /**
   What the modifier looks at.  layout is where the popper ends up for a placement after the earlier modifiers have run
   for the given time.
   */
  datatype Setting = Setting(
    reference: Rect,
    boundaries: Rect,
    flipVariations: bool,
    layout: (nat, Step, Variation) -> Rect)

  // ---------------------------------------------------------------- one side

  predicate OverlapsRef(side: Side, popper: Rect, reference: Rect) {
    match side
    case Left => popper.right.Floor > reference.left.Floor
    case Right => popper.left.Floor < reference.right.Floor
    case Top => popper.bottom.Floor > reference.top.Floor
    case Bottom => popper.top.Floor < reference.bottom.Floor
  }

  predicate Overflows(side: Side, popper: Rect, boundaries: Rect) {
    match side
    case Left => popper.left.Floor < boundaries.left.Floor
    case Right => popper.right.Floor > boundaries.right.Floor
    case Top => popper.top.Floor < boundaries.top.Floor
    case Bottom => popper.bottom.Floor > boundaries.bottom.Floor
  }

  predicate Acceptable(s: Setting, data: Data) {
    !OverlapsRef(data.at.side, data.popper, s.reference) && !Overflows(data.at.side, data.popper, s.boundaries)
  }

  /** The popper's edge facing the reference is beyond it, and its far edge within the boundaries, give or take. */
  predicate Clear(side: Side, popper: Rect, reference: Rect, boundaries: Rect, slack: real) {
    match side
    case Left => popper.right <= reference.left + slack && popper.left >= boundaries.left - slack
    case Right => popper.left >= reference.right - slack && popper.right <= boundaries.right + slack
    case Top => popper.bottom <= reference.top + slack && popper.top >= boundaries.top - slack
    case Bottom => popper.top >= reference.bottom - slack && popper.bottom <= boundaries.bottom + slack
  }

  /** Rounding down loses less than a pixel: what is clear is acceptable, and what is acceptable is clear to a pixel. */
  lemma AcceptableIsClear(s: Setting, data: Data)
    ensures Clear(data.at.side, data.popper, s.reference, s.boundaries, 0.0) ==> Acceptable(s, data)
    ensures Acceptable(s, data) ==> Clear(data.at.side, data.popper, s.reference, s.boundaries, 1.0)
  {}

  predicate FlipsVariation(s: Setting, data: Data) {
    s.flipVariations &&
    match (data.at.side, data.variation)
    case (_, NoVariation) => false
    case (Top, Start) => Overflows(Left, data.popper, s.boundaries)
    case (Bottom, Start) => Overflows(Left, data.popper, s.boundaries)
    case (Top, End) => Overflows(Right, data.popper, s.boundaries)
    case (Bottom, End) => Overflows(Right, data.popper, s.boundaries)
    case (_, Start) => Overflows(Top, data.popper, s.boundaries)
    case (_, End) => Overflows(Bottom, data.popper, s.boundaries)
  }

  function Opposite(variation: Variation): Variation {
    match variation
    case Start => End
    case End => Start
    case NoVariation => NoVariation
  }

  /** The popper put at a step, with the variation flipped if it has to be, and the earlier modifiers run again. */
  function Moved(s: Setting, data: Data, step: Step): Data {
    var variation := if FlipsVariation(s, data) then Opposite(data.variation) else data.variation;
    Data(step, variation, true, s.layout(data.reruns, step, variation), data.reruns + 1)
  }

  // ---------------------------------------------------------------- the loop

  /** The loop's state: besides the data, the step it waits for. */
  datatype Looking = Looking(data: Data, placement: Step)

  /** One turn of the loop over the order: it acts only on the step it waits for, and not on the last one. */
  function Turn(s: Setting, l: Looking, order: seq<Step>, index: nat): Looking
    requires index < |order|
  {
    var side := SideOf(l.data);
    if l.placement != order[index] || |order| == index + 1 then l
    else if !Acceptable(s, l.data) then Looking(Moved(s, l.data, order[index + 1]), order[index + 1])
    else if FlipsVariation(s, l.data) then Looking(Moved(s, l.data, side), side)
    else Looking(l.data, side)
  }

  function Turns(s: Setting, l: Looking, order: seq<Step>, index: nat): Data
    requires index <= |order|
    decreases |order| - index
  {
    if index == |order| then l.data else Turns(s, Turn(s, l, order, index), order, index + 1)
  }

  function Searched(s: Setting, data: Data, order: seq<Step>): Data {
    Turns(s, Looking(data, SideOf(data)), order, 0)
  }

  method Search(s: Setting, data: Data, order: seq<Step>) returns (end: Data)
    ensures end == Searched(s, data, order)
  {
    end := data;
    var placement := Step(data.at.side, NoVariation);
    for index := 0 to |order|
      invariant Turns(s, Looking(end, placement), order, index) == Searched(s, data, order)
    {
      if placement != order[index] || |order| == index + 1 {
        continue;
      }
      placement := Step(end.at.side, NoVariation);
      var acceptable, flipsVariation := Acceptable(s, end), FlipsVariation(s, end);
      if !acceptable || flipsVariation {
        if !acceptable {
          placement := order[index + 1];
        }
        end := Moved(s, end, placement);
      }
    }
  }

  // ---------------------------------------------------------------- the flip orders

  datatype Behavior = FlipBehavior | Clockwise | Counterclockwise | Custom(order: seq<Step>)

  function OppositeSide(side: Side): Side {
    match side
    case Left => Right
    case Right => Left
    case Top => Bottom
    case Bottom => Top
  }

  const VALID_PLACEMENTS: seq<Step> := [
    Step(Top, Start), Step(Top, NoVariation), Step(Top, End),
    Step(Right, Start), Step(Right, NoVariation), Step(Right, End),
    Step(Bottom, End), Step(Bottom, NoVariation), Step(Bottom, Start),
    Step(Left, End), Step(Left, NoVariation), Step(Left, Start)]

  function IndexOf(order: seq<Step>, step: Step): (k: nat)
    ensures k <= |order| && step !in order[..k] && (k < |order| ==> order[k] == step)
  {
    if order == [] || order[0] == step then 0
    else
      assert order[..1 + IndexOf(order[1..], step)] == [order[0]] + order[1..][..IndexOf(order[1..], step)];
      1 + IndexOf(order[1..], step)
  }

  /** The placements after the given one, and then those before it. */
  function Around(placements: seq<Step>, step: Step): seq<Step>
    requires step in placements
  {
    var index := IndexOf(placements, step);
    assert placements[..|placements|] == placements;
    placements[index + 1..] + placements[..index]
  }

  function Reversed(order: seq<Step>): (r: seq<Step>)
    ensures forall step :: step in r <==> step in order
  {
    if order == [] then [] else Reversed(order[1..]) + [order[0]]
  }

  lemma SidesAreValid(side: Side)
    ensures Step(side, NoVariation) in VALID_PLACEMENTS
  {
    assert VALID_PLACEMENTS[1] == Step(Top, NoVariation) && VALID_PLACEMENTS[4] == Step(Right, NoVariation);
    assert VALID_PLACEMENTS[7] == Step(Bottom, NoVariation) && VALID_PLACEMENTS[10] == Step(Left, NoVariation);
  }

  function FlipOrder(behavior: Behavior, side: Side): seq<Step> {
    SidesAreValid(side);
    match behavior
    case FlipBehavior => [Step(side, NoVariation), Step(OppositeSide(side), NoVariation)]
    case Clockwise => Around(VALID_PLACEMENTS, Step(side, NoVariation))
    case Counterclockwise => Reversed(Around(VALID_PLACEMENTS, Step(side, NoVariation)))
    case Custom(order) => order
  }

  /** A placement as it is written: the side and the variations after it. */
  function Written(data: Data): (Side, seq<Variation>) {
    var own := if data.at.own == NoVariation then [] else [data.at.own];
    (data.at.side, own + if data.variation == NoVariation then [] else [data.variation])
  }

  function Modified(s: Setting, data: Data, behavior: Behavior, inner: bool, original: (Side, seq<Variation>)): Data {
    if inner || (data.flipped && Written(data) == original) then data
    else Searched(s, data, FlipOrder(behavior, data.at.side))
  }

  /** The modifier; inner says whether the inner modifier is enabled, and original is the placement to begin with. */
  method Modify(s: Setting, data: Data, behavior: Behavior, inner: bool, original: (Side, seq<Variation>))
    returns (end: Data)
    requires data.at.own == NoVariation
    ensures end == Modified(s, data, behavior, inner, original)
  {
    if inner || (data.flipped && Written(data) == original) {
      return data;
    }
    end := Search(s, data, FlipOrder(behavior, data.at.side));
  }

  // ---------------------------------------------------------------- a side that is not in the order

  lemma {:induction false} TurnsElsewhere(s: Setting, l: Looking, order: seq<Step>, index: nat, to: nat)
    requires index <= to <= |order| && forall i :: index <= i < to ==> order[i] != l.placement || i == |order| - 1
    ensures Turns(s, l, order, index) == Turns(s, l, order, to)
    decreases |order| - index
  {
    if index < to {
      TurnsElsewhere(s, l, order, index + 1, to);
    }
  }

  lemma SideAbsent(s: Setting, data: Data, order: seq<Step>)
    requires SideOf(data) !in order
    ensures Searched(s, data, order) == data
  {
    TurnsElsewhere(s, Looking(data, SideOf(data)), order, 0, |order|);
  }

  lemma NotAround(placements: seq<Step>, step: Step)
    requires step in placements && NoRepeats(placements)
    ensures step !in Around(placements, step)
  {
    var index := IndexOf(placements, step);
    assert placements[..|placements|] == placements;
    assert placements[index] == step;
  }

  /** The clockwise and counterclockwise orders leave out the side the popper is on, so they never flip anything. */
  lemma AroundNeverFlips(s: Setting, data: Data, behavior: Behavior, inner: bool, original: (Side, seq<Variation>))
    requires behavior == Clockwise || behavior == Counterclockwise
    ensures Modified(s, data, behavior, inner, original) == data
  {
    SidesAreValid(data.at.side);
    ValidDoNotRepeat(VALID_PLACEMENTS);
    NotAround(VALID_PLACEMENTS, SideOf(data));
    SideAbsent(s, data, FlipOrder(behavior, data.at.side));
  }

  lemma ValidDoNotRepeat(placements: seq<Step>)
    requires placements == VALID_PLACEMENTS
    ensures NoRepeats(placements)
  {}

  // ---------------------------------------------------------------- where the search ends

  /** No side twice, whatever the variations. */
  predicate DistinctSides(order: seq<Step>) {
    forall i, j :: 0 <= i < j < |order| ==> order[i].side != order[j].side
  }

  /** The popper at the i-th step of the order, when it was at the k-th and none between was acceptable. */
  function Tried(s: Setting, data: Data, order: seq<Step>, k: nat, i: nat): Data
    requires k <= i < |order|
  {
    if i == k then data else Moved(s, Tried(s, data, order, k, i - 1), order[i])
  }

  predicate FirstAcceptable(s: Setting, data: Data, order: seq<Step>, k: nat, j: nat)
    requires k <= j < |order|
  {
    && (forall m :: k <= m < j ==> !Acceptable(s, Tried(s, data, order, k, m)))
    && (j < |order| - 1 ==> Acceptable(s, Tried(s, data, order, k, j)))
  }

  /** The first acceptable step from the i-th on, or the last step. */
  function Choice(s: Setting, data: Data, order: seq<Step>, k: nat, i: nat): (j: nat)
    requires k <= i < |order|
    ensures i <= j < |order|
    ensures forall m :: i <= m < j ==> !Acceptable(s, Tried(s, data, order, k, m))
    ensures j < |order| - 1 ==> Acceptable(s, Tried(s, data, order, k, j))
    decreases |order| - i
  {
    if i == |order| - 1 || Acceptable(s, Tried(s, data, order, k, i)) then i else Choice(s, data, order, k, i + 1)
  }

  /** Where the search ends: at the j-th step, with its variation flipped once more if it has to be. */
  function Ended(s: Setting, data: Data, order: seq<Step>, k: nat, j: nat): Data
    requires k <= j < |order|
  {
    var end := Tried(s, data, order, k, j);
    if j < |order| - 1 && FlipsVariation(s, end) then Moved(s, end, SideOf(end)) else end
  }

  lemma {:induction false} TriedAt(s: Setting, data: Data, order: seq<Step>, k: nat, i: nat)
    requires k <= i < |order| && data.at.side == order[k].side
    ensures Tried(s, data, order, k, i).at.side == order[i].side
    ensures Tried(s, data, order, k, i).reruns == data.reruns + (i - k)
  {
    if i > k {
      TriedAt(s, data, order, k, i - 1);
    }
  }

  lemma {:induction false} TurnsEnd(s: Setting, data: Data, order: seq<Step>, k: nat, i: nat, j: nat)
    requires DistinctSides(order) && k <= i <= j < |order| && data.at.side == order[k].side
    requires FirstAcceptable(s, data, order, k, j)
    ensures Turns(s, Looking(Tried(s, data, order, k, i), order[i]), order, i) == Ended(s, data, order, k, j)
    decreases |order| - i
  {
    var l := Looking(Tried(s, data, order, k, i), order[i]);
    TriedAt(s, data, order, k, i);
    if i < j {
      TurnsEnd(s, data, order, k, i + 1, j);
    } else if j == |order| - 1 {
      assert Turns(s, l, order, j + 1) == l.data;
    } else {
      TurnsElsewhere(s, Turn(s, l, order, j), order, j + 1, |order|);
    }
  }

  /** For an order without a side twice, the loop over all its steps is a search from the side the popper is on. */
  lemma SearchEnds(s: Setting, data: Data, order: seq<Step>, k: nat, j: nat)
    requires DistinctSides(order) && k <= j < |order| && order[k] == SideOf(data)
    requires FirstAcceptable(s, data, order, k, j)
    ensures Searched(s, data, order) == Ended(s, data, order, k, j)
  {
    TurnsElsewhere(s, Looking(data, SideOf(data)), order, 0, k);
    TurnsEnd(s, data, order, k, k, j);
  }

  lemma OneFirst(s: Setting, data: Data, order: seq<Step>, k: nat, i: nat, j: nat)
    requires k <= i < |order| && k <= j < |order|
    requires FirstAcceptable(s, data, order, k, i) && FirstAcceptable(s, data, order, k, j)
    ensures i == j
  {}

  /**
   The search ends on the first side, from the current one on, that is acceptable when the popper has been put there, or
   on the last side of the order if none is.  The earlier modifiers run again once for each side left, and once more if
   the variation is flipped; never more often than there are sides after the current one.
   */
  lemma EndsOnFirstAcceptable(s: Setting, data: Data, order: seq<Step>, k: nat, j: nat)
    requires DistinctSides(order) && k <= j < |order| && order[k] == SideOf(data)
    ensures Searched(s, data, order).at.side == order[j].side <==> FirstAcceptable(s, data, order, k, j)
    ensures FirstAcceptable(s, data, order, k, j) ==>
              var reruns := Searched(s, data, order).reruns - data.reruns;
              j - k <= reruns <= |order| - 1 - k && reruns <= j - k + 1
  {
    var c := Choice(s, data, order, k, k);
    SearchEnds(s, data, order, k, c);
    TriedAt(s, data, order, k, c);
    if FirstAcceptable(s, data, order, k, j) {
      OneFirst(s, data, order, k, c, j);
    }
  }

  /** A side acceptable to begin with is kept, and so is the popper, unless the variation is to be flipped. */
  lemma AcceptableStays(s: Setting, data: Data, order: seq<Step>)
    requires Acceptable(s, data) && !FlipsVariation(s, data)
    ensures Searched(s, data, order) == data
  {
    StaysFrom(s, data, order, 0);
  }

  lemma {:induction false} StaysFrom(s: Setting, data: Data, order: seq<Step>, index: nat)
    requires Acceptable(s, data) && !FlipsVariation(s, data) && index <= |order|
    ensures Turns(s, Looking(data, SideOf(data)), order, index) == data
    decreases |order| - index
  {
    if index < |order| {
      StaysFrom(s, data, order, index + 1);
    }
  }

  // ---------------------------------------------------------------- the modifier, on coordinates

  /** Above or below the reference the variation looks left and right; beside it, up and down. */
  predicate VariationRunsOut(data: Data, b: Rect) {
    if data.at.side == Top || data.at.side == Bottom then
      || (data.variation == Start && data.popper.left.Floor < b.left.Floor)
      || (data.variation == End && data.popper.right.Floor > b.right.Floor)
    else
      || (data.variation == Start && data.popper.top.Floor < b.top.Floor)
      || (data.variation == End && data.popper.bottom.Floor > b.bottom.Floor)
  }

  /** The popper lies over the reference, or runs out of the boundaries, on the side it has been put; in whole pixels. */
  predicate SideFails(data: Data, r: Rect, b: Rect) {
    || (data.at.side == Left && (data.popper.right.Floor > r.left.Floor || data.popper.left.Floor < b.left.Floor))
    || (data.at.side == Right && (data.popper.left.Floor < r.right.Floor || data.popper.right.Floor > b.right.Floor))
    || (data.at.side == Top && (data.popper.bottom.Floor > r.top.Floor || data.popper.top.Floor < b.top.Floor))
    || (data.at.side == Bottom && (data.popper.top.Floor < r.bottom.Floor || data.popper.bottom.Floor > b.bottom.Floor))
  }

  predicate Faces(side: Side, other: Side) {
    || (side == Left && other == Right) || (side == Right && other == Left)
    || (side == Top && other == Bottom) || (side == Bottom && other == Top)
  }

  /** The placement is, as written, the one to begin with. */
  predicate BackAtStart(data: Data, original: (Side, seq<Variation>)) {
    data.at.side == original.0 && original.1 == if data.variation == NoVariation then [] else [data.variation]
  }

  lemma TwoSteps(s: Setting, data: Data, other: Side)
    requires data.at.side != other
    ensures
      Searched(s, data, [SideOf(data), Step(other, NoVariation)])
      == if !Acceptable(s, data) then Moved(s, data, Step(other, NoVariation))
         else if FlipsVariation(s, data) then Moved(s, data, SideOf(data)) else data
  {
    var order, l := [SideOf(data), Step(other, NoVariation)], Looking(data, SideOf(data));
    var next := Turn(s, l, order, 0);
    assert Turns(s, l, order, 0) == Turns(s, next, order, 1);
    assert Turns(s, next, order, 1) == Turns(s, Turn(s, next, order, 1), order, 2) == next.data;
  }

  /**
   Flipping between two sides: a popper that fails on its side goes to the one facing it, and otherwise stays; its
   variation turns round when it has run out of room.  If either happens, the earlier modifiers run again.
   */
  lemma FlipsToFacing(s: Setting, data: Data, inner: bool, original: (Side, seq<Variation>), other: Side)
    requires data.at.own == NoVariation && Faces(data.at.side, other)
    ensures
      var end := Modified(s, data, FlipBehavior, inner, original);
      var turns := s.flipVariations && VariationRunsOut(data, s.boundaries);
      var variation := if !turns then data.variation else if data.variation == Start then End else Start;
      var side := if SideFails(data, s.reference, s.boundaries) then other else data.at.side;
      if inner || (data.flipped && BackAtStart(data, original)) || (side == data.at.side && !turns) then end == data
      else
        && end.at == Step(side, NoVariation) && end.variation == variation && end.flipped
        && end.popper == s.layout(data.reruns, Step(side, NoVariation), variation) && end.reruns == data.reruns + 1
  {
    WrittenBack(data, original);
    TwoSteps(s, data, other);
    FailsIff(s, data);
  }

  lemma WrittenBack(data: Data, original: (Side, seq<Variation>))
    requires data.at.own == NoVariation
    ensures Written(data) == original <==> BackAtStart(data, original)
  {
    assert [] + [data.variation] == [data.variation];
  }

  lemma FailsIff(s: Setting, data: Data)
    ensures Acceptable(s, data) <==> !SideFails(data, s.reference, s.boundaries)
    ensures FlipsVariation(s, data) <==> s.flipVariations && VariationRunsOut(data, s.boundaries)
  {}

  /** An order of the caller's own is searched as it is. */
  lemma CustomSearches(s: Setting, data: Data, order: seq<Step>, inner: bool, original: (Side, seq<Variation>))
    requires data.at.own == NoVariation
    ensures Modified(s, data, Custom(order), inner, original)
         == if inner || (data.flipped && BackAtStart(data, original)) then data else Searched(s, data, order)
  {
    WrittenBack(data, original);
  }
}
