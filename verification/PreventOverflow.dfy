/**
 Popper's preventOverflow modifier: it walks a priority list of sides and moves the popper inside its boundaries, one
 side after another.  It never refreshes the popper's right and bottom, which it reads; what it computes is clamping
 all the same.
 */
module PreventOverflow {

  datatype Side = Left | Top | Right | Bottom

  datatype Offsets = Offsets(left: real, top: real, right: real, bottom: real, width: real, height: real)

  datatype Boundaries = Boundaries(left: real, top: real, right: real, bottom: real)

  function Min(a: real, b: real): real {
    if a <= b then a else b
  }

  function Max(a: real, b: real): real {
    if a >= b then a else b
  }

  /** What runModifiers does to the popper's offsets before each modifier. */
  function GetClientRect(p: Offsets): (r: Offsets)
    ensures r.right == p.left + p.width && r.bottom == p.top + p.height
    ensures r.left == p.left && r.top == p.top && r.width == p.width && r.height == p.height
  {
    p.(right := p.left + p.width, bottom := p.top + p.height)
  }

  /** The check of one side. */
  function Check(p: Offsets, b: Boundaries, side: Side, escape: bool): Offsets {
    match side
    case Left => p.(left := if p.left < b.left && !escape then Max(p.left, b.left) else p.left)
    case Top => p.(top := if p.top < b.top && !escape then Max(p.top, b.top) else p.top)
    case Right => p.(left := if p.right > b.right && !escape then Min(p.left, b.right - p.width) else p.left)
    case Bottom => p.(top := if p.bottom > b.bottom && !escape then Min(p.top, b.bottom - p.height) else p.top)
  }

  function CheckAll(p: Offsets, b: Boundaries, order: seq<Side>, escape: bool): Offsets {
    if order == [] then p
    else Check(CheckAll(p, b, order[..|order| - 1], escape), b, order[|order| - 1], escape)
  }

  method Prevent(popper: Offsets, boundaries: Boundaries, order: seq<Side>, escapeWithReference: bool)
    returns (moved: Offsets)
    ensures moved == CheckAll(popper, boundaries, order, escapeWithReference)
  {
    moved := popper;
    for i := 0 to |order|
      invariant moved == CheckAll(popper, boundaries, order[..i], escapeWithReference)
    {
      assert order[..i + 1][..i] == order[..i];
      match order[i] {
        case Left =>
          if moved.left < boundaries.left && !escapeWithReference {
            moved := moved.(left := Max(moved.left, boundaries.left));
          }
        case Top =>
          if moved.top < boundaries.top && !escapeWithReference {
            moved := moved.(top := Max(moved.top, boundaries.top));
          }
        case Right =>
          if moved.right > boundaries.right && !escapeWithReference {
            moved := moved.(left := Min(moved.left, boundaries.right - moved.width));
          }
        case Bottom =>
          if moved.bottom > boundaries.bottom && !escapeWithReference {
            moved := moved.(top := Min(moved.top, boundaries.bottom - moved.height));
          }
      }
    }
    assert order[..|order|] == order;
  }

  // ---------------------------------------------------------------- one axis

  /** Whether, of two sides, near is the last to occur in the order. */
  predicate LastIs(order: seq<Side>, near: Side, far: Side) {
    order != [] &&
    (order[|order| - 1] == near ||
     (order[|order| - 1] != far && LastIs(order[..|order| - 1], near, far)))
  }

  /**
   Where one axis ends up: at, of a popper of this size, between lo and hi, when the sides near and far are in the order
   or not.  Only where the popper does not fit does it matter which of the two comes last.
   */
  function Settled(at: real, size: real, lo: real, hi: real, near: bool, far: bool, nearLast: bool): real {
    if far && at + size > hi then if nearLast then Max(hi - size, lo) else hi - size
    else if near then Max(at, lo)
    else at
  }

  function SettledLeft(p: Offsets, b: Boundaries, order: seq<Side>): real {
    Settled(p.left, p.width, b.left, b.right, Left in order, Right in order, LastIs(order, Left, Right))
  }

  function SettledTop(p: Offsets, b: Boundaries, order: seq<Side>): real {
    Settled(p.top, p.height, b.top, b.bottom, Top in order, Bottom in order, LastIs(order, Top, Bottom))
  }

  lemma {:induction false} LastOccurs(order: seq<Side>, near: Side, far: Side)
    requires near != far
    ensures LastIs(order, near, far) ==> near in order
    ensures near in order ==> LastIs(order, near, far) || far in order
    ensures !(LastIs(order, near, far) && LastIs(order, far, near))
  {
    if order != [] {
      LastOccurs(order[..|order| - 1], near, far);
    }
  }

  lemma InFront(order: seq<Side>, side: Side)
    requires order != []
    ensures side in order <==> side in order[..|order| - 1] || side == order[|order| - 1]
  {}

  lemma {:induction false} SizesKept(p: Offsets, b: Boundaries, order: seq<Side>, escape: bool)
    ensures
      var q := CheckAll(p, b, order, escape);
      q.right == p.right && q.bottom == p.bottom && q.width == p.width && q.height == p.height
  {
    if order != [] {
      SizesKept(p, b, order[..|order| - 1], escape);
    }
  }

  /** For any order, boundaries and popper: the loop in closed form, from the refreshed offsets. */
  lemma {:induction false} LoopSettles(p: Offsets, b: Boundaries, order: seq<Side>)
    ensures
      CheckAll(GetClientRect(p), b, order, false) == GetClientRect(p).(left := SettledLeft(p, b, order),
                                                                       top := SettledTop(p, b, order))
  {
    if order != [] {
      var front := order[..|order| - 1];
      LoopSettles(p, b, front);
      LastOccurs(front, Left, Right);
      LastOccurs(front, Top, Bottom);
      InFront(order, Left);
      InFront(order, Right);
      InFront(order, Top);
      InFront(order, Bottom);
    }
  }

  // ---------------------------------------------------------------- clamping

  function Clamp(x: real, lo: real, hi: real): real {
    Max(lo, Min(x, hi))
  }

  /** The refreshed offsets, with the position clamped to the boundaries. */
  function Clamped(p: Offsets, b: Boundaries): Offsets {
    GetClientRect(p).(left := Clamp(p.left, b.left, b.right - p.width), top := Clamp(p.top, b.top, b.bottom - p.height))
  }

  predicate Fits(p: Offsets, b: Boundaries) {
    p.width <= b.right - b.left && p.height <= b.bottom - b.top
  }

  predicate Complete(order: seq<Side>) {
    Left in order && Top in order && Right in order && Bottom in order
  }

  /** When the popper fits, the loop clamps its position, in whatever order and however often the sides are checked. */
  lemma LoopClamps(p: Offsets, b: Boundaries, order: seq<Side>)
    requires Complete(order) && Fits(p, b)
    ensures CheckAll(GetClientRect(p), b, order, false) == Clamped(p, b)
  {
    LoopSettles(p, b, order);
  }

  /** Along one axis: one that does not fit and sticks out at the far side is clamped only if the near side comes last. */
  predicate ClampsAlong(at: real, size: real, lo: real, hi: real, nearLast: bool) {
    size <= hi - lo || nearLast || at + size <= hi
  }

  /** Exactly when the loop clamps, for every popper and every boundaries. */
  lemma ClampsIff(p: Offsets, b: Boundaries, order: seq<Side>)
    requires Complete(order)
    ensures
      CheckAll(GetClientRect(p), b, order, false) == Clamped(p, b) <==>
      && ClampsAlong(p.left, p.width, b.left, b.right, LastIs(order, Left, Right))
      && ClampsAlong(p.top, p.height, b.top, b.bottom, LastIs(order, Top, Bottom))
  {
    LoopSettles(p, b, order);
  }

  predicate Inside(r: Offsets, b: Boundaries) {
    b.left <= r.left && r.right <= b.right && b.top <= r.top && r.bottom <= b.bottom
  }

  /** Once its right and bottom are refreshed, the popper is inside its boundaries exactly when it fits. */
  lemma InsideIffFits(p: Offsets, b: Boundaries, order: seq<Side>)
    requires Complete(order)
    ensures Inside(GetClientRect(CheckAll(GetClientRect(p), b, order, false)), b) <==> Fits(p, b)
  {
    SizesKept(GetClientRect(p), b, order, false);
    if Fits(p, b) {
      LoopClamps(p, b, order);
    }
  }

  /** A popper that is inside is not moved; running the modifier again changes nothing. */
  lemma SecondRunKeeps(p: Offsets, b: Boundaries, order: seq<Side>, again: seq<Side>)
    requires Complete(order) && Fits(p, b)
    ensures
      var first := CheckAll(GetClientRect(p), b, order, false);
      CheckAll(GetClientRect(first), b, again, false) == GetClientRect(first)
  {
    var first := CheckAll(GetClientRect(p), b, order, false);
    LoopClamps(p, b, order);
    LoopSettles(first, b, again);
  }

  /** With escapeWithReference the popper stays where it is. */
  lemma {:induction false} EscapeKeeps(p: Offsets, b: Boundaries, order: seq<Side>)
    ensures CheckAll(p, b, order, true) == p
  {
    if order != [] {
      EscapeKeeps(p, b, order[..|order| - 1]);
    }
  }
}
