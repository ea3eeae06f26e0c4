/**
 * The trending carousel on the homepage: a module-level `index` moved by the
 * next and prev buttons with wrap-around, and the track offset derived from
 * it. JavaScript's `%` truncates and `x % 0` is NaN, so an empty carousel's
 * index becomes NaN on the first press and stays so.
 */
module Carousel {

  /** A JavaScript number as this script can produce it: an integer, or NaN. */
  datatype Index = At(n: int) | NaN

  /** JavaScript's `a % b` for `b > 0`: the remainder takes the sign of `a`. */
  function JsRem(a: int, b: int): (r: int)
    requires b > 0
    ensures a >= 0 ==> 0 <= r < b && r == a % b
    ensures a < 0 ==> -b < r <= 0
  {
    if a >= 0 then a % b else -((-a) % b)
  }

  /** `(index + 1) % totalItems`. */
  function NextIndex(i: Index, total: nat): Index {
    match i
    case NaN => NaN
    case At(n) => if total == 0 then NaN else At(JsRem(n + 1, total))
  }

  /** `(index - 1 + totalItems) % totalItems`. */
  function PrevIndex(i: Index, total: nat): Index {
    match i
    case NaN => NaN
    case At(n) => if total == 0 then NaN else At(JsRem(n - 1 + total, total))
  }

  /** The index names one of the items. */
  predicate InRange(i: Index, total: nat) {
    i.At? && 0 <= i.n < total
  }

  /** `translateX(-${index * 100}%)`: the offset in percent, or NaN. */
  function OffsetOf(i: Index): (r: Index)
    ensures i.At? ==> r == At(i.n * 100)
    ensures i.NaN? ==> r == NaN
  {
    match i
    case NaN => NaN
    case At(n) => At(n * 100)
  }

  class Carousel {
    /** `items.length`, fixed when the script loads. */
    const total: nat
    var index: Index

    /** The index names an item, or the carousel is empty. */
    ghost predicate Valid()
      reads this
    {
      if total == 0 then index == At(0) || index == NaN else InRange(index, total)
    }

    constructor (total: nat)
      ensures this.total == total && index == At(0)
      ensures Valid()
    {
      this.total := total;
      index := At(0);
    }

    /** The current transform offset. */
    function Offset(): (r: Index)
      reads this
      ensures Valid() && total > 0 ==> r.At? && 0 <= r.n < total * 100 && r.n % 100 == 0
    {
      OffsetOf(index)
    }

    /** The next button. */
    method Next()
      requires Valid()
      modifies this
      ensures Valid()
      ensures index == NextIndex(old(index), total)
    {
      match index
      case NaN =>
      case At(n) =>
        if total == 0 {
          index := NaN;
        } else {
          index := At(JsRem(n + 1, total));
        }
    }

    /** The prev button. */
    method Prev()
      requires Valid()
      modifies this
      ensures Valid()
      ensures index == PrevIndex(old(index), total)
    {
      match index
      case NaN =>
      case At(n) =>
        if total == 0 {
          index := NaN;
        } else {
          index := At(JsRem(n - 1 + total, total));
        }
    }
  }

  /** Next from the last item wraps to the first. */
  lemma NextWrapsToFirst(total: nat)
    requires total > 0
    ensures NextIndex(At(total - 1), total) == At(0)
  {
  }

  /** Prev from the first item wraps to the last. */
  lemma PrevWrapsToLast(total: nat)
    requires total > 0
    ensures PrevIndex(At(0), total) == At(total - 1)
  {
  }

  /** Prev undoes next, and next undoes prev. */
  lemma PrevNextInverse(i: Index, total: nat)
    requires InRange(i, total)
    ensures PrevIndex(NextIndex(i, total), total) == i
    ensures NextIndex(PrevIndex(i, total), total) == i
  {
    var n := i.n;
    if n + 1 < total {
      ModOfSmall(n + 1, total);
    } else {
      ModOnce(n + 1, total);
      ModOfSmall(total - 1, total);
    }
    ModOnce(n + total, total);
    if n == 0 {
      ModOfSmall(total - 1, total);
      ModOnce(total, total);
    } else {
      ModOnce(n - 1 + total, total);
      ModOfSmall(n, total);
    }
  }

  lemma ModOfSmall(a: int, b: int)
    requires 0 <= a < b
    ensures a % b == a
  {
  }

  lemma ModOnce(a: int, b: int)
    requires 0 < b <= a < 2 * b
    ensures a % b == a - b
  {
  }

  /** The index after `k` presses of next. */
  function PressNext(i: Index, total: nat, k: nat): Index {
    if k == 0 then i else NextIndex(PressNext(i, total, k - 1), total)
  }

  /** Up to one full turn, `k` presses of next move an in-range index `k` places round the ring. */
  lemma {:induction false} PressNextMoves(i: Index, total: nat, k: nat)
    requires InRange(i, total) && k <= total
    ensures PressNext(i, total, k) == At(if i.n + k < total then i.n + k else i.n + k - total)
  {
    if k > 0 {
      PressNextMoves(i, total, k - 1);
      var m := i.n + k - 1;
      if m + 1 < total {
        ModOfSmall(m + 1, total);
      } else if m + 1 == total {
        ModOnce(m + 1, total);
      } else {
        ModOfSmall(m + 1 - total, total);
      }
    }
  }

  /** Pressing next once per item brings the carousel back where it started. */
  lemma FullTurnReturns(i: Index, total: nat)
    requires InRange(i, total)
    ensures PressNext(i, total, total) == i
  {
    PressNextMoves(i, total, total);
  }

  /** An empty carousel's index is NaN after any press and stays NaN. */
  lemma EmptyCarouselIsNaN(i: Index, k: nat)
    requires k > 0
    ensures PressNext(i, 0, k) == NaN
  {
  }
}
