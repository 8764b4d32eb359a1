/**
 * frontend/src/components/ProductDetails.jsx: the image carousel of the
 * product modal. Both buttons do nothing unless the product has more than
 * one image; otherwise they step through the images cyclically.
 */
module ProductDetails {

  /** The index shown when a product finishes loading. */
  const InitialIndex: int := 0

  /** handleNextImage. */
  function Next(index: int, count: nat): (r: int)
    ensures count <= 1 ==> r == index
    ensures count > 1 && 0 <= index < count ==> 0 <= r < count
    ensures count > 1 && 0 <= index < count ==> r == (index + 1) % count
  {
    if count > 1 then (if index == count - 1 then 0 else index + 1) else index
  }

  /** handlePrevImage. */
  function Prev(index: int, count: nat): (r: int)
    ensures count <= 1 ==> r == index
    ensures count > 1 && 0 <= index < count ==> 0 <= r < count
    ensures count > 1 && 0 <= index < count ==> r == (index + count - 1) % count
  {
    if count > 1 then (if index == 0 then count - 1 else index - 1) else index
  }

  /** Prev undoes Next and Next undoes Prev, on every index in range. */
  lemma PrevNextInverse(index: int, count: nat)
    requires 0 <= index < count
    ensures Prev(Next(index, count), count) == index
    ensures Next(Prev(index, count), count) == index
  {
  }

  /** Pressing Next `k` times. */
  function NextTimes(index: int, count: nat, k: nat): (r: int)
  {
    if k == 0 then index else Next(NextTimes(index, count, k - 1), count)
  }

  /** Before a full round, `k` presses from the first image land on image `k`. */
  lemma {:induction false} NextTimesBelowCount(count: nat, k: nat)
    requires k < count
    ensures NextTimes(InitialIndex, count, k) == k
  {
    if k > 0 {
      NextTimesBelowCount(count, k - 1);
    }
  }

  /** Every image is reached, and a full round returns to the first. */
  lemma CarouselCycles(count: nat)
    requires count > 1
    ensures NextTimes(InitialIndex, count, count) == InitialIndex
    ensures forall k :: 0 <= k < count ==> NextTimes(InitialIndex, count, k) == k
  {
    NextTimesBelowCount(count, count - 1);
    forall k | 0 <= k < count ensures NextTimes(InitialIndex, count, k) == k {
      NextTimesBelowCount(count, k);
    }
  }
}
