/** A ring of `count` slots: block j, counted from the start, lives in slot At(count, j). */
module RingSlots {

  function Next(count: nat, i: nat): nat { if i + 1 < count then i + 1 else 0 }

  function Prev(count: nat, i: nat): (p: nat)
    requires count > 0
    ensures i < count ==> p < count
  {
    if i == 0 then count - 1 else i - 1
  }

  function At(count: nat, j: nat): (i: nat)
    requires count > 0
    ensures i < count
  {
    if j == 0 then 0 else Next(count, At(count, j - 1))
  }

  lemma {:induction false} AtPlus(count: nat, j: nat, k: nat)
    requires k < count
    ensures At(count, j + k) == if At(count, j) + k < count then At(count, j) + k else At(count, j) + k - count
  {
    if k > 0 { AtPlus(count, j, k - 1); }
  }

  /** Fewer than count blocks apart, two blocks never share a slot. */
  lemma AtApart(count: nat, i: nat, j: nat)
    requires count > 0 && i < j < i + count
    ensures At(count, i) != At(count, j)
  {
    AtPlus(count, i, j - i);
  }

  lemma AtWraps(count: nat, i: nat)
    requires count > 0
    ensures At(count, i + count) == At(count, i)
  {
    AtPlus(count, i, count - 1);
  }

  lemma AtNext(count: nat, j: nat)
    requires count > 0
    ensures At(count, j + 1) == Next(count, At(count, j))
  {
  }

  lemma AtPrev(count: nat, j: nat)
    requires count > 0 && j > 0
    ensures Prev(count, At(count, j)) == At(count, j - 1)
  {
  }

  lemma AtSmall(count: nat, j: nat)
    requires j < count
    ensures At(count, j) == j
  {
    AtPlus(count, 0, j);
  }

  /** A device taking one step after another. */
  function Iterate<S, E>(step: (S, E) -> S, s: S, es: seq<E>): S
    decreases |es|
  {
    if es == [] then s else Iterate(step, step(s, es[0]), es[1..])
  }
}
