module Basics {
  datatype Option<T> = None | Some(value: T)

  function Min(a: int, b: int): int { if a <= b then a else b }

  /** The state after the given steps, if every one of them was possible. */
  function Iterated<S, A>(next: (S, A) -> Option<S>, s: S, steps: seq<A>): Option<S>
    decreases |steps|
  {
    if |steps| == 0 then Some(s)
    else if next(s, steps[0]).Some? then Iterated(next, next(s, steps[0]).value, steps[1..])
    else None
  }

  lemma {:induction false} IteratedBoth<S, A>(next: (S, A) -> Option<S>, s: S, before: seq<A>, more: seq<A>)
    requires Iterated(next, s, before).Some?
    ensures Iterated(next, s, before + more) == Iterated(next, Iterated(next, s, before).value, more)
    decreases |before|
  {
    if |before| == 0 {
      assert before + more == more;
    } else {
      IteratedBoth(next, next(s, before[0]).value, before[1..], more);
      assert (before + more)[1..] == before[1..] + more;
    }
  }

  lemma IteratedOne<S, A>(next: (S, A) -> Option<S>, s: S, a: A, more: seq<A>)
    requires next(s, a).Some?
    ensures Iterated(next, s, [a] + more) == Iterated(next, next(s, a).value, more)
  {
    assert ([a] + more)[1..] == more;
  }
}
