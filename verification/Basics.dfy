/** Results that may be missing or an error, the smaller and larger of two numbers, sequences and folds over them. */
module Basics {
  datatype Option<+T> = None | Some(value: T)

  datatype Result<+T> = Ok(value: T) | Err(error: string)

  function Min(a: nat, b: nat): nat { if a <= b then a else b }

  function Max(a: int, b: int): int { if a >= b then a else b }

  lemma TakeNext<T>(s: seq<T>, i: nat)
    requires i < |s|
    ensures s[..i + 1] == s[..i] + [s[i]]
  {
  }

  lemma TakeAll<T>(s: seq<T>)
    ensures s[..|s|] == s
  {
  }

  lemma Regroup<T>(a: seq<T>, b: seq<T>, c: seq<T>)
    ensures a + b + c == a + (b + c)
  {
  }

  /** The state that a sequence of inputs leads to. */
  ghost function Fold<S, A>(f: (S, A) -> S, s: S, inputs: seq<A>): S {
    if inputs == [] then s else f(Fold(f, s, inputs[..|inputs| - 1]), inputs[|inputs| - 1])
  }

  lemma FoldNext<S, A>(f: (S, A) -> S, s: S, inputs: seq<A>, a: A)
    ensures Fold(f, s, inputs + [a]) == f(Fold(f, s, inputs), a)
  {
    assert (inputs + [a])[..|inputs|] == inputs;
  }

  lemma {:induction false} FoldConcat<S, A>(f: (S, A) -> S, s: S, a: seq<A>, b: seq<A>)
    ensures Fold(f, s, a + b) == Fold(f, Fold(f, s, a), b)
    decreases |b|
  {
    if b == [] {
      assert a + b == a;
    } else {
      var before, last := b[..|b| - 1], b[|b| - 1];
      FoldConcat(f, s, a, before);
      FoldNext(f, s, a + before, last);
      assert a + b == a + before + [last];
    }
  }

  /** A trace of single steps ends where the fold does. */
  lemma {:induction false} FoldTrace<S, A>(f: (S, A) -> S, states: seq<S>, inputs: seq<A>, n: nat)
    requires n <= |inputs| == |states| - 1
    requires forall i, j | 0 <= i < |inputs| && 0 <= j < |states| && j == i + 1 :: states[j] == f(states[i], inputs[i])
    ensures Fold(f, states[0], inputs[..n]) == states[n]
  {
    if n > 0 {
      FoldTrace(f, states, inputs, n - 1);
      FoldNext(f, states[0], inputs[..n - 1], inputs[n - 1]);
      assert inputs[..n] == inputs[..n - 1] + [inputs[n - 1]];
    }
  }
}
