/** Sequence helpers shared by the reader model. */
module Seqs {

  /** Concatenates `f(x)` over the elements of `s`, in order (a generator yielding several items per input). */
  function FlatMap<A, B>(s: seq<A>, f: A -> seq<B>): seq<B>
  {
    if s == [] then [] else FlatMap(s[..|s| - 1], f) + f(s[|s| - 1])
  }

  /** `FlatMap` distributes over concatenation of its input. */
  lemma {:induction false} FlatMapAppend<A, B>(a: seq<A>, b: seq<A>, f: A -> seq<B>)
    ensures FlatMap(a + b, f) == FlatMap(a, f) + FlatMap(b, f)
    decreases |b|
  {
    if b == [] {
      assert a + b == a;
    } else {
      var ab := a + b;
      assert ab[..|ab| - 1] == a + b[..|b| - 1];
      assert ab[|ab| - 1] == b[|b| - 1];
      FlatMapAppend(a, b[..|b| - 1], f);
    }
  }

  /** On a single input, `FlatMap` is the function itself. */
  lemma FlatMapSingle<A, B>(x: A, f: A -> seq<B>)
    ensures FlatMap([x], f) == f(x)
  {
    assert [x][..0] == [];
  }

  /** Every element of `FlatMap(s, f)` comes from `f` applied to some element of `s`. */
  lemma {:induction false} FlatMapOrigin<A, B>(s: seq<A>, f: A -> seq<B>, k: nat) returns (j: nat)
    requires k < |FlatMap(s, f)|
    ensures j < |s| && FlatMap(s, f)[k] in f(s[j])
    decreases |s|
  {
    var init := s[..|s| - 1];
    var prefix := FlatMap(init, f);
    if k < |prefix| {
      j := FlatMapOrigin(init, f, k);
      assert s[j] == init[j];
    } else {
      j := |s| - 1;
      assert FlatMap(s, f)[k] == f(s[j])[k - |prefix|];
    }
  }
}
