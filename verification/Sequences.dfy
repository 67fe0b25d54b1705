/** Sequences of blocks and their concatenation, for results that nested loops append to. */
module Sequences {

  function Flatten<T>(blocks: seq<seq<T>>): seq<T> {
    if blocks == [] then [] else Flatten(blocks[..|blocks| - 1]) + blocks[|blocks| - 1]
  }

  /** Element `j` of block `i` comes after all earlier blocks. */
  lemma {:induction false} FlattenAt<T>(blocks: seq<seq<T>>, i: nat, j: nat)
    requires i < |blocks| && j < |blocks[i]|
    ensures |Flatten(blocks[..i])| + j < |Flatten(blocks)|
    ensures Flatten(blocks)[|Flatten(blocks[..i])| + j] == blocks[i][j]
  {
    var init := blocks[..|blocks| - 1];
    if i < |init| {
      FlattenAt(init, i, j);
      assert init[..i] == blocks[..i];
    }
  }

  lemma ConcatEqual<T>(a: seq<T>, x: seq<T>, b: seq<T>, y: seq<T>)
    requires |a| == |b|
    ensures a + x == b + y <==> a == b && x == y
  {
    if a + x == b + y {
      assert a == (a + x)[..|a|] == (b + y)[..|b|] == b;
      assert x == (a + x)[|a|..] == (b + y)[|b|..] == y;
    }
  }

  /** Concatenations of blocks of the same sizes are equal only block by block. */
  lemma {:induction false} FlattenEqual<T>(xs: seq<seq<T>>, ys: seq<seq<T>>)
    requires |xs| == |ys| && forall i | 0 <= i < |xs| :: |xs[i]| == |ys[i]|
    ensures |Flatten(xs)| == |Flatten(ys)|
    ensures Flatten(xs) == Flatten(ys) <==> xs == ys
  {
    if xs != [] {
      var n := |xs| - 1;
      FlattenEqual(xs[..n], ys[..n]);
      ConcatEqual(Flatten(xs[..n]), xs[n], Flatten(ys[..n]), ys[n]);
      assert xs[..n] + [xs[n]] == xs && ys[..n] + [ys[n]] == ys;
      ConcatEqual(xs[..n], [xs[n]], ys[..n], [ys[n]]);
    }
  }

  predicate Pairwise<X, Y>(xs: seq<X>, ys: seq<Y>, related: (X, Y) -> bool) {
    |xs| == |ys| && forall h | 0 <= h < |xs| :: related(xs[h], ys[h])
  }

  /** Blocks related element by element stay so when concatenated. */
  lemma {:induction false} FlattenPairwise<X, Y>(xs: seq<seq<X>>, ys: seq<seq<Y>>, related: (X, Y) -> bool)
    requires |xs| == |ys| && forall i | 0 <= i < |xs| :: Pairwise(xs[i], ys[i], related)
    ensures Pairwise(Flatten(xs), Flatten(ys), related)
  {
    if xs != [] {
      FlattenPairwise(xs[..|xs| - 1], ys[..|ys| - 1], related);
      assert Pairwise(xs[|xs| - 1], ys[|ys| - 1], related);
    }
  }
}
