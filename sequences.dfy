/** Sequence helpers shared by the modules of this project. */
module Sequences {

  /** `f` applied to every element, in order: what a loop pushing one result per element builds. */
  function MapSeq<A, B>(xs: seq<A>, f: A --> B): (ys: seq<B>)
    requires forall i :: 0 <= i < |xs| ==> f.requires(xs[i])
    ensures |ys| == |xs|
    ensures forall i :: 0 <= i < |xs| ==> ys[i] == f(xs[i])
    decreases |xs|
  {
    if |xs| == 0 then []
    else
      var init := xs[..|xs| - 1];
      assert forall i :: 0 <= i < |init| ==> init[i] == xs[i];
      MapSeq(init, f) + [f(xs[|xs| - 1])]
  }

  /** Mapping one more element appends its image. */
  lemma MapSeqSnoc<A, B>(xs: seq<A>, i: nat, f: A --> B)
    requires i < |xs|
    requires forall j :: 0 <= j < |xs| ==> f.requires(xs[j])
    ensures MapSeq(xs[..i + 1], f) == MapSeq(xs[..i], f) + [f(xs[i])]
  {
    assert xs[..i + 1][..i] == xs[..i];
  }
}
