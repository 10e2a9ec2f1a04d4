/** Strictly increasing instants derived from raw commit timestamps: advanceCommitTime, which
    pkg/formats/delta/source.go and pkg/formats/iceberg/source.go both define. */
module Instants {
  import opened Common

  function Advance(previous: int, raw: int): int
  {
    if raw > previous then raw else previous + 1
  }

  /** The instant derived for the last of these commits; 0 before the first. */
  function Chain(raws: seq<int>): int
  {
    if raws == [] then 0 else Advance(Chain(raws[..|raws| - 1]), Last(raws))
  }

  /** Derived instants are positive and strictly increase with the position, whatever the raw
      timestamps say; that they depend on the prefix alone is in the signature of Chain. */
  lemma {:induction false} ChainIncreases(raws: seq<int>, i: nat, j: nat)
    requires i < j <= |raws|
    ensures 0 <= Chain(raws[..i]) < Chain(raws[..j])
    decreases j
  {
    assert raws[..j][..j - 1] == raws[..j - 1];
    if i < j - 1 {
      ChainIncreases(raws, i, j - 1);
    } else if i > 0 {
      ChainIncreases(raws, i - 1, i);
    }
  }

  lemma {:induction false} ChainStep(raws: seq<int>, i: nat)
    requires i < |raws|
    ensures Chain(raws[..i + 1]) == Advance(Chain(raws[..i]), raws[i])
  {
    assert raws[..i + 1][..i] == raws[..i];
  }

  /** A chain that starts later is never ahead. */
  lemma {:induction false} LaterStartIsLower(head: seq<int>, tail: seq<int>)
    ensures Chain(tail) <= Chain(head + tail)
  {
    if tail == [] {
      assert head + tail == head;
      if head != [] {
        ChainIncreases(head, 0, |head|);
        assert head[..|head|] == head;
      }
    } else {
      LaterStartIsLower(head, tail[..|tail| - 1]);
      assert (head + tail)[..|head + tail| - 1] == head + tail[..|tail| - 1];
    }
  }

  /** Position m of the tail carries a raw timestamp above the instant the full chain had reached. */
  ghost predicate CatchesUp(head: seq<int>, tail: seq<int>, m: nat)
  {
    m < |tail| && tail[m] > Chain(head + tail[..m])
  }

  /** A chain that drops a non-empty head agrees with the full one at the end if and only if some
      raw timestamp since then overtook the full chain. */
  lemma {:induction false} LaterStartAgreesIff(head: seq<int>, tail: seq<int>)
    requires head != []
    ensures Chain(tail) == Chain(head + tail) <==> exists m :: CatchesUp(head, tail, m)
  {
    if tail == [] {
      assert head + tail == head;
      ChainIncreases(head, 0, |head|);
      assert head[..|head|] == head;
    } else {
      var init := tail[..|tail| - 1];
      LaterStartAgreesIff(head, init);
      LaterStartIsLower(head, init);
      assert (head + tail)[..|head + tail| - 1] == head + init;
      assert forall m :: 0 <= m < |init| ==> init[..m] == tail[..m];
      if m :| CatchesUp(head, init, m) {
        assert CatchesUp(head, tail, m);
      }
      if CatchesUp(head, tail, |tail| - 1) {
      } else if m :| CatchesUp(head, tail, m) {
        assert CatchesUp(head, init, m);
      }
    }
  }

  ghost predicate Increasing(raws: seq<int>)
  {
    && (forall i :: 0 <= i < |raws| ==> raws[i] > 0)
    && (forall i, j :: 0 <= i < j < |raws| ==> raws[i] < raws[j])
  }

  /** A well-behaved log passes through unchanged. */
  lemma {:induction false} ChainOfIncreasing(raws: seq<int>)
    requires Increasing(raws) && raws != []
    ensures Chain(raws) == Last(raws)
  {
    if |raws| > 1 {
      ChainOfIncreasing(raws[..|raws| - 1]);
    }
  }

  /** Positive, strictly increasing, and never behind the raw timestamps. */
  ghost predicate Keeps(raws: seq<int>, c: seq<int>)
  {
    && |c| == |raws|
    && (forall i :: 0 <= i < |c| ==> c[i] > 0 && c[i] >= raws[i])
    && (forall i, j :: 0 <= i < j < |c| ==> c[i] < c[j])
  }

  function Chains(raws: seq<int>): seq<int> { seq(|raws|, i requires 0 <= i < |raws| => Chain(raws[..i + 1])) }

  lemma {:induction false} ChainKeeps(raws: seq<int>)
    ensures Keeps(raws, Chains(raws))
  {
    var c := Chains(raws);
    forall i | 0 <= i < |c| ensures c[i] > 0 && c[i] >= raws[i] {
      ChainIncreases(raws, 0, i + 1);
      ChainStep(raws, i);
    }
    forall i, j | 0 <= i < j < |c| ensures c[i] < c[j] {
      ChainIncreases(raws, i + 1, j + 1);
    }
  }

  /** The derived instants are the least ones that keep up: every other assignment is nowhere below them. */
  lemma {:induction false} ChainIsLeast(raws: seq<int>, c: seq<int>, i: nat)
    requires Keeps(raws, c) && i < |raws|
    ensures Keeps(raws, Chains(raws)) && Chains(raws)[i] <= c[i]
  {
    ChainKeeps(raws);
    ChainBelow(raws, c, i);
  }

  lemma {:induction false} ChainBelow(raws: seq<int>, c: seq<int>, i: nat)
    requires Keeps(raws, c) && i < |raws|
    ensures Chain(raws[..i + 1]) <= c[i]
    decreases i
  {
    ChainStep(raws, i);
    if i > 0 {
      ChainBelow(raws, c, i - 1);
    } else {
      assert raws[..0] == [];
    }
  }
}
