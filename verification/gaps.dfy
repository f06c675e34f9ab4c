/** How many instants of a spaced sequence fit in a window of time. */
module Gaps {
  import opened Types

  ghost predicate Gapped(ts: seq<Time>, gap: Time) {
    forall k :: 0 < k < |ts| ==> ts[k] >= ts[k - 1] + gap
  }

  lemma {:induction false} GapsAddUp(ts: seq<Time>, gap: Time, i: int, j: int)
    requires Gapped(ts, gap) && 0 <= i <= j < |ts|
    ensures ts[j] - ts[i] >= (j - i) * gap
    decreases j
  {
    if i == j {
    } else {
      GapsAddUp(ts, gap, i, j - 1);
      assert (j - i) * gap == (j - 1 - i) * gap + gap;
    }
  }

  /** When the instants i..j lie within `width` of each other there are at most width / gap + 1 of them. */
  lemma WindowBound(ts: seq<Time>, gap: Time, i: int, j: int, width: Time)
    requires Gapped(ts, gap) && gap > 0 && 0 <= i <= j < |ts| && ts[j] - ts[i] <= width
    ensures j - i + 1 <= width / gap + 1
  {
    GapsAddUp(ts, gap, i, j);
    QuotientBound(j - i, gap, width);
  }

  // ----- gaps that are missing here and there -----

  /** How many of i..j - 1 are, or are not, followed by a gap. */
  function Firm(firm: seq<bool>, i: nat, j: nat): nat
    requires i <= j <= |firm|
  {
    if i == j then 0 else Firm(firm, i, j - 1) + if firm[j - 1] then 1 else 0
  }

  function Loose(firm: seq<bool>, i: nat, j: nat): nat
    requires i <= j <= |firm|
  {
    if i == j then 0 else Loose(firm, i, j - 1) + if firm[j - 1] then 0 else 1
  }

  lemma {:induction false} FirmOrLoose(firm: seq<bool>, i: nat, j: nat)
    requires i <= j <= |firm|
    ensures Firm(firm, i, j) + Loose(firm, i, j) == j - i
    decreases j
  {
    if i == j {
    } else {
      FirmOrLoose(firm, i, j - 1);
    }
  }

  /** The instants are in order, and behind each firm one there is a gap. */
  ghost predicate Gapping(ts: seq<Time>, firm: seq<bool>, gap: Time, i: nat, j: nat)
    requires |firm| == |ts| && i <= j < |ts|
  {
    forall k :: i < k <= j ==> ts[k] >= ts[k - 1] + if firm[k - 1] then gap else 0
  }

  lemma {:induction false} FirmGapsAddUp(ts: seq<Time>, firm: seq<bool>, gap: Time, i: nat, j: nat)
    requires |firm| == |ts| && i <= j < |ts| && Gapping(ts, firm, gap, i, j)
    ensures ts[j] - ts[i] >= Firm(firm, i, j) * gap
    decreases j
  {
    if i == j {
    } else {
      FirmGapsAddUp(ts, firm, gap, i, j - 1);
      OneMore(Firm(firm, i, j - 1), gap);
    }
  }

  lemma OneMore(n: int, gap: int)
    ensures (n + 1) * gap == n * gap + gap
  {
  }

  /** The bound, with what is loose on top. */
  lemma LooseWindowBound(ts: seq<Time>, firm: seq<bool>, gap: Time, i: nat, j: nat, width: Time)
    requires |firm| == |ts| && i <= j < |ts| && gap > 0 && Gapping(ts, firm, gap, i, j) && ts[j] - ts[i] <= width
    ensures j - i + 1 <= width / gap + 1 + Loose(firm, i, j)
  {
    FirmGapsAddUp(ts, firm, gap, i, j);
    QuotientBound(Firm(firm, i, j), gap, width);
    FirmOrLoose(firm, i, j);
  }

  lemma {:induction false} NoneLoose(firm: seq<bool>, i: nat, j: nat)
    requires i <= j <= |firm| && forall n :: i <= n < j ==> firm[n]
    ensures Loose(firm, i, j) == 0
    decreases j
  {
    if i == j {
    } else {
      NoneLoose(firm, i, j - 1);
    }
  }

  lemma QuotientBound(n: int, gap: int, width: int)
    requires gap > 0 && n * gap <= width
    ensures n <= width / gap
  {
    assert (n - width / gap) * gap <= width % gap < gap;
    if n - width / gap >= 1 {
      assert false;
    }
  }
}
