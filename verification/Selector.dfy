/** The round robin of `alloc_tunnel_for_req`: from the cursor to the end, then
    from the start to the cursor, take the first position that is eligible, and
    leave the cursor just behind it. */
module Selector {
  import opened Bytes

  /** The first true position in `[from, end)`. */
  function FirstIn(ok: seq<bool>, from: nat, end: nat): (r: Option<nat>)
    requires from <= end <= |ok|
    ensures r.Some? ==> from <= r.value < end && ok[r.value]
    ensures forall i | from <= i < (if r.Some? then r.value else end) :: !ok[i]
    decreases end - from
  {
    if from == end then None
    else if ok[from] then Some(from)
    else FirstIn(ok, from + 1, end)
  }

  function Pick(ok: seq<bool>, cursor: nat): (r: Option<nat>)
    requires cursor <= |ok|
    ensures r.Some? ==> r.value < |ok| && ok[r.value]
  {
    var late := FirstIn(ok, cursor, |ok|);
    if late.Some? then late else FirstIn(ok, 0, cursor)
  }

  /** Nothing is picked exactly when nothing is eligible. */
  lemma PickIsComplete(ok: seq<bool>, cursor: nat)
    requires cursor <= |ok|
    ensures Pick(ok, cursor).None? <==> true !in ok
  {
    if Pick(ok, cursor).None? {
      assert forall i | 0 <= i < |ok| :: !ok[i];
    }
  }

  /** How far a position lies ahead of the cursor, going round. */
  function Ahead(n: nat, cursor: nat, p: nat): nat
    requires cursor < n && p < n
  {
    if cursor <= p then p - cursor else p + n - cursor
  }

  /** `(p + 1) % n` */
  function Behind(n: nat, p: nat): (c: nat)
    requires p < n
    ensures c < n
  {
    if p + 1 == n then 0 else p + 1
  }

  /** The pick is the eligible position least far ahead. */
  lemma PickIsNearest(ok: seq<bool>, cursor: nat, p: nat)
    requires cursor < |ok| && p < |ok| && ok[p]
    ensures Pick(ok, cursor).Some?
    ensures Ahead(|ok|, cursor, Pick(ok, cursor).value) <= Ahead(|ok|, cursor, p)
  {
    PickIsComplete(ok, cursor);
  }

  /** Picks made one after the other while eligibility changes as it likes. */
  ghost predicate Picks(n: nat, oks: seq<seq<bool>>, cursor: nat, picks: seq<nat>)
    requires cursor < n
  {
    && |oks| == |picks|
    && (picks != [] ==>
          && |oks[0]| == n && Pick(oks[0], cursor) == Some(picks[0])
          && Picks(n, oks[1..], Behind(n, picks[0]), picks[1..]))
  }

  ghost predicate EligibleThroughout(n: nat, oks: seq<seq<bool>>, p: nat)
    requires p < n
  {
    forall ok | ok in oks :: |ok| == n && ok[p]
  }

  lemma NearerStaysNearer(n: nat, cursor: nat, r: nat, p: nat, q: nat)
    requires cursor < n && p < n && q < n && r < n && r != p
    requires Ahead(n, cursor, r) <= Ahead(n, cursor, p) < Ahead(n, cursor, q)
    ensures r != q && Ahead(n, Behind(n, r), p) < Ahead(n, Behind(n, r), q)
  {
  }

  /** A position that stays eligible is picked before any position further ahead. */
  lemma {:induction false} NearerComesFirst(
      n: nat, oks: seq<seq<bool>>, cursor: nat, picks: seq<nat>, p: nat, q: nat, k: nat)
    requires cursor < n && p < n && q < n && Picks(n, oks, cursor, picks)
    requires EligibleThroughout(n, oks, p)
    requires Ahead(n, cursor, p) < Ahead(n, cursor, q)
    requires k < |picks| && picks[k] == q
    ensures p in picks[..k]
  {
    var r := picks[0];
    assert oks[0] in oks;
    PickIsNearest(oks[0], cursor, p);
    if r != p {
      NearerStaysNearer(n, cursor, r, p, q);
      NearerComesFirst(n, oks[1..], Behind(n, r), picks[1..], p, q, k - 1);
    }
    assert picks[..k] == [r] + picks[1..][..k - 1];
  }

  /** No position from the cursor round to `q` is eligible, so that the selection
      goes past `q`. */
  predicate Skips(ok: seq<bool>, cursor: nat, q: nat)
    requires cursor < |ok| && q < |ok|
  {
    forall x | 0 <= x < |ok| && ok[x] :: Ahead(|ok|, cursor, x) > Ahead(|ok|, cursor, q)
  }

  /** How many selections go past `q`. */
  ghost function SkipCount(n: nat, oks: seq<seq<bool>>, cursor: nat, picks: seq<nat>, q: nat): nat
    requires cursor < n && q < n
    decreases |picks|
  {
    if picks == [] || oks == [] || |oks[0]| != n || picks[0] >= n then 0
    else (if Skips(oks[0], cursor, q) then 1 else 0) + SkipCount(n, oks[1..], Behind(n, picks[0]), picks[1..], q)
  }

  /** One pick `r`, the nearest eligible position: who lies nearer afterwards, `p`
      or `q`, is a matter of who lay nearer before and whether `q` was skipped. */
  lemma WhoIsNearer(ok: seq<bool>, cursor: nat, r: nat, p: nat, q: nat)
    requires cursor < |ok| && p < |ok| && q < |ok| && p != q && r != q && ok[p] && Pick(ok, cursor) == Some(r)
    ensures var n, next := |ok|, Behind(|ok|, r);
      var before := if Ahead(n, cursor, p) < Ahead(n, cursor, q) then 1 else 0;
      var after := if Ahead(n, next, p) < Ahead(n, next, q) then 1 else 0;
      before + (if Skips(ok, cursor, q) then 1 else 0) == after + if r == p then 1 else 0
  {
    var n := |ok|;
    PickIsNearest(ok, cursor, p);
    assert Skips(ok, cursor, q) <==> Ahead(n, cursor, r) > Ahead(n, cursor, q) by {
      forall x | 0 <= x < n && ok[x]
        ensures Ahead(n, cursor, x) >= Ahead(n, cursor, r)
      {
        PickIsNearest(ok, cursor, x);
      }
    }
  }

  lemma LastIsNotSkipped(ok: seq<bool>, cursor: nat, p: nat, q: nat)
    requires cursor < |ok| && p < |ok| && q < |ok| && p != q && ok[p] && Pick(ok, cursor) == Some(q)
    ensures !Skips(ok, cursor, q) && Ahead(|ok|, cursor, p) > Ahead(|ok|, cursor, q)
  {
    PickIsNearest(ok, cursor, p);
  }

  /** Up to the next pick of `q`, a position that stays eligible is picked once
      for every selection that goes past `q`, and once more if it lies nearer. */
  lemma {:induction false} PickedOncePerSkip(n: nat, oks: seq<seq<bool>>, cursor: nat, mid: seq<nat>, p: nat, q: nat)
    requires cursor < n && p < n && q < n && p != q && q !in mid
    requires Picks(n, oks, cursor, mid + [q]) && EligibleThroughout(n, oks, p)
    ensures multiset(mid)[p] ==
            (if Ahead(n, cursor, p) < Ahead(n, cursor, q) then 1 else 0) + SkipCount(n, oks, cursor, mid + [q], q)
    decreases |mid|
  {
    var picks := mid + [q];
    assert oks[0] in oks;
    if mid == [] {
      assert picks[0] == q && picks[1..] == [];
      LastIsNotSkipped(oks[0], cursor, p, q);
    } else {
      var r := mid[0];
      assert picks[0] == r && picks[1..] == mid[1..] + [q] && mid == [r] + mid[1..];
      WhoIsNearer(oks[0], cursor, r, p, q);
      PickedOncePerSkip(n, oks[1..], Behind(n, r), mid[1..], p, q);
    }
  }

  /** Between two consecutive picks of `q`, a position `p` that stays eligible is
      picked once, and once more for every selection that goes past `q`: exactly
      once if and only if none does. */
  lemma FairBetweenPicks(n: nat, oks: seq<seq<bool>>, mid: seq<nat>, p: nat, q: nat)
    requires p < n && q < n && p != q && q !in mid
    requires Picks(n, oks, Behind(n, q), mid + [q]) && EligibleThroughout(n, oks, p)
    ensures multiset(mid)[p] == 1 + SkipCount(n, oks, Behind(n, q), mid + [q], q)
    ensures multiset(mid)[p] == 1 <==> SkipCount(n, oks, Behind(n, q), mid + [q], q) == 0
  {
    PickedOncePerSkip(n, oks, Behind(n, q), mid, p, q);
  }

  /** None does, for one, while `q` stays eligible as well. */
  lemma {:induction false} EligibleIsNotSkipped(n: nat, oks: seq<seq<bool>>, cursor: nat, picks: seq<nat>, q: nat)
    requires cursor < n && q < n && Picks(n, oks, cursor, picks) && EligibleThroughout(n, oks, q)
    ensures SkipCount(n, oks, cursor, picks, q) == 0
    decreases |picks|
  {
    if picks != [] {
      assert oks[0] in oks;
      EligibleIsNotSkipped(n, oks[1..], Behind(n, picks[0]), picks[1..], q);
    }
  }

  // ----- the sorted indexes

  /** Each tunnel index stands at exactly one position. */
  ghost predicate IsPermutation(s: seq<nat>, n: nat) {
    |s| == n && forall x: nat :: multiset(s)[x] == if x < n then 1 else 0
  }

  lemma PermutationPositions(s: seq<nat>, n: nat)
    requires IsPermutation(s, n)
    ensures forall i | 0 <= i < n :: s[i] < n
    ensures forall i, j | 0 <= i < j < n :: s[i] != s[j]
    ensures forall x | 0 <= x < n :: x in s
  {
    forall i | 0 <= i < n
      ensures s[i] < n
    {
      assert s[i] in multiset(s);
    }
    forall i, j | 0 <= i < j < n
      ensures s[i] != s[j]
    {
      assert s == s[..i] + [s[i]] + s[i + 1..j] + [s[j]] + s[j + 1..];
      assert s[i] == s[j] ==> multiset(s)[s[i]] >= 2;
    }
    forall x | 0 <= x < n
      ensures x in s
    {
      assert x in multiset(s);
    }
  }

  function Indexes(n: nat): (s: seq<nat>)
    ensures |s| == n && forall i | 0 <= i < n :: s[i] == i
  {
    seq(n, i => i)
  }

  lemma {:induction false} IndexesArePermutation(n: nat)
    ensures IsPermutation(Indexes(n), n)
  {
    if n > 0 {
      IndexesArePermutation(n - 1);
      assert Indexes(n) == Indexes(n - 1) + [n - 1];
    }
  }
}
