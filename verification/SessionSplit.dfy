/** Splitting recording sessions into train, val and test by largest remainders. */
module SessionSplit {
  import opened Common

  datatype Split = Train | Val | Test

  datatype SplitError = NotUnique | TooFew | BadFraction | BadSum | NotEnoughSessions

  const SPLITS: seq<Split> := [Train, Val, Test]

  function Total(counts: seq<int>): int
    requires |counts| == 3
  {
    counts[0] + counts[1] + counts[2]
  }

  // ---- largest remainders ----

  /** How strongly a split claims one of the sessions left over: its remainder, then its fraction. */
  datatype Claim = Claim(remainder: real, fraction: real)

  /** The exact share of each split. */
  function Quotas(total: nat, fractions: seq<real>): (quotas: seq<real>)
    requires |fractions| == 3
    ensures |quotas| == 3
  {
    [total as real * fractions[0], total as real * fractions[1], total as real * fractions[2]]
  }

  function Floors(quotas: seq<real>): (floors: seq<int>)
    requires |quotas| == 3
    ensures |floors| == 3
  {
    [quotas[0].Floor, quotas[1].Floor, quotas[2].Floor]
  }

  function ClaimOf(quota: real, fraction: real): Claim {
    Claim(quota - quota.Floor as real, fraction)
  }

  function Claims(quotas: seq<real>, fractions: seq<real>): (claims: seq<Claim>)
    requires |quotas| == 3 && |fractions| == 3
    ensures |claims| == 3
  {
    [ClaimOf(quotas[0], fractions[0]), ClaimOf(quotas[1], fractions[1]), ClaimOf(quotas[2], fractions[2])]
  }

  /** Larger remainder, then larger fraction, then earlier split. */
  predicate Ahead(claims: seq<Claim>, i: nat, j: nat)
    requires i < |claims| && j < |claims|
  {
    var a, b := claims[i], claims[j];
    || a.remainder > b.remainder
    || (a.remainder == b.remainder && a.fraction > b.fraction)
    || (a == b && i < j)
  }

  predicate IsOrder(order: seq<nat>) {
    |order| == 3 && order[0] < 3 && order[1] < 3 && order[2] < 3
    && order[0] != order[1] && order[1] != order[2] && order[0] != order[2]
  }

  function Ranked(claims: seq<Claim>): (order: seq<nat>)
    requires |claims| == 3
    ensures IsOrder(order)
  {
    var first :=
      if Ahead(claims, 0, 1) then (if Ahead(claims, 0, 2) then 0 else 2) else (if Ahead(claims, 1, 2) then 1 else 2);
    var a, b := if first == 0 then 1 else 0, if first == 2 then 1 else 2;
    if Ahead(claims, a, b) then [first, a, b] else [first, b, a]
  }

  lemma RankedIsSorted(claims: seq<Claim>)
    requires |claims| == 3
    ensures var order := Ranked(claims);
            Ahead(claims, order[0], order[1]) && Ahead(claims, order[1], order[2]) && Ahead(claims, order[0], order[2])
  {
  }

  /** How many indices a slice up to `k` takes of three; a negative bound counts from the end. */
  function Taken(k: int): (n: nat)
    ensures n <= 3
  {
    if k >= 3 then 3 else if k >= 0 then k else if k >= -3 then 3 + k else 0
  }

  /** One more for each of the first `extra` indices of the order. */
  function HandOut(floors: seq<int>, order: seq<nat>, extra: nat): (shares: seq<int>)
    requires |floors| == 3 && IsOrder(order) && extra <= 3
    ensures |shares| == 3
    ensures Total(shares) == Total(floors) + extra
    ensures forall p :: 0 <= p < 3 ==> shares[order[p]] == floors[order[p]] + if p < extra then 1 else 0
  {
    if extra == 0 then floors
    else
      var before := HandOut(floors, order, extra - 1);
      before[order[extra - 1] := before[order[extra - 1]] + 1]
  }

  function Left(total: nat, quotas: seq<real>): int
    requires |quotas| == 3
  {
    total - Total(Floors(quotas))
  }

  /** The counts before empty splits are filled. */
  function Shares(total: nat, quotas: seq<real>, fractions: seq<real>): (shares: seq<int>)
    requires |quotas| == 3 && |fractions| == 3
    ensures |shares| == 3
  {
    HandOut(Floors(quotas), Ranked(Claims(quotas, fractions)), Taken(Left(total, quotas)))
  }

  lemma HandOutIsFair(floors: seq<int>, claims: seq<Claim>, extra: nat, i: nat, j: nat)
    requires |floors| == 3 && |claims| == 3 && extra <= 3 && i < 3 && j < 3
    ensures var shares := HandOut(floors, Ranked(claims), extra);
            && (shares[i] == floors[i] || shares[i] == floors[i] + 1)
            && (shares[i] == floors[i] + 1 && shares[j] == floors[j] ==> claims[i].remainder >= claims[j].remainder)
  {
    RankedIsSorted(claims);
    var order, shares := Ranked(claims), HandOut(floors, Ranked(claims), extra);
    assert i == order[0] || i == order[1] || i == order[2];
    assert j == order[0] || j == order[1] || j == order[2];
  }

  /** Every share is its exact quota rounded down or up, and a larger remainder is never passed over. */
  lemma SharesAreFair(total: nat, quotas: seq<real>, fractions: seq<real>, i: nat, j: nat)
    requires |quotas| == 3 && |fractions| == 3 && i < 3 && j < 3
    ensures var shares := Shares(total, quotas, fractions);
            && (shares[i] == quotas[i].Floor || shares[i] == quotas[i].Floor + 1)
            && (shares[i] == quotas[i].Floor + 1 && shares[j] == quotas[j].Floor ==>
                  quotas[i] - quotas[i].Floor as real >= quotas[j] - quotas[j].Floor as real)
  {
    HandOutIsFair(Floors(quotas), Claims(quotas, fractions), Taken(Left(total, quotas)), i, j);
  }

  /** The shares add up exactly when the floors leave between none and three sessions over. */
  lemma SharesTotal(total: nat, quotas: seq<real>, fractions: seq<real>)
    requires |quotas| == 3 && |fractions| == 3
    ensures Total(Shares(total, quotas, fractions)) == total <==> 0 <= Left(total, quotas) <= 3
  {
  }

  function Sum(fractions: seq<real>): real
    requires |fractions| == 3
  {
    fractions[0] + fractions[1] + fractions[2]
  }

  function Abs(x: real): real {
    if x < 0.0 then -x else x
  }

  /** Fractions that miss one by `miss` miss the total by less than one session. */
  predicate Negligible(total: nat, miss: real) {
    -1.0 < total as real * miss < 1.0
  }

  lemma QuotasSum(total: nat, fractions: seq<real>)
    requires |fractions| == 3 && Negligible(total, Sum(fractions) - 1.0)
    ensures -1.0 < Sum(Quotas(total, fractions)) - total as real < 1.0
  {
    var t := total as real;
    Distribute(t, fractions[0], fractions[1], fractions[2]);
    Distribute(t, Sum(fractions), -1.0, 0.0);
  }

  lemma Distribute(t: real, a: real, b: real, c: real)
    ensures t * a + t * b + t * c == t * (a + b + c)
  {
  }

  /** Quotas that miss the total by less than a session leave between none and three over. */
  lemma LeftIsSmall(total: nat, quotas: seq<real>)
    requires |quotas| == 3 && -1.0 < Sum(quotas) - total as real < 1.0
    ensures 0 <= Left(total, quotas) <= 3
  {
  }

  // ---- no split stays empty ----

  /** The first of the largest counts. */
  function Donor(counts: seq<int>): (d: nat)
    requires |counts| == 3
    ensures d < 3 && forall i :: 0 <= i < 3 ==> counts[i] <= counts[d]
    ensures forall i :: 0 <= i < d ==> counts[i] < counts[d]
  {
    if counts[0] >= counts[1] && counts[0] >= counts[2] then 0 else if counts[1] >= counts[2] then 1 else 2
  }

  function Moved(counts: seq<int>, donor: nat, empty: nat): (moved: seq<int>)
    requires |counts| == 3 && donor < 3 && empty < 3
    ensures |moved| == 3 && Total(moved) == Total(counts)
  {
    var less := counts[donor := counts[donor] - 1];
    less[empty := less[empty] + 1]
  }

  /** Fill the splits from `e` on whose share was empty. */
  function Filled(counts: seq<int>, shares: seq<int>, e: nat): Option<seq<int>>
    requires |counts| == 3 && |shares| == 3 && e <= 3
    decreases 3 - e
  {
    if e == 3 then Some(counts)
    else if shares[e] != 0 then Filled(counts, shares, e + 1)
    else if counts[Donor(counts)] <= 1 then None
    else Filled(Moved(counts, Donor(counts), e), shares, e + 1)
  }

  lemma {:induction false} FillingSucceeds(counts: seq<int>, shares: seq<int>, e: nat)
    requires |counts| == 3 && |shares| == 3 && e <= 3 && Total(counts) >= 3
    requires forall i :: 0 <= i < 3 ==> counts[i] >= 0
    requires forall i :: 0 <= i < 3 && (i < e || shares[i] != 0) ==> counts[i] >= 1
    requires forall i :: e <= i < 3 && shares[i] == 0 ==> counts[i] == 0
    ensures var filled := Filled(counts, shares, e);
            && filled.Some? && |filled.value| == 3 && Total(filled.value) == Total(counts)
            && forall i :: 0 <= i < 3 ==> filled.value[i] >= 1
    decreases 3 - e
  {
    if e < 3 {
      if shares[e] != 0 {
        FillingSucceeds(counts, shares, e + 1);
      } else {
        FillingSucceeds(Moved(counts, Donor(counts), e), shares, e + 1);
      }
    }
  }

  lemma {:induction false} NothingToFill(counts: seq<int>, shares: seq<int>, e: nat)
    requires |counts| == 3 && |shares| == 3 && e <= 3 && forall i :: e <= i < 3 ==> shares[i] != 0
    ensures Filled(counts, shares, e) == Some(counts)
    decreases 3 - e
  {
    if e < 3 {
      NothingToFill(counts, shares, e + 1);
    }
  }

  /** With at least three sessions, no split is left empty and none is lost, whatever the fractions. */
  lemma EverySplitGetsSome(total: nat, quotas: seq<real>, fractions: seq<real>)
    requires |quotas| == 3 && |fractions| == 3 && total >= 3
    requires (forall i :: 0 <= i < 3 ==> quotas[i] >= 0.0) && -1.0 < Sum(quotas) - total as real < 1.0
    ensures var shares := Shares(total, quotas, fractions);
            var counts := Filled(shares, shares, 0);
            && counts.Some? && |counts.value| == 3 && Total(counts.value) == total
            && (forall i :: 0 <= i < 3 ==> counts.value[i] >= 1)
            && ((forall i :: 0 <= i < 3 ==> shares[i] != 0) ==> counts.value == shares)
  {
    var shares := Shares(total, quotas, fractions);
    LeftIsSmall(total, quotas);
    SharesTotal(total, quotas, fractions);
    forall i | 0 <= i < 3
      ensures shares[i] >= 0
    {
      SharesAreFair(total, quotas, fractions, i, i);
    }
    FillingSucceeds(shares, shares, 0);
    if forall i :: 0 <= i < 3 ==> shares[i] != 0 {
      NothingToFill(shares, shares, 0);
    }
  }

  /** The first loop: one more for each of the first claims. */
  method HandOutInPlace(counts: array<int>, order: seq<nat>, extra: nat)
    requires counts.Length == 3 && IsOrder(order) && extra <= 3
    modifies counts
    ensures counts[..] == HandOut(old(counts[..]), order, extra)
  {
    for p := 0 to extra
      invariant counts[..] == HandOut(old(counts[..]), order, p)
    {
      counts[order[p]] := counts[order[p]] + 1;
    }
  }

  method MoveOne(counts: array<int>, donor: nat, empty: nat)
    requires counts.Length == 3 && donor < 3 && empty < 3
    modifies counts
    ensures counts[..] == Moved(old(counts[..]), donor, empty)
  {
    counts[donor] := counts[donor] - 1;
    counts[empty] := counts[empty] + 1;
  }

  /** The second loop: each empty split takes one from the largest. */
  method FillInPlace(counts: array<int>) returns (ok: bool)
    requires counts.Length == 3
    modifies counts
    ensures var filled := Filled(old(counts[..]), old(counts[..]), 0);
            ok == filled.Some? && (ok ==> counts[..] == filled.value)
  {
    var shares := counts[..];
    for e := 0 to 3
      invariant Filled(counts[..], shares, e) == Filled(shares, shares, 0)
    {
      if shares[e] == 0 {
        var donor := Donor(counts[..]);
        if counts[donor] <= 1 {
          return false;
        }
        MoveOne(counts, donor, e);
      }
    }
    ok := true;
  }

  method SplitCounts(total: nat, fractions: seq<real>) returns (r: Result<seq<int>, SplitError>)
    requires |fractions| == 3
    ensures var shares := Shares(total, Quotas(total, fractions), fractions);
            var counts := Filled(shares, shares, 0);
            r == if counts.Some? then Ok(counts.value) else Err(NotEnoughSessions)
    ensures r.Ok? ==> |r.value| == 3
  {
    var quotas := Quotas(total, fractions);
    var floors := Floors(quotas);
    var counts := new int[3](i requires 0 <= i < 3 => floors[i]);
    assert counts[..] == floors;
    HandOutInPlace(counts, Ranked(Claims(quotas, fractions)), Taken(total - Total(floors)));
    var ok := FillInPlace(counts);
    r := if ok then Ok(counts[..]) else Err(NotEnoughSessions);
  }

  // ---- assigning sessions ----

  function SplitAt(counts: seq<int>, i: int): Split
    requires |counts| == 3
  {
    if i < counts[0] then Train else if i < counts[0] + counts[1] then Val else Test
  }

  /** The first `n` ranked sessions with their splits. */
  function Assigned(ranked: seq<string>, counts: seq<int>, n: nat): map<string, Split>
    requires |counts| == 3 && n <= |ranked|
  {
    if n == 0 then map[] else Assigned(ranked, counts, n - 1)[ranked[n - 1] := SplitAt(counts, n - 1)]
  }

  lemma {:induction false} AssignedKeys(ranked: seq<string>, counts: seq<int>, n: nat)
    requires |counts| == 3 && n <= |ranked|
    ensures forall s :: s in Assigned(ranked, counts, n) <==> s in ranked[..n]
  {
    if n > 0 {
      AssignedKeys(ranked, counts, n - 1);
      assert ranked[..n] == ranked[..n - 1] + [ranked[n - 1]];
    }
  }

  predicate Distinct(sessions: seq<string>) {
    forall i, j :: 0 <= i < j < |sessions| ==> sessions[i] != sessions[j]
  }

  function Group(m: map<string, Split>, split: Split): set<string> {
    set s | s in m && m[s] == split
  }

  /** The ranks from `Low` up to `High` belong to the split. */
  function Low(counts: seq<int>, split: Split): int
    requires |counts| == 3
  {
    match split case Train => 0 case Val => counts[0] case Test => counts[0] + counts[1]
  }

  function High(counts: seq<int>, split: Split): int
    requires |counts| == 3
  {
    match split case Train => counts[0] case Val => counts[0] + counts[1] case Test => Total(counts)
  }

  function Capped(n: int, low: int, high: int): int {
    if n < low then 0 else if n < high then n - low else high - low
  }

  lemma NotYetAssigned(ranked: seq<string>, counts: seq<int>, n: nat)
    requires |counts| == 3 && n < |ranked| && Distinct(ranked)
    ensures ranked[n] !in Assigned(ranked, counts, n)
  {
    AssignedKeys(ranked, counts, n);
    assert forall i :: 0 <= i < n ==> ranked[..n][i] == ranked[i];
  }

  lemma CappedNext(counts: seq<int>, n: nat, split: Split)
    requires |counts| == 3 && n < Total(counts) && counts[0] >= 0 && counts[1] >= 0 && counts[2] >= 0
    ensures Capped(n + 1, Low(counts, split), High(counts, split)) ==
            Capped(n, Low(counts, split), High(counts, split)) + if SplitAt(counts, n) == split then 1 else 0
  {
  }

  lemma {:induction false} GroupSizeSoFar(ranked: seq<string>, counts: seq<int>, n: nat, split: Split)
    requires |counts| == 3 && n <= |ranked| == Total(counts) && Distinct(ranked)
    requires counts[0] >= 0 && counts[1] >= 0 && counts[2] >= 0
    ensures |Group(Assigned(ranked, counts, n), split)| == Capped(n, Low(counts, split), High(counts, split))
  {
    if n == 0 {
      assert Group(Assigned(ranked, counts, 0), split) == {};
    } else {
      GroupSizeSoFar(ranked, counts, n - 1, split);
      NotYetAssigned(ranked, counts, n - 1);
      CappedNext(counts, n - 1, split);
      GroupGrows(Assigned(ranked, counts, n - 1), ranked[n - 1], SplitAt(counts, n - 1), split);
    }
  }

  /** Every session is in exactly one split, and each split has exactly its count of sessions, whatever the ranking. */
  lemma SplitIsPartition(ranked: seq<string>, counts: seq<int>)
    requires |counts| == 3 && |ranked| == Total(counts) && Distinct(ranked)
    requires counts[0] >= 0 && counts[1] >= 0 && counts[2] >= 0
    ensures var m := Assigned(ranked, counts, |ranked|);
            && (forall s :: s in m <==> s in ranked)
            && |Group(m, Train)| == counts[0] && |Group(m, Val)| == counts[1] && |Group(m, Test)| == counts[2]
            && Group(m, Train) !! Group(m, Val) !! Group(m, Test)
  {
    AssignedKeys(ranked, counts, |ranked|);
    assert ranked[..|ranked|] == ranked;
    GroupSizeSoFar(ranked, counts, |ranked|, Train);
    GroupSizeSoFar(ranked, counts, |ranked|, Val);
    GroupSizeSoFar(ranked, counts, |ranked|, Test);
  }

  lemma GroupGrows(m: map<string, Split>, s: string, split: Split, group: Split)
    requires s !in m
    ensures |Group(m[s := split], group)| == |Group(m, group)| + if group == split then 1 else 0
  {
    if group == split {
      assert Group(m[s := split], group) == Group(m, group) + {s};
    } else {
      assert Group(m[s := split], group) == Group(m, group);
    }
  }

  lemma PositiveQuotas(total: nat, fractions: seq<real>)
    requires |fractions| == 3 && forall i :: 0 <= i < 3 ==> fractions[i] > 0.0
    ensures forall i :: 0 <= i < 3 ==> Quotas(total, fractions)[i] >= 0.0
  {
    forall i | 0 <= i < 3
      ensures total as real * fractions[i] >= 0.0
    {
      assert fractions[i] > 0.0;
    }
  }

  lemma {:induction false} FillingStaysNonNegative(counts: seq<int>, shares: seq<int>, e: nat)
    requires |counts| == 3 && |shares| == 3 && e <= 3 && forall i :: 0 <= i < 3 ==> counts[i] >= 0
    ensures var filled := Filled(counts, shares, e);
            filled.Some? ==> |filled.value| == 3 && forall i :: 0 <= i < 3 ==> filled.value[i] >= 0
    decreases 3 - e
  {
    if e < 3 {
      if shares[e] != 0 {
        FillingStaysNonNegative(counts, shares, e + 1);
      } else if counts[Donor(counts)] > 1 {
        FillingStaysNonNegative(Moved(counts, Donor(counts), e), shares, e + 1);
      }
    }
  }

  lemma CountsAreNonNegative(total: nat, quotas: seq<real>, fractions: seq<real>)
    requires |quotas| == 3 && |fractions| == 3 && forall i :: 0 <= i < 3 ==> quotas[i] >= 0.0
    ensures var shares := Shares(total, quotas, fractions);
            var filled := Filled(shares, shares, 0);
            filled.Some? ==> |filled.value| == 3 && forall i :: 0 <= i < 3 ==> filled.value[i] >= 0
  {
    var shares := Shares(total, quotas, fractions);
    forall i | 0 <= i < 3
      ensures shares[i] >= 0
    {
      SharesAreFair(total, quotas, fractions, i, i);
    }
    FillingStaysNonNegative(shares, shares, 0);
  }

  lemma {:induction false} DistinctMeansOnce(s: seq<string>, x: string)
    requires Distinct(s)
    ensures multiset(s)[x] <= 1
  {
    if s != [] {
      var front, last := s[..|s| - 1], s[|s| - 1];
      assert s == front + [last];
      DistinctMeansOnce(front, x);
    }
  }

  lemma TwiceMeansTwo(s: seq<string>, i: nat, j: nat)
    requires i < j < |s| && s[i] == s[j]
    ensures multiset(s)[s[i]] >= 2
  {
    assert s == s[..j] + s[j..];
    assert s[..j][i] == s[i] && s[j..][0] == s[j];
  }

  lemma PermutationKeepsDistinct(sessions: seq<string>, ranked: seq<string>)
    requires multiset(ranked) == multiset(sessions) && Distinct(sessions)
    ensures Distinct(ranked) && |ranked| == |sessions|
    ensures forall s :: s in ranked <==> s in sessions
  {
    forall i, j | 0 <= i < j < |ranked|
      ensures ranked[i] != ranked[j]
    {
      if ranked[i] == ranked[j] {
        TwiceMeansTwo(ranked, i, j);
        DistinctMeansOnce(sessions, ranked[i]);
      }
    }
    assert |ranked| == |multiset(ranked)|;
    assert forall s :: s in ranked <==> s in multiset(ranked);
  }

  // ---- the whole split ----

  /** The accepted error of the fractions' sum: 1e-9, relative or absolute. */
  predicate IsClose(sum: real) {
    Abs(sum - 1.0) <= 0.000000001 * (if Abs(sum) > 1.0 then Abs(sum) else 1.0)
  }

  /** The accepted sums miss one by at most 1/999999999 ... */
  lemma CloseSumsMissLittle(sum: real)
    requires IsClose(sum)
    ensures -1.0 <= 999999999.0 * (sum - 1.0) <= 1.0
  {
  }

  /** ... which is less than one session for anything under a billion sessions. */
  lemma LittleIsNegligible(total: nat, miss: real)
    requires -1.0 <= 999999999.0 * miss <= 1.0 && total < 999999999
    ensures Negligible(total, miss)
  {
    SmallProduct(total as real, miss);
  }

  lemma SmallProduct(t: real, miss: real)
    requires 0.0 <= t <= 999999998.0 && -1.0 <= 999999999.0 * miss <= 1.0
    ensures -1.0 < t * miss < 1.0
  {
    if miss >= 0.0 {
      ProductOrder(t, 999999998.0, miss);
      assert 999999998.0 * miss < 1.0;
    } else {
      ProductOrder(t, 999999998.0, -miss);
      ProductSign(t, miss);
      assert 999999998.0 * -miss < 1.0;
    }
  }

  lemma ProductOrder(t: real, most: real, x: real)
    requires 0.0 <= t <= most && x >= 0.0
    ensures 0.0 <= t * x <= most * x
  {
  }

  lemma ProductSign(t: real, x: real)
    ensures t * -x == -(t * x)
  {
  }

  function Offset(counts: seq<int>, k: nat): int
    requires |counts| == 3 && k <= 3
  {
    if k == 0 then 0 else Offset(counts, k - 1) + counts[k - 1]
  }

  /** Slices of the ranking, one after another; a slice past the end is cut short. */
  method Assign(ranked: seq<string>, counts: seq<int>) returns (m: map<string, Split>)
    requires |counts| == 3 && counts[0] >= 0 && counts[1] >= 0 && counts[2] >= 0
    ensures Total(counts) == |ranked| ==> m == Assigned(ranked, counts, |ranked|)
  {
    m := map[];
    var offset := 0;
    for k := 0 to 3
      invariant 0 <= offset == Offset(counts, k)
      invariant Total(counts) == |ranked| ==> offset <= |ranked| && m == Assigned(ranked, counts, offset)
    {
      var next := offset + counts[k];
      var i := offset;
      while i < next && i < |ranked|
        invariant offset <= i
        invariant Total(counts) == |ranked| ==> i <= next && i <= |ranked| && m == Assigned(ranked, counts, i)
      {
        m := m[ranked[i] := SPLITS[k]];
        i := i + 1;
      }
      offset := next;
    }
    assert Offset(counts, 3) == Offset(counts, 2) + counts[2] && Offset(counts, 2) == Offset(counts, 1) + counts[1];
  }

  /** Each session in one split, in groups of the largest-remainder counts, none of them empty. */
  ghost predicate Partitioned(m: map<string, Split>, ranked: seq<string>, fractions: seq<real>)
    requires |fractions| == 3
  {
    var shares := Shares(|ranked|, Quotas(|ranked|, fractions), fractions);
    var counts := Filled(shares, shares, 0);
    && (forall s :: s in m <==> s in ranked)
    && counts.Some? && |counts.value| == 3
    && |Group(m, Train)| == counts.value[0] >= 1
    && |Group(m, Val)| == counts.value[1] >= 1
    && |Group(m, Test)| == counts.value[2] >= 1
  }

  method SplitRanked(ranked: seq<string>, fractions: seq<real>) returns (r: Result<map<string, Split>, SplitError>)
    requires |fractions| == 3 && Distinct(ranked) && |ranked| >= 3
    requires forall i :: 0 <= i < 3 ==> fractions[i] > 0.0
    ensures r.Err? ==> r.error.NotEnoughSessions? && !Negligible(|ranked|, Sum(fractions) - 1.0)
    ensures r.Ok? && Negligible(|ranked|, Sum(fractions) - 1.0) ==> Partitioned(r.value, ranked, fractions)
  {
    var counts := SplitCounts(|ranked|, fractions);
    ghost var quotas := Quotas(|ranked|, fractions);
    PositiveQuotas(|ranked|, fractions);
    CountsAreNonNegative(|ranked|, quotas, fractions);
    if Negligible(|ranked|, Sum(fractions) - 1.0) {
      QuotasSum(|ranked|, fractions);
      EverySplitGetsSome(|ranked|, quotas, fractions);
    }
    if counts.Err? {
      return Err(NotEnoughSessions);
    }
    var m := Assign(ranked, counts.value);
    if Negligible(|ranked|, Sum(fractions) - 1.0) {
      SplitIsPartition(ranked, counts.value);
    }
    r := Ok(m);
  }

  /**
   The whole split. `ranked` is the hash order of the sessions; any order gives a partition into
   the same group sizes.
   */
  method DeterministicSessionSplit(sessions: seq<string>, ranked: seq<string>, fractions: seq<real>)
    returns (r: Result<map<string, Split>, SplitError>)
    requires |fractions| == 3 && multiset(ranked) == multiset(sessions)
    ensures r.Err? ==>
              || (r.error.NotUnique? && !Distinct(sessions))
              || (r.error.TooFew? && |sessions| < 3)
              || (r.error.BadFraction? && exists i :: 0 <= i < 3 && fractions[i] <= 0.0)
              || (r.error.BadSum? && !IsClose(Sum(fractions)))
              || (r.error.NotEnoughSessions? && !Negligible(|ranked|, Sum(fractions) - 1.0))
    ensures r.Ok? ==>
              && Distinct(sessions) && |sessions| >= 3 && IsClose(Sum(fractions))
              && (Negligible(|ranked|, Sum(fractions) - 1.0) ==> Partitioned(r.value, ranked, fractions))
  {
    if !Distinct(sessions) {
      return Err(NotUnique);
    }
    if |sessions| < 3 {
      return Err(TooFew);
    }
    if exists i :: 0 <= i < 3 && fractions[i] <= 0.0 {
      return Err(BadFraction);
    }
    if !IsClose(Sum(fractions)) {
      return Err(BadSum);
    }
    PermutationKeepsDistinct(sessions, ranked);
    r := SplitRanked(ranked, fractions);
  }
}
