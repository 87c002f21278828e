/** Platform fees: what is charged, which collected fees a withdrawal takes, and what marking them does. */
module Fees {
  import Sorting
  import opened Wrappers

  // ----- What is charged -----

  /** Division that truncates toward zero, as on big integers. */
  function TruncatedQuotient(n: int, d: nat): int
    requires d > 0
  {
    if n >= 0 then n / d else -(-n / d)
  }

  /** An active configuration; `maxFee` None when not set. A maximum of zero counts as not set. */
  datatype Config = Config(minFee: int, maxFee: Option<int>)

  predicate HasMax(c: Config) {
    c.maxFee.Some? && c.maxFee.value != 0
  }

  function Share(total: int, basisPoints: int): int {
    TruncatedQuotient(total * basisPoints, 10000)
  }

  function Clamp(fee: int, config: Option<Config>): int {
    if config.None? then fee
    else if fee < config.value.minFee then config.value.minFee
    else if HasMax(config.value) && fee > config.value.maxFee.value then config.value.maxFee.value
    else fee
  }

  function CalculateFee(total: int, basisPoints: int, config: Option<Config>): int {
    Clamp(Share(total, basisPoints), config)
  }

  predicate Consistent(config: Option<Config>) {
    config.Some? && HasMax(config.value) ==> config.value.minFee <= config.value.maxFee.value
  }

  /** Splitting an amount changes the unclamped fee by at most one unit, in the payer's favour. */
  lemma ShareOfSum(a: nat, b: nat, basisPoints: nat)
    ensures Share(a, basisPoints) + Share(b, basisPoints) <= Share(a + b, basisPoints)
            <= Share(a, basisPoints) + Share(b, basisPoints) + 1
  {
    var x, y := a * basisPoints, b * basisPoints;
    assert x >= 0 && y >= 0 && (a + b) * basisPoints == x + y;
  }

  lemma ShareMonotone(a: int, b: int, basisPoints: nat)
    requires a <= b
    ensures Share(a, basisPoints) <= Share(b, basisPoints)
  {
    var x, y := a * basisPoints, b * basisPoints;
    assert x <= y by {
      assert y == x + (b - a) * basisPoints;
    }
  }

  /** The share is the whole part of so many basis points of the total, the fraction dropped toward zero. */
  lemma ShareIs(total: int, basisPoints: nat)
    ensures var exact, share := total * basisPoints, Share(total, basisPoints);
            if total >= 0 then 0 <= 10000 * share <= exact < 10000 * share + 10000
            else 10000 * share - 10000 < exact <= 10000 * share <= 0
  {
    assert total >= 0 ==> total * basisPoints >= 0;
    assert total < 0 ==> total * basisPoints <= 0;
  }

  /** Where the limits bite. Under the minimum the share is raised to it; the fee is under the minimum exactly if a
      maximum under it cuts the share off; it is over a maximum exactly if the minimum is and has raised it; and it is
      the share whenever that is within the limits. */
  lemma ClampedExactly(total: int, basisPoints: int, config: Option<Config>)
    ensures config.None? ==> CalculateFee(total, basisPoints, config) == Share(total, basisPoints)
    ensures config.Some? ==>
              var fee, share, low := CalculateFee(total, basisPoints, config), Share(total, basisPoints),
                                     config.value.minFee;
              var high := if config.value.maxFee == Some(0) then None else config.value.maxFee;
              && (share < low ==> fee == low)
              && (fee < low <==> high.Some? && high.value < low <= share)
              && (high.Some? ==> (fee > high.value <==> share < low && low > high.value))
              && (low <= share && (high.None? || share <= high.value) ==> fee == share)
              && (high.Some? && low <= share && high.value < share ==> fee == high.value)
  {
    hide Share;
  }

  /** A larger share never means a smaller fee, exactly when the configured minimum is not over the maximum. */
  lemma ClampMonotone(config: Option<Config>)
    ensures Consistent(config) <==> forall f, g :: f <= g ==> Clamp(f, config) <= Clamp(g, config)
  {
    if !Consistent(config) {
      var low := config.value.minFee;
      assert Clamp(low - 1, config) == low && Clamp(low, config) == config.value.maxFee.value;
    }
  }

  lemma FeeMonotone(a: int, b: int, basisPoints: nat, config: Option<Config>)
    requires a <= b && Consistent(config)
    ensures CalculateFee(a, basisPoints, config) <= CalculateFee(b, basisPoints, config)
  {
    ShareMonotone(a, b, basisPoints);
    ClampMonotone(config);
  }

  ghost predicate FeesNeverFall(basisPoints: nat, config: Option<Config>) {
    forall a: nat, b: nat :: a <= b ==> CalculateFee(a, basisPoints, config) <= CalculateFee(b, basisPoints, config)
  }

  lemma WholeShare(k: nat, basisPoints: nat)
    ensures Share(10000 * k, basisPoints) == k * basisPoints
  {
    assert 10000 * k * basisPoints == 10000 * (k * basisPoints);
  }

  /** With an inconsistent configuration, a positive minimum and a positive rate, the fee of nothing is the
      minimum, and the fee of 10000 times as much, or more, is the smaller maximum. */
  lemma FeeFalls(basisPoints: nat, config: Option<Config>)
    requires !Consistent(config) && basisPoints > 0 && config.value.minFee > 0
    ensures CalculateFee(0, basisPoints, config) == config.value.minFee > config.value.maxFee.value
            == CalculateFee(10000 * config.value.minFee, basisPoints, config)
  {
    var low := config.value.minFee;
    WholeShare(low, basisPoints);
    assert low * basisPoints >= low;
    assert 0 * basisPoints == 0;
  }

  /** Fees never fall as amounts grow exactly if the minimum is not over the maximum in force, or the rate is
      zero, or the minimum is not positive. */
  lemma FeesMonotoneExactly(basisPoints: nat, config: Option<Config>)
    ensures FeesNeverFall(basisPoints, config) <==> Consistent(config) || basisPoints == 0 || config.value.minFee <= 0
  {
    hide Clamp, Share;
    if Consistent(config) {
      forall a: nat, b: nat | a <= b
        ensures CalculateFee(a, basisPoints, config) <= CalculateFee(b, basisPoints, config) {
        FeeMonotone(a, b, basisPoints, config);
      }
    } else if basisPoints == 0 || config.value.minFee <= 0 {
      forall a: nat, b: nat | a <= b
        ensures CalculateFee(a, basisPoints, config) <= CalculateFee(b, basisPoints, config) {
        FeeRises(a, b, basisPoints, config);
      }
    } else {
      FeeFalls(basisPoints, config);
      assert CalculateFee(0, basisPoints, config) > CalculateFee(10000 * config.value.minFee, basisPoints, config);
    }
  }

  lemma FeeRises(a: nat, b: nat, basisPoints: nat, config: Option<Config>)
    requires a <= b && config.Some? && (basisPoints == 0 || config.value.minFee <= 0)
    ensures CalculateFee(a, basisPoints, config) <= CalculateFee(b, basisPoints, config)
  {
    ShareMonotone(0, a, basisPoints);
    ShareMonotone(a, b, basisPoints);
    assert 0 * basisPoints == 0;
    assert basisPoints == 0 ==> a * basisPoints == b * basisPoints;
  }

  // ----- Fee records -----

  datatype Status = Collected | Withdrawn | Pending

  /** What marking a fee as withdrawn records. */
  datatype Withdrawal = Withdrawal(txHash: string, time: int, admin: string)

  datatype Fee = Fee(id: nat, token: string, amount: int, createdAt: int, status: Status,
                     withdrawal: Option<Withdrawal>)

  function OldestFirst(f: Fee): int {
    f.createdAt
  }

  function NewestFirst(f: Fee): int {
    -f.createdAt
  }

  predicate Matches(f: Fee, token: Option<string>, status: Status) {
    f.status == status && (token.None? || f.token == token.value)
  }

  function Find(fees: seq<Fee>, token: Option<string>, status: Status): seq<Fee> {
    if fees == [] then []
    else if Matches(fees[0], token, status) then [fees[0]] + Find(fees[1..], token, status)
    else Find(fees[1..], token, status)
  }

  function Sum(fees: seq<Fee>): int {
    if fees == [] then 0 else Sum(fees[..|fees| - 1]) + fees[|fees| - 1].amount
  }

  /** The sum of the fees with one of some ids. */
  function SumOf(fees: seq<Fee>, ids: set<nat>): int {
    if fees == [] then 0 else (if fees[0].id in ids then fees[0].amount else 0) + SumOf(fees[1..], ids)
  }

  function Ids(fees: seq<Fee>): set<nat> {
    set i | 0 <= i < |fees| :: fees[i].id
  }

  function Available(fees: seq<Fee>, token: string): seq<Fee> {
    Sorting.Sort(OldestFirst, Find(fees, Some(token), Collected))
  }

  function Mark(f: Fee, ids: set<nat>, w: Withdrawal): Fee {
    if f.id in ids then f.(status := Withdrawn, withdrawal := Some(w)) else f
  }

  function Marked(fees: seq<Fee>, ids: set<nat>, w: Withdrawal): seq<Fee> {
    seq(|fees|, i requires 0 <= i < |fees| => Mark(fees[i], ids, w))
  }

  /** The money in one status, of one token or of all. */
  function Total(fees: seq<Fee>, token: Option<string>, status: Status): int {
    Sum(Find(fees, token, status))
  }

  ghost predicate UniqueIds(fees: seq<Fee>) {
    forall i, j :: 0 <= i < j < |fees| ==> fees[i].id != fees[j].id
  }

  // ----- Which fees are there to take -----

  lemma {:induction false} FindExactly(fees: seq<Fee>, token: Option<string>, status: Status, f: Fee)
    ensures multiset(Find(fees, token, status))[f]
            == if f.status == status && (token.None? || f.token == token.value) then multiset(fees)[f] else 0
  {
    if fees != [] {
      FindExactly(fees[1..], token, status, f);
      assert fees == [fees[0]] + fees[1..];
    }
  }

  /** What a withdrawal can take is exactly the collected fees of the token, the oldest first. */
  lemma AvailableExactly(fees: seq<Fee>, token: string)
    ensures forall i, j :: 0 <= i < j < |Available(fees, token)| ==>
              Available(fees, token)[i].createdAt <= Available(fees, token)[j].createdAt
    ensures forall f: Fee ::
              multiset(Available(fees, token))[f]
              == if f.status == Collected && f.token == token then multiset(fees)[f] else 0
  {
    Sorting.SortIsStable(OldestFirst, Find(fees, Some(token), Collected));
    forall f: Fee
      ensures multiset(Available(fees, token))[f]
              == if f.status == Collected && f.token == token then multiset(fees)[f] else 0
    {
      FindExactly(fees, Some(token), Collected, f);
    }
    hide Sorting.Sort, Find;
  }

  // ----- Which fees a withdrawal takes -----

  /** The shortest stretch from the front that covers the amount. */
  ghost predicate Covers(available: seq<Fee>, selected: seq<Fee>, amount: int) {
    && selected <= available && Sum(selected) >= amount
    && forall k :: 0 <= k < |selected| ==> Sum(available[..k]) < amount
  }

  lemma SumSnoc(fees: seq<Fee>, k: nat)
    requires k < |fees|
    ensures Sum(fees[..k + 1]) == Sum(fees[..k]) + fees[k].amount
  {
    assert fees[..k + 1][..k] == fees[..k];
  }

  lemma SumOfEmpty()
    ensures Sum([]) == 0
  {
  }

  /** What is taken too much is less than the last fee taken. */
  lemma OvershootIsSmall(available: seq<Fee>, selected: seq<Fee>, amount: int)
    requires Covers(available, selected, amount) && selected != []
    ensures Sum(selected) - amount < selected[|selected| - 1].amount
  {
    SumSnoc(available, |selected| - 1);
    assert selected == available[..|selected|];
  }

  lemma {:induction false} SumGrows(fees: seq<Fee>, k: nat)
    requires k <= |fees| && forall i :: 0 <= i < |fees| ==> fees[i].amount >= 0
    ensures Sum(fees[..k]) <= Sum(fees)
    decreases |fees|
  {
    if k < |fees| {
      SumGrows(fees[..|fees| - 1], k);
      assert fees[..|fees| - 1][..k] == fees[..k];
    } else {
      assert fees[..k] == fees;
    }
  }

  /** With no negative fees, the amount is covered exactly when the collected fees make it up. */
  lemma CoveredExactly(available: seq<Fee>, amount: int)
    requires forall i :: 0 <= i < |available| ==> available[i].amount >= 0
    ensures (exists k :: 0 <= k <= |available| && Sum(available[..k]) >= amount) <==> Sum(available) >= amount
  {
    forall k: nat | k <= |available| ensures Sum(available[..k]) <= Sum(available) {
      SumGrows(available, k);
    }
    assert available[..|available|] == available;
  }

  // ----- What marking does to the totals -----

  lemma {:induction false} SumFront(fees: seq<Fee>)
    requires fees != []
    ensures Sum(fees) == fees[0].amount + Sum(fees[1..])
  {
    var n := |fees|;
    if n > 1 {
      SumFront(fees[..n - 1]);
      assert fees[..n - 1][1..] == fees[1..][..n - 2];
    }
  }

  lemma {:induction false} SumOfConcat(a: seq<Fee>, b: seq<Fee>, ids: set<nat>)
    ensures SumOf(a + b, ids) == SumOf(a, ids) + SumOf(b, ids)
  {
    if a == [] {
      assert a + b == b;
    } else {
      assert (a + b)[1..] == a[1..] + b;
      SumOfConcat(a[1..], b, ids);
    }
  }

  lemma {:induction false} SumOfAll(fees: seq<Fee>, ids: set<nat>)
    requires forall i :: 0 <= i < |fees| ==> fees[i].id in ids
    ensures SumOf(fees, ids) == Sum(fees)
  {
    if fees != [] {
      SumFront(fees);
      SumOfAll(fees[1..], ids);
    }
  }

  lemma {:induction false} SumOfNone(fees: seq<Fee>, ids: set<nat>)
    requires forall i :: 0 <= i < |fees| ==> fees[i].id !in ids
    ensures SumOf(fees, ids) == 0
  {
    if fees != [] {
      SumOfNone(fees[1..], ids);
    }
  }

  ghost predicate HasId(fees: seq<Fee>, id: nat) {
    exists i :: 0 <= i < |fees| && fees[i].id == id
  }

  lemma {:induction false} InsertKeepsMoney(key: Fee -> int, f: Fee, fees: seq<Fee>, ids: set<nat>)
    ensures var r := Sorting.Insert(key, f, fees);
            && SumOf(r, ids) == (if f.id in ids then f.amount else 0) + SumOf(fees, ids)
            && (UniqueIds(fees) && !HasId(fees, f.id) ==> UniqueIds(r))
            && forall id :: HasId(r, id) ==> id == f.id || HasId(fees, id)
  {
    var r := Sorting.Insert(key, f, fees);
    if fees == [] || key(f) <= key(fees[0]) {
      assert r[1..] == fees;
    } else {
      InsertKeepsMoney(key, f, fees[1..], ids);
      assert r[1..] == Sorting.Insert(key, f, fees[1..]);
      hide Sorting.Insert;
      assert forall id :: HasId(fees[1..], id) ==> HasId(fees, id);
      if UniqueIds(fees) && !HasId(fees, f.id) {
        assert !HasId(fees[1..], fees[0].id) && !HasId(r[1..], fees[0].id);
        assert forall i :: 0 < i < |r| ==> r[i] == r[1..][i - 1];
      }
    }
  }

  lemma {:induction false} SortKeepsMoney(key: Fee -> int, fees: seq<Fee>, ids: set<nat>)
    ensures var r := Sorting.Sort(key, fees);
            && SumOf(r, ids) == SumOf(fees, ids) && (UniqueIds(fees) ==> UniqueIds(r))
            && forall id :: HasId(r, id) ==> HasId(fees, id)
  {
    if fees != [] {
      var rest := Sorting.Sort(key, fees[1..]);
      SortKeepsMoney(key, fees[1..], ids);
      InsertKeepsMoney(key, fees[0], rest, ids);
      assert forall id :: HasId(fees[1..], id) ==> HasId(fees, id);
      assert UniqueIds(fees) ==> !HasId(fees[1..], fees[0].id);
    }
  }

  /** Ids that only collected fees of one token carry. */
  ghost predicate OnlyCollected(fees: seq<Fee>, ids: set<nat>, token: string) {
    forall i :: 0 <= i < |fees| && fees[i].id in ids ==> Matches(fees[i], Some(token), Collected)
  }

  /** Such ids find no money elsewhere. */
  lemma {:induction false} FindKeepsMoney(fees: seq<Fee>, ids: set<nat>, token: string, t: string, status: Status)
    requires OnlyCollected(fees, ids, token)
    ensures SumOf(Find(fees, Some(t), status), ids) == if t == token && status.Collected? then SumOf(fees, ids) else 0
  {
    if fees != [] {
      FindKeepsMoney(fees[1..], ids, token, t, status);
      assert Matches(fees[0], Some(t), status) ==> Find(fees, Some(t), status)[1..] == Find(fees[1..], Some(t), status);
    }
  }

  ghost predicate Occurs(f: Fee, fees: seq<Fee>) {
    exists j :: 0 <= j < |fees| && fees[j] == f
  }

  lemma {:induction false} FindSelects(fees: seq<Fee>, token: string, found: seq<Fee>)
    requires found == Find(fees, Some(token), Collected)
    ensures UniqueIds(fees) ==> UniqueIds(found)
    ensures forall i :: 0 <= i < |found| ==> Matches(found[i], Some(token), Collected) && Occurs(found[i], fees)
  {
    if fees != [] {
      var tail, rest := fees[1..], Find(fees[1..], Some(token), Collected);
      FindSelects(tail, token, rest);
      forall i | 0 <= i < |rest|
        ensures Occurs(rest[i], fees) && (UniqueIds(fees) ==> rest[i].id != fees[0].id)
      {
        assert Occurs(rest[i], tail);
        var j :| 0 <= j < |tail| && tail[j] == rest[i];
        assert fees[j + 1] == rest[i];
      }
      hide Matches;
      assert found == rest || (found[0] == fees[0] && forall i :: 0 < i < |found| ==> found[i] == rest[i - 1]);
    }
  }

  lemma MarkedFront(fees: seq<Fee>, ids: set<nat>, w: Withdrawal)
    requires fees != []
    ensures Marked(fees, ids, w)[0] == Mark(fees[0], ids, w) && Marked(fees, ids, w)[1..] == Marked(fees[1..], ids, w)
  {
  }

  lemma FindFront(fees: seq<Fee>, token: Option<string>, status: Status)
    requires fees != []
    ensures Total(fees, token, status)
            == (if Matches(fees[0], token, status) then fees[0].amount else 0) + Total(fees[1..], token, status)
  {
    var r := Find(fees, token, status);
    if Matches(fees[0], token, status) {
      SumFront(r);
      assert r[1..] == Find(fees[1..], token, status);
    }
  }

  lemma SumOfFront(fees: seq<Fee>, token: Option<string>, status: Status, ids: set<nat>)
    requires fees != []
    ensures SumOf(Find(fees, token, status), ids)
            == (if Matches(fees[0], token, status) && fees[0].id in ids then fees[0].amount else 0)
               + SumOf(Find(fees[1..], token, status), ids)
  {
    assert Matches(fees[0], token, status) ==> Find(fees, token, status)[1..] == Find(fees[1..], token, status);
  }

  lemma Fronts(fees: seq<Fee>, ids: set<nat>, w: Withdrawal, t: Option<string>, status: Status)
    requires fees != []
    ensures Total(fees, t, status)
            == (if Matches(fees[0], t, status) then fees[0].amount else 0) + Total(fees[1..], t, status)
    ensures Total(Marked(fees, ids, w), t, status)
            == (if Matches(Mark(fees[0], ids, w), t, status) then fees[0].amount else 0)
               + Total(Marked(fees[1..], ids, w), t, status)
    ensures SumOf(Find(fees, t, status), ids)
            == (if Matches(fees[0], t, status) && fees[0].id in ids then fees[0].amount else 0)
               + SumOf(Find(fees[1..], t, status), ids)
  {
    hide Find;
    MarkedFront(fees, ids, w);
    hide Total, Marked, SumOf;
    FindFront(fees, t, status);
    FindFront(Marked(fees, ids, w), t, status);
    SumOfFront(fees, t, status, ids);
  }

  /** Marking any fees moves exactly the money of those that were collected or pending to withdrawn, in each
      token; marking a withdrawn fee again moves nothing. */
  lemma {:induction false} MarkMoves(fees: seq<Fee>, ids: set<nat>, w: Withdrawal, t: Option<string>)
    ensures var after := Marked(fees, ids, w);
            var collected, pending := SumOf(Find(fees, t, Collected), ids), SumOf(Find(fees, t, Pending), ids);
            && Total(after, t, Collected) == Total(fees, t, Collected) - collected
            && Total(after, t, Pending) == Total(fees, t, Pending) - pending
            && Total(after, t, Withdrawn) == Total(fees, t, Withdrawn) + collected + pending
  {
    if fees != [] {
      MarkMoves(fees[1..], ids, w, t);
      MarkedFront(fees, ids, w);
      hide Total, Marked, SumOf, Find;
      Fronts(fees, ids, w, t, Collected);
      Fronts(fees, ids, w, t, Pending);
      Fronts(fees, ids, w, t, Withdrawn);
    }
  }

  /** The ids of a selection are carried by its own fees alone, and sum to it. */
  lemma SelectionSums(fees: seq<Fee>, token: string, selected: seq<Fee>)
    requires UniqueIds(fees) && selected <= Available(fees, token)
    ensures OnlyCollected(fees, Ids(selected), token) && SumOf(fees, Ids(selected)) == Sum(selected)
  {
    var found, available, ids := Find(fees, Some(token), Collected), Available(fees, token), Ids(selected);
    SelectionIsCollected(fees, token, selected);
    FindKeepsMoney(fees, ids, token, token, Collected);
    FindSelects(fees, token, found);
    SortKeepsMoney(OldestFirst, found, ids);
    hide Find, Sorting.Sort, SumOf, Sum;
    var rest := available[|selected|..];
    assert available == selected + rest;
    assert forall i :: 0 <= i < |selected| ==> selected[i] == available[i];
    assert forall i :: 0 <= i < |rest| ==> rest[i] == available[|selected| + i];
    SumOfConcat(selected, rest, ids);
    SumOfAll(selected, ids);
    SumOfNone(rest, ids);
  }

  lemma SelectionIsCollected(fees: seq<Fee>, token: string, selected: seq<Fee>)
    requires UniqueIds(fees) && selected <= Available(fees, token)
    ensures OnlyCollected(fees, Ids(selected), token)
  {
    var found := Find(fees, Some(token), Collected);
    FindSelects(fees, token, found);
    Sorting.SortIsStable(OldestFirst, found);
    hide Find, Sorting.Sort, Matches;
    forall i | 0 <= i < |fees| && fees[i].id in Ids(selected) ensures Matches(fees[i], Some(token), Collected) {
      var k :| 0 <= k < |selected| && selected[k].id == fees[i].id;
      assert Available(fees, token)[k] in multiset(found);
      var j :| 0 <= j < |found| && found[j] == selected[k];
      assert Occurs(found[j], fees);
      var m :| 0 <= m < |fees| && fees[m] == found[j];
      assert m == i;
    }
  }

  /** Marking a selection keeps collected plus withdrawn, takes the selection's sum from the one to the other,
      and touches no other token. */
  lemma WithdrawalConserves(fees: seq<Fee>, token: string, selected: seq<Fee>, w: Withdrawal, t: string)
    requires UniqueIds(fees) && selected <= Available(fees, token)
    ensures var after := Marked(fees, Ids(selected), w);
            var moved := if t == token then Sum(selected) else 0;
            && Total(after, Some(t), Collected) == Total(fees, Some(t), Collected) - moved
            && Total(after, Some(t), Withdrawn) == Total(fees, Some(t), Withdrawn) + moved
            && Total(after, Some(t), Pending) == Total(fees, Some(t), Pending)
  {
    SelectionSums(fees, token, selected);
    hide Total, Marked, Sum, SumOf, Available, Ids, OnlyCollected, Find;
    FindKeepsMoney(fees, Ids(selected), token, t, Collected);
    FindKeepsMoney(fees, Ids(selected), token, t, Pending);
    MarkMoves(fees, Ids(selected), w, Some(t));
  }

  // ----- Withdrawals that interleave -----

  lemma {:induction false} MarkedTwice(fees: seq<Fee>, ids1: set<nat>, w1: Withdrawal, ids2: set<nat>, w2: Withdrawal,
                                       t: Option<string>, status: Status)
    ensures Total(Marked(Marked(fees, ids1, w1), ids2, w2), t, status)
            == Total(Marked(fees, ids1 + ids2, w2), t, status)
  {
    if fees != [] {
      var once := Marked(fees, ids1, w1);
      var twice, both := Marked(once, ids2, w2), Marked(fees, ids1 + ids2, w2);
      MarkedTwice(fees[1..], ids1, w1, ids2, w2, t, status);
      MarkedFront(fees, ids1, w1);
      MarkedFront(once, ids2, w2);
      MarkedFront(fees, ids1 + ids2, w2);
      FindFront(twice, t, status);
      FindFront(both, t, status);
      hide Total, Marked;
    }
  }

  /** Of two stretches from the front, the longer. */
  function Longer(s: seq<Fee>, t: seq<Fee>): seq<Fee> {
    if |s| >= |t| then s else t
  }

  function Shorter(s: seq<Fee>, t: seq<Fee>): seq<Fee> {
    if |s| >= |t| then t else s
  }

  /** Two withdrawals that both select before either marks hand out overlapping fees: marking them, in any order,
      moves the sum of the longer selection only, so what is handed out exceeds what is marked by the sum
      of the shorter one. */
  lemma InterleavedWithdrawals(fees: seq<Fee>, token: string, s1: seq<Fee>, w1: Withdrawal, s2: seq<Fee>,
                               w2: Withdrawal)
    requires UniqueIds(fees) && s1 <= Available(fees, token) && s2 <= Available(fees, token)
    ensures var after := Marked(Marked(fees, Ids(s1), w1), Ids(s2), w2);
            && Total(after, Some(token), Collected) == Total(fees, Some(token), Collected) - Sum(Longer(s1, s2))
            && Total(after, Some(token), Withdrawn) == Total(fees, Some(token), Withdrawn) + Sum(Longer(s1, s2))
            && Sum(s1) + Sum(s2) == (Total(after, Some(token), Withdrawn) - Total(fees, Some(token), Withdrawn))
               + Sum(Shorter(s1, s2))
  {
    var longer := Longer(s1, s2);
    assert Ids(s1) + Ids(s2) == Ids(longer) by {
      var shorter := Shorter(s1, s2);
      assert forall i :: 0 <= i < |shorter| ==> shorter[i] == longer[i];
    }
    hide Total, Marked, Sum, Ids, UniqueIds, Available;
    MarkedTwice(fees, Ids(s1), w1, Ids(s2), w2, Some(token), Collected);
    MarkedTwice(fees, Ids(s1), w1, Ids(s2), w2, Some(token), Withdrawn);
    WithdrawalConserves(fees, token, longer, w2, token);
  }

  /** When the second selects after the first has marked, what is handed out is what is marked. */
  lemma WithdrawalsInTurn(fees: seq<Fee>, token: string, s1: seq<Fee>, w1: Withdrawal, s2: seq<Fee>, w2: Withdrawal)
    requires UniqueIds(fees) && s1 <= Available(fees, token) && s2 <= Available(Marked(fees, Ids(s1), w1), token)
    ensures var after := Marked(Marked(fees, Ids(s1), w1), Ids(s2), w2);
            && Total(after, Some(token), Collected) == Total(fees, Some(token), Collected) - (Sum(s1) + Sum(s2))
            && Total(after, Some(token), Withdrawn) == Total(fees, Some(token), Withdrawn) + (Sum(s1) + Sum(s2))
  {
    assert UniqueIds(Marked(fees, Ids(s1), w1));
    hide Total, Marked, Sum, Ids, UniqueIds, Available;
    WithdrawalConserves(fees, token, s1, w1, token);
    WithdrawalConserves(Marked(fees, Ids(s1), w1), token, s2, w2, token);
  }

  // ----- The service over its collection -----

  datatype Selection = Selected(fees: seq<Fee>) | Insufficient

  class PlatformFeeService {
    var fees: seq<Fee>

    constructor (fees: seq<Fee>)
      ensures this.fees == fees
    {
      this.fees := fees;
    }

    /** No amount, an empty one or the number zero asks for all collected fees. */
    method WithdrawFees(token: string, amount: Option<int>) returns (r: Selection)
      ensures match r
              case Selected(selected) =>
                if amount.None? then selected == Available(fees, token)
                else Covers(Available(fees, token), selected, amount.value)
              case Insufficient =>
                amount.Some? && forall k :: 0 <= k <= |Available(fees, token)| ==>
                  Sum(Available(fees, token)[..k]) < amount.value
      ensures r.Selected? ==>
                && (forall i, j :: 0 <= i < j < |r.fees| ==> r.fees[i].createdAt <= r.fees[j].createdAt)
                && forall f :: f in r.fees ==> f in fees && f.status == Collected && f.token == token
    {
      AvailableExactly(fees, token);
      hide Available;
      var availableFees := Available(fees, token);
      if amount.None? {
        return Selected(availableFees);
      }
      var selectedFees, totalAmount := OldestUpTo(availableFees, amount.value);
      if totalAmount < amount.value {
        return Insufficient;
      }
      return Selected(selectedFees);
    }

    static method OldestUpTo(availableFees: seq<Fee>, amount: int) returns (selectedFees: seq<Fee>, totalAmount: int)
      ensures totalAmount == Sum(selectedFees)
      ensures if totalAmount >= amount then Covers(availableFees, selectedFees, amount)
              else forall k :: 0 <= k <= |availableFees| ==> Sum(availableFees[..k]) < amount
    {
      selectedFees, totalAmount := [], 0;
      hide Sum;
      SumOfEmpty();
      for i := 0 to |availableFees|
        invariant selectedFees == availableFees[..i] && totalAmount == Sum(selectedFees)
        invariant forall k :: 0 <= k < i ==> Sum(availableFees[..k]) < amount
      {
        if totalAmount >= amount {
          break;
        }
        selectedFees := selectedFees + [availableFees[i]];
        totalAmount := totalAmount + availableFees[i].amount;
        SumSnoc(availableFees, i);
      }
    }

    method MarkFeesAsWithdrawn(feeIds: set<nat>, txHash: string, withdrawnBy: string, now: int)
      modifies this
      ensures fees == Marked(old(fees), feeIds, Withdrawal(txHash, now, withdrawnBy))
      ensures |fees| == |old(fees)|
      ensures forall i :: 0 <= i < |fees| ==>
                fees[i] == if old(fees)[i].id !in feeIds then old(fees)[i]
                           else old(fees)[i].(status := Withdrawn,
                                              withdrawal := Some(Withdrawal(txHash, now, withdrawnBy)))
    {
      var w := Withdrawal(txHash, now, withdrawnBy);
      var updated: seq<Fee> := [];
      for i := 0 to |fees|
        invariant updated == Marked(fees, feeIds, w)[..i]
      {
        updated := updated +
          [if fees[i].id in feeIds then fees[i].(status := Withdrawn, withdrawal := Some(w)) else fees[i]];
      }
      fees := updated;
    }

    /** The fees in a status, newest first, with their total. */
    method GetCollectedFees(token: Option<string>, status: Status) returns (found: seq<Fee>, total: int)
      ensures found == Sorting.Sort(NewestFirst, Find(fees, token, status)) && total == Total(fees, token, status)
      ensures forall i, j :: 0 <= i < j < |found| ==> found[i].createdAt >= found[j].createdAt
      ensures forall f: Fee ::
                multiset(found)[f]
                == if f.status == status && (token.None? || f.token == token.value) then multiset(fees)[f] else 0
      ensures total == Sum(found)
    {
      Sorting.SortIsStable(NewestFirst, Find(fees, token, status));
      forall f: Fee { FindExactly(fees, token, status, f); }
      hide Sorting.Sort, Find;
      found := Sorting.Sort(NewestFirst, Find(fees, token, status));
      total := Sum(found);
      SortSum(NewestFirst, Find(fees, token, status));
    }
  }

  lemma SortSum(key: Fee -> int, fees: seq<Fee>)
    ensures Sum(Sorting.Sort(key, fees)) == Sum(fees)
  {
    var ids, sorted := Ids(fees), Sorting.Sort(key, fees);
    SortKeepsMoney(key, fees, ids);
    forall i | 0 <= i < |sorted| ensures sorted[i].id in ids {
      assert HasId(sorted, sorted[i].id);
    }
    SumOfAll(fees, ids);
    SumOfAll(sorted, ids);
  }
}
