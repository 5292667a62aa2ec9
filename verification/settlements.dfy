/** The settlement optimizer of `src/lib/calculations.ts`: balances become
    creditors and debtors, and a greedy two-index walk matches the largest
    remaining creditor with the largest remaining debtor. */
module Settlements {
  import opened Types
  import Sorting
  import Calculations
  import Seqs

  /** A creditor or a debtor with the magnitude still to receive or to pay. */
  datatype Party = Party(memberId: Id, amount: Cents)

  function Amount(p: Party): int
  {
    p.amount
  }

  /** Sum of the amounts of the parties with identifier `id`. */
  function Total(ps: seq<Party>, id: Id): Cents
  {
    if ps == [] then 0 else (if ps[0].memberId == id then ps[0].amount else 0) + Total(ps[1..], id)
  }

  /** Sum of all the parties' amounts. */
  function Sum(ps: seq<Party>): Cents
  {
    if ps == [] then 0 else ps[0].amount + Sum(ps[1..])
  }

  function Ids(ps: seq<Party>): set<Id>
  {
    set p <- ps :: p.memberId
  }

  ghost predicate AllAtLeast(ps: seq<Party>, low: Cents)
  {
    forall p <- ps :: p.amount >= low
  }

  // ---------------------------------------------------------------------------
  // Who takes part

  /** A balance above one cent: someone is owed money. */
  predicate OwedMoney(b: Balance)
  {
    b.amount > 1
  }

  /** A balance below minus one cent: someone owes money. */
  predicate OwesMoney(b: Balance)
  {
    b.amount < -1
  }

  /** What the balances named `id` are owed in total. */
  function CreditOf(bs: seq<Balance>, id: Id): Cents
  {
    if bs == [] then 0
    else (if bs[0].memberId == id && OwedMoney(bs[0]) then bs[0].amount else 0) + CreditOf(bs[1..], id)
  }

  /** What the balances named `id` owe in total, as a magnitude. */
  function DebtOf(bs: seq<Balance>, id: Id): Cents
  {
    if bs == [] then 0
    else (if bs[0].memberId == id && OwesMoney(bs[0]) then -bs[0].amount else 0) + DebtOf(bs[1..], id)
  }

  function Owing(bs: seq<Balance>): seq<Party>
  {
    if bs == [] then []
    else (if OwedMoney(bs[0]) then [Party(bs[0].memberId, bs[0].amount)] else []) + Owing(bs[1..])
  }

  function Owers(bs: seq<Balance>): seq<Party>
  {
    if bs == [] then []
    else (if OwesMoney(bs[0]) then [Party(bs[0].memberId, -bs[0].amount)] else []) + Owers(bs[1..])
  }

  lemma {:induction false} OwingFacts(bs: seq<Balance>, id: Id)
    ensures Total(Owing(bs), id) == CreditOf(bs, id)
    ensures forall p <- Owing(bs) :: p.amount > 1 && exists b <- bs :: OwedMoney(b) && b.memberId == p.memberId
    decreases |bs|
  {
    if bs != [] {
      OwingFacts(bs[1..], id);
      var head := if OwedMoney(bs[0]) then [Party(bs[0].memberId, bs[0].amount)] else [];
      TotalConcat(head, Owing(bs[1..]), id);
      assert bs == [bs[0]] + bs[1..];
    }
  }

  /** Every balance above one cent has its party among the creditors. */
  lemma {:induction false} OwingComplete(bs: seq<Balance>)
    ensures forall b <- bs :: OwedMoney(b) ==> Party(b.memberId, b.amount) in Owing(bs)
    decreases |bs|
  {
    if bs != [] {
      OwingComplete(bs[1..]);
      assert forall b <- bs :: b == bs[0] || b in bs[1..];
    }
  }

  /** Every creditor party is a balance above one cent. */
  lemma {:induction false} OwingSound(bs: seq<Balance>)
    ensures forall p <- Owing(bs) :: exists b <- bs :: OwedMoney(b) && p == Party(b.memberId, b.amount)
    decreases |bs|
  {
    if bs != [] {
      OwingSound(bs[1..]);
      assert forall b <- bs[1..] :: b in bs;
    }
  }

  /** Every debtor party is a balance below minus one cent. */
  lemma {:induction false} OwersSound(bs: seq<Balance>)
    ensures forall p <- Owers(bs) :: exists b <- bs :: OwesMoney(b) && p == Party(b.memberId, -b.amount)
    decreases |bs|
  {
    if bs != [] {
      OwersSound(bs[1..]);
      assert forall b <- bs[1..] :: b in bs;
    }
  }

  /** Every balance below minus one cent has its party among the debtors. */
  lemma {:induction false} OwersComplete(bs: seq<Balance>)
    ensures forall b <- bs :: OwesMoney(b) ==> Party(b.memberId, -b.amount) in Owers(bs)
    decreases |bs|
  {
    if bs != [] {
      OwersComplete(bs[1..]);
      assert forall b <- bs :: b == bs[0] || b in bs[1..];
    }
  }

  lemma {:induction false} OwersFacts(bs: seq<Balance>, id: Id)
    ensures Total(Owers(bs), id) == DebtOf(bs, id)
    ensures forall p <- Owers(bs) :: p.amount > 1 && exists b <- bs :: OwesMoney(b) && b.memberId == p.memberId
    decreases |bs|
  {
    if bs != [] {
      OwersFacts(bs[1..], id);
      var head := if OwesMoney(bs[0]) then [Party(bs[0].memberId, -bs[0].amount)] else [];
      TotalConcat(head, Owers(bs[1..]), id);
      assert bs == [bs[0]] + bs[1..];
    }
  }

  lemma {:induction false} TotalConcat(a: seq<Party>, b: seq<Party>, id: Id)
    ensures Total(a + b, id) == Total(a, id) + Total(b, id)
    decreases |a|
  {
    if a == [] {
      assert a + b == b;
    } else {
      assert (a + b)[1..] == a[1..] + b;
      TotalConcat(a[1..], b, id);
    }
  }

  lemma {:induction false} TotalInsert(x: Party, ys: seq<Party>, id: Id)
    requires Sorting.SortedDesc(ys, Amount)
    ensures Total(Sorting.Insert(x, ys, Amount), id) == Total([x] + ys, id)
    decreases |ys|
  {
    if ys != [] && Amount(ys[0]) > Amount(x) {
      var rest := Sorting.Insert(x, ys[1..], Amount);
      TotalInsert(x, ys[1..], id);
      assert ([ys[0]] + rest)[1..] == rest;
      assert ([x] + ys)[1..] == ys;
      assert ([x] + ys[1..])[1..] == ys[1..];
    }
  }

  lemma {:induction false} TotalSort(xs: seq<Party>, id: Id)
    ensures Total(Sorting.SortDesc(xs, Amount), id) == Total(xs, id)
    decreases |xs|
  {
    if xs != [] {
      TotalSort(xs[1..], id);
      TotalInsert(xs[0], Sorting.SortDesc(xs[1..], Amount), id);
      assert ([xs[0]] + Sorting.SortDesc(xs[1..], Amount))[1..] == Sorting.SortDesc(xs[1..], Amount);
    }
  }

  /** Creditors: the balances above one cent, largest first. Each member's
      total owed is carried over exactly. */
  function Creditors(bs: seq<Balance>): (r: seq<Party>)
    ensures Sorting.SortedDesc(r, Amount)
    ensures forall p <- r :: p.amount > 1 && exists b <- bs :: OwedMoney(b) && b.memberId == p.memberId
    ensures multiset(r) == multiset(Owing(bs)) && |r| == |Owing(bs)|
    ensures forall id :: Total(r, id) == CreditOf(bs, id)
  {
    var r := Sorting.SortDesc(Owing(bs), Amount);
    assert forall id :: Total(r, id) == CreditOf(bs, id) by {
      forall id
        ensures Total(r, id) == CreditOf(bs, id)
      {
        OwingFacts(bs, id);
        TotalSort(Owing(bs), id);
      }
    }
    OwingFacts(bs, "");
    assert forall p <- r :: p in multiset(Owing(bs));
    r
  }

  /** The creditors are exactly the balances above one cent. */
  lemma CreditorsExact(bs: seq<Balance>)
    ensures forall b <- bs :: OwedMoney(b) ==> Party(b.memberId, b.amount) in Creditors(bs)
    ensures forall p <- Creditors(bs) :: exists b <- bs :: OwedMoney(b) && p == Party(b.memberId, b.amount)
  {
    OwingComplete(bs);
    OwingSound(bs);
    Seqs.SameElements(Creditors(bs), Owing(bs));
  }

  /** Debtors: the balances below minus one cent as positive magnitudes,
      largest first. Each member's total debt is carried over exactly. */
  function Debtors(bs: seq<Balance>): (r: seq<Party>)
    ensures Sorting.SortedDesc(r, Amount)
    ensures forall p <- r :: p.amount > 1 && exists b <- bs :: OwesMoney(b) && b.memberId == p.memberId
    ensures multiset(r) == multiset(Owers(bs)) && |r| == |Owers(bs)|
    ensures forall id :: Total(r, id) == DebtOf(bs, id)
  {
    var r := Sorting.SortDesc(Owers(bs), Amount);
    assert forall id :: Total(r, id) == DebtOf(bs, id) by {
      forall id
        ensures Total(r, id) == DebtOf(bs, id)
      {
        OwersFacts(bs, id);
        TotalSort(Owers(bs), id);
      }
    }
    OwersFacts(bs, "");
    assert forall p <- r :: p in multiset(Owers(bs));
    r
  }

  /** The debtors are exactly the balances below minus one cent, as
      positive magnitudes. */
  lemma DebtorsExact(bs: seq<Balance>)
    ensures forall b <- bs :: OwesMoney(b) ==> Party(b.memberId, -b.amount) in Debtors(bs)
    ensures forall p <- Debtors(bs) :: exists b <- bs :: OwesMoney(b) && p == Party(b.memberId, -b.amount)
  {
    OwersComplete(bs);
    OwersSound(bs);
    Seqs.SameElements(Debtors(bs), Owers(bs));
  }

  // ---------------------------------------------------------------------------
  // The greedy walk, on the remaining lists (the head of each list is where
  // the source's index stands)

  /** One matched payment, before suggestions of one cent or less are
      dropped. */
  datatype Transfer = Transfer(from: Id, to: Id, amount: Cents)

  function Min(a: int, b: int): int
  {
    if a <= b then a else b
  }

  /** The list after its head has settled `amt`: the head is passed once what
      it has left is below one cent. */
  function After(ps: seq<Party>, amt: Cents): seq<Party>
    requires ps != []
  {
    var left := ps[0].amount - amt;
    if left < 1 then ps[1..] else [ps[0].(amount := left)] + ps[1..]
  }

  /** The list with the party at `k` having settled `amt`. */
  function Settle(ps: seq<Party>, k: int, amt: Cents): (r: seq<Party>)
    requires 0 <= k < |ps|
    ensures |r| == |ps| && r[k].amount == ps[k].amount - amt
    ensures r[k].memberId == ps[k].memberId
    ensures forall m :: 0 <= m < |ps| && m != k ==> r[m] == ps[m]
  {
    ps[k := ps[k].(amount := ps[k].amount - amt)]
  }

  /** The index moves past a party with less than one cent left. */
  function Advance(ps: seq<Party>, k: int): (r: int)
    requires 0 <= k < |ps|
    ensures r == k || r == k + 1
    ensures r == k + 1 <==> ps[k].amount < 1
  {
    if ps[k].amount < 1 then k + 1 else k
  }

  /** Every match the walk makes, in order. */
  function Steps(cs: seq<Party>, ds: seq<Party>): seq<Transfer>
    decreases |cs| + |ds|
  {
    if cs == [] || ds == [] then []
    else
      var amt := Min(cs[0].amount, ds[0].amount);
      assert |After(cs, amt)| < |cs| || |After(ds, amt)| < |ds|;
      [Transfer(ds[0].memberId, cs[0].memberId, amt)] + Steps(After(cs, amt), After(ds, amt))
  }

  /** The suggestions the walk emits: a match becomes a pending suggestion
      only when it exceeds one cent. */
  function Emit(steps: seq<Transfer>, groupId: Id): seq<Suggestion>
  {
    if steps == [] then []
    else
      (if steps[0].amount > 1
       then [Suggestion(groupId, steps[0].from, steps[0].to, steps[0].amount, Pending)]
       else [])
      + Emit(steps[1..], groupId)
  }

  /** The suggestions for a group's balances: creditors and debtors are
      matched by the two-index walk. */
  method CalculateOptimalSettlements(balances: seq<Balance>, groupId: Id) returns (r: seq<Suggestion>)
    ensures r == Emit(Steps(Creditors(balances), Debtors(balances)), groupId)
    ensures forall s <- r :: s.groupId == groupId && s.status == Pending && s.amount > 1
    ensures forall s <- r :: (exists b <- balances :: OwedMoney(b) && b.memberId == s.to)
                          && (exists b <- balances :: OwesMoney(b) && b.memberId == s.from)
    ensures Creditors(balances) == [] || Debtors(balances) == [] ==> r == []
    ensures |r| < |Creditors(balances)| + |Debtors(balances)| || r == []
    ensures forall id :: Received(r, id) <= CreditOf(balances, id)
    ensures forall id :: Sent(r, id) <= DebtOf(balances, id)
  {
    r := Walk(Creditors(balances), Debtors(balances), groupId);
    OptimalSettlementFacts(balances, groupId);
  }

  /** The source's loop: two indices over the creditors and the debtors,
      whose remaining amounts are updated in place; an index moves on once
      its party has less than one cent left. */
  method Walk(cs0: seq<Party>, ds0: seq<Party>, groupId: Id) returns (r: seq<Suggestion>)
    ensures r == Emit(Steps(cs0, ds0), groupId)
  {
    var creditors, debtors := cs0, ds0;
    var i, j := 0, 0;
    r := [];
    while i < |creditors| && j < |debtors|
      invariant |creditors| == |cs0| && |debtors| == |ds0|
      invariant 0 <= i <= |creditors| && 0 <= j <= |debtors|
      invariant r + Emit(Steps(creditors[i..], debtors[j..]), groupId) == Emit(Steps(cs0, ds0), groupId)
      decreases |creditors| - i + |debtors| - j
    {
      var creditor, debtor := creditors[i], debtors[j];
      var amt := Min(creditor.amount, debtor.amount);
      ghost var r0, cs, ds, i0, j0 := r, creditors, debtors, i, j;
      var emitted := if amt > 1 then [Suggestion(groupId, debtor.memberId, creditor.memberId, amt, Pending)] else [];
      r := r + emitted;
      creditors := Settle(creditors, i, amt);
      debtors := Settle(debtors, j, amt);
      i := Advance(creditors, i);
      j := Advance(debtors, j);
      WalkTurn(cs, i0, ds, j0, creditors, i, debtors, j, groupId);
      Associative(r0, emitted, Emit(Steps(creditors[i..], debtors[j..]), groupId));
    }
  }

  /** One turn of the loop emits the suggestion of one step of the walk. */
  lemma WalkTurn(cs: seq<Party>, i: int, ds: seq<Party>, j: int,
                 cs': seq<Party>, i': int, ds': seq<Party>, j': int, groupId: Id)
    requires 0 <= i < |cs| && 0 <= j < |ds|
    requires cs' == Settle(cs, i, Min(cs[i].amount, ds[j].amount))
    requires ds' == Settle(ds, j, Min(cs[i].amount, ds[j].amount))
    requires i' == Advance(cs', i) && j' == Advance(ds', j)
    ensures var amt := Min(cs[i].amount, ds[j].amount);
            Emit(Steps(cs[i..], ds[j..]), groupId)
            == (if amt > 1 then [Suggestion(groupId, ds[j].memberId, cs[i].memberId, amt, Pending)] else [])
               + Emit(Steps(cs'[i'..], ds'[j'..]), groupId)
  {
    var t := Transfer(ds[j].memberId, cs[i].memberId, Min(cs[i].amount, ds[j].amount));
    WalkStep(cs, i, ds, j, cs', i', ds', j');
    EmitCons(t, Steps(cs'[i'..], ds'[j'..]), groupId);
  }

  lemma Associative<T>(a: seq<T>, b: seq<T>, c: seq<T>)
    ensures a + (b + c) == (a + b) + c
  {
  }

  /** One turn of the loop is one step of the walk on the remaining lists. */
  lemma WalkStep(cs: seq<Party>, i: int, ds: seq<Party>, j: int,
                 cs': seq<Party>, i': int, ds': seq<Party>, j': int)
    requires 0 <= i < |cs| && 0 <= j < |ds|
    requires cs' == Settle(cs, i, Min(cs[i].amount, ds[j].amount))
    requires ds' == Settle(ds, j, Min(cs[i].amount, ds[j].amount))
    requires i' == Advance(cs', i) && j' == Advance(ds', j)
    ensures Steps(cs[i..], ds[j..])
         == [Transfer(ds[j].memberId, cs[i].memberId, Min(cs[i].amount, ds[j].amount))] + Steps(cs'[i'..], ds'[j'..])
  {
    var amt := Min(cs[i].amount, ds[j].amount);
    assert After(cs[i..], amt) == cs'[i'..] by {
      if cs'[i].amount < 1 {
        assert cs[i..][1..] == cs'[i + 1..];
      } else {
        assert cs'[i..] == [cs'[i]] + cs[i..][1..];
      }
    }
    assert After(ds[j..], amt) == ds'[j'..] by {
      if ds'[j].amount < 1 {
        assert ds[j..][1..] == ds'[j + 1..];
      } else {
        assert ds'[j..] == [ds'[j]] + ds[j..][1..];
      }
    }
  }

  lemma EmitCons(t: Transfer, ts: seq<Transfer>, groupId: Id)
    ensures Emit([t] + ts, groupId)
         == (if t.amount > 1 then [Suggestion(groupId, t.from, t.to, t.amount, Pending)] else [])
            + Emit(ts, groupId)
  {
    assert ([t] + ts)[1..] == ts;
  }

  /** The guarantees of the suggestions, stated against the balances. */
  lemma OptimalSettlementFacts(balances: seq<Balance>, groupId: Id)
    ensures var r := Emit(Steps(Creditors(balances), Debtors(balances)), groupId);
            && (forall s <- r :: s.groupId == groupId && s.status == Pending && s.amount > 1)
            && (forall s <- r :: (exists b <- balances :: OwedMoney(b) && b.memberId == s.to)
                              && (exists b <- balances :: OwesMoney(b) && b.memberId == s.from))
            && (Creditors(balances) == [] || Debtors(balances) == [] ==> r == [])
            && (|r| < |Creditors(balances)| + |Debtors(balances)| || r == [])
            && (forall id :: Received(r, id) <= CreditOf(balances, id))
            && (forall id :: Sent(r, id) <= DebtOf(balances, id))
  {
    var cs, ds := Creditors(balances), Debtors(balances);
    var r := Emit(Steps(cs, ds), groupId);
    SuggestionFacts(cs, ds, groupId);
    EmitFacts(Steps(cs, ds), groupId, "");
    forall s <- r
      ensures exists b <- balances :: OwedMoney(b) && b.memberId == s.to
      ensures exists b <- balances :: OwesMoney(b) && b.memberId == s.from
    {
      assert s.to in Ids(cs) && s.from in Ids(ds);
      var c :| c in cs && c.memberId == s.to;
      var d :| d in ds && d.memberId == s.from;
    }
  }

  // ---------------------------------------------------------------------------
  // What the walk guarantees

  /** What the suggestions pay to `id`. */
  function Received(ss: seq<Suggestion>, id: Id): Cents
  {
    if ss == [] then 0 else (if ss[0].to == id then ss[0].amount else 0) + Received(ss[1..], id)
  }

  /** What the suggestions take from `id`. */
  function Sent(ss: seq<Suggestion>, id: Id): Cents
  {
    if ss == [] then 0 else (if ss[0].from == id then ss[0].amount else 0) + Sent(ss[1..], id)
  }

  /** What the matches pay to `id`. */
  function MatchedTo(ts: seq<Transfer>, id: Id): Cents
  {
    if ts == [] then 0 else (if ts[0].to == id then ts[0].amount else 0) + MatchedTo(ts[1..], id)
  }

  /** What the matches take from `id`. */
  function MatchedFrom(ts: seq<Transfer>, id: Id): Cents
  {
    if ts == [] then 0 else (if ts[0].from == id then ts[0].amount else 0) + MatchedFrom(ts[1..], id)
  }

  /** The part of `MatchedTo` that was too small to suggest. */
  function DroppedTo(ts: seq<Transfer>, id: Id): Cents
  {
    if ts == [] then 0
    else (if ts[0].to == id && ts[0].amount <= 1 then ts[0].amount else 0) + DroppedTo(ts[1..], id)
  }

  /** The part of `MatchedFrom` that was too small to suggest. */
  function DroppedFrom(ts: seq<Transfer>, id: Id): Cents
  {
    if ts == [] then 0
    else (if ts[0].from == id && ts[0].amount <= 1 then ts[0].amount else 0) + DroppedFrom(ts[1..], id)
  }

  lemma {:induction false} AfterFacts(ps: seq<Party>, amt: Cents, id: Id)
    requires ps != [] && 0 <= amt <= ps[0].amount
    ensures Total(After(ps, amt), id) == Total(ps, id) - (if ps[0].memberId == id then amt else 0)
    ensures Sum(After(ps, amt)) == Sum(ps) - amt
    ensures Ids(After(ps, amt)) <= Ids(ps)
    ensures |After(ps, amt)| <= |ps|
    ensures AllAtLeast(ps, 0) ==> AllAtLeast(After(ps, amt), 0)
    ensures AllAtLeast(ps, 1) ==> AllAtLeast(After(ps, amt), 1)
  {
    var left := ps[0].amount - amt;
    if left >= 1 {
      var q := [ps[0].(amount := left)] + ps[1..];
      assert q[1..] == ps[1..];
      assert forall p <- q :: p == q[0] || p in ps[1..];
    }
  }

  lemma {:induction false} TotalNonNegative(ps: seq<Party>, id: Id)
    requires AllAtLeast(ps, 0)
    ensures Total(ps, id) >= 0
    decreases |ps|
  {
    if ps != [] {
      assert ps[0] in ps;
      TotalNonNegative(ps[1..], id);
    }
  }

  /** Every match goes from a debtor to a creditor; there is none once a
      list is empty, and otherwise fewer than the two lists' lengths
      together, since every match passes at least one head. */
  lemma {:induction false} StepsShape(cs: seq<Party>, ds: seq<Party>)
    ensures forall t <- Steps(cs, ds) :: t.to in Ids(cs) && t.from in Ids(ds)
    ensures cs == [] || ds == [] ==> Steps(cs, ds) == []
    ensures cs != [] && ds != [] ==> |Steps(cs, ds)| < |cs| + |ds|
    decreases |cs| + |ds|
  {
    if cs != [] && ds != [] {
      var amt := Min(cs[0].amount, ds[0].amount);
      var cs', ds' := After(cs, amt), After(ds, amt);
      assert |cs'| < |cs| || |ds'| < |ds|;
      assert |cs'| <= |cs| && |ds'| <= |ds| by {
        if cs[0].amount - amt >= 1 { assert |cs'| == |cs|; }
        if ds[0].amount - amt >= 1 { assert |ds'| == |ds|; }
      }
      assert Ids(cs') <= Ids(cs) by {
        forall p <- cs' ensures p.memberId in Ids(cs) {
          if cs[0].amount - amt >= 1 {
            assert p == cs'[0] || p in cs[1..];
            assert cs[0] in cs;
          }
        }
      }
      assert Ids(ds') <= Ids(ds) by {
        forall p <- ds' ensures p.memberId in Ids(ds) {
          if ds[0].amount - amt >= 1 {
            assert p == ds'[0] || p in ds[1..];
            assert ds[0] in ds;
          }
        }
      }
      StepsShape(cs', ds');
      assert cs[0] in cs && ds[0] in ds;
    }
  }

  /** With non-negative amounts, no one is matched beyond what they are owed
      or what they owe. */
  lemma {:induction false} StepsWithinBalances(cs: seq<Party>, ds: seq<Party>, id: Id)
    requires AllAtLeast(cs, 0) && AllAtLeast(ds, 0)
    ensures MatchedTo(Steps(cs, ds), id) <= Total(cs, id)
    ensures MatchedFrom(Steps(cs, ds), id) <= Total(ds, id)
    ensures forall t <- Steps(cs, ds) :: t.amount >= 0
    decreases |cs| + |ds|
  {
    if cs == [] || ds == [] {
      TotalNonNegative(cs, id);
      TotalNonNegative(ds, id);
    } else {
      assert cs[0] in cs && ds[0] in ds;
      var amt := Min(cs[0].amount, ds[0].amount);
      AfterFacts(cs, amt, id);
      AfterFacts(ds, amt, id);
      StepsWithinBalances(After(cs, amt), After(ds, amt), id);
    }
  }

  /** When the creditors' total equals the debtors' total and every amount is
      at least one cent, the walk matches every party in full: each member
      is paid exactly what they are owed and pays exactly what they owe, and
      every match is at least one cent. */
  lemma {:induction false} StepsSettleInFull(cs: seq<Party>, ds: seq<Party>, id: Id)
    requires AllAtLeast(cs, 1) && AllAtLeast(ds, 1)
    requires Sum(cs) == Sum(ds)
    ensures MatchedTo(Steps(cs, ds), id) == Total(cs, id)
    ensures MatchedFrom(Steps(cs, ds), id) == Total(ds, id)
    ensures forall t <- Steps(cs, ds) :: t.amount >= 1
    decreases |cs| + |ds|
  {
    if cs == [] {
      EmptyBySum(ds);
    } else if ds == [] {
      EmptyBySum(cs);
    } else {
      assert cs[0] in cs && ds[0] in ds;
      var amt := Min(cs[0].amount, ds[0].amount);
      AfterFacts(cs, amt, id);
      AfterFacts(ds, amt, id);
      StepsSettleInFull(After(cs, amt), After(ds, amt), id);
    }
  }

  lemma {:induction false} EmptyBySum(ps: seq<Party>)
    requires AllAtLeast(ps, 1) && Sum(ps) == 0
    ensures ps == []
  {
    if ps != [] {
      assert ps[0] in ps;
      SumPositive(ps[1..]);
    }
  }

  lemma {:induction false} SumPositive(ps: seq<Party>)
    requires AllAtLeast(ps, 1)
    ensures Sum(ps) >= 0
    decreases |ps|
  {
    if ps != [] {
      assert ps[0] in ps;
      SumPositive(ps[1..]);
    }
  }

  /** A suggestion keeps a match's endpoints and amount, and only matches of
      one cent or less are missing. */
  lemma {:induction false} EmitFacts(ts: seq<Transfer>, groupId: Id, id: Id)
    ensures forall s <- Emit(ts, groupId) :: s.groupId == groupId && s.status == Pending && s.amount > 1
    ensures forall s <- Emit(ts, groupId) :: exists t <- ts :: t.from == s.from && t.to == s.to
    ensures |Emit(ts, groupId)| <= |ts|
    ensures Received(Emit(ts, groupId), id) + DroppedTo(ts, id) == MatchedTo(ts, id)
    ensures Sent(Emit(ts, groupId), id) + DroppedFrom(ts, id) == MatchedFrom(ts, id)
    decreases |ts|
  {
    if ts != [] {
      EmitFacts(ts[1..], groupId, id);
      var head := if ts[0].amount > 1 then [Suggestion(groupId, ts[0].from, ts[0].to, ts[0].amount, Pending)] else [];
      var e := Emit(ts, groupId);
      assert e == head + Emit(ts[1..], groupId);
      if ts[0].amount > 1 {
        assert e[1..] == Emit(ts[1..], groupId);
        assert Received(e, id) == (if ts[0].to == id then ts[0].amount else 0) + Received(Emit(ts[1..], groupId), id);
        assert Sent(e, id) == (if ts[0].from == id then ts[0].amount else 0) + Sent(Emit(ts[1..], groupId), id);
      } else {
        assert e == Emit(ts[1..], groupId);
      }
      assert ts[0] in ts;
      assert forall s <- e :: s in head || s in Emit(ts[1..], groupId);
    }
  }

  lemma {:induction false} DroppedNonNegative(ts: seq<Transfer>, id: Id)
    requires forall t <- ts :: t.amount >= 0
    ensures DroppedTo(ts, id) >= 0 && DroppedFrom(ts, id) >= 0
    decreases |ts|
  {
    if ts != [] {
      assert ts[0] in ts;
      DroppedNonNegative(ts[1..], id);
    }
  }

  lemma SuggestionFacts(cs: seq<Party>, ds: seq<Party>, groupId: Id)
    requires AllAtLeast(cs, 0) && AllAtLeast(ds, 0)
    ensures var r := Emit(Steps(cs, ds), groupId);
            && (forall s <- r :: s.to in Ids(cs) && s.from in Ids(ds))
            && (cs == [] || ds == [] ==> r == [])
            && (|r| < |cs| + |ds| || r == [])
            && (forall id :: Received(r, id) <= Total(cs, id))
            && (forall id :: Sent(r, id) <= Total(ds, id))
  {
    var ts := Steps(cs, ds);
    StepsShape(cs, ds);
    EmitFacts(ts, groupId, "");
    forall id
      ensures Received(Emit(ts, groupId), id) <= Total(cs, id)
      ensures Sent(Emit(ts, groupId), id) <= Total(ds, id)
    {
      StepsWithinBalances(cs, ds, id);
      EmitFacts(ts, groupId, id);
      DroppedNonNegative(ts, id);
    }
  }

  lemma {:induction false} SumsOfParties(bs: seq<Balance>)
    requires forall b <- bs :: b.amount != 1 && b.amount != -1
    ensures Calculations.SumBalances(bs) == Sum(Owing(bs)) - Sum(Owers(bs))
    decreases |bs|
  {
    if bs != [] {
      assert bs[0] in bs;
      SumsOfParties(bs[1..]);
      var c := if OwedMoney(bs[0]) then [Party(bs[0].memberId, bs[0].amount)] else [];
      var d := if OwesMoney(bs[0]) then [Party(bs[0].memberId, -bs[0].amount)] else [];
      assert Owing(bs) == c + Owing(bs[1..]);
      assert Owers(bs) == d + Owers(bs[1..]);
      SumConcat(c, Owing(bs[1..]));
      SumConcat(d, Owers(bs[1..]));
      assert Sum(c) - Sum(d) == bs[0].amount;
    }
  }

  lemma {:induction false} SumConcat(a: seq<Party>, b: seq<Party>)
    ensures Sum(a + b) == Sum(a) + Sum(b)
    decreases |a|
  {
    if a == [] {
      assert a + b == b;
    } else {
      assert (a + b)[1..] == a[1..] + b;
      SumConcat(a[1..], b);
    }
  }

  lemma {:induction false} SumIsTotalOfAll(ps: seq<Party>)
    ensures multiset(ps) == multiset(Sorting.SortDesc(ps, Amount))
    ensures Sum(Sorting.SortDesc(ps, Amount)) == Sum(ps)
    decreases |ps|
  {
    if ps != [] {
      SumIsTotalOfAll(ps[1..]);
      SumInsert(ps[0], Sorting.SortDesc(ps[1..], Amount));
      assert ([ps[0]] + Sorting.SortDesc(ps[1..], Amount))[1..] == Sorting.SortDesc(ps[1..], Amount);
    }
  }

  lemma {:induction false} SumInsert(x: Party, ys: seq<Party>)
    requires Sorting.SortedDesc(ys, Amount)
    ensures Sum(Sorting.Insert(x, ys, Amount)) == x.amount + Sum(ys)
    decreases |ys|
  {
    if ys != [] && Amount(ys[0]) > Amount(x) {
      var rest := Sorting.Insert(x, ys[1..], Amount);
      SumInsert(x, ys[1..]);
      assert ([ys[0]] + rest)[1..] == rest;
    }
  }

  /** Settlement correctness. When the balances sum to zero and none is
      exactly one cent either way, carrying out the suggestions together
      with the matches of one cent that were too small to suggest pays each
      member exactly what the balances say they are owed and takes from
      each exactly what they owe. Every match is at least one cent, so each
      dropped match is exactly one cent. */
  lemma SuggestionsSettleBalances(bs: seq<Balance>, groupId: Id, id: Id)
    requires Calculations.SumBalances(bs) == 0
    requires forall b <- bs :: b.amount != 1 && b.amount != -1
    ensures var steps := Steps(Creditors(bs), Debtors(bs));
            var r := Emit(steps, groupId);
            && Received(r, id) + DroppedTo(steps, id) == CreditOf(bs, id)
            && Sent(r, id) + DroppedFrom(steps, id) == DebtOf(bs, id)
            && forall t <- steps :: t.amount >= 1
  {
    var cs, ds := Creditors(bs), Debtors(bs);
    SumsOfParties(bs);
    SumIsTotalOfAll(Owing(bs));
    SumIsTotalOfAll(Owers(bs));
    StepsSettleInFull(cs, ds, id);
    EmitFacts(Steps(cs, ds), groupId, id);
  }
}
