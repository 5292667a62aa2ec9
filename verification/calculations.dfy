/** The split calculator and the balance aggregator of the settlement engine
    (`src/lib/calculations.ts`), over amounts in whole cents. */
module Calculations {
  import opened Wrappers
  import opened Types

  // ---------------------------------------------------------------------------
  // Rounding

  function Abs(x: int): nat
  {
    if x < 0 then -x else x
  }

  /** `Math.round(n / d)`: the integer nearest to n/d, a half rounded up. */
  function RoundHalfUp(n: int, d: int): (r: int)
    requires d > 0
    ensures 2 * r * d - d <= 2 * n < 2 * r * d + d
  {
    var q := (2 * n + d) / (2 * d);
    assert q * (2 * d) <= 2 * n + d < q * (2 * d) + 2 * d;
    assert 2 * q * d == q * (2 * d);
    q
  }

  // ---------------------------------------------------------------------------
  // Balances, as the source computes them: a map from member id to a running
  // total, updated expense by expense.

  /** `balanceMap.get(id) || 0`: an id without an entry reads as zero. */
  function Lookup(m: map<Id, Cents>, id: Id): Cents
  {
    if id in m then m[id] else 0
  }

  /** Every member starts with a zero entry. */
  function ZeroBalances(members: seq<Member>): map<Id, Cents>
  {
    map id | id in MemberIds(members) :: 0
  }

  /** Debits each unpaid split's member by the split amount, in order. */
  function DebitSplits(m: map<Id, Cents>, splits: seq<Split>): map<Id, Cents>
    decreases |splits|
  {
    if splits == [] then m
    else
      var s := splits[0];
      var m' := if !s.isPaid then m[s.memberId := Lookup(m, s.memberId) - s.amount] else m;
      DebitSplits(m', splits[1..])
  }

  /** Credits the payer with the full amount, then debits the splits. */
  function ApplyExpense(m: map<Id, Cents>, e: Expense): map<Id, Cents>
  {
    DebitSplits(m[e.paidBy := Lookup(m, e.paidBy) + e.amount], e.splitBetween)
  }

  function ApplyExpenses(m: map<Id, Cents>, expenses: seq<Expense>): map<Id, Cents>
    decreases |expenses|
  {
    if expenses == [] then m else ApplyExpenses(ApplyExpense(m, expenses[0]), expenses[1..])
  }

  // ---------------------------------------------------------------------------
  // Balances, as sums per member: the reference the map computation is
  // proved against.

  /** What `id` fronted: the full amount of every expense they paid. */
  function Paid(expenses: seq<Expense>, id: Id): Cents
  {
    if expenses == [] then 0
    else (if expenses[0].paidBy == id then expenses[0].amount else 0) + Paid(expenses[1..], id)
  }

  /** What `id` owes under one expense: their shares not marked paid. */
  function OwedUnder(splits: seq<Split>, id: Id): Cents
  {
    if splits == [] then 0
    else (if splits[0].memberId == id && !splits[0].isPaid then splits[0].amount else 0) + OwedUnder(splits[1..], id)
  }

  /** What `id` owes across all expenses. */
  function Owed(expenses: seq<Expense>, id: Id): Cents
  {
    if expenses == [] then 0 else OwedUnder(expenses[0].splitBetween, id) + Owed(expenses[1..], id)
  }

  /** The net position of `id`: fronted minus owed. */
  function Net(expenses: seq<Expense>, id: Id): Cents
  {
    Paid(expenses, id) - Owed(expenses, id)
  }

  lemma {:induction false} DebitSplitsLookup(m: map<Id, Cents>, splits: seq<Split>, id: Id)
    ensures Lookup(DebitSplits(m, splits), id) == Lookup(m, id) - OwedUnder(splits, id)
    decreases |splits|
  {
    if splits != [] {
      var s := splits[0];
      var m' := if !s.isPaid then m[s.memberId := Lookup(m, s.memberId) - s.amount] else m;
      DebitSplitsLookup(m', splits[1..], id);
    }
  }

  /** Folding the expenses into the map adds each member's net position to
      their starting entry. */
  lemma {:induction false} ApplyExpensesLookup(m: map<Id, Cents>, expenses: seq<Expense>, id: Id)
    ensures Lookup(ApplyExpenses(m, expenses), id) == Lookup(m, id) + Net(expenses, id)
    decreases |expenses|
  {
    if expenses != [] {
      var e := expenses[0];
      var credited := m[e.paidBy := Lookup(m, e.paidBy) + e.amount];
      DebitSplitsLookup(credited, e.splitBetween, id);
      ApplyExpensesLookup(ApplyExpense(m, e), expenses[1..], id);
    }
  }

  /** One balance per member, in member order, carrying the member's name and
      their net position over the expenses. Payers and split members that
      are not in `members` get no entry. */
  function CalculateBalances(expenses: seq<Expense>, members: seq<Member>): (r: seq<Balance>)
    ensures |r| == |members|
    ensures forall k :: 0 <= k < |r| ==>
              && r[k].memberId == members[k].id
              && r[k].memberName == members[k].name
              && r[k].amount == Net(expenses, members[k].id)
  {
    var totals := ApplyExpenses(ZeroBalances(members), expenses);
    assert forall id :: Lookup(totals, id) == Net(expenses, id) by {
      forall id
        ensures Lookup(totals, id) == Net(expenses, id)
      {
        ApplyExpensesLookup(ZeroBalances(members), expenses, id);
      }
    }
    seq(|members|, k requires 0 <= k < |members| =>
      Balance(members[k].id, members[k].name, Lookup(totals, members[k].id)))
  }

  /** A member who paid nothing and has no unpaid share ends at zero. */
  lemma {:induction false} InactiveMemberIsZero(expenses: seq<Expense>, id: Id)
    requires forall e <- expenses :: e.paidBy != id
    requires forall e <- expenses :: forall s <- e.splitBetween :: s.memberId != id
    ensures Net(expenses, id) == 0
    decreases |expenses|
  {
    if expenses != [] {
      NoShareOfAbsentMember(expenses[0].splitBetween, id);
      InactiveMemberIsZero(expenses[1..], id);
    }
  }

  lemma {:induction false} NoShareOfAbsentMember(splits: seq<Split>, id: Id)
    requires forall s <- splits :: s.memberId != id
    ensures OwedUnder(splits, id) == 0
    decreases |splits|
  {
    if splits != [] {
      NoShareOfAbsentMember(splits[1..], id);
    }
  }

  /** Appending one expense moves each member's balance by exactly that
      expense's effect: the payer gains the full amount, and every member
      loses their unpaid shares. */
  lemma {:induction false} AppendedExpenseEffect(expenses: seq<Expense>, e: Expense, members: seq<Member>, k: int)
    requires 0 <= k < |members|
    ensures CalculateBalances(expenses + [e], members)[k].amount
         == CalculateBalances(expenses, members)[k].amount
            + (if e.paidBy == members[k].id then e.amount else 0)
            - OwedUnder(e.splitBetween, members[k].id)
  {
    NetAppend(expenses, e, members[k].id);
  }

  lemma {:induction false} NetAppend(expenses: seq<Expense>, e: Expense, id: Id)
    ensures Net(expenses + [e], id)
         == Net(expenses, id) + (if e.paidBy == id then e.amount else 0) - OwedUnder(e.splitBetween, id)
    decreases |expenses|
  {
    if expenses == [] {
      assert [e][1..] == [];
    } else {
      assert (expenses + [e])[1..] == expenses[1..] + [e];
      NetAppend(expenses[1..], e, id);
    }
  }

  // ---------------------------------------------------------------------------
  // Zero sum

  function SumBalances(bs: seq<Balance>): Cents
  {
    if bs == [] then 0 else bs[0].amount + SumBalances(bs[1..])
  }

  /** The total of all shares of an expense, paid or not. */
  function SplitTotal(splits: seq<Split>): Cents
  {
    if splits == [] then 0 else splits[0].amount + SplitTotal(splits[1..])
  }

  /** The hypothesis of the zero-sum property: every payer and every split
      member belongs to the group, no share is marked paid, and each
      expense's shares add up to its amount. Every expense the application
      creates has unpaid shares. */
  ghost predicate Consistent(expenses: seq<Expense>, members: seq<Member>)
  {
    forall e <- expenses ::
      && e.paidBy in MemberIds(members)
      && SplitTotal(e.splitBetween) == e.amount
      && forall s <- e.splitBetween :: s.memberId in MemberIds(members) && !s.isPaid
  }

  /** Sum over the members of what one payer receives. */
  function CreditTotal(members: seq<Member>, payer: Id, amount: Cents): Cents
  {
    if members == [] then 0
    else (if members[0].id == payer then amount else 0) + CreditTotal(members[1..], payer, amount)
  }

  /** Sum over the members of their unpaid shares of one expense. */
  function DebitTotal(members: seq<Member>, splits: seq<Split>): Cents
  {
    if members == [] then 0 else OwedUnder(splits, members[0].id) + DebitTotal(members[1..], splits)
  }

  /** Sum over the members of their net positions. */
  function NetTotal(members: seq<Member>, expenses: seq<Expense>): Cents
  {
    if members == [] then 0 else Net(expenses, members[0].id) + NetTotal(members[1..], expenses)
  }

  lemma {:induction false} CreditTotalAbsent(members: seq<Member>, payer: Id, amount: Cents)
    requires payer !in MemberIds(members)
    ensures CreditTotal(members, payer, amount) == 0
    decreases |members|
  {
    if members != [] {
      assert members[0] in members;
      assert MemberIds(members[1..]) <= MemberIds(members);
      CreditTotalAbsent(members[1..], payer, amount);
    }
  }

  /** With distinct ids, a payer in the group is credited exactly once. */
  lemma {:induction false} CreditTotalOnce(members: seq<Member>, payer: Id, amount: Cents)
    requires DistinctIds(members)
    requires payer in MemberIds(members)
    ensures CreditTotal(members, payer, amount) == amount
    decreases |members|
  {
    var rest := members[1..];
    assert DistinctIds(rest) by {
      forall a, b | 0 <= a < b < |rest|
        ensures rest[a].id != rest[b].id
      {
        assert rest[a] == members[a + 1] && rest[b] == members[b + 1];
      }
    }
    if members[0].id == payer {
      assert payer !in MemberIds(rest) by {
        forall w | 0 <= w < |rest|
          ensures rest[w].id != payer
        {
          assert rest[w] == members[w + 1];
        }
      }
      CreditTotalAbsent(rest, payer, amount);
    } else {
      assert payer in MemberIds(rest) by {
        var m :| m in members && m.id == payer;
        var w :| 0 <= w < |members| && members[w] == m;
        assert w != 0;
        assert rest[w - 1] == m;
      }
      CreditTotalOnce(rest, payer, amount);
    }
  }

  lemma {:induction false} DebitTotalHead(members: seq<Member>, splits: seq<Split>)
    requires splits != []
    ensures DebitTotal(members, splits)
         == (if splits[0].isPaid then 0 else CreditTotal(members, splits[0].memberId, splits[0].amount))
            + DebitTotal(members, splits[1..])
    decreases |members|
  {
    if members != [] {
      DebitTotalHead(members[1..], splits);
      if splits[0].isPaid {
        CreditTotalZero(members, splits[0].memberId);
      }
    }
  }

  lemma {:induction false} CreditTotalZero(members: seq<Member>, payer: Id)
    ensures CreditTotal(members, payer, 0) == 0
    decreases |members|
  {
    if members != [] {
      CreditTotalZero(members[1..], payer);
    }
  }

  /** With distinct ids and every split member in the group, the members'
      unpaid shares add up to the split total when no share is paid. */
  lemma {:induction false} DebitTotalIsSplitTotal(members: seq<Member>, splits: seq<Split>)
    requires DistinctIds(members)
    requires forall s <- splits :: s.memberId in MemberIds(members) && !s.isPaid
    ensures DebitTotal(members, splits) == SplitTotal(splits)
    decreases |splits|
  {
    if splits == [] {
      DebitTotalEmpty(members);
    } else {
      assert splits[0] in splits;
      DebitTotalHead(members, splits);
      CreditTotalOnce(members, splits[0].memberId, splits[0].amount);
      DebitTotalIsSplitTotal(members, splits[1..]);
    }
  }

  lemma {:induction false} DebitTotalEmpty(members: seq<Member>)
    ensures DebitTotal(members, []) == 0
    decreases |members|
  {
    if members != [] {
      DebitTotalEmpty(members[1..]);
    }
  }

  lemma {:induction false} NetTotalHead(members: seq<Member>, expenses: seq<Expense>)
    requires expenses != []
    ensures NetTotal(members, expenses)
         == CreditTotal(members, expenses[0].paidBy, expenses[0].amount)
            - DebitTotal(members, expenses[0].splitBetween)
            + NetTotal(members, expenses[1..])
    decreases |members|
  {
    if members != [] {
      NetTotalHead(members[1..], expenses);
    }
  }

  lemma {:induction false} NetTotalEmpty(members: seq<Member>)
    ensures NetTotal(members, []) == 0
    decreases |members|
  {
    if members != [] {
      NetTotalEmpty(members[1..]);
    }
  }

  lemma {:induction false} NetTotalZero(members: seq<Member>, expenses: seq<Expense>)
    requires DistinctIds(members)
    requires Consistent(expenses, members)
    ensures NetTotal(members, expenses) == 0
    decreases |expenses|
  {
    if expenses == [] {
      NetTotalEmpty(members);
    } else {
      var e := expenses[0];
      assert e in expenses;
      NetTotalHead(members, expenses);
      CreditTotalOnce(members, e.paidBy, e.amount);
      DebitTotalIsSplitTotal(members, e.splitBetween);
      NetTotalZero(members, expenses[1..]);
    }
  }

  lemma {:induction false} SumOfPointwiseNet(bs: seq<Balance>, members: seq<Member>, expenses: seq<Expense>)
    requires |bs| == |members|
    requires forall k :: 0 <= k < |bs| ==> bs[k].amount == Net(expenses, members[k].id)
    ensures SumBalances(bs) == NetTotal(members, expenses)
    decreases |bs|
  {
    if bs != [] {
      SumOfPointwiseNet(bs[1..], members[1..], expenses);
    }
  }

  /** The balances of a consistent group with distinct member ids sum to
      zero, exactly, in cents. */
  lemma BalancesSumToZero(expenses: seq<Expense>, members: seq<Member>)
    requires DistinctIds(members)
    requires Consistent(expenses, members)
    ensures SumBalances(CalculateBalances(expenses, members)) == 0
  {
    SumOfPointwiseNet(CalculateBalances(expenses, members), members, expenses);
    NetTotalZero(members, expenses);
  }

  // ---------------------------------------------------------------------------
  // Splitting

  /** One member's part of an amount. */
  datatype Portion = Portion(memberId: Id, amount: Cents)

  function PortionTotal(ps: seq<Portion>): Cents
  {
    if ps == [] then 0 else ps[0].amount + PortionTotal(ps[1..])
  }

  lemma {:induction false} UniformTotal(ps: seq<Portion>, c: Cents)
    requires forall k :: 0 <= k < |ps| ==> ps[k].amount == c
    ensures PortionTotal(ps) == |ps| * c
    decreases |ps|
  {
    if ps != [] {
      UniformTotal(ps[1..], c);
    }
  }

  /** Equal split: every member after the first gets the amount divided by
      the member count rounded down to the cent, and the first also absorbs
      the remainder, so the parts add up to the amount exactly. An empty
      member list gives an empty result. */
  function SplitEqually(amount: Cents, memberIds: seq<Id>): (r: seq<Portion>)
    ensures |r| == |memberIds|
    ensures forall k :: 0 <= k < |r| ==> r[k].memberId == memberIds[k]
    ensures r != [] ==> PortionTotal(r) == amount
    ensures forall k :: 1 <= k < |r| ==> r[k].amount * |r| <= amount < r[k].amount * |r| + |r|
    ensures forall k :: 1 <= k < |r| ==> 0 <= r[0].amount - r[k].amount < |r|
  {
    if memberIds == [] then []
    else
      var n := |memberIds|;
      var rounded := amount / n;
      var remainder := amount - rounded * n;
      FloorDivision(amount, n);
      var r := seq(n, k requires 0 <= k < n =>
        Portion(memberIds[k], if k == 0 then rounded + remainder else rounded));
      UniformTotal(r[1..], rounded);
      assert r == [r[0]] + r[1..];
      r
  }

  /** The facts about `amount / n` the equal split relies on. */
  lemma FloorDivision(amount: int, n: int)
    requires n > 0
    ensures (amount / n) * n <= amount < (amount / n) * n + n
    ensures (n - 1) * (amount / n) + (amount / n) == (amount / n) * n
  {
  }

  /** A member's requested percentage, in hundredths of a percent. */
  datatype PercentRequest = PercentRequest(memberId: Id, percentage: int)

  datatype PercentPortion = PercentPortion(memberId: Id, amount: Cents, percentage: int)

  function PercentTotal(rs: seq<PercentRequest>): int
  {
    if rs == [] then 0 else rs[0].percentage + PercentTotal(rs[1..])
  }

  const PercentageError := "Percentages must sum to 100"

  /** Percentage split: fails unless the percentages sum to 100 within 0.01;
      otherwise each member gets their percentage of the amount rounded to
      the nearest cent, keeping id and percentage, in input order. */
  function SplitByPercentage(amount: Cents, splits: seq<PercentRequest>): (r: Result<seq<PercentPortion>>)
    ensures r.Failure? <==> Abs(PercentTotal(splits) - 10000) > 1
    ensures r.Failure? ==> r.error == PercentageError
    ensures r.Success? ==> |r.value| == |splits|
    ensures r.Success? ==> forall k :: 0 <= k < |splits| ==>
              && r.value[k].memberId == splits[k].memberId
              && r.value[k].percentage == splits[k].percentage
              && 2 * r.value[k].amount * 10000 - 10000
                 <= 2 * (amount * splits[k].percentage)
                 < 2 * r.value[k].amount * 10000 + 10000
  {
    var total := PercentTotal(splits);
    if Abs(total - 10000) > 1 then Failure(PercentageError)
    else
      Success(seq(|splits|, k requires 0 <= k < |splits| =>
        PercentPortion(splits[k].memberId,
                       RoundHalfUp(amount * splits[k].percentage, 10000),
                       splits[k].percentage)))
  }

  /** The rounded percentage parts need not add up to the amount: one cent
      split 50/50 gives two parts of one cent. */
  lemma PercentagePartsCanExceedAmount()
    ensures var r := SplitByPercentage(1, [PercentRequest("a", 5000), PercentRequest("b", 5000)]);
            && r.Success?
            && r.value == [PercentPortion("a", 1, 5000), PercentPortion("b", 1, 5000)]
  {
    var r := SplitByPercentage(1, [PercentRequest("a", 5000), PercentRequest("b", 5000)]);
    assert PercentTotal([PercentRequest("a", 5000), PercentRequest("b", 5000)]) == 10000;
    assert RoundHalfUp(5000, 10000) == 1;
    assert r.value[0] == PercentPortion("a", 1, 5000);
    assert r.value[1] == PercentPortion("b", 1, 5000);
  }

  const AmountError := "Split amounts must equal total amount"

  /** Exact split: fails unless the parts sum to the total within one cent;
      otherwise returns the parts unchanged. */
  function SplitByAmount(totalAmount: Cents, splits: seq<Portion>): (r: Result<seq<Portion>>)
    ensures r.Failure? <==> Abs(PortionTotal(splits) - totalAmount) > 1
    ensures r.Failure? ==> r.error == AmountError
    ensures r.Success? ==> r.value == splits
  {
    if Abs(PortionTotal(splits) - totalAmount) > 1 then Failure(AmountError) else Success(splits)
  }

  // ---------------------------------------------------------------------------
  // Category labels

  function CategoryLabel(c: ExpenseCategory): string
  {
    match c
    case Food => "Food & Dining"
    case Transport => "Transport"
    case Accommodation => "Accommodation"
    case Entertainment => "Entertainment"
    case Shopping => "Shopping"
    case Utilities => "Utilities"
    case Groceries => "Groceries"
    case Health => "Health"
    case Other => "Other"
  }

  /** Different categories have different labels, so a label names its
      category. */
  lemma CategoryLabelInjective(a: ExpenseCategory, b: ExpenseCategory)
    ensures CategoryLabel(a) == CategoryLabel(b) ==> a == b
  {
  }
}
