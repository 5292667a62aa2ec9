/** The analytics summary of `src/lib/calculations.ts`: totals per category
    and per payer, ranked, over a group's expense list. */
module Analytics {
  import opened Types
  import Sorting
  import Calculations
  import Seqs

  // ---------------------------------------------------------------------------
  // Totals per key, kept like a JavaScript `Map`: an entry per key in order of
  // first appearance, a later amount added to the existing entry.

  datatype Entry<K> = Entry(key: K, amount: Cents)

  function AddTo<K(==)>(acc: seq<Entry<K>>, k: K, amount: Cents): seq<Entry<K>>
  {
    if acc == [] then [Entry(k, amount)]
    else if acc[0].key == k then [Entry(k, acc[0].amount + amount)] + acc[1..]
    else [acc[0]] + AddTo(acc[1..], k, amount)
  }

  function Accumulate<K(==)>(acc: seq<Entry<K>>, entries: seq<Entry<K>>): seq<Entry<K>>
    decreases |entries|
  {
    if entries == [] then acc else Accumulate(AddTo(acc, entries[0].key, entries[0].amount), entries[1..])
  }

  /** The total of the entries with key `k`. */
  function Weight<K(==)>(entries: seq<Entry<K>>, k: K): Cents
  {
    if entries == [] then 0
    else (if entries[0].key == k then entries[0].amount else 0) + Weight(entries[1..], k)
  }

  function Keys<K>(entries: seq<Entry<K>>): set<K>
  {
    set e <- entries :: e.key
  }

  function Key<K>(e: Entry<K>): K
  {
    e.key
  }

  /** Adding to an entry raises the weight of its key and of no other. */
  lemma {:induction false} AddToWeight<K>(acc: seq<Entry<K>>, k: K, amount: Cents, x: K)
    ensures Weight(AddTo(acc, k, amount), x) == Weight(acc, x) + (if x == k then amount else 0)
    decreases |acc|
  {
    if acc != [] && acc[0].key != k {
      AddToWeight(acc[1..], k, amount, x);
      assert AddTo(acc, k, amount)[1..] == AddTo(acc[1..], k, amount);
    } else if acc != [] {
      assert AddTo(acc, k, amount)[1..] == acc[1..];
    }
  }

  /** Adding to a key makes it present and no other. */
  lemma {:induction false} AddToKeys<K>(acc: seq<Entry<K>>, k: K, amount: Cents)
    ensures Keys(AddTo(acc, k, amount)) == Keys(acc) + {k}
    decreases |acc|
  {
    var r := AddTo(acc, k, amount);
    if acc == [] {
      assert r == [Entry(k, amount)];
      assert Keys(r) == {k};
    } else {
      KeysCons(acc);
      KeysCons(r);
      if acc[0].key == k {
        assert r[1..] == acc[1..];
      } else {
        AddToKeys(acc[1..], k, amount);
        assert r[1..] == AddTo(acc[1..], k, amount);
      }
    }
  }

  lemma KeysCons<K>(xs: seq<Entry<K>>)
    requires xs != []
    ensures Keys(xs) == {xs[0].key} + Keys(xs[1..])
  {
    assert xs == [xs[0]] + xs[1..];
  }

  /** Adding to an entry keeps the keys distinct. */
  lemma {:induction false} AddToDistinct<K>(acc: seq<Entry<K>>, k: K, amount: Cents)
    requires Sorting.DistinctBy(acc, Key)
    ensures Sorting.DistinctBy(AddTo(acc, k, amount), Key)
    decreases |acc|
  {
    if acc != [] {
      var rest := acc[1..];
      assert Sorting.DistinctBy(rest, Key) by {
        forall a, b | 0 <= a < b < |rest| ensures Key(rest[a]) != Key(rest[b]) {
          assert rest[a] == acc[a + 1] && rest[b] == acc[b + 1];
        }
      }
      assert forall e <- rest :: e.key != acc[0].key by {
        forall w | 0 <= w < |rest| ensures rest[w].key != acc[0].key {
          assert Key(acc[0]) != Key(acc[w + 1]);
        }
      }
      KeysCons(acc);
      var r := AddTo(acc, k, amount);
      if acc[0].key == k {
        assert r[1..] == rest;
        assert forall w | 0 <= w < |rest| :: Key(rest[w]) != k;
      } else {
        AddToDistinct(rest, k, amount);
        AddToKeys(rest, k, amount);
        var tail := AddTo(rest, k, amount);
        assert r == [acc[0]] + tail;
        forall w | 0 <= w < |tail| ensures Key(tail[w]) != Key(acc[0]) {
          assert tail[w].key in Keys(tail);
        }
      }
    }
  }

  /** Folding entries into the totals adds their weights, adds their keys
      and keeps the keys distinct. */
  lemma AccumulateFacts<K>(acc: seq<Entry<K>>, entries: seq<Entry<K>>, x: K)
    requires Sorting.DistinctBy(acc, Key)
    ensures Weight(Accumulate(acc, entries), x) == Weight(acc, x) + Weight(entries, x)
    ensures Keys(Accumulate(acc, entries)) == Keys(acc) + Keys(entries)
    ensures Sorting.DistinctBy(Accumulate(acc, entries), Key)
  {
    AccumulateWeight(acc, entries, x);
    AccumulateKeys(acc, entries);
    AccumulateDistinct(acc, entries);
  }

  lemma {:induction false} AccumulateWeight<K>(acc: seq<Entry<K>>, entries: seq<Entry<K>>, x: K)
    ensures Weight(Accumulate(acc, entries), x) == Weight(acc, x) + Weight(entries, x)
    decreases |entries|
  {
    if entries != [] {
      var e := entries[0];
      AddToWeight(acc, e.key, e.amount, x);
      AccumulateWeight(AddTo(acc, e.key, e.amount), entries[1..], x);
    }
  }

  lemma {:induction false} AccumulateKeys<K>(acc: seq<Entry<K>>, entries: seq<Entry<K>>)
    ensures Keys(Accumulate(acc, entries)) == Keys(acc) + Keys(entries)
    decreases |entries|
  {
    if entries != [] {
      var e := entries[0];
      AddToKeys(acc, e.key, e.amount);
      AccumulateKeys(AddTo(acc, e.key, e.amount), entries[1..]);
      KeysCons(entries);
    }
  }

  lemma {:induction false} AccumulateDistinct<K>(acc: seq<Entry<K>>, entries: seq<Entry<K>>)
    requires Sorting.DistinctBy(acc, Key)
    ensures Sorting.DistinctBy(Accumulate(acc, entries), Key)
    decreases |entries|
  {
    if entries != [] {
      var e := entries[0];
      AddToDistinct(acc, e.key, e.amount);
      AccumulateDistinct(AddTo(acc, e.key, e.amount), entries[1..]);
    }
  }

  /** In a list with distinct keys, an entry's amount is the weight of its key. */
  lemma {:induction false} EntryIsWeight<K>(entries: seq<Entry<K>>, w: int)
    requires Sorting.DistinctBy(entries, Key)
    requires 0 <= w < |entries|
    ensures entries[w].amount == Weight(entries, entries[w].key)
    decreases |entries|
  {
    var rest := entries[1..];
    assert Sorting.DistinctBy(rest, Key) by {
      forall a, b | 0 <= a < b < |rest| ensures Key(rest[a]) != Key(rest[b]) {
        assert rest[a] == entries[a + 1] && rest[b] == entries[b + 1];
      }
    }
    if w == 0 {
      KeyAbsent(rest, entries[0].key);
    } else {
      assert Key(entries[0]) != Key(entries[w]);
      EntryIsWeight(rest, w - 1);
    }
  }

  lemma {:induction false} KeyAbsent<K>(entries: seq<Entry<K>>, k: K)
    requires forall e <- entries :: e.key != k
    ensures Weight(entries, k) == 0
    decreases |entries|
  {
    if entries != [] {
      assert entries[0] in entries;
      KeyAbsent(entries[1..], k);
    }
  }

  /** Totals per key, in order of first appearance: one entry per distinct
      key, carrying the total of that key's amounts. */
  function GroupTotals<K(==)>(entries: seq<Entry<K>>): (r: seq<Entry<K>>)
    ensures Sorting.DistinctBy(r, Key)
    ensures Keys(r) == Keys(entries)
    ensures forall e <- r :: e.amount == Weight(entries, e.key)
  {
    AccumulateFromEmpty(entries);
    Accumulate([], entries)
  }

  lemma AccumulateFromEmpty<K>(entries: seq<Entry<K>>)
    ensures Sorting.DistinctBy(Accumulate([], entries), Key)
    ensures Keys(Accumulate([], entries)) == Keys(entries)
    ensures forall e <- Accumulate([], entries) :: e.amount == Weight(entries, e.key)
  {
    var r := Accumulate([], entries);
    forall x ensures Weight(r, x) == Weight(entries, x) {
      AccumulateFacts([], entries, x);
    }
    if entries != [] {
      AccumulateFacts([], entries, entries[0].key);
    } else {
      assert Keys(r) == {};
    }
    forall w | 0 <= w < |r| ensures r[w].amount == Weight(entries, r[w].key) {
      EntryIsWeight(r, w);
      AccumulateFacts([], entries, r[w].key);
    }
  }

  // ---------------------------------------------------------------------------
  // The summary

  /** A category's total and its share of all spending, in tenths of a
      percent. */
  datatype CategoryStat = CategoryStat(category: ExpenseCategory, amount: Cents, percentage: int)

  datatype Spender = Spender(memberId: Id, name: string, amount: Cents)

  /** The source's `Analytics` record without the monthly trend. */
  datatype Summary = Summary(
    totalSpent: Cents,
    categoryBreakdown: seq<CategoryStat>,
    topSpenders: seq<Spender>,
    averageExpense: Cents,
    expenseCount: nat)

  function StatAmount(s: CategoryStat): int
  {
    s.amount
  }

  function StatCategory(s: CategoryStat): ExpenseCategory
  {
    s.category
  }

  function SpenderAmount(s: Spender): int
  {
    s.amount
  }

  function SpenderId(s: Spender): Id
  {
    s.memberId
  }

  /** The total of all expenses. */
  function Spent(expenses: seq<Expense>): Cents
  {
    if expenses == [] then 0 else expenses[0].amount + Spent(expenses[1..])
  }

  /** The total of the expenses in category `c`. */
  function CategorySpent(expenses: seq<Expense>, c: ExpenseCategory): Cents
  {
    if expenses == [] then 0
    else (if expenses[0].category == c then expenses[0].amount else 0) + CategorySpent(expenses[1..], c)
  }

  function ByCategory(expenses: seq<Expense>): seq<Entry<ExpenseCategory>>
  {
    if expenses == [] then [] else [Entry(expenses[0].category, expenses[0].amount)] + ByCategory(expenses[1..])
  }

  function ByPayer(expenses: seq<Expense>): seq<Entry<Id>>
  {
    if expenses == [] then [] else [Entry(expenses[0].paidBy, expenses[0].amount)] + ByPayer(expenses[1..])
  }

  lemma {:induction false} ByCategoryFacts(expenses: seq<Expense>, c: ExpenseCategory)
    ensures Weight(ByCategory(expenses), c) == CategorySpent(expenses, c)
    ensures Keys(ByCategory(expenses)) == set e <- expenses :: e.category
    decreases |expenses|
  {
    if expenses != [] {
      ByCategoryFacts(expenses[1..], c);
      assert ByCategory(expenses)[1..] == ByCategory(expenses[1..]);
      assert expenses == [expenses[0]] + expenses[1..];
      assert (set e <- expenses :: e.category) == {expenses[0].category} + (set e <- expenses[1..] :: e.category);
      assert Keys(ByCategory(expenses)) == {expenses[0].category} + Keys(ByCategory(expenses[1..]));
    }
  }

  lemma {:induction false} ByPayerFacts(expenses: seq<Expense>, id: Id)
    ensures Weight(ByPayer(expenses), id) == Calculations.Paid(expenses, id)
    ensures Keys(ByPayer(expenses)) == set e <- expenses :: e.paidBy
    decreases |expenses|
  {
    if expenses != [] {
      ByPayerFacts(expenses[1..], id);
      assert ByPayer(expenses)[1..] == ByPayer(expenses[1..]);
      assert expenses == [expenses[0]] + expenses[1..];
      assert (set e <- expenses :: e.paidBy) == {expenses[0].paidBy} + (set e <- expenses[1..] :: e.paidBy);
      assert Keys(ByPayer(expenses)) == {expenses[0].paidBy} + Keys(ByPayer(expenses[1..]));
    }
  }

  /** `Math.round(part / total * 1000)`: a share in tenths of a percent. A
      zero total, which yields NaN in the source, gives 0. */
  function Percentage(part: Cents, total: Cents): int
  {
    if total > 0 then Calculations.RoundHalfUp(part * 1000, total)
    else if total < 0 then Calculations.RoundHalfUp(-part * 1000, -total)
    else 0
  }

  /** One entry per category that occurs, with that category's total and
      share, in order of first appearance. */
  function CategoryStats(expenses: seq<Expense>): (r: seq<CategoryStat>)
    ensures Sorting.DistinctBy(r, StatCategory)
    ensures forall s <- r :: s.amount == CategorySpent(expenses, s.category)
                          && s.percentage == Percentage(s.amount, Spent(expenses))
    ensures forall e <- expenses :: exists s <- r :: s.category == e.category
    ensures forall s <- r :: exists e <- expenses :: e.category == s.category
  {
    var totals := GroupTotals(ByCategory(expenses));
    var total := Spent(expenses);
    var r := seq(|totals|, k requires 0 <= k < |totals| =>
      CategoryStat(totals[k].key, totals[k].amount, Percentage(totals[k].amount, total)));
    CategoryStatsFacts(expenses, totals, r);
    r
  }

  lemma CategoryStatsFacts(expenses: seq<Expense>, totals: seq<Entry<ExpenseCategory>>, r: seq<CategoryStat>)
    requires totals == GroupTotals(ByCategory(expenses))
    requires |r| == |totals|
    requires forall k :: 0 <= k < |r| ==>
               r[k] == CategoryStat(totals[k].key, totals[k].amount, Percentage(totals[k].amount, Spent(expenses)))
    ensures Sorting.DistinctBy(r, StatCategory)
    ensures forall s <- r :: s.amount == CategorySpent(expenses, s.category)
                          && s.percentage == Percentage(s.amount, Spent(expenses))
    ensures forall e <- expenses :: exists s <- r :: s.category == e.category
    ensures forall s <- r :: exists e <- expenses :: e.category == s.category
  {
    assert Sorting.DistinctBy(r, StatCategory) by {
      forall a, b | 0 <= a < b < |r| ensures StatCategory(r[a]) != StatCategory(r[b]) {
        assert Key(totals[a]) != Key(totals[b]);
      }
    }
    ByCategoryFacts(expenses, Food);
    forall w | 0 <= w < |r|
      ensures r[w].amount == CategorySpent(expenses, r[w].category)
      ensures exists e <- expenses :: e.category == r[w].category
    {
      assert totals[w] in totals;
      ByCategoryFacts(expenses, r[w].category);
      assert totals[w].key in Keys(totals);
    }
    forall e <- expenses ensures exists s <- r :: s.category == e.category {
      assert e.category in Keys(totals);
      var t :| t in totals && t.key == e.category;
      var k :| 0 <= k < |totals| && totals[k] == t;
      assert r[k] in r;
    }
  }

  /** The category entries ranked by descending total. */
  function CategoryBreakdown(expenses: seq<Expense>): (r: seq<CategoryStat>)
    ensures Sorting.SortedDesc(r, StatAmount)
    ensures Sorting.DistinctBy(r, StatCategory)
    ensures forall s <- r :: s.amount == CategorySpent(expenses, s.category)
                          && s.percentage == Percentage(s.amount, Spent(expenses))
    ensures forall e <- expenses :: exists s <- r :: s.category == e.category
    ensures forall s <- r :: exists e <- expenses :: e.category == s.category
  {
    var stats := CategoryStats(expenses);
    var r := Sorting.SortDesc(stats, StatAmount);
    Sorting.PermutationKeepsDistinct(stats, r, StatCategory);
    Seqs.SameElements(stats, r);
    r
  }

  /** The payer's name: the first member with that id, or "Unknown" when
      there is none or the name is empty. */
  function NameOf(members: seq<Member>, id: Id): string
  {
    if members == [] then "Unknown"
    else if members[0].id == id then (if members[0].name != "" then members[0].name else "Unknown")
    else NameOf(members[1..], id)
  }

  function MinNat(a: nat, b: nat): nat
  {
    if a <= b then a else b
  }

  /** One entry per payer, with the payer's name and what they paid, in
      order of first appearance. */
  function PayerTotals(expenses: seq<Expense>, members: seq<Member>): (r: seq<Spender>)
    ensures Sorting.DistinctBy(r, SpenderId)
    ensures forall s <- r :: s.amount == Calculations.Paid(expenses, s.memberId)
                          && s.name == NameOf(members, s.memberId)
                          && exists e <- expenses :: e.paidBy == s.memberId
    ensures forall e <- expenses :: exists s <- r :: s.memberId == e.paidBy
  {
    var totals := GroupTotals(ByPayer(expenses));
    var r := seq(|totals|, k requires 0 <= k < |totals| =>
      Spender(totals[k].key, NameOf(members, totals[k].key), totals[k].amount));
    PayerTotalsFacts(expenses, members, totals, r);
    r
  }

  lemma PayerTotalsFacts(expenses: seq<Expense>, members: seq<Member>, totals: seq<Entry<Id>>, r: seq<Spender>)
    requires totals == GroupTotals(ByPayer(expenses))
    requires |r| == |totals|
    requires forall k :: 0 <= k < |r| ==>
               r[k] == Spender(totals[k].key, NameOf(members, totals[k].key), totals[k].amount)
    ensures Sorting.DistinctBy(r, SpenderId)
    ensures forall s <- r :: s.amount == Calculations.Paid(expenses, s.memberId)
                          && s.name == NameOf(members, s.memberId)
                          && exists e <- expenses :: e.paidBy == s.memberId
    ensures forall e <- expenses :: exists s <- r :: s.memberId == e.paidBy
  {
    assert Sorting.DistinctBy(r, SpenderId) by {
      forall a, b | 0 <= a < b < |r| ensures SpenderId(r[a]) != SpenderId(r[b]) {
        assert Key(totals[a]) != Key(totals[b]);
      }
    }
    ByPayerFacts(expenses, "");
    forall w | 0 <= w < |r|
      ensures r[w].amount == Calculations.Paid(expenses, r[w].memberId)
      ensures exists e <- expenses :: e.paidBy == r[w].memberId
    {
      assert totals[w] in totals;
      ByPayerFacts(expenses, r[w].memberId);
      assert totals[w].key in Keys(totals);
    }
    forall e <- expenses ensures exists s <- r :: s.memberId == e.paidBy {
      assert e.paidBy in Keys(totals);
      var t :| t in totals && t.key == e.paidBy;
      var k :| 0 <= k < |totals| && totals[k] == t;
      assert r[k] in r;
    }
  }

  /** The five largest payers, ranked by descending amount paid: at most
      five entries, each with the payer's name and what they paid; every
      payer left out paid no more than the last one listed, and every payer
      is listed when there are at most five. */
  function TopSpenders(expenses: seq<Expense>, members: seq<Member>): (r: seq<Spender>)
    ensures |r| <= 5
    ensures Sorting.SortedDesc(r, SpenderAmount)
    ensures Sorting.DistinctBy(r, SpenderId)
    ensures forall s <- r :: s.amount == Calculations.Paid(expenses, s.memberId)
                          && s.name == NameOf(members, s.memberId)
                          && exists e <- expenses :: e.paidBy == s.memberId
    ensures forall e <- expenses ::
              (exists s <- r :: s.memberId == e.paidBy)
              || (|r| == 5 && Calculations.Paid(expenses, e.paidBy) <= r[4].amount)
  {
    var totals := PayerTotals(expenses, members);
    var sorted := Sorting.SortDesc(totals, SpenderAmount);
    Sorting.PermutationKeepsDistinct(totals, sorted, SpenderId);
    Seqs.SameElements(totals, sorted);
    var r := sorted[..MinNat(5, |sorted|)];
    TopFacts(expenses, sorted, r);
    r
  }

  lemma TopFacts(expenses: seq<Expense>, sorted: seq<Spender>, r: seq<Spender>)
    requires Sorting.SortedDesc(sorted, SpenderAmount)
    requires Sorting.DistinctBy(sorted, SpenderId)
    requires forall s <- sorted :: s.amount == Calculations.Paid(expenses, s.memberId)
    requires forall e <- expenses :: exists s <- sorted :: s.memberId == e.paidBy
    requires r == sorted[..MinNat(5, |sorted|)]
    ensures Sorting.SortedDesc(r, SpenderAmount)
    ensures Sorting.DistinctBy(r, SpenderId)
    ensures forall s <- r :: s in sorted
    ensures forall e <- expenses ::
              (exists s <- r :: s.memberId == e.paidBy)
              || (|r| == 5 && Calculations.Paid(expenses, e.paidBy) <= r[4].amount)
  {
    forall e <- expenses
      ensures (exists s <- r :: s.memberId == e.paidBy)
              || (|r| == 5 && Calculations.Paid(expenses, e.paidBy) <= r[4].amount)
    {
      var t :| t in sorted && t.memberId == e.paidBy;
      var w :| 0 <= w < |sorted| && sorted[w] == t;
      if w < |r| {
        assert r[w] == sorted[w];
      } else {
        assert SpenderAmount(sorted[4]) >= SpenderAmount(sorted[w]);
      }
    }
  }

  /** The analytics summary. An empty list gives zeros and empty lists;
      otherwise the count is the number of expenses, the total their sum,
      and the average that total divided by the count, rounded to the
      nearest cent. */
  function GenerateAnalytics(expenses: seq<Expense>, members: seq<Member>): (r: Summary)
    ensures expenses == [] ==> r == Summary(0, [], [], 0, 0)
    ensures r.expenseCount == |expenses|
    ensures r.totalSpent == Spent(expenses)
    ensures expenses != [] ==>
              2 * r.averageExpense * |expenses| - |expenses| <= 2 * r.totalSpent < 2 * r.averageExpense * |expenses| + |expenses|
    ensures expenses != [] ==> r.categoryBreakdown == CategoryBreakdown(expenses)
    ensures expenses != [] ==> r.topSpenders == TopSpenders(expenses, members)
  {
    if expenses == [] then Summary(0, [], [], 0, 0)
    else
      var total := Spent(expenses);
      Summary(total, CategoryBreakdown(expenses), TopSpenders(expenses, members),
              Calculations.RoundHalfUp(total, |expenses|), |expenses|)
  }
}
