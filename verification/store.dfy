/** The application store: one immutable state value and the transitions
    the app applies to it. Fresh identifiers and the current time, which the
    store draws from a UUID generator and the clock, are parameters here. */
module Store {
  import opened Wrappers
  import opened Types
  import I18n
  import Calculations

  datatype AppState = AppState(
    locale: I18n.Locale,
    currency: string,
    user: Option<User>,
    groups: seq<Group>,
    expenses: seq<Expense>,
    settlements: seq<Settlement>,
    activeGroupId: Option<Id>)

  /** The state before anything has happened. */
  const Initial: AppState := AppState(I18n.DefaultLocale, "USD", None, [], [], [], None)

  // ---------------------------------------------------------------------------
  // List helpers

  /** The elements whose `key` is not `id`, in their original order. */
  function Without<T(!new)>(xs: seq<T>, key: T -> Id, id: Id): (r: seq<T>)
    ensures |r| <= |xs|
    ensures forall x :: x in r <==> x in xs && key(x) != id
    ensures (forall k :: 0 <= k < |xs| ==> key(xs[k]) != id) ==> r == xs
    decreases |xs|
  {
    if xs == [] then []
    else
      var rest := Without(xs[1..], key, id);
      assert xs == [xs[0]] + xs[1..];
      assert forall k :: 1 <= k < |xs| ==> xs[k] == xs[1..][k - 1];
      if key(xs[0]) != id then [xs[0]] + rest else rest
  }

  /** The elements whose `key` is `id`, in their original order. */
  function Only<T(!new)>(xs: seq<T>, key: T -> Id, id: Id): (r: seq<T>)
    ensures |r| <= |xs|
    ensures forall x :: x in r <==> x in xs && key(x) == id
    ensures (forall k :: 0 <= k < |xs| ==> key(xs[k]) != id) ==> r == []
    decreases |xs|
  {
    if xs == [] then []
    else
      var rest := Only(xs[1..], key, id);
      assert xs == [xs[0]] + xs[1..];
      assert forall k :: 1 <= k < |xs| ==> xs[k] == xs[1..][k - 1];
      if key(xs[0]) == id then [xs[0]] + rest else rest
  }

  /** Selecting one key after removing another is selecting it directly. */
  lemma {:induction false} OnlyWithout<T(!new)>(xs: seq<T>, key: T -> Id, gone: Id, kept: Id)
    requires gone != kept
    ensures Only(Without(xs, key, gone), key, kept) == Only(xs, key, kept)
    decreases |xs|
  {
    if xs != [] {
      OnlyWithout(xs[1..], key, gone, kept);
    }
  }

  lemma {:induction false} WithoutAppend<T(!new)>(xs: seq<T>, ys: seq<T>, key: T -> Id, id: Id)
    ensures Without(xs + ys, key, id) == Without(xs, key, id) + Without(ys, key, id)
    decreases |xs|
  {
    if xs == [] {
      assert xs + ys == ys;
    } else {
      assert (xs + ys)[1..] == xs[1..] + ys;
      WithoutAppend(xs[1..], ys, key, id);
    }
  }

  lemma {:induction false} OnlyAppend<T(!new)>(xs: seq<T>, ys: seq<T>, key: T -> Id, id: Id)
    ensures Only(xs + ys, key, id) == Only(xs, key, id) + Only(ys, key, id)
    decreases |xs|
  {
    if xs == [] {
      assert xs + ys == ys;
    } else {
      assert (xs + ys)[1..] == xs[1..] + ys;
      OnlyAppend(xs[1..], ys, key, id);
    }
  }

  /** `xs.map(x => key(x) === id ? f(x) : x)`. */
  function MapWhere<T>(xs: seq<T>, key: T -> Id, id: Id, f: T -> T): (r: seq<T>)
    ensures |r| == |xs|
    ensures forall k :: 0 <= k < |xs| ==> r[k] == (if key(xs[k]) == id then f(xs[k]) else xs[k])
  {
    seq(|xs|, k requires 0 <= k < |xs| => if key(xs[k]) == id then f(xs[k]) else xs[k])
  }

  /** A map that touches no element returns the list unchanged. */
  lemma MapWhereMissing<T>(xs: seq<T>, key: T -> Id, id: Id, f: T -> T)
    requires forall k :: 0 <= k < |xs| ==> key(xs[k]) != id
    ensures MapWhere(xs, key, id, f) == xs
  {
  }

  function GroupId(g: Group): Id { g.id }
  function ExpenseId(e: Expense): Id { e.id }
  function ExpenseGroup(e: Expense): Id { e.groupId }
  function SettlementId(s: Settlement): Id { s.id }
  function SettlementGroup(s: Settlement): Id { s.groupId }
  function MemberId(m: Member): Id { m.id }

  /** The value of an optional update field, or the current value when the
      update leaves the field out. */
  function Or<T>(update: Option<T>, current: T): (r: T)
    ensures update.Some? ==> r == update.value
    ensures update.None? ==> r == current
  {
    if update.Some? then update.value else current
  }

  // ---------------------------------------------------------------------------
  // Locale, currency and user

  /** Choosing a locale also switches to that locale's default currency. */
  function SetLocale(st: AppState, locale: I18n.Locale): (r: AppState)
    ensures r.locale == locale
    ensures r.currency == I18n.GetDefaultCurrency(locale)
    ensures r.(locale := st.locale, currency := st.currency) == st
  {
    st.(locale := locale, currency := I18n.GetDefaultCurrency(locale))
  }

  /** Switching to French selects euros. */
  lemma FrenchSelectsEuro(st: AppState)
    ensures SetLocale(st, "fr").currency == "EUR"
  {
    I18n.DefaultCurrencyFr();
  }

  function SetCurrency(st: AppState, currency: string): (r: AppState)
    ensures r.currency == currency
    ensures r.(currency := st.currency) == st
  {
    st.(currency := currency)
  }

  function SetUser(st: AppState, user: Option<User>): (r: AppState)
    ensures r.user == user
    ensures r.(user := st.user) == st
  {
    st.(user := user)
  }

  /** Applies `f` to the signed-in user; with nobody signed in there is
      still nobody. */
  function UpdateUser(st: AppState, f: User -> User): (r: AppState)
    ensures st.user.None? ==> r == st
    ensures st.user.Some? ==> r.user == Some(f(st.user.value))
    ensures r.(user := st.user) == st
  {
    match st.user
    case None => st
    case Some(u) => st.(user := Some(f(u)))
  }

  function UpgradeToPremium(st: AppState): (r: AppState)
    ensures r.user.Some? <==> st.user.Some?
    ensures r.user.Some? ==> r.user.value == st.user.value.(isPremium := true)
    ensures r.(user := st.user) == st
  {
    UpdateUser(st, (u: User) => u.(isPremium := true))
  }

  function FreezeAccount(st: AppState): (r: AppState)
    ensures r.user.Some? <==> st.user.Some?
    ensures r.user.Some? ==> r.user.value == st.user.value.(status := Some(Frozen))
    ensures r.(user := st.user) == st
  {
    UpdateUser(st, (u: User) => u.(status := Some(Frozen)))
  }

  function UnfreezeAccount(st: AppState): (r: AppState)
    ensures r.user.Some? <==> st.user.Some?
    ensures r.user.Some? ==> r.user.value == st.user.value.(status := Some(Active))
    ensures r.(user := st.user) == st
  {
    UpdateUser(st, (u: User) => u.(status := Some(Active)))
  }

  /** Freezing and then unfreezing an account leaves it active and otherwise
      as it was; freezing twice is freezing once. */
  lemma FreezeRoundTrip(st: AppState)
    ensures UnfreezeAccount(FreezeAccount(st)) == UnfreezeAccount(st)
    ensures FreezeAccount(FreezeAccount(st)) == FreezeAccount(st)
    ensures st.user.Some? && st.user.value.status == Some(Active) ==> UnfreezeAccount(FreezeAccount(st)) == st
  {
  }

  /** Signs out and forgets all data; the locale and currency stay. */
  function DeleteAccount(st: AppState): (r: AppState)
    ensures r.user.None? && r.groups == [] && r.expenses == [] && r.settlements == []
    ensures r.activeGroupId.None?
    ensures r.locale == st.locale && r.currency == st.currency
  {
    st.(user := None, groups := [], expenses := [], settlements := [], activeGroupId := None)
  }

  /** After an account is deleted no group has expenses or settlements. */
  lemma DeletedAccountIsEmpty(st: AppState, groupId: Id)
    ensures GetGroupExpenses(DeleteAccount(st), groupId) == []
    ensures GetGroupSettlements(DeleteAccount(st), groupId) == []
  {
  }

  function SetActiveGroup(st: AppState, id: Option<Id>): (r: AppState)
    ensures r.activeGroupId == id
    ensures r.(activeGroupId := st.activeGroupId) == st
  {
    st.(activeGroupId := id)
  }

  // ---------------------------------------------------------------------------
  // Groups and members

  /** A group as the caller describes it, before it has an id or times. */
  datatype GroupDraft = GroupDraft(
    name: string,
    description: Option<string>,
    emoji: string,
    members: seq<Member>,
    currency: string,
    category: GroupCategory)

  /** Appends the group built from `draft`, stamped with the fresh `id` and
      created and updated at `now`, and returns `id`. */
  function AddGroup(st: AppState, draft: GroupDraft, id: Id, now: Time): (r: (AppState, Id))
    ensures r.1 == id
    ensures |r.0.groups| == |st.groups| + 1 && r.0.groups[..|st.groups|] == st.groups
    ensures var g := r.0.groups[|st.groups|];
            g.id == id && g.createdAt == now && g.updatedAt == now
            && g.name == draft.name && g.description == draft.description && g.emoji == draft.emoji
            && g.members == draft.members && g.currency == draft.currency && g.category == draft.category
    ensures r.0.(groups := st.groups) == st
  {
    var g := Group(id, draft.name, draft.description, draft.emoji, draft.members, now, now,
                   draft.currency, draft.category);
    (st.(groups := st.groups + [g]), id)
  }

  /** `Partial<Group>`: each field present replaces the group's own. */
  datatype GroupUpdate = GroupUpdate(
    id: Option<Id>,
    name: Option<string>,
    description: Option<Option<string>>,
    emoji: Option<string>,
    members: Option<seq<Member>>,
    createdAt: Option<Time>,
    currency: Option<string>,
    category: Option<GroupCategory>)

  function PatchGroup(g: Group, u: GroupUpdate, now: Time): (r: Group)
    ensures r.id == Or(u.id, g.id) && r.name == Or(u.name, g.name)
    ensures r.description == Or(u.description, g.description) && r.emoji == Or(u.emoji, g.emoji)
    ensures r.members == Or(u.members, g.members) && r.createdAt == Or(u.createdAt, g.createdAt)
    ensures r.currency == Or(u.currency, g.currency) && r.category == Or(u.category, g.category)
    ensures r.updatedAt == now
  {
    Group(Or(u.id, g.id), Or(u.name, g.name), Or(u.description, g.description), Or(u.emoji, g.emoji),
          Or(u.members, g.members), Or(u.createdAt, g.createdAt), now,
          Or(u.currency, g.currency), Or(u.category, g.category))
  }

  /** Merges `u` into every group with id `id` and stamps it updated at
      `now`; other groups and the rest of the state are unchanged. */
  function UpdateGroup(st: AppState, id: Id, u: GroupUpdate, now: Time): (r: AppState)
    ensures |r.groups| == |st.groups|
    ensures forall k :: 0 <= k < |st.groups| && st.groups[k].id == id ==> r.groups[k] == PatchGroup(st.groups[k], u, now)
    ensures forall k :: 0 <= k < |st.groups| && st.groups[k].id != id ==> r.groups[k] == st.groups[k]
    ensures r.(groups := st.groups) == st
  {
    st.(groups := MapWhere(st.groups, GroupId, id, g => PatchGroup(g, u, now)))
  }

  /** Removes the group with id `id` together with its expenses and
      settlements; the active group is cleared only if it was that group. */
  function DeleteGroup(st: AppState, id: Id): (r: AppState)
    ensures forall g :: g in r.groups <==> g in st.groups && g.id != id
    ensures forall e :: e in r.expenses <==> e in st.expenses && e.groupId != id
    ensures forall s :: s in r.settlements <==> s in st.settlements && s.groupId != id
    ensures r.activeGroupId == (if st.activeGroupId == Some(id) then None else st.activeGroupId)
    ensures r.locale == st.locale && r.currency == st.currency && r.user == st.user
  {
    st.(groups := Without(st.groups, GroupId, id),
        expenses := Without(st.expenses, ExpenseGroup, id),
        settlements := Without(st.settlements, SettlementGroup, id),
        activeGroupId := if st.activeGroupId == Some(id) then None else st.activeGroupId)
  }

  /** Deleting a group empties its expense and settlement lists and leaves
      every other group's lists as they were. */
  lemma DeleteGroupCascades(st: AppState, id: Id, other: Id)
    requires other != id
    ensures GetGroupExpenses(DeleteGroup(st, id), id) == []
    ensures GetGroupSettlements(DeleteGroup(st, id), id) == []
    ensures GetGroupExpenses(DeleteGroup(st, id), other) == GetGroupExpenses(st, other)
    ensures GetGroupSettlements(DeleteGroup(st, id), other) == GetGroupSettlements(st, other)
  {
    var after := DeleteGroup(st, id);
    assert forall k :: 0 <= k < |after.expenses| ==> after.expenses[k] in after.expenses;
    assert forall k :: 0 <= k < |after.settlements| ==> after.settlements[k] in after.settlements;
    OnlyWithout(st.expenses, ExpenseGroup, id, other);
    OnlyWithout(st.settlements, SettlementGroup, id, other);
  }

  /** Adding a group under a fresh id and deleting it again restores the
      state. */
  lemma AddThenDeleteGroup(st: AppState, draft: GroupDraft, id: Id, now: Time)
    requires forall k :: 0 <= k < |st.groups| ==> st.groups[k].id != id
    requires forall k :: 0 <= k < |st.expenses| ==> st.expenses[k].groupId != id
    requires forall k :: 0 <= k < |st.settlements| ==> st.settlements[k].groupId != id
    requires st.activeGroupId != Some(id)
    ensures DeleteGroup(AddGroup(st, draft, id, now).0, id) == st
  {
    var added := AddGroup(st, draft, id, now).0;
    var g := added.groups[|st.groups|];
    assert added.groups == st.groups + [g];
    WithoutAppend(st.groups, [g], GroupId, id);
    assert Without([g], GroupId, id) == [];
  }

  /** A member as the caller describes it, before it has an id. */
  datatype MemberDraft = MemberDraft(name: string, email: Option<string>, avatar: Option<string>)

  /** Appends a member with the fresh id `memberId` to the group `groupId`
      and stamps that group updated at `now`. */
  function AddMemberToGroup(st: AppState, groupId: Id, draft: MemberDraft, memberId: Id, now: Time): (r: AppState)
    ensures |r.groups| == |st.groups|
    ensures forall k :: 0 <= k < |st.groups| && st.groups[k].id == groupId ==>
              r.groups[k] == st.groups[k].(members := st.groups[k].members + [Member(memberId, draft.name, draft.email, draft.avatar)],
                                           updatedAt := now)
    ensures forall k :: 0 <= k < |st.groups| && st.groups[k].id != groupId ==> r.groups[k] == st.groups[k]
    ensures r.(groups := st.groups) == st
  {
    var m := Member(memberId, draft.name, draft.email, draft.avatar);
    st.(groups := MapWhere(st.groups, GroupId, groupId, (g: Group) => g.(members := g.members + [m], updatedAt := now)))
  }

  /** Drops every member with id `memberId` from the group `groupId` and
      stamps that group updated at `now`. Expenses are not touched, so
      expenses paid by or shared with the member stay as they were. */
  function RemoveMemberFromGroup(st: AppState, groupId: Id, memberId: Id, now: Time): (r: AppState)
    ensures |r.groups| == |st.groups|
    ensures forall k :: 0 <= k < |st.groups| && st.groups[k].id == groupId ==>
              r.groups[k].members == Without(st.groups[k].members, MemberId, memberId)
              && r.groups[k] == st.groups[k].(members := r.groups[k].members, updatedAt := now)
    ensures forall k :: 0 <= k < |st.groups| && st.groups[k].id != groupId ==> r.groups[k] == st.groups[k]
    ensures r.expenses == st.expenses && r.settlements == st.settlements
    ensures r.(groups := st.groups) == st
  {
    st.(groups := MapWhere(st.groups, GroupId, groupId,
                           (g: Group) => g.(members := Without(g.members, MemberId, memberId), updatedAt := now)))
  }

  /** Removing a member just added under a fresh id gives every group back
      its previous member list. */
  lemma AddThenRemoveMember(st: AppState, groupId: Id, draft: MemberDraft, memberId: Id, now: Time, later: Time, k: int)
    requires 0 <= k < |st.groups|
    requires forall j :: 0 <= j < |st.groups[k].members| ==> st.groups[k].members[j].id != memberId
    ensures RemoveMemberFromGroup(AddMemberToGroup(st, groupId, draft, memberId, now), groupId, memberId, later).groups[k].members
            == st.groups[k].members
  {
    var m := Member(memberId, draft.name, draft.email, draft.avatar);
    if st.groups[k].id == groupId {
      WithoutAppend(st.groups[k].members, [m], MemberId, memberId);
      assert Without([m], MemberId, memberId) == [];
    }
  }

  // ---------------------------------------------------------------------------
  // Expenses

  /** An expense as the caller describes it, before it has an id or
      creation time. */
  datatype ExpenseDraft = ExpenseDraft(
    groupId: Id,
    description: string,
    amount: Cents,
    currency: string,
    paidBy: Id,
    splitBetween: seq<Split>,
    category: ExpenseCategory,
    date: Time)

  function NewExpense(draft: ExpenseDraft, id: Id, now: Time): (r: Expense)
    ensures r.id == id && r.createdAt == now && r.groupId == draft.groupId
    ensures r.description == draft.description && r.amount == draft.amount && r.currency == draft.currency
    ensures r.paidBy == draft.paidBy && r.splitBetween == draft.splitBetween
    ensures r.category == draft.category && r.date == draft.date
  {
    Expense(id, draft.groupId, draft.description, draft.amount, draft.currency, draft.paidBy,
            draft.splitBetween, draft.category, draft.date, now)
  }

  /** Appends the expense built from `draft` with the fresh `id`, created at
      `now`, and returns `id`. */
  function AddExpense(st: AppState, draft: ExpenseDraft, id: Id, now: Time): (r: (AppState, Id))
    ensures r.1 == id
    ensures r.0.expenses == st.expenses + [NewExpense(draft, id, now)]
    ensures r.0.(expenses := st.expenses) == st
  {
    (st.(expenses := st.expenses + [NewExpense(draft, id, now)]), id)
  }

  /** The new expense joins the end of its group's list; other groups'
      lists are unchanged. */
  lemma AddExpenseToGroup(st: AppState, draft: ExpenseDraft, id: Id, now: Time, groupId: Id)
    ensures GetGroupExpenses(AddExpense(st, draft, id, now).0, groupId)
         == GetGroupExpenses(st, groupId) + (if draft.groupId == groupId then [NewExpense(draft, id, now)] else [])
  {
    OnlyAppend(st.expenses, [NewExpense(draft, id, now)], ExpenseGroup, groupId);
  }

  /** Adding an expense to a group moves each member's balance by that
      expense alone: the payer gains its amount and each member loses their
      unpaid share of it. */
  lemma AddExpenseMovesBalances(st: AppState, draft: ExpenseDraft, id: Id, now: Time, members: seq<Member>, k: int)
    requires 0 <= k < |members|
    ensures Calculations.CalculateBalances(GetGroupExpenses(AddExpense(st, draft, id, now).0, draft.groupId), members)[k].amount
         == Calculations.CalculateBalances(GetGroupExpenses(st, draft.groupId), members)[k].amount
            + (if draft.paidBy == members[k].id then draft.amount else 0)
            - Calculations.OwedUnder(draft.splitBetween, members[k].id)
  {
    AddExpenseToGroup(st, draft, id, now, draft.groupId);
    Calculations.AppendedExpenseEffect(GetGroupExpenses(st, draft.groupId), NewExpense(draft, id, now), members, k);
  }

  /** `Partial<Expense>`: each field present replaces the expense's own. */
  datatype ExpenseUpdate = ExpenseUpdate(
    id: Option<Id>,
    groupId: Option<Id>,
    description: Option<string>,
    amount: Option<Cents>,
    currency: Option<string>,
    paidBy: Option<Id>,
    splitBetween: Option<seq<Split>>,
    category: Option<ExpenseCategory>,
    date: Option<Time>,
    createdAt: Option<Time>)

  const NoExpenseChange: ExpenseUpdate := ExpenseUpdate(None, None, None, None, None, None, None, None, None, None)

  function PatchExpense(e: Expense, u: ExpenseUpdate): (r: Expense)
    ensures r.id == Or(u.id, e.id) && r.groupId == Or(u.groupId, e.groupId)
    ensures r.description == Or(u.description, e.description) && r.amount == Or(u.amount, e.amount)
    ensures r.currency == Or(u.currency, e.currency) && r.paidBy == Or(u.paidBy, e.paidBy)
    ensures r.splitBetween == Or(u.splitBetween, e.splitBetween) && r.category == Or(u.category, e.category)
    ensures r.date == Or(u.date, e.date) && r.createdAt == Or(u.createdAt, e.createdAt)
  {
    Expense(Or(u.id, e.id), Or(u.groupId, e.groupId), Or(u.description, e.description), Or(u.amount, e.amount),
            Or(u.currency, e.currency), Or(u.paidBy, e.paidBy), Or(u.splitBetween, e.splitBetween),
            Or(u.category, e.category), Or(u.date, e.date), Or(u.createdAt, e.createdAt))
  }

  /** Merges `u` into every expense with id `id`; all other expenses and the
      rest of the state are unchanged. */
  function UpdateExpense(st: AppState, id: Id, u: ExpenseUpdate): (r: AppState)
    ensures |r.expenses| == |st.expenses|
    ensures forall k :: 0 <= k < |st.expenses| && st.expenses[k].id == id ==> r.expenses[k] == PatchExpense(st.expenses[k], u)
    ensures forall k :: 0 <= k < |st.expenses| && st.expenses[k].id != id ==> r.expenses[k] == st.expenses[k]
    ensures r.(expenses := st.expenses) == st
  {
    st.(expenses := MapWhere(st.expenses, ExpenseId, id, e => PatchExpense(e, u)))
  }

  /** An update naming no field, or an id no expense has, changes nothing;
      an update that keeps the id applied twice is applied once. */
  lemma UpdateExpenseLaws(st: AppState, id: Id, u: ExpenseUpdate)
    ensures UpdateExpense(st, id, NoExpenseChange) == st
    ensures (forall k :: 0 <= k < |st.expenses| ==> st.expenses[k].id != id) ==> UpdateExpense(st, id, u) == st
    ensures u.id.None? || u.id == Some(id) ==> UpdateExpense(UpdateExpense(st, id, u), id, u) == UpdateExpense(st, id, u)
  {
  }

  /** Removes every expense with id `id`; the rest keep their order. */
  function DeleteExpense(st: AppState, id: Id): (r: AppState)
    ensures forall e :: e in r.expenses <==> e in st.expenses && e.id != id
    ensures |r.expenses| <= |st.expenses|
    ensures r.(expenses := st.expenses) == st
  {
    st.(expenses := Without(st.expenses, ExpenseId, id))
  }

  /** Adding an expense under a fresh id and deleting it restores the
      state. */
  lemma AddThenDeleteExpense(st: AppState, draft: ExpenseDraft, id: Id, now: Time)
    requires forall k :: 0 <= k < |st.expenses| ==> st.expenses[k].id != id
    ensures DeleteExpense(AddExpense(st, draft, id, now).0, id) == st
  {
    var e := NewExpense(draft, id, now);
    WithoutAppend(st.expenses, [e], ExpenseId, id);
    assert Without([e], ExpenseId, id) == [];
  }

  function GetGroupExpenses(st: AppState, groupId: Id): (r: seq<Expense>)
    ensures forall e :: e in r <==> e in st.expenses && e.groupId == groupId
    ensures |r| <= |st.expenses|
  {
    Only(st.expenses, ExpenseGroup, groupId)
  }

  // ---------------------------------------------------------------------------
  // Settlements

  /** A settlement as the caller describes it, before it has an id or
      creation time. */
  datatype SettlementDraft = SettlementDraft(
    groupId: Id,
    from: Id,
    to: Id,
    amount: Cents,
    status: SettlementStatus,
    completedAt: Option<Time>,
    paymentMethod: Option<PaymentMethod>,
    reminderSent: Option<bool>)

  function NewSettlement(draft: SettlementDraft, id: Id, now: Time): (r: Settlement)
    ensures r.id == id && r.createdAt == now && r.groupId == draft.groupId
    ensures r.from == draft.from && r.to == draft.to && r.amount == draft.amount && r.status == draft.status
    ensures r.completedAt == draft.completedAt && r.paymentMethod == draft.paymentMethod
    ensures r.reminderSent == draft.reminderSent
  {
    Settlement(id, draft.groupId, draft.from, draft.to, draft.amount, draft.status, now,
               draft.completedAt, draft.paymentMethod, draft.reminderSent)
  }

  /** Appends the settlement built from `draft` with the fresh `id`, created
      at `now`, and returns `id`. */
  function AddSettlement(st: AppState, draft: SettlementDraft, id: Id, now: Time): (r: (AppState, Id))
    ensures r.1 == id
    ensures r.0.settlements == st.settlements + [NewSettlement(draft, id, now)]
    ensures r.0.(settlements := st.settlements) == st
  {
    (st.(settlements := st.settlements + [NewSettlement(draft, id, now)]), id)
  }

  /** Marks every settlement with id `id` completed at `now`, whatever its
      status was. */
  function CompleteSettlement(st: AppState, id: Id, now: Time): (r: AppState)
    ensures |r.settlements| == |st.settlements|
    ensures forall k :: 0 <= k < |st.settlements| && st.settlements[k].id == id ==>
              r.settlements[k] == st.settlements[k].(status := Completed, completedAt := Some(now))
    ensures forall k :: 0 <= k < |st.settlements| && st.settlements[k].id != id ==> r.settlements[k] == st.settlements[k]
    ensures r.(settlements := st.settlements) == st
  {
    st.(settlements := MapWhere(st.settlements, SettlementId, id, (s: Settlement) => s.(status := Completed, completedAt := Some(now))))
  }

  /** Marks every settlement with id `id` cancelled, whatever its status
      was; a completion time it had is kept. */
  function CancelSettlement(st: AppState, id: Id): (r: AppState)
    ensures |r.settlements| == |st.settlements|
    ensures forall k :: 0 <= k < |st.settlements| && st.settlements[k].id == id ==>
              r.settlements[k] == st.settlements[k].(status := Cancelled)
    ensures forall k :: 0 <= k < |st.settlements| && st.settlements[k].id != id ==> r.settlements[k] == st.settlements[k]
    ensures r.(settlements := st.settlements) == st
  {
    st.(settlements := MapWhere(st.settlements, SettlementId, id, (s: Settlement) => s.(status := Cancelled)))
  }

  /** Cancelling twice is cancelling once, and neither transition checks the
      prior status: a completed settlement can be cancelled and keeps its
      completion time, and a cancelled one can be completed. */
  lemma SettlementStatusLaws(st: AppState, id: Id, now: Time, k: int)
    requires 0 <= k < |st.settlements| && st.settlements[k].id == id
    ensures CancelSettlement(CancelSettlement(st, id), id) == CancelSettlement(st, id)
    ensures CancelSettlement(CompleteSettlement(st, id, now), id).settlements[k].status == Cancelled
    ensures CancelSettlement(CompleteSettlement(st, id, now), id).settlements[k].completedAt == Some(now)
    ensures CompleteSettlement(CancelSettlement(st, id), id, now).settlements[k].status == Completed
  {
  }

  function GetGroupSettlements(st: AppState, groupId: Id): (r: seq<Settlement>)
    ensures forall s :: s in r <==> s in st.settlements && s.groupId == groupId
    ensures |r| <= |st.settlements|
  {
    Only(st.settlements, SettlementGroup, groupId)
  }
}
