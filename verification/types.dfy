/** The application's record types. Every monetary amount is a whole number
    of cents; identifiers are strings; timestamps are opaque numbers chosen
    by the caller (the store stamps them with the clock, which the model
    takes as a parameter). */
module Types {
  import opened Wrappers

  /** An amount of money in cents (the source uses floating-point units). */
  type Cents = int

  /** A member, group, expense or settlement identifier. */
  type Id = string

  /** A point in time, as supplied by the caller. */
  type Time = int

  datatype ExpenseCategory =
    | Food | Transport | Accommodation | Entertainment | Shopping
    | Utilities | Groceries | Health | Other

  datatype GroupCategory = Trip | Home | Couple | Event | Work | GroupOther

  datatype SettlementStatus = Pending | Completed | Cancelled

  datatype PaymentMethod = Cash | Venmo | PayPal | Zelle | Bank | MethodOther

  /** The account flag the store writes on freeze and unfreeze. */
  datatype AccountStatus = Active | Frozen

  datatype User = User(
    id: Id,
    name: string,
    email: string,
    avatar: Option<string>,
    isPremium: bool,
    createdAt: Time,
    status: Option<AccountStatus>)

  datatype Member = Member(id: Id, name: string, email: Option<string>, avatar: Option<string>)

  datatype Group = Group(
    id: Id,
    name: string,
    description: Option<string>,
    emoji: string,
    members: seq<Member>,
    createdAt: Time,
    updatedAt: Time,
    currency: string,
    category: GroupCategory)

  /** One member's share of one expense. `percentage` is in hundredths of a
      percent when present. */
  datatype Split = Split(memberId: Id, amount: Cents, percentage: Option<int>, isPaid: bool)

  datatype Expense = Expense(
    id: Id,
    groupId: Id,
    description: string,
    amount: Cents,
    currency: string,
    paidBy: Id,
    splitBetween: seq<Split>,
    category: ExpenseCategory,
    date: Time,
    createdAt: Time)

  /** A member's net position: positive when others owe them. */
  datatype Balance = Balance(memberId: Id, memberName: string, amount: Cents)

  /** A recorded payment between two members. The source's `method` field
      is named `paymentMethod` here, `method` being a Dafny keyword. */
  datatype Settlement = Settlement(
    id: Id,
    groupId: Id,
    from: Id,
    to: Id,
    amount: Cents,
    status: SettlementStatus,
    createdAt: Time,
    completedAt: Option<Time>,
    paymentMethod: Option<PaymentMethod>,
    reminderSent: Option<bool>)

  /** A settlement as the optimizer suggests it: a settlement without its
      `id` and `createdAt`. */
  datatype Suggestion = Suggestion(groupId: Id, from: Id, to: Id, amount: Cents, status: SettlementStatus)

  /** The set of identifiers of a member list. */
  function MemberIds(members: seq<Member>): set<Id>
  {
    set m <- members :: m.id
  }

  /** No two members of the list share an identifier. */
  predicate DistinctIds(members: seq<Member>)
  {
    forall a, b :: 0 <= a < b < |members| ==> members[a].id != members[b].id
  }
}
