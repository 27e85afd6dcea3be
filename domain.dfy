/** The records of the family-finance system (families, members, categories,
    tags, transactions and the transaction-tag join), the enumerations stored
    as strings, and the error kinds the services report. */
module Domain {

  import opened Wrappers

  /** A GORM primary key (`uint`); 0 is "no row". */
  type Id = nat

  // ---------------------------------------------------------------------
  // Enumerations stored as strings

  const INCOME: string := "income"
  const EXPENSE: string := "expense"

  const ROLE_ADMIN: string := "admin"
  const ROLE_MEMBER: string := "member"
  const ROLE_VIEWER: string := "viewer"

  /** Member.Status: 1 is an active member, 0 a removed one. */
  const ACTIVE: int := 1
  const REMOVED: int := 0

  datatype TxStatus = Valid | Deleted | Pending

  // ---------------------------------------------------------------------
  // Time

  /** A point in time, ordered by its fields in turn; `second` is the second
      within the day. */
  datatype DateTime = DateTime(year: nat, month: nat, day: nat, second: nat)

  /** Go's zero `time.Time`, January 1 of year 1, 00:00:00. */
  const ZERO_TIME: DateTime := DateTime(1, 1, 1, 0)

  /** a is strictly earlier than b. */
  predicate Before(a: DateTime, b: DateTime)
  {
    || a.year < b.year
    || (a.year == b.year && a.month < b.month)
    || (a.year == b.year && a.month == b.month && a.day < b.day)
    || (a.year == b.year && a.month == b.month && a.day == b.day && a.second < b.second)
  }

  /** a is not later than b (SQL `<=` on DATETIME). */
  predicate NotAfter(a: DateTime, b: DateTime)
  {
    !Before(b, a)
  }

  /** Before is a strict total order. */
  lemma BeforeStrictTotal(a: DateTime, b: DateTime, c: DateTime)
    ensures !Before(a, a)
    ensures Before(a, b) ==> !Before(b, a)
    ensures Before(a, b) && Before(b, c) ==> Before(a, c)
    ensures a == b || Before(a, b) || Before(b, a)
  {
  }

  // ---------------------------------------------------------------------
  // Records (model/model.go)

  /** A family row. `members` is only filled on rows a query returns with
      their members attached; stored rows keep it empty. */
  datatype Family = Family(id: Id, name: string, members: seq<Member>)

  datatype Member = Member(
    id: Id, familyId: Id, name: string, role: string,
    phone: string, email: string, status: int)

  /** A category row. `children` is only filled on rows a query returns with
      their children attached; stored rows keep it empty. */
  datatype Category = Category(
    id: Id, name: string, categoryType: string, parentId: Option<Id>,
    path: string, level: int, sortOrder: int, isDeleted: bool,
    children: seq<Category>)

  datatype Tag = Tag(
    id: Id, familyId: Id, name: string, tagType: string, color: string,
    isActive: bool)

  /** A transaction; `amount` is in cents, the column being DECIMAL(12,2). */
  datatype Transaction = Transaction(
    id: Id, familyId: Id, memberId: Id, amount: int, transactionType: string,
    categoryId: Id, time: DateTime, note: string, imageUrl: string,
    status: TxStatus, paymentMethod: string)

  /** A transaction_tags row: (transaction id, tag id). */
  type Link = (Id, Id)

  /** Category.Level is an `int8`: storing a level wraps modulo 256 into
      -128..127. */
  function Int8(x: int): (r: int)
    ensures -128 <= r < 128
    ensures -128 <= x < 128 ==> r == x
    ensures (r - x) % 256 == 0
  {
    (x + 128) % 256 - 128
  }

  // ---------------------------------------------------------------------
  // Errors

  /** Why a validator rejected its input. */
  datatype Fault =
    | InvalidId
    | BlankName | NameTooLong
    | BadCategoryType
    | NonPositiveAmount | BadTransactionType | MissingTime | FutureTime
    | NoteTooLong | PaymentMethodTooLong
    | BlankTagType | TagTypeTooLong | BadColor
    | BadEmail | EmailTooLong | PhoneTooLong | BadRole
    | BadGroupBy | BadPathSegment

  /** The table a lookup or a reference concerns. */
  datatype Table =
    | FamilyTable | MemberTable | CategoryTable | ParentCategory
    | TagTable | TransactionTable | TagLink

  /** Why a write was refused although its input was well formed. */
  datatype Clash =
    | NameTaken | EmailTaken | PhoneTaken
    | SelfParent | Cycle | ParentTypeMismatch | FamilyMismatch
    | HasChildren | HasMembers | TagInUse | AlreadyTagged

  datatype Error =
    | Validation(fault: Fault)       // input rejected by a validator
    | NotFound(table: Table)         // absent, deleted, or not in the family
    | Conflict(clash: Clash)         // refused because of other rows
    | StoreError(table: Table)       // the DAO returned an error

  datatype Result<+T> = Ok(value: T) | Err(error: Error)

  /** A validator's verdict. */
  datatype Verdict = Pass | Fail(fault: Fault)
}
