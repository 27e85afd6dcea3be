/** The transaction service (service/transaction.go): validation of a
    transaction, the checks that its family, member and category exist and
    fit, creation with status "valid", updates, soft deletion, and the
    protocol that attaches tags to a transaction and detaches them. A
    transaction whose status is "deleted" is treated as absent by every
    operation. Each writing operation is a method over the Store, proved
    equal to an outcome function of the state before the call. */
module Transactions {

  import opened Domain
  import opened Text
  import opened Store
  import Families

  // ---------------------------------------------------------------------
  // Validation

  predicate IsValidTransactionType(t: string)
  {
    t == INCOME || t == EXPENSE
  }

  /** validateTransaction, with the clock reading `now` as a parameter: a
      positive amount, a known type, a set time that is not in the future,
      a note of at most 1000 bytes and a payment method of at most 50
      bytes, checked in that order. */
  function ValidateTransaction(t: Transaction, now: DateTime): (v: Verdict)
    ensures v == Pass <==>
      && t.amount > 0 && IsValidTransactionType(t.transactionType)
      && t.time != ZERO_TIME && !Before(now, t.time)
      && ByteLen(t.note) <= 1000 && ByteLen(t.paymentMethod) <= 50
    ensures t.amount <= 0 ==> v == Fail(NonPositiveAmount)
    ensures t.amount > 0 && !IsValidTransactionType(t.transactionType) ==> v == Fail(BadTransactionType)
    ensures t.amount > 0 && IsValidTransactionType(t.transactionType) && t.time == ZERO_TIME ==> v == Fail(MissingTime)
    ensures t.amount > 0 && IsValidTransactionType(t.transactionType) && t.time != ZERO_TIME && Before(now, t.time) ==>
      v == Fail(FutureTime)
    ensures (t.amount > 0 && IsValidTransactionType(t.transactionType) && t.time != ZERO_TIME && !Before(now, t.time)
             && ByteLen(t.note) > 1000) ==> v == Fail(NoteTooLong)
    ensures (t.amount > 0 && IsValidTransactionType(t.transactionType) && t.time != ZERO_TIME && !Before(now, t.time)
             && ByteLen(t.note) <= 1000 && ByteLen(t.paymentMethod) > 50) ==> v == Fail(PaymentMethodTooLong)
    ensures v.Fail? ==> v.fault in {NonPositiveAmount, BadTransactionType, MissingTime, FutureTime, NoteTooLong, PaymentMethodTooLong}
  {
    if t.amount <= 0 then Fail(NonPositiveAmount)
    else if !IsValidTransactionType(t.transactionType) then Fail(BadTransactionType)
    else if t.time == ZERO_TIME then Fail(MissingTime)
    else if Before(now, t.time) then Fail(FutureTime)
    else if ByteLen(t.note) > 1000 then Fail(NoteTooLong)
    else if ByteLen(t.paymentMethod) > 50 then Fail(PaymentMethodTooLong)
    else Pass
  }

  /** A transaction valid at one moment stays valid later: only the
      future-time check depends on the clock. */
  lemma ValidLater(t: Transaction, now: DateTime, later: DateTime)
    requires ValidateTransaction(t, now) == Pass && !Before(later, now)
    ensures ValidateTransaction(t, later) == Pass
  {
    BeforeStrictTotal(later, now, t.time);
    BeforeStrictTotal(now, t.time, later);
    BeforeStrictTotal(t.time, now, later);
  }

  // ---------------------------------------------------------------------
  // Reference checks

  /** memberExistsInFamily: the member is found, belongs to the family and
      is active (status 1). */
  function MemberExistsInFamily(store: Store, memberId: Id, familyId: Id): (r: Result<bool>)
    reads store
    ensures r == Ok(true) <==>
      && memberId != 0 && familyId != 0 && memberId in store.members
      && store.members[memberId].familyId == familyId && store.members[memberId].status == ACTIVE
    ensures r.Err? <==> memberId != 0 && familyId != 0 && memberId !in store.members
    ensures r.Err? ==> r.error == StoreError(MemberTable)
  {
    if memberId == 0 || familyId == 0 then Ok(false)
    else match store.MemberById(memberId)
      case Err(e) => Err(e)
      case Ok(m) => Ok(m.familyId == familyId && m.status == ACTIVE)
  }

  /** The category type a transaction of this type must use: income for
      income, expense for anything else. */
  function ExpectedCategoryType(transactionType: string): (c: string)
    ensures IsValidTransactionType(transactionType) ==> c == transactionType
    ensures transactionType != INCOME ==> c == EXPENSE
  {
    if transactionType == INCOME then INCOME else EXPENSE
  }

  /** categoryExistsAndMatchesType: the category is found, live, and of the
      expected type. */
  function CategoryExistsAndMatchesType(store: Store, categoryId: Id, transactionType: string): (r: Result<bool>)
    reads store
    ensures r == Ok(true) <==>
      && categoryId != 0 && categoryId in store.categories && !store.categories[categoryId].isDeleted
      && store.categories[categoryId].categoryType == ExpectedCategoryType(transactionType)
    ensures r.Err? <==> categoryId != 0 && categoryId !in store.categories
    ensures r.Err? ==> r.error == StoreError(CategoryTable)
  {
    if categoryId == 0 then Ok(false)
    else match store.CategoryById(categoryId)
      case Err(e) => Err(e)
      case Ok(c) => Ok(!c.isDeleted && c.categoryType == ExpectedCategoryType(transactionType))
  }

  /** The three reference checks create and update make, in order: the
      family, then the member, then the category. A failing check is a
      store error when the lookup failed and a not-found otherwise. */
  function References(store: Store, t: Transaction): (r: Result<()>)
    reads store
  {
    match Families.FamilyExists(store, t.familyId)
    case Err(_) => Err(StoreError(FamilyTable))
    case Ok(false) => Err(NotFound(FamilyTable))
    case Ok(true) =>
      match MemberExistsInFamily(store, t.memberId, t.familyId)
      case Err(_) => Err(StoreError(MemberTable))
      case Ok(false) => Err(NotFound(MemberTable))
      case Ok(true) =>
        match CategoryExistsAndMatchesType(store, t.categoryId, t.transactionType)
        case Err(_) => Err(StoreError(CategoryTable))
        case Ok(false) => Err(NotFound(CategoryTable))
        case Ok(true) => Ok(())
  }

  /** The references of a transaction are sound: its family is stored, its
      member is an active member of that family, and its category is live
      and of the type the transaction's type calls for. */
  ghost predicate SoundReferences(store: Store, t: Transaction)
    reads store
  {
    && t.familyId != 0 && t.familyId in store.families
    && t.memberId != 0 && t.memberId in store.members
    && store.members[t.memberId].familyId == t.familyId && store.members[t.memberId].status == ACTIVE
    && t.categoryId != 0 && t.categoryId in store.categories && !store.categories[t.categoryId].isDeleted
    && store.categories[t.categoryId].categoryType == ExpectedCategoryType(t.transactionType)
  }

  /** The checks pass exactly when the references are sound; otherwise the
      first failing check names its table. */
  lemma ReferencesIff(store: Store, t: Transaction)
    ensures References(store, t).Ok? <==> SoundReferences(store, t)
    ensures References(store, t).Err? ==>
      References(store, t).error in {StoreError(FamilyTable), NotFound(FamilyTable), StoreError(MemberTable),
        NotFound(MemberTable), StoreError(CategoryTable), NotFound(CategoryTable)}
    ensures t.familyId == 0 ==> References(store, t) == Err(NotFound(FamilyTable))
    ensures t.familyId != 0 && t.familyId !in store.families ==> References(store, t) == Err(StoreError(FamilyTable))
  {
  }

  // ---------------------------------------------------------------------
  // Visibility

  /** A stored transaction as the service sees it: the DAO's error for a
      missing row, not-found for one whose status is "deleted". */
  function Visible(txs: map<Id, Transaction>, id: Id): (r: Result<Transaction>)
    ensures r.Ok? <==> id in txs && txs[id].status != Deleted
    ensures r.Ok? ==> r.value == txs[id]
    ensures id !in txs ==> r == Err(StoreError(TransactionTable))
    ensures id in txs && txs[id].status == Deleted ==> r == Err(NotFound(TransactionTable))
  {
    if id !in txs then Err(StoreError(TransactionTable))
    else if txs[id].status == Deleted then Err(NotFound(TransactionTable))
    else Ok(txs[id])
  }

  /** GetTransactionByID: id 0 is refused; a deleted transaction is not
      returned. A pending one is. */
  function GetTransactionByID(store: Store, id: Id): (r: Result<Transaction>)
    reads store
    ensures r.Ok? <==> id != 0 && id in store.transactions && store.transactions[id].status != Deleted
    ensures r.Ok? ==> r.value == store.transactions[id]
    ensures id == 0 ==> r == Err(Validation(InvalidId))
  {
    if id == 0 then Err(Validation(InvalidId)) else Visible(store.transactions, id)
  }

  // ---------------------------------------------------------------------
  // CreateTransaction

  /** The operation changes at most the transaction table, its counter and
      the join table. */
  twostate predicate OnlyTransactionsChanged(store: Store)
    reads store
  {
    && store.families == old(store.families) && store.members == old(store.members)
    && store.categories == old(store.categories) && store.tags == old(store.tags)
    && store.nextFamily == old(store.nextFamily) && store.nextMember == old(store.nextMember)
    && store.nextCategory == old(store.nextCategory) && store.nextTag == old(store.nextTag)
  }

  /** What CreateTransaction makes of t: the row it stores, or the first
      check that fails. */
  ghost function CreateOutcome(store: Store, t: Transaction, now: DateTime): Result<Transaction>
    reads store
  {
    match ValidateTransaction(t, now)
    case Fail(f) => Err(Validation(f))
    case Pass =>
      match References(store, t)
      case Err(e) => Err(e)
      case Ok(_) => Ok(t.(id := store.nextTransaction, status := Valid))
  }

  /** CreateTransaction: validates, checks the references, and inserts the
      row with status "valid". */
  method CreateTransaction(store: Store, t: Transaction, now: DateTime) returns (r: Result<Transaction>)
    requires store.Valid()
    modifies store
    ensures store.Valid()
    ensures r == old(CreateOutcome(store, t, now))
    ensures r.Ok? ==> store.transactions == old(store.transactions)[r.value.id := r.value]
    ensures r.Ok? ==> store.nextTransaction == old(store.nextTransaction) + 1 && store.links == old(store.links)
    ensures r.Err? ==> unchanged(store)
    ensures OnlyTransactionsChanged(store)
  {
    var v := ValidateTransaction(t, now);
    if v.Fail? {
      return Err(Validation(v.fault));
    }
    var refs := References(store, t);
    if refs.Err? {
      return Err(refs.error);
    }
    var stored := store.CreateTransaction(t.(status := Valid));
    return Ok(stored);
  }

  /** Creation succeeds exactly when the transaction is valid and its
      references are sound. */
  lemma CreateSucceedsIff(store: Store, t: Transaction, now: DateTime)
    ensures CreateOutcome(store, t, now).Ok? <==> ValidateTransaction(t, now) == Pass && SoundReferences(store, t)
  {
    ReferencesIff(store, t);
  }

  /** The stored row is the input under the next id, with status "valid"
      whatever status was passed in; its category has the transaction's own
      type. */
  lemma CreatedRow(store: Store, t: Transaction, now: DateTime, row: Transaction)
    requires CreateOutcome(store, t, now) == Ok(row)
    ensures row.id == store.nextTransaction && row.status == Valid
    ensures row.(id := t.id, status := t.status) == t
    ensures store.categories[row.categoryId].categoryType == row.transactionType
    ensures store.members[row.memberId].familyId == row.familyId
  {
    ReferencesIff(store, t);
  }

  // ---------------------------------------------------------------------
  // UpdateTransaction

  /** What UpdateTransaction makes of t: the row it saves (t itself, every
      column), or the first check that fails. */
  ghost function UpdateOutcome(store: Store, t: Transaction, now: DateTime): Result<Transaction>
    reads store
  {
    if t.id == 0 then Err(Validation(InvalidId))
    else match ValidateTransaction(t, now)
      case Fail(f) => Err(Validation(f))
      case Pass =>
        match Visible(store.transactions, t.id)
        case Err(e) => Err(e)
        case Ok(_) =>
          match References(store, t)
          case Err(e) => Err(e)
          case Ok(_) => Ok(t)
  }

  /** UpdateTransaction: checks the id, validates, requires a visible row
      and sound references, then saves every column of t. */
  method UpdateTransaction(store: Store, t: Transaction, now: DateTime) returns (r: Result<Transaction>)
    requires store.Valid()
    modifies store
    ensures store.Valid()
    ensures r == old(UpdateOutcome(store, t, now))
    ensures r.Ok? ==> store.transactions == old(store.transactions)[t.id := t]
    ensures r.Ok? ==> store.nextTransaction == old(store.nextTransaction) && store.links == old(store.links)
    ensures r.Err? ==> unchanged(store)
    ensures OnlyTransactionsChanged(store)
  {
    if t.id == 0 {
      return Err(Validation(InvalidId));
    }
    var v := ValidateTransaction(t, now);
    if v.Fail? {
      return Err(Validation(v.fault));
    }
    var existing := store.TransactionById(t.id);
    if existing.Err? {
      return Err(StoreError(TransactionTable));
    }
    if existing.value.status == Deleted {
      return Err(NotFound(TransactionTable));
    }
    var refs := References(store, t);
    if refs.Err? {
      return Err(refs.error);
    }
    store.SaveTransaction(t);
    return Ok(t);
  }

  /** An update succeeds exactly when the id is set, the row is visible, the
      new values are valid and their references sound. */
  lemma UpdateSucceedsIff(store: Store, t: Transaction, now: DateTime)
    ensures UpdateOutcome(store, t, now).Ok? <==>
      && t.id != 0 && t.id in store.transactions && store.transactions[t.id].status != Deleted
      && ValidateTransaction(t, now) == Pass && SoundReferences(store, t)
  {
    ReferencesIff(store, t);
  }

  /** The update writes the caller's status as given: an update carrying
      status "deleted" succeeds and hides the transaction, exactly as a
      delete would. */
  lemma UpdateCanDelete(store: Store, t: Transaction, now: DateTime)
    requires UpdateOutcome(store, t, now).Ok? && t.status == Deleted
    ensures Visible(store.transactions[t.id := t], t.id) == Err(NotFound(TransactionTable))
    ensures DeleteOutcome(store.transactions[t.id := t], t.id) == Err(NotFound(TransactionTable))
  {
  }

  // ---------------------------------------------------------------------
  // DeleteTransaction

  /** What DeleteTransaction does to the table: the error, or the table with
      the row's status set to "deleted". */
  function DeleteOutcome(txs: map<Id, Transaction>, id: Id): (r: Result<map<Id, Transaction>>)
  {
    if id == 0 then Err(Validation(InvalidId))
    else match Visible(txs, id)
      case Err(e) => Err(e)
      case Ok(row) => Ok(txs[id := row.(status := Deleted)])
  }

  /** DeleteTransaction: a soft delete of a visible transaction. */
  method DeleteTransaction(store: Store, id: Id) returns (r: Result<()>)
    requires store.Valid()
    modifies store
    ensures store.Valid()
    ensures var o := DeleteOutcome(old(store.transactions), id);
      && (o.Err? ==> r == Err(o.error) && unchanged(store))
      && (o.Ok? ==> r == Ok(()) && store.transactions == o.value)
    ensures store.nextTransaction == old(store.nextTransaction) && store.links == old(store.links)
    ensures OnlyTransactionsChanged(store)
  {
    if id == 0 {
      return Err(Validation(InvalidId));
    }
    var existing := store.TransactionById(id);
    if existing.Err? {
      return Err(StoreError(TransactionTable));
    }
    if existing.value.status == Deleted {
      return Err(NotFound(TransactionTable));
    }
    store.DeleteTransaction(id);
    return Ok(());
  }

  /** A delete changes only the status of its row, and the row is no
      longer visible; deleting it again fails. */
  lemma DeleteHides(txs: map<Id, Transaction>, id: Id, after: map<Id, Transaction>)
    requires DeleteOutcome(txs, id) == Ok(after)
    ensures after.Keys == txs.Keys
    ensures forall other :: other in txs && other != id ==> after[other] == txs[other]
    ensures after[id].(status := txs[id].status) == txs[id]
    ensures Visible(after, id) == Err(NotFound(TransactionTable))
    ensures DeleteOutcome(after, id) == Err(NotFound(TransactionTable))
  {
  }

  /** Delete succeeds exactly on a visible transaction. */
  lemma DeleteSucceedsIff(txs: map<Id, Transaction>, id: Id)
    ensures DeleteOutcome(txs, id).Ok? <==> id != 0 && id in txs && txs[id].status != Deleted
  {
  }

  // ---------------------------------------------------------------------
  // Tags on a transaction

  /** What AddTagToTransaction does to the join table: the error, or the
      table with one more row for the pair. */
  function AddTagOutcome(txs: map<Id, Transaction>, tags: map<Id, Tag>, links: multiset<Link>, transactionId: Id, tagId: Id)
    : (r: Result<multiset<Link>>)
  {
    if transactionId == 0 || tagId == 0 then Err(Validation(InvalidId))
    else match Visible(txs, transactionId)
      case Err(e) => Err(e)
      case Ok(t) =>
        if tagId !in tags then Err(StoreError(TagTable))
        else if !tags[tagId].isActive then Err(NotFound(TagTable))
        else if tags[tagId].familyId != t.familyId then Err(Conflict(FamilyMismatch))
        else if (transactionId, tagId) in links then Err(Conflict(AlreadyTagged))
        else Ok(links + multiset{(transactionId, tagId)})
  }

  /** AddTagToTransaction: links an active tag of the transaction's family
      to a visible transaction that does not carry it yet. */
  method AddTagToTransaction(store: Store, transactionId: Id, tagId: Id) returns (r: Result<()>)
    requires store.Valid()
    modifies store
    ensures store.Valid()
    ensures var o := AddTagOutcome(old(store.transactions), old(store.tags), old(store.links), transactionId, tagId);
      && (o.Err? ==> r == Err(o.error) && unchanged(store))
      && (o.Ok? ==> r == Ok(()) && store.links == o.value)
    ensures store.transactions == old(store.transactions) && store.nextTransaction == old(store.nextTransaction)
    ensures OnlyTransactionsChanged(store)
  {
    if transactionId == 0 || tagId == 0 {
      return Err(Validation(InvalidId));
    }
    var transaction := store.TransactionById(transactionId);
    if transaction.Err? {
      return Err(StoreError(TransactionTable));
    }
    if transaction.value.status == Deleted {
      return Err(NotFound(TransactionTable));
    }
    var tag := store.TagById(tagId);
    if tag.Err? {
      return Err(StoreError(TagTable));
    }
    if !tag.value.isActive {
      return Err(NotFound(TagTable));
    }
    if tag.value.familyId != transaction.value.familyId {
      return Err(Conflict(FamilyMismatch));
    }
    var present := store.Linked(transactionId, tagId);
    if present {
      return Err(Conflict(AlreadyTagged));
    }
    store.AddLink(transactionId, tagId);
    return Ok(());
  }

  /** What RemoveTagFromTransaction does to the join table: the error, or
      the table without any row for the pair. The tag itself is not looked
      up, so an inactive tag can be removed. */
  function RemoveTagOutcome(txs: map<Id, Transaction>, links: multiset<Link>, transactionId: Id, tagId: Id)
    : (r: Result<multiset<Link>>)
  {
    if transactionId == 0 || tagId == 0 then Err(Validation(InvalidId))
    else match Visible(txs, transactionId)
      case Err(e) => Err(e)
      case Ok(_) =>
        if (transactionId, tagId) !in links then Err(NotFound(TagLink))
        else Ok(links[(transactionId, tagId) := 0])
  }

  /** RemoveTagFromTransaction: unlinks a pair that is linked, on a visible
      transaction. */
  method RemoveTagFromTransaction(store: Store, transactionId: Id, tagId: Id) returns (r: Result<()>)
    requires store.Valid()
    modifies store
    ensures store.Valid()
    ensures var o := RemoveTagOutcome(old(store.transactions), old(store.links), transactionId, tagId);
      && (o.Err? ==> r == Err(o.error) && unchanged(store))
      && (o.Ok? ==> r == Ok(()) && store.links == o.value)
    ensures store.transactions == old(store.transactions) && store.nextTransaction == old(store.nextTransaction)
    ensures OnlyTransactionsChanged(store)
  {
    if transactionId == 0 || tagId == 0 {
      return Err(Validation(InvalidId));
    }
    var transaction := store.TransactionById(transactionId);
    if transaction.Err? {
      return Err(StoreError(TransactionTable));
    }
    if transaction.value.status == Deleted {
      return Err(NotFound(TransactionTable));
    }
    var present := store.Linked(transactionId, tagId);
    if !present {
      return Err(NotFound(TagLink));
    }
    store.RemoveLinks(transactionId, tagId);
    return Ok(());
  }

  /** Adding succeeds exactly for non-zero ids, a visible transaction, an
      active tag of the same family, and a pair not yet linked. */
  lemma AddTagSucceedsIff(txs: map<Id, Transaction>, tags: map<Id, Tag>, links: multiset<Link>, x: Id, y: Id)
    ensures AddTagOutcome(txs, tags, links, x, y).Ok? <==>
      && x != 0 && y != 0 && x in txs && txs[x].status != Deleted
      && y in tags && tags[y].isActive && tags[y].familyId == txs[x].familyId
      && (x, y) !in links
  {
  }

  /** After a successful add the pair is linked exactly once, so the same
      add made again is refused. */
  lemma AddTagTwiceFails(txs: map<Id, Transaction>, tags: map<Id, Tag>, links: multiset<Link>, x: Id, y: Id, after: multiset<Link>)
    requires AddTagOutcome(txs, tags, links, x, y) == Ok(after)
    ensures after[(x, y)] == 1
    ensures AddTagOutcome(txs, tags, after, x, y) == Err(Conflict(AlreadyTagged))
  {
  }

  /** Removing succeeds exactly for non-zero ids, a visible transaction and
      a linked pair, whatever the state of the tag. */
  lemma RemoveTagSucceedsIff(txs: map<Id, Transaction>, links: multiset<Link>, x: Id, y: Id)
    ensures RemoveTagOutcome(txs, links, x, y).Ok? <==>
      x != 0 && y != 0 && x in txs && txs[x].status != Deleted && (x, y) in links
  {
  }

  /** After a successful remove the pair is not linked, every other row is
      kept, and removing again is refused. */
  lemma RemoveTagClears(txs: map<Id, Transaction>, links: multiset<Link>, x: Id, y: Id, after: multiset<Link>)
    requires RemoveTagOutcome(txs, links, x, y) == Ok(after)
    ensures (x, y) !in after
    ensures forall l :: l != (x, y) ==> after[l] == links[l]
    ensures RemoveTagOutcome(txs, after, x, y) == Err(NotFound(TagLink))
  {
  }

  /** Remove undoes add. */
  lemma AddThenRemove(txs: map<Id, Transaction>, tags: map<Id, Tag>, links: multiset<Link>, x: Id, y: Id, after: multiset<Link>)
    requires AddTagOutcome(txs, tags, links, x, y) == Ok(after)
    ensures RemoveTagOutcome(txs, after, x, y) == Ok(links)
  {
    assert after[(x, y) := 0] == links;
  }

  /** Every join row links a transaction and a tag of the same family. */
  ghost predicate LinksWithinFamily(txs: map<Id, Transaction>, tags: map<Id, Tag>, links: multiset<Link>)
  {
    forall l :: l in links ==> l.0 in txs && l.1 in tags && tags[l.1].familyId == txs[l.0].familyId
  }

  /** Adding a tag keeps every link inside one family. */
  lemma AddTagKeepsFamilies(txs: map<Id, Transaction>, tags: map<Id, Tag>, links: multiset<Link>, x: Id, y: Id)
    requires LinksWithinFamily(txs, tags, links)
    requires AddTagOutcome(txs, tags, links, x, y).Ok?
    ensures LinksWithinFamily(txs, tags, AddTagOutcome(txs, tags, links, x, y).value)
  {
  }

  /** A deleted transaction accepts no tag changes. */
  lemma DeletedRefusesTags(txs: map<Id, Transaction>, tags: map<Id, Tag>, links: multiset<Link>, x: Id, y: Id)
    requires x != 0 && y != 0 && x in txs && txs[x].status == Deleted
    ensures AddTagOutcome(txs, tags, links, x, y) == Err(NotFound(TransactionTable))
    ensures RemoveTagOutcome(txs, links, x, y) == Err(NotFound(TransactionTable))
    ensures DeleteOutcome(txs, x) == Err(NotFound(TransactionTable))
  {
  }
}
