/** The four read paths of the transaction service (service/transaction.go
    113-182 and 346-398): the paged family listing, the time-range listing
    and the two summaries. Each checks the family id, then that the family
    exists; the listings then copy the caller's filters over a query map
    that already holds the family and the status "valid", and the summary by
    time checks the grouping before it asks the database. */
module TransactionQueries {

  import opened Wrappers
  import opened Domain
  import opened Seqs
  import opened Store
  import opened Listing
  import Aggregation
  import Families

  // ---------------------------------------------------------------------
  // The query map

  /** The map the service starts from: `family_id` and `status`. */
  function Seed(familyId: Id): map<string, Value>
  {
    map["family_id" := IdValue(familyId), "status" := StatusValue(Valid)]
  }

  /** The loop that copies every filter into the seed map; a filter on
      `family_id` or `status` replaces the seed's entry. */
  method MergeFilters(familyId: Id, filters: map<string, Value>) returns (query: map<string, Value>)
    ensures query == Seed(familyId) + filters
  {
    query := Seed(familyId);
    var keys := filters.Keys;
    while keys != {}
      invariant keys <= filters.Keys
      invariant query == Seed(familyId) + (filters - keys)
      decreases keys
    {
      var k :| k in keys;
      assert (filters - (keys - {k})) == (filters - keys)[k := filters[k]];
      query := query[k := filters[k]];
      keys := keys - {k};
    }
    assert filters - {} == filters;
  }

  /** The seed adds no condition the data-access query does not already
      make: a row matches the merged map exactly when it matches the
      caller's filters alone. */
  lemma MatchesSeed(t: Transaction, familyId: Id, filters: map<string, Value>)
    ensures Matches(t, familyId, Seed(familyId) + filters) <==> Matches(t, familyId, filters)
  {
    var query := Seed(familyId) + filters;
    if Matches(t, familyId, filters) {
      forall name | name in query ensures Column(t, name) == Some(query[name]) {
        if name !in filters {
          assert name == "family_id" || name == "status";
        }
      }
    }
  }

  /** Merging the seed changes neither the rows either listing selects nor
      whether the query fails. */
  lemma {:induction false} SeedChangesNothing(txs: seq<Transaction>, familyId: Id, start: DateTime, end: DateTime,
                                              filters: map<string, Value>)
    ensures KnownColumns(Seed(familyId) + filters) <==> KnownColumns(filters)
    ensures Matching(txs, familyId, Seed(familyId) + filters) == Matching(txs, familyId, filters)
    ensures MatchingInRange(txs, familyId, start, end, Seed(familyId) + filters)
         == MatchingInRange(txs, familyId, start, end, filters)
  {
    forall t: Transaction {
      MatchesSeed(t, familyId, filters);
    }
    FilterSame(txs, (t: Transaction) => Matches(t, familyId, Seed(familyId) + filters),
                    (t: Transaction) => Matches(t, familyId, filters));
    FilterSame(txs, (t: Transaction) => Matches(t, familyId, Seed(familyId) + filters) && NotAfter(start, t.time) && NotAfter(t.time, end),
                    (t: Transaction) => Matches(t, familyId, filters) && NotAfter(start, t.time) && NotAfter(t.time, end));
  }

  // ---------------------------------------------------------------------
  // Listings

  /** GetTransactionsByFamilyID: id 0 is invalid, a missing family is the
      lookup's error, and otherwise the result is the family's page of
      valid rows passing the caller's filters, with their count. */
  method GetTransactionsByFamilyID(store: Store, familyId: Id, page: int, pageSize: int, filters: map<string, Value>)
    returns (r: Result<(seq<Transaction>, nat)>)
    ensures familyId == 0 ==> r == Err(Validation(InvalidId))
    ensures familyId != 0 && familyId !in store.families ==> r == Err(StoreError(FamilyTable))
    ensures familyId != 0 && familyId in store.families ==>
      r == FamilyPage(Rows(store.transactions, store.nextTransaction), familyId, page, pageSize, filters)
  {
    if familyId == 0 {
      return Err(Validation(InvalidId));
    }
    var found := Families.FamilyExists(store, familyId);
    if found.Err? {
      return Err(found.error);
    }
    if !found.value {
      return Err(NotFound(FamilyTable));
    }
    var query := MergeFilters(familyId, filters);
    var txs := Rows(store.transactions, store.nextTransaction);
    SeedChangesNothing(txs, familyId, ZERO_TIME, ZERO_TIME, filters);
    r := FamilyPage(txs, familyId, page, pageSize, query);
  }

  /** GetTransactionsByTimeRange: the same guards; otherwise the family's
      valid rows inside [start, end] passing the caller's filters, newest
      first. */
  method GetTransactionsByTimeRange(store: Store, familyId: Id, start: DateTime, end: DateTime, filters: map<string, Value>)
    returns (r: Result<seq<Transaction>>)
    ensures familyId == 0 ==> r == Err(Validation(InvalidId))
    ensures familyId != 0 && familyId !in store.families ==> r == Err(StoreError(FamilyTable))
    ensures familyId != 0 && familyId in store.families ==>
      r == TimeRange(Rows(store.transactions, store.nextTransaction), familyId, start, end, filters)
  {
    if familyId == 0 {
      return Err(Validation(InvalidId));
    }
    var found := Families.FamilyExists(store, familyId);
    if found.Err? {
      return Err(found.error);
    }
    if !found.value {
      return Err(NotFound(FamilyTable));
    }
    var query := MergeFilters(familyId, filters);
    var txs := Rows(store.transactions, store.nextTransaction);
    SeedChangesNothing(txs, familyId, start, end, filters);
    r := TimeRange(txs, familyId, start, end, query);
  }

  // ---------------------------------------------------------------------
  // Summaries

  /** GetTransactionSummaryByCategory: the same guards; otherwise one total
      per category name over the family's valid rows of the given type
      inside [start, end]. */
  method GetTransactionSummaryByCategory(store: Store, familyId: Id, start: DateTime, end: DateTime, transactionType: string)
    returns (r: Result<map<string, int>>)
    ensures familyId == 0 ==> r == Err(Validation(InvalidId))
    ensures familyId != 0 && familyId !in store.families ==> r == Err(StoreError(FamilyTable))
    ensures r.Ok? <==> familyId != 0 && familyId in store.families
    ensures r.Ok? ==> forall name :: name in r.value <==>
      exists t :: t in Rows(store.transactions, store.nextTransaction) && Aggregation.InWindow(t, familyId, start, end)
        && t.transactionType == transactionType
        && t.categoryId in store.categories && store.categories[t.categoryId].name == name
    ensures r.Ok? ==> forall name :: name in r.value ==>
      r.value[name] == Aggregation.SumWhere(
        Filter(Rows(store.transactions, store.nextTransaction),
               Aggregation.ByCategoryRows(familyId, start, end, transactionType)),
        Aggregation.CategoryName(store.categories), Some(name))
  {
    if familyId == 0 {
      return Err(Validation(InvalidId));
    }
    var found := Families.FamilyExists(store, familyId);
    if found.Err? {
      return Err(found.error);
    }
    if !found.value {
      return Err(NotFound(FamilyTable));
    }
    var txs := Rows(store.transactions, store.nextTransaction);
    var summary := Aggregation.SummaryByCategory(txs, store.categories, familyId, start, end, transactionType);
    r := Ok(summary);
  }

  /** GetTransactionSummaryByTime: the same guards, then a grouping other
      than day, month or year is refused; otherwise one total per period
      over the family's valid rows inside [start, end]. */
  method GetTransactionSummaryByTime(store: Store, familyId: Id, start: DateTime, end: DateTime, groupBy: string)
    returns (r: Result<map<string, int>>)
    ensures familyId == 0 ==> r == Err(Validation(InvalidId))
    ensures familyId != 0 && familyId !in store.families ==> r == Err(StoreError(FamilyTable))
    ensures familyId != 0 && familyId in store.families && groupBy != "day" && groupBy != "month" && groupBy != "year"
      ==> r == Err(Validation(BadGroupBy))
    ensures r.Ok? <==> familyId != 0 && familyId in store.families && groupBy in {"day", "month", "year"}
    ensures r.Ok? ==> forall p :: p in r.value <==>
      exists t :: t in Rows(store.transactions, store.nextTransaction) && Aggregation.InWindow(t, familyId, start, end)
        && Aggregation.DateFormat(Aggregation.TimeFormat(groupBy), t.time) == p
    ensures r.Ok? ==> forall p :: p in r.value ==>
      r.value[p] == Aggregation.SumWhere(
        Filter(Rows(store.transactions, store.nextTransaction), Aggregation.ByTimeRows(familyId, start, end)),
        Aggregation.PeriodOf(groupBy), Some(p))
  {
    if familyId == 0 {
      return Err(Validation(InvalidId));
    }
    var found := Families.FamilyExists(store, familyId);
    if found.Err? {
      return Err(found.error);
    }
    if !found.value {
      return Err(NotFound(FamilyTable));
    }
    if groupBy != "day" && groupBy != "month" && groupBy != "year" {
      return Err(Validation(BadGroupBy));
    }
    var txs := Rows(store.transactions, store.nextTransaction);
    var summary := Aggregation.SummaryByTime(txs, familyId, start, end, groupBy);
    r := Ok(summary);
  }
}
