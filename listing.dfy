/** The two list queries of the transaction data-access object
    (model/transaction.go:46-99): the family's valid transactions that pass
    every equality filter (and, for the second, lie inside an inclusive time
    window), newest first; the first query also counts them and returns one
    page. */
module Listing {

  import opened Wrappers
  import opened Domain
  import opened Seqs

  // ---------------------------------------------------------------------
  // Equality filters

  /** A value a filter compares a column with. */
  datatype Value =
    | IdValue(id: Id)
    | AmountValue(cents: int)
    | TextValue(text: string)
    | TimeValue(time: DateTime)
    | StatusValue(status: TxStatus)

  /** The columns of the transactions table the model knows. */
  predicate IsColumn(name: string)
  {
    name in {"id", "family_id", "member_id", "category_id", "amount", "type",
             "transaction_time", "note", "image_url", "status", "payment_method"}
  }

  /** The value of column `name` of t; None for a name that is not a column,
      on which the database reports an error. */
  function Column(t: Transaction, name: string): (v: Option<Value>)
    ensures v.Some? <==> IsColumn(name)
  {
    if name == "id" then Some(IdValue(t.id))
    else if name == "family_id" then Some(IdValue(t.familyId))
    else if name == "member_id" then Some(IdValue(t.memberId))
    else if name == "category_id" then Some(IdValue(t.categoryId))
    else if name == "amount" then Some(AmountValue(t.amount))
    else if name == "type" then Some(TextValue(t.transactionType))
    else if name == "transaction_time" then Some(TimeValue(t.time))
    else if name == "note" then Some(TextValue(t.note))
    else if name == "image_url" then Some(TextValue(t.imageUrl))
    else if name == "status" then Some(StatusValue(t.status))
    else if name == "payment_method" then Some(TextValue(t.paymentMethod))
    else None
  }

  /** Every filter names a column. */
  predicate KnownColumns(filters: map<string, Value>)
  {
    forall name :: name in filters ==> IsColumn(name)
  }

  /** `family_id = ? AND status = 'valid'` and one `name = value` per
      filter. */
  predicate Matches(t: Transaction, familyId: Id, filters: map<string, Value>)
  {
    t.familyId == familyId && t.status == Valid
    && forall name :: name in filters ==> Column(t, name) == Some(filters[name])
  }

  // ---------------------------------------------------------------------
  // ORDER BY transaction_time DESC

  /** No row is older than a row after it. */
  predicate NewestFirst(s: seq<Transaction>)
  {
    forall i, j :: 0 <= i < j < |s| ==> !Before(s[i].time, s[j].time)
  }

  /** Places x after every row that is not older than it. */
  function Insert(sorted: seq<Transaction>, x: Transaction): seq<Transaction>
  {
    if sorted == [] then [x]
    else if Before(sorted[|sorted| - 1].time, x.time) then Insert(sorted[..|sorted| - 1], x) + [sorted[|sorted| - 1]]
    else sorted + [x]
  }

  /** The rows newest first; rows with the same time keep their order. */
  function SortByTimeDesc(s: seq<Transaction>): seq<Transaction>
  {
    if s == [] then [] else Insert(SortByTimeDesc(s[..|s| - 1]), s[|s| - 1])
  }

  /** Appending a row no newer than every row keeps the order. */
  lemma AppendOldest(s: seq<Transaction>, x: Transaction)
    requires NewestFirst(s)
    requires forall i :: 0 <= i < |s| ==> !Before(s[i].time, x.time)
    ensures NewestFirst(s + [x])
  {
  }

  /** Insertion keeps every row and adds x once. */
  lemma {:induction false} InsertPerm(sorted: seq<Transaction>, x: Transaction)
    ensures multiset(Insert(sorted, x)) == multiset(sorted) + multiset{x}
  {
    if sorted != [] {
      var init, last := sorted[..|sorted| - 1], sorted[|sorted| - 1];
      assert sorted == init + [last];
      if Before(last.time, x.time) {
        InsertPerm(init, x);
      }
    }
  }

  lemma {:induction false} InsertSorted(sorted: seq<Transaction>, x: Transaction)
    requires NewestFirst(sorted)
    ensures NewestFirst(Insert(sorted, x))
  {
    if sorted != [] {
      var init, last := sorted[..|sorted| - 1], sorted[|sorted| - 1];
      if Before(last.time, x.time) {
        assert NewestFirst(init);
        InsertSorted(init, x);
        InsertPerm(init, x);
        var r := Insert(init, x);
        forall i | 0 <= i < |r| ensures !Before(r[i].time, last.time) {
          assert r[i] in multiset(init) + multiset{x};
          if r[i] != x {
            var k :| 0 <= k < |init| && init[k] == r[i];
            assert sorted[k] == r[i];
          } else {
            BeforeStrictTotal(x.time, last.time, x.time);
          }
        }
        AppendOldest(r, last);
      } else {
        forall i | 0 <= i < |sorted| ensures !Before(sorted[i].time, x.time) {
          if i < |sorted| - 1 {
            assert !Before(sorted[i].time, last.time);
            BeforeStrictTotal(sorted[i].time, last.time, x.time);
          }
        }
        AppendOldest(sorted, x);
      }
    }
  }

  /** Sorting orders newest first and keeps every row. */
  lemma {:induction false} SortSpec(s: seq<Transaction>)
    ensures NewestFirst(SortByTimeDesc(s))
    ensures multiset(SortByTimeDesc(s)) == multiset(s)
  {
    if s != [] {
      SortSpec(s[..|s| - 1]);
      InsertSorted(SortByTimeDesc(s[..|s| - 1]), s[|s| - 1]);
      InsertPerm(SortByTimeDesc(s[..|s| - 1]), s[|s| - 1]);
      assert s == s[..|s| - 1] + [s[|s| - 1]];
    }
  }

  // ---------------------------------------------------------------------
  // OFFSET and LIMIT

  /** Offset((page-1)*pageSize).Limit(pageSize) as GORM emits them: the
      offset only when positive, the limit only when not negative. */
  function Page<T>(rows: seq<T>, page: int, pageSize: int): (r: seq<T>)
    ensures page >= 1 && pageSize >= 0 ==>
      var from := Min((page - 1) * pageSize, |rows|);
      r == rows[from..Min(from + pageSize, |rows|)]
  {
    var offset := (page - 1) * pageSize;
    var from := if offset <= 0 then 0 else Min(offset, |rows|);
    var rest := rows[from..];
    if 0 <= pageSize < |rest| then rest[..pageSize] else rest
  }

  function Min(a: int, b: int): int
  {
    if a <= b then a else b
  }

  /** Pages 1 to k side by side. */
  function Pages<T>(rows: seq<T>, pageSize: nat, k: nat): seq<T>
  {
    if k == 0 then [] else Pages(rows, pageSize, k - 1) + Page(rows, k, pageSize)
  }

  /** The pages tile the listing: pages 1 to k are its first k * pageSize
      rows, so no row is skipped or shown twice. */
  lemma {:induction false} PagesTile<T>(rows: seq<T>, pageSize: nat, k: nat)
    ensures Pages(rows, pageSize, k) == rows[..Min(k * pageSize, |rows|)]
  {
    if k > 0 {
      PagesTile(rows, pageSize, k - 1);
      assert (k - 1) * pageSize + pageSize == k * pageSize;
      var a, b := Min((k - 1) * pageSize, |rows|), Min(k * pageSize, |rows|);
      assert rows[..a] + rows[a..b] == rows[..b];
    }
  }

  // ---------------------------------------------------------------------
  // The two queries

  /** The rows of txs the family query selects, in table order. */
  function Matching(txs: seq<Transaction>, familyId: Id, filters: map<string, Value>): seq<Transaction>
  {
    Filter(txs, (t: Transaction) => Matches(t, familyId, filters))
  }

  /** The rows of txs the time-range query selects, in table order. */
  function MatchingInRange(txs: seq<Transaction>, familyId: Id, start: DateTime, end: DateTime, filters: map<string, Value>)
    : seq<Transaction>
  {
    Filter(txs, (t: Transaction) => Matches(t, familyId, filters) && NotAfter(start, t.time) && NotAfter(t.time, end))
  }

  /** GetTransactionsByFamilyID over the transaction rows txs: an error when
      a filter names no column; otherwise one page of the matching rows,
      newest first, and their count. */
  function FamilyPage(txs: seq<Transaction>, familyId: Id, page: int, pageSize: int, filters: map<string, Value>)
    : Result<(seq<Transaction>, nat)>
  {
    if !KnownColumns(filters) then Err(StoreError(TransactionTable))
    else
      var listing := SortByTimeDesc(Matching(txs, familyId, filters));
      Ok((Page(listing, page, pageSize), |listing|))
  }

  /** GetTransactionsByTimeRange over the transaction rows txs: the matching
      rows whose time lies in [start, end], newest first. */
  function TimeRange(txs: seq<Transaction>, familyId: Id, start: DateTime, end: DateTime, filters: map<string, Value>)
    : Result<seq<Transaction>>
  {
    if !KnownColumns(filters) then Err(StoreError(TransactionTable))
    else Ok(SortByTimeDesc(MatchingInRange(txs, familyId, start, end, filters)))
  }

  /** The query fails exactly when a filter names no column. */
  lemma QueriesFailIff(txs: seq<Transaction>, familyId: Id, page: int, pageSize: int, start: DateTime, end: DateTime,
                       filters: map<string, Value>)
    ensures FamilyPage(txs, familyId, page, pageSize, filters).Err? <==> exists name :: name in filters && !IsColumn(name)
    ensures TimeRange(txs, familyId, start, end, filters).Err? <==> exists name :: name in filters && !IsColumn(name)
  {
  }

  /** The family listing holds every matching row as often as the table
      does, newest first. */
  lemma ListingMeaning(txs: seq<Transaction>, familyId: Id, filters: map<string, Value>)
    ensures var listing := SortByTimeDesc(Matching(txs, familyId, filters));
      && NewestFirst(listing)
      && multiset(listing) == multiset(Matching(txs, familyId, filters))
      && forall t :: t in listing <==> t in txs && Matches(t, familyId, filters)
  {
    var matching := Matching(txs, familyId, filters);
    SortSpec(matching);
    var listing := SortByTimeDesc(matching);
    forall t ensures t in listing <==> t in matching {
      assert t in listing <==> t in multiset(listing);
      assert t in matching <==> t in multiset(matching);
    }
  }

  /** A page is the slice of the family listing that begins
      (page-1)*pageSize rows in, and the count is the listing's length. */
  lemma FamilyPageMeaning(txs: seq<Transaction>, familyId: Id, page: int, pageSize: int, filters: map<string, Value>)
    requires FamilyPage(txs, familyId, page, pageSize, filters).Ok?
    ensures var listing := SortByTimeDesc(Matching(txs, familyId, filters));
      && FamilyPage(txs, familyId, page, pageSize, filters).value.1 == |listing|
      && (page >= 1 && pageSize >= 0 ==>
            var from := Min((page - 1) * pageSize, |listing|);
            FamilyPage(txs, familyId, page, pageSize, filters).value.0 == listing[from..Min(from + pageSize, |listing|)])
  {
  }

  /** The time-range listing holds every matching row inside the window as
      often as the table does, newest first. */
  lemma TimeRangeMeaning(txs: seq<Transaction>, familyId: Id, start: DateTime, end: DateTime, filters: map<string, Value>)
    requires TimeRange(txs, familyId, start, end, filters).Ok?
    ensures var rows := TimeRange(txs, familyId, start, end, filters).value;
      && NewestFirst(rows)
      && multiset(rows) == multiset(MatchingInRange(txs, familyId, start, end, filters))
      && forall t :: t in rows <==>
        t in txs && Matches(t, familyId, filters) && NotAfter(start, t.time) && NotAfter(t.time, end)
  {
    var matching := MatchingInRange(txs, familyId, start, end, filters);
    SortSpec(matching);
    var rows := SortByTimeDesc(matching);
    forall t ensures t in rows <==> t in matching {
      assert t in rows <==> t in multiset(rows);
      assert t in matching <==> t in multiset(matching);
    }
  }
}
