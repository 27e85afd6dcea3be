/** The two summary queries of the transaction data-access object
    (model/transaction.go:142-215). Each selects the valid transactions of a
    family inside an inclusive time window, groups them by a key, sums the
    amounts of each group, and scans the grouped rows into a map, skipping
    any row whose key fails to scan (a NULL key). The by-category summary
    keys on the name of the joined category; the by-time summary keys on
    the transaction time formatted by MySQL's DATE_FORMAT. */
module Aggregation {

  import opened Wrappers
  import opened Domain
  import opened Text
  import opened Seqs

  // ---------------------------------------------------------------------
  // Selection

  /** The WHERE clause both summaries share: the family, status "valid",
      and a time inside [start, end] (SQL BETWEEN). */
  predicate InWindow(t: Transaction, familyId: Id, start: DateTime, end: DateTime)
  {
    t.familyId == familyId && t.status == Valid && NotAfter(start, t.time) && NotAfter(t.time, end)
  }

  // ---------------------------------------------------------------------
  // GROUP BY and SUM

  /** A row the grouped query returns: the group's key (None for NULL) and
      the sum of the group's amounts, in cents. */
  datatype GroupRow = GroupRow(key: Option<string>, total: int)

  /** The sum of the amounts of the transactions whose key is k. */
  function SumWhere(txs: seq<Transaction>, key: Transaction -> Option<string>, k: Option<string>): int
  {
    if txs == [] then 0
    else SumWhere(txs[..|txs| - 1], key, k) + (if key(txs[|txs| - 1]) == k then txs[|txs| - 1].amount else 0)
  }

  predicate HasKey(groups: seq<GroupRow>, k: Option<string>)
  {
    exists i :: 0 <= i < |groups| && groups[i].key == k
  }

  /** The total of the first group with key k, 0 if there is none. */
  function TotalOf(groups: seq<GroupRow>, k: Option<string>): int
  {
    if groups == [] then 0
    else if groups[0].key == k then groups[0].total
    else TotalOf(groups[1..], k)
  }

  predicate DistinctKeys(groups: seq<GroupRow>)
  {
    forall i, j :: 0 <= i < j < |groups| ==> groups[i].key != groups[j].key
  }

  /** Adds an amount to the group with key k, opening a new group at the
      end when there is none. */
  function Accumulate(groups: seq<GroupRow>, k: Option<string>, amount: int): (r: seq<GroupRow>)
    ensures |groups| <= |r| <= |groups| + 1
  {
    if groups == [] then [GroupRow(k, amount)]
    else if groups[0].key == k then [groups[0].(total := groups[0].total + amount)] + groups[1..]
    else [groups[0]] + Accumulate(groups[1..], k, amount)
  }

  /** The grouped rows of txs, in order of each key's first appearance. */
  function Groups(txs: seq<Transaction>, key: Transaction -> Option<string>): (r: seq<GroupRow>)
    ensures |r| <= |txs|
    ensures txs != [] ==> r != []
  {
    if txs == [] then []
    else Accumulate(Groups(txs[..|txs| - 1], key), key(txs[|txs| - 1]), txs[|txs| - 1].amount)
  }

  /** A key occurs in a list of groups exactly when it is the first
      group's key or occurs in the rest. */
  lemma HasKeyCons(head: GroupRow, rest: seq<GroupRow>)
    ensures forall k' :: HasKey([head] + rest, k') <==> head.key == k' || HasKey(rest, k')
  {
    var r := [head] + rest;
    forall k' | HasKey(r, k') ensures head.key == k' || HasKey(rest, k') {
      var i :| 0 <= i < |r| && r[i].key == k';
      if i > 0 {
        assert rest[i - 1].key == k';
      }
    }
    forall k' | HasKey(rest, k') ensures HasKey(r, k') {
      var i :| 0 <= i < |rest| && rest[i].key == k';
      assert r[i + 1].key == k';
    }
    assert r[0].key == head.key;
  }

  /** A list of groups has distinct keys exactly when its rest does and the
      first key does not occur again. */
  lemma DistinctCons(head: GroupRow, rest: seq<GroupRow>)
    ensures DistinctKeys([head] + rest) <==> !HasKey(rest, head.key) && DistinctKeys(rest)
  {
    var r := [head] + rest;
    if DistinctKeys(r) {
      forall i | 0 <= i < |rest| ensures rest[i].key != head.key {
        assert r[0] == head && r[i + 1] == rest[i];
      }
      forall i, j | 0 <= i < j < |rest| ensures rest[i].key != rest[j].key {
        assert r[i + 1] == rest[i] && r[j + 1] == rest[j];
      }
    }
    if !HasKey(rest, head.key) && DistinctKeys(rest) {
      forall i, j | 0 <= i < j < |r| ensures r[i].key != r[j].key {
        assert r[j] == rest[j - 1];
        if i > 0 {
          assert r[i] == rest[i - 1];
        }
      }
    }
  }

  /** Accumulating adds the amount to group k only, and keeps the keys
      distinct. */
  lemma {:induction false} AccumulateAdds(groups: seq<GroupRow>, k: Option<string>, amount: int)
    requires DistinctKeys(groups)
    ensures DistinctKeys(Accumulate(groups, k, amount))
    ensures forall k' :: HasKey(Accumulate(groups, k, amount), k') <==> k' == k || HasKey(groups, k')
    ensures forall k' :: TotalOf(Accumulate(groups, k, amount), k') == TotalOf(groups, k') + (if k' == k then amount else 0)
  {
    var r := Accumulate(groups, k, amount);
    if groups == [] {
      assert r == [GroupRow(k, amount)] + [];
      HasKeyCons(GroupRow(k, amount), []);
      DistinctCons(GroupRow(k, amount), []);
    } else {
      var head, rest := groups[0], groups[1..];
      assert groups == [head] + rest;
      HasKeyCons(head, rest);
      DistinctCons(head, rest);
      if head.key == k {
        var added := head.(total := head.total + amount);
        assert r == [added] + rest;
        HasKeyCons(added, rest);
        DistinctCons(added, rest);
      } else {
        var tail := Accumulate(rest, k, amount);
        AccumulateAdds(rest, k, amount);
        assert r == [head] + tail;
        HasKeyCons(head, tail);
        DistinctCons(head, tail);
      }
    }
  }

  /** The grouped rows have distinct keys, one per key some transaction
      has, each holding the sum of that key's amounts. */
  lemma {:induction false} GroupsMeaning(txs: seq<Transaction>, key: Transaction -> Option<string>)
    ensures DistinctKeys(Groups(txs, key))
    ensures forall k :: HasKey(Groups(txs, key), k) <==> exists i :: 0 <= i < |txs| && key(txs[i]) == k
    ensures forall k :: TotalOf(Groups(txs, key), k) == SumWhere(txs, key, k)
  {
    if txs != [] {
      var init := txs[..|txs| - 1];
      var last := txs[|txs| - 1];
      GroupsMeaning(init, key);
      AccumulateAdds(Groups(init, key), key(last), last.amount);
      forall k ensures HasKey(Groups(txs, key), k) <==> exists i :: 0 <= i < |txs| && key(txs[i]) == k {
        if exists i :: 0 <= i < |txs| && key(txs[i]) == k {
          var i :| 0 <= i < |txs| && key(txs[i]) == k;
          if i < |txs| - 1 {
            assert key(init[i]) == k;
          }
        }
        if exists i :: 0 <= i < |init| && key(init[i]) == k {
          var i :| 0 <= i < |init| && key(init[i]) == k;
          assert key(txs[i]) == k;
        }
      }
    } else {
      forall k ensures !HasKey(Groups(txs, key), k) {
      }
    }
  }

  // ---------------------------------------------------------------------
  // Scanning the grouped rows

  /** The map the scan loop builds from rows: each row with a non-NULL key
      sets that key to the row's total; a NULL key fails to scan into a Go
      string and the row is skipped. */
  function Summarize(rows: seq<GroupRow>): (r: map<string, int>)
    ensures |r.Keys| <= |rows|
  {
    if rows == [] then map[]
    else
      var m := Summarize(rows[..|rows| - 1]);
      var last := rows[|rows| - 1];
      if last.key.None? then m else m[last.key.value := last.total]
  }

  /** `for rows.Next() { if err := rows.Scan(..); err != nil { continue };
      summary[key] = total }`. */
  method ScanRows(rows: seq<GroupRow>) returns (summary: map<string, int>)
    ensures summary == Summarize(rows)
  {
    summary := map[];
    for i := 0 to |rows|
      invariant summary == Summarize(rows[..i])
    {
      assert rows[..i + 1][..i] == rows[..i];
      if rows[i].key.None? {
        continue;
      }
      summary := summary[rows[i].key.value := rows[i].total];
    }
    assert rows[..|rows|] == rows;
  }

  lemma {:induction false} TotalOfSnoc(groups: seq<GroupRow>, r: GroupRow, k: Option<string>)
    ensures TotalOf(groups + [r], k) == if HasKey(groups, k) then TotalOf(groups, k) else if r.key == k then r.total else 0
  {
    if groups == [] {
      assert [] + [r] == [r];
    } else {
      assert (groups + [r])[1..] == groups[1..] + [r];
      TotalOfSnoc(groups[1..], r, k);
      if groups[0].key != k {
        assert HasKey(groups, k) ==> HasKey(groups[1..], k) by {
          if HasKey(groups, k) {
            var i :| 0 <= i < |groups| && groups[i].key == k;
            assert groups[1..][i - 1].key == k;
          }
        }
        assert HasKey(groups[1..], k) ==> HasKey(groups, k) by {
          if HasKey(groups[1..], k) {
            var i :| 0 <= i < |groups[1..]| && groups[1..][i].key == k;
            assert groups[i + 1].key == k;
          }
        }
      } else {
        assert groups[0].key == k;
      }
    }
  }

  /** For rows with distinct keys the scan holds exactly the non-NULL keys,
      each with its row's total. */
  lemma {:induction false} SummarizeMeaning(rows: seq<GroupRow>)
    requires DistinctKeys(rows)
    ensures forall s :: s in Summarize(rows) <==> HasKey(rows, Some(s))
    ensures forall s :: s in Summarize(rows) ==> Summarize(rows)[s] == TotalOf(rows, Some(s))
  {
    if rows != [] {
      var init := rows[..|rows| - 1];
      var last := rows[|rows| - 1];
      assert rows == init + [last];
      SummarizeMeaning(init);
      forall s ensures HasKey(rows, Some(s)) <==> HasKey(init, Some(s)) || last.key == Some(s) {
        if HasKey(rows, Some(s)) {
          var i :| 0 <= i < |rows| && rows[i].key == Some(s);
          if i < |init| {
            assert init[i].key == Some(s);
          }
        }
        if HasKey(init, Some(s)) {
          var i :| 0 <= i < |init| && init[i].key == Some(s);
          assert rows[i].key == Some(s);
        }
      }
      forall s ensures TotalOf(rows, Some(s)) == if HasKey(init, Some(s)) then TotalOf(init, Some(s)) else if last.key == Some(s) then last.total else 0 {
        TotalOfSnoc(init, last, Some(s));
      }
      if last.key.Some? {
        assert !HasKey(init, last.key);
      }
    } else {
      forall s ensures !HasKey(rows, Some(s)) {
      }
    }
  }

  /** Grouping, summing and scanning together: the summary holds exactly
      the non-NULL keys of some transaction, each with the sum of the
      amounts of the transactions carrying it. */
  lemma SummaryOfGroups(txs: seq<Transaction>, key: Transaction -> Option<string>)
    ensures forall s :: s in Summarize(Groups(txs, key)) <==> exists i :: 0 <= i < |txs| && key(txs[i]) == Some(s)
    ensures forall s :: s in Summarize(Groups(txs, key)) ==> Summarize(Groups(txs, key))[s] == SumWhere(txs, key, Some(s))
  {
    GroupsMeaning(txs, key);
    SummarizeMeaning(Groups(txs, key));
  }

  /** Selecting, grouping, summing and scanning: the summary holds exactly
      the keys of the selected transactions. */
  lemma SummaryOfSelected(txs: seq<Transaction>, keep: Transaction -> bool, key: Transaction -> Option<string>)
    ensures forall s :: s in Summarize(Groups(Filter(txs, keep), key)) <==>
      exists t :: t in txs && keep(t) && key(t) == Some(s)
    ensures forall s :: s in Summarize(Groups(Filter(txs, keep), key)) ==>
      Summarize(Groups(Filter(txs, keep), key))[s] == SumWhere(Filter(txs, keep), key, Some(s))
  {
    var selected := Filter(txs, keep);
    SummaryOfGroups(selected, key);
    forall s ensures (exists i :: 0 <= i < |selected| && key(selected[i]) == Some(s)) <==>
      exists t :: t in txs && keep(t) && key(t) == Some(s)
    {
      if exists i :: 0 <= i < |selected| && key(selected[i]) == Some(s) {
        var i :| 0 <= i < |selected| && key(selected[i]) == Some(s);
        assert selected[i] in txs && keep(selected[i]);
      }
      if exists t :: t in txs && keep(t) && key(t) == Some(s) {
        var t :| t in txs && keep(t) && key(t) == Some(s);
        assert t in selected;
        var i :| 0 <= i < |selected| && selected[i] == t;
      }
    }
  }

  // ---------------------------------------------------------------------
  // Summary by category

  /** The LEFT JOIN on categories: the name of the transaction's category,
      or NULL when no category row has its id. */
  function CategoryName(cats: map<Id, Category>): Transaction -> Option<string>
  {
    (t: Transaction) => if t.categoryId in cats then Some(cats[t.categoryId].name) else None
  }

  /** GetTransactionSummaryByCategory over the transaction rows txs: the
      family's valid transactions of one type inside the window, summed by
      category name. Categories that share a name share an entry, deleted
      categories included; a transaction whose category row is missing
      lands in the NULL group, which is skipped. */
  method SummaryByCategory(txs: seq<Transaction>, cats: map<Id, Category>, familyId: Id,
                           start: DateTime, end: DateTime, transactionType: string)
    returns (summary: map<string, int>)
    ensures forall name :: name in summary <==>
      exists t :: t in txs && InWindow(t, familyId, start, end) && t.transactionType == transactionType
        && t.categoryId in cats && cats[t.categoryId].name == name
    ensures forall name :: name in summary ==>
      summary[name] == SumWhere(Filter(txs, ByCategoryRows(familyId, start, end, transactionType)), CategoryName(cats), Some(name))
  {
    var keep := ByCategoryRows(familyId, start, end, transactionType);
    var rows := Groups(Filter(txs, keep), CategoryName(cats));
    summary := ScanRows(rows);
    SummaryOfSelected(txs, keep, CategoryName(cats));
    forall name ensures (exists t :: t in txs && keep(t) && CategoryName(cats)(t) == Some(name)) <==>
      exists t :: t in txs && InWindow(t, familyId, start, end) && t.transactionType == transactionType
        && t.categoryId in cats && cats[t.categoryId].name == name
    {
    }
  }

  /** The rows the by-category summary selects. */
  function ByCategoryRows(familyId: Id, start: DateTime, end: DateTime, transactionType: string): Transaction -> bool
  {
    (t: Transaction) => InWindow(t, familyId, start, end) && t.transactionType == transactionType
  }

  // ---------------------------------------------------------------------
  // Summary by time

  const DAY_FORMAT: string := "%Y-%m-%d"
  const MONTH_FORMAT: string := "%Y-%m"
  const YEAR_FORMAT: string := "%Y"

  /** The switch on groupBy: day, month and year have their own format,
      anything else gets the month format. */
  function TimeFormat(groupBy: string): (f: string)
    ensures groupBy != "day" && groupBy != "year" ==> f == MONTH_FORMAT
  {
    if groupBy == "day" then DAY_FORMAT
    else if groupBy == "month" then MONTH_FORMAT
    else if groupBy == "year" then YEAR_FORMAT
    else MONTH_FORMAT
  }

  /** k copies of the digit 0. */
  function Zeros(k: nat): (s: string)
    ensures |s| == k && AllDigits(s) && DigitsValue(s) == 0
  {
    if k == 0 then [] else Zeros(k - 1) + "0"
  }

  /** Leading zeros do not change the value of a digit string. */
  lemma {:induction false} LeadingZeros(k: nat, d: string)
    requires AllDigits(d)
    ensures AllDigits(Zeros(k) + d) && DigitsValue(Zeros(k) + d) == DigitsValue(d)
  {
    if d != [] {
      var init := d[..|d| - 1];
      LeadingZeros(k, init);
      assert (Zeros(k) + d)[..|Zeros(k) + d| - 1] == Zeros(k) + init;
    } else {
      assert Zeros(k) + d == Zeros(k);
    }
  }

  /** n in decimal, zero-padded on the left to at least w digits. */
  function Pad(n: nat, w: nat): (s: string)
    ensures AllDigits(s) && DigitsValue(s) == n && |s| >= w
  {
    var d := Decimal(n);
    if |d| < w then LeadingZeros(w - |d|, d); Zeros(w - |d|) + d else d
  }

  /** The specifiers of MySQL's DATE_FORMAT the summaries use: %Y the year
      in four digits, %m the month and %d the day in two; any other
      character c after % stands for c itself. */
  function Specifier(c: char, t: DateTime): string
  {
    if c == 'Y' then Pad(t.year, 4)
    else if c == 'm' then Pad(t.month, 2)
    else if c == 'd' then Pad(t.day, 2)
    else [c]
  }

  /** DATE_FORMAT(t, f): a walk over the format in which "%c" is replaced
      by what the specifier c renders and any other character is copied. */
  function DateFormat(f: string, t: DateTime): (r: string)
    ensures '%' !in f ==> r == f
  {
    if f == [] then []
    else if f[0] == '%' && |f| >= 2 then Specifier(f[1], t) + DateFormat(f[2..], t)
    else [f[0]] + DateFormat(f[1..], t)
  }

  /** One "%c" step of the walk. */
  lemma FormatSpecifier(c: char, rest: string, t: DateTime)
    ensures DateFormat(['%', c] + rest, t) == Specifier(c, t) + DateFormat(rest, t)
  {
    assert (['%', c] + rest)[2..] == rest;
  }

  /** One copied character of the walk. */
  lemma FormatChar(c: char, rest: string, t: DateTime)
    requires c != '%'
    ensures DateFormat([c] + rest, t) == [c] + DateFormat(rest, t)
  {
    assert ([c] + rest)[1..] == rest;
  }

  /** A format without '%' is copied as it is. */
  lemma {:induction false} FormatPlain(f: string, t: DateTime)
    requires '%' !in f
    ensures DateFormat(f, t) == f
  {
    if f != [] {
      assert f[0] in f;
      assert f[1..] == f[1..] && forall i :: 0 <= i < |f[1..]| ==> f[1..][i] == f[i + 1];
      FormatPlain(f[1..], t);
    }
  }

  /** The formats split into their "%c" and copied pieces. */
  lemma FormatPieces()
    ensures YEAR_FORMAT == ['%', 'Y'] + []
    ensures MONTH_FORMAT == ['%', 'Y'] + (['-'] + (['%', 'm'] + []))
    ensures DAY_FORMAT == ['%', 'Y'] + (['-'] + (['%', 'm'] + (['-'] + (['%', 'd'] + []))))
  {
  }

  /** Regrouping of dash-joined pieces. */
  lemma DashRegroup(a: string, b: string, c: string)
    ensures a + (['-'] + b) == a + "-" + b
    ensures a + (['-'] + (b + (['-'] + c))) == a + "-" + b + "-" + c
  {
  }

  /** The year key "YYYY". */
  lemma YearKey(t: DateTime)
    ensures DateFormat(YEAR_FORMAT, t) == Pad(t.year, 4)
  {
    FormatPieces();
    FormatSpecifier('Y', [], t);
  }

  /** The month key "YYYY-MM". */
  lemma MonthKey(t: DateTime)
    ensures DateFormat(MONTH_FORMAT, t) == Pad(t.year, 4) + "-" + Pad(t.month, 2)
  {
    var y, m := Pad(t.year, 4), Pad(t.month, 2);
    var pm := ['%', 'm'] + [];
    FormatPieces();
    FormatSpecifier('m', [], t);
    assert DateFormat(pm, t) == m;
    FormatChar('-', pm, t);
    FormatSpecifier('Y', ['-'] + pm, t);
    assert DateFormat(MONTH_FORMAT, t) == y + (['-'] + m);
    DashRegroup(y, m, []);
  }

  /** The day key "YYYY-MM-DD". */
  lemma DayKey(t: DateTime)
    ensures DateFormat(DAY_FORMAT, t) == Pad(t.year, 4) + "-" + Pad(t.month, 2) + "-" + Pad(t.day, 2)
  {
    var y, m, dd := Pad(t.year, 4), Pad(t.month, 2), Pad(t.day, 2);
    var pd := ['%', 'd'] + [];
    var pm := ['%', 'm'] + (['-'] + pd);
    FormatPieces();
    FormatSpecifier('d', [], t);
    assert DateFormat(pd, t) == dd;
    FormatChar('-', pd, t);
    FormatSpecifier('m', ['-'] + pd, t);
    assert DateFormat(pm, t) == m + (['-'] + dd);
    FormatChar('-', pm, t);
    FormatSpecifier('Y', ['-'] + pm, t);
    assert DateFormat(DAY_FORMAT, t) == y + (['-'] + (m + (['-'] + dd)));
    DashRegroup(y, m, dd);
  }

  /** The period key as a transaction's group key. */
  function PeriodOf(groupBy: string): Transaction -> Option<string>
  {
    (t: Transaction) => Some(DateFormat(TimeFormat(groupBy), t.time))
  }

  /** A digit string holds no '-'. */
  lemma NoDash(s: string)
    requires AllDigits(s)
    ensures '-' !in s
  {
  }

  /** Zero-padding keeps numbers apart. */
  lemma PadInjective(x: nat, y: nat, w: nat)
    ensures Pad(x, w) == Pad(y, w) <==> x == y
  {
  }

  /** Digit strings joined by '-' can be told apart piece by piece. */
  lemma DashJoin2(a: string, b: string, c: string, d: string)
    requires AllDigits(a) && AllDigits(b) && AllDigits(c) && AllDigits(d)
    ensures a + "-" + b == c + "-" + d <==> a == c && b == d
  {
    NoDash(a); NoDash(b); NoDash(c); NoDash(d);
    SplitNoSeparator(a, '-'); SplitNoSeparator(b, '-');
    SplitNoSeparator(c, '-'); SplitNoSeparator(d, '-');
    SplitAround(a, b, '-');
    SplitAround(c, d, '-');
    assert a + "-" + b == a + ['-'] + b;
    assert c + "-" + d == c + ['-'] + d;
    assert Split(a + ['-'] + b, '-') == [a] + [b] == [a, b];
    assert Split(c + ['-'] + d, '-') == [c] + [d] == [c, d];
    if a + "-" + b == c + "-" + d {
      assert [a, b] == [c, d];
      assert [a, b][0] == a && [a, b][1] == b;
    }
  }

  lemma DashJoin3(a: string, b: string, c: string, d: string, e: string, f: string)
    requires AllDigits(a) && AllDigits(b) && AllDigits(c) && AllDigits(d) && AllDigits(e) && AllDigits(f)
    ensures a + "-" + b + "-" + c == d + "-" + e + "-" + f <==> a == d && b == e && c == f
  {
    NoDash(a); NoDash(b); NoDash(c); NoDash(d); NoDash(e); NoDash(f);
    SplitNoSeparator(a, '-'); SplitNoSeparator(b, '-'); SplitNoSeparator(c, '-');
    SplitNoSeparator(d, '-'); SplitNoSeparator(e, '-'); SplitNoSeparator(f, '-');
    SplitAround(a, b, '-');
    SplitAround(d, e, '-');
    SplitAround(a + ['-'] + b, c, '-');
    SplitAround(d + ['-'] + e, f, '-');
    assert a + "-" + b + "-" + c == (a + ['-'] + b) + ['-'] + c;
    assert d + "-" + e + "-" + f == (d + ['-'] + e) + ['-'] + f;
    assert Split((a + ['-'] + b) + ['-'] + c, '-') == [a] + [b] + [c] == [a, b, c];
    assert Split((d + ['-'] + e) + ['-'] + f, '-') == [d] + [e] + [f] == [d, e, f];
    if a + "-" + b + "-" + c == d + "-" + e + "-" + f {
      assert [a, b, c] == [d, e, f];
      assert [a, b, c][0] == a && [a, b, c][1] == b && [a, b, c][2] == c;
    }
  }

  /** Two transactions fall in the same period exactly when they agree on
      the year, and on the month and the day as far as groupBy goes. */
  lemma SamePeriodIff(groupBy: string, t: DateTime, u: DateTime)
    ensures (DateFormat(TimeFormat(groupBy), t) == DateFormat(TimeFormat(groupBy), u)) <==>
      && t.year == u.year
      && (groupBy != "year" ==> t.month == u.month)
      && (groupBy == "day" ==> t.day == u.day)
  {
    DayKey(t); MonthKey(t); YearKey(t);
    DayKey(u); MonthKey(u); YearKey(u);
    PadInjective(t.year, u.year, 4);
    PadInjective(t.month, u.month, 2);
    PadInjective(t.day, u.day, 2);
    if groupBy == "day" {
      DashJoin3(Pad(t.year, 4), Pad(t.month, 2), Pad(t.day, 2), Pad(u.year, 4), Pad(u.month, 2), Pad(u.day, 2));
    } else if groupBy != "year" {
      DashJoin2(Pad(t.year, 4), Pad(t.month, 2), Pad(u.year, 4), Pad(u.month, 2));
    }
  }

  /** GetTransactionSummaryByTime with the format the query is meant to
      use: the family's valid transactions inside the window, of both
      types, summed by period. */
  method SummaryByTime(txs: seq<Transaction>, familyId: Id, start: DateTime, end: DateTime, groupBy: string)
    returns (summary: map<string, int>)
    ensures forall p :: p in summary <==>
      exists t :: t in txs && InWindow(t, familyId, start, end) && DateFormat(TimeFormat(groupBy), t.time) == p
    ensures forall p :: p in summary ==>
      summary[p] == SumWhere(Filter(txs, ByTimeRows(familyId, start, end)), PeriodOf(groupBy), Some(p))
  {
    var keep := ByTimeRows(familyId, start, end);
    var rows := Groups(Filter(txs, keep), PeriodOf(groupBy));
    summary := ScanRows(rows);
    SummaryOfSelected(txs, keep, PeriodOf(groupBy));
    forall p ensures (exists t :: t in txs && keep(t) && PeriodOf(groupBy)(t) == Some(p)) <==>
      exists t :: t in txs && InWindow(t, familyId, start, end) && DateFormat(TimeFormat(groupBy), t.time) == p
    {
    }
  }

  /** The rows the by-time summary selects: no condition on the type, so
      income and expense are summed together. */
  function ByTimeRows(familyId: Id, start: DateTime, end: DateTime): Transaction -> bool
  {
    (t: Transaction) => InWindow(t, familyId, start, end)
  }

  // ---------------------------------------------------------------------
  // The SELECT clause of the by-time query

  /** A format for Go's fmt.Sprintf, cut into literal text and %s verbs. */
  datatype Piece = Text(text: string) | VerbS

  /** fmt.Sprintf: literal text is copied, each %s takes the next operand,
      and a %s without one prints "%!s(MISSING)". */
  function Sprintf(f: seq<Piece>, operands: seq<string>): (r: string)
    ensures Verbs(f) == 0 ==> r == Literal(f)
    ensures |r| >= |Literal(f)|
  {
    if f == [] then []
    else match f[0]
      case Text(s) => s + Sprintf(f[1..], operands)
      case VerbS =>
        if operands == [] then "%!s(MISSING)" + Sprintf(f[1..], [])
        else operands[0] + Sprintf(f[1..], operands[1..])
  }

  /** The number of %s verbs in a format. */
  function Verbs(f: seq<Piece>): nat
  {
    if f == [] then 0 else (if f[0].VerbS? then 1 else 0) + Verbs(f[1..])
  }

  /** The literal text of a format, without its verbs. */
  function Literal(f: seq<Piece>): string
  {
    if f == [] then [] else (if f[0].Text? then f[0].text else []) + Literal(f[1..])
  }

  /** Sprintf on a template with one %s between two texts. */
  lemma SprintfOneVerb(head: string, tail: string, operands: seq<string>)
    ensures Sprintf([Text(head), VerbS, Text(tail)], operands)
      == head + (if operands == [] then "%!s(MISSING)" else operands[0]) + tail
  {
    var f := [Text(head), VerbS, Text(tail)];
    assert f[1..] == [VerbS, Text(tail)] && f[1..][1..] == [Text(tail)] && f[1..][1..][1..] == [];
    var rest := if operands == [] then [] else operands[1..];
    assert Sprintf([Text(tail)], rest) == tail + Sprintf([], rest);
  }

  const SELECT_HEAD: string := "DATE_FORMAT(transaction_time, '"
  const SELECT_TAIL: string := "') as time_period, SUM(amount)"

  /** The template of the by-time SELECT clause: the DATE_FORMAT call with
      a %s where the format goes. */
  const TIME_SELECT: seq<Piece> := [Text(SELECT_HEAD), VerbS, Text(SELECT_TAIL)]

  /** The SELECT text model/transaction.go:192 builds: the template is given
      to Sprintf without an operand, and the format is passed on as an
      extra argument of Select instead. */
  function TimeSelectAsWritten(groupBy: string): string
  {
    Sprintf(TIME_SELECT, [])
  }

  /** The SELECT text with the format filled in. */
  function TimeSelect(groupBy: string): string
  {
    Sprintf(TIME_SELECT, [TimeFormat(groupBy)])
  }

  /** The format DATE_FORMAT receives as written. */
  const MISSING_FORMAT: string := "%!s(MISSING)"

  /** As written, the SELECT text is the same for every groupBy and holds
      no date format ... */
  lemma TimeSelectAsWrittenIgnoresGroupBy(groupBy: string)
    ensures TimeSelectAsWritten(groupBy) == SELECT_HEAD + MISSING_FORMAT + SELECT_TAIL
    ensures TimeSelectAsWritten("day") == TimeSelectAsWritten("year")
  {
    SprintfOneVerb(SELECT_HEAD, SELECT_TAIL, []);
  }

  /** The format as written split after its "%!". */
  lemma MissingPieces()
    ensures MISSING_FORMAT == ['%', '!'] + "s(MISSING)"
    ensures '%' !in "s(MISSING)"
    ensures ['!'] + "s(MISSING)" == "!s(MISSING)"
  {
  }

  /** ... and DATE_FORMAT reads "%!" as "!", so if the statement runs as
      built, every transaction falls in the one period "!s(MISSING)",
      whatever its time. */
  lemma MissingFormatOnePeriod(t: DateTime)
    ensures DateFormat(MISSING_FORMAT, t) == "!s(MISSING)"
  {
    var rest := "s(MISSING)";
    MissingPieces();
    FormatSpecifier('!', rest, t);
    FormatPlain(rest, t);
    assert Specifier('!', t) == ['!'];
  }

  /** x is recovered from h + x + t. */
  lemma MiddleInjective(h: string, x: string, y: string, t: string)
    requires h + x + t == h + y + t
    ensures x == y
  {
    assert |x| == |y|;
    assert x == (h + x + t)[|h|..|h| + |x|];
    assert y == (h + y + t)[|h|..|h| + |y|];
  }

  /** With the operand supplied, the SELECT text carries the format the
      groupBy asks for, so different granularities give different queries. */
  lemma TimeSelectCarriesFormat(groupBy: string, other: string)
    ensures TimeSelect(groupBy) == SELECT_HEAD + TimeFormat(groupBy) + SELECT_TAIL
    ensures TimeFormat(groupBy) != TimeFormat(other) ==> TimeSelect(groupBy) != TimeSelect(other)
  {
    SprintfOneVerb(SELECT_HEAD, SELECT_TAIL, [TimeFormat(groupBy)]);
    SprintfOneVerb(SELECT_HEAD, SELECT_TAIL, [TimeFormat(other)]);
    if TimeSelect(groupBy) == TimeSelect(other) {
      MiddleInjective(SELECT_HEAD, TimeFormat(groupBy), TimeFormat(other), SELECT_TAIL);
    }
  }
}
