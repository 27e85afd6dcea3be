/** The category service (service/category.go): validation, name
    uniqueness among siblings, creation with level and path, updates that
    re-parent a category without creating a cycle, soft deletion of
    childless categories, the read operations and the breadcrumb. Each
    operation that writes is a method over the Store, proved equal to an
    outcome function of the state before the call; the properties the
    service promises are lemmas about those functions. */
module Categories {

  import opened Wrappers
  import opened Domain
  import opened Text
  import opened Seqs
  import opened Hierarchy
  import opened Store
  import opened CategoryPaths
  import opened CategoryTree

  // ---------------------------------------------------------------------
  // Validation

  predicate IsValidCategoryType(t: string)
  {
    t == INCOME || t == EXPENSE
  }

  /** validateCategory: a name that is not blank and fits 100 bytes, and a
      known type, checked in that order. */
  function ValidateCategory(c: Category): (v: Verdict)
    ensures v == Pass <==> !AllCut(c.name, IsSpace) && ByteLen(c.name) <= 100 && IsValidCategoryType(c.categoryType)
    ensures AllCut(c.name, IsSpace) ==> v == Fail(BlankName)
    ensures !AllCut(c.name, IsSpace) && ByteLen(c.name) > 100 ==> v == Fail(NameTooLong)
    ensures v.Fail? ==> v.fault == BlankName || v.fault == NameTooLong || v.fault == BadCategoryType
  {
    BlankIffAllSpace(c.name);
    if TrimSpace(c.name) == [] then Fail(BlankName)
    else if ByteLen(c.name) > 100 then Fail(NameTooLong)
    else if !IsValidCategoryType(c.categoryType) then Fail(BadCategoryType)
    else Pass
  }

  // ---------------------------------------------------------------------
  // Name uniqueness

  /** The parent references are the same: both nil, or both set to the same
      id (so nil and 0 differ). */
  predicate SameParent(a: Option<Id>, b: Option<Id>)
  {
    (a.None? && b.None?) || (a.Some? && b.Some? && a.value == b.value)
  }

  /** Row c makes the name taken for a category with this type and parent,
      other than excludeId. */
  predicate Clashes(c: Category, name: string, categoryType: string, parentId: Option<Id>, excludeId: Id)
  {
    c.id != excludeId && !c.isDeleted && c.categoryType == categoryType
    && EqualFold(c.name, name) && SameParent(parentId, c.parentId)
  }

  /** Some stored row clashes. */
  ghost predicate NameInUse(cats: map<Id, Category>, name: string, categoryType: string, parentId: Option<Id>, excludeId: Id)
  {
    exists id :: id in cats && Clashes(cats[id], name, categoryType, parentId, excludeId)
  }

  /** categoryNameExists: a scan of every category row. */
  method CategoryNameExists(store: Store, name: string, categoryType: string, parentId: Option<Id>, excludeId: Id)
    returns (taken: bool)
    requires store.Valid()
    ensures taken <==> NameInUse(store.categories, name, categoryType, parentId, excludeId)
  {
    var rows := store.AllCategories();
    var clash := (c: Category) => Clashes(c, name, categoryType, parentId, excludeId);
    taken := Any(rows, clash);
    ghost var plain := Rows(store.categories, store.nextCategory);
    RowsAny(store.categories, store.nextCategory, clash);
    AttachedRowsClash(store, name, categoryType, parentId, excludeId);
    assert forall i :: 0 <= i < |rows| ==> clash(rows[i]) == clash(plain[i]);
  }

  /** Attaching children does not change whether a row clashes. */
  lemma AttachedRowsClash(store: Store, name: string, categoryType: string, parentId: Option<Id>, excludeId: Id)
    ensures |store.AllCategories()| == |Rows(store.categories, store.nextCategory)|
    ensures forall i :: 0 <= i < |store.AllCategories()| ==>
      Clashes(store.AllCategories()[i], name, categoryType, parentId, excludeId)
        == Clashes(Rows(store.categories, store.nextCategory)[i], name, categoryType, parentId, excludeId)
  {
  }

  /** The check ignores case (ASCII letters) and is symmetric in the two
      names. */
  lemma ClashIgnoresCase(c: Category, name: string, other: string, categoryType: string, parentId: Option<Id>, excludeId: Id)
    requires EqualFold(name, other)
    ensures Clashes(c, name, categoryType, parentId, excludeId) <==> Clashes(c, other, categoryType, parentId, excludeId)
  {
    EqualFoldEquivalence(c.name, name, other);
    EqualFoldEquivalence(c.name, other, name);
    EqualFoldEquivalence(name, other, c.name);
  }

  // ---------------------------------------------------------------------
  // Lookups

  /** CategoryExists: false for id 0; the DAO's error for a missing row;
      otherwise whether the row is live. */
  function CategoryExists(store: Store, id: Id): (r: Result<bool>)
    reads store
    ensures r == Ok(true) <==> id != 0 && id in store.categories && !store.categories[id].isDeleted
    ensures r.Err? <==> id != 0 && id !in store.categories
    ensures r.Err? ==> r.error == StoreError(CategoryTable)
  {
    if id == 0 then Ok(false)
    else match store.CategoryById(id)
      case Err(e) => Err(e)
      case Ok(c) => Ok(!c.isDeleted)
  }

  /** GetCategoryByID: a live category with its children attached. */
  function GetCategoryByID(store: Store, id: Id): (r: Result<Category>)
    reads store
    ensures r.Ok? <==> id != 0 && id in store.categories && !store.categories[id].isDeleted
    ensures r.Ok? ==> Shell(r.value) == store.categories[id].(children := []) && r.value.children == store.ChildrenOf(id)
    ensures id == 0 ==> r == Err(Validation(InvalidId))
    ensures id != 0 && id !in store.categories ==> r == Err(StoreError(CategoryTable))
    ensures id != 0 && id in store.categories && store.categories[id].isDeleted ==> r == Err(NotFound(CategoryTable))
  {
    if id == 0 then Err(Validation(InvalidId))
    else match store.CategoryById(id)
      case Err(e) => Err(e)
      case Ok(c) => if c.isDeleted then Err(NotFound(CategoryTable)) else Ok(c)
  }

  predicate Live(c: Category)
  {
    !c.isDeleted
  }

  /** GetCategoriesByType: the DAO's live rows of that type, filtered once
      more for deletion, which removes nothing. */
  method GetCategoriesByType(store: Store, categoryType: string) returns (r: Result<seq<Category>>)
    ensures !IsValidCategoryType(categoryType) ==> r == Err(Validation(BadCategoryType))
    ensures IsValidCategoryType(categoryType) ==> r == Ok(store.CategoriesOfType(categoryType))
  {
    if !IsValidCategoryType(categoryType) {
      return Err(Validation(BadCategoryType));
    }
    var rows := store.CategoriesOfType(categoryType);
    var live := Keep(rows, Live);
    FilterAll(rows, Live);
    return Ok(live);
  }

  /** The rows of one type the DAO lists are exactly the live rows of that
      type, each with its live children. */
  lemma CategoriesOfTypeRows(store: Store, categoryType: string)
    requires store.Valid()
    ensures forall i :: 0 <= i < |store.CategoriesOfType(categoryType)| ==>
      var c := store.CategoriesOfType(categoryType)[i];
      && c.categoryType == categoryType && !c.isDeleted && c.id in store.categories
      && c == store.categories[c.id].(children := store.LiveChildrenOf(c.id))
    ensures forall id :: id in store.categories && store.categories[id].categoryType == categoryType && !store.categories[id].isDeleted ==>
      exists i :: 0 <= i < |store.CategoriesOfType(categoryType)| && store.CategoriesOfType(categoryType)[i].id == id
  {
    var keep := (c: Category) => c.categoryType == categoryType && !c.isDeleted;
    var rows := Filter(Rows(store.categories, store.nextCategory), keep);
    var listed := store.CategoriesOfType(categoryType);
    assert |listed| == |rows|;
    forall i | 0 <= i < |listed|
      ensures listed[i].categoryType == categoryType && !listed[i].isDeleted && listed[i].id in store.categories
      ensures listed[i] == store.categories[listed[i].id].(children := store.LiveChildrenOf(listed[i].id))
    {
      assert rows[i] in Rows(store.categories, store.nextCategory) && keep(rows[i]);
      var id :| id in store.categories && store.categories[id] == rows[i];
    }
    forall id | id in store.categories && store.categories[id].categoryType == categoryType && !store.categories[id].isDeleted
      ensures exists i :: 0 <= i < |listed| && listed[i].id == id
    {
      var all := Rows(store.categories, store.nextCategory);
      var j :| 0 <= j < |all| && all[j] == store.categories[id];
      assert keep(all[j]);
      var i :| 0 <= i < |rows| && rows[i] == all[j];
      assert listed[i].id == id;
    }
  }

  /** GetCategoryTreeByType: the live rows of that type, as the tree
      buildCategoryTree makes of them. */
  method GetCategoryTreeByType(store: Store, categoryType: string) returns (r: Result<seq<Category>>)
    ensures !IsValidCategoryType(categoryType) ==> r == Err(Validation(BadCategoryType))
    ensures IsValidCategoryType(categoryType) ==>
      var rows := store.CategoriesOfType(categoryType);
      r == Ok(Roots(rows, |rows|))
  {
    if !IsValidCategoryType(categoryType) {
      return Err(Validation(BadCategoryType));
    }
    var rows := store.CategoriesOfType(categoryType);
    var slice := new Category[|rows|](i requires 0 <= i < |rows| => rows[i]);
    assert slice[..] == rows;
    var roots := BuildCategoryTree(slice);
    return Ok(roots);
  }

  /** GetCategoriesByParentID: checks a non-zero parent, then lists the live
      rows whose parent_id equals the given id. */
  method GetCategoriesByParentID(store: Store, parentId: Id) returns (r: Result<seq<Category>>)
    ensures parentId != 0 && parentId !in store.categories ==> r == Err(StoreError(CategoryTable))
    ensures parentId != 0 && parentId in store.categories && store.categories[parentId].isDeleted ==>
      r == Err(NotFound(ParentCategory))
    ensures (parentId == 0 || (parentId in store.categories && !store.categories[parentId].isDeleted)) ==>
      r == Ok(store.LiveChildrenOf(parentId))
  {
    if parentId != 0 {
      var parent := store.CategoryById(parentId);
      if parent.Err? {
        return Err(parent.error);
      }
      if parent.value.isDeleted {
        return Err(NotFound(ParentCategory));
      }
    }
    var rows := store.LiveChildrenOf(parentId);
    var live := Keep(rows, Live);
    FilterAll(rows, Live);
    return Ok(live);
  }

  /** Listing the children of 0 matches parent_id = 0 only: the roots stored
      with a nil parent are not among them. */
  lemma NilParentsNotChildrenOfZero(store: Store)
    ensures forall i :: 0 <= i < |store.LiveChildrenOf(0)| ==> store.LiveChildrenOf(0)[i].parentId == Some(0)
  {
  }

  /** GetAllCategories: every live row with all its children attached. */
  method GetAllCategories(store: Store) returns (r: seq<Category>)
    ensures r == Filter(store.AllCategories(), Live)
  {
    var rows := store.AllCategories();
    r := Keep(rows, Live);
  }

  /** GetAllCategories lists each live row once, in id order, and no
      deleted row. */
  lemma AllCategoriesLive(store: Store)
    requires store.Valid()
    ensures forall i :: 0 <= i < |Filter(store.AllCategories(), Live)| ==>
      var c := Filter(store.AllCategories(), Live)[i];
      !c.isDeleted && c.id in store.categories && Shell(c) == store.categories[c.id]
    ensures forall id :: id in store.categories && !store.categories[id].isDeleted ==>
      exists i :: 0 <= i < |Filter(store.AllCategories(), Live)| && Filter(store.AllCategories(), Live)[i].id == id
  {
    var live := Filter(store.AllCategories(), Live);
    ListedAreLive(store, live);
    LiveAreListed(store, live);
  }

  lemma ListedAreLive(store: Store, live: seq<Category>)
    requires store.Valid() && live == Filter(store.AllCategories(), Live)
    ensures forall i :: 0 <= i < |live| ==>
      !live[i].isDeleted && live[i].id in store.categories && Shell(live[i]) == store.categories[live[i].id]
  {
    var all := store.AllCategories();
    var plain := Rows(store.categories, store.nextCategory);
    forall i | 0 <= i < |live|
      ensures !live[i].isDeleted && live[i].id in store.categories && Shell(live[i]) == store.categories[live[i].id]
    {
      var j :| 0 <= j < |all| && all[j] == live[i];
      assert plain[j] in plain;
      var id :| id in store.categories && store.categories[id] == plain[j];
    }
  }

  lemma LiveAreListed(store: Store, live: seq<Category>)
    requires store.Valid() && live == Filter(store.AllCategories(), Live)
    ensures forall id :: id in store.categories && !store.categories[id].isDeleted ==>
      exists i :: 0 <= i < |live| && live[i].id == id
  {
    var all := store.AllCategories();
    var plain := Rows(store.categories, store.nextCategory);
    forall id | id in store.categories && !store.categories[id].isDeleted
      ensures exists i :: 0 <= i < |live| && live[i].id == id
    {
      var j :| 0 <= j < |plain| && plain[j] == store.categories[id];
      assert Live(all[j]);
      var i :| 0 <= i < |live| && live[i] == all[j];
    }
  }


  // ---------------------------------------------------------------------
  // The cycle check and the breadcrumb, as the service's loops

  /** checkCircularDependency: walks up from parentId until the walk ends,
      failing if it meets categoryId. */
  method CheckCircularDependency(store: Store, categoryId: Id, parentId: Id) returns (r: Result<()>)
    requires store.Valid()
    ensures r == CircularCheck(store.categories, categoryId, parentId)
  {
    ghost var cats := store.categories;
    if categoryId == parentId {
      return Err(Conflict(SelfParent));
    }
    ghost var n := WalkEnds(cats, parentId);
    WalkAnyFuel(cats, parentId, categoryId, n);
    var cur := parentId;
    ghost var fuel := n;
    while cur != 0
      invariant EndsWithin(cats, cur, fuel)
      invariant Walk(cats, parentId, categoryId, n) == Walk(cats, cur, categoryId, fuel)
      decreases fuel
    {
      var row := store.CategoryById(cur);
      if row.Err? {
        return Err(StoreError(CategoryTable));
      }
      if row.value.isDeleted {
        break;
      }
      if row.value.id == categoryId {
        return Err(Conflict(Cycle));
      }
      if row.value.parentId.None? {
        break;
      }
      cur := row.value.parentId.value;
      fuel := fuel - 1;
    }
    return Ok(());
  }

  /** GetFullCategoryPath: the names of the live categories on the path,
      joined by " > ". */
  method GetFullCategoryPath(store: Store, id: Id) returns (r: Result<string>)
    ensures r == FullPath(store.categories, id)
  {
    if id == 0 {
      return Err(Validation(InvalidId));
    }
    var category := store.CategoryById(id);
    if category.Err? {
      return Err(StoreError(CategoryTable));
    }
    if category.value.isDeleted {
      return Err(NotFound(CategoryTable));
    }
    ghost var cats := store.categories;
    var pieces := Split(Trim(category.value.path, IsSlash), '/');
    assert pieces == Pieces(cats[id].path);
    var names: seq<string> := [];
    assert pieces[0..] == pieces;
    match PathNames(cats, pieces) {
      case Ok(more) => assert [] + more == more;
      case Err(_) =>
    }
    for i := 0 to |pieces|
      invariant PathNames(cats, pieces) == Then(names, PathNames(cats, pieces[i..]))
    {
      assert pieces[i..][0] == pieces[i] && pieces[i..][1..] == pieces[i + 1..];
      if pieces[i] == [] {
        continue;
      }
      var n := ParseUint32(pieces[i]);
      if n.None? {
        return Err(Validation(BadPathSegment));
      }
      var row := store.CategoryById(n.value);
      if row.Err? {
        return Err(StoreError(CategoryTable));
      }
      var own: seq<string> := if row.value.isDeleted then [] else [row.value.name];
      ThenThen(names, own, PathNames(cats, pieces[i + 1..]));
      names := names + own;
    }
    assert names + [] == names;
    return Ok(Join(names, " > "));
  }

  // ---------------------------------------------------------------------
  // CreateCategory

  /** Only the category table and its counter may differ from the state
      before the call. */
  twostate predicate OnlyCategoriesChanged(store: Store)
    reads store
  {
    && store.families == old(store.families) && store.members == old(store.members)
    && store.tags == old(store.tags) && store.transactions == old(store.transactions)
    && store.links == old(store.links)
    && store.nextFamily == old(store.nextFamily) && store.nextMember == old(store.nextMember)
    && store.nextTag == old(store.nextTag) && store.nextTransaction == old(store.nextTransaction)
  }

  /** Inserting a childless row under the next id, with a parent that is
      absent, 0 or stored, keeps the table sound. */
  lemma SoundAfterInsert(cats: map<Id, Category>, next: Id, row: Category)
    requires CategoriesSound(cats, next)
    requires row.id == next && row.children == []
    requires row.parentId.Some? ==> row.parentId.value == 0 || row.parentId.value in cats
    ensures CategoriesSound(cats[next := row], next + 1)
  {
    AcyclicAfterInsert(cats, next, row);
  }

  /** Overwriting a stored row with a childless row whose parent is absent,
      0 or stored keeps the table sound, provided the links stay acyclic. */
  lemma SoundAfterOverwrite(cats: map<Id, Category>, next: Id, row: Category)
    requires CategoriesSound(cats, next)
    requires row.id in cats && row.children == []
    requires row.parentId.Some? ==> row.parentId.value == 0 || row.parentId.value in cats
    requires Acyclic(cats[row.id := row])
    ensures CategoriesSound(cats[row.id := row], next)
  {
  }

  /** The parent a category names, unless it is a root (nil or 0). */
  function ParentOf(c: Category): Option<Id>
  {
    if c.parentId.Some? && c.parentId.value != 0 then c.parentId else None
  }

  /** What CreateCategory makes of c when the table is cats and the next id
      is next: the row it stores, or the first check that fails. */
  ghost function CreateOutcome(cats: map<Id, Category>, next: Id, c: Category): Result<Category>
  {
    match ValidateCategory(c)
    case Fail(f) => Err(Validation(f))
    case Pass =>
      if NameInUse(cats, c.name, c.categoryType, c.parentId, 0) then Err(Conflict(NameTaken))
      else match ParentOf(c)
        case None => Ok(c.(id := next, level := 1, path := CreatedPathAsWritten(None, next), isDeleted := false))
        case Some(p) =>
          if p !in cats then Err(StoreError(CategoryTable))
          else if cats[p].categoryType != c.categoryType then Err(Conflict(ParentTypeMismatch))
          else if cats[p].isDeleted then Err(NotFound(ParentCategory))
          else Ok(c.(id := next, level := Int8(cats[p].level + 1), path := CreatedPathAsWritten(Some(cats[p]), next), isDeleted := false))
  }

  /** The checks CreateCategory makes before it writes, and the row they
      prepare: the level and the path before the row's own id. */
  method PrepareCategory(store: Store, c: Category) returns (r: Result<Category>)
    requires store.Valid()
    ensures r.Err? ==> r == CreateOutcome(store.categories, store.nextCategory, c)
    ensures r.Ok? ==>
      CreateOutcome(store.categories, store.nextCategory, c)
        == Ok(r.value.(id := store.nextCategory, path := Extend(r.value.path, store.nextCategory)))
    ensures r.Ok? ==> !r.value.isDeleted && r.value.parentId == c.parentId
    ensures r.Ok? && ParentOf(c).Some? ==> ParentOf(c).value in store.categories
  {
    var v := ValidateCategory(c);
    if v.Fail? {
      return Err(Validation(v.fault));
    }
    var taken := CategoryNameExists(store, c.name, c.categoryType, c.parentId, 0);
    if taken {
      return Err(Conflict(NameTaken));
    }
    r := PrepareUnderParent(store, c);
  }

  /** The rest of PrepareCategory once the name is known to be free: the
      parent checks, then the level and the path prefix. */
  method PrepareUnderParent(store: Store, c: Category) returns (r: Result<Category>)
    requires ValidateCategory(c) == Pass
    requires !NameInUse(store.categories, c.name, c.categoryType, c.parentId, 0)
    ensures r.Err? ==> r == CreateOutcome(store.categories, store.nextCategory, c)
    ensures r.Ok? ==>
      CreateOutcome(store.categories, store.nextCategory, c)
        == Ok(r.value.(id := store.nextCategory, path := Extend(r.value.path, store.nextCategory)))
    ensures r.Ok? ==> !r.value.isDeleted && r.value.parentId == c.parentId
    ensures r.Ok? && ParentOf(c).Some? ==> ParentOf(c).value in store.categories
  {
    var parent := LookupParent(store, c);
    if parent.Err? {
      assert ParentOf(c).Some?;
      return Err(parent.error);
    }
    var level := if parent.value.None? then 1 else Int8(parent.value.value.level + 1);
    PreparedOutcome(store.categories, store.nextCategory, c, parent.value);
    return Ok(c.(isDeleted := false, level := level, path := PrefixAsWritten(parent.value)));
  }

  /** Once the checks pass, the created row takes its level and path prefix
      from the parent row LookupParent found. */
  lemma PreparedOutcome(cats: map<Id, Category>, next: Id, c: Category, parent: Option<Category>)
    requires ValidateCategory(c) == Pass && !NameInUse(cats, c.name, c.categoryType, c.parentId, 0)
    requires ParentOf(c).None? ==> parent == None
    requires ParentOf(c).Some? ==>
      var p := ParentOf(c).value;
      && p in cats && cats[p].categoryType == c.categoryType && !cats[p].isDeleted
      && parent.Some? && parent.value.id == cats[p].id
      && parent.value.path == cats[p].path && parent.value.level == cats[p].level
    ensures CreateOutcome(cats, next, c) == Ok(c.(id := next,
      level := if parent.None? then 1 else Int8(parent.value.level + 1),
      path := Extend(PrefixAsWritten(parent), next), isDeleted := false))
    ensures
      var level := if parent.None? then 1 else Int8(parent.value.level + 1);
      var prepared := c.(isDeleted := false, level := level, path := PrefixAsWritten(parent));
      CreateOutcome(cats, next, c) == Ok(prepared.(id := next, path := Extend(prepared.path, next)))
  {
    if ParentOf(c).Some? {
      var p := ParentOf(c).value;
      assert PrefixAsWritten(parent) == PrefixAsWritten(Some(cats[p]));
      CreatedUnderParent(cats, next, c);
    }
    var level := if parent.None? then 1 else Int8(parent.value.level + 1);
    var prepared := c.(isDeleted := false, level := level, path := PrefixAsWritten(parent));
    assert prepared.(id := next, path := Extend(prepared.path, next))
      == c.(id := next, level := level, path := Extend(PrefixAsWritten(parent), next), isDeleted := false);
  }

  /** The row CreateCategory stores under a parent that passes its checks. */
  lemma CreatedUnderParent(cats: map<Id, Category>, next: Id, c: Category)
    requires ValidateCategory(c) == Pass && !NameInUse(cats, c.name, c.categoryType, c.parentId, 0)
    requires ParentOf(c).Some? && ParentOf(c).value in cats
    requires cats[ParentOf(c).value].categoryType == c.categoryType && !cats[ParentOf(c).value].isDeleted
    ensures var p := ParentOf(c).value;
      CreateOutcome(cats, next, c) == Ok(c.(id := next, level := Int8(cats[p].level + 1),
        path := CreatedPathAsWritten(Some(cats[p]), next), isDeleted := false))
  {
    var p := ParentOf(c).value;
    // the parent checks of CreateOutcome, one by one
    assert !(p !in cats);
    assert !(cats[p].categoryType != c.categoryType);
    assert !cats[p].isDeleted;
  }

  /** The parent checks of CreateCategory: a named parent must be stored,
      of the same type and live. */
  method LookupParent(store: Store, c: Category) returns (r: Result<Option<Category>>)
    ensures ParentOf(c).None? ==> r == Ok(None)
    ensures ParentOf(c).Some? ==>
      var p := ParentOf(c).value;
      r == if p !in store.categories then Err(StoreError(CategoryTable))
        else if store.categories[p].categoryType != c.categoryType then Err(Conflict(ParentTypeMismatch))
        else if store.categories[p].isDeleted then Err(NotFound(ParentCategory))
        else Ok(Some(store.categories[p].(children := store.ChildrenOf(p))))
  {
    if c.parentId.None? || c.parentId.value == 0 {
      return Ok(None);
    }
    var found := store.CategoryById(c.parentId.value);
    if found.Err? {
      return Err(StoreError(CategoryTable));
    }
    var p := found.value;
    if p.categoryType != c.categoryType {
      return Err(Conflict(ParentTypeMismatch));
    }
    if p.isDeleted {
      return Err(NotFound(ParentCategory));
    }
    return Ok(Some(p));
  }

  /** The two writes of CreateCategory: the insert, which assigns the id,
      then the save of the path completed with that id. */
  method InsertCategory(store: Store, row: Category) returns (saved: Category)
    requires store.Valid()
    requires row.parentId.Some? ==> row.parentId.value == 0 || row.parentId.value in store.categories
    modifies store
    ensures store.Valid()
    ensures saved == row.(id := old(store.nextCategory), path := Extend(row.path, old(store.nextCategory)))
    ensures store.categories == old(store.categories)[saved.id := saved.(children := [])]
    ensures store.nextCategory == old(store.nextCategory) + 1
    ensures OnlyCategoriesChanged(store)
  {
    ghost var cats := store.categories;
    var stored := store.CreateCategory(row);
    saved := row.(id := stored.id, path := Extend(row.path, stored.id));
    store.SaveCategory(saved);
    assert store.categories == cats[stored.id := saved.(children := [])];
    SoundAfterInsert(cats, stored.id, saved.(children := []));
  }

  /** CreateCategory: validates, refuses a name taken under the same parent,
      checks the parent, inserts the row, then stores its final path. */
  method CreateCategory(store: Store, c: Category) returns (r: Result<Category>)
    requires store.Valid()
    modifies store
    ensures store.Valid()
    ensures r == CreateOutcome(old(store.categories), old(store.nextCategory), c)
    ensures r.Ok? ==> store.categories == old(store.categories)[r.value.id := r.value.(children := [])]
    ensures r.Ok? ==> store.nextCategory == old(store.nextCategory) + 1
    ensures r.Err? ==> unchanged(store)
    ensures OnlyCategoriesChanged(store)
  {
    var prepared := PrepareCategory(store, c);
    if prepared.Err? {
      return prepared;
    }
    var row := InsertCategory(store, prepared.value);
    return Ok(row);
  }

  /** CreateCategory succeeds exactly when the input is valid, the name is
      free under its parent, and a named parent is stored, live and of the
      same type. */
  lemma CreateSucceedsIff(cats: map<Id, Category>, next: Id, c: Category)
    ensures CreateOutcome(cats, next, c).Ok? <==>
      && ValidateCategory(c) == Pass
      && !NameInUse(cats, c.name, c.categoryType, c.parentId, 0)
      && (ParentOf(c).Some? ==>
        var p := ParentOf(c).value;
        p in cats && cats[p].categoryType == c.categoryType && !cats[p].isDeleted)
  {
  }

  /** A created category is live, has the next id, keeps the given name,
      type and parent, and sits one level below its parent (wrapping as an
      int8). Its path is the parent's path, then the parent's own id, then
      its own id; a root is at level 1 with path "//id", which names only
      the root. */
  lemma CreatedRow(cats: map<Id, Category>, next: Id, c: Category)
    requires CreateOutcome(cats, next, c).Ok?
    ensures
      var row := CreateOutcome(cats, next, c).value;
      && row.id == next && !row.isDeleted
      && row.name == c.name && row.categoryType == c.categoryType && row.parentId == c.parentId
      && (ParentOf(c).None? ==>
        && row.level == 1 && row.path == "/" + RootPath(next)
        && Segments(row.path) == [Decimal(next)])
      && (ParentOf(c).Some? ==>
        var p := ParentOf(c).value;
        && p in cats && !cats[p].isDeleted && cats[p].categoryType == c.categoryType
        && row.level == Int8(cats[p].level + 1)
        && row.path == ChildPath(ChildPath(cats[p].path, cats[p].id), next)
        && Segments(row.path) == Segments(cats[p].path) + [Decimal(cats[p].id), Decimal(next)])
  {
    var row := CreateOutcome(cats, next, c).value;
    assert ValidateCategory(c) == Pass && !NameInUse(cats, c.name, c.categoryType, c.parentId, 0);
    match ParentOf(c)
    case None =>
      assert row == c.(id := next, level := 1, path := CreatedPathAsWritten(None, next), isDeleted := false);
      RootPathAsWritten(next);
    case Some(p) =>
      assert row == c.(id := next, level := Int8(cats[p].level + 1),
                       path := CreatedPathAsWritten(Some(cats[p]), next), isDeleted := false);
      ChildPathAsWritten(cats[p], next);
  }

  /** The breadcrumb of a created category: a root's is its name alone; a
      child's is its parent's breadcrumb followed by the parent's name
      again and then its own, because the stored path repeats the parent's
      id. A parent's breadcrumb already ends with its own name, so the
      parent is named twice. */
  lemma CreatedBreadcrumb(cats: map<Id, Category>, next: Id, c: Category, row: Category)
    requires Keyed(cats, next, (c: Category) => c.id) && next <= MAX_UINT32
    requires CreateOutcome(cats, next, c) == Ok(row)
    ensures ParentOf(c).None? ==>
      var cats': map<Id, Category> := cats[next := row.(children := [])];
      PathNames(cats', Segments(row.path)) == Ok([c.name])
    ensures ParentOf(c).Some? ==>
      var p := ParentOf(c).value;
      var cats': map<Id, Category> := cats[next := row.(children := [])];
      PathNames(cats', Segments(row.path)) == match PathNames(cats', Segments(cats[p].path))
        case Ok(names) => Ok(names + [cats[p].name, c.name])
        case Err(e) => Err(e)
  {
    if ParentOf(c).None? {
      CreatedRootBreadcrumb(cats, next, c, row);
    } else {
      CreatedChildBreadcrumb(cats, next, c, row);
    }
  }

  /** The root case of CreatedBreadcrumb. */
  lemma CreatedRootBreadcrumb(cats: map<Id, Category>, next: Id, c: Category, row: Category)
    requires next <= MAX_UINT32 && ParentOf(c).None?
    requires CreateOutcome(cats, next, c) == Ok(row)
    ensures PathNames(cats[next := row.(children := [])], Segments(row.path)) == Ok([c.name])
  {
    CreatedRow(cats, next, c);
    var cats': map<Id, Category> := cats[next := row.(children := [])];
    assert next in cats' && !cats'[next].isDeleted && cats'[next].name == c.name;
    RootBreadcrumb(cats', "/", next);
  }

  /** The child case of CreatedBreadcrumb. */
  lemma CreatedChildBreadcrumb(cats: map<Id, Category>, next: Id, c: Category, row: Category)
    requires Keyed(cats, next, (c: Category) => c.id) && next <= MAX_UINT32 && ParentOf(c).Some?
    requires CreateOutcome(cats, next, c) == Ok(row)
    ensures
      var p := ParentOf(c).value;
      var cats': map<Id, Category> := cats[next := row.(children := [])];
      PathNames(cats', Segments(row.path)) == match PathNames(cats', Segments(cats[p].path))
        case Ok(names) => Ok(names + [cats[p].name, c.name])
        case Err(e) => Err(e)
  {
    CreatedRow(cats, next, c);
    var cats': map<Id, Category> := cats[next := row.(children := [])];
    assert next in cats' && !cats'[next].isDeleted && cats'[next].name == c.name;
    var p := ParentOf(c).value;
    assert p in cats && cats[p].id == p && p < next;
    assert cats'[p] == cats[p];
    assert row.path == Extend(Extend(cats[p].path, p), next);
    BreadcrumbExtendsTwice(cats', cats[p].path, p, next);
  }

  /** Appending two live ids to a path appends both their names to its
      breadcrumb. */
  lemma BreadcrumbExtendsTwice(cats: map<Id, Category>, pp: string, p: Id, id: Id)
    requires p in cats && id in cats && p <= MAX_UINT32 && id <= MAX_UINT32
    requires !cats[p].isDeleted && !cats[id].isDeleted
    ensures PathNames(cats, Segments(Extend(Extend(pp, p), id))) == match PathNames(cats, Segments(pp))
      case Ok(names) => Ok(names + [cats[p].name, cats[id].name])
      case Err(e) => Err(e)
  {
    BreadcrumbExtends(cats, pp, p);
    BreadcrumbExtends(cats, Extend(pp, p), id);
    match PathNames(cats, Segments(pp))
    case Ok(names) =>
      assert names + [cats[p].name] + [cats[id].name] == names + [cats[p].name, cats[id].name];
    case Err(e) =>
  }

  // ---------------------------------------------------------------------
  // UpdateCategory

  /** What UpdateCategory makes of c: the row it saves, or the first check
      that fails. */
  ghost function UpdateOutcome(cats: map<Id, Category>, c: Category): Result<Category>
    requires Acyclic(cats)
  {
    if c.id == 0 then Err(Validation(InvalidId))
    else match ValidateCategory(c)
    case Fail(f) => Err(Validation(f))
    case Pass =>
      if c.id !in cats then Err(StoreError(CategoryTable))
      else if cats[c.id].isDeleted then Err(NotFound(CategoryTable))
      else if NameInUse(cats, c.name, c.categoryType, c.parentId, c.id) then Err(Conflict(NameTaken))
      else ReparentOutcome(cats, c)
  }

  /** The parent checks of UpdateCategory and the level and path they give
      the row. */
  ghost function ReparentOutcome(cats: map<Id, Category>, c: Category): Result<Category>
    requires Acyclic(cats)
  {
    match ParentOf(c)
    case None => Ok(c.(level := 1, path := RootPath(c.id)))
    case Some(p) =>
      if p !in cats then Err(StoreError(CategoryTable))
      else if cats[p].isDeleted then Err(NotFound(ParentCategory))
      else if cats[p].categoryType != c.categoryType then Err(Conflict(ParentTypeMismatch))
      else match CircularCheck(cats, c.id, p)
        case Err(e) => Err(e)
        case Ok(_) => Ok(c.(level := Int8(cats[p].level + 1), path := ChildPath(cats[p].path, c.id)))
  }

  /** The checks UpdateCategory makes before it writes, and the row they
      prepare. */
  method PrepareUpdate(store: Store, c: Category) returns (r: Result<Category>)
    requires store.Valid()
    ensures r == UpdateOutcome(store.categories, c)
    ensures r.Ok? ==> r.value.id == c.id && c.id in store.categories
    ensures r.Ok? && r.value.parentId.Some? ==>
      r.value.parentId.value == 0 || r.value.parentId.value in store.categories
    ensures r.Ok? ==> Acyclic(store.categories[c.id := r.value.(children := [])])
  {
    ghost var cats := store.categories;
    if c.id == 0 {
      return Err(Validation(InvalidId));
    }
    var v := ValidateCategory(c);
    if v.Fail? {
      return Err(Validation(v.fault));
    }
    var present := CategoryExists(store, c.id);
    if present.Err? {
      return Err(present.error);
    }
    if !present.value {
      return Err(NotFound(CategoryTable));
    }
    var taken := CategoryNameExists(store, c.name, c.categoryType, c.parentId, c.id);
    if taken {
      return Err(Conflict(NameTaken));
    }
    r := ReparentRow(store, c);
  }

  /** The parent checks of UpdateCategory and the level and path they give
      the row: a named parent must be stored, live, of the same type and
      not below the row itself. */
  method ReparentRow(store: Store, c: Category) returns (r: Result<Category>)
    requires store.Valid() && c.id != 0 && c.id in store.categories && !store.categories[c.id].isDeleted
    ensures r == ReparentOutcome(store.categories, c)
    ensures r.Ok? ==> r.value.id == c.id
    ensures r.Ok? && r.value.parentId.Some? ==>
      r.value.parentId.value == 0 || r.value.parentId.value in store.categories
    ensures r.Ok? ==> Acyclic(store.categories[c.id := r.value.(children := [])])
  {
    ghost var cats := store.categories;
    var row := c;
    if c.parentId.Some? && c.parentId.value != 0 {
      var found := store.CategoryById(c.parentId.value);
      if found.Err? {
        return Err(StoreError(CategoryTable));
      }
      var p := found.value;
      if p.isDeleted {
        return Err(NotFound(ParentCategory));
      }
      if p.categoryType != c.categoryType {
        return Err(Conflict(ParentTypeMismatch));
      }
      var cycle := CheckCircularDependency(store, c.id, c.parentId.value);
      if cycle.Err? {
        return Err(cycle.error);
      }
      row := row.(level := Int8(p.level + 1), path := ChildPath(p.path, c.id));
      AcyclicAfterReparent(cats, c.id, row.(children := []));
    } else {
      row := row.(level := 1, path := RootPath(c.id));
      AcyclicAfterStop(cats, c.id, row.(children := []));
    }
    return Ok(row);
  }

  /** UpdateCategory: checks the id, the input, that the row exists and is
      live, the name, the new parent and the absence of a cycle, then writes
      every column of the row. */
  method UpdateCategory(store: Store, c: Category) returns (r: Result<Category>)
    requires store.Valid()
    modifies store
    ensures store.Valid()
    ensures r == UpdateOutcome(old(store.categories), c)
    ensures r.Ok? ==> store.categories == old(store.categories)[c.id := r.value.(children := [])]
    ensures r.Err? ==> unchanged(store)
    ensures store.nextCategory == old(store.nextCategory)
    ensures OnlyCategoriesChanged(store)
  {
    r := PrepareUpdate(store, c);
    if r.Err? {
      return;
    }
    SoundAfterOverwrite(store.categories, store.nextCategory, r.value.(children := []));
    store.SaveCategory(r.value);
  }

  /** An update never creates a cycle: a category cannot become its own
      parent, nor the parent of any category above it. */
  lemma UpdateRefusesCycles(cats: map<Id, Category>, c: Category, n: nat)
    requires Acyclic(cats)
    requires c.id != 0 && c.id in cats && !cats[c.id].isDeleted
    requires ParentOf(c).Some? && EndsWithin(cats, ParentOf(c).value, n)
    requires ParentOf(c).value == c.id || Reaches(cats, ParentOf(c).value, c.id, n)
    ensures UpdateOutcome(cats, c).Err?
  {
    var p := ParentOf(c).value;
    if UpdateOutcome(cats, c).Ok? {
      UpdatedRow(cats, c);
      if p != c.id {
        CircularCheckIsWalk(cats, c.id, p, n);
        WalkCycleIffReaches(cats, p, c.id, n);
      }
    }
  }

  /** A successful update moves the category under a live parent of the
      same type, one level below it, with the parent's path extended by the
      category's id, or makes it a root at level 1 with path "/id". */
  lemma UpdatedRow(cats: map<Id, Category>, c: Category)
    requires Acyclic(cats) && UpdateOutcome(cats, c).Ok?
    ensures
      var row := UpdateOutcome(cats, c).value;
      && row.id == c.id && row.name == c.name && row.parentId == c.parentId && row.isDeleted == c.isDeleted
      && c.id in cats && !cats[c.id].isDeleted
      && (ParentOf(c).None? ==> row.level == 1 && Segments(row.path) == [Decimal(c.id)])
      && (ParentOf(c).Some? ==>
        var p := ParentOf(c).value;
        && p in cats && !cats[p].isDeleted && cats[p].categoryType == c.categoryType
        && CircularCheck(cats, c.id, p).Ok?
        && row.level == Int8(cats[p].level + 1)
        && Segments(row.path) == Segments(cats[p].path) + [Decimal(c.id)])
  {
    var row := UpdateOutcome(cats, c).value;
    if ParentOf(c).None? {
      SegmentsRoot(c.id);
    } else {
      SegmentsExtend(cats[ParentOf(c).value].path, c.id);
    }
  }

  // ---------------------------------------------------------------------
  // DeleteCategory

  /** What DeleteCategory does to the table: the error, or the table with
      row id marked deleted. */
  ghost function DeleteOutcome(store: Store, id: Id): Result<map<Id, Category>>
    reads store
  {
    if id == 0 then Err(Validation(InvalidId))
    else if id !in store.categories then Err(StoreError(CategoryTable))
    else if store.categories[id].isDeleted then Err(NotFound(CategoryTable))
    else if store.LiveChildrenOf(id) != [] then Err(Conflict(HasChildren))
    else Ok(store.categories[id := store.categories[id].(isDeleted := true)])
  }

  /** DeleteCategory: soft-deletes a live category that has no live
      children. */
  method DeleteCategory(store: Store, id: Id) returns (r: Result<()>)
    requires store.Valid()
    modifies store
    ensures store.Valid()
    ensures var o := old(DeleteOutcome(store, id));
      && (o.Err? ==> r == Err(o.error) && unchanged(store))
      && (o.Ok? ==> r == Ok(()) && store.categories == o.value)
    ensures store.nextCategory == old(store.nextCategory)
    ensures OnlyCategoriesChanged(store)
  {
    ghost var cats := store.categories;
    if id == 0 {
      return Err(Validation(InvalidId));
    }
    var category := store.CategoryById(id);
    if category.Err? {
      return Err(StoreError(CategoryTable));
    }
    if category.value.isDeleted {
      return Err(NotFound(CategoryTable));
    }
    var children := store.LiveChildrenOf(id);
    var active := Keep(children, Live);
    FilterAll(children, Live);
    if |active| > 0 {
      return Err(Conflict(HasChildren));
    }
    AcyclicAfterStop(cats, id, cats[id].(isDeleted := true));
    SoundAfterOverwrite(cats, store.nextCategory, cats[id].(isDeleted := true));
    store.DeleteCategory(id);
    return Ok(());
  }

  /** Every live category's parent, when it names one, is live. */
  ghost predicate LiveParents(cats: map<Id, Category>)
  {
    forall id :: id in cats && !cats[id].isDeleted && ParentOf(cats[id]).Some? ==>
      ParentOf(cats[id]).value in cats && !cats[ParentOf(cats[id]).value].isDeleted
  }

  /** A category with a live child cannot be deleted, so deletion keeps every
      live category's parent live. */
  lemma DeleteKeepsLiveParents(store: Store, id: Id)
    requires store.Valid() && LiveParents(store.categories)
    requires DeleteOutcome(store, id).Ok?
    ensures LiveParents(DeleteOutcome(store, id).value)
  {
    var cats' := DeleteOutcome(store, id).value;
    forall k | k in cats' && !cats'[k].isDeleted && ParentOf(cats'[k]).Some?
      ensures ParentOf(cats'[k]).value in cats' && !cats'[ParentOf(cats'[k]).value].isDeleted
    {
    }
  }

  /** A created category has a live parent, so creation keeps every live
      category's parent live. */
  lemma CreateKeepsLiveParents(cats: map<Id, Category>, next: Id, c: Category)
    requires LiveParents(cats) && next !in cats
    requires CreateOutcome(cats, next, c).Ok?
    ensures LiveParents(cats[next := CreateOutcome(cats, next, c).value.(children := [])])
  {
    var row := CreateOutcome(cats, next, c).value.(children := []);
    assert !row.isDeleted && row.parentId == c.parentId;
    if ParentOf(c).Some? {
      assert ParentOf(c).value in cats && !cats[ParentOf(c).value].isDeleted;
    }
    var cats' := cats[next := row];
    forall k | k in cats' && !cats'[k].isDeleted && ParentOf(cats'[k]).Some?
      ensures ParentOf(cats'[k]).value in cats' && !cats'[ParentOf(cats'[k]).value].isDeleted
    {
      if k != next {
        assert cats'[k] == cats[k];
      }
    }
  }

  /** An update that leaves the category live keeps every live category's
      parent live: its new parent is live and the row itself stays live for
      its children. */
  lemma UpdateKeepsLiveParents(cats: map<Id, Category>, c: Category)
    requires Acyclic(cats) && LiveParents(cats)
    requires UpdateOutcome(cats, c).Ok? && !c.isDeleted
    ensures LiveParents(cats[c.id := UpdateOutcome(cats, c).value.(children := [])])
  {
    UpdatedRow(cats, c);
    var row := UpdateOutcome(cats, c).value.(children := []);
    assert ParentOf(row) == ParentOf(c);
    var cats' := cats[c.id := row];
    forall k | k in cats' && !cats'[k].isDeleted && ParentOf(cats'[k]).Some?
      ensures ParentOf(cats'[k]).value in cats' && !cats'[ParentOf(cats'[k]).value].isDeleted
    {
      if k != c.id {
        assert cats'[k] == cats[k];
      }
    }
  }

  /** An update that passes the checks and names no parent makes the row a
      root at level 1. */
  lemma UpdateToRoot(cats: map<Id, Category>, c: Category)
    requires Acyclic(cats) && c.id != 0 && c.id in cats && !cats[c.id].isDeleted
    requires ValidateCategory(c) == Pass && !NameInUse(cats, c.name, c.categoryType, c.parentId, c.id)
    requires ParentOf(c).None?
    ensures UpdateOutcome(cats, c) == Ok(c.(level := 1, path := RootPath(c.id)))
  {
  }

  /** An update that sets IsDeleted does not look at the category's children:
      a live parent with a live child can become a deleted parent with a
      live child, which DeleteCategory would have refused. */
  lemma UpdateCanOrphanChildren(cats: map<Id, Category>, c: Category, child: Id)
    requires Acyclic(cats) && LiveParents(cats)
    requires c.id != 0 && c.id in cats && !cats[c.id].isDeleted
    requires ValidateCategory(c) == Pass && !NameInUse(cats, c.name, c.categoryType, c.parentId, c.id)
    requires ParentOf(c).None? && c.isDeleted
    requires child in cats && child != c.id && !cats[child].isDeleted && ParentOf(cats[child]) == Some(c.id)
    ensures UpdateOutcome(cats, c) == Ok(c.(level := 1, path := RootPath(c.id)))
    ensures !LiveParents(cats[c.id := UpdateOutcome(cats, c).value.(children := [])])
  {
    UpdateToRoot(cats, c);
    var cats' := cats[c.id := UpdateOutcome(cats, c).value.(children := [])];
    assert cats'[child] == cats[child] && cats'[c.id].isDeleted;
  }
}
