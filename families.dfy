/** The family service (service/family.go): name validation,
    case-insensitive name uniqueness across all families, creation, renaming,
    the existence check the other services share, and the hard delete of a
    family that has no member rows left, removed members included. */
module Families {

  import opened Domain
  import opened Text
  import opened Seqs
  import opened Store

  // ---------------------------------------------------------------------
  // Validation

  /** validateFamilyName: not blank after trimming, and at most 100 bytes,
      checked in that order. */
  function ValidateFamilyName(name: string): (v: Verdict)
    ensures v == Pass <==> !AllCut(name, IsSpace) && ByteLen(name) <= 100
    ensures AllCut(name, IsSpace) ==> v == Fail(BlankName)
    ensures !AllCut(name, IsSpace) && ByteLen(name) > 100 ==> v == Fail(NameTooLong)
  {
    BlankIffAllSpace(name);
    if TrimSpace(name) == [] then Fail(BlankName)
    else if ByteLen(name) > 100 then Fail(NameTooLong)
    else Pass
  }

  // ---------------------------------------------------------------------
  // Lookups

  /** FamilyExists: false for id 0, the DAO's error for a missing row. The
      transaction and tag services carry identical private copies. */
  function FamilyExists(store: Store, familyId: Id): (r: Result<bool>)
    reads store
    ensures r == Ok(true) <==> familyId != 0 && familyId in store.families
    ensures r.Err? <==> familyId != 0 && familyId !in store.families
    ensures r.Err? ==> r.error == StoreError(FamilyTable)
  {
    if familyId == 0 then Ok(false)
    else match store.FamilyById(familyId)
      case Err(e) => Err(e)
      case Ok(_) => Ok(true)
  }

  /** GetFamilyByID (and GetFamilyWithMembers, whose code is the same): id 0
      is invalid, a missing row is the DAO's error, and a found family comes
      with its member rows attached. */
  function GetFamilyByID(store: Store, id: Id): (r: Result<Family>)
    reads store
    ensures id == 0 ==> r == Err(Validation(InvalidId))
    ensures id != 0 && id !in store.families ==> r == Err(StoreError(FamilyTable))
    ensures r.Ok? <==> id != 0 && id in store.families
    ensures r.Ok? ==> r.value == store.families[id].(members := store.MembersOf(id))
  {
    if id == 0 then Err(Validation(InvalidId)) else store.FamilyById(id)
  }

  /** Some member row names the family, whatever its status. */
  ghost predicate HasMemberRows(members: map<Id, Member>, familyId: Id)
  {
    exists k :: k in members && members[k].familyId == familyId
  }

  /** The attached members are exactly the member rows of the family,
      removed ones included. */
  lemma MembersAttached(store: Store, familyId: Id)
    requires store.Valid()
    ensures forall m :: m in store.MembersOf(familyId) <==> m in store.members.Values && m.familyId == familyId
    ensures |store.MembersOf(familyId)| > 0 <==> HasMemberRows(store.members, familyId)
  {
    var rows := Rows(store.members, store.nextMember);
    var attached := store.MembersOf(familyId);
    forall m | m in store.members.Values && m.familyId == familyId ensures m in attached {
      var k :| k in store.members && store.members[k] == m;
      assert m in rows;
      var i :| 0 <= i < |rows| && rows[i] == m;
    }
    if |attached| > 0 {
      assert attached[0] in store.members.Values;
    }
    if HasMemberRows(store.members, familyId) {
      var k :| k in store.members && store.members[k].familyId == familyId;
      assert store.members[k] in store.members.Values;
    }
  }

  // ---------------------------------------------------------------------
  // Name uniqueness

  /** A stored family other than excludeId has the name, up to case. */
  ghost predicate NameInUse(families: map<Id, Family>, name: string, excludeId: Id)
  {
    exists k :: k in families && k != excludeId && EqualFold(families[k].name, name)
  }

  /** No two stored families have the same name up to case: what the
      uniqueness checks keep true. */
  ghost predicate NamesDistinct(families: map<Id, Family>)
  {
    forall a, b :: a in families && b in families && a != b ==> !EqualFold(families[a].name, families[b].name)
  }

  /** familyNameExists: a scan of every family for the name, up to case. No
      id is excluded; stored ids are never 0. */
  method FamilyNameExists(store: Store, name: string) returns (taken: bool)
    requires store.Valid()
    ensures taken <==> NameInUse(store.families, name, 0)
  {
    var rows := store.AllFamilies();
    var clash := (f: Family) => EqualFold(f.name, name);
    taken := Any(rows, clash);
    ghost var plain := Rows(store.families, store.nextFamily);
    RowsAny(store.families, store.nextFamily, clash);
    assert forall i :: 0 <= i < |rows| ==> clash(rows[i]) == clash(plain[i]);
  }

  /** otherFamilyHasSameName: the same scan, skipping the family itself. */
  method OtherFamilyHasSameName(store: Store, id: Id, name: string) returns (taken: bool)
    requires store.Valid()
    ensures taken <==> NameInUse(store.families, name, id)
  {
    var rows := store.AllFamilies();
    var clash := (f: Family) => f.id != id && EqualFold(f.name, name);
    taken := Any(rows, clash);
    ghost var plain := Rows(store.families, store.nextFamily);
    RowsAny(store.families, store.nextFamily, clash);
    assert forall i :: 0 <= i < |rows| ==> clash(rows[i]) == clash(plain[i]);
    assert forall k :: k in store.families ==> store.families[k].id == k;
  }

  /** The check ignores case: names equal up to case are in use together. */
  lemma NameInUseIgnoresCase(families: map<Id, Family>, name: string, other: string, excludeId: Id)
    requires EqualFold(name, other)
    ensures NameInUse(families, name, excludeId) <==> NameInUse(families, other, excludeId)
  {
    forall k | k in families
      ensures EqualFold(families[k].name, name) <==> EqualFold(families[k].name, other)
    {
      EqualFoldEquivalence(families[k].name, name, other);
      EqualFoldEquivalence(families[k].name, other, name);
      EqualFoldEquivalence(name, other, families[k].name);
    }
  }

  // ---------------------------------------------------------------------
  // CreateFamily

  /** Only the family table and its counter may differ from the state
      before the call. */
  twostate predicate OnlyFamiliesChanged(store: Store)
    reads store
  {
    && store.members == old(store.members) && store.categories == old(store.categories)
    && store.tags == old(store.tags) && store.transactions == old(store.transactions)
    && store.links == old(store.links)
    && store.nextMember == old(store.nextMember) && store.nextCategory == old(store.nextCategory)
    && store.nextTag == old(store.nextTag) && store.nextTransaction == old(store.nextTransaction)
  }

  /** What CreateFamily makes of f when the table is families and the next
      id is next: the row it stores, or the first check that fails. */
  ghost function CreateOutcome(families: map<Id, Family>, next: Id, f: Family): Result<Family>
  {
    match ValidateFamilyName(f.name)
    case Fail(fault) => Err(Validation(fault))
    case Pass =>
      if NameInUse(families, f.name, 0) then Err(Conflict(NameTaken))
      else Ok(f.(id := next, members := []))
  }

  /** CreateFamily: validates the name, refuses one already in use by any
      family, and inserts the row. */
  method CreateFamily(store: Store, f: Family) returns (r: Result<Family>)
    requires store.Valid()
    modifies store
    ensures store.Valid()
    ensures r == CreateOutcome(old(store.families), old(store.nextFamily), f)
    ensures r.Ok? ==> store.families == old(store.families)[r.value.id := r.value]
    ensures r.Ok? ==> store.nextFamily == old(store.nextFamily) + 1
    ensures r.Err? ==> unchanged(store)
    ensures OnlyFamiliesChanged(store)
  {
    var v := ValidateFamilyName(f.name);
    if v.Fail? {
      return Err(Validation(v.fault));
    }
    var taken := FamilyNameExists(store, f.name);
    if taken {
      return Err(Conflict(NameTaken));
    }
    var stored := store.CreateFamily(f);
    return Ok(stored);
  }

  /** A create succeeds exactly when the name is not blank, fits 100 bytes
      and matches no stored family's name up to case. */
  lemma CreateSucceedsIff(families: map<Id, Family>, next: Id, f: Family)
    requires 0 !in families
    ensures CreateOutcome(families, next, f).Ok? <==>
      && !AllCut(f.name, IsSpace) && ByteLen(f.name) <= 100
      && forall k :: k in families ==> !EqualFold(families[k].name, f.name)
  {
  }

  /** Creation keeps the family names distinct. */
  lemma CreateKeepsNamesDistinct(families: map<Id, Family>, next: Id, f: Family)
    requires NamesDistinct(families) && next !in families && 0 !in families
    requires CreateOutcome(families, next, f).Ok?
    ensures NamesDistinct(families[next := CreateOutcome(families, next, f).value])
  {
    var row := CreateOutcome(families, next, f).value;
    var after := families[next := row];
    forall a, b | a in after && b in after && a != b ensures !EqualFold(after[a].name, after[b].name) {
      if a == next {
        assert !EqualFold(families[b].name, f.name);
      } else if b == next {
        assert !EqualFold(families[a].name, f.name);
      }
    }
  }

  // ---------------------------------------------------------------------
  // UpdateFamily

  /** What UpdateFamily makes of the table: id 0, the name, the family's
      existence and the name's uniqueness among the other families are
      checked in that order, and only the name is written. */
  ghost function UpdateOutcome(families: map<Id, Family>, f: Family): Result<map<Id, Family>>
  {
    if f.id == 0 then Err(Validation(InvalidId))
    else match ValidateFamilyName(f.name)
    case Fail(fault) => Err(Validation(fault))
    case Pass =>
      if f.id !in families then Err(StoreError(FamilyTable))
      else if NameInUse(families, f.name, f.id) then Err(Conflict(NameTaken))
      else Ok(families[f.id := families[f.id].(name := f.name)])
  }

  /** The checks UpdateFamily makes before it writes. */
  method CheckUpdate(store: Store, f: Family) returns (r: Result<()>)
    requires store.Valid()
    ensures var o := UpdateOutcome(store.families, f);
      && (r.Ok? ==> f.id in store.families && o == Ok(store.families[f.id := store.families[f.id].(name := f.name)]))
      && (r.Err? ==> o == Err(r.error))
  {
    if f.id == 0 {
      return Err(Validation(InvalidId));
    }
    var v := ValidateFamilyName(f.name);
    if v.Fail? {
      return Err(Validation(v.fault));
    }
    var found := FamilyExists(store, f.id);
    if found.Err? {
      return Err(found.error);
    }
    if !found.value {
      return Err(NotFound(FamilyTable));
    }
    var taken := OtherFamilyHasSameName(store, f.id, f.name);
    if taken {
      return Err(Conflict(NameTaken));
    }
    return Ok(());
  }

  /** UpdateFamily. */
  method UpdateFamily(store: Store, f: Family) returns (r: Result<()>)
    requires store.Valid()
    modifies store
    ensures store.Valid()
    ensures var o := UpdateOutcome(old(store.families), f);
      && (o.Err? ==> r == Err(o.error) && unchanged(store))
      && (o.Ok? ==> r == Ok(()) && store.families == o.value)
    ensures store.nextFamily == old(store.nextFamily)
    ensures OnlyFamiliesChanged(store)
  {
    r := CheckUpdate(store, f);
    if r.Ok? {
      store.UpdateFamily(f);
      r := Ok(());
    }
  }

  /** A successful update renames the family and changes nothing else; a
      family may keep its own name or change its case. */
  lemma UpdateRenamesOnly(families: map<Id, Family>, f: Family)
    requires f.id != 0 && f.id in families && ValidateFamilyName(f.name) == Pass
    requires EqualFold(families[f.id].name, f.name)
    requires NamesDistinct(families)
    ensures UpdateOutcome(families, f).Ok?
    ensures var after := UpdateOutcome(families, f).value;
      && after.Keys == families.Keys
      && after[f.id] == families[f.id].(name := f.name)
      && forall k :: k in families && k != f.id ==> after[k] == families[k]
  {
    forall k | k in families && k != f.id ensures !EqualFold(families[k].name, f.name) {
      EqualFoldEquivalence(families[k].name, f.name, families[f.id].name);
      EqualFoldEquivalence(families[f.id].name, f.name, families[k].name);
    }
  }

  /** Renaming keeps the family names distinct. */
  lemma UpdateKeepsNamesDistinct(families: map<Id, Family>, f: Family)
    requires NamesDistinct(families)
    requires UpdateOutcome(families, f).Ok?
    ensures NamesDistinct(UpdateOutcome(families, f).value)
  {
    var after := UpdateOutcome(families, f).value;
    forall a, b | a in after && b in after && a != b ensures !EqualFold(after[a].name, after[b].name) {
      if a == f.id {
        assert !EqualFold(families[b].name, f.name);
      } else if b == f.id {
        assert !EqualFold(families[a].name, f.name);
      }
    }
  }

  // ---------------------------------------------------------------------
  // DeleteFamily

  /** What DeleteFamily makes of the table: id 0, existence, then any member
      row of the family blocks the delete; otherwise the row is removed. */
  ghost function DeleteOutcome(families: map<Id, Family>, members: map<Id, Member>, id: Id): Result<map<Id, Family>>
  {
    if id == 0 then Err(Validation(InvalidId))
    else if id !in families then Err(StoreError(FamilyTable))
    else if HasMemberRows(members, id) then Err(Conflict(HasMembers))
    else Ok(families - {id})
  }

  /** DeleteFamily: a hard delete of a family without member rows. */
  method DeleteFamily(store: Store, id: Id) returns (r: Result<()>)
    requires store.Valid()
    modifies store
    ensures store.Valid()
    ensures var o := DeleteOutcome(old(store.families), old(store.members), id);
      && (o.Err? ==> r == Err(o.error) && unchanged(store))
      && (o.Ok? ==> r == Ok(()) && store.families == o.value)
    ensures store.nextFamily == old(store.nextFamily)
    ensures OnlyFamiliesChanged(store)
  {
    if id == 0 {
      return Err(Validation(InvalidId));
    }
    var found := FamilyExists(store, id);
    if found.Err? {
      return Err(found.error);
    }
    if !found.value {
      return Err(NotFound(FamilyTable));
    }
    var family := GetFamilyByID(store, id);
    if family.Err? {
      assert false;
    }
    MembersAttached(store, id);
    if |family.value.members| > 0 {
      return Err(Conflict(HasMembers));
    }
    store.DeleteFamily(id);
    return Ok(());
  }

  /** A removed member (status 0) still blocks the delete of its family. */
  lemma RemovedMemberBlocksDelete(families: map<Id, Family>, members: map<Id, Member>, id: Id, k: Id)
    requires id != 0 && id in families
    requires k in members && members[k].familyId == id && members[k].status == REMOVED
    ensures DeleteOutcome(families, members, id) == Err(Conflict(HasMembers))
  {
  }

  /** A delete succeeds exactly when the family is stored and no member row
      names it; afterwards the family is gone. */
  lemma DeleteSucceedsIff(families: map<Id, Family>, members: map<Id, Member>, id: Id)
    ensures DeleteOutcome(families, members, id).Ok? <==>
      id != 0 && id in families && forall k :: k in members ==> members[k].familyId != id
    ensures DeleteOutcome(families, members, id).Ok? ==>
      DeleteOutcome(families, members, id).value.Keys == families.Keys - {id}
  {
  }
}
