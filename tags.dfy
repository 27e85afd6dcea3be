/** The tag service (service/tag.go): validation, case-insensitive name
    uniqueness among a family's active tags, creation as active, updates
    that save the whole record, the soft delete that clears is_active and
    is refused while any join row names the tag, and the list operations
    that keep active tags only. */
module Tags {

  import opened Domain
  import opened Text
  import opened Seqs
  import opened Store
  import Families

  // ---------------------------------------------------------------------
  // Validation

  /** Go's strings.HasPrefix(s, "#"). */
  predicate StartsWithHash(s: string)
  {
    |s| > 0 && s[0] == '#'
  }

  /** validateTag: a name that is not blank and fits 100 bytes, a type that
      is not blank and fits 50 bytes, and a color that is empty or is "#"
      followed by six more bytes (the digits are not checked), in that
      order. */
  function ValidateTag(t: Tag): (v: Verdict)
    ensures v == Pass <==>
      && !AllCut(t.name, IsSpace) && ByteLen(t.name) <= 100
      && !AllCut(t.tagType, IsSpace) && ByteLen(t.tagType) <= 50
      && (t.color != "" ==> StartsWithHash(t.color) && ByteLen(t.color) == 7)
    ensures AllCut(t.name, IsSpace) ==> v == Fail(BlankName)
    ensures !AllCut(t.name, IsSpace) && ByteLen(t.name) > 100 ==> v == Fail(NameTooLong)
    ensures !AllCut(t.name, IsSpace) && ByteLen(t.name) <= 100 && AllCut(t.tagType, IsSpace) ==> v == Fail(BlankTagType)
    ensures (!AllCut(t.name, IsSpace) && ByteLen(t.name) <= 100 && !AllCut(t.tagType, IsSpace)
             && ByteLen(t.tagType) > 50) ==> v == Fail(TagTypeTooLong)
    ensures (!AllCut(t.name, IsSpace) && ByteLen(t.name) <= 100 && !AllCut(t.tagType, IsSpace) && ByteLen(t.tagType) <= 50
             && t.color != "" && (!StartsWithHash(t.color) || ByteLen(t.color) != 7)) ==> v == Fail(BadColor)
    ensures v.Fail? ==> v.fault in {BlankName, NameTooLong, BlankTagType, TagTypeTooLong, BadColor}
  {
    BlankIffAllSpace(t.name);
    BlankIffAllSpace(t.tagType);
    if TrimSpace(t.name) == [] then Fail(BlankName)
    else if ByteLen(t.name) > 100 then Fail(NameTooLong)
    else if TrimSpace(t.tagType) == [] then Fail(BlankTagType)
    else if ByteLen(t.tagType) > 50 then Fail(TagTypeTooLong)
    else if t.color != "" && (!StartsWithHash(t.color) || ByteLen(t.color) != 7) then Fail(BadColor)
    else Pass
  }

  /** Any "#" and six ASCII characters pass, hexadecimal or not. */
  lemma ColorDigitsUnchecked(t: Tag)
    requires !AllCut(t.name, IsSpace) && ByteLen(t.name) <= 100
    requires !AllCut(t.tagType, IsSpace) && ByteLen(t.tagType) <= 50
    requires t.color == "#zzzzzz"
    ensures ValidateTag(t) == Pass
  {
    var c := t.color;
    assert forall i :: 0 <= i < |c| ==> c[i] as int < 0x80;
    ByteLenAscii(c);
    assert StartsWithHash(c) && ByteLen(c) == 7;
  }

  // ---------------------------------------------------------------------
  // Lookups

  /** TagExists: false for id 0, the DAO's error for a missing row, and
      otherwise whether the tag is active. */
  function TagExists(store: Store, id: Id): (r: Result<bool>)
    reads store
    ensures r == Ok(true) <==> id != 0 && id in store.tags && store.tags[id].isActive
    ensures r.Err? <==> id != 0 && id !in store.tags
    ensures r.Err? ==> r.error == StoreError(TagTable)
  {
    if id == 0 then Ok(false)
    else match store.TagById(id)
      case Err(e) => Err(e)
      case Ok(t) => Ok(t.isActive)
  }

  /** GetTagByID: an active tag; an inactive one is reported absent. */
  function GetTagByID(store: Store, id: Id): (r: Result<Tag>)
    reads store
    ensures id == 0 ==> r == Err(Validation(InvalidId))
    ensures id != 0 && id !in store.tags ==> r == Err(StoreError(TagTable))
    ensures id != 0 && id in store.tags && !store.tags[id].isActive ==> r == Err(NotFound(TagTable))
    ensures r.Ok? <==> TagExists(store, id) == Ok(true)
    ensures r.Ok? ==> r.value == store.tags[id]
  {
    if id == 0 then Err(Validation(InvalidId))
    else match store.TagById(id)
      case Err(e) => Err(e)
      case Ok(t) => if !t.isActive then Err(NotFound(TagTable)) else Ok(t)
  }

  // ---------------------------------------------------------------------
  // Lists

  predicate IsActive(t: Tag)
  {
    t.isActive
  }

  /** Filtering the DAO's active rows for activity again removes nothing. */
  lemma ActiveAgain(rows: seq<Tag>, keep: Tag -> bool)
    requires forall t :: keep(t) ==> t.isActive
    ensures Filter(Filter(rows, keep), IsActive) == Filter(rows, keep)
  {
    FilterAll(Filter(rows, keep), IsActive);
  }

  /** GetTagsByFamilyID: id 0 is invalid, a missing family is the lookup's
      error; otherwise the family's active tags, filtered once more for
      activity in a loop, which removes nothing. */
  method GetTagsByFamilyID(store: Store, familyId: Id) returns (r: Result<seq<Tag>>)
    ensures familyId == 0 ==> r == Err(Validation(InvalidId))
    ensures familyId != 0 && familyId !in store.families ==> r == Err(StoreError(FamilyTable))
    ensures familyId != 0 && familyId in store.families ==> r == Ok(store.ActiveTagsOf(familyId))
  {
    if familyId == 0 {
      return Err(Validation(InvalidId));
    }
    var found := Families.FamilyExists(store, familyId);
    if found.Err? {
      return Err(found.error);
    }
    if !found.value {
      return Err(NotFound(FamilyTable));
    }
    var rows := store.ActiveTagsOf(familyId);
    var result := Keep(rows, IsActive);
    ActiveAgain(Rows(store.tags, store.nextTag), (t: Tag) => t.familyId == familyId && t.isActive);
    return Ok(result);
  }

  /** GetTagsByType: the same, for the family's active tags of one type. */
  method GetTagsByType(store: Store, familyId: Id, tagType: string) returns (r: Result<seq<Tag>>)
    ensures familyId == 0 ==> r == Err(Validation(InvalidId))
    ensures familyId != 0 && familyId !in store.families ==> r == Err(StoreError(FamilyTable))
    ensures familyId != 0 && familyId in store.families ==> r == Ok(store.ActiveTagsOfType(familyId, tagType))
  {
    if familyId == 0 {
      return Err(Validation(InvalidId));
    }
    var found := Families.FamilyExists(store, familyId);
    if found.Err? {
      return Err(found.error);
    }
    if !found.value {
      return Err(NotFound(FamilyTable));
    }
    var rows := store.ActiveTagsOfType(familyId, tagType);
    var result := Keep(rows, IsActive);
    ActiveAgain(Rows(store.tags, store.nextTag), (t: Tag) => t.familyId == familyId && t.tagType == tagType && t.isActive);
    return Ok(result);
  }

  /** GetAllTags: every tag row, inactive ones dropped in a loop, in id
      order. */
  method GetAllTags(store: Store) returns (r: seq<Tag>)
    requires store.Valid()
    ensures forall t :: t in r <==> t in store.tags.Values && t.isActive
    ensures r == Filter(Rows(store.tags, store.nextTag), IsActive)
  {
    var rows := store.AllTags();
    r := Keep(rows, IsActive);
    forall t | t in store.tags.Values && t.isActive ensures t in r {
      var k :| k in store.tags && store.tags[k] == t;
      assert t in rows;
      var i :| 0 <= i < |rows| && rows[i] == t;
    }
  }

  // ---------------------------------------------------------------------
  // Name uniqueness

  /** An active tag of the family, other than excludeId, has the name up to
      case. */
  ghost predicate NameInUse(tags: map<Id, Tag>, name: string, familyId: Id, excludeId: Id)
  {
    exists k :: k in tags && k != excludeId && tags[k].isActive && tags[k].familyId == familyId
      && EqualFold(tags[k].name, name)
  }

  /** No two active tags of one family have the same name up to case: what
      the uniqueness check keeps true. */
  ghost predicate ActiveNamesDistinct(tags: map<Id, Tag>)
  {
    forall a, b ::
      (a in tags && b in tags && a != b && tags[a].isActive && tags[b].isActive
       && tags[a].familyId == tags[b].familyId) ==> !EqualFold(tags[a].name, tags[b].name)
  }

  /** tagNameExists: a scan of every tag row. */
  method TagNameExists(store: Store, name: string, familyId: Id, excludeId: Id) returns (taken: bool)
    requires store.Valid()
    ensures taken <==> NameInUse(store.tags, name, familyId, excludeId)
  {
    var rows := store.AllTags();
    var clash := (t: Tag) => t.id != excludeId && t.isActive && t.familyId == familyId && EqualFold(t.name, name);
    taken := Any(rows, clash);
    RowsAny(store.tags, store.nextTag, clash);
    assert forall k :: k in store.tags ==> store.tags[k].id == k;
  }

  // ---------------------------------------------------------------------
  // CreateTag

  /** Only the tag table and its counter may differ from the state before
      the call. */
  twostate predicate OnlyTagsChanged(store: Store)
    reads store
  {
    && store.families == old(store.families) && store.members == old(store.members)
    && store.categories == old(store.categories) && store.transactions == old(store.transactions)
    && store.links == old(store.links)
    && store.nextFamily == old(store.nextFamily) && store.nextMember == old(store.nextMember)
    && store.nextCategory == old(store.nextCategory) && store.nextTransaction == old(store.nextTransaction)
  }

  /** What CreateTag makes of t: the active row it stores, or the first
      check that fails. */
  ghost function CreateOutcome(families: map<Id, Family>, tags: map<Id, Tag>, next: Id, t: Tag): Result<Tag>
  {
    match ValidateTag(t)
    case Fail(fault) => Err(Validation(fault))
    case Pass =>
      if t.familyId == 0 then Err(NotFound(FamilyTable))
      else if t.familyId !in families then Err(StoreError(FamilyTable))
      else if NameInUse(tags, t.name, t.familyId, 0) then Err(Conflict(NameTaken))
      else Ok(t.(id := next, isActive := true))
  }

  /** The checks CreateTag makes before it writes. */
  method CheckCreate(store: Store, t: Tag) returns (r: Result<()>)
    requires store.Valid()
    ensures var o := CreateOutcome(store.families, store.tags, store.nextTag, t);
      && (r.Ok? ==> o == Ok(t.(id := store.nextTag, isActive := true)))
      && (r.Err? ==> o == Err(r.error))
  {
    var v := ValidateTag(t);
    if v.Fail? {
      return Err(Validation(v.fault));
    }
    var found := Families.FamilyExists(store, t.familyId);
    if found.Err? {
      return Err(found.error);
    }
    if !found.value {
      return Err(NotFound(FamilyTable));
    }
    var taken := TagNameExists(store, t.name, t.familyId, 0);
    if taken {
      return Err(Conflict(NameTaken));
    }
    return Ok(());
  }

  /** CreateTag. */
  method CreateTag(store: Store, t: Tag) returns (r: Result<Tag>)
    requires store.Valid()
    modifies store
    ensures store.Valid()
    ensures r == CreateOutcome(old(store.families), old(store.tags), old(store.nextTag), t)
    ensures r.Ok? ==> store.tags == old(store.tags)[r.value.id := r.value]
    ensures r.Ok? ==> store.nextTag == old(store.nextTag) + 1
    ensures r.Err? ==> unchanged(store)
    ensures OnlyTagsChanged(store)
  {
    var checked := CheckCreate(store, t);
    if checked.Err? {
      return Err(checked.error);
    }
    var stored := store.CreateTag(t.(isActive := true));
    return Ok(stored);
  }

  /** Creation keeps the active names of each family distinct. */
  lemma CreateKeepsNamesDistinct(families: map<Id, Family>, tags: map<Id, Tag>, next: Id, t: Tag)
    requires ActiveNamesDistinct(tags) && next !in tags && 0 !in tags
    requires CreateOutcome(families, tags, next, t).Ok?
    ensures ActiveNamesDistinct(tags[next := CreateOutcome(families, tags, next, t).value])
  {
    var after := tags[next := CreateOutcome(families, tags, next, t).value];
    forall a, b | a in after && b in after && a != b && after[a].isActive && after[b].isActive
      && after[a].familyId == after[b].familyId
      ensures !EqualFold(after[a].name, after[b].name)
    {
      if a == next {
        assert !EqualFold(tags[b].name, t.name);
      } else if b == next {
        assert !EqualFold(tags[a].name, t.name);
      }
    }
  }

  // ---------------------------------------------------------------------
  // UpdateTag

  /** What UpdateTag makes of the table: id 0, validation, the tag being
      active, then the name among the other active tags of the family the
      record names; the whole record is saved as passed, its is_active and
      family_id included. */
  ghost function UpdateOutcome(tags: map<Id, Tag>, t: Tag): Result<map<Id, Tag>>
  {
    if t.id == 0 then Err(Validation(InvalidId))
    else match ValidateTag(t)
    case Fail(fault) => Err(Validation(fault))
    case Pass =>
      if t.id !in tags then Err(StoreError(TagTable))
      else if !tags[t.id].isActive then Err(NotFound(TagTable))
      else if NameInUse(tags, t.name, t.familyId, t.id) then Err(Conflict(NameTaken))
      else Ok(tags[t.id := t])
  }

  /** The checks UpdateTag makes before it writes. */
  method CheckUpdate(store: Store, t: Tag) returns (r: Result<()>)
    requires store.Valid()
    ensures var o := UpdateOutcome(store.tags, t);
      && (r.Ok? ==> t.id in store.tags && o == Ok(store.tags[t.id := t]))
      && (r.Err? ==> o == Err(r.error))
  {
    if t.id == 0 {
      return Err(Validation(InvalidId));
    }
    var v := ValidateTag(t);
    if v.Fail? {
      return Err(Validation(v.fault));
    }
    var found := TagExists(store, t.id);
    if found.Err? {
      return Err(found.error);
    }
    if !found.value {
      return Err(NotFound(TagTable));
    }
    var taken := TagNameExists(store, t.name, t.familyId, t.id);
    if taken {
      return Err(Conflict(NameTaken));
    }
    return Ok(());
  }

  /** UpdateTag. */
  method UpdateTag(store: Store, t: Tag) returns (r: Result<()>)
    requires store.Valid()
    modifies store
    ensures store.Valid()
    ensures var o := UpdateOutcome(old(store.tags), t);
      && (o.Err? ==> r == Err(o.error) && unchanged(store))
      && (o.Ok? ==> r == Ok(()) && store.tags == o.value)
    ensures store.nextTag == old(store.nextTag)
    ensures OnlyTagsChanged(store)
  {
    r := CheckUpdate(store, t);
    if r.Ok? {
      store.SaveTag(t);
      r := Ok(());
    }
  }

  /** An update keeps the active names of each family distinct. */
  lemma UpdateKeepsNamesDistinct(tags: map<Id, Tag>, t: Tag)
    requires ActiveNamesDistinct(tags)
    requires UpdateOutcome(tags, t).Ok?
    ensures ActiveNamesDistinct(UpdateOutcome(tags, t).value)
  {
    var after := UpdateOutcome(tags, t).value;
    forall a, b | a in after && b in after && a != b && after[a].isActive && after[b].isActive
      && after[a].familyId == after[b].familyId
      ensures !EqualFold(after[a].name, after[b].name)
    {
      if a == t.id {
        assert !EqualFold(tags[b].name, t.name);
      } else if b == t.id {
        assert !EqualFold(tags[a].name, t.name);
      }
    }
  }

  /** Because the whole record is saved, an update can clear is_active on a
      tag that join rows still name, which DeleteTag would refuse. */
  lemma UpdateCanDeactivateUsedTag(tags: map<Id, Tag>, links: multiset<Link>, t: Tag, x: Id)
    requires t.id != 0 && t.id in tags && tags[t.id].isActive && (x, t.id) in links
    requires ValidateTag(t) == Pass && t.familyId == tags[t.id].familyId
    requires ActiveNamesDistinct(tags) && t.name == tags[t.id].name && !t.isActive
    ensures UpdateOutcome(tags, t) == Ok(tags[t.id := t])
    ensures DeleteOutcome(tags, links, t.id) == Err(Conflict(TagInUse))
  {
    assert !NameInUse(tags, t.name, t.familyId, t.id);
  }

  // ---------------------------------------------------------------------
  // DeleteTag

  /** What DeleteTag makes of the table: id 0, the tag being active, then
      any join row naming it, whatever its transaction's status, refuses
      the delete; otherwise is_active is cleared. */
  ghost function DeleteOutcome(tags: map<Id, Tag>, links: multiset<Link>, id: Id): Result<map<Id, Tag>>
  {
    if id == 0 then Err(Validation(InvalidId))
    else if id !in tags then Err(StoreError(TagTable))
    else if !tags[id].isActive then Err(NotFound(TagTable))
    else if exists l :: l in links && l.1 == id then Err(Conflict(TagInUse))
    else Ok(tags[id := tags[id].(isActive := false)])
  }

  /** DeleteTag: a soft delete. */
  method DeleteTag(store: Store, id: Id) returns (r: Result<()>)
    requires store.Valid()
    modifies store
    ensures store.Valid()
    ensures var o := DeleteOutcome(old(store.tags), old(store.links), id);
      && (o.Err? ==> r == Err(o.error) && unchanged(store))
      && (o.Ok? ==> r == Ok(()) && store.tags == o.value)
    ensures store.nextTag == old(store.nextTag)
    ensures OnlyTagsChanged(store)
  {
    if id == 0 {
      return Err(Validation(InvalidId));
    }
    var found := TagExists(store, id);
    if found.Err? {
      return Err(found.error);
    }
    if !found.value {
      return Err(NotFound(TagTable));
    }
    if store.TagUsed(id) {
      return Err(Conflict(TagInUse));
    }
    store.DeleteTag(id);
    return Ok(());
  }

  /** A join row from a deleted transaction still blocks the delete. */
  lemma DeletedTransactionStillBlocks(tags: map<Id, Tag>, links: multiset<Link>, txs: map<Id, Transaction>, id: Id, x: Id)
    requires id != 0 && id in tags && tags[id].isActive
    requires (x, id) in links && x in txs && txs[x].status == Deleted
    ensures DeleteOutcome(tags, links, id) == Err(Conflict(TagInUse))
  {
  }

  /** After a delete the tag no longer exists for the service, so deleting
      it again fails. */
  lemma DeleteTwiceFails(tags: map<Id, Tag>, links: multiset<Link>, id: Id)
    requires DeleteOutcome(tags, links, id).Ok?
    ensures var after := DeleteOutcome(tags, links, id).value;
      && after.Keys == tags.Keys && !after[id].isActive
      && after[id].(isActive := true) == tags[id]
      && DeleteOutcome(after, links, id) == Err(NotFound(TagTable))
  {
  }
}
