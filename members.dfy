/** The member service (service/member.go): validation, email and phone
    uniqueness across every member row, creation with status 1, updates of
    name, phone and email only, the soft delete that sets status 0, and
    role changes. Existence ignores the status, so a removed member can
    still be updated, deleted again or given a new role. */
module Members {

  import opened Domain
  import opened Text
  import opened Seqs
  import opened Store
  import Families

  // ---------------------------------------------------------------------
  // Validation

  predicate IsValidRole(role: string)
  {
    role == ROLE_ADMIN || role == ROLE_MEMBER || role == ROLE_VIEWER
  }

  /** validateMember: a name that is not blank and fits 50 bytes; an email,
      when given, that contains "@" and fits 100 bytes; a phone, when given,
      that fits 20 bytes; a known role; checked in that order. */
  function ValidateMember(m: Member): (v: Verdict)
    ensures v == Pass <==>
      && !AllCut(m.name, IsSpace) && ByteLen(m.name) <= 50
      && (m.email != "" ==> '@' in m.email && ByteLen(m.email) <= 100)
      && (m.phone != "" ==> ByteLen(m.phone) <= 20)
      && IsValidRole(m.role)
    ensures AllCut(m.name, IsSpace) ==> v == Fail(BlankName)
    ensures !AllCut(m.name, IsSpace) && ByteLen(m.name) > 50 ==> v == Fail(NameTooLong)
    ensures !AllCut(m.name, IsSpace) && ByteLen(m.name) <= 50 && m.email != "" && '@' !in m.email ==> v == Fail(BadEmail)
    ensures (!AllCut(m.name, IsSpace) && ByteLen(m.name) <= 50 && m.email != "" && '@' in m.email
             && ByteLen(m.email) > 100) ==> v == Fail(EmailTooLong)
    ensures (!AllCut(m.name, IsSpace) && ByteLen(m.name) <= 50 && (m.email != "" ==> '@' in m.email && ByteLen(m.email) <= 100)
             && m.phone != "" && ByteLen(m.phone) > 20) ==> v == Fail(PhoneTooLong)
    ensures v == Fail(BadRole) <==>
      (&& !AllCut(m.name, IsSpace) && ByteLen(m.name) <= 50
       && (m.email != "" ==> '@' in m.email && ByteLen(m.email) <= 100)
       && (m.phone != "" ==> ByteLen(m.phone) <= 20)
       && !IsValidRole(m.role))
  {
    BlankIffAllSpace(m.name);
    if TrimSpace(m.name) == [] then Fail(BlankName)
    else if ByteLen(m.name) > 50 then Fail(NameTooLong)
    else if m.email != "" && '@' !in m.email then Fail(BadEmail)
    else if m.email != "" && ByteLen(m.email) > 100 then Fail(EmailTooLong)
    else if m.phone != "" && ByteLen(m.phone) > 20 then Fail(PhoneTooLong)
    else if !IsValidRole(m.role) then Fail(BadRole)
    else Pass
  }

  // ---------------------------------------------------------------------
  // Lookups

  /** MemberExists: false for id 0, the DAO's error for a missing row, and
      true for any stored row, removed or not. */
  function MemberExists(store: Store, id: Id): (r: Result<bool>)
    reads store
    ensures r == Ok(true) <==> id != 0 && id in store.members
    ensures r.Err? <==> id != 0 && id !in store.members
    ensures r.Err? ==> r.error == StoreError(MemberTable)
  {
    if id == 0 then Ok(false)
    else match store.MemberById(id)
      case Err(e) => Err(e)
      case Ok(_) => Ok(true)
  }

  /** GetMemberByID: any stored member, removed ones included. */
  function GetMemberByID(store: Store, id: Id): (r: Result<Member>)
    reads store
    ensures id == 0 ==> r == Err(Validation(InvalidId))
    ensures id != 0 && id !in store.members ==> r == Err(StoreError(MemberTable))
    ensures r.Ok? <==> id != 0 && id in store.members
    ensures r.Ok? ==> r.value == store.members[id]
  {
    if id == 0 then Err(Validation(InvalidId)) else store.MemberById(id)
  }

  /** GetMembersByFamilyID (and GetActiveMembersByFamilyID, whose code and
      query are the same): the family's members with status 1. */
  method GetMembersByFamilyID(store: Store, familyId: Id) returns (r: Result<seq<Member>>)
    ensures familyId == 0 ==> r == Err(Validation(InvalidId))
    ensures familyId != 0 && familyId !in store.families ==> r == Err(StoreError(FamilyTable))
    ensures familyId != 0 && familyId in store.families ==> r == Ok(store.ActiveMembersOf(familyId))
  {
    if familyId == 0 {
      return Err(Validation(InvalidId));
    }
    var found := Families.FamilyExists(store, familyId);
    if found.Err? {
      return Err(found.error);
    }
    if !found.value {
      return Err(NotFound(FamilyTable));
    }
    return Ok(store.ActiveMembersOf(familyId));
  }

  /** The listing holds exactly the family's member rows with status 1. */
  lemma ActiveMembersListed(store: Store, familyId: Id)
    requires store.Valid()
    ensures forall m :: m in store.ActiveMembersOf(familyId) <==>
      m in store.members.Values && m.familyId == familyId && m.status == ACTIVE
  {
    var rows := Rows(store.members, store.nextMember);
    forall m | m in store.members.Values && m.familyId == familyId && m.status == ACTIVE
      ensures m in store.ActiveMembersOf(familyId)
    {
      var k :| k in store.members && store.members[k] == m;
      assert m in rows;
      var i :| 0 <= i < |rows| && rows[i] == m;
    }
  }

  // ---------------------------------------------------------------------
  // Email and phone uniqueness

  /** A member row other than excludeId has this email. */
  ghost predicate EmailInUse(members: map<Id, Member>, email: string, excludeId: Id)
  {
    exists k :: k in members && k != excludeId && members[k].email == email
  }

  /** A member row other than excludeId has this phone. */
  ghost predicate PhoneInUse(members: map<Id, Member>, phone: string, excludeId: Id)
  {
    exists k :: k in members && k != excludeId && members[k].phone == phone
  }

  /** No two member rows share a non-empty email or a non-empty phone: what
      the uniqueness checks keep true. */
  ghost predicate ContactsDistinct(members: map<Id, Member>)
  {
    forall a, b :: a in members && b in members && a != b ==>
      && (members[a].email != "" ==> members[a].email != members[b].email)
      && (members[a].phone != "" ==> members[a].phone != members[b].phone)
  }

  /** emailExists: a case-sensitive scan of every member row, removed ones
      included, skipping excludeId. */
  method EmailExists(store: Store, email: string, excludeId: Id) returns (taken: bool)
    requires store.Valid()
    ensures taken <==> EmailInUse(store.members, email, excludeId)
  {
    var rows := store.AllMembers();
    var clash := (m: Member) => m.email == email && m.id != excludeId;
    taken := Any(rows, clash);
    RowsAny(store.members, store.nextMember, clash);
    assert forall k :: k in store.members ==> store.members[k].id == k;
  }

  /** phoneExists: the same scan for the phone. */
  method PhoneExists(store: Store, phone: string, excludeId: Id) returns (taken: bool)
    requires store.Valid()
    ensures taken <==> PhoneInUse(store.members, phone, excludeId)
  {
    var rows := store.AllMembers();
    var clash := (m: Member) => m.phone == phone && m.id != excludeId;
    taken := Any(rows, clash);
    RowsAny(store.members, store.nextMember, clash);
    assert forall k :: k in store.members ==> store.members[k].id == k;
  }

  // ---------------------------------------------------------------------
  // CreateMember

  /** Only the member table and its counter may differ from the state
      before the call. */
  twostate predicate OnlyMembersChanged(store: Store)
    reads store
  {
    && store.families == old(store.families) && store.categories == old(store.categories)
    && store.tags == old(store.tags) && store.transactions == old(store.transactions)
    && store.links == old(store.links)
    && store.nextFamily == old(store.nextFamily) && store.nextCategory == old(store.nextCategory)
    && store.nextTag == old(store.nextTag) && store.nextTransaction == old(store.nextTransaction)
  }

  /** What CreateMember makes of m: the row it stores, or the first check
      that fails. The email and the phone are checked only when given. */
  ghost function CreateOutcome(families: map<Id, Family>, members: map<Id, Member>, next: Id, m: Member): Result<Member>
  {
    match ValidateMember(m)
    case Fail(fault) => Err(Validation(fault))
    case Pass =>
      if m.familyId == 0 then Err(NotFound(FamilyTable))
      else if m.familyId !in families then Err(StoreError(FamilyTable))
      else if m.email != "" && EmailInUse(members, m.email, 0) then Err(Conflict(EmailTaken))
      else if m.phone != "" && PhoneInUse(members, m.phone, 0) then Err(Conflict(PhoneTaken))
      else Ok(m.(id := next, status := ACTIVE))
  }

  /** The checks CreateMember makes before it writes. */
  method CheckCreate(store: Store, m: Member) returns (r: Result<()>)
    requires store.Valid()
    ensures var o := CreateOutcome(store.families, store.members, store.nextMember, m);
      && (r.Ok? ==> o == Ok(m.(id := store.nextMember, status := ACTIVE)))
      && (r.Err? ==> o == Err(r.error))
    ensures r.Ok? ==> m.familyId in store.families
  {
    var v := ValidateMember(m);
    if v.Fail? {
      return Err(Validation(v.fault));
    }
    var found := Families.FamilyExists(store, m.familyId);
    if found.Err? {
      return Err(found.error);
    }
    if !found.value {
      return Err(NotFound(FamilyTable));
    }
    if m.email != "" {
      var taken := EmailExists(store, m.email, 0);
      if taken {
        return Err(Conflict(EmailTaken));
      }
    }
    if m.phone != "" {
      var taken := PhoneExists(store, m.phone, 0);
      if taken {
        return Err(Conflict(PhoneTaken));
      }
    }
    return Ok(());
  }

  /** CreateMember. */
  method CreateMember(store: Store, m: Member) returns (r: Result<Member>)
    requires store.Valid()
    modifies store
    ensures store.Valid()
    ensures r == CreateOutcome(old(store.families), old(store.members), old(store.nextMember), m)
    ensures r.Ok? ==> store.members == old(store.members)[r.value.id := r.value]
    ensures r.Ok? ==> store.nextMember == old(store.nextMember) + 1
    ensures r.Err? ==> unchanged(store)
    ensures OnlyMembersChanged(store)
  {
    var checked := CheckCreate(store, m);
    if checked.Err? {
      return Err(checked.error);
    }
    var stored := store.CreateMember(m.(status := ACTIVE));
    return Ok(stored);
  }

  /** The email of a removed member still blocks a new member's email. */
  lemma RemovedMemberKeepsEmail(families: map<Id, Family>, members: map<Id, Member>, next: Id, m: Member, k: Id)
    requires ValidateMember(m) == Pass && m.familyId != 0 && m.familyId in families
    requires k != 0 && k in members && members[k].status == REMOVED && members[k].email == m.email != ""
    ensures CreateOutcome(families, members, next, m) == Err(Conflict(EmailTaken))
  {
  }

  /** Creation keeps emails and phones distinct. */
  lemma CreateKeepsContactsDistinct(families: map<Id, Family>, members: map<Id, Member>, next: Id, m: Member)
    requires ContactsDistinct(members) && next !in members && 0 !in members
    requires CreateOutcome(families, members, next, m).Ok?
    ensures ContactsDistinct(members[next := CreateOutcome(families, members, next, m).value])
  {
    var row := CreateOutcome(families, members, next, m).value;
    assert row.email == m.email && row.phone == m.phone;
    InsertKeepsContactsDistinct(members, next, row);
  }

  /** A row whose email and phone, when given, no stored row has keeps
      emails and phones distinct. */
  lemma InsertKeepsContactsDistinct(members: map<Id, Member>, next: Id, row: Member)
    requires ContactsDistinct(members) && next !in members && 0 !in members
    requires row.email != "" ==> !EmailInUse(members, row.email, 0)
    requires row.phone != "" ==> !PhoneInUse(members, row.phone, 0)
    ensures ContactsDistinct(members[next := row])
  {
    var after := members[next := row];
    forall a, b | a in after && b in after && a != b
      ensures after[a].email != "" ==> after[a].email != after[b].email
      ensures after[a].phone != "" ==> after[a].phone != after[b].phone
    {
      if a == next {
        assert after[b] == members[b];
      } else if b == next {
        assert after[a] == members[a];
      }
    }
  }

  // ---------------------------------------------------------------------
  // UpdateMember

  /** What UpdateMember makes of the table: id 0, validation (the role
      included, though it is not written), existence, then the email and
      phone against the other rows; only name, phone and email are
      written. */
  ghost function UpdateOutcome(members: map<Id, Member>, m: Member): Result<map<Id, Member>>
  {
    if m.id == 0 then Err(Validation(InvalidId))
    else match ValidateMember(m)
    case Fail(fault) => Err(Validation(fault))
    case Pass =>
      if m.id !in members then Err(StoreError(MemberTable))
      else if m.email != "" && EmailInUse(members, m.email, m.id) then Err(Conflict(EmailTaken))
      else if m.phone != "" && PhoneInUse(members, m.phone, m.id) then Err(Conflict(PhoneTaken))
      else Ok(members[m.id := members[m.id].(name := m.name, phone := m.phone, email := m.email)])
  }

  /** The checks UpdateMember makes before it writes. */
  method CheckUpdate(store: Store, m: Member) returns (r: Result<()>)
    requires store.Valid()
    ensures var o := UpdateOutcome(store.members, m);
      && (r.Ok? ==> (m.id in store.members
        && o == Ok(store.members[m.id := store.members[m.id].(name := m.name, phone := m.phone, email := m.email)])))
      && (r.Err? ==> o == Err(r.error))
  {
    if m.id == 0 {
      return Err(Validation(InvalidId));
    }
    var v := ValidateMember(m);
    if v.Fail? {
      return Err(Validation(v.fault));
    }
    var found := MemberExists(store, m.id);
    if found.Err? {
      return Err(found.error);
    }
    if !found.value {
      return Err(NotFound(MemberTable));
    }
    if m.email != "" {
      var taken := EmailExists(store, m.email, m.id);
      if taken {
        return Err(Conflict(EmailTaken));
      }
    }
    if m.phone != "" {
      var taken := PhoneExists(store, m.phone, m.id);
      if taken {
        return Err(Conflict(PhoneTaken));
      }
    }
    return Ok(());
  }

  /** UpdateMember. */
  method UpdateMember(store: Store, m: Member) returns (r: Result<()>)
    requires store.Valid()
    modifies store
    ensures store.Valid()
    ensures var o := UpdateOutcome(old(store.members), m);
      && (o.Err? ==> r == Err(o.error) && unchanged(store))
      && (o.Ok? ==> r == Ok(()) && store.members == o.value)
    ensures store.nextMember == old(store.nextMember)
    ensures OnlyMembersChanged(store)
  {
    r := CheckUpdate(store, m);
    if r.Ok? {
      store.UpdateMember(m);
      r := Ok(());
    }
  }

  /** An update keeps the row's id, family, role and status, whatever the
      record passed in says. */
  lemma UpdateKeepsRoleFamilyStatus(members: map<Id, Member>, m: Member)
    requires UpdateOutcome(members, m).Ok?
    ensures var after := UpdateOutcome(members, m).value;
      && after.Keys == members.Keys
      && after[m.id].id == members[m.id].id && after[m.id].familyId == members[m.id].familyId
      && after[m.id].role == members[m.id].role && after[m.id].status == members[m.id].status
      && after[m.id].name == m.name && after[m.id].phone == m.phone && after[m.id].email == m.email
      && forall k :: k in members && k != m.id ==> after[k] == members[k]
  {
  }

  /** An update keeps emails and phones distinct. */
  lemma UpdateKeepsContactsDistinct(members: map<Id, Member>, m: Member)
    requires ContactsDistinct(members)
    requires UpdateOutcome(members, m).Ok?
    ensures ContactsDistinct(UpdateOutcome(members, m).value)
  {
    var after := UpdateOutcome(members, m).value;
    forall a, b | a in after && b in after && a != b
      ensures after[a].email != "" ==> after[a].email != after[b].email
      ensures after[a].phone != "" ==> after[a].phone != after[b].phone
    {
      if a == m.id || b == m.id {
        assert !EmailInUse(members, m.email, m.id) || m.email == "";
        assert !PhoneInUse(members, m.phone, m.id) || m.phone == "";
      }
    }
  }

  // ---------------------------------------------------------------------
  // DeleteMember and ChangeMemberRole

  /** What DeleteMember makes of the table: status 0 on any stored row. */
  ghost function DeleteOutcome(members: map<Id, Member>, id: Id): Result<map<Id, Member>>
  {
    if id == 0 then Err(Validation(InvalidId))
    else if id !in members then Err(StoreError(MemberTable))
    else Ok(members[id := members[id].(status := REMOVED)])
  }

  /** DeleteMember: a soft delete. */
  method DeleteMember(store: Store, id: Id) returns (r: Result<()>)
    requires store.Valid()
    modifies store
    ensures store.Valid()
    ensures var o := DeleteOutcome(old(store.members), id);
      && (o.Err? ==> r == Err(o.error) && unchanged(store))
      && (o.Ok? ==> r == Ok(()) && store.members == o.value)
    ensures store.nextMember == old(store.nextMember)
    ensures OnlyMembersChanged(store)
  {
    if id == 0 {
      return Err(Validation(InvalidId));
    }
    var found := MemberExists(store, id);
    if found.Err? {
      return Err(found.error);
    }
    if !found.value {
      return Err(NotFound(MemberTable));
    }
    store.DeleteMember(id);
    return Ok(());
  }

  /** Deleting a removed member succeeds again and changes nothing more. */
  lemma DeleteTwice(members: map<Id, Member>, id: Id)
    requires DeleteOutcome(members, id).Ok?
    ensures DeleteOutcome(DeleteOutcome(members, id).value, id) == DeleteOutcome(members, id)
  {
    var after := DeleteOutcome(members, id).value;
    assert after[id := after[id].(status := REMOVED)] == after;
  }

  /** What ChangeMemberRole makes of the table: id 0, then the role, then
      existence; only the role is written. */
  ghost function ChangeRoleOutcome(members: map<Id, Member>, id: Id, role: string): Result<map<Id, Member>>
  {
    if id == 0 then Err(Validation(InvalidId))
    else if !IsValidRole(role) then Err(Validation(BadRole))
    else if id !in members then Err(StoreError(MemberTable))
    else Ok(members[id := members[id].(role := role)])
  }

  /** ChangeMemberRole. */
  method ChangeMemberRole(store: Store, id: Id, role: string) returns (r: Result<()>)
    requires store.Valid()
    modifies store
    ensures store.Valid()
    ensures var o := ChangeRoleOutcome(old(store.members), id, role);
      && (o.Err? ==> r == Err(o.error) && unchanged(store))
      && (o.Ok? ==> r == Ok(()) && store.members == o.value)
    ensures store.nextMember == old(store.nextMember)
    ensures OnlyMembersChanged(store)
  {
    if id == 0 {
      return Err(Validation(InvalidId));
    }
    if !IsValidRole(role) {
      return Err(Validation(BadRole));
    }
    var found := MemberExists(store, id);
    if found.Err? {
      return Err(found.error);
    }
    if !found.value {
      return Err(NotFound(MemberTable));
    }
    store.UpdateMemberRole(id, role);
    return Ok(());
  }

  /** Deleting and changing a role leave emails and phones alone, so they
      keep them distinct; a removed member keeps its role and a member
      whose role changes keeps its status. */
  lemma DeleteAndRoleKeepContacts(members: map<Id, Member>, id: Id, role: string)
    requires ContactsDistinct(members)
    ensures DeleteOutcome(members, id).Ok? ==> ContactsDistinct(DeleteOutcome(members, id).value)
    ensures ChangeRoleOutcome(members, id, role).Ok? ==> ContactsDistinct(ChangeRoleOutcome(members, id, role).value)
  {
    if DeleteOutcome(members, id).Ok? {
      SameContacts(members, DeleteOutcome(members, id).value);
    }
    if ChangeRoleOutcome(members, id, role).Ok? {
      SameContacts(members, ChangeRoleOutcome(members, id, role).value);
    }
  }

  /** Rows that keep their emails and phones keep them distinct. */
  lemma SameContacts(members: map<Id, Member>, after: map<Id, Member>)
    requires ContactsDistinct(members) && after.Keys == members.Keys
    requires forall k :: k in after ==> after[k].email == members[k].email && after[k].phone == members[k].phone
    ensures ContactsDistinct(after)
  {
  }
}
