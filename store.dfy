/** The database behind the data-access objects of the model package: one table per
    record kind, each with its own auto-increment counter, plus the
    transaction_tags join table. The methods of class Store are the DAO
    operations; reads are functions. A missing row makes GORM's `First`
    return an error, so every lookup is a Result. */
module Store {

  import opened Wrappers
  import opened Domain
  import opened Hierarchy
  import opened Seqs

  /** The rows of m with ids below n, by ascending id: the order in which a
      query without ORDER BY returns them. */
  function Rows<T(==)>(m: map<Id, T>, n: nat): (r: seq<T>)
    ensures forall i :: 0 <= i < |r| ==> r[i] in m.Values
    ensures forall id :: id in m && id < n ==> m[id] in r
  {
    if n == 0 then []
    else Rows(m, n - 1) + (if n - 1 in m then [m[n - 1]] else [])
  }

  /** Some row of m below n passes p exactly when some listed row does. */
  lemma RowsAny<T>(m: map<Id, T>, n: nat, p: T -> bool)
    requires forall id :: id in m ==> id < n
    ensures (exists i :: 0 <= i < |Rows(m, n)| && p(Rows(m, n)[i])) ==> (exists id :: id in m && p(m[id]))
    ensures (exists id :: id in m && p(m[id])) ==> (exists i :: 0 <= i < |Rows(m, n)| && p(Rows(m, n)[i]))
  {
    var r := Rows(m, n);
    if exists i :: 0 <= i < |r| && p(r[i]) {
      var i :| 0 <= i < |r| && p(r[i]);
      var id :| id in m && m[id] == r[i];
      assert p(m[id]);
    }
    if exists id :: id in m && p(m[id]) {
      var id :| id in m && p(m[id]);
      var i :| 0 <= i < |r| && r[i] == m[id];
      assert p(r[i]);
    }
  }

  /** Every key is a positive id below the table's counter and equals the
      row's own id. */
  ghost predicate Keyed<T>(m: map<Id, T>, next: Id, idOf: T -> Id)
  {
    0 < next && forall id :: id in m ==> 0 < id < next && idOf(m[id]) == id
  }

  /** The category table: rows keyed by their ids below the counter,
      stored without children, with parent links that name stored rows and
      hold no cycle. */
  ghost predicate CategoriesSound(cats: map<Id, Category>, next: Id)
  {
    && Keyed(cats, next, (c: Category) => c.id)
    && (forall id :: id in cats ==> cats[id].children == [])
    && ParentsStored(cats)
    && Acyclic(cats)
  }

  class Store {
    var families: map<Id, Family>
    var members: map<Id, Member>
    var categories: map<Id, Category>
    var tags: map<Id, Tag>
    var transactions: map<Id, Transaction>
    /** The transaction_tags table, one (transaction id, tag id) per row. */
    var links: multiset<Link>

    var nextFamily: Id
    var nextMember: Id
    var nextCategory: Id
    var nextTag: Id
    var nextTransaction: Id

    /** What the services keep true of the database. Rows are stored under
        their own ids, without attached associations. The category parent
        links are acyclic and point at stored rows. Every member belongs to
        a stored family, which is why a family with members cannot be
        deleted. Every join row names a stored transaction and tag, and no
        pair is linked twice. */
    ghost predicate Valid()
      reads this
    {
      && Keyed(families, nextFamily, (f: Family) => f.id)
      && Keyed(members, nextMember, (m: Member) => m.id)
      && CategoriesSound(categories, nextCategory)
      && Keyed(tags, nextTag, (t: Tag) => t.id)
      && Keyed(transactions, nextTransaction, (t: Transaction) => t.id)
      && (forall id :: id in families ==> families[id].members == [])
      && (forall id :: id in members ==> members[id].familyId in families)
      && (forall l :: l in links ==> l.0 in transactions && l.1 in tags && links[l] == 1)
    }

    /** An empty database. */
    constructor ()
      ensures Valid()
      ensures families == map[] && members == map[] && categories == map[]
      ensures tags == map[] && transactions == map[] && links == multiset{}
    {
      families, members, categories := map[], map[], map[];
      tags, transactions, links := map[], map[], multiset{};
      nextFamily, nextMember, nextCategory, nextTag, nextTransaction := 1, 1, 1, 1, 1;
    }

    // -------------------------------------------------------------------
    // Families (model/family.go)

    /** The member rows of a family, of any status: GORM's Preload("Members"). */
    function MembersOf(familyId: Id): seq<Member>
      reads this
    {
      Filter(Rows(members, nextMember), (m: Member) => m.familyId == familyId)
    }

    /** FamilyDao.GetFamilyByID: the row with its members attached. */
    function FamilyById(id: Id): (r: Result<Family>)
      reads this
      ensures r.Ok? <==> id in families
      ensures r.Ok? ==> r.value == families[id].(members := MembersOf(id))
      ensures r.Err? ==> r.error == StoreError(FamilyTable)
    {
      if id in families then Ok(families[id].(members := MembersOf(id)))
      else Err(StoreError(FamilyTable))
    }

    /** FamilyDao.GetAllFamilies, each with its members attached. */
    function AllFamilies(): seq<Family>
      reads this
    {
      var rows := Rows(families, nextFamily);
      seq(|rows|, i requires 0 <= i < |rows| reads this => rows[i].(members := MembersOf(rows[i].id)))
    }

    /** FamilyDao.CreateFamily: insert under the next id. */
    method CreateFamily(f: Family) returns (stored: Family)
      modifies this
      ensures stored == f.(id := old(nextFamily), members := [])
      ensures families == old(families)[stored.id := stored]
      ensures nextFamily == old(nextFamily) + 1
      ensures members == old(members) && categories == old(categories) && tags == old(tags)
      ensures transactions == old(transactions) && links == old(links)
      ensures nextMember == old(nextMember) && nextCategory == old(nextCategory)
      ensures nextTag == old(nextTag) && nextTransaction == old(nextTransaction)
    {
      stored := f.(id := nextFamily, members := []);
      families := families[stored.id := stored];
      nextFamily := nextFamily + 1;
    }

    /** FamilyDao.UpdateFamily: writes the name column of row f.id, if any. */
    method UpdateFamily(f: Family)
      modifies this
      ensures families == if f.id in old(families)
        then old(families)[f.id := old(families)[f.id].(name := f.name)]
        else old(families)
      ensures old(Valid()) ==> Valid()
      ensures members == old(members) && categories == old(categories) && tags == old(tags)
      ensures transactions == old(transactions) && links == old(links)
      ensures nextFamily == old(nextFamily) && nextMember == old(nextMember)
      ensures nextCategory == old(nextCategory) && nextTag == old(nextTag)
      ensures nextTransaction == old(nextTransaction)
    {
      if f.id in families {
        families := families[f.id := families[f.id].(name := f.name)];
      }
    }

    /** FamilyDao.DeleteFamily: a hard delete. */
    method DeleteFamily(id: Id)
      modifies this
      ensures families == old(families) - {id}
      ensures members == old(members) && categories == old(categories) && tags == old(tags)
      ensures transactions == old(transactions) && links == old(links)
      ensures nextFamily == old(nextFamily) && nextMember == old(nextMember)
      ensures nextCategory == old(nextCategory) && nextTag == old(nextTag)
      ensures nextTransaction == old(nextTransaction)
    {
      families := families - {id};
    }

    // -------------------------------------------------------------------
    // Members (model/member.go)

    /** MemberDao.GetMemberByID. */
    function MemberById(id: Id): (r: Result<Member>)
      reads this
      ensures r.Ok? <==> id in members
      ensures r.Ok? ==> r.value == members[id]
      ensures r.Err? ==> r.error == StoreError(MemberTable)
    {
      if id in members then Ok(members[id]) else Err(StoreError(MemberTable))
    }

    /** MemberDao.GetAllMembers. */
    function AllMembers(): seq<Member>
      reads this
    {
      Rows(members, nextMember)
    }

    /** MemberDao.GetMembersByFamilyID and GetActiveMembersByFamilyID (the
        same query): the family's members whose status is 1. */
    function ActiveMembersOf(familyId: Id): seq<Member>
      reads this
    {
      Filter(Rows(members, nextMember), (m: Member) => m.familyId == familyId && m.status == ACTIVE)
    }

    /** MemberDao.CreateMember: insert under the next id. */
    method CreateMember(m: Member) returns (stored: Member)
      modifies this
      ensures stored == m.(id := old(nextMember))
      ensures members == old(members)[stored.id := stored]
      ensures old(Valid()) && m.familyId in families ==> Valid()
      ensures nextMember == old(nextMember) + 1
      ensures families == old(families) && categories == old(categories) && tags == old(tags)
      ensures transactions == old(transactions) && links == old(links)
      ensures nextFamily == old(nextFamily) && nextCategory == old(nextCategory)
      ensures nextTag == old(nextTag) && nextTransaction == old(nextTransaction)
    {
      stored := m.(id := nextMember);
      members := members[stored.id := stored];
      nextMember := nextMember + 1;
    }

    /** MemberDao.UpdateMember: writes the name, phone and email columns of
        row m.id, if any. */
    method UpdateMember(m: Member)
      modifies this
      ensures members == if m.id in old(members)
        then old(members)[m.id := old(members)[m.id].(name := m.name, phone := m.phone, email := m.email)]
        else old(members)
      ensures old(Valid()) ==> Valid()
      ensures families == old(families) && categories == old(categories) && tags == old(tags)
      ensures transactions == old(transactions) && links == old(links)
      ensures nextFamily == old(nextFamily) && nextMember == old(nextMember)
      ensures nextCategory == old(nextCategory) && nextTag == old(nextTag)
      ensures nextTransaction == old(nextTransaction)
    {
      if m.id in members {
        members := members[m.id := members[m.id].(name := m.name, phone := m.phone, email := m.email)];
      }
    }

    /** MemberDao.DeleteMember: sets the status of row id to 0, if any. */
    method DeleteMember(id: Id)
      modifies this
      ensures members == if id in old(members)
        then old(members)[id := old(members)[id].(status := REMOVED)]
        else old(members)
      ensures families == old(families) && categories == old(categories) && tags == old(tags)
      ensures transactions == old(transactions) && links == old(links)
      ensures nextFamily == old(nextFamily) && nextMember == old(nextMember)
      ensures nextCategory == old(nextCategory) && nextTag == old(nextTag)
      ensures nextTransaction == old(nextTransaction)
    {
      if id in members {
        members := members[id := members[id].(status := REMOVED)];
      }
    }

    /** MemberDao.UpdateMemberRole: sets the role of row id, if any. */
    method UpdateMemberRole(id: Id, role: string)
      modifies this
      ensures members == if id in old(members)
        then old(members)[id := old(members)[id].(role := role)]
        else old(members)
      ensures families == old(families) && categories == old(categories) && tags == old(tags)
      ensures transactions == old(transactions) && links == old(links)
      ensures nextFamily == old(nextFamily) && nextMember == old(nextMember)
      ensures nextCategory == old(nextCategory) && nextTag == old(nextTag)
      ensures nextTransaction == old(nextTransaction)
    {
      if id in members {
        members := members[id := members[id].(role := role)];
      }
    }

    // -------------------------------------------------------------------
    // Categories (model/category.go)

    /** The category rows whose parent_id is id: GORM's Preload("Children"). */
    function ChildrenOf(id: Id): seq<Category>
      reads this
    {
      Filter(Rows(categories, nextCategory), (c: Category) => c.parentId == Some(id))
    }

    /** CategoryDao.GetCategoriesByParentID: the live rows whose parent_id
        is id; also Preload("Children", "is_deleted = false"). */
    function LiveChildrenOf(id: Id): seq<Category>
      reads this
    {
      Filter(Rows(categories, nextCategory), (c: Category) => c.parentId == Some(id) && !c.isDeleted)
    }

    /** CategoryDao.GetCategoryByID: the row with its children attached. */
    function CategoryById(id: Id): (r: Result<Category>)
      reads this
      ensures r.Ok? <==> id in categories
      ensures r.Ok? ==> r.value == categories[id].(children := ChildrenOf(id))
      ensures r.Err? ==> r.error == StoreError(CategoryTable)
    {
      if id in categories then Ok(categories[id].(children := ChildrenOf(id)))
      else Err(StoreError(CategoryTable))
    }

    /** CategoryDao.GetAllCategories, each row with its children attached. */
    function AllCategories(): seq<Category>
      reads this
    {
      var rows := Rows(categories, nextCategory);
      seq(|rows|, i requires 0 <= i < |rows| reads this => rows[i].(children := ChildrenOf(rows[i].id)))
    }

    /** CategoryDao.GetCategoriesByType: the live rows of one type, each with
        its live children attached. */
    function CategoriesOfType(categoryType: string): seq<Category>
      reads this
    {
      var rows := Filter(Rows(categories, nextCategory),
        (c: Category) => c.categoryType == categoryType && !c.isDeleted);
      seq(|rows|, i requires 0 <= i < |rows| reads this => rows[i].(children := LiveChildrenOf(rows[i].id)))
    }

    /** CategoryDao.CreateCategory: insert under the next id. */
    method CreateCategory(c: Category) returns (stored: Category)
      modifies this
      ensures stored == c.(id := old(nextCategory), children := [])
      ensures categories == old(categories)[stored.id := stored]
      ensures nextCategory == old(nextCategory) + 1
      ensures families == old(families) && members == old(members) && tags == old(tags)
      ensures transactions == old(transactions) && links == old(links)
      ensures nextFamily == old(nextFamily) && nextMember == old(nextMember)
      ensures nextTag == old(nextTag) && nextTransaction == old(nextTransaction)
    {
      stored := c.(id := nextCategory, children := []);
      categories := categories[stored.id := stored];
      nextCategory := nextCategory + 1;
    }

    /** CategoryDao.UpdateCategory (GORM Save): writes every column of row
        c.id. */
    method SaveCategory(c: Category)
      modifies this
      ensures categories == old(categories)[c.id := c.(children := [])]
      ensures families == old(families) && members == old(members) && tags == old(tags)
      ensures transactions == old(transactions) && links == old(links)
      ensures nextFamily == old(nextFamily) && nextMember == old(nextMember)
      ensures nextCategory == old(nextCategory) && nextTag == old(nextTag)
      ensures nextTransaction == old(nextTransaction)
    {
      categories := categories[c.id := c.(children := [])];
    }

    /** CategoryDao.DeleteCategory: sets is_deleted on row id, if any. */
    method DeleteCategory(id: Id)
      modifies this
      ensures categories == if id in old(categories)
        then old(categories)[id := old(categories)[id].(isDeleted := true)]
        else old(categories)
      ensures families == old(families) && members == old(members) && tags == old(tags)
      ensures transactions == old(transactions) && links == old(links)
      ensures nextFamily == old(nextFamily) && nextMember == old(nextMember)
      ensures nextCategory == old(nextCategory) && nextTag == old(nextTag)
      ensures nextTransaction == old(nextTransaction)
    {
      if id in categories {
        categories := categories[id := categories[id].(isDeleted := true)];
      }
    }

    // -------------------------------------------------------------------
    // Tags (model/tag.go)

    /** TagDao.GetTagByID. */
    function TagById(id: Id): (r: Result<Tag>)
      reads this
      ensures r.Ok? <==> id in tags
      ensures r.Ok? ==> r.value == tags[id]
      ensures r.Err? ==> r.error == StoreError(TagTable)
    {
      if id in tags then Ok(tags[id]) else Err(StoreError(TagTable))
    }

    /** TagDao.GetAllTags. */
    function AllTags(): seq<Tag>
      reads this
    {
      Rows(tags, nextTag)
    }

    /** TagDao.GetTagsByFamilyID: the family's active tags. */
    function ActiveTagsOf(familyId: Id): seq<Tag>
      reads this
    {
      Filter(Rows(tags, nextTag), (t: Tag) => t.familyId == familyId && t.isActive)
    }

    /** TagDao.GetTagsByType: the family's active tags of one type. */
    function ActiveTagsOfType(familyId: Id, tagType: string): seq<Tag>
      reads this
    {
      Filter(Rows(tags, nextTag), (t: Tag) => t.familyId == familyId && t.tagType == tagType && t.isActive)
    }

    /** TagDao.IsTagUsedInTransactions: some join row names the tag. */
    predicate TagUsed(tagId: Id)
      reads this
    {
      exists l :: l in links && l.1 == tagId
    }

    /** TagDao.CreateTag: insert under the next id. */
    method CreateTag(t: Tag) returns (stored: Tag)
      modifies this
      ensures stored == t.(id := old(nextTag))
      ensures tags == old(tags)[stored.id := stored]
      ensures old(Valid()) ==> Valid()
      ensures nextTag == old(nextTag) + 1
      ensures families == old(families) && members == old(members) && categories == old(categories)
      ensures transactions == old(transactions) && links == old(links)
      ensures nextFamily == old(nextFamily) && nextMember == old(nextMember)
      ensures nextCategory == old(nextCategory) && nextTransaction == old(nextTransaction)
    {
      stored := t.(id := nextTag);
      tags := tags[stored.id := stored];
      nextTag := nextTag + 1;
    }

    /** TagDao.UpdateTag (GORM Save): writes every column of row t.id. */
    method SaveTag(t: Tag)
      modifies this
      ensures tags == old(tags)[t.id := t]
      ensures old(Valid()) && t.id in old(tags) ==> Valid()
      ensures families == old(families) && members == old(members) && categories == old(categories)
      ensures transactions == old(transactions) && links == old(links)
      ensures nextFamily == old(nextFamily) && nextMember == old(nextMember)
      ensures nextCategory == old(nextCategory) && nextTag == old(nextTag)
      ensures nextTransaction == old(nextTransaction)
    {
      tags := tags[t.id := t];
    }

    /** TagDao.DeleteTag: clears is_active on row id, if any. */
    method DeleteTag(id: Id)
      modifies this
      ensures tags == if id in old(tags)
        then old(tags)[id := old(tags)[id].(isActive := false)]
        else old(tags)
      ensures families == old(families) && members == old(members) && categories == old(categories)
      ensures transactions == old(transactions) && links == old(links)
      ensures nextFamily == old(nextFamily) && nextMember == old(nextMember)
      ensures nextCategory == old(nextCategory) && nextTag == old(nextTag)
      ensures nextTransaction == old(nextTransaction)
    {
      if id in tags {
        tags := tags[id := tags[id].(isActive := false)];
      }
    }

    // -------------------------------------------------------------------
    // Transactions and their tags (model/transaction.go)

    /** TransactionDao.GetTransactionByID, whatever the status. */
    function TransactionById(id: Id): (r: Result<Transaction>)
      reads this
      ensures r.Ok? <==> id in transactions
      ensures r.Ok? ==> r.value == transactions[id]
      ensures r.Err? ==> r.error == StoreError(TransactionTable)
    {
      if id in transactions then Ok(transactions[id]) else Err(StoreError(TransactionTable))
    }

    /** TransactionDao.TagExistsInTransaction: a join row links the pair. */
    predicate Linked(transactionId: Id, tagId: Id)
      reads this
    {
      (transactionId, tagId) in links
    }

    /** TransactionDao.CreateTransaction: insert under the next id. */
    method CreateTransaction(t: Transaction) returns (stored: Transaction)
      modifies this
      ensures stored == t.(id := old(nextTransaction))
      ensures transactions == old(transactions)[stored.id := stored]
      ensures nextTransaction == old(nextTransaction) + 1
      ensures families == old(families) && members == old(members) && categories == old(categories)
      ensures tags == old(tags) && links == old(links)
      ensures nextFamily == old(nextFamily) && nextMember == old(nextMember)
      ensures nextCategory == old(nextCategory) && nextTag == old(nextTag)
    {
      stored := t.(id := nextTransaction);
      transactions := transactions[stored.id := stored];
      nextTransaction := nextTransaction + 1;
    }

    /** TransactionDao.UpdateTransaction (GORM Save): writes every column of
        row t.id. */
    method SaveTransaction(t: Transaction)
      modifies this
      ensures transactions == old(transactions)[t.id := t]
      ensures families == old(families) && members == old(members) && categories == old(categories)
      ensures tags == old(tags) && links == old(links)
      ensures nextFamily == old(nextFamily) && nextMember == old(nextMember)
      ensures nextCategory == old(nextCategory) && nextTag == old(nextTag)
      ensures nextTransaction == old(nextTransaction)
    {
      transactions := transactions[t.id := t];
    }

    /** TransactionDao.DeleteTransaction: sets the status of row id to
        "deleted", if any. */
    method DeleteTransaction(id: Id)
      modifies this
      ensures transactions == if id in old(transactions)
        then old(transactions)[id := old(transactions)[id].(status := Deleted)]
        else old(transactions)
      ensures families == old(families) && members == old(members) && categories == old(categories)
      ensures tags == old(tags) && links == old(links)
      ensures nextFamily == old(nextFamily) && nextMember == old(nextMember)
      ensures nextCategory == old(nextCategory) && nextTag == old(nextTag)
      ensures nextTransaction == old(nextTransaction)
    {
      if id in transactions {
        transactions := transactions[id := transactions[id].(status := Deleted)];
      }
    }

    /** TransactionDao.AddTagToTransaction: inserts one join row. */
    method AddLink(transactionId: Id, tagId: Id)
      modifies this
      ensures links == old(links) + multiset{(transactionId, tagId)}
      ensures families == old(families) && members == old(members) && categories == old(categories)
      ensures tags == old(tags) && transactions == old(transactions)
      ensures nextFamily == old(nextFamily) && nextMember == old(nextMember)
      ensures nextCategory == old(nextCategory) && nextTag == old(nextTag)
      ensures nextTransaction == old(nextTransaction)
    {
      links := links + multiset{(transactionId, tagId)};
    }

    /** TransactionDao.RemoveTagFromTransaction: deletes every join row of
        the pair. */
    method RemoveLinks(transactionId: Id, tagId: Id)
      modifies this
      ensures links == old(links)[(transactionId, tagId) := 0]
      ensures families == old(families) && members == old(members) && categories == old(categories)
      ensures tags == old(tags) && transactions == old(transactions)
      ensures nextFamily == old(nextFamily) && nextMember == old(nextMember)
      ensures nextCategory == old(nextCategory) && nextTag == old(nextTag)
      ensures nextTransaction == old(nextTransaction)
    {
      links := links[(transactionId, tagId) := 0];
    }
  }
}
