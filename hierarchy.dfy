/** The upward walk over category rows that checkCircularDependency performs
    (service/category.go:455-486), and the acyclicity of the parent links
    that makes the walk end. A walk from a category id follows `ParentID`
    until it reaches id 0, a missing row, a deleted row or a row without a
    parent. */
module Hierarchy {

  import opened Wrappers
  import opened Domain

  /** The walk does not continue past id. */
  predicate Stops(cats: map<Id, Category>, id: Id)
  {
    id == 0 || id !in cats || cats[id].isDeleted || cats[id].parentId.None?
  }

  /** The next id of the walk. */
  function Up(cats: map<Id, Category>, id: Id): Id
    requires !Stops(cats, id)
  {
    cats[id].parentId.value
  }

  /** The walk from id stops within n steps. */
  ghost predicate EndsWithin(cats: map<Id, Category>, id: Id, n: nat)
    decreases n
  {
    Stops(cats, id) || (n > 0 && EndsWithin(cats, Up(cats, id), n - 1))
  }

  /** Every walk from a stored category ends: the live parent links hold no
      cycle. */
  ghost predicate Acyclic(cats: map<Id, Category>)
  {
    forall id :: id in cats ==> exists n: nat :: EndsWithin(cats, id, n)
  }

  /** Every stored parent reference is 0 or names a stored row. */
  ghost predicate ParentsStored(cats: map<Id, Category>)
  {
    forall id :: id in cats && cats[id].parentId.Some? ==>
      cats[id].parentId.value == 0 || cats[id].parentId.value in cats
  }

  /** In an acyclic table the walk from any id ends, stored or not. */
  lemma WalkEnds(cats: map<Id, Category>, id: Id) returns (n: nat)
    requires Acyclic(cats)
    ensures EndsWithin(cats, id, n)
  {
    if id in cats {
      n :| EndsWithin(cats, id, n);
    } else {
      n := 0;
    }
  }

  lemma WalkEndsSomewhere(cats: map<Id, Category>, id: Id)
    requires Acyclic(cats)
    ensures exists n: nat :: EndsWithin(cats, id, n)
  {
    var n := WalkEnds(cats, id);
  }

  /** More steps never hurt. */
  lemma {:induction false} EndsMonotone(cats: map<Id, Category>, id: Id, n: nat, m: nat)
    requires EndsWithin(cats, id, n) && n <= m
    ensures EndsWithin(cats, id, m)
    decreases n
  {
    if !Stops(cats, id) {
      EndsMonotone(cats, Up(cats, id), n - 1, m - 1);
    }
  }

  /** The outcome of the loop of checkCircularDependency once it is at cur,
      looking for target: Ok when the walk ends, a Cycle conflict when it
      meets target first, a store error when a row it must read is
      missing. */
  function Walk(cats: map<Id, Category>, cur: Id, target: Id, n: nat): (r: Result<()>)
    requires EndsWithin(cats, cur, n)
    ensures r.Err? ==> r.error == Conflict(Cycle) || r.error == StoreError(CategoryTable)
    decreases n
  {
    if cur == 0 then Ok(())
    else if cur !in cats then Err(StoreError(CategoryTable))
    else if cats[cur].isDeleted then Ok(())
    else if cur == target then Err(Conflict(Cycle))
    else if cats[cur].parentId.None? then Ok(())
    else Walk(cats, Up(cats, cur), target, n - 1)
  }

  /** The outcome does not depend on how many steps were granted. */
  lemma {:induction false} WalkFuel(cats: map<Id, Category>, cur: Id, target: Id, n: nat, m: nat)
    requires EndsWithin(cats, cur, n) && EndsWithin(cats, cur, m)
    ensures Walk(cats, cur, target, n) == Walk(cats, cur, target, m)
    decreases n
  {
    if !Stops(cats, cur) && cur != target {
      WalkFuel(cats, Up(cats, cur), target, n - 1, m - 1);
    }
  }

  /** Any grant of steps gives the outcome of a given one. */
  lemma WalkAnyFuel(cats: map<Id, Category>, cur: Id, target: Id, m: nat)
    requires EndsWithin(cats, cur, m)
    ensures forall n: nat :: EndsWithin(cats, cur, n) ==> Walk(cats, cur, target, n) == Walk(cats, cur, target, m)
  {
    forall n: nat | EndsWithin(cats, cur, n) ensures Walk(cats, cur, target, n) == Walk(cats, cur, target, m) {
      WalkFuel(cats, cur, target, n, m);
    }
  }

  /** What checkCircularDependency(categoryId, parentId) returns. */
  ghost function CircularCheck(cats: map<Id, Category>, categoryId: Id, parentId: Id): Result<()>
    requires Acyclic(cats)
  {
    if categoryId == parentId then Err(Conflict(SelfParent))
    else
      WalkEndsSomewhere(cats, parentId);
      var n: nat :| EndsWithin(cats, parentId, n);
      Walk(cats, parentId, categoryId, n)
  }

  /** For distinct ids, checkCircularDependency's outcome is the walk's
      outcome with any sufficient number of steps. */
  lemma CircularCheckIsWalk(cats: map<Id, Category>, categoryId: Id, parentId: Id, n: nat)
    requires Acyclic(cats) && categoryId != parentId && EndsWithin(cats, parentId, n)
    ensures CircularCheck(cats, categoryId, parentId) == Walk(cats, parentId, categoryId, n)
  {
    WalkAnyFuel(cats, parentId, categoryId, n);
  }

  /** The walk from id reaches target. */
  ghost predicate Reaches(cats: map<Id, Category>, id: Id, target: Id, n: nat)
    decreases n
  {
    id == target || (!Stops(cats, id) && n > 0 && Reaches(cats, Up(cats, id), target, n - 1))
  }

  /** The check refuses exactly the walks that climb from the proposed parent
      to the category itself through live rows (every row on the way read
      successfully). */
  lemma {:induction false} WalkCycleIffReaches(cats: map<Id, Category>, cur: Id, target: Id, n: nat)
    requires EndsWithin(cats, cur, n)
    requires target != 0 && target in cats && !cats[target].isDeleted
    ensures Walk(cats, cur, target, n) == Err(Conflict(Cycle)) <==> Reaches(cats, cur, target, n)
    decreases n
  {
    if cur != 0 && cur in cats && !cats[cur].isDeleted && cur != target && cats[cur].parentId.Some? {
      WalkCycleIffReaches(cats, Up(cats, cur), target, n - 1);
    }
  }

  // ---------------------------------------------------------------------
  // Acyclicity is preserved by the writes the services make

  /** The walk from id ends without meeting x. */
  ghost predicate Avoids(cats: map<Id, Category>, id: Id, x: Id, n: nat)
    decreases n
  {
    id != x && (Stops(cats, id) || (n > 0 && Avoids(cats, Up(cats, id), x, n - 1)))
  }

  /** A walk that never meets x does not see a change to row x. */
  lemma {:induction false} AvoidingWalkUnchanged(cats: map<Id, Category>, x: Id, c: Category, id: Id, n: nat)
    requires Avoids(cats, id, x, n)
    ensures EndsWithin(cats[x := c], id, n)
    decreases n
  {
    if !Stops(cats, id) {
      AvoidingWalkUnchanged(cats, x, c, Up(cats, id), n - 1);
    }
  }

  /** A walk the check let through never meets the (live) category that is
      being re-parented. */
  lemma {:induction false} WalkOkAvoids(cats: map<Id, Category>, cur: Id, x: Id, n: nat)
    requires EndsWithin(cats, cur, n) && Walk(cats, cur, x, n).Ok?
    requires x != 0 && x in cats && !cats[x].isDeleted
    ensures Avoids(cats, cur, x, n)
    decreases n
  {
    if !Stops(cats, cur) {
      WalkOkAvoids(cats, Up(cats, cur), x, n - 1);
    }
  }

  /** A walk in a table whose parents are stored never meets an unused id. */
  lemma {:induction false} FreshIdAvoided(cats: map<Id, Category>, id: Id, x: Id, n: nat)
    requires ParentsStored(cats) && EndsWithin(cats, id, n)
    requires x != 0 && x !in cats && (id == 0 || id in cats)
    ensures Avoids(cats, id, x, n)
    decreases n
  {
    if !Stops(cats, id) {
      FreshIdAvoided(cats, Up(cats, id), x, n - 1);
    }
  }

  /** Replacing row x by one that stops, or whose parent's walk ends in the
      new table within m steps, keeps every walk finite. */
  lemma {:induction false} EndsAfterReplace(cats: map<Id, Category>, x: Id, c: Category, id: Id, n: nat, m: nat)
    requires x != 0
    requires Stops(cats[x := c], x) || EndsWithin(cats[x := c], Up(cats[x := c], x), m)
    requires EndsWithin(cats, id, n)
    ensures EndsWithin(cats[x := c], id, n + m + 1)
    decreases n
  {
    var cats' := cats[x := c];
    if id == x {
      if !Stops(cats', x) {
        EndsMonotone(cats', Up(cats', x), m, n + m);
      }
    } else if !Stops(cats, id) {
      EndsAfterReplace(cats, x, c, Up(cats, id), n - 1, m);
    }
  }

  /** The general preservation step: a write of row x that leaves x's own
      walk finite leaves the whole table acyclic. */
  lemma AcyclicAfterReplace(cats: map<Id, Category>, x: Id, c: Category, m: nat)
    requires Acyclic(cats) && x != 0
    requires Stops(cats[x := c], x) || EndsWithin(cats[x := c], Up(cats[x := c], x), m)
    ensures Acyclic(cats[x := c])
  {
    var cats' := cats[x := c];
    forall id | id in cats' ensures exists k: nat :: EndsWithin(cats', id, k) {
      var n := WalkEnds(cats, id);
      EndsAfterReplace(cats, x, c, id, n, m);
    }
  }

  /** Soft-deleting a category (or writing any row that ends the walk) keeps
      the table acyclic. */
  lemma AcyclicAfterStop(cats: map<Id, Category>, x: Id, c: Category)
    requires Acyclic(cats) && x != 0
    requires c.isDeleted || c.parentId.None? || c.parentId == Some(0)
    ensures Acyclic(cats[x := c])
  {
    if !Stops(cats[x := c], x) {
      assert Up(cats[x := c], x) == 0;
      assert EndsWithin(cats[x := c], 0, 0);
    }
    AcyclicAfterReplace(cats, x, c, 0);
  }

  /** Inserting a row under a stored parent, at an unused id, keeps the
      table acyclic. */
  lemma AcyclicAfterInsert(cats: map<Id, Category>, x: Id, c: Category)
    requires Acyclic(cats) && ParentsStored(cats)
    requires x != 0 && x !in cats
    requires c.parentId.Some? ==> c.parentId.value == 0 || c.parentId.value in cats
    ensures Acyclic(cats[x := c])
  {
    if c.isDeleted || c.parentId.None? || c.parentId == Some(0) {
      AcyclicAfterStop(cats, x, c);
    } else {
      var p := c.parentId.value;
      var m := WalkEnds(cats, p);
      FreshIdAvoided(cats, p, x, m);
      AvoidingWalkUnchanged(cats, x, c, p, m);
      AcyclicAfterReplace(cats, x, c, m);
    }
  }

  /** Re-parenting a live category x under p, once the check has let
      (x, p) through, keeps the table acyclic. */
  lemma AcyclicAfterReparent(cats: map<Id, Category>, x: Id, c: Category)
    requires Acyclic(cats) && x != 0 && x in cats && !cats[x].isDeleted
    requires c.parentId.Some? && c.parentId.value != 0
    requires CircularCheck(cats, x, c.parentId.value).Ok?
    ensures Acyclic(cats[x := c])
  {
    if c.isDeleted {
      AcyclicAfterStop(cats, x, c);
    } else {
      var p := c.parentId.value;
      var m := WalkEnds(cats, p);
      WalkAnyFuel(cats, p, x, m);
      WalkOkAvoids(cats, p, x, m);
      AvoidingWalkUnchanged(cats, x, c, p, m);
      AcyclicAfterReplace(cats, x, c, m);
    }
  }

  /** Rewriting row x without touching its parent or deleted flag keeps the
      table acyclic. */
  lemma AcyclicAfterSameLinks(cats: map<Id, Category>, x: Id, c: Category)
    requires Acyclic(cats) && x in cats
    requires c.parentId == cats[x].parentId && c.isDeleted == cats[x].isDeleted
    ensures Acyclic(cats[x := c])
  {
    var cats' := cats[x := c];
    forall id | id in cats' ensures exists k: nat :: EndsWithin(cats', id, k) {
      var n := WalkEnds(cats, id);
      SameLinksEnds(cats, x, c, id, n);
    }
  }

  lemma {:induction false} SameLinksEnds(cats: map<Id, Category>, x: Id, c: Category, id: Id, n: nat)
    requires x in cats && c.parentId == cats[x].parentId && c.isDeleted == cats[x].isDeleted
    requires EndsWithin(cats, id, n)
    ensures EndsWithin(cats[x := c], id, n)
    decreases n
  {
    if !Stops(cats, id) {
      SameLinksEnds(cats, x, c, Up(cats, id), n - 1);
    }
  }
}
