/** buildCategoryTree (service/category.go:426-452): two passes over a slice
    of categories. The first maps each live id to its position in the slice;
    the second copies the live roots into the result and appends each live
    non-root category to the Children of the slice element its parent id
    maps to. Both the root copies and the appended children are copies taken
    at the moment of the append, so a node only carries the children
    appended before it was copied. */
module CategoryTree {

  import opened Wrappers
  import opened Domain

  /** A category without a parent: ParentID nil or 0. */
  predicate IsRoot(c: Category)
  {
    c.parentId.None? || c.parentId == Some(0)
  }

  /** The map the first loop has built after s[..k]: each live id to the
      last position holding it. */
  function Index(s: seq<Category>, k: nat): map<Id, nat>
    requires k <= |s|
  {
    if k == 0 then map[]
    else
      var m := Index(s, k - 1);
      if s[k - 1].isDeleted then m else m[s[k - 1].id := k - 1]
  }

  /** The map holds exactly the live ids. */
  lemma {:induction false} IndexHoldsLiveIds(s: seq<Category>, k: nat, id: Id)
    requires k <= |s|
    ensures id in Index(s, k) <==> exists j :: 0 <= j < k && s[j].id == id && !s[j].isDeleted
  {
    if k > 0 {
      IndexHoldsLiveIds(s, k - 1, id);
    }
  }

  /** Each id the first loop maps points at a live position before k that
      holds that id. */
  lemma {:induction false} IndexSound(s: seq<Category>, k: nat, id: Id)
    requires k <= |s| && id in Index(s, k)
    ensures Index(s, k)[id] < k && s[Index(s, k)[id]].id == id && !s[Index(s, k)[id]].isDeleted
  {
    if !s[k - 1].isDeleted && s[k - 1].id == id {
      assert Index(s, k)[id] == k - 1;
    } else {
      IndexSound(s, k - 1, id);
    }
  }

  /** Where the second loop puts s[j]: under the position its parent id maps
      to, if it is live, not a root, and its parent id is mapped. */
  function Owner(s: seq<Category>, j: nat): (o: Option<nat>)
    requires j < |s|
    ensures o.Some? ==> o.value < |s|
  {
    var m := Index(s, |s|);
    if s[j].isDeleted || IsRoot(s[j]) || s[j].parentId.value !in m then None
    else
      IndexSound(s, |s|, s[j].parentId.value);
      Some(m[s[j].parentId.value])
  }

  /** The slice after the first k iterations of the second loop. */
  function State(s: seq<Category>, k: nat): (st: seq<Category>)
    requires k <= |s|
    ensures |st| == |s|
  {
    if k == 0 then s
    else
      var st := State(s, k - 1);
      match Owner(s, k - 1)
      case None => st
      case Some(p) => st[p := st[p].(children := st[p].children + [st[k - 1]])]
  }

  /** The roots after the first k iterations of the second loop. */
  function Roots(s: seq<Category>, k: nat): seq<Category>
    requires k <= |s|
  {
    if k == 0 then []
    else Roots(s, k - 1) + (if !s[k - 1].isDeleted && IsRoot(s[k - 1]) then [State(s, k - 1)[k - 1]] else [])
  }

  /** buildCategoryTree, over the slice as an array it updates in place. */
  method BuildCategoryTree(cats: array<Category>) returns (roots: seq<Category>)
    modifies cats
    ensures cats[..] == State(old(cats[..]), cats.Length)
    ensures roots == Roots(old(cats[..]), cats.Length)
  {
    ghost var s := cats[..];
    var index: map<Id, nat> := map[];
    for i := 0 to cats.Length
      invariant index == Index(s, i)
    {
      if !cats[i].isDeleted {
        index := index[cats[i].id := i];
      }
    }
    roots := [];
    for i := 0 to cats.Length
      invariant index == Index(s, |s|)
      invariant cats[..] == State(s, i)
      invariant roots == Roots(s, i)
    {
      StateShell(s, i, i);
      assert cats[i].isDeleted == s[i].isDeleted && cats[i].parentId == s[i].parentId by {
        assert Shell(cats[i]) == Shell(s[i]);
      }
      ghost var st := cats[..];
      if cats[i].isDeleted {
        assert cats[..] == State(s, i + 1) && roots == Roots(s, i + 1) by {
          assert Owner(s, i).None?;
          StateNext(s, i);
          RootsNext(s, i);
        }
        continue;
      }
      if cats[i].parentId.None? || cats[i].parentId == Some(0) {
        roots := roots + [cats[i]];
        assert cats[..] == State(s, i + 1) && roots == Roots(s, i + 1) by {
          assert Owner(s, i).None?;
          StateNext(s, i);
          RootsNext(s, i);
        }
      } else if cats[i].parentId.value in index {
        IndexSound(s, |s|, cats[i].parentId.value);
        var p := index[cats[i].parentId.value];
        cats[p] := cats[p].(children := cats[p].children + [cats[i]]);
        assert cats[..] == State(s, i + 1) && roots == Roots(s, i + 1) by {
          assert cats[..] == st[p := st[p].(children := st[p].children + [st[i]])];
          assert Owner(s, i) == Some(p);
          StateNext(s, i);
          RootsNext(s, i);
        }
      } else {
        assert cats[..] == State(s, i + 1) && roots == Roots(s, i + 1) by {
          assert Owner(s, i).None?;
          StateNext(s, i);
          RootsNext(s, i);
        }
      }
    }
  }

  /** One iteration of the second loop, unfolded. */
  lemma StateNext(s: seq<Category>, k: nat)
    requires k < |s|
    ensures Owner(s, k).None? ==> State(s, k + 1) == State(s, k)
    ensures Owner(s, k).Some? ==>
      var st, p := State(s, k), Owner(s, k).value;
      State(s, k + 1) == st[p := st[p].(children := st[p].children + [st[k]])]
  {
  }

  lemma RootsNext(s: seq<Category>, k: nat)
    requires k < |s|
    ensures Roots(s, k + 1) == Roots(s, k) + (if !s[k].isDeleted && IsRoot(s[k]) then [State(s, k)[k]] else [])
  {
  }

  // ---------------------------------------------------------------------
  // What the tree holds

  /** A category without its attached children. */
  function Shell(c: Category): Category
  {
    c.(children := [])
  }

  function IdsOf(cs: seq<Category>): (ids: seq<Id>)
    ensures |ids| == |cs|
    ensures forall k :: 0 <= k < |cs| ==> ids[k] == cs[k].id
  {
    if cs == [] then [] else [cs[0].id] + IdsOf(cs[1..])
  }

  lemma {:induction false} IdsOfConcat(a: seq<Category>, b: seq<Category>)
    ensures IdsOf(a + b) == IdsOf(a) + IdsOf(b)
  {
  }

  /** The ids of the live rows among s[..k] that the second loop appends
      under position p, in slice order. */
  function Appended(s: seq<Category>, p: nat, k: nat): seq<Id>
    requires k <= |s|
  {
    if k == 0 then []
    else Appended(s, p, k - 1) + (if Owner(s, k - 1) == Some(p) then [s[k - 1].id] else [])
  }

  /** One iteration of the second loop changes at most the owner's
      children. */
  lemma StateStep(s: seq<Category>, k: nat, p: nat)
    requires 0 < k <= |s| && p < |s|
    ensures var st := State(s, k - 1);
      State(s, k)[p] == if Owner(s, k - 1) == Some(p) then st[p].(children := st[p].children + [st[k - 1]]) else st[p]
  {
  }

  /** The second loop keeps every field but Children. */
  lemma {:induction false} StateShell(s: seq<Category>, k: nat, p: nat)
    requires k <= |s| && p < |s|
    ensures Shell(State(s, k)[p]) == Shell(s[p])
    ensures State(s, k)[p].id == s[p].id
  {
    if k > 0 {
      StateShell(s, k - 1, p);
      StateStep(s, k, p);
    }
  }

  /** One iteration of the second loop appends to p's children exactly the
      row it owns, if it owns one. */
  lemma ChildrenStep(s: seq<Category>, k: nat, p: nat)
    requires 0 < k <= |s| && p < |s|
    ensures IdsOf(State(s, k)[p].children)
      == IdsOf(State(s, k - 1)[p].children) + (if Owner(s, k - 1) == Some(p) then [s[k - 1].id] else [])
  {
    StateStep(s, k, p);
    var st := State(s, k - 1);
    if Owner(s, k - 1) == Some(p) {
      StateShell(s, k - 1, k - 1);
      IdsOfConcat(st[p].children, [st[k - 1]]);
    }
  }

  /** The second loop only touches Children: element p keeps its own fields,
      and its children are the ones it came with followed by those appended
      so far. */
  lemma {:induction false} StateRow(s: seq<Category>, k: nat, p: nat)
    requires k <= |s| && p < |s|
    ensures Shell(State(s, k)[p]) == Shell(s[p])
    ensures IdsOf(State(s, k)[p].children) == IdsOf(s[p].children) + Appended(s, p, k)
  {
    StateShell(s, k, p);
    if k > 0 {
      StateRow(s, k - 1, p);
      ChildrenStep(s, k, p);
      var own, before := IdsOf(s[p].children), Appended(s, p, k - 1);
      var step := if Owner(s, k - 1) == Some(p) then [s[k - 1].id] else [];
      assert Appended(s, p, k) == before + step;
      assert (own + before) + step == own + (before + step);
    }
  }

  /** Positions of the live roots among s[..k]. */
  function RootPositions(s: seq<Category>, k: nat): (ps: seq<nat>)
    requires k <= |s|
    ensures forall t :: 0 <= t < |ps| ==> ps[t] < k && !s[ps[t]].isDeleted && IsRoot(s[ps[t]])
  {
    if k == 0 then []
    else RootPositions(s, k - 1) + (if !s[k - 1].isDeleted && IsRoot(s[k - 1]) then [k - 1] else [])
  }

  /** The result lists the live roots of the slice in slice order; each is
      the root row itself, carrying the children it came with and those
      appended from positions before it. */
  lemma {:induction false} RootsAreLiveRoots(s: seq<Category>, k: nat)
    requires k <= |s|
    ensures |Roots(s, k)| == |RootPositions(s, k)|
    ensures forall t :: 0 <= t < |Roots(s, k)| ==>
      var i := RootPositions(s, k)[t];
      && Shell(Roots(s, k)[t]) == Shell(s[i])
      && IdsOf(Roots(s, k)[t].children) == IdsOf(s[i].children) + Appended(s, i, i)
  {
    if k > 0 {
      RootsAreLiveRoots(s, k - 1);
      if !s[k - 1].isDeleted && IsRoot(s[k - 1]) {
        StateRow(s, k - 1, k - 1);
      }
    }
  }

  /** Row j is appended under position p exactly when it is live, has a
      non-zero parent id, and p is the last live position carrying that
      id; so deleted rows, and rows whose parent is not a live row of the
      slice, end up nowhere in the tree. */
  lemma {:induction false} AppendedIff(s: seq<Category>, p: nat, k: nat, j: nat)
    requires k <= |s| && j < k
    ensures Owner(s, j) == Some(p) <==>
      && !s[j].isDeleted && !IsRoot(s[j])
      && s[j].parentId.value in Index(s, |s|)
      && Index(s, |s|)[s[j].parentId.value] == p
  {
  }

  /** A row whose parent id names no live row of the slice is neither a root
      nor appended anywhere. */
  lemma OrphanDropped(s: seq<Category>, j: nat)
    requires j < |s| && !IsRoot(s[j])
    requires forall i :: 0 <= i < |s| && !s[i].isDeleted ==> s[i].id != s[j].parentId.value
    ensures Owner(s, j) == None
  {
    IndexHoldsLiveIds(s, |s|, s[j].parentId.value);
  }

  /** A root is never appended under another row. */
  lemma RootNotAppended(s: seq<Category>, j: nat)
    requires j < |s| && IsRoot(s[j])
    ensures Owner(s, j) == None
  {
  }

  /** Appending happens in slice order: the ids appended under p are the
      owned rows before k, so a row appended under a root placed earlier in
      the slice is missing from that root's copy. */
  lemma {:induction false} AppendedMembers(s: seq<Category>, p: nat, k: nat, id: Id)
    requires k <= |s|
    ensures id in Appended(s, p, k) <==> exists j :: 0 <= j < k && Owner(s, j) == Some(p) && s[j].id == id
  {
    if k > 0 {
      AppendedMembers(s, p, k - 1, id);
      var before := Appended(s, p, k - 1);
      var last := Owner(s, k - 1) == Some(p) && s[k - 1].id == id;
      if Owner(s, k - 1) == Some(p) {
        assert Appended(s, p, k) == before + [s[k - 1].id];
        assert id in Appended(s, p, k) <==> id in before || id == s[k - 1].id;
      } else {
        assert Appended(s, p, k) == before;
      }
      if exists j :: 0 <= j < k && Owner(s, j) == Some(p) && s[j].id == id {
        var j :| 0 <= j < k && Owner(s, j) == Some(p) && s[j].id == id;
        assert j < k - 1 || last;
      }
      if last {
        assert 0 <= k - 1 < k && Owner(s, k - 1) == Some(p) && s[k - 1].id == id;
      }
    }
  }
}
