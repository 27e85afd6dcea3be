/** Materialised category paths ("/1/4/9": the ids from the root down to the
    category) and the breadcrumb GetFullCategoryPath renders from them
    (service/category.go:328-370). */
module CategoryPaths {

  import opened Wrappers
  import opened Domain
  import opened Text

  predicate IsSlash(c: char)
  {
    c == '/'
  }

  /** `fmt.Sprintf("%s/%d", p, id)`. */
  function Extend(p: string, id: Id): (r: string)
    ensures |r| > |p| && r[..|p|] == p && r[|p|] == '/'
  {
    p + "/" + Decimal(id)
  }

  // ---------------------------------------------------------------------
  // How CreateCategory and UpdateCategory set the path

  /** The path UpdateCategory gives category id placed under a parent with
      the given path: the parent's path extended by the category's own id. */
  function ChildPath(parentPath: string, id: Id): string
  {
    Extend(parentPath, id)
  }

  /** The path UpdateCategory gives a root category: "/" and its id. */
  function RootPath(id: Id): string
  {
    "/" + Decimal(id)
  }

  /** The path CreateCategory stores before the row has an id, as written:
      the parent's path extended by the PARENT's id, or "/" for a root. */
  function PrefixAsWritten(parent: Option<Category>): string
  {
    match parent
    case Some(p) => Extend(p.path, p.id)
    case None => "/"
  }

  /** The path CreateCategory ends with, as written: the prefix extended by
      the new row's id once it has one. */
  function CreatedPathAsWritten(parent: Option<Category>, id: Id): string
  {
    Extend(PrefixAsWritten(parent), id)
  }

  /** As written, a root's path is "//id", which names only the root. */
  lemma RootPathAsWritten(id: Id)
    ensures CreatedPathAsWritten(None, id) == "/" + RootPath(id)
    ensures Segments(CreatedPathAsWritten(None, id)) == [Decimal(id)]
  {
    assert "/" + "/" + Decimal(id) == "/" + ("/" + Decimal(id));
    SegmentsOfNothing();
    SegmentsExtend("/", id);
  }

  /** As written, a child's path is its parent's path followed by the
      parent's id and then its own. */
  lemma ChildPathAsWritten(parent: Category, id: Id)
    ensures CreatedPathAsWritten(Some(parent), id) == ChildPath(ChildPath(parent.path, parent.id), id)
    ensures Segments(CreatedPathAsWritten(Some(parent), id))
      == Segments(parent.path) + [Decimal(parent.id), Decimal(id)]
  {
    SegmentsExtend(parent.path, parent.id);
    SegmentsExtend(Extend(parent.path, parent.id), id);
    assert Segments(parent.path) + [Decimal(parent.id)] + [Decimal(id)]
        == Segments(parent.path) + [Decimal(parent.id), Decimal(id)];
  }

  /** The intended prefix, which CreateCategory does not use: the one that
      gives a new category the path UpdateCategory would give it, the
      parent's path itself, or the empty string for a root. */
  function Prefix(parent: Option<Category>): string
  {
    match parent
    case Some(p) => p.path
    case None => ""
  }

  /** The intended path of a new category, with the corrected prefix.
      CreateCategory stores CreatedPathAsWritten instead. */
  function CreatedPath(parent: Option<Category>, id: Id): string
  {
    Extend(Prefix(parent), id)
  }

  /** The intended behaviour: with the corrected prefix a new category
      would get exactly the path that UpdateCategory assigns for the same
      parent. */
  lemma CreatedPathAgreesWithUpdate(parent: Option<Category>, id: Id)
    ensures parent.Some? ==> CreatedPath(parent, id) == ChildPath(parent.value.path, id)
    ensures parent.None? ==> CreatedPath(parent, id) == RootPath(id)
  {
    if parent.None? {
      assert "" + "/" + Decimal(id) == "/" + Decimal(id);
    }
  }

  // ---------------------------------------------------------------------
  // Segments of a path

  /** The non-empty pieces, in order. */
  function NonEmpty(pieces: seq<string>): (r: seq<string>)
    ensures forall k :: 0 <= k < |r| ==> r[k] != []
  {
    if pieces == [] then []
    else (if pieces[0] == [] then [] else [pieces[0]]) + NonEmpty(pieces[1..])
  }

  lemma {:induction false} NonEmptyConcat(a: seq<string>, b: seq<string>)
    ensures NonEmpty(a + b) == NonEmpty(a) + NonEmpty(b)
  {
    if a == [] {
      assert a + b == b;
    } else {
      assert (a + b)[1..] == a[1..] + b;
      NonEmptyConcat(a[1..], b);
    }
  }

  /** The ids a path names: the non-empty pieces between slashes. */
  function Segments(path: string): seq<string>
  {
    NonEmpty(Split(path, '/'))
  }

  /** The pieces GetFullCategoryPath loops over:
      `strings.Split(strings.Trim(path, "/"), "/")`. */
  function Pieces(path: string): seq<string>
  {
    Split(Trim(path, IsSlash), '/')
  }

  lemma TrimLeftStep(s: string)
    requires s != [] && IsSlash(s[0])
    ensures TrimLeft(s, IsSlash) == TrimLeft(s[1..], IsSlash)
  { }

  /** A leading slash only adds an empty piece in front. */
  lemma LeadingSlashPiece(s: string)
    requires s != [] && s[0] == '/'
    ensures NonEmpty(Split(s, '/')) == NonEmpty(Split(s[1..], '/'))
  {
    var rest := Split(s[1..], '/');
    assert Split(s, '/') == [[]] + rest;
    assert ([[]] + rest)[1..] == rest;
  }

  lemma {:induction false} TrimLeftSlashes(s: string)
    ensures NonEmpty(Split(TrimLeft(s, IsSlash), '/')) == NonEmpty(Split(s, '/'))
  {
    if s != [] && IsSlash(s[0]) {
      TrimLeftSlashes(s[1..]);
      TrimLeftStep(s);
      LeadingSlashPiece(s);
    } else {
      assert TrimLeft(s, IsSlash) == s;
    }
  }

  lemma {:induction false} TrimRightSlashes(s: string)
    ensures NonEmpty(Split(TrimRight(s, IsSlash), '/')) == NonEmpty(Split(s, '/'))
  {
    if s != [] && IsSlash(s[|s| - 1]) {
      var front := s[..|s| - 1];
      TrimRightSlashes(front);
      calc {
        NonEmpty(Split(TrimRight(s, IsSlash), '/'));
        { assert TrimRight(s, IsSlash) == TrimRight(front, IsSlash); }
        NonEmpty(Split(front, '/'));
        { assert NonEmpty([[]]) == []; }
        NonEmpty(Split(front, '/')) + NonEmpty([[]]);
        { NonEmptyConcat(Split(front, '/'), [[]]); }
        NonEmpty(Split(front, '/') + Split([], '/'));
        { SplitAround(front, [], '/'); }
        NonEmpty(Split(front + ['/'] + [], '/'));
        { assert s == front + ['/'] + []; }
        NonEmpty(Split(s, '/'));
      }
    } else {
      assert TrimRight(s, IsSlash) == s;
    }
  }

  /** Trimming the outer slashes only drops empty pieces, so the loop sees
      the path's segments. */
  lemma PiecesAreSegments(path: string)
    ensures NonEmpty(Pieces(path)) == Segments(path)
  {
    TrimRightSlashes(TrimLeft(path, IsSlash));
    TrimLeftSlashes(path);
  }

  /** Extending a path appends one segment. */
  lemma SegmentsExtend(p: string, id: Id)
    ensures Segments(Extend(p, id)) == Segments(p) + [Decimal(id)]
  {
    SplitAround(p, Decimal(id), '/');
    assert p + "/" + Decimal(id) == p + ['/'] + Decimal(id);
    DecimalHasNo(id, '/');
    SplitNoSeparator(Decimal(id), '/');
    NonEmptyConcat(Split(p, '/'), [Decimal(id)]);
    assert NonEmpty([Decimal(id)]) == [Decimal(id)];
  }

  /** A root's path names only the root. */
  lemma SegmentsRoot(id: Id)
    ensures Segments(RootPath(id)) == [Decimal(id)]
  {
    assert RootPath(id) == Extend("", id);
    SegmentsExtend("", id);
  }

  // ---------------------------------------------------------------------
  // The breadcrumb

  /** The names the loop of GetFullCategoryPath collects from the pieces,
      left to right: empty pieces are skipped, a piece that does not parse
      as a 32-bit decimal or names no row stops the loop with an error, and
      deleted rows are passed over. */
  function PathNames(cats: map<Id, Category>, pieces: seq<string>): Result<seq<string>>
  {
    if pieces == [] then Ok([])
    else if pieces[0] == [] then PathNames(cats, pieces[1..])
    else match ParseUint32(pieces[0])
      case None => Err(Validation(BadPathSegment))
      case Some(n) =>
        if n !in cats then Err(StoreError(CategoryTable))
        else Then(if cats[n].isDeleted then [] else [cats[n].name], PathNames(cats, pieces[1..]))
  }

  /** names followed by the outcome of the rest of the loop. */
  function Then(names: seq<string>, rest: Result<seq<string>>): Result<seq<string>>
  {
    match rest
    case Ok(more) => Ok(names + more)
    case Err(e) => Err(e)
  }

  /** The loop's outcome over two runs of pieces: the first error, or all
      names in order. */
  lemma {:induction false} PathNamesConcat(cats: map<Id, Category>, a: seq<string>, b: seq<string>)
    ensures PathNames(cats, a + b) == match PathNames(cats, a)
      case Ok(names) => Then(names, PathNames(cats, b))
      case Err(e) => Err(e)
  {
    if a == [] {
      assert a + b == b;
      match PathNames(cats, b)
      case Ok(more) => assert [] + more == more;
      case Err(_) =>
    } else {
      assert (a + b)[0] == a[0];
      assert (a + b)[1..] == a[1..] + b;
      PathNamesConcat(cats, a[1..], b);
      if a[0] != [] && ParseUint32(a[0]).Some? && ParseUint32(a[0]).value in cats {
        var n := ParseUint32(a[0]).value;
        var own := if cats[n].isDeleted then [] else [cats[n].name];
        match PathNames(cats, a[1..])
        case Ok(names) => ThenThen(own, names, PathNames(cats, b));
        case Err(_) =>
      }
    }
  }

  lemma ThenThen(first: seq<string>, second: seq<string>, rest: Result<seq<string>>)
    ensures Then(first, Then(second, rest)) == Then(first + second, rest)
  {
    match rest
    case Ok(more) => assert first + (second + more) == (first + second) + more;
    case Err(_) =>
  }

  /** Empty pieces make no difference to the loop. */
  lemma {:induction false} PathNamesNonEmpty(cats: map<Id, Category>, pieces: seq<string>)
    ensures PathNames(cats, NonEmpty(pieces)) == PathNames(cats, pieces)
  {
    if pieces != [] {
      PathNamesNonEmpty(cats, pieces[1..]);
      var rest := NonEmpty(pieces[1..]);
      if pieces[0] != [] {
        assert NonEmpty(pieces) == [pieces[0]] + rest;
        assert ([pieces[0]] + rest)[0] == pieces[0];
        assert ([pieces[0]] + rest)[1..] == rest;
      } else {
        assert NonEmpty(pieces) == [] + rest == rest;
      }
    }
  }

  /** GetFullCategoryPath's outcome for category id: the breadcrumb of
      live names joined by " > ". */
  function FullPath(cats: map<Id, Category>, id: Id): Result<string>
  {
    if id == 0 then Err(Validation(InvalidId))
    else if id !in cats then Err(StoreError(CategoryTable))
    else if cats[id].isDeleted then Err(NotFound(CategoryTable))
    else match PathNames(cats, Pieces(cats[id].path))
      case Ok(names) => Ok(Join(names, " > "))
      case Err(e) => Err(e)
  }

  /** The breadcrumb depends only on the path's segments. */
  lemma FullPathBySegments(cats: map<Id, Category>, id: Id)
    requires id != 0 && id in cats && !cats[id].isDeleted
    ensures FullPath(cats, id) == match PathNames(cats, Segments(cats[id].path))
      case Ok(names) => Ok(Join(names, " > "))
      case Err(e) => Err(e)
  {
    PiecesAreSegments(cats[id].path);
    PathNamesNonEmpty(cats, Pieces(cats[id].path));
  }

  /** One segment naming a stored row contributes its name when it is live
      and nothing when it is deleted. */
  lemma PathNamesOne(cats: map<Id, Category>, id: Id)
    requires id in cats && id <= MAX_UINT32
    ensures PathNames(cats, [Decimal(id)]) == Ok(if cats[id].isDeleted then [] else [cats[id].name])
  {
    ParseDecimal(id);
    assert [Decimal(id)][1..] == [];
    var own: seq<string> := if cats[id].isDeleted then [] else [cats[id].name];
    assert own + [] == own;
  }

  /** Extending a path by the id of a live row appends that row's name to
      the names of the path; a deleted row adds nothing. */
  lemma BreadcrumbExtends(cats: map<Id, Category>, p: string, id: Id)
    requires id in cats && id <= MAX_UINT32
    ensures PathNames(cats, Segments(Extend(p, id))) == match PathNames(cats, Segments(p))
      case Ok(names) => Ok(names + (if cats[id].isDeleted then [] else [cats[id].name]))
      case Err(e) => Err(e)
  {
    SegmentsExtend(p, id);
    PathNamesConcat(cats, Segments(p), [Decimal(id)]);
    PathNamesOne(cats, id);
  }

  /** The empty path and "/" name nothing. */
  lemma SegmentsOfNothing()
    ensures Segments("") == [] && Segments("/") == []
  {
    assert Split("/", '/') == [[]] + Split([], '/');
  }

  // ---------------------------------------------------------------------
  // The two ways of building a child's path, side by side

  /** Extending a path by a live category adds that category's name to a
      breadcrumb that succeeds. */
  lemma BreadcrumbAppend(cats: map<Id, Category>, p: string, id: Id, names: seq<string>)
    requires id in cats && id <= MAX_UINT32 && !cats[id].isDeleted
    requires PathNames(cats, Segments(p)) == Ok(names)
    ensures PathNames(cats, Segments(Extend(p, id))) == Ok(names + [cats[id].name])
  {
    BreadcrumbExtends(cats, p, id);
  }

  /** A root's stored path names just the root, whichever prefix built it. */
  lemma RootBreadcrumb(cats: map<Id, Category>, prefix: string, id: Id)
    requires id in cats && id <= MAX_UINT32 && !cats[id].isDeleted
    requires prefix == "" || prefix == "/"
    ensures PathNames(cats, Segments(Extend(prefix, id))) == Ok([cats[id].name])
  {
    SegmentsOfNothing();
    assert PathNames(cats, []) == Ok([]);
    BreadcrumbAppend(cats, prefix, id, []);
    assert [] + [cats[id].name] == [cats[id].name];
  }

  /** As written, the breadcrumb of a category created under a root lists
      the root twice: the root's stored path already ends with the root's
      id, and CreateCategory appends that id again before its own. */
  lemma CreatedChildListsParentTwice(cats: map<Id, Category>, root: Category, child: Id)
    requires root.id in cats && child in cats && root.id <= MAX_UINT32 && child <= MAX_UINT32
    requires !cats[root.id].isDeleted && !cats[child].isDeleted
    requires root.path == CreatedPathAsWritten(None, root.id)
    ensures PathNames(cats, Segments(CreatedPathAsWritten(Some(root), child)))
      == Ok([cats[root.id].name, cats[root.id].name, cats[child].name])
  {
    var r, c := cats[root.id].name, cats[child].name;
    var once := Extend(root.path, root.id);
    RootBreadcrumb(cats, "/", root.id);
    BreadcrumbAppend(cats, root.path, root.id, [r]);
    BreadcrumbAppend(cats, once, child, [r] + [r]);
    assert CreatedPathAsWritten(Some(root), child) == Extend(once, child);
    assert [r] + [r] + [c] == [r, r, c];
  }

  /** The intended behaviour: with the corrected prefix the same category
      would list the root once. */
  lemma CreatedChildListsParentOnce(cats: map<Id, Category>, root: Category, child: Id)
    requires root.id in cats && child in cats && root.id <= MAX_UINT32 && child <= MAX_UINT32
    requires !cats[root.id].isDeleted && !cats[child].isDeleted
    requires root.path == CreatedPath(None, root.id)
    ensures PathNames(cats, Segments(CreatedPath(Some(root), child)))
      == Ok([cats[root.id].name, cats[child].name])
  {
    var r, c := cats[root.id].name, cats[child].name;
    RootBreadcrumb(cats, "", root.id);
    BreadcrumbAppend(cats, root.path, child, [r]);
    assert CreatedPath(Some(root), child) == Extend(root.path, child);
    assert [r] + [c] == [r, c];
  }
}
