/** The two tables of the documents app (categories and documents), the users they
    refer to, and the deletion rules the foreign keys declare: a category's parent
    link cascades, a document's category link is set to null, and a document's
    author link cascades. */
module Models {
  import opened Common

  /** Abstract timestamp: the value of a counter that every document insert or
      save and every category insert advances by one tick. */
  type Timestamp = nat

  const MaxNameLength: nat := 100
  const MaxTitleLength: nat := 200

  /** A row of the category table. The parent link is optional and unguarded:
      nothing stops it from closing a cycle. */
  datatype Category = Category(
    name: string,
    description: string,
    parent: Option<CategoryId>,
    createdAt: Timestamp)

  /** A row of the document table: the author is required, the category optional. */
  datatype Document = Document(
    title: string,
    content: string,
    author: UserId,
    category: Option<CategoryId>,
    createdAt: Timestamp,
    updatedAt: Timestamp)

  /** A category name: not blank, and at most `MaxNameLength` characters. */
  predicate NameFits(name: string) {
    0 < |name| <= MaxNameLength
  }

  /** A document title: not blank, and at most `MaxTitleLength` characters. */
  predicate TitleFits(title: string) {
    0 < |title| <= MaxTitleLength
  }

  /** The string form of a category. */
  function CategoryLabel(c: Category): string {
    c.name
  }

  /** The string form of a document. */
  function DocumentLabel(d: Document): string {
    d.title
  }

  /** The whole database: the user ids the authentication layer knows, both tables,
      the clock that stamps saves, and the next value of each auto-increment key. */
  datatype Db = Db(
    users: set<UserId>,
    categories: map<CategoryId, Category>,
    documents: map<DocumentId, Document>,
    clock: Timestamp,
    nextCategoryId: int,
    nextDocumentId: int)

  function EmptyDb(users: set<UserId>): Db {
    Db(users, map[], map[], 0, 1, 1)
  }

  predicate CategoryRowOk(db: Db, c: Category) {
    && NameFits(c.name)
    && c.createdAt <= db.clock
    && (c.parent.Some? ==> c.parent.value in db.categories)
  }

  predicate DocumentRowOk(db: Db, d: Document) {
    && TitleFits(d.title)
    && d.author in db.users
    && (d.category.Some? ==> d.category.value in db.categories)
    && d.createdAt <= d.updatedAt <= db.clock
  }

  /** Referential integrity, column bounds, keys below the auto-increment counters
      and timestamps no later than the clock. */
  predicate Consistent(db: Db) {
    && (forall c :: c in db.categories ==> c < db.nextCategoryId && CategoryRowOk(db, db.categories[c]))
    && (forall d :: d in db.documents ==> d < db.nextDocumentId && DocumentRowOk(db, db.documents[d]))
  }

  lemma EmptyDbConsistent(users: set<UserId>)
    ensures Consistent(EmptyDb(users))
  {
  }

  /** A stored category's string form is never blank and at most 100 characters. */
  lemma CategoryLabelFits(db: Db, c: CategoryId)
    requires Consistent(db) && c in db.categories
    ensures 0 < |CategoryLabel(db.categories[c])| <= MaxNameLength
  {
    assert CategoryRowOk(db, db.categories[c]);
  }

  /** A stored document's string form is never blank and at most 200 characters. */
  lemma DocumentLabelFits(db: Db, d: DocumentId)
    requires Consistent(db) && d in db.documents
    ensures 0 < |DocumentLabel(db.documents[d])| <= MaxTitleLength
  {
    assert DocumentRowOk(db, db.documents[d]);
  }

  // ---------------------------------------------------------------------------
  // Category writes (the category serializer's create and update)
  // ---------------------------------------------------------------------------

  /** Creating a category: the name must be a non-blank string of at most 100
      characters and a given parent must name an existing category. */
  function AddCategory(db: Db, name: string, description: string, parent: Option<CategoryId>): (r: (Db, Result<CategoryId>))
    ensures r.1.Ok? <==> NameFits(name) && (parent.Some? ==> parent.value in db.categories)
    ensures r.1.Err? ==> r.0 == db
    ensures r.1.Ok? && Consistent(db) ==> r.1.value !in db.categories
    ensures r.1.Ok? ==>
      && r.0.categories.Keys == db.categories.Keys + {r.1.value}
      && (forall c :: c in db.categories && c != r.1.value ==> r.0.categories[c] == db.categories[c])
      && r.0.categories[r.1.value] == Category(name, description, parent, r.0.clock)
      && db.clock < r.0.clock
      && r.0.documents == db.documents && r.0.users == db.users
    ensures Consistent(db) ==> Consistent(r.0)
  {
    if !NameFits(name) then (db, Err(Invalid("name")))
    else if parent.Some? && parent.value !in db.categories then (db, Err(Invalid("parent")))
    else
      var now := db.clock + 1;
      var id := db.nextCategoryId;
      assert Consistent(db) ==> id !in db.categories;
      var db' := db.(categories := db.categories[id := Category(name, description, parent, now)],
                     clock := now, nextCategoryId := id + 1);
      NewCategoryKeepsConsistent(db, db', id);
      (db', Ok(id))
  }

  lemma NewCategoryKeepsConsistent(db: Db, db': Db, id: CategoryId)
    requires id == db.nextCategoryId && id in db'.categories
    requires db' == db.(categories := db.categories[id := db'.categories[id]],
                        clock := db.clock + 1, nextCategoryId := id + 1)
    requires CategoryRowOk(db', db'.categories[id])
    ensures Consistent(db) ==> Consistent(db')
  {
    if Consistent(db) {
      forall c | c in db'.categories
        ensures c < db'.nextCategoryId && CategoryRowOk(db', db'.categories[c])
      {
        if c != id {
          assert CategoryRowOk(db, db.categories[c]);
        }
      }
      forall d | d in db'.documents
        ensures d < db'.nextDocumentId && DocumentRowOk(db', db'.documents[d])
      {
        assert DocumentRowOk(db, db.documents[d]);
      }
    }
  }

  /** Re-parenting a category: the new parent only has to exist. There is no
      cycle check, so a category may become its own ancestor. */
  function SetParent(db: Db, id: CategoryId, parent: Option<CategoryId>): (r: (Db, Result<CategoryId>))
    ensures r.1.Ok? <==> id in db.categories && (parent.Some? ==> parent.value in db.categories)
    ensures r.1.Err? ==> r.0 == db
    ensures r.1.Ok? ==>
      && r.0.categories.Keys == db.categories.Keys
      && r.0.categories[id] == db.categories[id].(parent := parent)
      && (forall c :: c in db.categories && c != id ==> r.0.categories[c] == db.categories[c])
      && r.0 == db.(categories := r.0.categories)
    ensures Consistent(db) ==> Consistent(r.0)
  {
    if id !in db.categories then (db, Err(NotFound))
    else if parent.Some? && parent.value !in db.categories then (db, Err(Invalid("parent")))
    else (db.(categories := db.categories[id := db.categories[id].(parent := parent)]), Ok(id))
  }

  /** Two categories can be made each other's parent: the table then holds a cycle
      and is still consistent, two parent links lead from `a` back to itself, and
      deleting `a` cascades across the cycle to `b`. */
  lemma CyclesAreAccepted(db: Db, a: CategoryId, b: CategoryId)
    requires Consistent(db) && a in db.categories && b in db.categories
    ensures var (db1, r1) := SetParent(db, a, Some(b));
            var (db2, r2) := SetParent(db1, b, Some(a));
            && r1.Ok? && r2.Ok? && Consistent(db2)
            && db2.categories[a].parent == Some(b)
            && db2.categories[b].parent == Some(a)
            && AncestorAt(db2.categories, a, 2) == Some(a)
            && a !in DeleteCategory(db2, a).categories
            && b !in DeleteCategory(db2, a).categories
  {
    var (db1, _) := SetParent(db, a, Some(b));
    var (db2, _) := SetParent(db1, b, Some(a));
    assert AncestorAt(db2.categories, a, 0) == Some(a);
    assert AncestorAt(db2.categories, b, 1) == Some(a);
    assert AncestorAt(db2.categories, a, 2) == Some(a);
  }

  // ---------------------------------------------------------------------------
  // Parent chains and the cascade set
  // ---------------------------------------------------------------------------

  /** The category reached from `c` by following `n` parent links, if every link
      on the way exists. */
  function AncestorAt(cats: map<CategoryId, Category>, c: CategoryId, n: nat): Option<CategoryId>
    decreases n
  {
    if n == 0 then Some(c)
    else if c in cats && cats[c].parent.Some? then AncestorAt(cats, cats[c].parent.value, n - 1)
    else None
  }

  /** `c` is `root` or lies below it: some number of parent links leads from `c` to `root`. */
  ghost predicate Reaches(cats: map<CategoryId, Category>, c: CategoryId, root: CategoryId) {
    exists n: nat :: AncestorAt(cats, c, n) == Some(root)
  }

  /** Everything that deleting `root` removes: `root` itself and every category whose
      parent chain passes through it. Cycles are allowed. */
  ghost function Descendants(cats: map<CategoryId, Category>, root: CategoryId): set<CategoryId> {
    set c | c in cats.Keys + {root} && Reaches(cats, c, root)
  }

  /** `s` contains every category whose parent is in `s`. */
  ghost predicate ClosedUnderChildren(cats: map<CategoryId, Category>, s: set<CategoryId>) {
    forall c :: c in cats && cats[c].parent.Some? && cats[c].parent.value in s ==> c in s
  }

  lemma ChildReaches(cats: map<CategoryId, Category>, c: CategoryId, root: CategoryId)
    requires c in cats && cats[c].parent.Some? && Reaches(cats, cats[c].parent.value, root)
    ensures Reaches(cats, c, root)
  {
    var n: nat :| AncestorAt(cats, cats[c].parent.value, n) == Some(root);
    assert AncestorAt(cats, c, n + 1) == Some(root);
  }

  /** A set that holds `root` and is closed under children holds every category
      below `root`. */
  lemma {:induction false} ClosedSetHoldsChain(cats: map<CategoryId, Category>, root: CategoryId, s: set<CategoryId>, c: CategoryId, n: nat)
    requires root in s && ClosedUnderChildren(cats, s)
    requires AncestorAt(cats, c, n) == Some(root)
    ensures c in s
    decreases n
  {
    if n > 0 {
      ClosedSetHoldsChain(cats, root, s, cats[c].parent.value, n - 1);
    }
  }

  /** Collects the categories a delete of `root` cascades to, level by level, each
      category at most once, so a cycle in the parent links does not loop. */
  method CollectCascade(cats: map<CategoryId, Category>, root: CategoryId) returns (found: set<CategoryId>)
    ensures found == Descendants(cats, root)
  {
    found := {root};
    var frontier := {root};
    assert AncestorAt(cats, root, 0) == Some(root);
    while frontier != {}
      invariant root in found && frontier <= found
      invariant found <= Descendants(cats, root)
      invariant forall c :: c in cats && cats[c].parent.Some? && cats[c].parent.value in found - frontier ==> c in found
      decreases cats.Keys - found, frontier
    {
      var p :| p in frontier;
      var children := set c | c in cats && cats[c].parent == Some(p) && c !in found;
      forall c | c in children
        ensures c in Descendants(cats, root)
      {
        ChildReaches(cats, c, root);
      }
      found := found + children;
      frontier := frontier - {p} + children;
    }
    forall c | c in Descendants(cats, root)
      ensures c in found
    {
      var n: nat :| AncestorAt(cats, c, n) == Some(root);
      ClosedSetHoldsChain(cats, root, found, c, n);
    }
  }

  // ---------------------------------------------------------------------------
  // Deleting a category: CASCADE on the parent link, SET_NULL on document.category
  // ---------------------------------------------------------------------------

  /** The document with its category cleared when that category is being removed.
      A bulk update, so `updatedAt` is not refreshed. */
  function SetNullIfRemoved(d: Document, removed: set<CategoryId>): Document {
    if d.category.Some? && d.category.value in removed then d.(category := None) else d
  }

  ghost function DeleteCategory(db: Db, id: CategoryId): (r: Db)
    ensures id !in r.categories
    ensures forall c :: c in r.categories <==> c in db.categories && !Reaches(db.categories, c, id)
    ensures forall c :: c in r.categories ==> r.categories[c] == db.categories[c]
    ensures r.users == db.users && r.clock == db.clock
    ensures r.nextCategoryId == db.nextCategoryId && r.nextDocumentId == db.nextDocumentId
  {
    var removed := Descendants(db.categories, id);
    assert AncestorAt(db.categories, id, 0) == Some(id);
    db.(categories := map c | c in db.categories && c !in removed :: db.categories[c],
        documents := map d | d in db.documents :: SetNullIfRemoved(db.documents[d], removed))
  }

  /** A category delete removes no document: each one whose category is in the
      cascade keeps every other column, `updatedAt` included, and has no
      category; the rest are untouched. */
  lemma DeleteCategoryNullsReferences(db: Db, id: CategoryId)
    ensures var r := DeleteCategory(db, id);
      && r.documents.Keys == db.documents.Keys
      && forall d :: d in db.documents ==>
           r.documents[d] ==
             if db.documents[d].category.Some? && Reaches(db.categories, db.documents[d].category.value, id)
             then db.documents[d].(category := None)
             else db.documents[d]
  {
    var removed := Descendants(db.categories, id);
    forall d | d in db.documents
      ensures SetNullIfRemoved(db.documents[d], removed) ==
        if db.documents[d].category.Some? && Reaches(db.categories, db.documents[d].category.value, id)
        then db.documents[d].(category := None)
        else db.documents[d]
    {
      var cat := db.documents[d].category;
      if cat.Some? && Reaches(db.categories, cat.value, id) {
        var n :| AncestorAt(db.categories, cat.value, n) == Some(id);
        if cat.value != id {
          assert n > 0;
        }
      }
    }
  }

  /** After the cascade no surviving category points at a removed parent. */
  lemma {:induction false} DeleteCategoryLeavesNoOrphans(db: Db, id: CategoryId)
    requires Consistent(db)
    ensures var r := DeleteCategory(db, id);
      forall c :: c in r.categories && r.categories[c].parent.Some? ==> r.categories[c].parent.value in r.categories
  {
    var r := DeleteCategory(db, id);
    forall c | c in r.categories && r.categories[c].parent.Some?
      ensures r.categories[c].parent.value in r.categories
    {
      var p := db.categories[c].parent.value;
      if Reaches(db.categories, p, id) {
        ChildReaches(db.categories, c, id);
        assert false;
      }
    }
  }

  lemma DeleteCategoryPreservesConsistent(db: Db, id: CategoryId)
    requires Consistent(db)
    ensures Consistent(DeleteCategory(db, id))
  {
    DeleteCategoryLeavesNoOrphans(db, id);
    DeleteCategoryNullsReferences(db, id);
  }

  /** In a consistent table, a category that sits below `root` through at least one
      parent link proves that `root` exists. */
  lemma {:induction false} ChainEndsInTable(db: Db, c: CategoryId, root: CategoryId, n: nat)
    requires Consistent(db)
    requires n > 0 && AncestorAt(db.categories, c, n) == Some(root)
    ensures root in db.categories
    decreases n
  {
    var p := db.categories[c].parent.value;
    if n > 1 {
      ChainEndsInTable(db, p, root, n - 1);
    }
  }

  /** Deleting an id that names no category changes nothing. */
  lemma DeleteMissingCategoryChangesNothing(db: Db, id: CategoryId)
    requires Consistent(db) && id !in db.categories
    ensures DeleteCategory(db, id) == db
  {
    var r := DeleteCategory(db, id);
    forall c | c in db.categories
      ensures c in r.categories
    {
      if Reaches(db.categories, c, id) {
        var n: nat :| AncestorAt(db.categories, c, n) == Some(id);
        ChainEndsInTable(db, c, id, n);
      }
    }
    assert r.categories == db.categories;
    forall d | d in db.documents
      ensures r.documents[d] == db.documents[d]
    {
      if db.documents[d].category.Some? {
        assert db.documents[d].category.value in r.categories;
      }
    }
  }

  // ---------------------------------------------------------------------------
  // Deleting a user: CASCADE on document.author
  // ---------------------------------------------------------------------------

  function DeleteUser(db: Db, u: UserId): (r: Db)
    ensures u !in r.users && r.users == db.users - {u}
    ensures forall d :: d in db.documents ==> (d in r.documents <==> db.documents[d].author != u)
    ensures forall d :: d in r.documents ==> d in db.documents && r.documents[d] == db.documents[d]
    ensures r.categories == db.categories
    ensures Consistent(db) ==> Consistent(r)
  {
    db.(users := db.users - {u},
        documents := map d | d in db.documents && db.documents[d].author != u :: db.documents[d])
  }
}
