/** The document serializers' writes: the full serializer's create and update,
    and the create serializer that forces the author to the requesting user. Each
    ORM call becomes a function on the database snapshot: an insert allocates the
    next key and stamps both timestamps, a save stamps `updatedAt` again. */
module Serializers {
  import opened Common
  import opened Models

  /** Declared fields of the full serializer, of the list serializer and of the
      create serializer. */
  const DocumentFields: seq<string> :=
    ["id", "title", "content", "author", "author_id", "category", "category_id", "created_at", "updated_at"]
  const ListFields: seq<string> := ["id", "title", "author", "category", "created_at", "updated_at"]
  const CreateFields: seq<string> := ["title", "content", "category"]

  // ---------------------------------------------------------------------------
  // ORM primitives
  // ---------------------------------------------------------------------------

  /** `Document.objects.create(...)`: the next key, both timestamps set to a fresh tick. */
  function InsertDocument(db: Db, title: string, content: string, author: UserId, category: Option<CategoryId>): (Db, DocumentId) {
    var now := db.clock + 1;
    var id := db.nextDocumentId;
    (db.(documents := db.documents[id := Document(title, content, author, category, now, now)],
         clock := now, nextDocumentId := id + 1),
     id)
  }

  /** `document.save()`: the row written back with `updatedAt` set to a fresh tick. */
  function SaveDocument(db: Db, id: DocumentId, d: Document): Db {
    var now := db.clock + 1;
    db.(documents := db.documents[id := d.(updatedAt := now)], clock := now)
  }

  /** Writing one document row whose own columns are sound keeps the database
      consistent, provided the clock and the key counter only move forward. */
  lemma WriteDocumentKeepsConsistent(db: Db, db': Db, id: DocumentId)
    requires id in db'.documents
    requires db' == db.(documents := db.documents[id := db'.documents[id]],
                        clock := db'.clock, nextDocumentId := db'.nextDocumentId)
    requires db.clock <= db'.clock && db.nextDocumentId <= db'.nextDocumentId
    ensures Consistent(db) && id < db'.nextDocumentId && DocumentRowOk(db', db'.documents[id]) ==> Consistent(db')
  {
    if Consistent(db) && id < db'.nextDocumentId && DocumentRowOk(db', db'.documents[id]) {
      forall c | c in db'.categories
        ensures c < db'.nextCategoryId && CategoryRowOk(db', db'.categories[c])
      {
        assert CategoryRowOk(db, db.categories[c]);
      }
      forall d | d in db'.documents
        ensures d < db'.nextDocumentId && DocumentRowOk(db', db'.documents[d])
      {
        if d != id {
          assert DocumentRowOk(db, db.documents[d]);
        }
      }
    }
  }

  // ---------------------------------------------------------------------------
  // DocumentSerializer.create
  // ---------------------------------------------------------------------------

  /** The category a create ends up with: a truthy id (0 is skipped) that names an
      existing category; any other id is dropped without an error. */
  function ResolvedOnCreate(db: Db, categoryId: Option<int>): Option<CategoryId> {
    if categoryId.Some? && Truthy(categoryId.value) && categoryId.value in db.categories
    then categoryId else None
  }

  /** Inserts the row without a category, then, for a truthy `categoryId` that
      resolves, sets the category and saves a second time. The only failure is the
      database refusing an unknown author. */
  function CreateDocument(db: Db, title: string, content: string, authorId: UserId, categoryId: Option<int>): (r: (Db, Result<DocumentId>))
    requires TitleFits(title)
    ensures r.1.Err? <==> authorId !in db.users
    ensures r.1.Err? ==> r.1.error == IntegrityError && r.0 == db
    ensures r.1.Ok? ==>
      && r.1.value in r.0.documents
      && r.0.documents.Keys == db.documents.Keys + {r.1.value}
      && (forall k :: k in db.documents && k != r.1.value ==> r.0.documents[k] == db.documents[k])
      && r.0.categories == db.categories && r.0.users == db.users
    ensures r.1.Ok? ==>
      var d := r.0.documents[r.1.value];
      && d.title == title && d.content == content && d.author == authorId
      && d.category == ResolvedOnCreate(db, categoryId)
      && db.clock < d.createdAt
      && d.updatedAt == r.0.clock
      && d.updatedAt == d.createdAt + (if d.category.Some? then 1 else 0)
    ensures r.1.Ok? && Consistent(db) ==> r.1.value !in db.documents
    ensures Consistent(db) ==> Consistent(r.0)
  {
    if authorId !in db.users then (db, Err(IntegrityError))
    else
      var (db1, id) := InsertDocument(db, title, content, authorId, None);
      assert Consistent(db) ==> id !in db.documents;
      WriteDocumentKeepsConsistent(db, db1, id);
      if categoryId.Some? && Truthy(categoryId.value) then
        if categoryId.value in db1.categories then
          var db2 := SaveDocument(db1, id, db1.documents[id].(category := categoryId));
          WriteDocumentKeepsConsistent(db1, db2, id);
          (db2, Ok(id))
        else
          (db1, Ok(id))
      else
        (db1, Ok(id))
  }

  // ---------------------------------------------------------------------------
  // DocumentSerializer.update
  // ---------------------------------------------------------------------------

  /** The validated data of an update: every field optional (a partial update). */
  datatype Patch = Patch(
    title: Option<string>,
    content: Option<string>,
    authorId: Option<UserId>,
    categoryId: Option<int>)

  /** One `setattr` of the update loop. */
  datatype Assignment = SetTitle(title: string) | SetContent(content: string) | SetAuthor(author: UserId)

  /** The validated data once `category_id` has been popped, in declaration order. */
  function Assignments(p: Patch): seq<Assignment> {
    (if p.title.Some? then [SetTitle(p.title.value)] else [])
    + (if p.content.Some? then [SetContent(p.content.value)] else [])
    + (if p.authorId.Some? then [SetAuthor(p.authorId.value)] else [])
  }

  function Assign(d: Document, a: Assignment): Document {
    match a
    case SetTitle(t) => d.(title := t)
    case SetContent(c) => d.(content := c)
    case SetAuthor(u) => d.(author := u)
  }

  /** The instance after `setattr` for each assignment in turn. */
  function AssignAll(d: Document, s: seq<Assignment>): Document
    decreases |s|
  {
    if s == [] then d else AssignAll(Assign(d, s[0]), s[1..])
  }

  lemma {:induction false} AssignAllSnoc(d: Document, s: seq<Assignment>, a: Assignment)
    ensures AssignAll(d, s + [a]) == Assign(AssignAll(d, s), a)
    decreases |s|
  {
    if s != [] {
      assert (s + [a])[1..] == s[1..] + [a];
      AssignAllSnoc(Assign(d, s[0]), s[1..], a);
    }
  }

  /** The `setattr` loop writes every supplied field, the author included, and
      leaves every other column as it was. */
  lemma {:induction false} AssignAllOverrides(d: Document, p: Patch)
    ensures AssignAll(d, Assignments(p)) ==
      d.(title := p.title.GetOr(d.title),
         content := p.content.GetOr(d.content),
         author := p.authorId.GetOr(d.author))
  {
    var a := if p.title.Some? then [SetTitle(p.title.value)] else [];
    var b := if p.content.Some? then [SetContent(p.content.value)] else [];
    var c := if p.authorId.Some? then [SetAuthor(p.authorId.value)] else [];
    assert Assignments(p) == a + b + c;
    var d1 := d.(title := p.title.GetOr(d.title));
    var d2 := d1.(content := p.content.GetOr(d.content));
    var d3 := d2.(author := p.authorId.GetOr(d.author));
    if a == [] {
      assert AssignAll(d, a) == d1;
    } else {
      AssignAllSnoc(d, [], a[0]);
      assert AssignAll(d, a) == d1;
    }
    if b == [] {
      assert a + b == a;
    } else {
      AssignAllSnoc(d, a, b[0]);
    }
    assert AssignAll(d, a + b) == d2;
    if c == [] {
      assert a + b + c == a + b;
    } else {
      AssignAllSnoc(d, a + b, c[0]);
    }
  }

  /** The category an update ends up with: any supplied id (0 included) that
      names an existing category; otherwise the current one. */
  function ResolvedOnUpdate(db: Db, current: Option<CategoryId>, categoryId: Option<int>): Option<CategoryId> {
    if categoryId.Some? && categoryId.value in db.categories then categoryId else current
  }

  /** Applies every supplied field, resolves a supplied category (silently keeping
      the old one when the id names nothing) and saves. The save fails, changing
      nothing, only when the resulting author is unknown to the database. */
  function UpdateDocument(db: Db, id: DocumentId, p: Patch): (r: (Db, Result<DocumentId>))
    requires id in db.documents
    requires p.title.Some? ==> TitleFits(p.title.value)
    ensures r.1.Err? <==> p.authorId.GetOr(db.documents[id].author) !in db.users
    ensures r.1.Err? ==> r.1.error == IntegrityError && r.0 == db
    ensures r.1.Ok? ==>
      && r.1.value == id
      && r.0.documents.Keys == db.documents.Keys
      && (forall k :: k in db.documents && k != id ==> r.0.documents[k] == db.documents[k])
      && r.0.categories == db.categories && r.0.users == db.users
    ensures r.1.Ok? ==>
      var prior := db.documents[id];
      var after := r.0.documents[id];
      && after.title == p.title.GetOr(prior.title)
      && after.content == p.content.GetOr(prior.content)
      && after.author == p.authorId.GetOr(prior.author)
      && after.category == ResolvedOnUpdate(db, prior.category, p.categoryId)
      && after.createdAt == prior.createdAt
      && db.clock < after.updatedAt == r.0.clock
    ensures Consistent(db) ==> Consistent(r.0)
  {
    var prior := db.documents[id];
    var setFields := AssignAll(prior, Assignments(p));
    AssignAllOverrides(prior, p);
    var d := if p.categoryId.Some? && p.categoryId.value in db.categories
             then setFields.(category := p.categoryId) else setFields;
    if d.author !in db.users then (db, Err(IntegrityError))
    else
      var db' := SaveDocument(db, id, d);
      assert Consistent(db) ==> DocumentRowOk(db, prior);
      WriteDocumentKeepsConsistent(db, db', id);
      (db', Ok(id))
  }

  /** A supplied `category_id` of 0 is skipped by create (0 is falsy) but looked
      up by update (which only tests for absence): with a category 0 in the table,
      the two end with different categories. */
  lemma ZeroCategoryCreateVersusUpdate(db: Db, title: string, author: UserId, id: DocumentId)
    requires TitleFits(title) && author in db.users && 0 in db.categories
    requires id in db.documents && db.documents[id].author in db.users
    ensures var (db1, r1) := CreateDocument(db, title, "", author, Some(0));
            r1.Ok? && db1.documents[r1.value].category == None
    ensures var (db2, r2) := UpdateDocument(db, id, Patch(None, None, None, Some(0)));
            r2.Ok? && db2.documents[id].category == Some(0)
  {
  }

  // ---------------------------------------------------------------------------
  // DocumentCreateSerializer.create
  // ---------------------------------------------------------------------------

  /** The validated data of the create serializer: its three declared fields. */
  datatype CreateInput = CreateInput(title: string, content: string, category: Option<CategoryId>)

  /** One insert with the author forced to the requesting user. */
  function CreateForUser(db: Db, user: UserId, input: CreateInput): (r: (Db, DocumentId))
    requires user in db.users
    requires TitleFits(input.title)
    requires input.category.Some? ==> input.category.value in db.categories
    ensures r.1 in r.0.documents
    ensures r.0.documents.Keys == db.documents.Keys + {r.1}
    ensures forall k :: k in db.documents && k != r.1 ==> r.0.documents[k] == db.documents[k]
    ensures r.0.categories == db.categories && r.0.users == db.users
    ensures var d := r.0.documents[r.1];
      && d.author == user
      && d.title == input.title && d.content == input.content && d.category == input.category
      && db.clock < d.createdAt == d.updatedAt == r.0.clock
    ensures Consistent(db) ==> r.1 !in db.documents && Consistent(r.0)
  {
    var (db', id) := InsertDocument(db, input.title, input.content, user, input.category);
    WriteDocumentKeepsConsistent(db, db', id);
    (db', id)
  }
}
