/** The two view sets: who may call what, which serializer an action uses, which
    documents a caller sees, the two extra queries (`my_documents` and the category
    `tree`), the default orderings, and the create / update / destroy requests
    built from them. */
module Views {
  import opened Common
  import opened Models
  import opened Serializers
  import opened Ordering

  /** The requesting user, if any. */
  datatype Principal = Anonymous | Member(id: UserId, isSuperuser: bool)

  datatype ViewSet = DocumentViewSet | CategoryViewSet

  datatype Permission = AllowAny | IsAuthenticated

  const SafeMethods: set<string> := {"GET", "HEAD", "OPTIONS"}

  // ---------------------------------------------------------------------------
  // Permissions and serializer choice
  // ---------------------------------------------------------------------------

  /** Both view sets open the read-only methods to everyone and require a login
      for everything else. */
  function GetPermissions(vs: ViewSet, verb: string): (r: Permission)
    ensures r == AllowAny <==> verb in SafeMethods
  {
    if verb in SafeMethods then AllowAny else IsAuthenticated
  }

  predicate Grants(perm: Permission, p: Principal) {
    perm == AllowAny || p.Member?
  }

  /** The permission check a request passes before the view runs. */
  function Permitted(vs: ViewSet, verb: string, p: Principal): (ok: bool)
    ensures ok <==> verb in SafeMethods || p.Member?
    ensures p.Anonymous? && verb in {"POST", "PUT", "PATCH", "DELETE"} ==> !ok
  {
    Grants(GetPermissions(vs, verb), p)
  }

  datatype Action =
    | ListAction | CreateAction | RetrieveAction | UpdateAction
    | PartialUpdateAction | DestroyAction | MyDocumentsAction

  datatype SerializerKind = FullSerializer | ListSerializer | CreateSerializer

  function SerializerFor(a: Action): (k: SerializerKind)
    ensures k == ListSerializer <==> a == ListAction
    ensures k == CreateSerializer <==> a == CreateAction
    ensures k == FullSerializer <==> a != ListAction && a != CreateAction
  {
    if a == ListAction then ListSerializer
    else if a == CreateAction then CreateSerializer
    else FullSerializer
  }

  function Fields(k: SerializerKind): seq<string> {
    match k
    case FullSerializer => DocumentFields
    case ListSerializer => ListFields
    case CreateSerializer => CreateFields
  }

  /** The fields an action's response or input goes through: `my_documents`
      renders with the list serializer directly; every other action uses the
      serializer `get_serializer_class` picks. */
  function ResponseFields(a: Action): seq<string> {
    if a == MyDocumentsAction then ListFields else Fields(SerializerFor(a))
  }

  /** Both listings (`list` and `my_documents`) leave the content out; a create
      accepts no author; every other action goes through the full serializer,
      whose `author_id` is writable. */
  lemma SerializerFieldsByAction(a: Action)
    ensures "content" in ResponseFields(a) <==> a != ListAction && a != MyDocumentsAction
    ensures "author_id" in ResponseFields(a) <==>
      a != ListAction && a != MyDocumentsAction && a != CreateAction
    ensures a == CreateAction ==> forall f :: f in ResponseFields(a) ==> f in {"title", "content", "category"}
  {
    assert DocumentFields[2] == "content" && DocumentFields[4] == "author_id";
    assert CreateFields[1] == "content";
  }

  // ---------------------------------------------------------------------------
  // Querysets
  // ---------------------------------------------------------------------------

  /** `filter(author=u)`. */
  function OwnedBy(docs: map<DocumentId, Document>, u: UserId): (r: map<DocumentId, Document>)
    ensures forall id :: id in r <==> id in docs && docs[id].author == u
    ensures forall id :: id in r ==> r[id] == docs[id]
  {
    map id | id in docs && docs[id].author == u :: docs[id]
  }

  /** The documents a user may list, retrieve, update or delete: all of them for a
      superuser, exactly their own otherwise. */
  function Queryset(db: Db, viewer: UserId, isSuperuser: bool): (r: map<DocumentId, Document>)
    ensures isSuperuser ==> r == db.documents
    ensures !isSuperuser ==> forall id :: id in r <==> id in db.documents && db.documents[id].author == viewer
    ensures forall id :: id in r ==> id in db.documents && r[id] == db.documents[id]
  {
    if isSuperuser then db.documents else OwnedBy(db.documents, viewer)
  }

  /** `my_documents`: the requester's own documents, superuser or not. */
  function MyDocuments(db: Db, viewer: UserId): (r: map<DocumentId, Document>)
    ensures forall id :: id in r <==> id in db.documents && db.documents[id].author == viewer
    ensures forall id :: id in r ==> r[id] == db.documents[id]
  {
    OwnedBy(db.documents, viewer)
  }

  /** `my_documents` ignores the superuser flag: it always equals the queryset of
      an ordinary user, and for a superuser it is part of the full queryset. */
  lemma MyDocumentsIgnoresSuperuser(db: Db, viewer: UserId, isSuperuser: bool)
    ensures MyDocuments(db, viewer) == Queryset(db, viewer, false)
    ensures MyDocuments(db, viewer).Keys <= Queryset(db, viewer, isSuperuser).Keys
    ensures MyDocuments(db, viewer) == Queryset(db, viewer, isSuperuser) <==>
      !isSuperuser || forall id :: id in db.documents ==> db.documents[id].author == viewer
  {
    var mine := MyDocuments(db, viewer);
    if isSuperuser && forall id :: id in db.documents ==> db.documents[id].author == viewer {
      assert mine.Keys == db.documents.Keys;
    }
    if isSuperuser && mine == db.documents {
      forall id | id in db.documents
        ensures db.documents[id].author == viewer
      {
        assert id in mine;
      }
    }
  }

  /** The root categories: exactly those whose parent is unset. */
  function Roots(db: Db): (r: map<CategoryId, Category>)
    ensures forall c :: c in r <==> c in db.categories && db.categories[c].parent == None
    ensures forall c :: c in r ==> r[c] == db.categories[c]
  {
    map c | c in db.categories && db.categories[c].parent == None :: db.categories[c]
  }

  // ---------------------------------------------------------------------------
  // Default orderings and the listings built on them
  // ---------------------------------------------------------------------------

  /** Documents: newest created first. */
  predicate NewestFirst(x: (DocumentId, Document), y: (DocumentId, Document)) {
    x.1.createdAt >= y.1.createdAt
  }

  /** Categories: by name. */
  predicate ByName(x: (CategoryId, Category), y: (CategoryId, Category)) {
    NameLe(x.1.name, y.1.name)
  }

  lemma NewestFirstIsPreorder()
    ensures TotalPreorder(NewestFirst)
  {
  }

  lemma ByNameIsPreorder()
    ensures TotalPreorder(ByName)
  {
    forall x: (CategoryId, Category), y: (CategoryId, Category)
      ensures ByName(x, y) || ByName(y, x)
    {
      NameLeTotal(x.1.name, y.1.name);
    }
    forall x: (CategoryId, Category), y: (CategoryId, Category), z: (CategoryId, Category)
      | ByName(x, y) && ByName(y, z)
      ensures ByName(x, z)
    {
      NameLeTransitive(x.1.name, y.1.name, z.1.name);
    }
  }

  /** The document list a user receives: every row of their queryset exactly once,
      newest first. */
  ghost function ListDocuments(db: Db, viewer: UserId, isSuperuser: bool): (r: seq<(DocumentId, Document)>)
    ensures multiset(r) == multiset(Queryset(db, viewer, isSuperuser).Items)
    ensures Sorted(r, NewestFirst)
  {
    NewestFirstIsPreorder();
    SortSorted(Entries(Queryset(db, viewer, isSuperuser)), NewestFirst);
    Sort(Entries(Queryset(db, viewer, isSuperuser)), NewestFirst)
  }

  /** The `my_documents` response: the requester's rows exactly once, newest first. */
  ghost function ListMyDocuments(db: Db, viewer: UserId): (r: seq<(DocumentId, Document)>)
    ensures multiset(r) == multiset(MyDocuments(db, viewer).Items)
    ensures Sorted(r, NewestFirst)
  {
    NewestFirstIsPreorder();
    SortSorted(Entries(MyDocuments(db, viewer)), NewestFirst);
    Sort(Entries(MyDocuments(db, viewer)), NewestFirst)
  }

  /** The `tree` response: the root categories exactly once, by name. */
  ghost function Tree(db: Db): (r: seq<(CategoryId, Category)>)
    ensures multiset(r) == multiset(Roots(db).Items)
    ensures Sorted(r, ByName)
  {
    ByNameIsPreorder();
    SortSorted(Entries(Roots(db)), ByName);
    Sort(Entries(Roots(db)), ByName)
  }

  /** The category list: every category exactly once, by name. */
  ghost function ListCategories(db: Db): (r: seq<(CategoryId, Category)>)
    ensures multiset(r) == multiset(db.categories.Items)
    ensures Sorted(r, ByName)
  {
    ByNameIsPreorder();
    SortSorted(Entries(db.categories), ByName);
    Sort(Entries(db.categories), ByName)
  }

  /** Every entry of the tree is a root, shown as stored; no child appears. */
  lemma TreeHoldsOnlyRoots(db: Db)
    ensures forall i :: 0 <= i < |Tree(db)| ==>
      var (c, row) := Tree(db)[i];
      c in db.categories && row == db.categories[c] && row.parent == None
  {
    var t := Tree(db);
    forall i | 0 <= i < |t|
      ensures t[i].0 in db.categories && t[i].1 == db.categories[t[i].0] && t[i].1.parent == None
    {
      assert t[i] in multiset(t);
      assert t[i] in Roots(db).Items;
    }
  }

  /** Every entry of a user's list is a document they may see, shown as stored. */
  lemma ListHoldsOnlyVisible(db: Db, viewer: UserId, isSuperuser: bool)
    ensures forall i :: 0 <= i < |ListDocuments(db, viewer, isSuperuser)| ==>
      var (id, row) := ListDocuments(db, viewer, isSuperuser)[i];
      id in db.documents && row == db.documents[id] && (isSuperuser || row.author == viewer)
  {
    var l := ListDocuments(db, viewer, isSuperuser);
    var q := Queryset(db, viewer, isSuperuser);
    forall i | 0 <= i < |l|
      ensures l[i].0 in db.documents && l[i].1 == db.documents[l[i].0] && (isSuperuser || l[i].1.author == viewer)
    {
      assert l[i] in multiset(l);
      assert l[i] in q.Items;
    }
  }

  // ---------------------------------------------------------------------------
  // Requests that write
  // ---------------------------------------------------------------------------

  /** A create request body: the create serializer's three fields, plus an author
      the client may send, which that serializer does not declare. */
  datatype CreateBody = CreateBody(
    title: Option<string>,
    content: Option<string>,
    category: Option<CategoryId>,
    author: Option<UserId>)

  /** The create serializer's validation: a title is required and bounded, content
      defaults to empty, a category must exist; undeclared keys are dropped. */
  function ValidateCreate(db: Db, body: CreateBody): (r: Result<CreateInput>)
    ensures r.Ok? <==>
      body.title.Some? && TitleFits(body.title.value)
      && (body.category.Some? ==> body.category.value in db.categories)
    ensures r.Ok? ==> r.value == CreateInput(body.title.value, body.content.GetOr(""), body.category)
    ensures r.Err? ==> r.error.Invalid?
  {
    if body.title.None? || !TitleFits(body.title.value) then Err(Invalid("title"))
    else if body.category.Some? && body.category.value !in db.categories then Err(Invalid("category"))
    else Ok(CreateInput(body.title.value, body.content.GetOr(""), body.category))
  }

  /** POST on the document collection: the permission check, validation, then
      `perform_create`, which saves with the requester as author. */
  function CreateRequest(db: Db, p: Principal, body: CreateBody): (r: (Db, Result<DocumentId>))
    requires p.Member? ==> p.id in db.users
    ensures p.Anonymous? ==> r == (db, Err(NotAuthenticated))
    ensures r.1.Err? ==> r.0 == db
    ensures r.1.Ok? <==> p.Member? && ValidateCreate(db, body).Ok?
    ensures r.1.Ok? ==> r.1.value in r.0.documents
    ensures r.1.Ok? ==>
      var d := r.0.documents[r.1.value];
      && d.author == p.id
      && d.title == body.title.value && d.content == body.content.GetOr("") && d.category == body.category
      && r.0.documents.Keys == db.documents.Keys + {r.1.value}
    ensures r.1.Ok? ==>
      && (forall k :: k in db.documents && k != r.1.value ==> r.0.documents[k] == db.documents[k])
      && r.0.categories == db.categories && r.0.users == db.users
    ensures r.1.Ok? && Consistent(db) ==> r.1.value !in db.documents
    ensures p.Member? && ValidateCreate(db, body).Err? ==> r == (db, Err(ValidateCreate(db, body).error))
    ensures r.1.Err? ==> r.1.error == NotAuthenticated || r.1.error.Invalid?
    ensures Consistent(db) ==> Consistent(r.0)
  {
    if !Permitted(DocumentViewSet, "POST", p) then (db, Err(NotAuthenticated))
    else
      match ValidateCreate(db, body)
      case Err(e) => (db, Err(e))
      case Ok(input) =>
        var (db', id) := CreateForUser(db, p.id, input);
        (db', Ok(id))
  }

  /** The author of a created document is the requester whatever author the body
      names. */
  lemma CreateIgnoresClientAuthor(db: Db, p: Principal, body: CreateBody, claimed: Option<UserId>)
    requires p.Member? ==> p.id in db.users
    ensures CreateRequest(db, p, body) == CreateRequest(db, p, body.(author := claimed))
  {
  }

  /** A created document can be read back by its author: it is in their queryset
      and their `my_documents`, with the title, content and category sent. */
  lemma CreatedDocumentIsVisibleToAuthor(db: Db, p: Principal, body: CreateBody)
    requires p.Member? ==> p.id in db.users
    requires CreateRequest(db, p, body).1.Ok?
    ensures var (db', r) := CreateRequest(db, p, body);
      && r.value in Queryset(db', p.id, p.isSuperuser)
      && r.value in MyDocuments(db', p.id)
      && var d := MyDocuments(db', p.id)[r.value];
         d.title == body.title.value && d.content == body.content.GetOr("") && d.category == body.category
  {
  }

  /** The full serializer's validation: a given title must fit; a full (PUT)
      update must also supply the title and `author_id`. */
  function ValidatePatch(patch: Patch, partial: bool): (r: Option<Error>)
    ensures r.None? <==>
      (patch.title.Some? ==> TitleFits(patch.title.value))
      && (!partial ==> patch.title.Some? && patch.authorId.Some?)
  {
    if patch.title.Some? && !TitleFits(patch.title.value) then Some(Invalid("title"))
    else if !partial && patch.title.None? then Some(Invalid("title"))
    else if !partial && patch.authorId.None? then Some(Invalid("author_id"))
    else None
  }

  /** PUT or PATCH on one document: the permission check, the lookup in the
      caller's queryset, validation, then the full serializer's update. */
  function UpdateRequest(db: Db, p: Principal, id: DocumentId, patch: Patch, partial: bool): (r: (Db, Result<DocumentId>))
    ensures p.Anonymous? ==> r == (db, Err(NotAuthenticated))
    ensures p.Member? && id !in Queryset(db, p.id, p.isSuperuser) ==> r == (db, Err(NotFound))
    ensures r.1.Err? ==> r.0 == db
    ensures r.1.Ok? ==>
      && p.Member? && id in Queryset(db, p.id, p.isSuperuser)
      && ValidatePatch(patch, partial).None?
      && r == UpdateDocument(db, id, patch)
    ensures p.Member? && id in Queryset(db, p.id, p.isSuperuser) ==>
      r == match ValidatePatch(patch, partial)
           case Some(e) => (db, Err(e))
           case None => UpdateDocument(db, id, patch)
  {
    if !Permitted(DocumentViewSet, if partial then "PATCH" else "PUT", p) then (db, Err(NotAuthenticated))
    else if id !in Queryset(db, p.id, p.isSuperuser) then (db, Err(NotFound))
    else
      match ValidatePatch(patch, partial)
      case Some(e) => (db, Err(e))
      case None => UpdateDocument(db, id, patch)
  }

  /** An ordinary user cannot touch another user's document: the lookup fails. */
  lemma UpdateOfOthersDocumentIsNotFound(db: Db, u: UserId, id: DocumentId, patch: Patch, partial: bool)
    requires id in db.documents && db.documents[id].author != u
    ensures UpdateRequest(db, Member(u, false), id, patch, partial) == (db, Err(NotFound))
  {
  }

  /** The author is not fixed after creation: an owner may hand a document to
      another user, after which it leaves the owner's queryset. */
  lemma OwnerCanReassignAuthor(db: Db, u: UserId, v: UserId, id: DocumentId)
    requires id in db.documents && db.documents[id].author == u
    requires v in db.users && v != u
    ensures var (db', r) := UpdateRequest(db, Member(u, false), id, Patch(None, None, Some(v), None), true);
      && r == Ok(id)
      && db'.documents[id].author == v
      && id !in Queryset(db', u, false)
      && id in MyDocuments(db', v)
  {
  }

  /** DELETE on one document: the permission check, the lookup in the caller's
      queryset, then the row alone is removed. */
  function DestroyRequest(db: Db, p: Principal, id: DocumentId): (r: (Db, Result<DocumentId>))
    ensures p.Anonymous? ==> r == (db, Err(NotAuthenticated))
    ensures r.1.Ok? <==> p.Member? && id in Queryset(db, p.id, p.isSuperuser)
    ensures r.1.Err? ==> r.0 == db
    ensures p.Member? && id !in Queryset(db, p.id, p.isSuperuser) ==> r == (db, Err(NotFound))
    ensures r.1.Ok? ==> r.1.value == id && r.0 == db.(documents := db.documents - {id})
    ensures Consistent(db) ==> Consistent(r.0)
  {
    if !Permitted(DocumentViewSet, "DELETE", p) then (db, Err(NotAuthenticated))
    else if id !in Queryset(db, p.id, p.isSuperuser) then (db, Err(NotFound))
    else (db.(documents := db.documents - {id}), Ok(id))
  }
}
