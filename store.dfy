/** The database as the app sees it: tables that the serializers and views update
    in place. Every method is proved to leave the store in the state the matching
    function on snapshots describes, and to keep the store consistent. */
module Persistence {
  import opened Common
  import opened Models
  import opened Serializers
  import Views

  class Store {
    var users: set<UserId>
    var categories: map<CategoryId, Category>
    var documents: map<DocumentId, Document>
    var clock: Timestamp
    var nextCategoryId: int
    var nextDocumentId: int

    function Snapshot(): Db
      reads this
    {
      Db(users, categories, documents, clock, nextCategoryId, nextDocumentId)
    }

    ghost predicate Valid()
      reads this
    {
      Consistent(Snapshot())
    }

    /** Empty tables over the users the authentication layer knows. */
    constructor (users: set<UserId>)
      ensures Valid() && Snapshot() == EmptyDb(users)
    {
      this.users := users;
      categories := map[];
      documents := map[];
      clock := 0;
      nextCategoryId := 1;
      nextDocumentId := 1;
    }

    // -------------------------------------------------------------------------
    // ORM primitives
    // -------------------------------------------------------------------------

    method Insert(title: string, content: string, author: UserId, category: Option<CategoryId>) returns (id: DocumentId)
      modifies this
      ensures (Snapshot(), id) == InsertDocument(old(Snapshot()), title, content, author, category)
    {
      clock := clock + 1;
      id := nextDocumentId;
      documents := documents[id := Document(title, content, author, category, clock, clock)];
      nextDocumentId := id + 1;
    }

    method Save(id: DocumentId, d: Document)
      modifies this
      ensures Snapshot() == SaveDocument(old(Snapshot()), id, d)
    {
      clock := clock + 1;
      documents := documents[id := d.(updatedAt := clock)];
    }

    // -------------------------------------------------------------------------
    // Category serializer
    // -------------------------------------------------------------------------

    method AddCategory(name: string, description: string, parent: Option<CategoryId>) returns (r: Result<CategoryId>)
      requires Valid()
      modifies this
      ensures Valid()
      ensures (Snapshot(), r) == Models.AddCategory(old(Snapshot()), name, description, parent)
    {
      if !NameFits(name) {
        return Err(Invalid("name"));
      }
      if parent.Some? && parent.value !in categories {
        return Err(Invalid("parent"));
      }
      clock := clock + 1;
      var id := nextCategoryId;
      categories := categories[id := Category(name, description, parent, clock)];
      nextCategoryId := id + 1;
      r := Ok(id);
    }

    method SetParent(id: CategoryId, parent: Option<CategoryId>) returns (r: Result<CategoryId>)
      requires Valid()
      modifies this
      ensures Valid()
      ensures (Snapshot(), r) == Models.SetParent(old(Snapshot()), id, parent)
    {
      if id !in categories {
        return Err(NotFound);
      }
      if parent.Some? && parent.value !in categories {
        return Err(Invalid("parent"));
      }
      categories := categories[id := categories[id].(parent := parent)];
      r := Ok(id);
    }

    // -------------------------------------------------------------------------
    // Document serializers
    // -------------------------------------------------------------------------

    /** Insert without a category; then look the category up and save again. */
    method CreateDocument(title: string, content: string, authorId: UserId, categoryId: Option<int>) returns (r: Result<DocumentId>)
      requires Valid() && TitleFits(title)
      modifies this
      ensures Valid()
      ensures (Snapshot(), r) == Serializers.CreateDocument(old(Snapshot()), title, content, authorId, categoryId)
    {
      if authorId !in users {
        return Err(IntegrityError);
      }
      var id := Insert(title, content, authorId, None);
      if categoryId.Some? && Truthy(categoryId.value) {
        if categoryId.value in categories {
          Save(id, documents[id].(category := categoryId));
        }
      }
      r := Ok(id);
    }

    /** `setattr` for every validated field, then the category lookup, then save. */
    method UpdateDocument(id: DocumentId, p: Patch) returns (r: Result<DocumentId>)
      requires Valid() && id in documents
      requires p.title.Some? ==> TitleFits(p.title.value)
      modifies this
      ensures Valid()
      ensures (Snapshot(), r) == Serializers.UpdateDocument(old(Snapshot()), id, p)
    {
      var prior := documents[id];
      var instance := prior;
      var items := Assignments(p);
      var i := 0;
      while i < |items|
        invariant 0 <= i <= |items|
        invariant instance == AssignAll(prior, items[..i])
        invariant Snapshot() == old(Snapshot())
      {
        AssignAllSnoc(prior, items[..i], items[i]);
        assert items[..i + 1] == items[..i] + [items[i]];
        instance := Assign(instance, items[i]);
        i := i + 1;
      }
      assert items[..i] == items;
      if p.categoryId.Some? && p.categoryId.value in categories {
        instance := instance.(category := p.categoryId);
      }
      if instance.author !in users {
        return Err(IntegrityError);
      }
      Save(id, instance);
      r := Ok(id);
      assert (Snapshot(), r) == Serializers.UpdateDocument(old(Snapshot()), id, p);
    }

    method CreateForUser(user: UserId, input: CreateInput) returns (id: DocumentId)
      requires Valid() && user in users
      requires TitleFits(input.title)
      requires input.category.Some? ==> input.category.value in categories
      modifies this
      ensures Valid()
      ensures (Snapshot(), id) == Serializers.CreateForUser(old(Snapshot()), user, input)
    {
      id := Insert(input.title, input.content, user, input.category);
    }

    // -------------------------------------------------------------------------
    // Document view set
    // -------------------------------------------------------------------------

    method PerformCreate(p: Views.Principal, body: Views.CreateBody) returns (r: Result<DocumentId>)
      requires Valid() && (p.Member? ==> p.id in users)
      modifies this
      ensures Valid()
      ensures (Snapshot(), r) == Views.CreateRequest(old(Snapshot()), p, body)
    {
      if !Views.Permitted(Views.DocumentViewSet, "POST", p) {
        return Err(NotAuthenticated);
      }
      var input := Views.ValidateCreate(Snapshot(), body);
      if input.Err? {
        return Err(input.error);
      }
      var id := CreateForUser(p.id, input.value);
      r := Ok(id);
    }

    method PerformUpdate(p: Views.Principal, id: DocumentId, patch: Patch, partial: bool) returns (r: Result<DocumentId>)
      requires Valid()
      modifies this
      ensures Valid()
      ensures (Snapshot(), r) == Views.UpdateRequest(old(Snapshot()), p, id, patch, partial)
    {
      if !Views.Permitted(Views.DocumentViewSet, if partial then "PATCH" else "PUT", p) {
        return Err(NotAuthenticated);
      }
      if id !in Views.Queryset(Snapshot(), p.id, p.isSuperuser) {
        return Err(NotFound);
      }
      var invalid := Views.ValidatePatch(patch, partial);
      if invalid.Some? {
        return Err(invalid.value);
      }
      r := UpdateDocument(id, patch);
    }

    method PerformDestroy(p: Views.Principal, id: DocumentId) returns (r: Result<DocumentId>)
      requires Valid()
      modifies this
      ensures Valid()
      ensures (Snapshot(), r) == Views.DestroyRequest(old(Snapshot()), p, id)
    {
      if !Views.Permitted(Views.DocumentViewSet, "DELETE", p) {
        return Err(NotAuthenticated);
      }
      if id !in Views.Queryset(Snapshot(), p.id, p.isSuperuser) {
        return Err(NotFound);
      }
      documents := documents - {id};
      r := Ok(id);
    }

    // -------------------------------------------------------------------------
    // Deletes that follow the foreign keys
    // -------------------------------------------------------------------------

    /** Collects the cascade, removes those categories and clears the category of
        every document that pointed at one of them. */
    method DeleteCategory(id: CategoryId)
      requires Valid()
      modifies this
      ensures Valid()
      ensures Snapshot() == Models.DeleteCategory(old(Snapshot()), id)
    {
      var removed := CollectCascade(categories, id);
      categories := map c | c in categories && c !in removed :: categories[c];
      documents := map d | d in documents :: SetNullIfRemoved(documents[d], removed);
      DeleteCategoryPreservesConsistent(old(Snapshot()), id);
    }

    method DeleteUser(u: UserId)
      requires Valid()
      modifies this
      ensures Valid()
      ensures Snapshot() == Models.DeleteUser(old(Snapshot()), u)
    {
      users := users - {u};
      documents := map d | d in documents && documents[d].author != u :: documents[d];
    }
  }
}
