# Documents app: a verified model

This project models the `documents` app of a Django REST Framework site. The app has two tables. Document categories have a name, a description and an optional parent category. Documents have a title, content, a required author, an optional category and two timestamps. Two view sets serve the tables over HTTP. This model covers:

- the schema's bounds and the foreign-key deletion rules:
  - a category's parent link cascades;
  - a document's category link is set to null;
  - a document's author link cascades;
- the full document serializer's `create` and `update`, and the create serializer that forces the author to the requesting user;
- the view sets' permission check, serializer choice and per-user queryset, the `my_documents` and `tree` queries, the default orderings, and the create, update and destroy requests built from them.

The database is a value `Models.Db`:

- the set of user ids that the authentication layer knows;
- a map for each table;
- an abstract clock, a counter that every document insert or save and every category insert advances by one tick, and that stands in for the times `created_at` and `updated_at` record (a category has no `auto_now` column, so re-parenting one does not tick it);
- the next value of each auto-increment key.

Every write is a function from one `Db` to the next. Writes that can fail return the new `Db` paired with a `Result` that carries the error the request would produce. The two deletes that follow foreign keys (`Models.DeleteCategory`, `Models.DeleteUser`) cannot fail and return the new `Db` alone. `Persistence.Store` is the same database as a mutable object. Each of its methods changes its fields in place, in the order the source performs its saves and `setattr` calls, and is proved to end in exactly the state the matching function describes, with the store kept `Consistent`.

Modules:

- `Common`: `Option`, `Result`, the error kinds, and Python truthiness of an integer id.
- `Models`: rows, `Db`, consistency, category create and re-parent, parent chains, the cascade worklist, and deleting a category or a user.
- `Ordering`: insertion sort under a total preorder, the rows of a map as a sequence, and name order.
- `Serializers`: the document serializers' writes.
- `Views`: permissions, serializer choice, querysets, listings and request handling.
- `Persistence`: the `Store` class.

Behaviour of the code worth knowing, which the model keeps:

- **Author on update.** The full serializer declares `author_id` as a writable field (documents/serializers.py:23), and `update` assigns every validated field (documents/serializers.py:57-58). So a document's author is not fixed after creation: an owner can hand a document to another user (`Views.OwnerCanReassignAuthor`).
- **Which serializer creates.** The create action uses the create serializer, which inserts once with the author forced. `DocumentSerializer.create` (`Serializers.CreateDocument`) is modelled as written, but no view action reaches it.
- **Cycles.** Categories have no cycle guard, so the model allows cycles. The cascade removes everything whose parent chain reaches the deleted category.

## Model

| member | source | states |
|---|---|---|
| Models.CategoryLabelFits | documents/models.py:17-18 | The string form of a stored category (its name) is never blank and is at most 100 characters long. |
| Models.DocumentLabelFits | documents/models.py:35-36 | The string form of a stored document (its title) is never blank and is at most 200 characters long. |
| Models.EmptyDbConsistent | documents/models.py:5-28 | Empty tables satisfy every column bound and reference rule of the schema. |
| Models.AddCategory | documents/models.py:7-10 | Creating a category succeeds iff the name is non-blank and at most 100 characters and a given parent exists. On failure nothing changes. On success one key is added whose row holds the given name, description and parent and a fresh creation tick. Every other category row is unchanged, documents and users are untouched, the key is fresh in a consistent table, and consistency is kept. |
| Models.SetParent | documents/models.py:9 | Re-parenting succeeds iff the category and the new parent exist. Only that row's parent changes: every other category, the documents, users, clock and counters are unchanged. No cycle check is made. |
| Models.CyclesAreAccepted | documents/models.py:9 | Two categories can be made each other's parent. The result is still consistent. Two parent links lead from the first back to itself, and deleting it cascades across the cycle to the second. |
| Models.CollectCascade | documents/models.py:9 | The worklist ends, even on cyclic tables, with exactly the categories whose parent chain reaches the deleted one. |
| Models.DeleteCategory | documents/models.py:9 | After the delete, a category survives iff it existed and does not reach the deleted one. Survivors are unchanged, and users, clock and counters are untouched. |
| Models.DeleteCategoryNullsReferences | documents/models.py:26 | No document is removed by a category delete. A document whose category is in the cascade gets a null category and keeps every other column, `updated_at` included. All other documents are unchanged. |
| Models.DeleteCategoryLeavesNoOrphans | documents/models.py:9 | After the cascade, no surviving category's parent points at a removed category. |
| Models.DeleteCategoryPreservesConsistent | documents/models.py:9 | Deleting a category keeps the database consistent. |
| Models.ChainEndsInTable | documents/models.py:9 | In a consistent table, a non-empty parent chain ends at an existing category. |
| Models.DeleteMissingCategoryChangesNothing | documents/models.py:9 | Deleting an id that names no category leaves the database as it was. |
| Models.DeleteUser | documents/models.py:25 | Deleting a user removes exactly that user's documents. Every other document and every category is unchanged, and consistency is kept. |
| Ordering.Sort | documents/models.py:15 | A listing in default order holds the same rows, each as often as before. |
| Ordering.SortSorted | documents/models.py:33 | Under a total preorder, the sorted listing is in order. |
| Ordering.Entries | documents/models.py:15 | The rows of a table as a sequence hold each row exactly once. |
| Ordering.NameLeTotal | documents/models.py:15 | Any two category names are comparable by name order. |
| Ordering.NameLeTransitive | documents/models.py:15 | Name order is transitive. |
| Serializers.WriteDocumentKeepsConsistent | documents/models.py:23-28 | Writing one document row that meets the column and reference rules, with the clock and counter only moving forward, keeps the database consistent. |
| Serializers.CreateDocument | documents/serializers.py:35-50 | Create fails (IntegrityError, nothing written) iff the author is unknown. Otherwise it adds one fresh document with the given title, content and author. Its category is the supplied id when that id is truthy (0 is skipped) and names a category, and is null otherwise, with no error. `updated_at` is one tick past `created_at` exactly when the second save happened. |
| Serializers.AssignAllOverrides | documents/serializers.py:57-58 | The `setattr` loop writes every supplied field, `author_id` included, and leaves every field not supplied unchanged. |
| Serializers.AssignAllSnoc | documents/serializers.py:57-58 | One more `setattr` applies after those already done. |
| Serializers.UpdateDocument | documents/serializers.py:52-69 | Update fails (IntegrityError, nothing written) iff the resulting author is unknown. Otherwise supplied fields override and others are kept. A supplied category id (0 included) that names a category replaces the category, and an absent or unresolvable one keeps it while the other changes are still saved. `created_at` is kept and `updated_at` is refreshed. |
| Serializers.ZeroCategoryCreateVersusUpdate | documents/serializers.py:42 | A `category_id` of 0 naming an existing category is ignored by create, which tests truthiness. The update, which tests `is not None` at line 61, applies it. |
| Serializers.CreateForUser | documents/serializers.py:92-95 | The create serializer inserts one row whose author is the requesting user, with the given title, content and category. Every other row is unchanged, and the key is fresh in a consistent table. Both timestamps take the insert's tick (see Left out). |
| Views.GetPermissions | documents/views.py:81-85 | For either view set, the open permission is chosen iff the method is GET, HEAD or OPTIONS. |
| Views.Permitted | documents/views.py:29-33 | A request passes the permission check iff its method is safe or the caller is authenticated. An anonymous POST, PUT, PATCH or DELETE is refused. |
| Views.SerializerFor | documents/views.py:35-41 | `get_serializer_class` returns the list serializer for `list`, the create serializer for `create`, and the full serializer for every other action. |
| Views.SerializerFieldsByAction | documents/serializers.py:79-90 | The list and `my_documents` outputs omit `content` (`my_documents` renders with the list serializer directly, documents/views.py:67). The create serializer accepts only title, content and category. `author_id` is accepted exactly by the actions that use the full serializer. |
| Views.Queryset | documents/views.py:43-51 | A superuser's document set is all documents. Anyone else's is exactly the documents they authored. |
| Views.MyDocuments | documents/views.py:63-68 | `my_documents` holds exactly the requester's documents, as stored. |
| Views.MyDocumentsIgnoresSuperuser | documents/views.py:66 | `my_documents` equals an ordinary user's queryset whether or not the requester is a superuser. For a superuser it equals the full queryset iff every document is theirs. |
| Views.Roots | documents/views.py:90 | The tree's source rows are exactly the categories with no parent. |
| Views.NewestFirstIsPreorder | documents/views.py:27 | Newest-created-first is a total preorder. |
| Views.ByNameIsPreorder | documents/views.py:79 | Ordering categories by name is a total preorder. |
| Views.ListDocuments | documents/views.py:27 | A user's document list holds every row of their queryset exactly once, newest created first. |
| Views.ListHoldsOnlyVisible | documents/views.py:48-49 | Every entry of a non-superuser's list is a stored document they authored. |
| Views.ListMyDocuments | documents/models.py:33 | The `my_documents` response holds the requester's rows exactly once, newest created first. |
| Views.Tree | documents/views.py:87-92 | The `tree` response holds every root category exactly once, ordered by name. |
| Views.TreeHoldsOnlyRoots | documents/views.py:90 | Every entry of the tree is a stored category without a parent, so no child appears. |
| Views.ListCategories | documents/views.py:79 | The category list holds every category exactly once, ordered by name. |
| Views.ValidateCreate | documents/serializers.py:84-90 | Create validation accepts iff the title is non-blank and at most 200 characters and a given category exists. Content defaults to empty, and undeclared keys (an author) are dropped. |
| Views.CreateRequest | documents/views.py:53-55 | An anonymous POST is refused and nothing changes. An authenticated POST whose body fails validation gets that validation error (400) and nothing changes; no other error is possible. A POST succeeds iff the caller is authenticated and the body validates. It then adds one document authored by the caller with the sent fields. Every other document, the categories and the users are unchanged, the key is fresh in a consistent table, and consistency is kept. |
| Views.CreateIgnoresClientAuthor | documents/serializers.py:94 | Whatever author the body names, the outcome of a create is the same. |
| Views.CreatedDocumentIsVisibleToAuthor | documents/views.py:43-55 | A created document is in its author's queryset and `my_documents`, with the title, content and category sent. |
| Views.ValidatePatch | documents/serializers.py:20-33 | Full-serializer validation accepts iff a given title fits and, for a PUT, title and `author_id` are both supplied. |
| Views.UpdateRequest | documents/views.py:58-61 | An anonymous update is refused. A document outside the caller's queryset is not found. Any error changes nothing. For an authenticated caller and a document in their queryset, an invalid patch gives its validation error, and a valid one gives exactly the full serializer's update. |
| Views.UpdateOfOthersDocumentIsNotFound | documents/views.py:48-49 | An ordinary user's update of another user's document is not found and changes nothing. |
| Views.OwnerCanReassignAuthor | documents/serializers.py:23 | An owner's PATCH of `author_id` to another known user succeeds. The document then leaves the owner's queryset and appears in the new author's `my_documents`. |
| Views.DestroyRequest | documents/views.py:43-51 | An anonymous DELETE is refused. An authenticated caller's DELETE of a document outside their queryset is not found. Any error changes nothing. A success removes that one row and leaves everything else, clock and key counters included, as it was, keeping consistency. |
| Persistence.Store.constructor | documents/models.py:5-28 | A new store has empty tables over the known users and is consistent. |
| Persistence.Store.Insert | documents/models.py:27-28 | An insert takes the next key and stamps both timestamps with a fresh tick. |
| Persistence.Store.Save | documents/models.py:28 | A save writes the row back with `updated_at` set to a fresh tick. |
| Persistence.Store.AddCategory | documents/models.py:7-10 | Equals `Models.AddCategory` on the store's state and keeps the store consistent. |
| Persistence.Store.SetParent | documents/models.py:9 | Equals `Models.SetParent` on the store's state and keeps the store consistent. |
| Persistence.Store.CreateDocument | documents/serializers.py:35-50 | Insert without a category, then set the category and save again. Ends in the state `Serializers.CreateDocument` gives, consistent. |
| Persistence.Store.UpdateDocument | documents/serializers.py:52-69 | The `setattr` loop, category lookup and save end in the state `Serializers.UpdateDocument` gives, consistent. |
| Persistence.Store.CreateForUser | documents/serializers.py:92-95 | Ends in the state `Serializers.CreateForUser` gives, consistent. |
| Persistence.Store.PerformCreate | documents/views.py:53-56 | Ends in the state and result `Views.CreateRequest` gives, consistent. |
| Persistence.Store.PerformUpdate | documents/views.py:58-61 | Ends in the state and result `Views.UpdateRequest` gives, consistent. |
| Persistence.Store.PerformDestroy | documents/views.py:43-51 | Ends in the state and result `Views.DestroyRequest` gives, consistent. |
| Persistence.Store.DeleteCategory | documents/models.py:9 | Collects the cascade, removes it and nulls references. Ends in the state `Models.DeleteCategory` gives, consistent. |
| Persistence.Store.DeleteUser | documents/models.py:25 | Ends in the state `Models.DeleteUser` gives, consistent. |

## Left out

- Search, filter and ordering-filter backends (documents/views.py:23-26, 76-78): their term splitting and case handling are library behaviour. Listings use only the default ordering.
- Ties in the default ordering: rows with equal `created_at` (or equal names) may come in any order. The listings state only membership and sortedness.
- Name order compares character codes. Database collation is not modelled.
- An anonymous caller's GET of the document list or `my_documents` is not modelled, because it depends on how the ORM treats an anonymous user in `filter(author=...)`. `Views.Queryset` and `Views.MyDocuments` take a user id.
- Nested output (`UserSerializer`, the nested category) and JSON rendering: the model returns rows, not response bodies.
- JSON type coercion and DRF's trimming of whitespace in character fields: inputs arrive already typed and trimmed.
- A create body can only omit the category, not send an explicit null. Model values are Option types.
- Category updates of name or description: only re-parenting (`Models.SetParent`) is modelled, because it is the update that bears on cycles and the cascade.
- Category create, update and destroy go through the category view set's default `ModelViewSet` actions. The model gives their effect on the tables (`Models.AddCategory`, `Models.SetParent`, `Models.DeleteCategory`); the permission check for them is `Views.Permitted`. No separate request functions are written for them.
- Deleting a user is modelled only for its effect on the documents table; the user table itself is only a set of ids.
- Logging calls, and the HTML page view `document_list_view`.
- Token login, profile, logout and the Celery task endpoints (api/views.py), including the missing-recipient check that answers 400. The mail task, the Celery configuration, URL routing, admin and the sign-up adapter are not part of this model.
- Timestamps are one tick per document insert or save and per category insert. An insert gives `created_at` and `updated_at` the same tick, whereas the source reads the clock separately for each column (documents/models.py:27-28), so its two stamps need not be equal. Only their order relative to other saves is modelled.
- Key range: ids are unbounded integers. Whether a `category_id` outside the database's 64-bit key range is silently skipped (documents/serializers.py:47-48, 65-66) or raises a database error depends on the Django version and backend, and is not modelled.
- Concurrency and transactions: each request is one atomic step on the database value.
