# Bookstore operator: a Dafny model of the Book reconciler and the book store it drives

This project models three parts of the bookstore services repository and proves properties of them.

- **The Book controller's reconciliation pass** (`bookstore-operator/controllers/book_controller.go`). One call of `Reconcile` does the following:
  - fetches the Book;
  - registers the finalizer `books.finalizer.bookstore.com`, or releases it when the Book is being deleted;
  - creates, updates, or reads back and recreates the external book record, choosing by the empty-ID sentinel and the `isUpdated` drift check;
  - persists the status and returns a requeue decision.

  `BookController.BookReconciler` holds the API server's copy of the Book and logs every request sent to the bookstore service and every persist. Its `Reconcile` method changes that state step by step, as the controller does. It is proved equal to the pure function `ReconcilePass`, and the lemmas state what a pass does.
- **The Book custom resource** (`bookstore-operator/api/v1/book_types.go`). The model has `ObjectMeta` (finalizers and deletion timestamp), `BookSpec`, `BookStatus` and `Book`, in module `BookTypes`.
- **The book store's CRUD** (`bookstore/product/product.go`). `ProductStore.Collection` holds the Mongo collection as a map from product ID to stored document. Its methods are proved against pure functions: `Find`, `Merge`, `Persist`, `Apply` and `Remove`.
- **The genre tally of the metrics collector** (`bookstore/product/collector.go`). `GenreCollector.Collect` reads the cursor and counts products per genre. It then emits one gauge per genre, the book count and the number of distinct genres.

## Foreign calls

Foreign calls become parameters:

- The HTTP requests to the bookstore service and the controller-runtime client calls (`r.Get`, `r.Update`, `r.Status().Update`) are fields of an `Env` record. Each field holds a pre-decided outcome: success with a value, or an error. A Book that is absent from the API server is the not-found case.
- `time.Now()` is a parameter. So is `uuid.New()`.

## Source behaviour the model keeps

- When the external delete fails, the Book is still released: the failure is only logged, and the finalizer is removed and written back either way (bookstore-operator/controllers/book_controller.go:141-152). See `DeleteOutcomeIsIgnored`.
- A Book being deleted gets a metadata write even when the controller's finalizer is absent, because `removeString` and `r.Update` run unconditionally (bookstore-operator/controllers/book_controller.go:148-149). See `DeletionPass`.
- `deleteBook` and `updateBook` never read the response status: a non-2xx answer counts as success (bookstore-operator/controllers/book_controller.go:273-275 and 355-367).
- Every error is returned as `ctrl.Result{}` with the error, so the requeue flag stays false (bookstore-operator/controllers/book_controller.go:120, 132 and 150). See `RequeueIffSucceeded`.
- `Retrieve` reports a missing record as the driver error wrapped with "get product", never as `ErrNotFound` (bookstore/product/product.go:90-93). See `MissingIsWrappedDriverError`.
- `Update` merges the optional fields into the stored record rather than replacing it (bookstore/product/product.go:129-143). See `MergeFields`.

## Model

| member | source | states |
|---|---|---|
| `StringSlices.Contains` | bookstore-operator/controllers/book_controller.go:77-84 | containsString is true iff some element of the slice equals the string |
| `StringSlices.WithoutCounts` | bookstore-operator/controllers/book_controller.go:86-94 | the filtered slice has every occurrence of the string removed and every other element with its multiplicity kept |
| `StringSlices.RemoveString` | bookstore-operator/controllers/book_controller.go:86-94 | the append loop builds exactly the slice without the string |
| `StringSlices.WithoutAppend` | bookstore-operator/controllers/book_controller.go:86-94 | removal distributes over concatenation, so survivors keep their original order |
| `StringSlices.WithoutAbsent` | bookstore-operator/controllers/book_controller.go:147-148 | after removal the token is absent; removing an absent token changes nothing |
| `StringSlices.WithToken` | bookstore-operator/controllers/book_controller.go:129-130 | registration leaves the token present, only appends, and leaves the list unchanged exactly when the token was already there |
| `StringSlices.WithTokenIdempotent` | bookstore-operator/controllers/book_controller.go:129-134 | registering the finalizer twice equals registering it once |
| `StringSlices.RemoveAfterRegister` | bookstore-operator/controllers/book_controller.go:130 | registering then releasing the token leaves the other finalizers as they were, in order |
| `BookController.IsUpdated` | bookstore-operator/controllers/book_controller.go:212-220 | drift iff the desired fields (name, author, ISBN, genre) differ from the observed ones |
| `BookController.DriftIgnoresBookkeeping` | bookstore-operator/controllers/book_controller.go:212-220 | Foo, the ID and the two dates never affect drift |
| `BookController.FooIsNeverRead` | bookstore-operator/api/v1/book_types.go:31-32 | changing Foo changes no call, persist, result or error of a pass |
| `BookController.SyncIgnoresFoo` | bookstore-operator/controllers/book_controller.go:281-286 | the sync phase's calls, persists, result and error do not depend on Foo, which no request body carries |
| `BookController.UpdatedStatus` | bookstore-operator/controllers/book_controller.go:359-367 | the update status keeps ID and DateCreated, mirrors the spec (so no drift remains) and carries the new DateUpdated |
| `BookController.BookReconciler.Reconcile` | bookstore-operator/controllers/book_controller.go:100-206 | the stored Book, the calls and persists appended, the result and the error are those of ReconcilePass on the old stored Book |
| `BookController.NotFoundIsNoop` | bookstore-operator/controllers/book_controller.go:109-117 | a vanished Book gives an empty result, no error, no call and no write |
| `BookController.FetchFaultIsReturned` | bookstore-operator/controllers/book_controller.go:118-120 | any other fetch error is returned with no requeue and nothing else done |
| `BookController.FinalizerRegistration` | bookstore-operator/controllers/book_controller.go:125-134 | a Book not being deleted gets a metadata write iff the finalizer is absent; a present finalizer leaves the finalizers untouched; a failed write ends the pass with that error |
| `BookController.RegistrationIsIdempotent` | bookstore-operator/controllers/book_controller.go:125-134 | the pass after a successful registration writes no metadata and leaves the metadata unchanged |
| `BookController.SyncWritesStatusOnly` | bookstore-operator/controllers/book_controller.go:155-202 | the sync phase only persists status, after any earlier metadata write |
| `BookController.SyncLeavesMeta` | bookstore-operator/controllers/book_controller.go:155-202 | the sync phase changes neither metadata nor spec |
| `BookController.DeletionPass` | bookstore-operator/controllers/book_controller.go:135-153 | a Book being deleted: delete is sent only if the finalizer is present; the finalizer is then removed and persisted; no requeue; a failed write keeps the Book |
| `BookController.DeleteOutcomeIsIgnored` | bookstore-operator/controllers/book_controller.go:141-144 | the pass is the same whatever the external delete returned |
| `BookController.CreateBranch` | bookstore-operator/controllers/book_controller.go:156-168 | an empty ID triggers one create; on success status becomes exactly the created product and the pass requeues; on a create or status-write error status is unchanged and the error is returned |
| `BookController.UpdateBranch` | bookstore-operator/controllers/book_controller.go:169-183 | drift triggers one update; on success ID and DateCreated are kept, DateUpdated is now and no drift remains; the service's answers are never read |
| `BookController.NoDriftBranch` | bookstore-operator/controllers/book_controller.go:184-201 | without drift the record is read back, and recreated iff the read errors or yields an empty ID |
| `BookController.RequeueIffSucceeded` | bookstore-operator/controllers/book_controller.go:152-205 | a pass requeues iff the Book is not being deleted and no error occurred |
| `BookController.OnlyStatusAndFinalizersChange` | bookstore-operator/controllers/book_controller.go:100-206 | the pass never removes the Book and never alters spec or other metadata; status is kept or replaced by a status it persisted |
| `BookController.RequestBodyOmitsOnlyFoo` | bookstore-operator/controllers/book_controller.go:281-286 | the create and update body is `Desired(spec)`, and two specs send the same body exactly when they differ at most in `Foo` |
| `BookController.EchoedStatusHasNoDrift` | bookstore-operator/controllers/book_controller.go:314-322 | the status `StatusOf` builds from a decoded product leaves no drift iff the product echoes the request body, and is "never created" iff the product has no ID; `CreateBranch` shows that a successful create stores exactly this status |
| `BookController.OnePassConverges` | bookstore-operator/controllers/book_controller.go:155-202 | an error-free pass over a live Book leaves no drift, provided any create is answered with an echo; so a spec meeting `WellFormedSpec`, the `validate:"required"` tag on `Name` at api/v1/book_types.go:33, ends with a non-empty status name |
| `BookController.CreateConverges` | bookstore-operator/controllers/book_controller.go:156-168 | a create answered with a record echoing the spec leaves a non-empty ID, no drift and the finalizer registered |
| `BookController.NoSecondCreate` | bookstore-operator/controllers/book_controller.go:184-201 | the pass after a converged create reads the record back and creates nothing |
| `BookController.DriftCorrection` | bookstore-operator/controllers/book_controller.go:171-183 | changing the author of a converged Book issues exactly one update, after which status has the new author, the same ID and the same DateCreated |
| `ProductStore.Collection.List` | bookstore/product/product.go:56-76 | every stored product is listed exactly once |
| `ProductStore.Collection.Retrieve` | bookstore/product/product.go:79-96 | the UUID guard, then the stored record or the wrapped driver error |
| `ProductStore.Collection.Create` | bookstore/product/product.go:100-119 | the new record has the given ID, the four NewProduct fields and both dates equal to now, and is inserted under its ID |
| `ProductStore.Collection.Update` | bookstore/product/product.go:123-164 | Retrieve's error with the store unchanged, or the merged record persisted through the as-written $set |
| `ProductStore.Collection.Delete` | bookstore/product/product.go:167-182 | an unparsable ID is refused with the store unchanged; otherwise the record is removed |
| `ProductStore.RetrieveAfterCreate` | bookstore/product/product.go:100-119 | Retrieve after Create returns the created record, and other IDs are unaffected |
| `ProductStore.InvalidIdIsRefused` | bookstore/product/product.go:79-82 | an ID that does not parse as a UUID gets ErrInvalidID from Retrieve, Update and Delete |
| `ProductStore.UuidForms` | bookstore/product/product.go:80-82 | the `ValidUUID` guard accepts only 32, 36, 38 or 45 characters; at 36 exactly the hyphenated form; at 38 that form between any two ASCII delimiters, which are not examined, while a non-ASCII delimiter (more than 38 bytes) is refused; at 32 exactly 32 hex digits |
| `ProductStore.AcceptedIdHasAsciiEnds` | bookstore/product/product.go:80-82 | an ID the guard accepts begins and ends with a one-byte (ASCII) character, so its length in characters is its length in bytes at both delimiter positions |
| `ProductStore.MissingIsWrappedDriverError` | bookstore/product/product.go:90-93 | Retrieve never returns ErrNotFound; a missing record yields the wrapped driver error |
| `ProductStore.UpdateFailsLikeRetrieve` | bookstore/product/product.go:124-127 | Update fails iff Retrieve fails, and then with Retrieve's error |
| `ProductStore.MergeFields` | bookstore/product/product.go:129-143 | a sent field replaces the stored one, an unsent one is kept, and DateUpdated is always now |
| `ProductStore.UpdateOnlyAuthor` | bookstore/product/product_test.go:72-87 | an update carrying only an author changes the author and the date and nothing else |
| `ProductStore.RetrieveAfterUpdate` | bookstore/product/product.go:149-158 | Retrieve after Update gives the merged record but with the stored genre, and the stray "grene" field holds the date |
| `ProductStore.GenreUpdateIsLost` | bookstore/product/product.go:149-158 | a genre sent to Update that differs from the stored one is not what Retrieve returns afterwards |
| `ProductStore.RetrieveAfterIntendedUpdate` | bookstore/product/product.go:149-158 | with genre persisted under "genre", Retrieve after Update gives exactly the merged record, and every document stays keyed by its ID |
| `ProductStore.DeleteAbsentIsNoError` | bookstore/product/product.go:167-182 | deleting a well-formed but absent ID succeeds and changes nothing |
| `ProductStore.DeleteEveryId` | bookstore/product/product_test.go:98-112 | deleting every stored ID, in any order, leaves the collection empty |
| `GenreCollector.ReadProducts` | bookstore/product/collector.go:59-67 | decoding succeeds iff every cursor item decodes, and then yields the products in cursor order |
| `GenreCollector.CountGenres` | bookstore/product/collector.go:69-81 | the map gives each occurring genre its number of products, and the distinct-genre counter equals the number of keys |
| `GenreCollector.HistogramStep` | bookstore/product/collector.go:75-80 | one more product either bumps its genre's count or inserts the genre with count 1 |
| `GenreCollector.Emit` | bookstore/product/collector.go:83-88 | one gauge per map key with its value, then the book count, then the distinct-genre count |
| `GenreCollector.Collect` | bookstore/product/collector.go:45-90 | nothing is emitted after a Find or Decode error; otherwise the per-genre gauges, the book count and the distinct-genre count of the decoded products |
| `GenreCollector.HistogramTotal` | bookstore/product/collector.go:69-81 | the per-genre counts add up to the number of products |
| `GenreCollector.CollectedCounts` | bookstore/product/collector.go:69-81 | a genre is a key iff some product has it, the empty genre included; its count is the number of such products; the key count is the number of distinct genres; the counts sum to the book count |
| `GenreCollector.GenreCount` | bookstore/product/collector.go:73-81 | each genre's count is the number of positions holding a product of that genre |
| `GenreCollector.DistinctGenres` | bookstore/product/collector.go:75-78 | the map's keys are exactly the genres that occur |

## Findings

| source | as written | input that shows it | evidently intended | confidence | as-written member | corrected member |
|---|---|---|---|---|---|---|
| bookstore/product/product.go:155 | the `$set` of `Update` writes `p.DateUpdated` under the key `"grene"` and never writes `"genre"` | any Update whose `Genre` is set to a value other than the stored genre: a later Retrieve still returns the old genre | `{"genre", p.Genre}`, so that Retrieve after Update returns the merged record | high (not executed) | `ProductStore.GenreUpdateIsLost` | `ProductStore.RetrieveAfterIntendedUpdate` |

`Collection.Update` keeps the as-written `$set`, because it models the store that the reconciler actually drives. The corrected `ApplyIntended` and `PersistIntended` stand beside it.

## Left out

- HTTP, JSON encoding and decoding, and `getJSON`/`convertBodyToProduct` are replaced by `Env` outcomes. A non-2xx answer that decodes to an empty record shows up as a product with an empty ID.
- The controller-runtime client is replaced by `Env` outcomes. Out of scope: the API server's version conflicts, and its removal of a Book whose deletion timestamp is set and whose finalizers are empty. `SetupWithManager` is left out.
- Watches, the work queue, backoff and concurrency are left out. One pass over one Book is modelled.
- Logging is left out.
- `time.Now()` and `uuid.New()` are parameters. The model treats `time.Time` as an integer instant. It leaves out the UTC location that `Create` sets and Mongo's millisecond truncation.
- The UUID syntax follows `github.com/google/uuid`'s `Parse`, which chooses by length in UTF-8 bytes: 36-byte hyphenated; 38 bytes whose first and last are skipped unchecked; `urn:uuid:` prefixed; and 32 hex digits. The model counts characters. Every form it accepts is ASCII only, including the 38-character form's delimiters, so the two lengths agree on every accepted ID. That library is not part of this model. Its case folding of the `urn:uuid:` prefix is modelled on ASCII letters only.
- ProductStore: apart from the missing-record case of `FindOne`, the Mongo driver's own failures are not modelled: Find, Decode, InsertOne, UpdateOne and DeleteOne. The collector does model Find and Decode failures.
- `Collection.List`: products come in an unspecified order rather than the collection's natural order.
- `Collection.Create`: requires a fresh, canonically formatted ID. That is what `uuid.New()` provides. A colliding ID, which Mongo would store as a second document, is not modelled.
- The collector's Prometheus emission is a sequence of samples, and the `float64` conversions are left out. Also left out: the random order of Go map iteration beyond "some order", `Describe` and `NewBookCollector`.
- `bookstore/product/metrics.go` is not part of this model, because it is global counters and a goroutine sample. Also not part of this model: the HTTP handlers and routing, the process entry points, the Docker test setup, the generated fake clientset, and the garagesale and service trees.
