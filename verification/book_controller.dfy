/**
 * One reconciliation pass of the Book controller.
 *
 * The API server's copy of the Book and the log of external calls and persists are the
 * state of `BookReconciler`; its `Reconcile` method changes that state step by step, as the
 * controller does, and is proved equal to the pure pass `ReconcilePass`, about which the
 * lemmas at the end of the module state what a pass does.
 */
module BookController {
  import opened Wrappers
  import opened BookTypes
  import opened StringSlices

  type Error = string

  /** The finalizer token the controller registers on every Book it manages. */
  const FinalizerToken := "books.finalizer.bookstore.com"

  /** The bookstore service's record as the controller decodes it (all strings). */
  datatype Product = Product(
    id: string,
    name: string,
    author: string,
    isbn: string,
    genre: string,
    dateCreated: string,
    dateUpdated: string)

  /** A request to the bookstore service. */
  datatype Call =
    | GetCall(id: string)
    | CreateCall(body: Fields)              // the NewProduct body: Desired(spec)
    | UpdateCall(id: string, body: Fields)
    | DeleteCall(id: string)

  /** A persist to the API server: metadata (finalizers) and the status subresource are distinct. */
  datatype Write = MetaWrite(finalizers: seq<string>) | StatusWrite(status: BookStatus)

  /** ctrl.Result, of which only the requeue flag is ever set. */
  datatype CtrlResult = CtrlResult(requeue: bool)

  /**
   * The outcomes of the foreign calls of one pass. Each call is made at most once per pass,
   * so one outcome per call describes any run.
   */
  datatype Env = Env(
    fetchFault: Option<Error>,        // r.Get failing with anything but NotFound
    metaWrite: Option<Error>,         // r.Update
    statusWrite: Option<Error>,       // r.Status().Update
    created: Result<Product, Error>,  // createBook: transport and decoding
    updated: Option<Error>,           // updateBook: transport only, the response is ignored
    fetched: Result<Product, Error>,  // getBook
    deleted: Option<Error>,           // deleteBook: transport only, the response is ignored
    now: string)                      // time.Now().String()

  /** What one pass leaves behind: the stored Book, the calls and persists made, the return value. */
  datatype PassOutcome = PassOutcome(
    stored: Option<Book>,
    calls: seq<Call>,
    writes: seq<Write>,
    result: CtrlResult,
    err: Option<Error>)

  /** `isUpdated`: spec and status disagree on one of the four mirrored fields. */
  function IsUpdated(spec: BookSpec, status: BookStatus): (drift: bool)
    ensures drift <==> Desired(spec) != Observed(status)
  {
    spec.name != status.name
    || spec.author != status.author
    || spec.isbn != status.isbn
    || spec.genre != status.genre
  }

  /** The status `createBook` and `getBook` build from a decoded product. */
  function StatusOf(p: Product): BookStatus {
    BookStatus(p.id, p.name, p.author, p.isbn, p.genre, p.dateCreated, p.dateUpdated)
  }

  /** The four request fields a product carries back. */
  function Echo(p: Product): Fields {
    Fields(p.name, p.author, p.isbn, p.genre)
  }

  /** The status `updateBook` builds without reading the response. */
  function UpdatedStatus(book: Book, now: string): (st: BookStatus)
    ensures !IsUpdated(book.spec, st)
    ensures Observed(st) == Desired(book.spec)
    ensures st.id == book.status.id && st.dateCreated == book.status.dateCreated
    ensures st.dateUpdated == now
  {
    BookStatus(book.status.id, book.spec.name, book.spec.author, book.spec.isbn, book.spec.genre,
               book.status.dateCreated, now)
  }

  const NoRequeue := CtrlResult(false)
  const Requeue := CtrlResult(true)

  // ---------------------------------------------------------------------------------------
  // The pass as a function

  function ReconcilePass(stored: Option<Book>, env: Env): PassOutcome {
    if env.fetchFault.Some? then
      PassOutcome(stored, [], [], NoRequeue, env.fetchFault)
    else if stored.None? then
      PassOutcome(None, [], [], NoRequeue, None)
    else if !BeingDeleted(stored.value) then
      Register(stored.value, env)
    else
      Finalize(stored.value, env)
  }

  /** Not being deleted: make sure the finalizer is registered, then sync. */
  function Register(book: Book, env: Env): PassOutcome {
    if Contains(book.meta.finalizers, FinalizerToken) then
      Sync(book, env, [])
    else
      var registered := book.(meta := book.meta.(finalizers := book.meta.finalizers + [FinalizerToken]));
      var writes := [MetaWrite(registered.meta.finalizers)];
      if env.metaWrite.Some? then PassOutcome(Some(book), [], writes, NoRequeue, env.metaWrite)
      else Sync(registered, env, writes)
  }

  /** Being deleted: delete the external record if the finalizer is ours, then drop it. */
  function Finalize(book: Book, env: Env): PassOutcome {
    var calls := if Contains(book.meta.finalizers, FinalizerToken) then [DeleteCall(book.status.id)] else [];
    var released := book.(meta := book.meta.(finalizers := Without(book.meta.finalizers, FinalizerToken)));
    var writes := [MetaWrite(released.meta.finalizers)];
    if env.metaWrite.Some? then PassOutcome(Some(book), calls, writes, NoRequeue, env.metaWrite)
    else PassOutcome(Some(released), calls, writes, NoRequeue, None)
  }

  /** `book` is what the API server now holds. */
  function Sync(book: Book, env: Env, writes: seq<Write>): PassOutcome {
    if book.status.id == "" then
      Create(book, env, [], writes)
    else if IsUpdated(book.spec, book.status) then
      var calls := [UpdateCall(book.status.id, Desired(book.spec))];
      if env.updated.Some? then PassOutcome(Some(book), calls, writes, NoRequeue, env.updated)
      else PersistStatus(book, UpdatedStatus(book, env.now), env, calls, writes)
    else
      var calls := [GetCall(book.status.id)];
      if env.fetched.Failure? || env.fetched.value.id == "" then Create(book, env, calls, writes)
      else PassOutcome(Some(book), calls, writes, Requeue, None)
  }

  function Create(book: Book, env: Env, calls: seq<Call>, writes: seq<Write>): PassOutcome {
    var calls' := calls + [CreateCall(Desired(book.spec))];
    if env.created.Failure? then PassOutcome(Some(book), calls', writes, NoRequeue, Some(env.created.error))
    else PersistStatus(book, StatusOf(env.created.value), env, calls', writes)
  }

  function PersistStatus(book: Book, status: BookStatus, env: Env, calls: seq<Call>, writes: seq<Write>): PassOutcome {
    var writes' := writes + [StatusWrite(status)];
    if env.statusWrite.Some? then PassOutcome(Some(book), calls, writes', NoRequeue, env.statusWrite)
    else PassOutcome(Some(book.(status := status)), calls, writes', Requeue, None)
  }

  // ---------------------------------------------------------------------------------------
  // The pass as the controller runs it

  class BookReconciler {
    /** The API server's copy of the Book under reconciliation; None once it is gone. */
    var stored: Option<Book>
    /** Every request sent to the bookstore service, oldest first. */
    var calls: seq<Call>
    /** Every persist attempted against the API server, oldest first. */
    var writes: seq<Write>

    constructor (initial: Option<Book>)
      ensures stored == initial && calls == [] && writes == []
    {
      stored := initial;
      calls := [];
      writes := [];
    }

    /** Reconcile: fetch, finalizer handling, create / update / get-then-recreate, status persist. */
    method Reconcile(env: Env) returns (result: CtrlResult, err: Option<Error>)
      modifies this
      ensures var o := ReconcilePass(old(stored), env);
        && stored == o.stored
        && calls == old(calls) + o.calls
        && writes == old(writes) + o.writes
        && result == o.result
        && err == o.err
    {
      if env.fetchFault.Some? {
        return NoRequeue, env.fetchFault;
      }
      if stored.None? {
        return NoRequeue, None;
      }
      var book := stored.value;

      if !BeingDeleted(book) {
        if !Contains(book.meta.finalizers, FinalizerToken) {
          book := book.(meta := book.meta.(finalizers := book.meta.finalizers + [FinalizerToken]));
          writes := writes + [MetaWrite(book.meta.finalizers)];
          if env.metaWrite.Some? {
            return NoRequeue, env.metaWrite;
          }
          stored := Some(book);
        }
      } else {
        if Contains(book.meta.finalizers, FinalizerToken) {
          calls := calls + [DeleteCall(book.status.id)];
          // a failed delete (env.deleted) is only logged
        }
        var remaining := RemoveString(book.meta.finalizers, FinalizerToken);
        book := book.(meta := book.meta.(finalizers := remaining));
        writes := writes + [MetaWrite(remaining)];
        if env.metaWrite.Some? {
          return NoRequeue, env.metaWrite;
        }
        stored := Some(book);
        return NoRequeue, None;
      }

      if book.status.id == "" {
        calls := calls + [CreateCall(Desired(book.spec))];
        if env.created.Failure? {
          return NoRequeue, Some(env.created.error);
        }
        var status := StatusOf(env.created.value);
        writes := writes + [StatusWrite(status)];
        if env.statusWrite.Some? {
          return NoRequeue, env.statusWrite;
        }
        book := book.(status := status);
        stored := Some(book);
      } else if IsUpdated(book.spec, book.status) {
        calls := calls + [UpdateCall(book.status.id, Desired(book.spec))];
        if env.updated.Some? {
          return NoRequeue, env.updated;
        }
        var status := UpdatedStatus(book, env.now);
        writes := writes + [StatusWrite(status)];
        if env.statusWrite.Some? {
          return NoRequeue, env.statusWrite;
        }
        book := book.(status := status);
        stored := Some(book);
      } else {
        calls := calls + [GetCall(book.status.id)];
        if env.fetched.Failure? || env.fetched.value.id == "" {
          calls := calls + [CreateCall(Desired(book.spec))];
          if env.created.Failure? {
            return NoRequeue, Some(env.created.error);
          }
          var status := StatusOf(env.created.value);
          writes := writes + [StatusWrite(status)];
          if env.statusWrite.Some? {
            return NoRequeue, env.statusWrite;
          }
          book := book.(status := status);
          stored := Some(book);
        }
      }
      return Requeue, None;
    }
  }

  // ---------------------------------------------------------------------------------------
  // What a pass does

  /** `book` with the controller's finalizer registered. */
  function Registered(book: Book): Book {
    book.(meta := book.meta.(finalizers := WithToken(book.meta.finalizers, FinalizerToken)))
  }

  /** A Book that has vanished from the API server: empty result, no error, no call, no write. */
  lemma NotFoundIsNoop(env: Env)
    requires env.fetchFault.None?
    ensures ReconcilePass(None, env) == PassOutcome(None, [], [], CtrlResult(false), None)
  {
  }

  /** Any other fetch error is returned as it is, with no requeue flag and nothing else done. */
  lemma FetchFaultIsReturned(stored: Option<Book>, env: Env)
    requires env.fetchFault.Some?
    ensures var o := ReconcilePass(stored, env);
      o.stored == stored && o.calls == [] && o.writes == [] && !o.result.requeue && o.err == env.fetchFault
  {
  }

  /** Sync persists status only; it never writes metadata. */
  lemma SyncWritesStatusOnly(book: Book, env: Env, writes: seq<Write>)
    ensures var o := Sync(book, env, writes);
      |o.writes| >= |writes| && o.writes[..|writes|] == writes
      && forall i :: |writes| <= i < |o.writes| ==> o.writes[i].StatusWrite?
  {
  }

  /**
   * Not being deleted: the finalizer is appended (and the metadata written) exactly when it
   * is absent; when it is present the finalizers stay as they are and no metadata write happens.
   */
  lemma FinalizerRegistration(book: Book, env: Env)
    requires !BeingDeleted(book) && env.fetchFault.None?
    ensures var o := ReconcilePass(Some(book), env);
      var fs := book.meta.finalizers;
      && o.stored.Some?
      && ((exists i :: 0 <= i < |o.writes| && o.writes[i].MetaWrite?) <==> !Contains(fs, FinalizerToken))
      && (!Contains(fs, FinalizerToken) ==> o.writes[0] == MetaWrite(fs + [FinalizerToken]))
      && (Contains(fs, FinalizerToken) || env.metaWrite.None? ==>
            o.stored.value.meta == Registered(book).meta)
      && (!Contains(fs, FinalizerToken) && env.metaWrite.Some? ==>
            o == PassOutcome(Some(book), [], [MetaWrite(fs + [FinalizerToken])], CtrlResult(false), env.metaWrite))
  {
    var fs := book.meta.finalizers;
    if Contains(fs, FinalizerToken) {
      SyncWritesStatusOnly(book, env, []);
    } else {
      var o := ReconcilePass(Some(book), env);
      if env.metaWrite.None? {
        SyncWritesStatusOnly(Registered(book), env, [MetaWrite(fs + [FinalizerToken])]);
      }
      assert o.writes[0].MetaWrite?;
    }
  }

  /** A second pass after a successful registration writes no metadata: registration is idempotent. */
  lemma RegistrationIsIdempotent(book: Book, env1: Env, env2: Env)
    requires !BeingDeleted(book) && env1.fetchFault.None? && env1.metaWrite.None? && env2.fetchFault.None?
    ensures var o1 := ReconcilePass(Some(book), env1);
      var o2 := ReconcilePass(o1.stored, env2);
      && o1.stored.Some? && o2.stored.Some?
      && o2.stored.value.meta == o1.stored.value.meta
      && forall i :: 0 <= i < |o2.writes| ==> !o2.writes[i].MetaWrite?
  {
    FinalizerRegistration(book, env1);
    var o1 := ReconcilePass(Some(book), env1);
    SyncLeavesMeta(Registered(book), env1, if Contains(book.meta.finalizers, FinalizerToken) then [] else [MetaWrite(book.meta.finalizers + [FinalizerToken])]);
    FinalizerRegistration(o1.stored.value, env2);
    WithTokenIdempotent(book.meta.finalizers, FinalizerToken);
  }

  /** Sync changes at most the status of the Book it is given. */
  lemma SyncLeavesMeta(book: Book, env: Env, writes: seq<Write>)
    ensures var o := Sync(book, env, writes);
      o.stored.Some? && o.stored.value.meta == book.meta && o.stored.value.spec == book.spec
  {
  }

  /**
   * Being deleted: the external delete is sent only when the finalizer is ours, the finalizer
   * is then removed (every other finalizer kept in order) whatever the delete did, and the
   * pass never requeues.
   */
  lemma DeletionPass(book: Book, env: Env)
    requires BeingDeleted(book) && env.fetchFault.None?
    ensures var o := ReconcilePass(Some(book), env);
      var fs := book.meta.finalizers;
      && o.calls == (if Contains(fs, FinalizerToken) then [DeleteCall(book.status.id)] else [])
      && o.writes == [MetaWrite(Without(fs, FinalizerToken))]
      && o.result == CtrlResult(false)
      && o.err == env.metaWrite
      && (env.metaWrite.Some? ==> o.stored == Some(book))
      && (env.metaWrite.None? ==>
            && o.stored.Some?
            && o.stored.value.meta == book.meta.(finalizers := Without(fs, FinalizerToken))
            && o.stored.value.spec == book.spec && o.stored.value.status == book.status
            && !Contains(o.stored.value.meta.finalizers, FinalizerToken))
  {
    WithoutAbsent(book.meta.finalizers, FinalizerToken);
  }

  /** The outcome of the external delete changes nothing: a failed delete is only logged. */
  lemma DeleteOutcomeIsIgnored(stored: Option<Book>, env: Env, deleted: Option<Error>)
    ensures ReconcilePass(stored, env.(deleted := deleted)) == ReconcilePass(stored, env)
  {
  }

  /**
   * Empty ID: the create path runs. On success the status becomes exactly the created
   * product; on a create or status-write error the stored status is unchanged and the error
   * is returned without requeue.
   */
  lemma CreateBranch(book: Book, env: Env)
    requires !BeingDeleted(book) && env.fetchFault.None? && NeverCreated(book.status)
    requires Contains(book.meta.finalizers, FinalizerToken) || env.metaWrite.None?
    ensures var o := ReconcilePass(Some(book), env);
      && o.calls == [CreateCall(Desired(book.spec))]
      && o.stored.Some?
      && (env.created.Success? && env.statusWrite.None? ==>
            && o.stored == Some(Registered(book).(status := StatusOf(env.created.value)))
            && o.result == CtrlResult(true) && o.err.None?)
      && (env.created.Failure? ==>
            && o.stored == Some(Registered(book))
            && o.err == Some(env.created.error) && !o.result.requeue)
      && (env.created.Success? && env.statusWrite.Some? ==>
            && o.stored == Some(Registered(book))
            && o.err == env.statusWrite && !o.result.requeue)
  {
  }

  /**
   * Drift on a created Book: one update request; on success the status keeps its ID and
   * creation date, takes the four spec fields and the new update date, so no drift is left.
   * The bookstore's answer is never read.
   */
  lemma UpdateBranch(book: Book, env: Env, created: Result<Product, Error>, fetched: Result<Product, Error>)
    requires !BeingDeleted(book) && env.fetchFault.None? && !NeverCreated(book.status)
    requires IsUpdated(book.spec, book.status)
    requires Contains(book.meta.finalizers, FinalizerToken) || env.metaWrite.None?
    ensures var o := ReconcilePass(Some(book), env);
      && o.calls == [UpdateCall(book.status.id, Desired(book.spec))]
      && ReconcilePass(Some(book), env.(created := created, fetched := fetched)) == o
      && o.stored.Some?
      && (env.updated.None? && env.statusWrite.None? ==>
            var st := o.stored.value.status;
            && st.id == book.status.id && st.dateCreated == book.status.dateCreated
            && st.dateUpdated == env.now
            && !IsUpdated(book.spec, st)
            && o.result == CtrlResult(true) && o.err.None?)
      && (env.updated.Some? ==>
            o.stored == Some(Registered(book)) && o.err == env.updated && !o.result.requeue)
  {
  }

  /**
   * No drift on a created Book: the record is read back, and it is recreated exactly when
   * the read fails or yields an empty ID; otherwise the status is left as it is.
   */
  lemma NoDriftBranch(book: Book, env: Env)
    requires !BeingDeleted(book) && env.fetchFault.None? && !NeverCreated(book.status)
    requires !IsUpdated(book.spec, book.status)
    requires Contains(book.meta.finalizers, FinalizerToken) || env.metaWrite.None?
    ensures var o := ReconcilePass(Some(book), env);
      var recreate := env.fetched.Failure? || env.fetched.value.id == "";
      && |o.calls| >= 1 && o.calls[0] == GetCall(book.status.id)
      && ((exists i :: 0 <= i < |o.calls| && o.calls[i].CreateCall?) <==> recreate)
      && (recreate ==> o.calls == [GetCall(book.status.id), CreateCall(Desired(book.spec))])
      && (!recreate ==>
            && o.stored == Some(Registered(book))
            && (forall i :: 0 <= i < |o.writes| ==> !o.writes[i].StatusWrite?)
            && o.result == CtrlResult(true) && o.err.None?)
  {
    var o := ReconcilePass(Some(book), env);
    if env.fetched.Failure? || env.fetched.value.id == "" {
      assert o.calls[1].CreateCall?;
    } else {
      assert o.calls == [GetCall(book.status.id)];
    }
  }

  /** A pass requeues exactly when it did not delete and met no error. */
  lemma RequeueIffSucceeded(book: Book, env: Env)
    requires env.fetchFault.None?
    ensures var o := ReconcilePass(Some(book), env);
      o.result.requeue <==> !BeingDeleted(book) && o.err.None?
  {
  }

  /**
   * The controller never removes the Book and never touches its spec or its deletion
   * timestamp; status is either left alone or replaced by a status it wrote.
   */
  lemma OnlyStatusAndFinalizersChange(stored: Option<Book>, env: Env)
    ensures var o := ReconcilePass(stored, env);
      && (o.stored.Some? <==> stored.Some?)
      && (o.stored.Some? ==>
            && o.stored.value.spec == stored.value.spec
            && o.stored.value.meta == stored.value.meta.(finalizers := o.stored.value.meta.finalizers)
            && (o.stored.value.status == stored.value.status
                || StatusWrite(o.stored.value.status) in o.writes))
  {
  }

  /**
   * The body `createBook` and `updateBook` send, `Desired(spec)`, determines the whole spec
   * except `Foo`: two specs send the same body exactly when they differ at most in `Foo`.
   */
  lemma RequestBodyOmitsOnlyFoo(spec: BookSpec, spec': BookSpec)
    ensures Desired(spec) == Desired(spec') <==> spec.(foo := spec'.foo) == spec'
  {
  }

  /**
   * The status built from a product leaves no drift exactly when the product echoes the
   * request body, and it counts as never created exactly when the product has no ID.
   */
  lemma EchoedStatusHasNoDrift(spec: BookSpec, p: Product)
    ensures !IsUpdated(spec, StatusOf(p)) <==> Echo(p) == Desired(spec)
    ensures NeverCreated(StatusOf(p)) <==> p.id == ""
  {
  }

  /**
   * One error-free pass over a live Book leaves status in step with spec, provided a create,
   * if one happens, is answered with an echo of the request; in particular the required name
   * reaches status.
   */
  lemma OnePassConverges(book: Book, env: Env)
    requires !BeingDeleted(book) && env.fetchFault.None?
    requires env.created.Success? ==> Echo(env.created.value) == Desired(book.spec)
    ensures var o := ReconcilePass(Some(book), env);
      o.err.None? ==>
        && o.stored.Some?
        && !IsUpdated(book.spec, o.stored.value.status)
        && (WellFormedSpec(book.spec) ==> o.stored.value.status.name != "")
  {
    if env.created.Success? {
      EchoedStatusHasNoDrift(book.spec, env.created.value);
    }
  }

  /**
   * Convergence: a new Book whose create is answered with a record echoing its spec ends
   * the pass with a non-empty ID, no drift and the finalizer registered. The echo is what
   * the bookstore's own Create does: `ProductStore.Collection.Create` proves that the
   * stored record carries exactly the request's name, author, ISBN and genre.
   */
  lemma CreateConverges(book: Book, env: Env)
    requires !BeingDeleted(book) && NeverCreated(book.status)
    requires env.fetchFault.None? && env.metaWrite.None? && env.statusWrite.None?
    requires env.created.Success? && env.created.value.id != ""
    requires Echo(env.created.value) == Desired(book.spec)
    ensures var o := ReconcilePass(Some(book), env);
      && o.stored.Some?
      && !NeverCreated(o.stored.value.status)
      && !IsUpdated(book.spec, o.stored.value.status)
      && Contains(o.stored.value.meta.finalizers, FinalizerToken)
  {
    CreateBranch(book, env);
  }

  /**
   * Idempotent create: the pass after a converged create reads the record back instead of
   * creating a second one.
   */
  lemma NoSecondCreate(book: Book, env1: Env, env2: Env)
    requires !BeingDeleted(book) && NeverCreated(book.status)
    requires env1.fetchFault.None? && env1.metaWrite.None? && env1.statusWrite.None?
    requires env1.created.Success? && env1.created.value.id != ""
    requires Echo(env1.created.value) == Desired(book.spec)
    requires env2.fetchFault.None? && env2.fetched.Success? && env2.fetched.value.id != ""
    ensures var o1 := ReconcilePass(Some(book), env1);
      var o2 := ReconcilePass(o1.stored, env2);
      && o2.calls == [GetCall(env1.created.value.id)]
      && o2.stored == o1.stored
  {
    CreateConverges(book, env1);
    var o1 := ReconcilePass(Some(book), env1);
    NoDriftBranch(o1.stored.value, env2);
    WithTokenIdempotent(book.meta.finalizers, FinalizerToken);
  }

  /**
   * Drift correction: on a converged Book whose spec author changes, one pass issues exactly
   * one update, after which status carries the new author and the same ID and creation date.
   */
  lemma DriftCorrection(book: Book, author: string, env: Env)
    requires !BeingDeleted(book) && Contains(book.meta.finalizers, FinalizerToken)
    requires !NeverCreated(book.status) && !IsUpdated(book.spec, book.status)
    requires author != book.spec.author
    requires env.fetchFault.None? && env.updated.None? && env.statusWrite.None?
    ensures var edited := book.(spec := book.spec.(author := author));
      var o := ReconcilePass(Some(edited), env);
      && o.calls == [UpdateCall(book.status.id, Desired(edited.spec))]
      && o.stored.Some?
      && o.stored.value.status.author == author
      && o.stored.value.status.id == book.status.id
      && o.stored.value.status.dateCreated == book.status.dateCreated
  {
    var edited := book.(spec := book.spec.(author := author));
    UpdateBranch(edited, env, env.created, env.fetched);
  }

  /** Drift looks at the four mirrored fields only: `Foo`, the ID and the dates never count. */
  lemma DriftIgnoresBookkeeping(spec: BookSpec, status: BookStatus, foo: string, id: string, created: string, updated: string)
    ensures IsUpdated(spec.(foo := foo), status.(id := id, dateCreated := created, dateUpdated := updated))
            == IsUpdated(spec, status)
  {
  }

  /** No part of a pass reads the spec's `Foo`: the same calls, persists and return value. */
  lemma FooIsNeverRead(book: Book, env: Env, foo: string)
    ensures var o := ReconcilePass(Some(book), env);
      var o' := ReconcilePass(Some(book.(spec := book.spec.(foo := foo))), env);
      o'.calls == o.calls && o'.writes == o.writes && o'.result == o.result && o'.err == o.err
  {
    var edited := book.(spec := book.spec.(foo := foo));
    if env.fetchFault.None? && !BeingDeleted(book) {
      var writes := if Contains(book.meta.finalizers, FinalizerToken) then [] else [MetaWrite(book.meta.finalizers + [FinalizerToken])];
      if Contains(book.meta.finalizers, FinalizerToken) || env.metaWrite.None? {
        SyncIgnoresFoo(Registered(book), env, writes, foo);
        assert Registered(edited) == Registered(book).(spec := edited.spec);
      }
    }
  }

  lemma SyncIgnoresFoo(book: Book, env: Env, writes: seq<Write>, foo: string)
    ensures var o := Sync(book, env, writes);
      var o' := Sync(book.(spec := book.spec.(foo := foo)), env, writes);
      o'.calls == o.calls && o'.writes == o.writes && o'.result == o.result && o'.err == o.err
  {
    var edited := book.(spec := book.spec.(foo := foo));
    assert Desired(edited.spec) == Desired(book.spec);
    assert IsUpdated(edited.spec, edited.status) == IsUpdated(book.spec, book.status);
    assert UpdatedStatus(edited, env.now) == UpdatedStatus(book, env.now);
  }
}
