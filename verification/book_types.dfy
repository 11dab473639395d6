/**
 * The Book custom resource of the bookstore operator: object metadata (the parts the
 * reconciler reads or writes), the owner-authored spec and the controller-authored status.
 */
module BookTypes {
  import opened Wrappers

  /**
   * The slice of Kubernetes ObjectMeta the reconciler uses. `namespace` and `name` are the
   * request key under which the Book is fetched and persisted; no decision reads them.
   */
  datatype ObjectMeta = ObjectMeta(
    namespace: string,
    name: string,
    finalizers: seq<string>,
    deletionTimestamp: Option<string>)  // None stands for the zero timestamp

  /** Desired state. `foo` is the scaffolding example field that no logic reads. */
  datatype BookSpec = BookSpec(foo: string, name: string, author: string, isbn: string, genre: string)

  /** Observed state: the four mirrored fields plus the external ID and its two dates. */
  datatype BookStatus = BookStatus(
    id: string,
    name: string,
    author: string,
    isbn: string,
    genre: string,
    dateCreated: string,
    dateUpdated: string)

  /** A Book is exactly its metadata, its spec and its status. */
  datatype Book = Book(meta: ObjectMeta, spec: BookSpec, status: BookStatus)

  /** The desired attributes that status mirrors. */
  datatype Fields = Fields(name: string, author: string, isbn: string, genre: string)

  /** The mirrored fields of the spec, which are also the body of every create and update request. */
  function Desired(spec: BookSpec): Fields {
    Fields(spec.name, spec.author, spec.isbn, spec.genre)
  }

  function Observed(status: BookStatus): Fields {
    Fields(status.name, status.author, status.isbn, status.genre)
  }

  /** `Name` carries `validate:"required"`. */
  predicate WellFormedSpec(spec: BookSpec) {
    spec.name != ""
  }

  /** The empty ID is the sentinel for "no external record was ever created". */
  predicate NeverCreated(status: BookStatus) {
    status.id == ""
  }

  predicate BeingDeleted(book: Book) {
    book.meta.deletionTimestamp.Some?
  }
}
