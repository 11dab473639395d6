/**
 * The bookstore's product CRUD over its Mongo collection "books", modelled as a map from
 * product ID to the stored document. `Collection` is the collection the functions of the
 * source act on; the pure functions beside it are the specifications its methods are
 * proved against.
 */
module ProductStore {
  import opened Wrappers

  /** A time.Time, as an instant. */
  type Time = int

  datatype Product = Product(
    id: string,
    name: string,
    author: string,
    isbn: string,
    genre: string,
    dateCreated: Time,
    dateUpdated: Time)

  datatype NewProduct = NewProduct(name: string, author: string, isbn: string, genre: string)

  /** Optional fields: None is a field the client did not send. */
  datatype UpdateProduct = UpdateProduct(
    name: Option<string>,
    author: Option<string>,
    isbn: Option<string>,
    genre: Option<string>)

  /**
   * A stored document: the product's fields, plus the stray `grene` field that `Update`
   * writes and that decoding into a Product ignores.
   */
  datatype Document = Document(product: Product, grene: Option<Time>)

  datatype StoreError =
    | ErrNotFound                              // "product not found"
    | ErrInvalidID                             // "ID is not in its proper form"
    | Wrapped(context: string, cause: string)  // errors.Wrap of a driver error

  /** The driver's error when FindOne matches no document. */
  const NoDocuments := "mongo: no documents in result"

  type Docs = map<string, Document>

  // ---------------------------------------------------------------------------------------
  // UUID syntax, as github.com/google/uuid's Parse accepts it

  predicate IsHex(c: char) {
    '0' <= c <= '9' || 'a' <= c <= 'f' || 'A' <= c <= 'F'
  }

  /** xxxxxxxx-xxxx-xxxx-xxxx-xxxxxxxxxxxx, the form uuid.New().String() produces. */
  predicate Hyphenated(s: string) {
    |s| == 36
    && forall i :: 0 <= i < 36 ==>
         if i == 8 || i == 13 || i == 18 || i == 23 then s[i] == '-' else IsHex(s[i])
  }

  /** A character UTF-8 encodes in one byte. */
  predicate IsAscii(c: char) {
    c as int < 128
  }

  function LowerAscii(c: char): char {
    if 'A' <= c <= 'Z' then (c as int + 32) as char else c
  }

  /**
   * What `uuid.Parse` accepts, by length: the hyphenated form, the same behind a
   * case-insensitive "urn:uuid:", the same between two delimiters that Parse skips without
   * looking at them, and 32 bare hex digits. Parse measures the ID in UTF-8 bytes, so only an
   * ASCII delimiter leaves the 38-byte form 38 characters long.
   */
  predicate ValidUUID(s: string) {
    || Hyphenated(s)
    || (|s| == 45 && (forall i :: 0 <= i < 9 ==> LowerAscii(s[i]) == "urn:uuid:"[i]) && Hyphenated(s[9..]))
    || (|s| == 38 && IsAscii(s[0]) && IsAscii(s[37]) && Hyphenated(s[1..37]))
    || (|s| == 32 && forall i :: 0 <= i < 32 ==> IsHex(s[i]))
  }

  /** Every document is stored under its own product's ID, and that ID parses. */
  ghost predicate KeyedById(docs: Docs) {
    forall id :: id in docs ==> docs[id].product.id == id && ValidUUID(id)
  }

  // ---------------------------------------------------------------------------------------
  // The operations as functions of the stored documents

  /** Retrieve: the UUID guard, then FindOne on "id". */
  function Find(docs: Docs, id: string): Result<Product, StoreError> {
    if !ValidUUID(id) then Failure(ErrInvalidID)
    else if id !in docs then Failure(Wrapped("get product", NoDocuments))
    else Success(docs[id].product)
  }

  /** The record Create inserts. */
  function NewRecord(np: NewProduct, id: string, now: Time): Product {
    Product(id, np.name, np.author, np.isbn, np.genre, now, now)
  }

  /** Update's in-memory merge: sent fields replace, unsent ones stay, DateUpdated is `now`. */
  function Merge(p: Product, u: UpdateProduct, now: Time): Product {
    p.(name := if u.name.Some? then u.name.value else p.name,
       author := if u.author.Some? then u.author.value else p.author,
       isbn := if u.isbn.Some? then u.isbn.value else p.isbn,
       genre := if u.genre.Some? then u.genre.value else p.genre,
       dateUpdated := now)
  }

  /** The `$set` as written: name, author, isbn, dateupdated, and the date again under "grene". */
  function Persist(doc: Document, p: Product): Document {
    Document(doc.product.(name := p.name, author := p.author, isbn := p.isbn, dateUpdated := p.dateUpdated),
             Some(p.dateUpdated))
  }

  /** The `$set` as evidently intended: the merged genre under "genre". */
  function PersistIntended(doc: Document, p: Product): Document {
    Document(doc.product.(name := p.name, author := p.author, isbn := p.isbn, genre := p.genre,
                          dateUpdated := p.dateUpdated),
             doc.grene)
  }

  /** Update: Retrieve's error, or the store with the merged record persisted as written. */
  function Apply(docs: Docs, id: string, u: UpdateProduct, now: Time): Result<Docs, StoreError> {
    match Find(docs, id)
    case Failure(e) => Failure(e)
    case Success(p) => Success(docs[id := Persist(docs[id], Merge(p, u, now))])
  }

  /** Update with the intended `$set`. */
  function ApplyIntended(docs: Docs, id: string, u: UpdateProduct, now: Time): Result<Docs, StoreError> {
    match Find(docs, id)
    case Failure(e) => Failure(e)
    case Success(p) => Success(docs[id := PersistIntended(docs[id], Merge(p, u, now))])
  }

  /** Delete: the UUID guard, then DeleteOne, which matching nothing is not an error. */
  function Remove(docs: Docs, id: string): Result<Docs, StoreError> {
    if !ValidUUID(id) then Failure(ErrInvalidID) else Success(docs - {id})
  }

  /** Deleting the given IDs one after another, stopping at the first error. */
  function RemoveEach(docs: Docs, ids: seq<string>): Result<Docs, StoreError>
    decreases |ids|
  {
    if ids == [] then Success(docs)
    else match Remove(docs, ids[0])
      case Failure(e) => Failure(e)
      case Success(rest) => RemoveEach(rest, ids[1..])
  }

  // ---------------------------------------------------------------------------------------
  // The collection

  class Collection {
    var docs: Docs

    ghost predicate Valid()
      reads this
    {
      KeyedById(docs)
    }

    constructor ()
      ensures Valid() && docs == map[]
    {
      docs := map[];
    }

    /** List: every stored product, once each. */
    method List() returns (products: seq<Product>)
      requires Valid()
      ensures |products| == |docs|
      ensures forall i :: 0 <= i < |products| ==>
                products[i].id in docs && docs[products[i].id].product == products[i]
      ensures forall id :: id in docs ==> docs[id].product in products
    {
      products := [];
      var pending := docs.Keys;
      while pending != {}
        invariant pending <= docs.Keys
        invariant |products| + |pending| == |docs|
        invariant forall i :: 0 <= i < |products| ==>
                    products[i].id in docs && products[i].id !in pending && docs[products[i].id].product == products[i]
        invariant forall id :: id in docs && id !in pending ==> docs[id].product in products
        decreases pending
      {
        var id :| id in pending;
        products := products + [docs[id].product];
        pending := pending - {id};
      }
    }

    /** Retrieve: an ID that does not parse is refused before the store is read. */
    method Retrieve(id: string) returns (r: Result<Product, StoreError>)
      ensures r == Find(docs, id)
    {
      if !ValidUUID(id) {
        return Failure(ErrInvalidID);
      }
      if id !in docs {
        return Failure(Wrapped("get product", NoDocuments));
      }
      r := Success(docs[id].product);
    }

    /** Create: a record with a fresh ID and both dates `now`, inserted and returned. */
    method Create(np: NewProduct, id: string, now: Time) returns (p: Product)
      requires Valid() && Hyphenated(id) && id !in docs  // what uuid.New() provides
      modifies this
      ensures Valid()
      ensures p.id == id && NewProduct(p.name, p.author, p.isbn, p.genre) == np
      ensures p.dateCreated == now && p.dateUpdated == now
      ensures docs == old(docs)[id := Document(p, None)]
    {
      p := NewRecord(np, id, now);
      docs := docs[id := Document(p, None)];
    }

    /** Update: retrieve, overwrite the fields that were sent, stamp the date, write back. */
    method Update(id: string, u: UpdateProduct, now: Time) returns (err: Option<StoreError>)
      requires Valid()
      modifies this
      ensures Valid()
      ensures match Apply(old(docs), id, u, now)
              case Failure(e) => err == Some(e) && docs == old(docs)
              case Success(d) => err.None? && docs == d
    {
      var r := Retrieve(id);
      if r.Failure? {
        return Some(r.error);
      }
      var p := r.value;
      if u.name.Some? {
        p := p.(name := u.name.value);
      }
      if u.author.Some? {
        p := p.(author := u.author.value);
      }
      if u.isbn.Some? {
        p := p.(isbn := u.isbn.value);
      }
      if u.genre.Some? {
        p := p.(genre := u.genre.value);
      }
      p := p.(dateUpdated := now);
      var doc := docs[id];
      docs := docs[id := Document(doc.product.(name := p.name, author := p.author, isbn := p.isbn,
                                               dateUpdated := p.dateUpdated),
                                  Some(p.dateUpdated))];
      err := None;
    }

    /** Delete: an ID that does not parse is refused; otherwise the record is gone. */
    method Delete(id: string) returns (err: Option<StoreError>)
      requires Valid()
      modifies this
      ensures Valid()
      ensures match Remove(old(docs), id)
              case Failure(e) => err == Some(e) && docs == old(docs)
              case Success(d) => err.None? && docs == d
    {
      if !ValidUUID(id) {
        return Some(ErrInvalidID);
      }
      docs := docs - {id};
      err := None;
    }
  }

  // ---------------------------------------------------------------------------------------
  // Properties

  /** Retrieve after Create gives back the created record; other IDs are unaffected. */
  lemma RetrieveAfterCreate(docs: Docs, np: NewProduct, id: string, now: Time, other: string)
    requires Hyphenated(id) && id !in docs
    ensures var p := NewRecord(np, id, now);
      var docs' := docs[id := Document(p, None)];
      && Find(docs', id) == Success(p)
      && (other != id ==> Find(docs', other) == Find(docs, other))
  {
  }

  /** An ID that does not parse is refused by Retrieve, Update and Delete alike. */
  lemma InvalidIdIsRefused(docs: Docs, id: string, u: UpdateProduct, now: Time)
    requires !ValidUUID(id)
    ensures Find(docs, id) == Failure(ErrInvalidID)
    ensures Apply(docs, id, u, now) == Failure(ErrInvalidID)
    ensures Remove(docs, id) == Failure(ErrInvalidID)
  {
  }

  /**
   * The guard decides on the length first: only 32, 36, 38 and 45 bytes can pass. In the
   * 38-byte form the first and last bytes are never examined, but a non-ASCII delimiter
   * makes the ID longer than 38 bytes, so it is refused.
   */
  lemma UuidForms(s: string, open: char, close: char)
    ensures |s| !in {32, 36, 38, 45} ==> !ValidUUID(s)
    ensures |s| == 36 ==> (ValidUUID(s) <==> Hyphenated(s))
    ensures |s| == 36 && IsAscii(open) && IsAscii(close) ==> (ValidUUID([open] + s + [close]) <==> Hyphenated(s))
    ensures !IsAscii(open) || !IsAscii(close) ==> !ValidUUID([open] + s + [close])
    ensures |s| == 32 ==> (ValidUUID(s) <==> forall i :: 0 <= i < 32 ==> IsHex(s[i]))
  {
    var t := [open] + s + [close];
    if |s| == 36 {
      assert t[1..37] == s;
    }
    AcceptedIdHasAsciiEnds(t);
  }

  /** Every ID the guard accepts starts and ends with a one-byte character. */
  lemma AcceptedIdHasAsciiEnds(t: string)
    ensures ValidUUID(t) ==> IsAscii(t[0]) && IsAscii(t[|t| - 1])
  {
    if |t| == 45 && (forall i :: 0 <= i < 9 ==> LowerAscii(t[i]) == "urn:uuid:"[i]) && Hyphenated(t[9..]) {
      assert LowerAscii(t[0]) == 'u';
      assert t[9..][35] == t[44];
    }
  }

  /** A missing record surfaces as the wrapped driver error, never as ErrNotFound. */
  lemma MissingIsWrappedDriverError(docs: Docs, id: string)
    ensures Find(docs, id) != Failure(ErrNotFound)
    ensures ValidUUID(id) && id !in docs ==> Find(docs, id) == Failure(Wrapped("get product", NoDocuments))
  {
  }

  /** Update on an unusable ID returns Retrieve's error and the store is unchanged. */
  lemma UpdateFailsLikeRetrieve(docs: Docs, id: string, u: UpdateProduct, now: Time)
    ensures Apply(docs, id, u, now).Failure? <==> Find(docs, id).Failure?
    ensures Find(docs, id).Failure? ==> Apply(docs, id, u, now) == Failure(Find(docs, id).error)
  {
  }

  /** The merge keeps every unsent field, takes every sent one and always stamps the date. */
  lemma MergeFields(p: Product, u: UpdateProduct, now: Time)
    ensures var m := Merge(p, u, now);
      && m.id == p.id && m.dateCreated == p.dateCreated && m.dateUpdated == now
      && m.name == (if u.name.Some? then u.name.value else p.name)
      && m.author == (if u.author.Some? then u.author.value else p.author)
      && m.isbn == (if u.isbn.Some? then u.isbn.value else p.isbn)
      && m.genre == (if u.genre.Some? then u.genre.value else p.genre)
  {
  }

  /** Sending only an author changes the author and the update date, nothing else. */
  lemma UpdateOnlyAuthor(p: Product, author: string, now: Time)
    ensures Merge(p, UpdateProduct(None, Some(author), None, None), now) == p.(author := author, dateUpdated := now)
  {
  }

  /**
   * Retrieve after a successful Update, as written: the merged record except for the genre,
   * which keeps its stored value; the date lands in a stray "grene" field.
   */
  lemma RetrieveAfterUpdate(docs: Docs, id: string, u: UpdateProduct, now: Time)
    requires Find(docs, id).Success?
    ensures var p := Find(docs, id).value;
      && Apply(docs, id, u, now).Success?
      && Find(Apply(docs, id, u, now).value, id) == Success(Merge(p, u, now).(genre := p.genre))
      && Apply(docs, id, u, now).value[id].grene == Some(now)
  {
  }

  /** The genre a client sends to Update is lost whenever it differs from the stored one. */
  lemma GenreUpdateIsLost(docs: Docs, id: string, u: UpdateProduct, now: Time)
    requires Find(docs, id).Success? && u.genre.Some? && u.genre.value != docs[id].product.genre
    ensures Find(Apply(docs, id, u, now).value, id).value.genre != u.genre.value
  {
  }

  /** With the intended `$set`, Retrieve after Update gives back exactly the merged record. */
  lemma RetrieveAfterIntendedUpdate(docs: Docs, id: string, u: UpdateProduct, now: Time)
    requires KeyedById(docs) && Find(docs, id).Success?
    ensures ApplyIntended(docs, id, u, now).Success?
    ensures Find(ApplyIntended(docs, id, u, now).value, id) == Success(Merge(Find(docs, id).value, u, now))
    ensures KeyedById(ApplyIntended(docs, id, u, now).value)
  {
  }

  /** Deleting an absent but well-formed ID is not an error and changes nothing. */
  lemma DeleteAbsentIsNoError(docs: Docs, id: string)
    requires ValidUUID(id) && id !in docs
    ensures Remove(docs, id) == Success(docs)
  {
    assert docs - {id} == docs;
  }

  /** Deleting every stored ID, in any order and with repeats, leaves an empty collection. */
  lemma {:induction false} DeleteEveryId(docs: Docs, ids: seq<string>)
    requires forall i :: 0 <= i < |ids| ==> ValidUUID(ids[i])
    requires forall id :: id in docs ==> id in ids
    ensures RemoveEach(docs, ids) == Success(map[])
    decreases |ids|
  {
    if ids == [] {
      assert docs.Keys == {};
    } else {
      var rest := docs - {ids[0]};
      assert Remove(docs, ids[0]) == Success(rest);
      forall id | id in rest ensures id in ids[1..] {
        assert id in ids && id != ids[0];
      }
      DeleteEveryId(rest, ids[1..]);
    }
  }
}
