/**
 * The counting part of the book collector's `Collect`: read every product through the
 * cursor, tally the genres, and emit one gauge per genre plus the book count and the
 * number of distinct genres.
 */
module GenreCollector {
  import opened Wrappers
  import opened ProductStore

  /** One `cursor.Decode` step. */
  datatype Decoded = Decoded(product: Product) | DecodeError(msg: string)

  /** The result of `collection.Find`. */
  datatype FindResult = FindError(msg: string) | Cursor(items: seq<Decoded>)

  /** A metric sent on the channel. */
  datatype Sample =
    | BookInfo(genre: string, value: int)    // Bookstore_bookinfo{genre}
    | BookCount(count: int)                  // Bookstore_bookcount
    | GenreUniqueCount(count: int)           // Bookstore_genrecount

  function Genres(products: seq<Product>): (gs: seq<string>)
    ensures |gs| == |products|
    ensures forall i :: 0 <= i < |products| ==> gs[i] == products[i].genre
  {
    if products == [] then [] else Genres(products[..|products| - 1]) + [products[|products| - 1].genre]
  }

  /** The number of products of each genre that occurs, the empty genre included. */
  function Histogram(genres: seq<string>): map<string, int> {
    map g | g in genres :: multiset(genres)[g]
  }

  /** Every decode in the cursor succeeded. */
  predicate AllDecoded(items: seq<Decoded>) {
    forall i :: 0 <= i < |items| ==> items[i].Decoded?
  }

  function Products(items: seq<Decoded>): (ps: seq<Product>)
    requires AllDecoded(items)
    ensures |ps| == |items|
    ensures forall i :: 0 <= i < |items| ==> ps[i] == items[i].product
  {
    seq(|items|, i requires 0 <= i < |items| => items[i].product)
  }

  /** The first loop: decode until the cursor is exhausted, giving up on the first error. */
  method ReadProducts(items: seq<Decoded>) returns (products: Option<seq<Product>>)
    ensures products.Some? <==> AllDecoded(items)
    ensures products.Some? ==> products.value == Products(items)
  {
    var read: seq<Product> := [];
    var i := 0;
    while i < |items|
      invariant 0 <= i <= |items|
      invariant AllDecoded(items[..i])
      invariant read == Products(items[..i])
    {
      if items[i].DecodeError? {
        return None;
      }
      read := read + [items[i].product];
      i := i + 1;
    }
    assert items[..i] == items;
    products := Some(read);
  }

  /** The second loop: a count per genre, and a distinct-genre count bumped on each new key. */
  method CountGenres(products: seq<Product>) returns (genreMap: map<string, int>, genreCount: int)
    ensures genreMap == Histogram(Genres(products))
    ensures genreCount == |genreMap|
  {
    genreMap := map[];
    genreCount := 0;
    ghost var genres := Genres(products);
    for i := 0 to |products|
      invariant genreMap == Histogram(genres[..i])
      invariant genreCount == |genreMap|
    {
      var g := products[i].genre;
      assert genres[..i + 1] == genres[..i] + [g];
      HistogramStep(genres[..i], g);
      if g in genreMap {
        genreMap := genreMap[g := genreMap[g] + 1];
      } else {
        genreMap := genreMap[g := 1];
        genreCount := genreCount + 1;
      }
    }
    assert genres[..|products|] == genres;
  }

  /** The emission loop over the map, then the two totals. */
  method Emit(genreMap: map<string, int>, productCount: int, genreCount: int) returns (samples: seq<Sample>)
    ensures |samples| == |genreMap| + 2
    ensures forall i :: 0 <= i < |genreMap| ==>
              samples[i].BookInfo? && samples[i].genre in genreMap && samples[i].value == genreMap[samples[i].genre]
    ensures forall g :: g in genreMap ==> BookInfo(g, genreMap[g]) in samples[..|genreMap|]
    ensures samples[|genreMap|] == BookCount(productCount)
    ensures samples[|genreMap| + 1] == GenreUniqueCount(genreCount)
  {
    samples := [];
    var pending := genreMap.Keys;
    while pending != {}
      invariant pending <= genreMap.Keys
      invariant |samples| + |pending| == |genreMap|
      invariant forall i :: 0 <= i < |samples| ==>
                  samples[i].BookInfo? && samples[i].genre in genreMap && samples[i].genre !in pending
                  && samples[i].value == genreMap[samples[i].genre]
      invariant forall g :: g in genreMap && g !in pending ==> BookInfo(g, genreMap[g]) in samples
      decreases pending
    {
      var g :| g in pending;
      samples := samples + [BookInfo(g, genreMap[g])];
      pending := pending - {g};
    }
    assert samples[..|genreMap|] == samples;
    samples := samples + [BookCount(productCount), GenreUniqueCount(genreCount)];
  }

  /**
   * Collect: nothing is emitted after a Find or Decode error; otherwise one gauge per
   * genre with its count, the number of books and the number of distinct genres.
   */
  method Collect(find: FindResult) returns (samples: seq<Sample>)
    ensures samples == [] <==> find.FindError? || !AllDecoded(find.items)
    ensures samples != [] ==>
      var hist := Histogram(Genres(Products(find.items)));
      && |samples| == |hist| + 2
      && (forall i :: 0 <= i < |hist| ==>
            samples[i].BookInfo? && samples[i].genre in hist && samples[i].value == hist[samples[i].genre])
      && (forall g :: g in hist ==> BookInfo(g, hist[g]) in samples)
      && samples[|hist|] == BookCount(|find.items|)
      && samples[|hist| + 1] == GenreUniqueCount(|hist|)
  {
    if find.FindError? {
      return [];
    }
    var read := ReadProducts(find.items);
    if read.None? {
      return [];
    }
    var products := read.value;
    var productCount := |products|;
    var genreMap, genreCount := CountGenres(products);
    samples := Emit(genreMap, productCount, genreCount);
    assert samples[..|genreMap|] <= samples;
  }

  // ---------------------------------------------------------------------------------------
  // Properties of the tally

  /** One more product: its genre's count goes up by one, or the genre enters with count 1. */
  lemma HistogramStep(genres: seq<string>, g: string)
    ensures var before := Histogram(genres);
      Histogram(genres + [g]) == if g in before then before[g := before[g] + 1] else before[g := 1]
  {
    var before, after := Histogram(genres), Histogram(genres + [g]);
    var expected := if g in before then before[g := before[g] + 1] else before[g := 1];
    assert multiset(genres + [g]) == multiset(genres) + multiset{g};
    assert after.Keys == expected.Keys;
    forall x | x in after ensures after[x] == expected[x] {
    }
  }

  /** The sum of a map's values. */
  ghost function Total(m: map<string, int>): int
    decreases |m|
  {
    if m == map[] then 0
    else
      var k :| k in m;
      m[k] + Total(m - {k})
  }

  /** Total does not depend on which key is taken first. */
  lemma {:induction false} TotalWithout(m: map<string, int>, k: string)
    requires k in m
    ensures Total(m) == m[k] + Total(m - {k})
    decreases |m|
  {
    var j :| j in m && Total(m) == m[j] + Total(m - {j});
    if j != k {
      var mj, mk := m - {j}, m - {k};
      assert k in mj && j in mk;
      TotalWithout(mj, k);
      TotalWithout(mk, j);
      assert mj - {k} == mk - {j};
    }
  }

  /** The per-genre counts add up to the number of products read. */
  lemma {:induction false} HistogramTotal(genres: seq<string>)
    ensures Total(Histogram(genres)) == |genres|
    decreases |genres|
  {
    if genres == [] {
      assert Histogram(genres) == map[];
    } else {
      var init, g := genres[..|genres| - 1], genres[|genres| - 1];
      assert genres == init + [g];
      var before, after := Histogram(init), Histogram(genres);
      HistogramTotal(init);
      HistogramStep(init, g);
      TotalWithout(after, g);
      assert after - {g} == before - {g};
      if g in before {
        TotalWithout(before, g);
      } else {
        assert before - {g} == before;
      }
    }
  }

  /**
   * Each genre's count is the number of products of that genre; the distinct-genre count is
   * the number of genres that occur; all counts add up to the book count.
   */
  lemma CollectedCounts(products: seq<Product>, g: string)
    ensures var hist := Histogram(Genres(products));
      && (g in hist <==> exists i :: 0 <= i < |products| && products[i].genre == g)
      && (g in hist ==> hist[g] == |set i | 0 <= i < |products| && products[i].genre == g|)
      && |hist| == |set p | p in products :: p.genre|
      && Total(hist) == |products|
  {
    HistogramTotal(Genres(products));
    DistinctGenres(products);
    GenreCount(products, g);
  }

  /** A genre's count is the number of positions holding a product of that genre. */
  lemma GenreCount(products: seq<Product>, g: string)
    ensures var hist := Histogram(Genres(products));
      g in hist ==> hist[g] == |set i | 0 <= i < |products| && products[i].genre == g|
  {
    var genres := Genres(products);
    if g in genres {
      CountIsMultiplicity(genres, g);
      assert (set i | 0 <= i < |genres| && genres[i] == g) == (set i | 0 <= i < |products| && products[i].genre == g);
    }
  }

  /** The histogram's keys are the genres that occur among the products. */
  lemma DistinctGenres(products: seq<Product>)
    ensures Histogram(Genres(products)).Keys == set p | p in products :: p.genre
  {
    var genres := Genres(products);
    var occurring := set p | p in products :: p.genre;
    forall x | x in genres ensures x in occurring {
      var i :| 0 <= i < |genres| && genres[i] == x;
      assert products[i] in products;
    }
    forall x | x in occurring ensures x in genres {
      var p :| p in products && p.genre == x;
      var i :| 0 <= i < |products| && products[i] == p;
      assert genres[i] == x;
    }
  }

  /** The multiplicity of `g` is the number of positions holding `g`. */
  lemma {:induction false} CountIsMultiplicity(genres: seq<string>, g: string)
    ensures multiset(genres)[g] == |set i | 0 <= i < |genres| && genres[i] == g|
    decreases |genres|
  {
    if genres != [] {
      var init := genres[..|genres| - 1];
      var n := |genres| - 1;
      assert genres == init + [genres[n]];
      CountIsMultiplicity(init, g);
      var before := set i | 0 <= i < n && init[i] == g;
      var now := set i | 0 <= i < |genres| && genres[i] == g;
      if genres[n] == g {
        assert now == before + {n};
      } else {
        assert now == before;
      }
    }
  }
}
