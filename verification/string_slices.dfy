/**
 * The two slice helpers of the Book controller, `containsString` and `removeString`,
 * and the finalizer bookkeeping built on them.
 */
module StringSlices {

  /** `containsString`: scans the slice for an element equal to `s`. */
  function Contains(slice: seq<string>, s: string): (found: bool)
    ensures found <==> exists i :: 0 <= i < |slice| && slice[i] == s
  {
    if slice == [] then false
    else if slice[0] == s then true
    else Contains(slice[1..], s)
  }

  /** The slice with every occurrence of `s` dropped, the rest kept in order. */
  function Without(slice: seq<string>, s: string): seq<string> {
    if slice == [] then []
    else
      var init := slice[..|slice| - 1];
      var last := slice[|slice| - 1];
      assert slice == init + [last];
      Without(init, s) + (if last == s then [] else [last])
  }

  /** Every occurrence of `s` is dropped and every other element keeps its multiplicity. */
  lemma {:induction false} WithoutCounts(slice: seq<string>, s: string)
    ensures multiset(Without(slice, s)) == multiset(slice)[s := 0]
  {
    if slice != [] {
      var init := slice[..|slice| - 1];
      assert slice == init + [slice[|slice| - 1]];
      WithoutCounts(init, s);
    }
  }

  /** `removeString`: appends every element that is not `s` to a fresh result. */
  method RemoveString(slice: seq<string>, s: string) returns (result: seq<string>)
    ensures result == Without(slice, s)
  {
    result := [];
    var i := 0;
    while i < |slice|
      invariant 0 <= i <= |slice|
      invariant result == Without(slice[..i], s)
    {
      WithoutPrefixStep(slice, i, s);
      if slice[i] != s {
        result := result + [slice[i]];
      }
      i := i + 1;
    }
    assert slice[..i] == slice;
  }

  /** Extending the prefix by one element extends the filtered prefix by that element unless it is `s`. */
  lemma WithoutPrefixStep(slice: seq<string>, i: nat, s: string)
    requires i < |slice|
    ensures Without(slice[..i + 1], s) == Without(slice[..i], s) + (if slice[i] == s then [] else [slice[i]])
  {
    assert slice[..i + 1][..i] == slice[..i];
  }

  /** Removing `s` distributes over concatenation: the survivors keep their relative order. */
  lemma {:induction false} WithoutAppend(a: seq<string>, b: seq<string>, s: string)
    ensures Without(a + b, s) == Without(a, s) + Without(b, s)
  {
    if b == [] {
      assert a + b == a;
    } else {
      var init := b[..|b| - 1];
      assert (a + b)[..|a + b| - 1] == a + init;
      WithoutAppend(a, init, s);
    }
  }

  /** Removing an element that is absent changes nothing, and afterwards `s` is absent. */
  lemma {:induction false} WithoutAbsent(slice: seq<string>, s: string)
    ensures !Contains(Without(slice, s), s)
    ensures !Contains(slice, s) ==> Without(slice, s) == slice
  {
    WithoutCounts(slice, s);
    assert s !in multiset(Without(slice, s));
    if slice != [] {
      var init := slice[..|slice| - 1];
      assert slice == init + [slice[|slice| - 1]];
      WithoutAbsent(init, s);
    }
  }

  /**
   * The finalizer list after registration: the token is appended only when absent, so
   * the list is left as it was exactly when the token is already there.
   */
  function WithToken(slice: seq<string>, token: string): (r: seq<string>)
    ensures Contains(r, token)
    ensures r == slice <==> Contains(slice, token)
    ensures |slice| <= |r| <= |slice| + 1 && r[..|slice|] == slice
  {
    if Contains(slice, token) then slice
    else
      assert (slice + [token])[|slice|] == token;
      slice + [token]
  }

  /** Registering a finalizer twice is the same as registering it once. */
  lemma WithTokenIdempotent(slice: seq<string>, token: string)
    ensures WithToken(WithToken(slice, token), token) == WithToken(slice, token)
  {
  }

  /** Registering then removing the token leaves the other finalizers in their order. */
  lemma {:induction false} RemoveAfterRegister(slice: seq<string>, token: string)
    ensures Without(WithToken(slice, token), token) == Without(slice, token)
  {
    if !Contains(slice, token) {
      WithoutAppend(slice, [token], token);
      assert [token][..0] == [];
    }
  }
}
