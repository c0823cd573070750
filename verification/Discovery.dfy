/** The chunked address queries of Walletnotify and UpdateConfirmationState. */
module Discovery {
  import opened Gadk
  import opened Sums

  /** What one call collects: transaction hashes, and the addresses the node rejects. */
  datatype Found = Found(hashes: seq<Hash>, bad: seq<Address>)

  type Query = seq<Address> -> Option<seq<Hash>>

  /** One query per address. */
  function Singly(adrs: seq<Address>, find: Query): Found {
    if adrs == [] then Found([], [])
    else
      var f := Singly(adrs[..|adrs| - 1], find);
      var a := adrs[|adrs| - 1];
      match find([a])
      case None => Found(f.hashes, f.bad + [a])
      case Some(hs) => Found(f.hashes + hs, f.bad)
  }

  /** One query for a chunk, and one per address when it is rejected. */
  function Chunk(adrs: seq<Address>, find: Query): Found {
    match find(adrs)
    case None => Singly(adrs, find)
    case Some(hs) => Found(hs, [])
  }

  function Chunked(adrs: seq<Address>, size: nat, find: Query): Found
    requires size > 0
  {
    if adrs == [] then Found([], [])
    else
      var n := if |adrs| < size then |adrs| else size;
      var f, g := Chunk(adrs[..n], find), Chunked(adrs[n..], size, find);
      Join(f, g)
  }

  method Contains(s: seq<Address>, str: Address) returns (r: bool)
    ensures r <==> str in s
  {
    for i := 0 to |s|
      invariant str !in s[..i]
    {
      if s[i] == str {
        return true;
      }
    }
    return false;
  }

  /** The search for the addresses a rejected chunk holds. */
  method OneByOne(adrs: seq<Address>, find: Query) returns (extras: seq<Hash>, bad: seq<Address>)
    ensures Found(extras, bad) == Singly(adrs, find)
  {
    extras, bad := [], [];
    for i := 0 to |adrs|
      invariant Found(extras, bad) == Singly(adrs[..i], find)
    {
      assert adrs[..i + 1][..i] == adrs[..i];
      assert adrs[i..i + 1] == [adrs[i]];
      var rx := find(adrs[i..i + 1]);
      if rx.None? {
        bad := bad + [adrs[i]];
      } else {
        extras := extras + rx.value;
      }
    }
    assert adrs[..|adrs|] == adrs;
  }

  function Join(f: Found, g: Found): Found {
    Found(f.hashes + g.hashes, f.bad + g.bad)
  }

  lemma JoinAssociative(f: Found, g: Found, h: Found)
    ensures Join(Join(f, g), h) == Join(f, Join(g, h))
    ensures Join(Found([], []), f) == f == Join(f, Found([], []))
  {
  }

  /** The chunk loop.  The slice of addresses is consumed from the front. */
  method Collect(adrs0: seq<Address>, size: nat, find: Query) returns (extras: seq<Hash>, bad: seq<Address>)
    requires size > 0
    ensures Found(extras, bad) == Chunked(adrs0, size, find)
  {
    var adrs := adrs0;
    extras, bad := [], [];
    var chunksize := size;
    if |adrs| < chunksize {
      chunksize := |adrs|;
    }
    JoinAssociative(Chunked(adrs0, size, find), Found([], []), Found([], []));
    while |adrs| > 0
      invariant chunksize == if |adrs| < size then |adrs| else size
      invariant Chunked(adrs0, size, find) == Join(Found(extras, bad), Chunked(adrs, size, find))
      decreases |adrs|
    {
      var chunk := adrs[..chunksize];
      JoinAssociative(Found(extras, bad), Chunk(chunk, find), Chunked(adrs[chunksize..], size, find));
      adrs := adrs[chunksize..];
      var r := find(chunk);
      if r.None? {
        var more, wrong := OneByOne(chunk, find);
        extras, bad := extras + more, bad + wrong;
      } else {
        extras := extras + r.value;
        assert bad + [] == bad;
      }
      if |adrs| < chunksize {
        chunksize := |adrs|;
      }
    }
    JoinAssociative(Found(extras, bad), Found([], []), Found([], []));
  }

  /** What every answer of the node satisfies, whichever queries fail: an answer repeats nothing
      that the query does not, and holds transactions of the addresses asked for only.  A
      transaction belongs to one address. */
  ghost predicate Separate(find: Query, of: Address -> set<Hash>) {
    && (forall q, h :: find(q).Some? && h in find(q).value ==> exists a :: a in q && h in of(a))
    && (forall q :: find(q).Some? && Distinct(q) ==> Distinct(find(q).value))
    && (forall a, b, h :: h in of(a) && h in of(b) ==> a == b)
  }

  /** The hashes are of the addresses asked for, without repetition; the addresses given up
      were rejected when asked for alone. */
  ghost predicate Tidy(adrs: seq<Address>, f: Found, find: Query, of: Address -> set<Hash>) {
    && (forall h :: h in f.hashes ==> exists a :: a in adrs && h in of(a))
    && (forall a :: a in f.bad ==> a in adrs && find([a]).None?)
    && (Distinct(adrs) ==> Distinct(f.hashes))
  }

  lemma TidyConcat(xs: seq<Address>, f: Found, ys: seq<Address>, g: Found, find: Query, of: Address -> set<Hash>)
    requires Separate(find, of)
    requires Tidy(xs, f, find, of) && Tidy(ys, g, find, of)
    ensures Tidy(xs + ys, Join(f, g), find, of)
  {
    assert forall a, b, h :: h in of(a) && h in of(b) ==> a == b;
    hide Separate;
    DistinctConcat(xs, ys);
    DistinctConcat(f.hashes, g.hashes);
  }

  lemma NothingTidy(find: Query, of: Address -> set<Hash>)
    ensures Tidy([], Found([], []), find, of)
  {
  }

  lemma {:induction false} SinglyTidy(adrs: seq<Address>, find: Query, of: Address -> set<Hash>)
    requires Separate(find, of)
    ensures Tidy(adrs, Singly(adrs, find), find, of)
  {
    if adrs == [] {
      NothingTidy(find, of);
    } else {
      var init, a := adrs[..|adrs| - 1], adrs[|adrs| - 1];
      SinglyTidy(init, find, of);
      var last := if find([a]).None? then Found([], [a]) else Found(find([a]).value, []);
      assert Tidy([a], last, find, of);
      hide Tidy, Separate;
      TidyConcat(init, Singly(init, find), [a], last, find, of);
      assert adrs == init + [a];
      var f := Singly(init, find);
      assert f.hashes + [] == f.hashes && f.bad + [] == f.bad;
    }
  }

  lemma ChunkTidy(chunk: seq<Address>, find: Query, of: Address -> set<Hash>)
    requires Separate(find, of)
    ensures Tidy(chunk, Chunk(chunk, find), find, of)
  {
    if find(chunk).None? {
      SinglyTidy(chunk, find, of);
    }
  }

  /** Whatever queries fail, a round collects no hash twice, and gives up only addresses the
      node rejected by themselves. */
  lemma {:induction false} ChunkedTidy(adrs: seq<Address>, size: nat, find: Query, of: Address -> set<Hash>)
    requires size > 0 && Separate(find, of)
    ensures Tidy(adrs, Chunked(adrs, size, find), find, of)
  {
    hide Separate, Tidy;
    if adrs == [] {
      NothingTidy(find, of);
    } else {
      var n := if |adrs| < size then |adrs| else size;
      var chunk := adrs[..n];
      ChunkTidy(chunk, find, of);
      ChunkedTidy(adrs[n..], size, find, of);
      TidyConcat(chunk, Chunk(chunk, find), adrs[n..], Chunked(adrs[n..], size, find), find, of);
      assert adrs == chunk + adrs[n..];
    }
  }

  /** The node has answered a query that holds the address, and everything it found was taken. */
  ghost predicate Heard(find: Query, adr: Address, hashes: seq<Hash>) {
    exists q :: adr in q && find(q).Some? && forall h :: h in find(q).value ==> h in hashes
  }

  /** Every address was heard of or given up. */
  ghost predicate Covers(adrs: seq<Address>, f: Found, find: Query) {
    forall a :: a in adrs ==> Heard(find, a, f.hashes) || a in f.bad
  }

  lemma HeardMore(find: Query, adr: Address, xs: seq<Hash>, ys: seq<Hash>)
    requires Heard(find, adr, xs) && forall h :: h in xs ==> h in ys
    ensures Heard(find, adr, ys)
  {
    var q :| adr in q && find(q).Some? && forall h :: h in find(q).value ==> h in xs;
  }

  lemma CoversConcat(xs: seq<Address>, f: Found, ys: seq<Address>, g: Found, find: Query)
    requires Covers(xs, f, find) && Covers(ys, g, find)
    ensures Covers(xs + ys, Join(f, g), find)
  {
    forall a | a in xs + ys
      ensures Heard(find, a, f.hashes + g.hashes) || a in f.bad + g.bad
    {
      if a in xs && Heard(find, a, f.hashes) {
        HeardMore(find, a, f.hashes, f.hashes + g.hashes);
      } else if a in ys && Heard(find, a, g.hashes) {
        HeardMore(find, a, g.hashes, f.hashes + g.hashes);
      }
    }
  }

  lemma {:induction false} SinglyCovers(adrs: seq<Address>, find: Query)
    ensures Covers(adrs, Singly(adrs, find), find)
  {
    if adrs == [] {
    } else {
      var init, a := adrs[..|adrs| - 1], adrs[|adrs| - 1];
      SinglyCovers(init, find);
      var last := if find([a]).None? then Found([], [a]) else Found(find([a]).value, []);
      OneCovered(a, last, find);
      hide Covers;
      CoversConcat(init, Singly(init, find), [a], last, find);
      assert adrs == init + [a];
      var f := Singly(init, find);
      assert f.hashes + [] == f.hashes && f.bad + [] == f.bad;
    }
  }

  lemma OneCovered(a: Address, last: Found, find: Query)
    requires last == if find([a]).None? then Found([], [a]) else Found(find([a]).value, [])
    ensures Covers([a], last, find)
  {
    if find([a]).Some? {
      assert a in [a] && forall h :: h in find([a]).value ==> h in last.hashes;
    }
  }

  lemma ChunkCovers(chunk: seq<Address>, find: Query)
    ensures Covers(chunk, Chunk(chunk, find), find)
  {
    if find(chunk).None? {
      SinglyCovers(chunk, find);
    } else {
      forall a | a in chunk
        ensures Heard(find, a, find(chunk).value)
      {
      }
    }
  }

  /** Whatever queries fail, no address is passed over. */
  lemma {:induction false} ChunkedCovers(adrs: seq<Address>, size: nat, find: Query)
    requires size > 0
    ensures Covers(adrs, Chunked(adrs, size, find), find)
  {
    if adrs == [] {
    } else {
      var n := if |adrs| < size then |adrs| else size;
      ChunkCovers(adrs[..n], find);
      ChunkedCovers(adrs[n..], size, find);
      hide Covers, Chunk;
      CoversConcat(adrs[..n], Chunk(adrs[..n], find), adrs[n..], Chunked(adrs[n..], size, find), find);
      assert adrs == adrs[..n] + adrs[n..];
    }
  }

  lemma FaithfulSeparate(find: Query, good: Address -> bool, of: Address -> set<Hash>)
    requires Faithful(find, good, of)
    ensures Separate(find, of)
  {
  }

  /** The node: a query fails exactly when it holds a bad address, and otherwise yields the
      transactions of its addresses, each once.  A transaction belongs to one address. */
  ghost predicate Faithful(find: Query, good: Address -> bool, of: Address -> set<Hash>) {
    && (forall q :: find(q).Some? <==> forall a :: a in q ==> good(a))
    && (forall q :: find(q).Some? ==> forall h :: h in find(q).value <==> exists a :: a in q && h in of(a))
    && (forall q :: find(q).Some? && Distinct(q) ==> Distinct(find(q).value))
    && (forall a, b, h :: h in of(a) && h in of(b) ==> a == b)
  }

  /** The hashes are those of the good addresses, the bad addresses are those rejected. */
  ghost predicate Exact(adrs: seq<Address>, f: Found, good: Address -> bool, of: Address -> set<Hash>) {
    && (forall h :: h in f.hashes <==> exists a :: a in adrs && good(a) && h in of(a))
    && (forall a :: a in f.bad <==> a in adrs && !good(a))
    && (Distinct(adrs) ==> Distinct(f.hashes) && Distinct(f.bad))
  }

  lemma ExactConcat(xs: seq<Address>, f: Found, ys: seq<Address>, g: Found, find: Query, good: Address -> bool,
        of: Address -> set<Hash>)
    requires Faithful(find, good, of)
    requires Exact(xs, f, good, of) && Exact(ys, g, good, of)
    ensures Exact(xs + ys, Join(f, g), good, of)
  {
    assert forall a, b, h :: h in of(a) && h in of(b) ==> a == b;
    hide Faithful;
    DistinctConcat(xs, ys);
    DistinctConcat(f.hashes, g.hashes);
    DistinctConcat(f.bad, g.bad);
  }

  lemma {:induction false} SinglyExact(adrs: seq<Address>, find: Query, good: Address -> bool, of: Address -> set<Hash>)
    requires Faithful(find, good, of)
    ensures Exact(adrs, Singly(adrs, find), good, of)
  {
    if adrs == [] {
    } else {
      var init, a := adrs[..|adrs| - 1], adrs[|adrs| - 1];
      SinglyExact(init, find, good, of);
      var last := if find([a]).None? then Found([], [a]) else Found(find([a]).value, []);
      assert Exact([a], last, good, of);
      ExactConcat(init, Singly(init, find), [a], last, find, good, of);
      assert adrs == init + [a];
      assert forall s: seq<Hash> :: s + [] == s;
      assert forall s: seq<Address> :: s + [] == s;
    }
  }

  lemma NothingExact(good: Address -> bool, of: Address -> set<Hash>)
    ensures Exact([], Found([], []), good, of)
  {
  }

  lemma ChunkExact(chunk: seq<Address>, find: Query, good: Address -> bool, of: Address -> set<Hash>)
    requires Faithful(find, good, of)
    ensures Exact(chunk, Chunk(chunk, find), good, of)
  {
    if find(chunk).None? {
      SinglyExact(chunk, find, good, of);
    }
  }

  /** Batched discovery collects what per-address discovery does, for any chunk size, and
      without repetition. */
  lemma {:induction false} ChunkedExact(adrs: seq<Address>, size: nat, find: Query, good: Address -> bool,
        of: Address -> set<Hash>)
    requires size > 0 && Faithful(find, good, of)
    ensures Exact(adrs, Chunked(adrs, size, find), good, of)
  {
    hide Faithful, Exact;
    if adrs == [] {
      NothingExact(good, of);
    } else {
      var n := if |adrs| < size then |adrs| else size;
      var chunk := adrs[..n];
      ChunkExact(chunk, find, good, of);
      ChunkedExact(adrs[n..], size, find, good, of);
      ExactConcat(chunk, Chunk(chunk, find), adrs[n..], Chunked(adrs[n..], size, find), find, good, of);
      assert adrs == chunk + adrs[n..];
    }
  }

  lemma {:induction false} SinglyBad(adrs: seq<Address>, find: Query, good: Address -> bool, of: Address -> set<Hash>)
    requires Faithful(find, good, of) && forall a :: a in adrs ==> good(a)
    ensures Singly(adrs, find).bad == []
  {
    if adrs == [] {
    } else {
      SinglyBad(adrs[..|adrs| - 1], find, good, of);
    }
  }

  lemma {:induction false} SinglyConcat(xs: seq<Address>, ys: seq<Address>, find: Query)
    ensures Singly(xs + ys, find).bad == Singly(xs, find).bad + Singly(ys, find).bad
  {
    if ys == [] {
      assert xs + ys == xs;
    } else {
      var init := ys[..|ys| - 1];
      SinglyConcat(xs, init, find);
      assert (xs + ys)[..|xs + ys| - 1] == xs + init;
    }
  }

  /** The ignore list grows by the same addresses in the same order. */
  lemma {:induction false} ChunkedBad(adrs: seq<Address>, size: nat, find: Query, good: Address -> bool,
        of: Address -> set<Hash>)
    requires size > 0 && Faithful(find, good, of)
    ensures Chunked(adrs, size, find).bad == Singly(adrs, find).bad
  {
    if adrs == [] {
    } else {
      var n := if |adrs| < size then |adrs| else size;
      if find(adrs[..n]).Some? {
        SinglyBad(adrs[..n], find, good, of);
      }
      ChunkedBad(adrs[n..], size, find, good, of);
      SinglyConcat(adrs[..n], adrs[n..], find);
      assert adrs == adrs[..n] + adrs[n..];
    }
  }
}
