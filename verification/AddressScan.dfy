/** The address scan of ScanAndRestoreAddresses in aidos/initialize.go. */
module AddressScan {
  import opened Gadk
  import opened Sums
  import opened Accounts

  const DEFAULT_LIMIT: nat := 50000

  /** The number of addresses to scan: what was entered, or the default when that is no
      positive number. */
  function Limit(entered: Option<int>): (n: nat)
    ensures n > 0
  {
    if entered.Some? && entered.value >= 1 then entered.value else DEFAULT_LIMIT
  }

  function Positive(): AddressBalance -> int {
    (b: AddressBalance) => if b.value > 0 then b.value else 0
  }

  function AddressAt(lib: Library, seed: Seed, i: nat): Address {
    var a := lib.newAddress(seed, i);
    if a.Some? then a.value else ""
  }

  type Source = seq<Address> -> seq<int>

  /** The addresses of one query. */
  function Queried(lib: Library, seed: Seed, from: nat, n: nat): seq<Address> {
    seq(n, i requires 0 <= i < n => AddressAt(lib, seed, from + i))
  }

  function From(start: nat, n: nat): (r: seq<nat>)
    ensures |r| == n && forall i :: 0 <= i < n ==> r[i] == start + i
  {
    if n == 0 then [] else From(start, n - 1) + [start + n - 1]
  }

  /** The indexes the answers are about, in the order the list takes them in. */
  function Indexes(lib: Library, seed: Seed, from: nat, n: nat, size: nat, balances: Source): seq<nat>
    requires size > 0
    decreases n
  {
    if n == 0 then []
    else
      var m := if n < size then n else size;
      From(from, |balances(Queried(lib, seed, from, m))|) + Indexes(lib, seed, from + m, n - m, size, balances)
  }

  /** Entry i of the list is about address at[i] of the seed. */
  ghost predicate About(lib: Library, seed: Seed, all: seq<AddressBalance>, at: seq<nat>) {
    |all| == |at| && forall i :: 0 <= i < |all| ==> all[i].address == AddressAt(lib, seed, at[i])
  }

  /** The indexes rise, so no entry stands behind its index. */
  ghost predicate Rising(at: seq<nat>, bound: nat) {
    && (forall i :: 0 <= i < |at| ==> i <= at[i] < bound)
    && forall i, j :: 0 <= i < j < |at| ==> at[i] < at[j]
  }

  /** The index of the last positive balance, 0 when there is none. */
  ghost predicate IsHighest(all: seq<AddressBalance>, at: seq<nat>, h: nat)
    requires |all| == |at|
  {
    && (forall i :: 0 <= i < |all| && all[i].value > 0 ==> at[i] <= h)
    && (h > 0 ==> exists i :: 0 <= i < |all| && at[i] == h && all[i].value > 0)
  }

  /** The value is what the node answered for the address in some query. */
  ghost predicate Reported(balances: Source, b: AddressBalance) {
    exists q, j :: 0 <= j < |q| && j < |balances(q)| && q[j] == b.address && balances(q)[j] == b.value
  }

  /** allBalances: the answers belong to the first addresses of the query. */
  method AllBalances(adr: seq<Address>, balances: Source) returns (bs: seq<AddressBalance>)
    requires |balances(adr)| <= |adr|
    ensures |bs| == |balances(adr)|
    ensures forall i :: 0 <= i < |bs| ==> bs[i] == AddressBalance(adr[i], balances(adr)[i]) && Reported(balances, bs[i])
  {
    var r := balances(adr);
    bs := [];
    for i := 0 to |r|
      invariant |bs| == i && forall j :: 0 <= j < i ==> bs[j] == AddressBalance(adr[j], r[j])
    {
      bs := bs + [AddressBalance(adr[i], r[i])];
    }
    forall i | 0 <= i < |bs|
      ensures Reported(balances, bs[i])
    {
      assert adr[i] == bs[i].address && balances(adr)[i] == bs[i].value;
    }
  }

  method LoadChunk(lib: Library, seed: Seed, from: nat, chunksize: nat) returns (chunk: seq<Address>)
    ensures chunk == Queried(lib, seed, from, chunksize)
  {
    chunk := [];
    for i := 0 to chunksize
      invariant chunk == Queried(lib, seed, from, i)
    {
      chunk := chunk + [AddressAt(lib, seed, from + i)];
    }
  }

  /** Counts one chunk, whose first address has index `checked`. */
  method Tally(all: seq<AddressBalance>, ghost at: seq<nat>, bals: seq<AddressBalance>, checked: nat,
        highest0: nat, total0: int)
      returns (highest: nat, total: int)
    requires |all| == |at| && Rising(at, checked) && IsHighest(all, at, highest0) && total0 == SumBy(all, Positive())
    ensures IsHighest(all + bals, at + From(checked, |bals|), highest) && total == SumBy(all + bals, Positive())
  {
    hide SumBy, IsHighest, Rising, From;
    highest, total := highest0, total0;
    HighestBelow(all, at, checked, highest0);
    assert all + bals[..0] == all && at + From(checked, 0) == at;
    for i := 0 to |bals|
      invariant IsHighest(all + bals[..i], at + From(checked, i), highest)
      invariant total == SumBy(all + bals[..i], Positive()) && (highest < checked + i || highest == 0)
    {
      TallyStep(all + bals[..i], at + From(checked, i), highest, bals[i], checked + i);
      assert all + bals[..i + 1] == (all + bals[..i]) + [bals[i]];
      assert at + From(checked, i + 1) == (at + From(checked, i)) + [checked + i];
      if bals[i].value > 0 {
        highest := checked + i;
        total := total + bals[i].value;
      }
    }
    assert bals[..|bals|] == bals;
  }

  lemma HighestBelow(all: seq<AddressBalance>, at: seq<nat>, bound: nat, h: nat)
    requires |all| == |at| && Rising(at, bound) && IsHighest(all, at, h)
    ensures h < bound || h == 0
  {
  }

  lemma TallyStep(all: seq<AddressBalance>, at: seq<nat>, h: nat, b: AddressBalance, index: nat)
    requires |all| == |at| && IsHighest(all, at, h) && (h < index || h == 0)
    ensures IsHighest(all + [b], at + [index], if b.value > 0 then index else h)
    ensures SumBy(all + [b], Positive()) == SumBy(all, Positive()) + if b.value > 0 then b.value else 0
  {
    SumAppend(all, b, Positive());
    HighestStep(all, at, h, b, index);
  }

  lemma HighestStep(all: seq<AddressBalance>, at: seq<nat>, h: nat, b: AddressBalance, index: nat)
    requires |all| == |at| && IsHighest(all, at, h) && (h < index || h == 0)
    ensures IsHighest(all + [b], at + [index], if b.value > 0 then index else h)
  {
    var all1, at1 := all + [b], at + [index];
    assert all1[|all|] == b && at1[|all|] == index;
    if h > 0 {
      var i :| 0 <= i < |all| && at[i] == h && all[i].value > 0;
      assert all1[i] == all[i] && at1[i] == at[i];
    }
  }

  /** Scans every index below the limit, in chunks, and keeps the entries up to the last index
      with a positive balance.  An answer may be shorter than its query. */
  method ScanAddresses(lib: Library, seed: Seed, entered: Option<int>, chunksize0: nat, balances: Source)
      returns (bals: seq<Balance>, total: int, highest: nat, all: seq<AddressBalance>, ghost at: seq<nat>)
    requires chunksize0 > 0
    requires forall q :: |balances(q)| <= |q|
    ensures at == Indexes(lib, seed, 0, Limit(entered), chunksize0, balances)
    ensures About(lib, seed, all, at) && Rising(at, Limit(entered)) && forall b :: b in all ==> Reported(balances, b)
    ensures IsHighest(all, at, highest) && total == SumBy(all, Positive())
    ensures |bals| == if highest < |all| then highest + 1 else |all|
    ensures forall i :: 0 <= i < |bals| ==> bals[i] == Balance(all[i].address, all[i].value, 0)
    ensures SumBy(bals, Spendable()) == total
  {
    hide SumBy, IsHighest, About, Rising, Reported, AddressAt, Indexes;
    var numaddrs := Limit(entered);
    var chunksize, checked := chunksize0, 0;
    all, highest, total, at := [], 0, 0, [];
    NothingScanned(lib, seed);
    assert at + Indexes(lib, seed, 0, numaddrs, chunksize0, balances) ==
           Indexes(lib, seed, 0, numaddrs, chunksize0, balances);
    while checked < numaddrs
      invariant checked <= numaddrs
      invariant chunksize == chunksize0 || checked == numaddrs
      invariant at + Indexes(lib, seed, checked, numaddrs - checked, chunksize0, balances) ==
                Indexes(lib, seed, 0, numaddrs, chunksize0, balances)
      invariant |all| == |at| && About(lib, seed, all, at) && Rising(at, checked)
      invariant forall b :: b in all ==> Reported(balances, b)
      invariant IsHighest(all, at, highest) && total == SumBy(all, Positive())
    {
      if numaddrs - checked < chunksize {
        chunksize := numaddrs - checked;
      }
      var chunk := LoadChunk(lib, seed, checked, chunksize);
      var more := AllBalances(chunk, balances);
      highest, total := Tally(all, at, more, checked, highest, total);
      ChunkAdded(lib, seed, all, at, more, checked, chunksize);
      IndexesStep(lib, seed, checked, numaddrs - checked, chunksize0, balances, at);
      all, at := all + more, at + From(checked, |more|);
      checked := checked + chunksize;
    }
    NoIndexes(lib, seed, checked, chunksize0, balances, at);
    bals := [];
    for i := 0 to |all|
      invariant |bals| == i <= highest + 1
      invariant forall j :: 0 <= j < i ==> bals[j] == Balance(all[j].address, all[j].value, 0)
    {
      if i > highest {
        break;
      }
      bals := bals + [Balance(all[i].address, all[i].value, 0)];
    }
    NothingBeyond(all, at, numaddrs, highest, |bals|);
    SumCongruent(bals, Spendable(), all[..|bals|], Positive());
  }

  lemma NothingScanned(lib: Library, seed: Seed)
    ensures About(lib, seed, [], []) && Rising([], 0) && IsHighest([], [], 0) && SumBy([], Positive()) == 0
  {
  }

  lemma {:induction false} ChunkAdded(lib: Library, seed: Seed, all: seq<AddressBalance>, at: seq<nat>,
        more: seq<AddressBalance>, checked: nat, n: nat)
    requires About(lib, seed, all, at) && Rising(at, checked)
    requires |more| <= n && forall i :: 0 <= i < |more| ==> more[i].address == Queried(lib, seed, checked, n)[i]
    ensures About(lib, seed, all + more, at + From(checked, |more|)) && Rising(at + From(checked, |more|), checked + n)
  {
    assert |at| > 0 ==> |at| - 1 <= at[|at| - 1] < checked;
    hide From;
  }

  lemma IndexesStep(lib: Library, seed: Seed, from: nat, n: nat, size: nat, balances: Source, at: seq<nat>)
    requires size > 0 && n > 0
    ensures var m := if n < size then n else size;
            at + Indexes(lib, seed, from, n, size, balances) ==
            at + From(from, |balances(Queried(lib, seed, from, m))|) +
            Indexes(lib, seed, from + m, n - m, size, balances)
  {
  }

  lemma NoIndexes(lib: Library, seed: Seed, from: nat, size: nat, balances: Source, at: seq<nat>)
    requires size > 0
    ensures at + Indexes(lib, seed, from, 0, size, balances) == at
  {
  }

  /** The entries cut off hold nothing, so no funds are lost, shifted or not. */
  lemma NothingBeyond(all: seq<AddressBalance>, at: seq<nat>, bound: nat, h: nat, kept: nat)
    requires |all| == |at| && Rising(at, bound) && IsHighest(all, at, h)
    requires kept == if h < |all| then h + 1 else |all|
    ensures SumBy(all[..kept], Positive()) == SumBy(all, Positive())
  {
    var rest := all[kept..];
    assert all == all[..kept] + rest;
    forall b | b in rest
      ensures Positive()(b) == 0
    {
      var i :| 0 <= i < |rest| && rest[i] == b;
      assert all[kept + i] == b && at[kept + i] >= kept + i;
    }
    SumZero(rest, Positive());
    SumConcat(all[..kept], rest, Positive());
  }

  // ---- short answers ----

  /** The first k entries come from full answers, the last of them excepted. */
  ghost predicate FullBefore(lib: Library, seed: Seed, from: nat, n: nat, size: nat, balances: Source, k: nat)
    requires size > 0
    decreases n
  {
    n == 0 ||
    var m := if n < size then n else size;
    var r := |balances(Queried(lib, seed, from, m))|;
    k <= r || (r == m && FullBefore(lib, seed, from + m, n - m, size, balances, k - r))
  }

  lemma {:induction false} IndexesBetween(lib: Library, seed: Seed, from: nat, n: nat, size: nat, balances: Source)
    requires size > 0 && forall q :: |balances(q)| <= |q|
    ensures forall x :: x in Indexes(lib, seed, from, n, size, balances) ==> from <= x < from + n
    decreases n
  {
    if n == 0 {
    } else {
      var m := if n < size then n else size;
      IndexesBetween(lib, seed, from + m, n - m, size, balances);
    }
  }

  /** The first k entries stand at their index, counting from `from`. */
  ghost predicate InPlace(at: seq<nat>, from: nat, k: nat)
    requires k <= |at|
  {
    forall i :: 0 <= i < k ==> at[i] == from + i
  }

  /** A short answer shifts every later entry: the first k entries stand at their index exactly
      when no answer before the one that brings the k-th was short. */
  lemma {:induction false} ShiftedIff(lib: Library, seed: Seed, from: nat, n: nat, size: nat, balances: Source, k: nat)
    requires size > 0 && forall q :: |balances(q)| <= |q|
    requires k <= |Indexes(lib, seed, from, n, size, balances)|
    ensures InPlace(Indexes(lib, seed, from, n, size, balances), from, k) <==>
            FullBefore(lib, seed, from, n, size, balances, k)
    decreases n
  {
    hide Indexes, FullBefore, From, Queried, InPlace;
    if n == 0 {
      ShiftedNone(lib, seed, from, size, balances);
    } else {
      var m := if n < size then n else size;
      var r := |balances(Queried(lib, seed, from, m))|;
      var all, rest := Indexes(lib, seed, from, n, size, balances), Indexes(lib, seed, from + m, n - m, size, balances);
      ShiftedStep(lib, seed, from, n, size, balances, k, m, r);
      EarlyInPlace(all, from, r, rest, k);
      if k > r {
        ShiftedIff(lib, seed, from + m, n - m, size, balances, k - r);
        IndexesBetween(lib, seed, from + m, n - m, size, balances);
        ShiftedTail(all, from, r, m, rest, k);
      }
    }
  }

  /** The definitions, one chunk down. */
  lemma ShiftedStep(lib: Library, seed: Seed, from: nat, n: nat, size: nat, balances: Source, k: nat, m: nat, r: nat)
    requires n > 0 && size > 0 && forall q :: |balances(q)| <= |q|
    requires m == (if n < size then n else size) && r == |balances(Queried(lib, seed, from, m))|
    ensures r <= m
    ensures Indexes(lib, seed, from, n, size, balances) ==
            From(from, r) + Indexes(lib, seed, from + m, n - m, size, balances)
    ensures FullBefore(lib, seed, from, n, size, balances, k) <==>
            k <= r || (r == m && FullBefore(lib, seed, from + m, n - m, size, balances, k - r))
  {
    hide From, Queried, AddressAt;
    AnswerAtMost(lib, seed, from, m, balances);
  }

  lemma AnswerAtMost(lib: Library, seed: Seed, from: nat, m: nat, balances: Source)
    requires forall q :: |balances(q)| <= |q|
    ensures |balances(Queried(lib, seed, from, m))| <= m
  {
    assert |Queried(lib, seed, from, m)| == m;
  }

  lemma ShiftedNone(lib: Library, seed: Seed, from: nat, size: nat, balances: Source)
    requires size > 0
    ensures Indexes(lib, seed, from, 0, size, balances) == [] && InPlace([], from, 0)
    ensures FullBefore(lib, seed, from, 0, size, balances, 0)
  {
  }

  lemma EarlyInPlace(all: seq<nat>, from: nat, r: nat, rest: seq<nat>, k: nat)
    requires all == From(from, r) + rest && k <= |all|
    ensures k <= r ==> InPlace(all, from, k)
  {
  }

  lemma ShiftedTail(all: seq<nat>, from: nat, r: nat, m: nat, rest: seq<nat>, k: nat)
    requires all == From(from, r) + rest && r < k <= |all| && r <= m && forall x :: x in rest ==> x >= from + m
    ensures InPlace(all, from, k) <==> r == m && InPlace(rest, from + m, k - r)
  {
    assert rest[0] in rest && all[r] == rest[0];
    assert forall i :: 0 <= i < k - r ==> all[r + i] == rest[i];
    assert forall i :: r <= i < k ==> all[i] == rest[i - r];
  }

  /** The restored account is aligned, so that its keys can sign, exactly when its addresses are
      derivable and no answer before the last kept entry was short. */
  lemma {:induction false} AlignedIff(lib: Library, seed: Seed, limit: nat, size: nat, balances: Source,
        all: seq<AddressBalance>, bals: seq<Balance>)
    requires Injective(lib) && size > 0 && forall q :: |balances(q)| <= |q|
    requires About(lib, seed, all, Indexes(lib, seed, 0, limit, size, balances)) && |bals| <= |all|
    requires forall i :: 0 <= i < |bals| ==> bals[i].address == all[i].address
    requires forall i :: 0 <= i < limit ==> lib.newAddress(seed, i).Some?
    ensures Aligned(lib, seed, bals) <==> FullBefore(lib, seed, 0, limit, size, balances, |bals|)
  {
    var at := Indexes(lib, seed, 0, limit, size, balances);
    ShiftedIff(lib, seed, 0, limit, size, balances, |bals|);
    IndexesBetween(lib, seed, 0, limit, size, balances);
    forall i | 0 <= i < |bals|
      ensures lib.newAddress(seed, i) == Some(bals[i].address) <==> at[i] == i
    {
      assert all[i].address == AddressAt(lib, seed, at[i]);
      assert at[i] in at;
      assert lib.newAddress(seed, at[i]) == Some(bals[i].address);
    }
    hide Indexes, FullBefore, Injective;
  }

  /** With full answers throughout nothing is shifted and every index below the limit is there. */
  lemma {:induction false} FullAnswers(lib: Library, seed: Seed, from: nat, n: nat, size: nat, balances: Source)
    requires size > 0 && forall q :: |balances(q)| == |q|
    ensures Indexes(lib, seed, from, n, size, balances) == From(from, n)
    decreases n
  {
    if n == 0 {
    } else {
      var m := if n < size then n else size;
      FullAnswers(lib, seed, from + m, n - m, size, balances);
      assert From(from, n) == From(from, m) + From(from + m, n - m);
    }
  }
}
