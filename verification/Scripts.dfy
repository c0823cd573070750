/** Single steps on small concrete states, from which runs from the empty wallet are put
    together. */
module Scripts {
  import opened Gadk
  import opened Sums
  import opened Accounts
  import opened Transfers
  import opened Stores
  import opened Hashes
  import opened Ledger
  import opened Runs

  const KEY: Key := "\0"

  const OTHER := "x"

  function Pair(a: Acct, b: Acct): map<Key, Acct> {
    map[OTHER := a, KEY := b]
  }

  /** The step is enabled and leads there. */
  ghost predicate Takes(lib: Library, s: State, e: Event, t: State) {
    Enabled(s, e) && Step(lib, s, e) == t
  }

  ghost predicate Reaches(lib: Library, s: State, es: seq<Event>, t: State) {
    ValidRun(lib, s, es) && After(lib, s, es) == t
  }

  lemma First(lib: Library, s: State, e: Event, t: State)
    requires Takes(lib, s, e, t)
    ensures Reaches(lib, s, [e], t)
  {
    RunMore(lib, s, [], e);
    assert [] + [e] == [e];
  }

  lemma Next(lib: Library, r: State, es: seq<Event>, s: State, e: Event, t: State)
    requires Reaches(lib, r, es, s) && Takes(lib, s, e, t)
    ensures Reaches(lib, r, es + [e], t)
  {
    RunMore(lib, r, es, e);
  }

  lemma {:induction false} Both(lib: Library, r: State, es: seq<Event>, s: State, fs: seq<Event>, t: State)
    requires Reaches(lib, r, es, s) && Reaches(lib, s, fs, t)
    ensures Reaches(lib, r, es + fs, t)
  {
    if fs == [] {
      assert es + fs == es;
    } else {
      var n := |fs| - 1;
      Both(lib, r, es, s, fs[..n], After(lib, s, fs[..n]));
      assert (es + fs[..n]) + [fs[n]] == es + fs;
      RunMore(lib, r, es + fs[..n], fs[n]);
    }
  }

  /** Five steps in turn. */
  lemma Five(lib: Library, s0: State, e1: Event, s1: State, e2: Event, s2: State, e3: Event, s3: State,
        e4: Event, s4: State, e5: Event, s5: State)
    requires Takes(lib, s0, e1, s1) && Takes(lib, s1, e2, s2) && Takes(lib, s2, e3, s3)
    requires Takes(lib, s3, e4, s4) && Takes(lib, s4, e5, s5)
    ensures Reaches(lib, s0, [e1, e2, e3, e4, e5], s5)
  {
    assert [e1] + [e2] + [e3] + [e4] + [e5] == [e1, e2, e3, e4, e5];
    hide *;
    First(lib, s0, e1, s1);
    Next(lib, s0, [e1], s1, e2, s2);
    Next(lib, s0, [e1] + [e2], s2, e3, s3);
    Next(lib, s0, [e1] + [e2] + [e3], s3, e4, s4);
    Next(lib, s0, [e1] + [e2] + [e3] + [e4], s4, e5, s5);
  }

  lemma Four(lib: Library, s0: State, e1: Event, s1: State, e2: Event, s2: State, e3: Event, s3: State,
        e4: Event, s4: State)
    requires Takes(lib, s0, e1, s1) && Takes(lib, s1, e2, s2) && Takes(lib, s2, e3, s3) && Takes(lib, s3, e4, s4)
    ensures Reaches(lib, s0, [e1, e2, e3, e4], s4)
  {
    assert [e1] + [e2] + [e3] + [e4] == [e1, e2, e3, e4];
    hide *;
    First(lib, s0, e1, s1);
    Next(lib, s0, [e1], s1, e2, s2);
    Next(lib, s0, [e1] + [e2], s2, e3, s3);
    Next(lib, s0, [e1] + [e2] + [e3], s3, e4, s4);
  }

  function Entry(name: string, seed: Seed, adr: Address, v: int): Acct {
    Acct(name, seed, [Balance(adr, v, 0)])
  }

  lemma TakesNewAddress(lib: Library, seed: Seed, adr: Address)
    requires lib.newAddress(seed, 0) == Some(adr)
    ensures Takes(lib, START, NewAddress(OTHER, seed),
                  START.(store := Store(map[OTHER := Entry(OTHER, seed, adr, 0)], None)))
  {
    assert [] + [Balance(adr, 0, 0)] == [Balance(adr, 0, 0)];
  }

  lemma TakesRestore(lib: Library, s: State, a: Acct, seed: Seed, adr: Address)
    requires s.store == Store(map[OTHER := a], None) && lib.newAddress(seed, 0) == Some(adr)
    ensures Takes(lib, s, Restore(seed, 1), s.(store := Store(Pair(a, Entry("", seed, adr, 0)), None)))
    ensures Takes(lib, s, Restore(seed, 0), s.(store := Store(Pair(a, Acct("", seed, [])), None)))
  {
    assert FirstEntries(lib, seed, 1) == Some([] + [Balance(adr, 0, 0)]);
    assert [] + [Balance(adr, 0, 0)] == [Balance(adr, 0, 0)];
  }

  lemma TakesRefresh(lib: Library, s: State, a: Acct, b: Acct, c: Acct, d: Acct, news: seq<Hash>)
    requires s.store == Store(Pair(a, b), None) && |news| <= 1 && forall h :: h in news ==> h !in HashesOf(s.hs)
    requires a.name == c.name && a.seed == c.seed && SameAddresses(a.bals, c.bals)
    requires b.name == d.name && b.seed == d.seed && SameAddresses(b.bals, d.bals)
    ensures Takes(lib, s, Refresh(Pair(c, d), news, ""),
                  s.(store := Store(Pair(c, d), None), hs := s.hs + Unflagged(news)))
  {
  }

  lemma TakesFind(lib: Library, s: State, t: Transaction)
    requires s.round.Idle? && lib.txHash(t) !in HashesOf(s.hs)
    ensures var x := lib.txHash(t);
            Takes(lib, s, Discover([x], [t]), s.(txs := s.txs[x := Stored(t)], round := Found(s.hs, [x])))
  {
    var x := lib.txHash(t);
    assert [x][..0] == [];
    assert News(s.hs, [x]) == [] + [x] == [x];
    PutOne(lib, s.txs, t);
  }

  lemma TakesListed(lib: Library, s: State, x: Hash)
    requires s.round.Idle? && s.hs == [TxState(x, false)]
    ensures Takes(lib, s, Discover([x], []), s.(round := Found(s.hs, [])))
  {
    OneListed(x);
  }

  lemma TakesNo(lib: Library, s: State, x: Hash)
    requires s.round == Found([], [x])
    ensures Takes(lib, s, Confirm([false]), s.(hs := [TxState(x, false)], round := Ready([])))
  {
    OneListed(x);
    var listed := [] + Unflagged([x]);
    assert listed == [TxState(x, false)];
    FlipNothing(listed, [false]);
    FlippedSame(listed);
  }

  lemma TakesYes(lib: Library, s: State, x: Hash)
    requires s.round == Found([TxState(x, false)], [])
    ensures Takes(lib, s, Confirm([true]), s.(hs := [TxState(x, true)], round := Ready([x])))
  {
    OneListed(x);
    var hs := [TxState(x, false)];
    assert hs + Unflagged([]) == hs;
  }

  lemma TakesNoYes(lib: Library, s: State, z: Hash, y: Hash)
    requires s.round == Found([TxState(z, false)], [y])
    ensures Takes(lib, s, Confirm([false, true]), s.(hs := [TxState(z, false), TxState(y, true)], round := Ready([y])))
  {
    var hs, one := [TxState(z, false)], [TxState(z, false), TxState(y, true)];
    var listed := hs + Unflagged([y]);
    assert listed == hs + [TxState(y, false)] && listed[..1] == hs;
    OneListed(z);
    FlipNothing(hs, [false]);
    FlippedSame(hs);
    assert Unconfirmed(listed) == [z] + [y];
    assert [false, true][..1] == [false];
    assert Flip(listed, [false, true]) == hs + [TxState(y, true)] == one;
    assert one[..1] == hs && Flipped(listed, one) == [] + [y] == [y];
    assert Confirmed(listed, [false, true]) == one;
  }

  lemma TakesNothing(lib: Library, s: State, x: Hash)
    requires s.round == Ready([]) && x in s.txs
    ensures Takes(lib, s, Credit(true), s.(round := Idle))
  {
    assert |s.txs| > 0;
  }

  /** The credit of one transaction to an account with one entry. */
  lemma TakesCredit(lib: Library, s: State, k: Key, t: Transaction)
    requires s.round == Ready([lib.txHash(t)]) && lib.txHash(t) in s.txs && s.txs[lib.txHash(t)] == Stored(t)
    requires s.store.cache.None? && k in s.store.db && Owner(s.store.db, t.address) == Some(k) && t.value != 0
    requires |s.store.db[k].bals| == 1 && ToKey(s.store.db[k].name) == k
    ensures var a := s.store.db[k];
            var b := a.(bals := [Balance(t.address, a.bals[0].value + t.value, 0)]);
            Takes(lib, s, Credit(true), s.(store := Store(s.store.db[k := b], Some(b)), round := Idle))
  {
    var x, a := lib.txHash(t), s.store.db[k];
    assert |s.txs| > 0;
    assert Load(s.txs, [x]).value == [Stored(t)];
    assert [Stored(t)][..0] == [];
    assert IndexOf(a.bals, t.address) == 0;
    assert CreditAll(s.store, [Stored(t)]) == CreditOne(s.store, Stored(t));
    assert Find(s.store, t.address) == Some(a);
    assert Credited(a, t.address, t.value).bals == [Balance(t.address, a.bals[0].value + t.value, 0)];
  }

  lemma PairOwner(a: Acct, b: Acct, adr: Address)
    requires Has(a, adr) != Has(b, adr)
    ensures Owner(Pair(a, b), adr) == Some(if Has(a, adr) then OTHER else KEY)
  {
    assert OTHER in Pair(a, b) && KEY in Pair(a, b) && OTHER != KEY;
  }

  lemma HasEntry(name: string, seed: Seed, adr: Address, v: int, a: Address)
    ensures Has(Entry(name, seed, adr, v), a) <==> a == adr
    ensures !Has(Acct(name, seed, []), a)
  {
  }

  /** A round stores the transaction of account x, which is not confirmed yet. */
  function UnconfirmedRun(lib: Library, mine: Seed, t: Transaction): seq<Event> {
    [NewAddress(OTHER, mine), Discover([lib.txHash(t)], [t]), Confirm([false]), Credit(true)]
  }

  /** Stored and listed, not confirmed, and nothing credited. */
  function Waiting(lib: Library, mine: Seed, t: Transaction): State {
    State(Store(map[OTHER := Entry(OTHER, mine, t.address, 0)], None), [TxState(lib.txHash(t), false)],
          map[lib.txHash(t) := Stored(t)], Idle)
  }

  lemma ReceivedUnconfirmed(lib: Library, mine: Seed, t: Transaction)
    requires lib.newAddress(mine, 0) == Some(t.address)
    ensures Reaches(lib, START, UnconfirmedRun(lib, mine, t), Waiting(lib, mine, t))
  {
    var y := lib.txHash(t);
    var s1 := START.(store := Store(map[OTHER := Entry(OTHER, mine, t.address, 0)], None));
    TakesNewAddress(lib, mine, t.address);
    assert HashesOf([]) == [];
    var s2 := s1.(txs := map[y := Stored(t)], round := Found([], [y]));
    assert s1.txs[y := Stored(t)] == map[y := Stored(t)];
    TakesFind(lib, s1, t);
    var s3 := s2.(hs := [TxState(y, false)], round := Ready([]));
    TakesNo(lib, s2, y);
    TakesNothing(lib, s3, y);
    hide Takes;
    Four(lib, START, NewAddress(OTHER, mine), s1, Discover([y], [t]), s2, Confirm([false]), s3, Credit(true),
         Waiting(lib, mine, t));
  }

  // ---- small lists ----

  lemma PutOne(lib: Library, txs: TxBucket, t: Transaction)
    ensures PutAll(lib, txs, [t]) == txs[lib.txHash(t) := Stored(t)]
  {
    assert [t][..0] == [];
  }

  lemma OneNew(hs: seq<TxState>, x: Hash)
    requires x !in HashesOf(hs) && forall t :: t in hs ==> t.confirmed
    ensures News(hs, [x]) == [x]
    ensures var listed := hs + Unflagged([x]);
            && Confirmed(listed, [true]) == hs + [TxState(x, true)]
            && Flipped(listed, Confirmed(listed, [true])) == [x]
  {
    var listed := hs + Unflagged([x]);
    assert [x][..0] == [] && Unflagged([x]) == [TxState(x, false)];
    assert listed == hs + [TxState(x, false)] && listed[..|hs|] == hs;
    AllConfirmed(hs);
    assert Unconfirmed(listed) == [] + [x] == [x];
    assert [true][..0] == [];
    assert Flip(listed, [true]) == Flip(hs, []) + [TxState(x, true)];
    assert (hs + [TxState(x, true)])[..|hs|] == hs;
    FlippedSame(hs);
  }

  lemma {:induction false} AllConfirmed(hs: seq<TxState>)
    requires forall t :: t in hs ==> t.confirmed
    ensures Unconfirmed(hs) == [] && Flip(hs, []) == hs
  {
    if hs == [] {
    } else {
      var init, last := hs[..|hs| - 1], hs[|hs| - 1];
      assert hs == init + [last] && last in hs;
      AllConfirmed(init);
      Unfold(hs, []);
      hide Unconfirmed, Flip;
    }
  }

  /** Asking for the one listed hash and hearing yes. */
  lemma OneListed(x: Hash)
    ensures HashesOf([TxState(x, false)]) == [x] && Unconfirmed([TxState(x, false)]) == [x]
    ensures News([TxState(x, false)], [x]) == []
    ensures Confirmed([TxState(x, false)], [true]) == [TxState(x, true)]
    ensures Flipped([TxState(x, false)], [TxState(x, true)]) == [x]
  {
    var hs := [TxState(x, false)];
    assert hs[..0] == [] && [x][..0] == [] && [true][..0] == [] && [TxState(x, true)][..0] == [];
    assert Unconfirmed(hs) == [] + [x];
    assert Flip(hs, [true]) == [] + [TxState(x, true)];
    assert Flipped(hs, [TxState(x, true)]) == [] + [x];
  }

  lemma SpendAll(lib: Library, a: Acct, b: Balance)
    requires a.bals == [b] && b.value > 0
    ensures Spent(lib, a, b.value) == Some(a.(bals := [b.(value := 0)]))
  {
    assert a.bals[..1] == [b] && a.bals[..0] == [];
    assert SumBy(a.bals[..0], Spendable()) == 0;
    SumPrefix(a.bals, 0, Spendable());
    CoverUnique(a.bals, b.value, 1);
    assert Drained(a.bals, 1) == [b.(value := 0)];
  }
}
