/** What failing and short answers of the node lead to: a listing that fails, a scanned account
    that is shifted, and a seed that restores no address. */
module NodeFailures {
  import opened Gadk
  import opened Hashes
  import opened Runs
  import opened Scripts
  import AddressScan
  import Discovery
  import Listings
  import Wallets

  // ---- a round that stops between its transactions ----

  /** A second transaction of a listed one's bundle is stored, and the node fails. */
  function StoppedRun(lib: Library, mine: Seed, t: Transaction, u: Transaction): seq<Event> {
    UnconfirmedRun(lib, mine, t) + [Discover([lib.txHash(u)], [u]), Stop]
  }

  function StoppedState(lib: Library, mine: Seed, t: Transaction, u: Transaction): State {
    var s := Waiting(lib, mine, t);
    s.(txs := s.txs[lib.txHash(u) := Stored(u)])
  }

  lemma StoppedVerdict(lib: Library, mine: Seed, t: Transaction, u: Transaction)
    requires t.bundle == u.bundle && lib.txHash(t) != lib.txHash(u)
    ensures var s := StoppedState(lib, mine, t, u);
            var vs := Listings.Verdicts(s.hs, s.txs, s.store.db, Listings.ALL);
            |vs| == 1 && vs[0] == Listings.HashNotFound && Listings.FirstBad(vs) == 0
  {
    hide Listings.OwnerName;
    var s := StoppedState(lib, mine, t, u);
    OneListed(lib.txHash(t));
    assert lib.txHash(u) in Mates(s.txs, t.bundle);
    assert !Listings.BundleListed(s.hs, s.txs, t.bundle);
    assert Listings.Judge(s.hs, s.txs, s.store.db, Listings.ALL, s.hs[0]) == Listings.HashNotFound;
  }

  /** From the empty wallet: the round stores u without listing it, and listtransactions ends with
      HashNotFound at the unconfirmed t of the same bundle. */
  lemma StoppedRoundFailsListing(lib: Library, mine: Seed, t: Transaction, u: Transaction)
    requires lib.newAddress(mine, 0) == Some(t.address) && t.bundle == u.bundle && lib.txHash(t) != lib.txHash(u)
    ensures var s := StoppedState(lib, mine, t, u);
            && Reaches(lib, START, StoppedRun(lib, mine, t, u), s)
            && var vs := Listings.Verdicts(s.hs, s.txs, s.store.db, Listings.ALL);
               |vs| == 1 && vs[0] == Listings.HashNotFound && Listings.FirstBad(vs) == 0
  {
    var s, x, y := Waiting(lib, mine, t), lib.txHash(t), lib.txHash(u);
    ReceivedUnconfirmed(lib, mine, t);
    OneListed(x);
    TakesFind(lib, s, u);
    var s1, s2 := s.(txs := s.txs[y := Stored(u)], round := Found(s.hs, [y])), StoppedState(lib, mine, t, u);
    assert Takes(lib, s1, Stop, s2);
    StoppedVerdict(lib, mine, t, u);
    var run := UnconfirmedRun(lib, mine, t);
    assert run + [Discover([y], [u])] + [Stop] == StoppedRun(lib, mine, t, u);
    hide *;
    Next(lib, START, run, s, Discover([y], [u]), s1);
    Next(lib, START, run + [Discover([y], [u])], s1, Stop, s2);
  }

  // ---- answers of the node ----

  /** Four addresses asked for in twos, each query answered for its first address only: the second
      entry of the account is about the third address of the seed. */
  lemma ShortAnswerShifts(lib: Library, seed: Seed, balances: AddressScan.Source)
    requires forall q :: |balances(q)| == if |q| == 0 then 0 else 1
    ensures AddressScan.Indexes(lib, seed, 0, 4, 2, balances) == [0, 2]
    ensures !AddressScan.FullBefore(lib, seed, 0, 4, 2, balances, 2)
  {
    assert AddressScan.Indexes(lib, seed, 4, 0, 2, balances) == [];
    var rest := AddressScan.Indexes(lib, seed, 2, 2, 2, balances);
    assert rest == AddressScan.From(2, 1) + [] == [2];
    assert AddressScan.Indexes(lib, seed, 0, 4, 2, balances) == AddressScan.From(0, 1) + rest;
    assert AddressScan.From(0, 1) == [0];
  }

  /** The first address has a transaction and the query for the second fails: no address comes
      before a first unused one, so none is restored. */
  lemma UsedAddressNotRestored(lib: Library, find: Discovery.Query, seed: Seed, a: Address, b: Address, h: Hash)
    requires lib.newAddress(seed, 0) == Some(a) && lib.newAddress(seed, 1) == Some(b)
    requires find([a]) == Some([h]) && find([b]) == None
    ensures Wallets.Used(lib, find, seed, 0) && forall n :: !Wallets.FirstUnused(lib, find, seed, n)
  {
    Wallets.NoneUnused(lib, find, seed, 1);
  }
}
