/** Runs from the empty wallet through importwallet that end with funds spent or counted
    twice. */
module ImportRuns {
  import opened Gadk
  import opened Sums
  import opened Accounts
  import opened Transfers
  import opened Stores
  import opened Hashes
  import opened Ledger
  import opened Runs
  import opened Seeds
  import opened Scripts

  // ---- counted twice, between two rounds ----

  /** An unrelated seed is imported, which takes the node's balance for every account; then the
      next round hears that the transaction is confirmed. */
  function ImportConfirmRun(lib: Library, mine: Seed, seed: Seed, t: Transaction): seq<Event> {
    [Restore(seed, 0), Refresh(Pair(Entry(OTHER, mine, t.address, t.value), Acct("", seed, [])), [], ""),
     Discover([lib.txHash(t)], []), Confirm([true]), Credit(true)]
  }

  lemma ImportedConfirmed(lib: Library, mine: Seed, seed: Seed, t: Transaction) returns (u: State)
    requires lib.newAddress(seed, 0).Some? && t.value != 0
    ensures Reaches(lib, Waiting(lib, mine, t), ImportConfirmRun(lib, mine, seed, t), u)
    ensures u.store.db == Pair(Entry(OTHER, mine, t.address, t.value + t.value), Acct("", seed, []))
  {
    hide Step, Enabled, Takes, Owner, Has, IndexOf, Stored, SameAccounts;
    var s, y, none := Waiting(lib, mine, t), lib.txHash(t), Acct("", seed, []);
    var zero, one := Entry(OTHER, mine, t.address, 0), Entry(OTHER, mine, t.address, t.value);
    var two := Entry(OTHER, mine, t.address, t.value + t.value);
    var s1 := s.(store := Store(Pair(zero, none), None));
    TakesRestore(lib, s, zero, seed, lib.newAddress(seed, 0).value);
    var s2 := s.(store := Store(Pair(one, none), None));
    assert s1.hs + Unflagged([]) == s1.hs;
    TakesRefresh(lib, s1, zero, none, one, none, []);
    var s3 := s2.(round := Found(s2.hs, []));
    TakesListed(lib, s2, y);
    var s4 := s3.(hs := [TxState(y, true)], round := Ready([y]));
    TakesYes(lib, s3, y);
    HasEntry(OTHER, mine, t.address, t.value, t.address);
    HasEntry("", seed, t.address, 0, t.address);
    PairOwner(one, none, t.address);
    TakesCredit(lib, s4, OTHER, t);
    assert s4.store.db[OTHER := two] == Pair(two, none);
    u := s4.(store := Store(Pair(two, none), Some(two)), round := Idle);
    hide Takes;
    Five(lib, s, Restore(seed, 0), s1, Refresh(Pair(one, none), [], ""), s2, Discover([y], []), s3,
         Confirm([true]), s4, Credit(true), u);
  }

  /** The import lies between two rounds, every query is answered and nothing runs UpdateTXs: the
      balance of the node is v, and the wallet ends with 2v. */
  lemma ImportCountsTwice(lib: Library, mine: Seed, seed: Seed, t: Transaction)
    requires lib.newAddress(mine, 0) == Some(t.address) && lib.newAddress(seed, 0).Some? && t.value != 0
    ensures var es := UnconfirmedRun(lib, mine, t) + ImportConfirmRun(lib, mine, seed, t);
            && ValidRun(lib, START, es)
            && After(lib, START, es).store.db ==
               Pair(Entry(OTHER, mine, t.address, 2 * t.value), Acct("", seed, []))
  {
    ReceivedUnconfirmed(lib, mine, t);
    var u := ImportedConfirmed(lib, mine, seed, t);
    hide UnconfirmedRun, ImportConfirmRun;
    Both(lib, START, UnconfirmedRun(lib, mine, t), Waiting(lib, mine, t), ImportConfirmRun(lib, mine, seed, t), u);
  }

  // ---- counted twice, inside a round ----

  /** A round has found transaction tz of account x when a seed is imported, whose address holds
      v = ty.value by transaction ty; the round then stores the list it read before. */
  function InsideRun(lib: Library, mine: Seed, seed: Seed, tz: Transaction, ty: Transaction): seq<Event> {
    [NewAddress(OTHER, mine), Discover([lib.txHash(tz)], [tz]), Restore(seed, 1),
     Refresh(Pair(Entry(OTHER, mine, tz.address, 0), Entry("", seed, ty.address, ty.value)), [lib.txHash(ty)], ""),
     Confirm([false])]
  }

  /** The list has lost what the refresh put there, the value is the node's. */
  function Overwritten(lib: Library, mine: Seed, seed: Seed, tz: Transaction, ty: Transaction): State {
    State(Store(Pair(Entry(OTHER, mine, tz.address, 0), Entry("", seed, ty.address, ty.value)), None),
          [TxState(lib.txHash(tz), false)], map[lib.txHash(tz) := Stored(tz)], Ready([]))
  }

  ghost predicate InsideInputs(lib: Library, mine: Seed, seed: Seed, tz: Transaction, ty: Transaction) {
    && lib.newAddress(mine, 0) == Some(tz.address) && lib.newAddress(seed, 0) == Some(ty.address)
    && tz.address != ty.address && lib.txHash(tz) != lib.txHash(ty) && ty.value != 0
  }

  /** A refresh between the two transactions of compareHashes is overwritten, in a run from the empty
      wallet: y was listed by the refresh and is on the list no longer. */
  lemma RefreshLost(lib: Library, mine: Seed, seed: Seed, tz: Transaction, ty: Transaction)
    requires InsideInputs(lib, mine, seed, tz, ty)
    ensures var es := InsideRun(lib, mine, seed, tz, ty);
            && Reaches(lib, START, es, Overwritten(lib, mine, seed, tz, ty))
            && es[3].Refresh? && lib.txHash(ty) in es[3].news
            && lib.txHash(ty) !in HashesOf(Overwritten(lib, mine, seed, tz, ty).hs)
  {
    hide Step, Enabled, Takes, Owner, Has, IndexOf, Stored, SameAccounts;
    var z, y := lib.txHash(tz), lib.txHash(ty);
    var zero, none, one := Entry(OTHER, mine, tz.address, 0), Entry("", seed, ty.address, 0),
                           Entry("", seed, ty.address, ty.value);
    var s1 := START.(store := Store(map[OTHER := zero], None));
    TakesNewAddress(lib, mine, tz.address);
    assert HashesOf([]) == [];
    var s2 := s1.(txs := map[z := Stored(tz)], round := Found([], [z]));
    assert s1.txs[z := Stored(tz)] == map[z := Stored(tz)];
    TakesFind(lib, s1, tz);
    var s3 := s2.(store := Store(Pair(zero, none), None));
    TakesRestore(lib, s2, zero, seed, ty.address);
    var s4 := s3.(store := Store(Pair(zero, one), None), hs := [] + Unflagged([y]));
    TakesRefresh(lib, s3, zero, none, zero, one, [y]);
    TakesNo(lib, s4, z);
    Five(lib, START, NewAddress(OTHER, mine), s1, Discover([z], [tz]), s2, Restore(seed, 1), s3,
         Refresh(Pair(zero, one), [y], ""), s4, Confirm([false]), Overwritten(lib, mine, seed, tz, ty));
  }

  /** The round ends, and the next one finds ty as new and confirmed. */
  function AgainRun(lib: Library, ty: Transaction): seq<Event> {
    [Credit(true), Discover([lib.txHash(ty)], [ty]), Confirm([false, true]), Credit(true)]
  }

  lemma FoundAgain(lib: Library, mine: Seed, seed: Seed, tz: Transaction, ty: Transaction) returns (u: State)
    requires InsideInputs(lib, mine, seed, tz, ty)
    ensures Reaches(lib, Overwritten(lib, mine, seed, tz, ty), AgainRun(lib, ty), u)
    ensures u.store.db == Pair(Entry(OTHER, mine, tz.address, 0), Entry("", seed, ty.address, ty.value + ty.value))
  {
    hide Step, Enabled, Takes, Owner, Has, IndexOf, Stored;
    var s, z, y := Overwritten(lib, mine, seed, tz, ty), lib.txHash(tz), lib.txHash(ty);
    var zero, one, two := Entry(OTHER, mine, tz.address, 0), Entry("", seed, ty.address, ty.value),
                          Entry("", seed, ty.address, ty.value + ty.value);
    var s1 := s.(round := Idle);
    TakesNothing(lib, s, z);
    OneListed(z);
    var s2 := s1.(txs := s1.txs[y := Stored(ty)], round := Found(s1.hs, [y]));
    TakesFind(lib, s1, ty);
    var s3 := s2.(hs := [TxState(z, false), TxState(y, true)], round := Ready([y]));
    TakesNoYes(lib, s2, z, y);
    HasEntry(OTHER, mine, tz.address, 0, ty.address);
    HasEntry("", seed, ty.address, ty.value, ty.address);
    PairOwner(zero, one, ty.address);
    TakesCredit(lib, s3, KEY, ty);
    assert s3.store.db[KEY := two] == Pair(zero, two);
    u := s3.(store := Store(Pair(zero, two), Some(two)), round := Idle);
    Four(lib, s, Credit(true), s1, Discover([y], [ty]), s2, Confirm([false, true]), s3, Credit(true), u);
  }

  /** The import lies inside a round, and nothing runs UpdateTXs: the wallet ends with 2v again. */
  lemma ImportInsideCountsTwice(lib: Library, mine: Seed, seed: Seed, tz: Transaction, ty: Transaction)
    requires InsideInputs(lib, mine, seed, tz, ty)
    ensures var es := InsideRun(lib, mine, seed, tz, ty) + AgainRun(lib, ty);
            && ValidRun(lib, START, es)
            && After(lib, START, es).store.db ==
               Pair(Entry(OTHER, mine, tz.address, 0), Entry("", seed, ty.address, 2 * ty.value))
  {
    RefreshLost(lib, mine, seed, tz, ty);
    var u := FoundAgain(lib, mine, seed, tz, ty);
    hide InsideRun, AgainRun, Overwritten;
    Both(lib, START, InsideRun(lib, mine, seed, tz, ty), Overwritten(lib, mine, seed, tz, ty), AgainRun(lib, ty), u);
  }

  // ---- spent twice ----

  /** The seed of account x is imported once more, the refresh takes v for both accounts, and both
      send it. */
  function SharedRun(seed: Seed, adr: Address, v: int): seq<Event> {
    [NewAddress(OTHER, seed), Restore(seed, 1),
     Refresh(Pair(Entry(OTHER, seed, adr, v), Entry("", seed, adr, v)), [], ""),
     SendFrom(OTHER, v, true), SendFrom("", v, true)]
  }

  /** Wallets without transactions. */
  function Bare(db: map<Key, Acct>): State {
    START.(store := Store(db, None))
  }

  lemma TakesSend(lib: Library, db: map<Key, Acct>, h: History, k: Key, name: string, seed: Seed, adr: Address, v: int)
    requires k in db && db[k] == Entry(name, seed, adr, v) && ToKey(name) == k && v > 0
    ensures Takes(lib, Bare(db), SendFrom(name, v, true), Bare(db[k := Entry(name, seed, adr, 0)]))
    ensures StepHistory(lib, Bare(db), h, SendFrom(name, v, true)) ==
            h.(sent := h.sent + [Flow(adr, -v), Flow(adr, 0)])
  {
    var b := Balance(adr, v, 0);
    SpendAll(lib, db[k], b);
    assert [b][..1] == [b] && [b][..0] == [] && SumBy([b][..0], Spendable()) == 0;
    SumPrefix([b], 0, Spendable());
    CoverUnique([b], v, 1);
    InFlowsStep([b], 0);
    assert SpentFlows(db[k], v) == [] + InputFlows(b);
  }

  lemma SharedState(lib: Library, seed: Seed, adr: Address, v: int)
    requires lib.newAddress(seed, 0) == Some(adr) && v > 0
    ensures var x, y, x0, y0 := Entry(OTHER, seed, adr, v), Entry("", seed, adr, v), Entry(OTHER, seed, adr, 0),
                                Entry("", seed, adr, 0);
            && Takes(lib, START, NewAddress(OTHER, seed), Bare(map[OTHER := x0]))
            && Takes(lib, Bare(map[OTHER := x0]), Restore(seed, 1), Bare(Pair(x0, y0)))
            && Takes(lib, Bare(Pair(x0, y0)), Refresh(Pair(x, y), [], ""), Bare(Pair(x, y)))
            && Takes(lib, Bare(Pair(x, y)), SendFrom(OTHER, v, true), Bare(Pair(x0, y)))
            && Takes(lib, Bare(Pair(x0, y)), SendFrom("", v, true), Bare(Pair(x0, y0)))
  {
    hide Step, Enabled, Takes, SameAccounts, StepHistory;
    var x, y, x0, y0 := Entry(OTHER, seed, adr, v), Entry("", seed, adr, v), Entry(OTHER, seed, adr, 0),
                        Entry("", seed, adr, 0);
    TakesNewAddress(lib, seed, adr);
    TakesRestore(lib, Bare(map[OTHER := x0]), x0, seed, adr);
    assert START.hs + Unflagged([]) == START.hs;
    TakesRefresh(lib, Bare(Pair(x0, y0)), x0, y0, x, y, []);
    TakesSend(lib, Pair(x, y), NOTHING, OTHER, OTHER, seed, adr, v);
    assert Pair(x, y)[OTHER := x0] == Pair(x0, y) && Pair(x0, y)[KEY := y0] == Pair(x0, y0);
    TakesSend(lib, Pair(x0, y), NOTHING, KEY, "", seed, adr, v);
  }

  /** The run leads there, with that history. */
  ghost predicate Told(lib: Library, es: seq<Event>, s: State, h: History) {
    Reaches(lib, START, es, s) && HistoryAfter(lib, START, NOTHING, es) == h
  }

  lemma Tell(lib: Library, es: seq<Event>, s: State, h: History, e: Event, t: State, g: History)
    requires Told(lib, es, s, h) && Takes(lib, s, e, t) && StepHistory(lib, s, h, e) == g
    ensures Told(lib, es + [e], t, g)
  {
    RunMore(lib, START, es, e);
    assert (es + [e])[..|es|] == es;
  }

  lemma NothingTold(lib: Library)
    ensures Told(lib, [], START, NOTHING)
  {
  }

  /** What the run records. */
  function SharedHistory(seed: Seed, adr: Address, v: int): History {
    var r := Revision(Pair(Entry(OTHER, seed, adr, 0), Entry("", seed, adr, 0)),
                      Pair(Entry(OTHER, seed, adr, v), Entry("", seed, adr, v)));
    History([], [], [Flow(adr, -v), Flow(adr, 0), Flow(adr, -v), Flow(adr, 0)], [], [r])
  }

  lemma InTurn(e1: Event, e2: Event, e3: Event, e4: Event, e5: Event)
    ensures [] + [e1] + [e2] + [e3] + [e4] + [e5] == [e1, e2, e3, e4, e5]
  {
  }

  lemma SharedTold(lib: Library, seed: Seed, adr: Address, v: int)
    requires lib.newAddress(seed, 0) == Some(adr) && v > 0
    ensures Told(lib, SharedRun(seed, adr, v), Bare(Pair(Entry(OTHER, seed, adr, 0), Entry("", seed, adr, 0))),
                 SharedHistory(seed, adr, v))
  {
    var x, y, x0, y0 := Entry(OTHER, seed, adr, v), Entry("", seed, adr, v), Entry(OTHER, seed, adr, 0),
                        Entry("", seed, adr, 0);
    var s1, s2, s3 := Bare(map[OTHER := x0]), Bare(Pair(x0, y0)), Bare(Pair(x, y));
    SharedState(lib, seed, adr, v);
    SharedSteps(lib, seed, adr, v);
    var h3 := NOTHING.(revised := [Revision(Pair(x0, y0), Pair(x, y))]);
    var h4 := h3.(sent := [Flow(adr, -v), Flow(adr, 0)]);
    var e1, e2, e3, e4, e5 := NewAddress(OTHER, seed), Restore(seed, 1), Refresh(Pair(x, y), [], ""),
                              SendFrom(OTHER, v, true), SendFrom("", v, true);
    var s4 := Bare(Pair(x0, y));
    assert [e1, e2, e3, e4, e5] == SharedRun(seed, adr, v);
    InTurn(e1, e2, e3, e4, e5);
    NothingTold(lib);
    hide *;
    Tell(lib, [], START, NOTHING, e1, s1, NOTHING);
    Tell(lib, [] + [e1], s1, NOTHING, e2, s2, NOTHING);
    Tell(lib, [] + [e1] + [e2], s2, NOTHING, e3, s3, h3);
    Tell(lib, [] + [e1] + [e2] + [e3], s3, h3, e4, s4, h4);
    Tell(lib, [] + [e1] + [e2] + [e3] + [e4], s4, h4, e5, s2, SharedHistory(seed, adr, v));
  }

  lemma SharedSteps(lib: Library, seed: Seed, adr: Address, v: int)
    requires lib.newAddress(seed, 0) == Some(adr) && v > 0
    ensures var x, y, x0, y0 := Entry(OTHER, seed, adr, v), Entry("", seed, adr, v), Entry(OTHER, seed, adr, 0),
                                Entry("", seed, adr, 0);
            var h3 := NOTHING.(revised := [Revision(Pair(x0, y0), Pair(x, y))]);
            var h4 := h3.(sent := [Flow(adr, -v), Flow(adr, 0)]);
            && StepHistory(lib, START, NOTHING, NewAddress(OTHER, seed)) == NOTHING
            && StepHistory(lib, Bare(map[OTHER := x0]), NOTHING, Restore(seed, 1)) == NOTHING
            && Enabled(Bare(Pair(x0, y0)), Refresh(Pair(x, y), [], ""))
            && StepHistory(lib, Bare(Pair(x0, y0)), NOTHING, Refresh(Pair(x, y), [], "")) == h3
            && StepHistory(lib, Bare(Pair(x, y)), h3, SendFrom(OTHER, v, true)) == h4
            && StepHistory(lib, Bare(Pair(x0, y)), h4, SendFrom("", v, true)) == SharedHistory(seed, adr, v)
  {
    var x, y, x0, y0 := Entry(OTHER, seed, adr, v), Entry("", seed, adr, v), Entry(OTHER, seed, adr, 0),
                        Entry("", seed, adr, 0);
    var h3 := NOTHING.(revised := [Revision(Pair(x0, y0), Pair(x, y))]);
    var first := [Flow(adr, -v), Flow(adr, 0)];
    SharedState(lib, seed, adr, v);
    NothingHappens(lib, map[OTHER := x0], seed);
    RefreshHappens(lib, Pair(x0, y0), Pair(x, y));
    TakesSend(lib, Pair(x, y), h3, OTHER, OTHER, seed, adr, v);
    TakesSend(lib, Pair(x0, y), h3.(sent := first), KEY, "", seed, adr, v);
    hide StepHistory, Step, Enabled, Entry, Bare;
    assert [] + first == first && first + first == [Flow(adr, -v), Flow(adr, 0), Flow(adr, -v), Flow(adr, 0)];
  }

  lemma NothingHappens(lib: Library, db: map<Key, Acct>, seed: Seed)
    ensures StepHistory(lib, START, NOTHING, NewAddress(OTHER, seed)) == NOTHING
    ensures StepHistory(lib, Bare(db), NOTHING, Restore(seed, 1)) == NOTHING
  {
  }

  lemma RefreshHappens(lib: Library, before: map<Key, Acct>, after: map<Key, Acct>)
    requires Takes(lib, Bare(before), Refresh(after, [], ""), Bare(after))
    ensures Enabled(Bare(before), Refresh(after, [], ""))
    ensures StepHistory(lib, Bare(before), NOTHING, Refresh(after, [], "")) ==
            NOTHING.(revised := [Revision(before, after)])
  {
    assert [] + [Revision(before, after)] == [Revision(before, after)];
  }

  lemma SharedSums(seed: Seed, adr: Address, v: int)
    requires v > 0
    ensures var h := SharedHistory(seed, adr, v);
            Taken(h, adr) == 2 * v && SumBy(h.credited, GainAt(adr)) + Raised(h, adr) == v
  {
    var h := SharedHistory(seed, adr, v);
    var f := FlowAt(adr);
    assert h.sent[..3] == [Flow(adr, -v), Flow(adr, 0), Flow(adr, -v)];
    assert h.sent[..3][..2] == [Flow(adr, -v), Flow(adr, 0)];
    assert h.sent[..3][..2][..1] == [Flow(adr, -v)] && h.sent[..3][..2][..1][..0] == [];
    assert SumBy(h.sent, f) == SumBy(h.sent[..3][..2], f) - v == SumBy(h.sent[..3][..2][..1], f) - v == -2 * v;
    var r := h.revised[0];
    assert h.revised == [r] && [r][..0] == [];
    ValueOfBoth(seed, adr, 0);
    ValueOfBoth(seed, adr, v);
    assert DeltaAt(adr)(r) == v;
    assert Raised(h, adr) == SumBy(h.revised[..0], RaiseAt(adr)) + RaiseAt(adr)(r) == v;
  }

  lemma ValueOfBoth(seed: Seed, adr: Address, v: int)
    ensures ValueIn(Pair(Entry(OTHER, seed, adr, v), Entry("", seed, adr, v)), adr) == v
  {
    HasEntry(OTHER, seed, adr, v, adr);
    assert OTHER in Pair(Entry(OTHER, seed, adr, v), Entry("", seed, adr, v));
  }

  /** Both transfers succeed: over this run from the empty wallet Send takes 2v from an address that
      held v, and no transaction was ever confirmed. */
  lemma SharedSeedSpendsTwice(lib: Library, seed: Seed, adr: Address, v: int)
    requires lib.newAddress(seed, 0) == Some(adr) && v > 0
    ensures var es := SharedRun(seed, adr, v);
            && ValidRun(lib, START, es)
            && var h := HistoryAfter(lib, START, NOTHING, es);
               Taken(h, adr) == 2 * v && SumBy(h.credited, GainAt(adr)) + Raised(h, adr) == v
  {
    SharedTold(lib, seed, adr, v);
    SharedSums(seed, adr, v);
  }
}
