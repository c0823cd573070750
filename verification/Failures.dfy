/** Runs from the empty wallet that end where one would not expect: a negative value, a credit
    that a rollback did not undo, and a confirmed transaction that is never credited.  And
    what becomes of a refresh inside a round. */
module Failures {
  import opened Gadk
  import opened Sums
  import opened Accounts
  import opened Transfers
  import opened Stores
  import opened Hashes
  import opened Ledger
  import opened Runs
  import opened Credits
  import opened Integrity
  import opened Scripts

  /** The wallet with one account that holds one entry. */
  ghost predicate Single(s: State, seed: Seed, b: Balance) {
    s.store.db == map[KEY := Acct("", seed, [b])]
  }

  lemma SingleOwner(s: State, seed: Seed, b: Balance, adr: Address)
    requires Single(s, seed, b)
    ensures Owner(s.store.db, adr) == if adr == b.address then Some(KEY) else None
    ensures IndexOf([b], b.address) == 0
  {
    assert forall k :: k in s.store.db <==> k == KEY;
    assert s.store.db[KEY].bals[..0] == [];
  }

  lemma FirstAddress(lib: Library, seed: Seed, adr: Address)
    requires lib.newAddress(seed, 0) == Some(adr)
    ensures var e := NewAddress("", seed);
            && Enabled(START, e)
            && var s := Step(lib, START, e);
               && s.hs == [] && s.txs == map[] && s.round == Idle
               && Single(s, seed, Balance(adr, 0, 0)) && s.store.cache == None
  {
    assert [] + [Balance(adr, 0, 0)] == [Balance(adr, 0, 0)];
  }

  /** The state after a round has found transaction t, the node confirming it. */
  function Confirming(lib: Library, s: State, t: Transaction): State {
    var x := lib.txHash(t);
    State(s.store, s.hs + [TxState(x, true)], s.txs[x := Stored(t)], Ready([x]))
  }

  lemma FindNew(lib: Library, s: State, t: Transaction)
    requires s.round.Idle? && lib.txHash(t) !in HashesOf(s.hs) && forall t :: t in s.hs ==> t.confirmed
    ensures var d := Discover([lib.txHash(t)], [t]);
            && Enabled(s, d)
            && Step(lib, s, d) == State(s.store, s.hs, s.txs[lib.txHash(t) := Stored(t)], Found(s.hs, [lib.txHash(t)]))
  {
    hide News, PutAll, Confirmed, Flipped, Unflagged, Stored;
    OneNew(s.hs, lib.txHash(t));
    PutOne(lib, s.txs, t);
  }

  lemma ConfirmNew(lib: Library, s: State, hs: seq<TxState>, x: Hash)
    requires s.round == Found(hs, [x]) && x !in HashesOf(hs) && forall t :: t in hs ==> t.confirmed
    ensures Step(lib, s, Confirm([true])) == State(s.store, hs + [TxState(x, true)], s.txs, Ready([x]))
  {
    OneNew(hs, x);
    hide Confirmed, Flipped, Unflagged;
  }

  function Finding(lib: Library, t: Transaction): seq<Event> {
    [Discover([lib.txHash(t)], [t]), Confirm([true])]
  }

  function Receiving(lib: Library, t: Transaction): seq<Event> {
    Finding(lib, t) + [Credit(true)]
  }

  lemma RunFrom(lib: Library, es: seq<Event>, s: State, e: Event)
    requires ValidRun(lib, START, es) && After(lib, START, es) == s && Enabled(s, e)
    ensures ValidRun(lib, START, es + [e]) && After(lib, START, es + [e]) == Step(lib, s, e)
  {
    RunMore(lib, START, es, e);
  }

  lemma FindRun(lib: Library, es: seq<Event>, s: State, t: Transaction)
    requires ValidRun(lib, START, es) && After(lib, START, es) == s && s.round.Idle?
    requires lib.txHash(t) !in HashesOf(s.hs) && forall t :: t in s.hs ==> t.confirmed
    ensures ValidRun(lib, START, es + Finding(lib, t))
    ensures After(lib, START, es + Finding(lib, t)) == Confirming(lib, s, t)
  {
    var d, c := Discover([lib.txHash(t)], [t]), Confirm([true]);
    FindNew(lib, s, t);
    var s1 := Step(lib, s, d);
    ConfirmNew(lib, s1, s.hs, lib.txHash(t));
    assert Enabled(s1, c) && Step(lib, s1, c) == Confirming(lib, s, t);
    assert es + [d] + [c] == es + Finding(lib, t);
    hide *;
    RunFrom(lib, es, s, d);
    RunFrom(lib, es + [d], s1, c);
  }

  /** The cache is empty or holds the stored record. */
  ghost predicate SingleCached(s: State, seed: Seed, b: Balance) {
    Single(s, seed, b) && (s.store.cache.None? || s.store.cache == Some(Acct("", seed, [b])))
  }

  lemma CreditSingle(lib: Library, s: State, seed: Seed, b: Balance, t: Transaction)
    requires SingleCached(s, seed, b) && t.address == b.address && t.value != 0
    ensures var c := Acct("", seed, [Balance(b.address, b.value + t.value, 0)]);
            CreditAll(s.store, [t]) == Store(map[KEY := c], Some(c))
  {
    SingleOwner(s, seed, b, b.address);
    assert [t][..0] == [];
    assert CreditAll(s.store, [t]) == CreditOne(s.store, t);
    var a := Acct("", seed, [b]);
    assert Find(s.store, t.address) == Some(a);
    assert Credited(a, t.address, t.value).bals == [Balance(b.address, b.value + t.value, 0)];
  }

  lemma CreditOnly(lib: Library, s: State, seed: Seed, b: Balance, t: Transaction, commits: bool)
    requires SingleCached(s, seed, b) && t.address == b.address && t.value != 0
    requires s.round == Ready([lib.txHash(t)]) && lib.txHash(t) in s.txs && s.txs[lib.txHash(t)] == Stored(t)
    ensures var b1 := Balance(b.address, b.value + t.value, 0);
            var u := Step(lib, s, Credit(commits));
            && u.hs == s.hs && u.txs == s.txs && u.round == Idle
            && Single(u, seed, if commits then b1 else b) && u.store.cache == Some(Acct("", seed, [b1]))
  {
    CreditSingle(lib, s, seed, b, Stored(t));
    assert |s.txs| > 0;
    assert Load(s.txs, [lib.txHash(t)]).value == [Stored(t)];
  }

  lemma SendSingle(lib: Library, s: State, seed: Seed, b: Balance)
    requires Single(s, seed, b) && s.store.cache == Some(Acct("", seed, [b])) && b.value > 0
    ensures var u := Step(lib, s, SendFrom("", b.value, true));
            && u == s.(store := u.store)
            && SingleCached(u, seed, b.(value := 0)) && u.store.cache.Some?
  {
    SpendAll(lib, Acct("", seed, [b]), b);
  }

  /** Receiving, sending and confirming the send: what Send took is deducted a second time when
      the transaction that spends it is confirmed. */
  function NegativeRun(lib: Library, seed: Seed, t: Transaction, u: Transaction): seq<Event> {
    [NewAddress("", seed)] + Receiving(lib, t) + [SendFrom("", t.value, true)] + Receiving(lib, u)
  }

  lemma StartRun(lib: Library, seed: Seed, adr: Address)
    requires lib.newAddress(seed, 0) == Some(adr)
    ensures var es, s := [NewAddress("", seed)], Step(lib, START, NewAddress("", seed));
            && ValidRun(lib, START, es) && After(lib, START, es) == s
            && s.hs == [] && s.txs == map[] && s.round == Idle && SingleCached(s, seed, Balance(adr, 0, 0))
  {
    FirstAddress(lib, seed, adr);
    hide Step, Single;
    RunNone(lib, START);
    RunFrom(lib, [], START, NewAddress("", seed));
    assert [] + [NewAddress("", seed)] == [NewAddress("", seed)];
  }

  /** A value received, sent in full and confirmed as sent ends as a negative stored value. */
  lemma ValueBecomesNegative(lib: Library, seed: Seed, t: Transaction, u: Transaction)
    requires lib.newAddress(seed, 0) == Some(t.address) && t.address == u.address
    requires t.value > 0 && u.value == -t.value && lib.txHash(t) != lib.txHash(u)
    ensures var es := NegativeRun(lib, seed, t, u);
            && ValidRun(lib, START, es)
            && Single(After(lib, START, es), seed, Balance(t.address, -t.value, 0))
  {
    hide ValidRun, After, Step, Single, Receiving;
    var first, send := [NewAddress("", seed)], SendFrom("", t.value, true);
    StartRun(lib, seed, t.address);
    var s1 := Step(lib, START, NewAddress("", seed));
    ReceiveRun(lib, seed, first, s1, Balance(t.address, 0, 0), t);
    var s4 := Step(lib, Confirming(lib, s1, t), Credit(true));
    SendSingle(lib, s4, seed, Balance(t.address, t.value, 0));
    RunFrom(lib, first + Receiving(lib, t), s4, send);
    ReceiveRun(lib, seed, first + Receiving(lib, t) + [send], Step(lib, s4, send), Balance(t.address, 0, 0), u);
  }

  /** A round that finds, confirms and credits one transaction of the account. */
  lemma ReceiveRun(lib: Library, seed: Seed, es: seq<Event>, s: State, b: Balance, t: Transaction)
    requires ValidRun(lib, START, es) && After(lib, START, es) == s && s.round == Idle
    requires lib.txHash(t) !in HashesOf(s.hs) && forall t :: t in s.hs ==> t.confirmed
    requires SingleCached(s, seed, b) && t.address == b.address && t.value != 0
    ensures var u := Step(lib, Confirming(lib, s, t), Credit(true));
            && ValidRun(lib, START, es + Receiving(lib, t)) && After(lib, START, es + Receiving(lib, t)) == u
            && u.round == Idle && u.hs == s.hs + [TxState(lib.txHash(t), true)]
            && Single(u, seed, Balance(b.address, b.value + t.value, 0))
            && u.store.cache == Some(Acct("", seed, [Balance(b.address, b.value + t.value, 0)]))
  {
    var r := Confirming(lib, s, t);
    assert SingleCached(r, seed, b);
    CreditOnly(lib, r, seed, b, t, true);
    hide ValidRun, After, Step, Single, SingleCached;
    FindRun(lib, es, s, t);
    RunFrom(lib, es + Finding(lib, t), r, Credit(true));
    assert es + Finding(lib, t) + [Credit(true)] == es + Receiving(lib, t);
  }

  // ---- the stale cache ----

  /** What the stale cache does: the credit transaction is rolled back, and the next
      getnewaddress for the account credited last stores its values all the same.  They differ
      from those the rollback restored exactly when the account is not unmoved. */
  lemma RolledBackCreditLeaks(lib: Library, s: State, trs: seq<Transaction>, seed: Seed)
    requires Valid(lib, s.store) && Agrees(s.store) && s.round.Ready?
    requires Load(s.txs, s.round.confirmed) == Some(trs) && LastCredited(s.store.db, trs).Some?
    ensures var k, s1 := LastCredited(s.store.db, trs).value, Step(lib, s, Credit(false));
            var a := s.store.db[k];
            && s1.store.db == s.store.db
            && (Extended(lib, a).Some? ==>
                  var s2 := Step(lib, s1, NewAddress(a.name, seed));
                  && k in s2.store.db && CreditedDirectly(a, trs).bals <= s2.store.db[k].bals
                  && (a.bals <= s2.store.db[k].bals <==> Unmoved(a, trs)))
  {
    CacheAfterCredits(lib, s.store, trs);
    var k := LastCredited(s.store.db, trs).value;
    var a := s.store.db[k];
    var c := CreditedDirectly(a, trs);
    assert Step(lib, s, Credit(false)).store == Store(s.store.db, Some(c));
    assert |c.bals| == |a.bals|;
    UnmovedIff(a, trs);
    if Extended(lib, a).Some? {
      var bals := Step(lib, Step(lib, s, Credit(false)), NewAddress(a.name, seed)).store.db[k].bals;
      assert bals[..|a.bals|] == c.bals;
      assert a.bals <= bals <==> a.bals == c.bals;
    }
  }

  function RollbackRun(lib: Library, seed: Seed, t: Transaction): seq<Event> {
    [NewAddress("", seed)] + Finding(lib, t) + [Credit(false)]
  }

  /** From the empty wallet: after the rollback the bucket holds 0, and after the next
      getnewaddress it holds the credit that was rolled back. */
  lemma CreditOutlivesRollback(lib: Library, seed: Seed, t: Transaction, next: Address)
    requires lib.newAddress(seed, 0) == Some(t.address) && lib.newAddress(seed, 1) == Some(next) && t.value != 0
    ensures var es := RollbackRun(lib, seed, t);
            && ValidRun(lib, START, es) && ValidRun(lib, START, es + [NewAddress("", seed)])
            && Single(After(lib, START, es), seed, Balance(t.address, 0, 0))
            && After(lib, START, es + [NewAddress("", seed)]).store.db ==
               map[KEY := Acct("", seed, [Balance(t.address, t.value, 0), Balance(next, 0, 0)])]
  {
    StartRun(lib, seed, t.address);
    var s1 := Step(lib, START, NewAddress("", seed));
    var r := Confirming(lib, s1, t);
    var s4 := Step(lib, r, Credit(false));
    RolledBackSingle(lib, s1, seed, t);
    LeakStored(lib, s4, seed, Balance(t.address, t.value, 0), next);
    hide ValidRun, After, Step, Single, Finding;
    FindRun(lib, [NewAddress("", seed)], s1, t);
    RunFrom(lib, [NewAddress("", seed)] + Finding(lib, t), r, Credit(false));
    RunFrom(lib, RollbackRun(lib, seed, t), s4, NewAddress("", seed));
  }

  lemma RolledBackSingle(lib: Library, s: State, seed: Seed, t: Transaction)
    requires SingleCached(s, seed, Balance(t.address, 0, 0)) && t.value != 0
    ensures var u := Step(lib, Confirming(lib, s, t), Credit(false));
            && Single(u, seed, Balance(t.address, 0, 0)) && u.store.db.Keys == {KEY}
            && u.store.cache == Some(Acct("", seed, [Balance(t.address, t.value, 0)]))
  {
    var r := Confirming(lib, s, t);
    assert SingleCached(r, seed, Balance(t.address, 0, 0));
    CreditOnly(lib, r, seed, Balance(t.address, 0, 0), t, false);
  }

  lemma LeakStored(lib: Library, s: State, seed: Seed, b: Balance, next: Address)
    requires s.store.db.Keys == {KEY} && s.store.cache == Some(Acct("", seed, [b]))
    requires lib.newAddress(seed, 1) == Some(next)
    ensures var e := NewAddress("", seed);
            Enabled(s, e) && Step(lib, s, e).store.db == map[KEY := Acct("", seed, [b, Balance(next, 0, 0)])]
  {
    assert [b] + [Balance(next, 0, 0)] == [b, Balance(next, 0, 0)];
  }

  // ---- an import ----

  /** The wallet after importwallet has listed x and taken value v for the seed's one address. */
  function Imported(seed: Seed, adr: Address, v: int, x: Hash): Event {
    Refresh(map[KEY := Acct("", seed, [Balance(adr, v, 0)])], [x], KEY)
  }

  function ImportRun(seed: Seed, adr: Address, v: int, x: Hash): seq<Event> {
    [Restore(seed, 1), Imported(seed, adr, v, x)]
  }

  /** The next round finds x and confirms it; its transaction was never stored. */
  function MissingRun(seed: Seed, adr: Address, v: int, x: Hash): seq<Event> {
    ImportRun(seed, adr, v, x) + [Discover([x], []), Confirm([true]), Credit(true)]
  }

  lemma ImportedState(lib: Library, seed: Seed, adr: Address, v: int, x: Hash)
    requires lib.newAddress(seed, 0) == Some(adr)
    ensures var es := ImportRun(seed, adr, v, x);
            && ValidRun(lib, START, es) && AllAnswered(lib, START, es)
            && After(lib, START, es) ==
               State(Store(map[KEY := Acct("", seed, [Balance(adr, v, 0)])], None), [TxState(x, false)], map[], Idle)
  {
    var r, e := Restore(seed, 1), Imported(seed, adr, v, x);
    var s1 := RestoreOne(lib, seed, adr);
    RefreshOne(lib, s1, seed, adr, v, x);
    NoneAnswered(lib);
    assert [] + [r] == [r] && [r] + [e] == ImportRun(seed, adr, v, x);
    hide *;
    AnsweredRun(lib, [], START, r);
    AnsweredRun(lib, [r], s1, e);
  }

  lemma RestoreOne(lib: Library, seed: Seed, adr: Address) returns (s: State)
    requires lib.newAddress(seed, 0) == Some(adr)
    ensures Enabled(START, Restore(seed, 1)) && Answered(lib, START, Restore(seed, 1))
    ensures s == Step(lib, START, Restore(seed, 1))
    ensures s == START.(store := Store(map[KEY := Acct("", seed, [Balance(adr, 0, 0)])], None))
  {
    assert [] + [Balance(adr, 0, 0)] == [Balance(adr, 0, 0)];
    s := Step(lib, START, Restore(seed, 1));
  }

  lemma RefreshOne(lib: Library, s: State, seed: Seed, adr: Address, v: int, x: Hash)
    requires s == START.(store := Store(map[KEY := Acct("", seed, [Balance(adr, 0, 0)])], None))
    ensures var e := Imported(seed, adr, v, x);
            && Enabled(s, e) && Answered(lib, s, e)
            && Step(lib, s, e) ==
               s.(store := Store(map[KEY := Acct("", seed, [Balance(adr, v, 0)])], None), hs := [TxState(x, false)])
  {
    assert Unflagged([x]) == [TxState(x, false)] && [] + [TxState(x, false)] == [TxState(x, false)];
    assert HashesOf([]) == [];
  }

  lemma FindUnstored(lib: Library, s: State, x: Hash)
    requires s.round.Idle? && s.hs == [TxState(x, false)]
    ensures var d := Discover([x], []);
            && Enabled(s, d) && Answered(lib, s, d) && Step(lib, s, d) == s.(round := Found(s.hs, []))
  {
    OneListed(x);
    hide News, Confirmed, Flipped, Unconfirmed, HashesOf;
  }

  lemma ConfirmUnstored(lib: Library, s: State, x: Hash)
    requires s.round.Idle? && s.hs == [TxState(x, false)]
    ensures Step(lib, s.(round := Found(s.hs, [])), Confirm([true])) ==
            s.(hs := [TxState(x, true)], round := Ready([x]))
  {
    OneListed(x);
    assert s.hs + Unflagged([]) == s.hs;
    hide News, Confirmed, Flipped, Unconfirmed, HashesOf, Unflagged;
  }

  lemma CreditUnstored(lib: Library, s: State, x: Hash)
    requires s.round == Ready([x]) && s.txs == map[]
    ensures Load(s.txs, [x]).None? && Step(lib, s, Credit(true)) == s.(round := Idle)
  {
  }

  /** The flag is stored, the credit step misses the transaction, and x is never credited,
      however the run goes on. */
  lemma ImportedCreditMissed(lib: Library, seed: Seed, adr: Address, v: int, x: Hash)
    requires lib.newAddress(seed, 0) == Some(adr)
    ensures var es := MissingRun(seed, adr, v, x);
            && ValidRun(lib, START, es) && AllAnswered(lib, START, es)
            && After(lib, START, es) ==
               State(Store(map[KEY := Acct("", seed, [Balance(adr, v, 0)])], None), [TxState(x, true)], map[], Idle)
            && Lost(After(lib, START, es), HistoryAfter(lib, START, NOTHING, es), x)
    ensures forall es | ValidRun(lib, START, MissingRun(seed, adr, v, x)) &&
                        ValidRun(lib, After(lib, START, MissingRun(seed, adr, v, x)), es) ::
              var s := After(lib, START, MissingRun(seed, adr, v, x));
              var h := HistoryAfter(lib, START, NOTHING, MissingRun(seed, adr, v, x));
              !Posted(HistoryAfter(lib, s, h, es).credited, x)
  {
    MissingState(lib, seed, adr, v, x);
    MissingHistory(lib, seed, adr, v, x);
    var run := MissingRun(seed, adr, v, x);
    StartFlags();
    RunKeepsFlags(lib, START, NOTHING, run);
    hide ValidRun, After, HistoryAfter, FlagsHold, AllAnswered, MissingRun;
    forall es | ValidRun(lib, After(lib, START, run), es)
      ensures !Posted(HistoryAfter(lib, After(lib, START, run), HistoryAfter(lib, START, NOTHING, run), es).credited, x)
    {
      LostForever(lib, After(lib, START, run), HistoryAfter(lib, START, NOTHING, run), es, x);
    }
  }

  lemma MissingState(lib: Library, seed: Seed, adr: Address, v: int, x: Hash)
    requires lib.newAddress(seed, 0) == Some(adr)
    ensures var es := MissingRun(seed, adr, v, x);
            && ValidRun(lib, START, es) && AllAnswered(lib, START, es)
            && ValidRun(lib, START, es[..4])
            && After(lib, START, es[..4]).round == Ready([x]) && After(lib, START, es[..4]).txs == map[]
            && After(lib, START, es) ==
               State(Store(map[KEY := Acct("", seed, [Balance(adr, v, 0)])], None), [TxState(x, true)], map[], Idle)
  {
    hide ValidRun, After, Step, AllAnswered, ImportRun, Answered, Enabled;
    var es, all := ImportRun(seed, adr, v, x), MissingRun(seed, adr, v, x);
    ImportedState(lib, seed, adr, v, x);
    ImportLength(seed, adr, v, x);
    var s := After(lib, START, es);
    var s3, s4 := s.(round := Found(s.hs, [])), s.(hs := [TxState(x, true)], round := Ready([x]));
    var d := Discover([x], []);
    FindUnstored(lib, s, x);
    ConfirmUnstored(lib, s, x);
    CreditUnstored(lib, s4, x);
    InRound(lib, s3, s4);
    AnsweredRun(lib, es, s, d);
    AnsweredRun(lib, es + [d], s3, Confirm([true]));
    AnsweredRun(lib, es + [d] + [Confirm([true])], s4, Credit(true));
    assert es + [d] + [Confirm([true])] == all[..4];
    assert all[..4] + [Credit(true)] == all;
  }

  lemma InRound(lib: Library, s: State, t: State)
    requires s.round.Found? && t.round.Ready?
    ensures Enabled(s, Confirm([true])) && Answered(lib, s, Confirm([true]))
    ensures Enabled(t, Credit(true)) && Answered(lib, t, Credit(true))
  {
  }

  lemma ImportLength(seed: Seed, adr: Address, v: int, x: Hash)
    ensures |ImportRun(seed, adr, v, x)| == 2
  {
  }

  lemma AnsweredRun(lib: Library, es: seq<Event>, s: State, e: Event)
    requires ValidRun(lib, START, es) && AllAnswered(lib, START, es) && After(lib, START, es) == s
    requires Enabled(s, e) && Answered(lib, s, e)
    ensures ValidRun(lib, START, es + [e]) && AllAnswered(lib, START, es + [e])
    ensures After(lib, START, es + [e]) == Step(lib, s, e)
  {
    RunMore(lib, START, es, e);
    assert (es + [e])[..|es|] == es;
  }

  lemma NoneAnswered(lib: Library)
    ensures ValidRun(lib, START, []) && AllAnswered(lib, START, []) && After(lib, START, []) == START
  {
  }

  /** Returned by the confirmation, and posted by no step. */
  lemma MissingHistory(lib: Library, seed: Seed, adr: Address, v: int, x: Hash)
    requires lib.newAddress(seed, 0) == Some(adr)
    requires var es := MissingRun(seed, adr, v, x);
             && ValidRun(lib, START, es) && ValidRun(lib, START, es[..4])
             && After(lib, START, es[..4]).round == Ready([x]) && After(lib, START, es[..4]).txs == map[]
             && After(lib, START, es).round == Idle
    ensures Lost(After(lib, START, MissingRun(seed, adr, v, x)),
                 HistoryAfter(lib, START, NOTHING, MissingRun(seed, adr, v, x)), x)
  {
    var es := MissingRun(seed, adr, v, x);
    var s, h := After(lib, START, es[..4]), HistoryAfter(lib, START, NOTHING, es[..4]);
    StartFlags();
    RunKeepsFlags(lib, START, NOTHING, es[..4]);
    assert es[4] == Credit(true);
    assert es[..|es| - 1] == es[..4];
    assert Load(s.txs, [x]).None?;
    assert HistoryAfter(lib, START, NOTHING, es) == h;
    PostedSplit(h.credited, h.dirty, x);
  }

  // ---- a refresh between the two transactions of compareHashes ----

  /** The round stores the list it read before: of what the refresh has listed, only the hashes
      the round itself found stay on it. */
  lemma RefreshOverwritten(lib: Library, s: State, db: map<Key, Acct>, news: seq<Hash>, cached: Key, states: seq<bool>)
    requires s.round.Found? && s.round.hs == s.hs && Enabled(s, Refresh(db, news, cached))
    ensures var t := Step(lib, Step(lib, s, Refresh(db, news, cached)), Confirm(states));
            forall h :: h in news ==> (h in HashesOf(t.hs) <==> h in s.round.news)
  {
    var listed := s.hs + Unflagged(s.round.news);
    ListedHashes(s.hs, s.round.news);
    ConfirmedExtends(listed, states);
  }
}
