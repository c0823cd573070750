/** The wallet as a state machine.  Every step is one database transaction, or a failure
    between two of them, so handlers and notification rounds interleave freely. */
module Runs {
  import opened Gadk
  import opened Sums
  import opened Accounts
  import opened Transfers
  import opened Stores
  import opened Hashes
  import opened Ledger

  /** How far a notification round has come: nothing, transactions stored, flags stored. */
  datatype Round = Idle | Found(hs: seq<TxState>, news: seq<Hash>) | Ready(confirmed: seq<Hash>)

  datatype State = State(store: Store, hs: seq<TxState>, txs: TxBucket, round: Round)

  datatype Event =
    | NewAddress(name: string, seed: Seed)               // getnewaddress; the seed is used for a new account
    | Restore(seed: Seed, count: nat)                    // RestoreAddressesFromSeed, once the addresses are counted
    | SendFrom(name: string, total: int, signed: bool)   // send with an account name; signing may fail
    | SendAny(key: Key, total: int, signed: bool)        // send with "*", from a listed account
    | Lookup(adr: Address)                               // any handler that calls findAddress
    | Discover(input: seq<Hash>, reply: seq<Transaction>) // first transaction of compareHashes
    | Confirm(states: seq<bool>)                         // second transaction of compareHashes
    | Stop                                               // the round ends early
    | Credit(commits: bool)                              // third transaction, committed or rolled back late
    | Refresh(db: map<Key, Acct>, news: seq<Hash>, cached: Key) // RefreshAccount: the node's values, the hashes found
    | Update(reply: seq<Transaction>)                    // UpdateTXs
    | Restart                                            // the process ends, wherever it is, and starts again

  /** What the environment must respect: a round's input holds no hash twice, and the
      transactions of a round come in order.  A refresh changes values only, lists hashes
      that are new, and leaves the cache at a stored account. */
  ghost predicate Enabled(s: State, e: Event) {
    match e
    case SendAny(key, _, _) => key in s.store.db
    case Discover(input, _) => s.round.Idle? && Distinct(input)
    case Confirm(_) => s.round.Found?
    case Credit(_) => s.round.Ready?
    case Refresh(db, news, cached) =>
      && SameAccounts(s.store.db, db) && (s.store.cache.Some? ==> cached in db)
      && Distinct(news) && forall h :: h in news ==> h !in HashesOf(s.hs)
    case _ => true
  }

  /** If the step opens an account, no stored account has its seed.  getnewaddress draws the
      seed at random; importwallet takes any seed the caller gives. */
  ghost predicate SeedFresh(lib: Library, s: State, e: Event) {
    match e
    case NewAddress(name, seed) => Get(s.store, name).None? ==> UnusedSeed(lib, s.store.db, seed)
    case Restore(seed, count) =>
      Get(s.store, "").None? && FirstEntries(lib, seed, count).Some? ==> UnusedSeed(lib, s.store.db, seed)
    case _ => true
  }

  ghost function Source(s: Store, name: string, seed: Seed): Acct {
    var a := Get(s, name);
    if a.Some? then a.value else Acct(name, seed, [])
  }

  ghost function SpendStep(lib: Library, s: Store, a: Option<Acct>, total: int, signed: bool): Store {
    if a.None? || !signed || Spent(lib, a.value, total).None? then s
    else Put(s, Spent(lib, a.value, total).value)
  }

  ghost function Step(lib: Library, s: State, e: Event): State
    requires Enabled(s, e)
  {
    match e
    case NewAddress(name, seed) =>
      var a := Extended(lib, Source(s.store, name, seed));
      if a.None? then s else s.(store := Put(s.store, a.value))
    case Restore(seed, count) =>
      var bals := FirstEntries(lib, seed, count);
      if Get(s.store, "").Some? || bals.None? then s else s.(store := Put(s.store, Acct("", seed, bals.value)))
    case SendFrom(name, total, signed) =>
      s.(store := SpendStep(lib, s.store, Get(s.store, name), total, signed))
    case SendAny(key, total, signed) =>
      s.(store := SpendStep(lib, s.store, Some(s.store.db[key]), total, signed))
    case Lookup(adr) => s.(store := Touch(s.store, adr))
    case Discover(input, reply) =>
      s.(txs := PutAll(lib, s.txs, reply), round := Found(s.hs, News(s.hs, input)))
    case Confirm(states) =>
      var listed := s.round.hs + Unflagged(s.round.news);
      var after := Confirmed(listed, states);
      s.(hs := after, round := Ready(Flipped(listed, after)))
    case Stop => s.(round := Idle)
    case Credit(commits) =>
      var trs := Load(s.txs, s.round.confirmed);
      if trs.None? then s.(round := Idle)
      else
        var after := CreditAll(s.store, trs.value);
        s.(store := if commits then after else Store(s.store.db, after.cache), round := Idle)
    case Refresh(db, news, cached) =>
      s.(store := Store(db, if s.store.cache.None? then None else Some(db[cached])), hs := s.hs + Unflagged(news))
    case Update(reply) => s.(txs := PutAll(lib, s.txs, reply))
    case Restart => s.(store := s.store.(cache := None), round := Idle)
  }

  ghost function Cached(s: Store, name: string): bool {
    s.cache.Some? && s.cache.value.name == name
  }

  /** A record read from the bucket and written back replaces a cached one. */
  ghost function ListHistory(s: Store, h: History, a: Acct): History {
    if Cached(s, a.name) then h.(dirty := []) else h
  }

  /** A record read by name may be the cached one, which brings its dirty postings.  The name
      that is a single zero byte shares its key with the empty name, and misses the cache. */
  ghost function ReadHistory(s: Store, h: History, name: string): History {
    if Cached(s, name) then Absorb(h)
    else if Get(s, name).Some? then ListHistory(s, h, Get(s, name).value)
    else h
  }

  ghost function SpendHistory(lib: Library, a: Option<Acct>, h0: History, h: History, total: int, signed: bool): History
  {
    if a.None? || !signed || Spent(lib, a.value, total).None? then h0
    else h.(sent := h.sent + SpentFlows(a.value, total))
  }

  ghost function StepHistory(lib: Library, s: State, h: History, e: Event): History
    requires Enabled(s, e)
  {
    match e
    case NewAddress(name, seed) =>
      if Extended(lib, Source(s.store, name, seed)).None? then h else ReadHistory(s.store, h, name)
    case SendFrom(name, total, signed) =>
      SpendHistory(lib, Get(s.store, name), h, ReadHistory(s.store, h, name), total, signed)
    case SendAny(key, total, signed) =>
      var a := s.store.db[key];
      SpendHistory(lib, Some(a), h, ListHistory(s.store, h, a), total, signed)
    case Lookup(adr) =>
      if Hit(s.store, adr) || Find(s.store, adr).None? then h else h.(dirty := [])
    case Confirm(states) =>
      var listed := s.round.hs + Unflagged(s.round.news);
      h.(returned := h.returned + Flipped(listed, Confirmed(listed, states)))
    case Credit(commits) =>
      var trs := Load(s.txs, s.round.confirmed);
      if trs.None? then h
      else
        var after := PostAll(s.store, h, s.round.confirmed, trs.value);
        PostAllExtends(s.store, h, s.round.confirmed, trs.value);
        if commits then after else RolledBack(h, after, CreditAll(s.store, trs.value).cache)
    case Refresh(db, _, _) => h.(dirty := [], revised := h.revised + [Revision(s.store.db, db)])
    case Restart => h.(dirty := [])
    case _ => h
  }

  /** The empty wallet and the empty history. */
  const START := State(Store(map[], None), [], map[], Idle)
  const NOTHING := History([], [], [], [], [])

  ghost predicate ValidRun(lib: Library, s: State, es: seq<Event>)
    decreases |es|, 0
  {
    es == [] || (ValidRun(lib, s, es[..|es| - 1]) && Enabled(After(lib, s, es[..|es| - 1]), es[|es| - 1]))
  }

  ghost function After(lib: Library, s: State, es: seq<Event>): State
    requires ValidRun(lib, s, es)
    decreases |es|, 1
  {
    if es == [] then s else Step(lib, After(lib, s, es[..|es| - 1]), es[|es| - 1])
  }

  lemma RunNone(lib: Library, s: State)
    ensures ValidRun(lib, s, []) && After(lib, s, []) == s
  {
  }

  /** One more step on a run. */
  lemma RunMore(lib: Library, s: State, es: seq<Event>, e: Event)
    requires ValidRun(lib, s, es) && Enabled(After(lib, s, es), e)
    ensures ValidRun(lib, s, es + [e]) && After(lib, s, es + [e]) == Step(lib, After(lib, s, es), e)
  {
    assert (es + [e])[..|es|] == es;
  }

  ghost function HistoryAfter(lib: Library, s: State, h: History, es: seq<Event>): History
    requires ValidRun(lib, s, es)
  {
    if es == [] then h
    else
      var init := es[..|es| - 1];
      StepHistory(lib, After(lib, s, init), HistoryAfter(lib, s, h, init), es[|es| - 1])
  }

  // ---- the ledger over a step ----

  lemma SpendKeepsLedger(lib: Library, s: Store, h: History, a: Acct, total: int, t: Store, g: History)
    requires LedgerHolds(lib, t, g) && Settled(t, g, a) && Spent(lib, a, total).Some?
    requires forall b: Acct :: b.name == a.name ==> Put(t, b) == Put(s, b)
    ensures LedgerHolds(lib, Put(s, Spent(lib, a, total).value), g.(sent := g.sent + SpentFlows(a, total)))
  {
    SpendSettled(lib, t, g, a, total);
    assert Spent(lib, a, total).value.name == a.name;
  }

  lemma ListSettles(lib: Library, s: Store, h: History, key: Key) returns (t: Store)
    requires LedgerHolds(lib, s, h) && key in s.db
    ensures var a := s.db[key]; var g := ListHistory(s, h, a);
            && LedgerHolds(lib, t, g) && Settled(t, g, a)
            && forall b: Acct :: b.name == a.name ==> Put(t, b) == Put(s, b)
  {
    var a := s.db[key];
    if Cached(s, a.name) {
      ReplaceCache(lib, s, h, Some(a));
      t := s.(cache := Some(a));
    } else {
      t := s;
    }
  }

  /** Reading an account by name settles it, with the dirty postings of a cached record absorbed. */
  lemma ReadSettles(lib: Library, s: Store, h: History, name: string) returns (t: Store)
    requires LedgerHolds(lib, s, h) && Get(s, name).Some?
    ensures var a, g := Get(s, name).value, ReadHistory(s, h, name);
            && LedgerHolds(lib, t, g) && Settled(t, g, a)
            && forall b: Acct :: b.name == a.name ==> Put(t, b) == Put(s, b)
  {
    if Cached(s, name) {
      WriteBackHit(lib, s, h, s.cache.value);
      t := Put(s, s.cache.value);
    } else {
      t := ListSettles(lib, s, h, ToKey(name));
    }
  }

  lemma NewAddressKeepsLedger(lib: Library, s: Store, h: History, name: string, seed: Seed)
    requires LedgerHolds(lib, s, h)
    requires Get(s, name).None? ==> UnusedSeed(lib, s.db, seed)
    requires Extended(lib, Source(s, name, seed)).Some?
    ensures LedgerHolds(lib, Put(s, Extended(lib, Source(s, name, seed)).value), ReadHistory(s, h, name))
  {
    hide LedgerHolds, Settled;
    var a := Source(s, name, seed);
    if Get(s, name).Some? {
      var t := ReadSettles(lib, s, h, name);
      ExtendSettled(lib, t, ReadHistory(s, h, name), a);
      assert Extended(lib, a).value.name == a.name;
    } else {
      EmptyAccount(lib, s, h, name, seed);
      ExtendSettled(lib, Put(s, a), h, a);
      assert Put(Put(s, a), Extended(lib, a).value) == Put(s, Extended(lib, a).value);
    }
  }

  /** A restored account is a new one extended address by address. */
  lemma {:induction false} RestoreKeepsLedger(lib: Library, s: Store, h: History, seed: Seed, count: nat)
    requires LedgerHolds(lib, s, h) && ToKey("") !in s.db && UnusedSeed(lib, s.db, seed)
    requires FirstEntries(lib, seed, count).Some?
    ensures var a := Acct("", seed, FirstEntries(lib, seed, count).value);
            LedgerHolds(lib, Put(s, a), h) && Settled(Put(s, a), h, a)
  {
    hide LedgerHolds, Settled;
    if count == 0 {
      EmptyAccount(lib, s, h, "", seed);
    } else {
      RestoreKeepsLedger(lib, s, h, seed, count - 1);
      var a := Acct("", seed, FirstEntries(lib, seed, count - 1).value);
      ExtendSettled(lib, Put(s, a), h, a);
      var b := Extended(lib, a).value;
      assert b == Acct("", seed, FirstEntries(lib, seed, count).value);
      assert Put(Put(s, a), b) == Put(s, b);
      NewSettled(lib, s, h, b);
    }
  }

  lemma NewSettled(lib: Library, s: Store, h: History, a: Acct)
    requires LedgerHolds(lib, s, h) && ToKey(a.name) !in s.db
    ensures Settled(Put(s, a), h, a)
  {
  }

  /** Every step keeps the ledger, unless it opens an account with a seed in use. */
  lemma StepKeepsLedger(lib: Library, s: State, h: History, e: Event)
    requires LedgerHolds(lib, s.store, h) && Enabled(s, e) && SeedFresh(lib, s, e)
    ensures LedgerHolds(lib, Step(lib, s, e).store, StepHistory(lib, s, h, e))
  {
    hide LedgerHolds, Settled;
    match e
    case NewAddress(name, seed) =>
      if Extended(lib, Source(s.store, name, seed)).Some? {
        NewAddressKeepsLedger(lib, s.store, h, name, seed);
      }
    case Restore(seed, count) =>
      if Get(s.store, "").None? && FirstEntries(lib, seed, count).Some? {
        RestoreKeepsLedger(lib, s.store, h, seed, count);
      }
    case SendFrom(name, total, signed) =>
      var a := Get(s.store, name);
      if a.Some? && signed && Spent(lib, a.value, total).Some? {
        var t := ReadSettles(lib, s.store, h, name);
        SpendKeepsLedger(lib, s.store, h, a.value, total, t, ReadHistory(s.store, h, name));
      }
    case SendAny(key, total, signed) =>
      var a := s.store.db[key];
      if signed && Spent(lib, a, total).Some? {
        var t := ListSettles(lib, s.store, h, key);
        SpendKeepsLedger(lib, s.store, h, a, total, t, ListHistory(s.store, h, a));
      }
    case Lookup(adr) =>
      if !Hit(s.store, adr) && Find(s.store, adr).Some? {
        TouchMiss(lib, s.store, h, adr);
      }
    case Confirm(states) =>
      ReturnedIrrelevant(lib, s.store, h, StepHistory(lib, s, h, e));
    case Credit(commits) =>
      var trs := Load(s.txs, s.round.confirmed);
      if trs.Some? {
        if commits {
          LedgerCreditAll(lib, s.store, h, s.round.confirmed, trs.value);
        } else {
          LedgerRollback(lib, s.store, h, s.round.confirmed, trs.value);
        }
      }
    case Refresh(db, news, cached) =>
      LedgerRefresh(lib, s.store, h, db, if s.store.cache.None? then None else Some(db[cached]));
    case Restart => ReplaceCache(lib, s.store, h, None);
    case _ =>
  }

  lemma ReturnedIrrelevant(lib: Library, s: Store, h: History, g: History)
    requires LedgerHolds(lib, s, h) && g == h.(returned := g.returned)
    ensures LedgerHolds(lib, s, g)
  {
    assert forall adr :: Taken(g, adr) == Taken(h, adr) && Net(g, adr) == Net(h, adr);
  }

  // ---- the flags over a step ----

  /** The postings a record may hold: those stored and those only cached. */
  function Postings(h: History): seq<Posting> {
    h.credited + h.dirty
  }

  function PendingOf(r: Round): seq<Hash> {
    if r.Ready? then r.confirmed else []
  }

  /** No hash is posted twice, and everything posted has been returned as confirmed and is
      not waiting to be credited. */
  ghost predicate PostedOnce(h: History, pending: seq<Hash>) {
    && Distinct(PostedHashes(Postings(h)))
    && forall p :: p in Postings(h) ==> p.hash in h.returned && p.hash !in pending
  }

  ghost predicate RoundHolds(s: State, h: History) {
    match s.round
    case Idle => true
    case Found(hs, news) =>
      && hs <= s.hs && (forall t :: t in s.hs[|hs|..] ==> !t.confirmed)
      && Distinct(news) && forall x :: x in news ==> x !in HashesOf(hs)
    case Ready(confirmed) => Distinct(confirmed) && forall x :: x in confirmed ==> x in h.returned
  }

  ghost predicate FlagsHold(s: State, h: History) {
    && Distinct(HashesOf(s.hs))
    && Distinct(h.returned)
    && (forall x :: x in h.returned <==> TxState(x, true) in s.hs)
    && PostedOnce(h, PendingOf(s.round))
    && RoundHolds(s, h)
  }

  lemma PostedConcat(xs: seq<Posting>, ys: seq<Posting>)
    ensures Distinct(PostedHashes(xs + ys)) <==>
            Distinct(PostedHashes(xs)) && Distinct(PostedHashes(ys))
            && forall x, y :: x in xs && y in ys ==> x.hash != y.hash
  {
    assert PostedHashes(xs + ys) == PostedHashes(xs) + PostedHashes(ys);
    DistinctConcat(PostedHashes(xs), PostedHashes(ys));
    HashesPosted(xs);
    HashesPosted(ys);
    if Distinct(PostedHashes(xs + ys)) {
      forall x, y | x in xs && y in ys
        ensures x.hash != y.hash
      {
        assert x.hash in PostedHashes(xs) && y.hash in PostedHashes(ys);
      }
    }
    if forall x, y :: x in xs && y in ys ==> x.hash != y.hash {
      forall h | h in PostedHashes(xs)
        ensures h !in PostedHashes(ys)
      {
        var x :| x in xs && x.hash == h;
      }
    }
  }

  lemma HashesPosted(ps: seq<Posting>)
    ensures forall h :: h in PostedHashes(ps) <==> exists p :: p in ps && p.hash == h
  {
    forall p | p in ps
      ensures p.hash in PostedHashes(ps)
    {
      var i :| 0 <= i < |ps| && ps[i] == p;
      assert PostedHashes(ps)[i] == p.hash;
    }
  }

  /** Absorbing or dropping the dirty postings loses nothing that matters here. */
  lemma FewerPostings(h: History, g: History, pending: seq<Hash>)
    requires PostedOnce(h, pending) && g.returned == h.returned
    requires g.dirty == [] && (g.credited == h.credited || g.credited == h.credited + h.dirty)
    ensures PostedOnce(g, pending)
  {
    PostedConcat(h.credited, h.dirty);
    assert Postings(g) == g.credited;
  }

  lemma OneMorePosting(h: History, p: Posting)
    requires Distinct(PostedHashes(Postings(h))) && forall x :: x in Postings(h) ==> x.hash != p.hash
    ensures Distinct(PostedHashes(h.credited + h.dirty + [p])) && Distinct(PostedHashes(h.credited + [p]))
  {
    PostedConcat(h.credited, h.dirty);
    PostedConcat(h.credited + h.dirty, [p]);
    PostedConcat(h.credited, [p]);
  }

  /** The credit loop posts each hash of its list at most once. */
  lemma {:induction false} PostAllOnce(s: Store, h: History, hashes: seq<Hash>, trs: seq<Transaction>)
    requires |hashes| == |trs| && Distinct(hashes)
    requires Distinct(PostedHashes(Postings(h))) && forall p :: p in Postings(h) ==> p.hash !in hashes
    ensures var g := PostAll(s, h, hashes, trs);
            && Distinct(PostedHashes(Postings(g)))
            && forall p :: p in Postings(g) ==> p in Postings(h) || p.hash in hashes
  {
    if trs == [] {
    } else {
      var n := |trs| - 1;
      var g := PostAll(s, h, hashes[..n], trs[..n]);
      assert hashes == hashes[..n] + [hashes[n]];
      DistinctConcat(hashes[..n], [hashes[n]]);
      PostAllOnce(s, h, hashes[..n], trs[..n]);
      var p := Posting(hashes[n], trs[n].address, trs[n].value);
      OneMorePosting(g, p);
      assert g.credited + g.dirty + [p] + [] == g.credited + g.dirty + [p];
      assert g.credited + [p] + [] == g.credited + [p];
    }
  }

  lemma {:induction false} ConcerningOnce(ps: seq<Posting>, a: Acct)
    requires Distinct(PostedHashes(ps))
    ensures Distinct(PostedHashes(Concerning(ps, a)))
  {
    if ps == [] {
    } else {
      var init, p := ps[..|ps| - 1], ps[|ps| - 1];
      assert ps == init + [p] && Concerning(init, a) + [] == Concerning(init, a);
      PostedConcat(init, [p]);
      ConcerningOnce(init, a);
      ConcerningExact(init, a);
      PostedConcat(Concerning(init, a), [p]);
    }
  }

  lemma RollbackOnce(h: History, after: History, cache: Option<Acct>)
    requires h.credited <= after.credited && Distinct(PostedHashes(Postings(after)))
    ensures var g := RolledBack(h, after, cache);
            && Distinct(PostedHashes(Postings(g)))
            && forall p :: p in Postings(g) ==> p in Postings(after)
  {
    var more := after.credited[|h.credited|..];
    assert after.credited == h.credited + more;
    PostedConcat(after.credited, after.dirty);
    PostedConcat(h.credited, more);
    if cache.Some? {
      var mine := Concerning(more, cache.value);
      ConcerningOnce(more, cache.value);
      ConcerningExact(more, cache.value);
      PostedConcat(mine, after.dirty);
      PostedConcat(h.credited, mine + after.dirty);
    } else {
      assert h.credited + [] == h.credited;
    }
  }

  lemma CreditKeepsFlags(lib: Library, s: State, h: History, commits: bool)
    requires FlagsHold(s, h) && s.round.Ready?
    ensures FlagsHold(Step(lib, s, Credit(commits)), StepHistory(lib, s, h, Credit(commits)))
  {
    var hashes := s.round.confirmed;
    var trs := Load(s.txs, hashes);
    if trs.Some? {
      var after := PostAll(s.store, h, hashes, trs.value);
      PostAllExtends(s.store, h, hashes, trs.value);
      PostAllOnce(s.store, h, hashes, trs.value);
      if !commits {
        RollbackOnce(h, after, CreditAll(s.store, trs.value).cache);
      }
    }
  }

  lemma ConfirmKeepsFlags(lib: Library, s: State, h: History, states: seq<bool>)
    requires FlagsHold(s, h) && s.round.Found?
    ensures FlagsHold(Step(lib, s, Confirm(states)), StepHistory(lib, s, h, Confirm(states)))
  {
    var hs, news := s.round.hs, s.round.news;
    var listed := hs + Unflagged(news);
    var after := Confirmed(listed, states);
    PrefixDistinct(hs, s.hs);
    ListedHashes(hs, news);
    DistinctConcat(HashesOf(hs), news);
    ConfirmedExtends(listed, states);
    FlippedExact(listed, after);
    var f := Flipped(listed, after);
    forall x | x in f
      ensures TxState(x, true) in after && TxState(x, true) !in hs
    {
      FlagRaised(hs, listed, after, x);
    }
    forall x | x in h.returned
      ensures TxState(x, true) in after && TxState(x, true) in hs
    {
      FlagInPrefix(hs, s.hs, x);
      var p :| 0 <= p < |hs| && hs[p] == TxState(x, true);
      assert listed[p] == hs[p] && after[p] == TxState(x, true);
    }
    DistinctConcat(h.returned, f);
  }

  lemma PrefixDistinct(hs: seq<TxState>, more: seq<TxState>)
    requires hs <= more && Distinct(HashesOf(more))
    ensures Distinct(HashesOf(hs))
  {
    assert HashesOf(hs) == HashesOf(more)[..|hs|];
  }

  lemma FlagInPrefix(hs: seq<TxState>, more: seq<TxState>, x: Hash)
    requires hs <= more && (forall t :: t in more[|hs|..] ==> !t.confirmed) && TxState(x, true) in more
    ensures TxState(x, true) in hs
  {
    forall q | |hs| <= q < |more|
      ensures !more[q].confirmed
    {
      assert more[|hs|..][q - |hs|] == more[q];
    }
    var p :| 0 <= p < |more| && more[p] == TxState(x, true);
    assert hs[p] == more[p];
  }

  /** A refresh lists hashes behind those a round works on, unflagged. */
  lemma RefreshKeepsFlags(lib: Library, s: State, h: History, e: Event)
    requires FlagsHold(s, h) && e.Refresh? && Enabled(s, e)
    ensures FlagsHold(Step(lib, s, e), StepHistory(lib, s, h, e))
  {
    var g, hs := StepHistory(lib, s, h, e), s.hs + Unflagged(e.news);
    ListedHashes(s.hs, e.news);
    DistinctConcat(HashesOf(s.hs), e.news);
    FewerPostings(h, g.(revised := h.revised), PendingOf(s.round));
    if s.round.Found? {
      assert hs[|s.round.hs|..] == s.hs[|s.round.hs|..] + Unflagged(e.news);
    }
  }

  /** Every step keeps the flags: none goes down, and none is raised or posted twice. */
  lemma StepKeepsFlags(lib: Library, s: State, h: History, e: Event)
    requires FlagsHold(s, h) && Enabled(s, e)
    ensures FlagsHold(Step(lib, s, e), StepHistory(lib, s, h, e))
  {
    match e
    case Confirm(states) => ConfirmKeepsFlags(lib, s, h, states);
    case Credit(commits) => CreditKeepsFlags(lib, s, h, commits);
    case Discover(input, reply) => NewsExact(s.hs, input);
    case Stop =>
    case Refresh(_, _, _) => RefreshKeepsFlags(lib, s, h, e);
    case Restart => FewerPostings(h, h.(dirty := []), []);
    case _ => StoreStepKeepsFlags(lib, s, h, e);
  }

  /** Steps that touch accounts only. */
  lemma StoreStepKeepsFlags(lib: Library, s: State, h: History, e: Event)
    requires FlagsHold(s, h) && Enabled(s, e)
    requires e.NewAddress? || e.Restore? || e.SendFrom? || e.SendAny? || e.Lookup? || e.Update?
    ensures FlagsHold(Step(lib, s, e), StepHistory(lib, s, h, e))
  {
    var g, t := StepHistory(lib, s, h, e), Step(lib, s, e);
    assert t.hs == s.hs && t.round == s.round && g.returned == h.returned;
    assert g.credited == h.credited || (g.credited == h.credited + h.dirty && g.dirty == []);
    assert g.dirty == h.dirty || g.dirty == [];
    hide Step, StepHistory, Enabled;
    if g.dirty != h.dirty || g.credited != h.credited {
      FewerPostings(h, g.(sent := h.sent), PendingOf(s.round));
    }
  }

  /** Whatever the step, a record gains postings of the pending hashes only. */
  lemma StepPostsPending(lib: Library, s: State, h: History, e: Event)
    requires FlagsHold(s, h) && Enabled(s, e)
    ensures forall p :: p in Postings(StepHistory(lib, s, h, e)) ==> p in Postings(h) || p.hash in PendingOf(s.round)
  {
    if e.Credit? && Load(s.txs, s.round.confirmed).Some? {
      var hashes, trs := s.round.confirmed, Load(s.txs, s.round.confirmed).value;
      var after := PostAll(s.store, h, hashes, trs);
      PostAllExtends(s.store, h, hashes, trs);
      PostAllOnce(s.store, h, hashes, trs);
      if !e.commits {
        RollbackOnce(h, after, CreditAll(s.store, trs).cache);
      }
    }
  }

  // ---- whole runs ----

  ghost predicate Invariant(lib: Library, s: State, h: History) {
    LedgerHolds(lib, s.store, h) && FlagsHold(s, h)
  }

  lemma StartFlags()
    ensures FlagsHold(START, NOTHING)
  {
    assert PostedHashes(Postings(NOTHING)) == [];
  }

  lemma StartInvariant(lib: Library)
    requires Injective(lib)
    ensures Invariant(lib, START, NOTHING)
  {
    assert forall adr :: Taken(NOTHING, adr) == 0 && Raised(NOTHING, adr) == 0;
    StartFlags();
  }

  /** No step of the run opens an account with a seed that is in use. */
  ghost predicate SeedsFresh(lib: Library, s: State, es: seq<Event>)
    requires ValidRun(lib, s, es)
  {
    es == [] ||
    (SeedsFresh(lib, s, es[..|es| - 1]) && SeedFresh(lib, After(lib, s, es[..|es| - 1]), es[|es| - 1]))
  }

  /** Flags need no such condition. */
  lemma {:induction false} RunKeepsFlags(lib: Library, s0: State, h0: History, es: seq<Event>)
    requires FlagsHold(s0, h0) && ValidRun(lib, s0, es)
    ensures FlagsHold(After(lib, s0, es), HistoryAfter(lib, s0, h0, es))
  {
    if es == [] {
    } else {
      var init := es[..|es| - 1];
      RunKeepsFlags(lib, s0, h0, init);
      StepKeepsFlags(lib, After(lib, s0, init), HistoryAfter(lib, s0, h0, init), es[|es| - 1]);
    }
  }

  lemma {:induction false} RunKeepsInvariant(lib: Library, s0: State, h0: History, es: seq<Event>)
    requires Invariant(lib, s0, h0) && ValidRun(lib, s0, es) && SeedsFresh(lib, s0, es)
    ensures Invariant(lib, After(lib, s0, es), HistoryAfter(lib, s0, h0, es))
  {
    if es == [] {
    } else {
      var init, e := es[..|es| - 1], es[|es| - 1];
      RunKeepsInvariant(lib, s0, h0, init);
      var s, h := After(lib, s0, init), HistoryAfter(lib, s0, h0, init);
      StepKeepsLedger(lib, s, h, e);
      StepKeepsFlags(lib, s, h, e);
    }
  }

  lemma Reachable(lib: Library, es: seq<Event>)
    requires Injective(lib) && ValidRun(lib, START, es) && SeedsFresh(lib, START, es)
    ensures Invariant(lib, After(lib, START, es), HistoryAfter(lib, START, NOTHING, es))
  {
    StartInvariant(lib);
    RunKeepsInvariant(lib, START, NOTHING, es);
  }

  /** No step of the run is a refresh. */
  predicate Unrefreshed(es: seq<Event>) {
    forall e :: e in es ==> !e.Refresh?
  }

  lemma {:induction false} UnrefreshedHistory(lib: Library, s: State, h: History, es: seq<Event>)
    requires ValidRun(lib, s, es) && Unrefreshed(es)
    ensures HistoryAfter(lib, s, h, es).revised == h.revised
  {
    if es == [] {
    } else {
      var n := |es| - 1;
      UnrefreshedHistory(lib, s, h, es[..n]);
      assert es[n] in es;
      StepRevises(lib, After(lib, s, es[..n]), HistoryAfter(lib, s, h, es[..n]), es[n]);
    }
  }

  lemma StepRevises(lib: Library, s: State, h: History, e: Event)
    requires Enabled(s, e) && !e.Refresh?
    ensures StepHistory(lib, s, h, e).revised == h.revised
  {
    if e.Credit? && Load(s.txs, s.round.confirmed).Some? {
      PostAllExtends(s.store, h, s.round.confirmed, Load(s.txs, s.round.confirmed).value);
    }
  }

  /** The ledger equation, over every run: a stored value is what has been credited at its
      address less what Send has taken there and plus what refreshes have changed, with no
      hash credited twice. */
  lemma LedgerOverEveryRun(lib: Library, es: seq<Event>, k: Key, i: nat)
    requires Injective(lib) && ValidRun(lib, START, es) && SeedsFresh(lib, START, es)
    requires k in After(lib, START, es).store.db && i < |After(lib, START, es).store.db[k].bals|
    ensures var b, h := After(lib, START, es).store.db[k].bals[i], HistoryAfter(lib, START, NOTHING, es);
            && b.value == SumBy(h.credited, PostedAt(b.address)) - Taken(h, b.address) + Revised(h, b.address)
            && (Unrefreshed(es) ==> Revised(h, b.address) == 0)
            && Distinct(PostedHashes(h.credited))
            && forall p :: p in h.credited ==> p.hash in h.returned
  {
    Reachable(lib, es);
    var h := HistoryAfter(lib, START, NOTHING, es);
    PostedConcat(h.credited, h.dirty);
    if Unrefreshed(es) {
      UnrefreshedHistory(lib, START, NOTHING, es);
    }
  }

  /** Funds are never spent twice: over every run Send takes from an address at most what
      positive confirmed values, and refreshes that raised the value, have brought there. */
  lemma NeverSpentTwice(lib: Library, es: seq<Event>, adr: Address)
    requires Injective(lib) && ValidRun(lib, START, es) && SeedsFresh(lib, START, es)
    ensures var h := HistoryAfter(lib, START, NOTHING, es);
            && Taken(h, adr) <= SumBy(h.credited, GainAt(adr)) + Raised(h, adr)
            && (Unrefreshed(es) ==> Raised(h, adr) == 0)
  {
    Reachable(lib, es);
    if Unrefreshed(es) {
      UnrefreshedHistory(lib, START, NOTHING, es);
    }
  }

  /** Over every run each hash is returned as confirmed at most once, and stays flagged. */
  lemma ReturnedOnce(lib: Library, es: seq<Event>)
    requires ValidRun(lib, START, es)
    ensures var s, h := After(lib, START, es), HistoryAfter(lib, START, NOTHING, es);
            && Distinct(h.returned) && Distinct(HashesOf(s.hs))
            && forall x :: x in h.returned <==> TxState(x, true) in s.hs
  {
    StartFlags();
    RunKeepsFlags(lib, START, NOTHING, es);
  }

  // ---- the cache over runs ----

  /** A rollback after the credit loop that the cached record does not show. */
  ghost predicate Benign(s: State, e: Event)
    requires Enabled(s, e)
  {
    if e == Credit(false) && Load(s.txs, s.round.confirmed).Some? then
      var trs := Load(s.txs, s.round.confirmed).value;
      var k := LastCredited(s.store.db, trs);
      k.Some? ==> Unmoved(s.store.db[k.value], trs)
    else true
  }

  /** Writing a record under the name it was read by, or a new one, keeps the cache equal. */
  lemma PutAgrees(lib: Library, s: Store, a: Acct)
    requires Valid(lib, s) && Agrees(s)
    requires ToKey(a.name) in s.db ==> s.db[ToKey(a.name)].name == a.name
    ensures Agrees(Put(s, a))
  {
  }

  lemma SourceNamed(lib: Library, s: Store, name: string, seed: Seed)
    requires Valid(lib, s) && Agrees(s)
    ensures var a := Source(s, name, seed); ToKey(a.name) in s.db ==> s.db[ToKey(a.name)].name == a.name
  {
  }

  /** A step keeps the cache equal to the stored record exactly when it is not a rollback that
      moved the account credited last. */
  lemma StepAgreesIff(lib: Library, s: State, e: Event)
    requires Valid(lib, s.store) && Agrees(s.store) && Enabled(s, e)
    ensures Agrees(Step(lib, s, e).store) <==> Benign(s, e)
  {
    match e
    case NewAddress(name, seed) =>
      SourceNamed(lib, s.store, name, seed);
      if Extended(lib, Source(s.store, name, seed)).Some? {
        PutAgrees(lib, s.store, Extended(lib, Source(s.store, name, seed)).value);
      }
    case Restore(seed, count) =>
      if Get(s.store, "").None? && FirstEntries(lib, seed, count).Some? {
        PutAgrees(lib, s.store, Acct("", seed, FirstEntries(lib, seed, count).value));
      }
    case SendFrom(name, total, signed) =>
      SourceNamed(lib, s.store, name, []);
      SpendAgrees(lib, s.store, Get(s.store, name), total, signed);
    case SendAny(key, total, signed) =>
      SpendAgrees(lib, s.store, Some(s.store.db[key]), total, signed);
    case Lookup(adr) => CacheInvisible(lib, s.store, adr, "");
    case Credit(commits) =>
      var trs := Load(s.txs, s.round.confirmed);
      hide Valid, Agrees;
      if trs.Some? {
        if commits {
          CreditAllValid(lib, s.store, trs.value);
        } else {
          RollbackAgreesIff(lib, s.store, trs.value);
        }
      }
    case _ =>
  }

  lemma SpendAgrees(lib: Library, s: Store, a: Option<Acct>, total: int, signed: bool)
    requires Valid(lib, s) && Agrees(s)
    requires a.Some? && ToKey(a.value.name) in s.db ==> s.db[ToKey(a.value.name)].name == a.value.name
    ensures Agrees(SpendStep(lib, s, a, total, signed))
  {
    if a.Some? && signed && Spent(lib, a.value, total).Some? {
      PutAgrees(lib, s, Spent(lib, a.value, total).value);
    }
  }

  // ---- negative values ----

  /** What the step credits to an address. */
  ghost function CreditTo(s: State, e: Event, adr: Address): int
    requires Enabled(s, e)
  {
    if e == Credit(true) && Load(s.txs, s.round.confirmed).Some?
    then SumBy(Load(s.txs, s.round.confirmed).value, To(adr))
    else 0
  }

  lemma SpentSigns(lib: Library, a: Acct, total: int, i: nat)
    requires Spent(lib, a, total).Some? && i < |a.bals|
    ensures var b := Spent(lib, a, total).value;
            |a.bals| <= |b.bals| && (b.bals[i].value < 0 <==> a.bals[i].value < 0)
            && forall j :: |a.bals| <= j < |b.bals| ==> b.bals[j].value == 0
  {
  }

  /** On an agreeing store a step other than a refresh leaves an entry negative if and only if its
      value plus what the step credits to its address is negative: sending and handing out
      addresses never make a value negative, confirming what was sent does. */
  lemma NegativeIff(lib: Library, s: State, e: Event, k: Key, i: nat)
    requires Valid(lib, s.store) && Agrees(s.store) && Enabled(s, e) && !e.Refresh?
    requires k in s.store.db && i < |s.store.db[k].bals|
    ensures var b, db := s.store.db[k].bals[i], Step(lib, s, e).store.db;
            && k in db && i < |db[k].bals| && db[k].bals[i].address == b.address
            && (db[k].bals[i].value < 0 <==> b.value + CreditTo(s, e, b.address) < 0)
  {
    hide Valid, Agrees, SpendStep, CreditAll;
    match e
    case NewAddress(name, seed) =>
      if Extended(lib, Source(s.store, name, seed)).Some? {
        ExtendSigns(lib, s.store, name, seed, k, i);
      }
    case Restore(seed, count) =>
      if Get(s.store, "").None? {
        RestoreElsewhere(s.store, k);
      }
    case SendFrom(name, total, signed) =>
      GetStored(lib, s.store, name);
      SendSigns(lib, s.store, Get(s.store, name), total, signed, k, i);
    case SendAny(key, total, signed) =>
      KeysMatch(lib, s.store, key);
      SendSigns(lib, s.store, Some(s.store.db[key]), total, signed, k, i);
    case Credit(commits) =>
      if Load(s.txs, s.round.confirmed).Some? {
        CreditAllDirect(lib, s.store, Load(s.txs, s.round.confirmed).value);
      }
    case _ =>
  }

  lemma RestoreElsewhere(s: Store, k: Key)
    requires k in s.db && Get(s, "").None?
    ensures forall a: Acct :: a.name == "" ==> k in Put(s, a).db && Put(s, a).db[k] == s.db[k]
  {
  }

  lemma KeysMatch(lib: Library, s: Store, k: Key)
    requires Valid(lib, s) && k in s.db
    ensures ToKey(s.db[k].name) == k
  {
  }

  /** On an agreeing store an account read by name is the stored one. */
  lemma GetStored(lib: Library, s: Store, name: string)
    requires Valid(lib, s) && Agrees(s)
    ensures var a := Get(s, name); a.Some? ==> ToKey(a.value.name) in s.db && s.db[ToKey(a.value.name)] == a.value
    ensures Get(s, name).None? ==> ToKey(name) !in s.db
  {
    CacheInvisible(lib, s, "", name);
  }

  lemma ExtendSigns(lib: Library, s: Store, name: string, seed: Seed, k: Key, i: nat)
    requires Valid(lib, s) && Agrees(s) && k in s.db && i < |s.db[k].bals|
    requires Extended(lib, Source(s, name, seed)).Some?
    ensures var db := Put(s, Extended(lib, Source(s, name, seed)).value).db;
            k in db && i < |db[k].bals| && db[k].bals[i] == s.db[k].bals[i]
  {
    GetStored(lib, s, name);
    hide Valid, Agrees, Get;
  }

  lemma SendSigns(lib: Library, s: Store, a: Option<Acct>, total: int, signed: bool, k: Key, i: nat)
    requires Valid(lib, s) && k in s.db && i < |s.db[k].bals|
    requires a.Some? ==> ToKey(a.value.name) in s.db && s.db[ToKey(a.value.name)] == a.value
    ensures var b, db := s.db[k].bals[i], SpendStep(lib, s, a, total, signed).db;
            && k in db && i < |db[k].bals| && db[k].bals[i].address == b.address
            && (db[k].bals[i].value < 0 <==> b.value < 0)
  {
    if a.Some? && signed && Spent(lib, a.value, total).Some? && k == ToKey(a.value.name) {
      SpentSigns(lib, a.value, total, i);
      SpentAligned(lib, a.value, total);
    }
  }

  ghost predicate AllBenign(lib: Library, s: State, es: seq<Event>)
    requires ValidRun(lib, s, es)
  {
    es == [] || (AllBenign(lib, s, es[..|es| - 1]) && Benign(After(lib, s, es[..|es| - 1]), es[|es| - 1]))
  }

  /** Over every run whose rollbacks are benign the cache is invisible. */
  lemma {:induction false} CacheAgreesOverRuns(lib: Library, es: seq<Event>)
    requires Injective(lib) && ValidRun(lib, START, es) && SeedsFresh(lib, START, es) && AllBenign(lib, START, es)
    ensures Agrees(After(lib, START, es).store)
  {
    if es == [] {
    } else {
      var init := es[..|es| - 1];
      CacheAgreesOverRuns(lib, init);
      Reachable(lib, init);
      StepAgreesIff(lib, After(lib, START, init), es[|es| - 1]);
    }
  }
}
