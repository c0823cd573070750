/** Who owns an address.  importwallet takes any seed, also one that a stored account already
    has; from then on two accounts may hold the same address, and both may spend it. */
module Seeds {
  import opened Gadk
  import opened Sums
  import opened Accounts
  import opened Transfers
  import opened Stores
  import opened Hashes
  import opened Ledger
  import opened Runs

  ghost predicate OneOwner(db: map<Key, Acct>) {
    forall k, l, adr :: k in db && l in db && Has(db[k], adr) && Has(db[l], adr) ==> k == l
  }

  lemma ValidOneOwner(lib: Library, s: Store)
    requires Valid(lib, s)
    ensures OneOwner(s.db)
  {
    forall k, l, adr | k in s.db && l in s.db && Has(s.db[k], adr) && Has(s.db[l], adr)
      ensures k == l
    {
      OwnerUnique(lib, s.db, k, adr);
      OwnerUnique(lib, s.db, l, adr);
    }
  }

  /** Two stored accounts have the seed. */
  ghost predicate Shared(lib: Library, db: map<Key, Acct>, k: Key, l: Key) {
    && k in db && l in db && k != l && db[k].seed == db[l].seed
    && ToKey(db[k].name) == k && ToKey(db[l].name) == l
    && Aligned(lib, db[k].seed, db[k].bals) && Aligned(lib, db[l].seed, db[l].bals)
  }

  /** A step that opens an account with a used seed leaves the seed with two accounts. */
  lemma OpensShared(lib: Library, s: State, e: Event) returns (k: Key, l: Key)
    requires Valid(lib, s.store) && Enabled(s, e) && !SeedFresh(lib, s, e)
    ensures var db := Step(lib, s, e).store.db; Shared(lib, db, k, l) && lib.newAddress(db[k].seed, 0).Some?
  {
    var name, seed := if e.NewAddress? then e.name else "", e.seed;
    l := ToKey(name);
    k :| k in s.store.db && s.store.db[k].seed == seed;
    match e
    case NewAddress(_, _) =>
      assert Source(s.store, name, seed) == Acct(name, seed, []);
      assert Extended(lib, Acct(name, seed, [])).Some?;
    case Restore(_, count) =>
      FirstEntriesAligned(lib, seed, count);
  }

  /** On an uncached store getnewaddress gives an account its first address, if it has none. */
  lemma HasFirst(lib: Library, s: State, k: Key, adr: Address)
    requires s.store.cache.None? && k in s.store.db
    requires var a := s.store.db[k];
             ToKey(a.name) == k && Aligned(lib, a.seed, a.bals) && lib.newAddress(a.seed, 0) == Some(adr)
    ensures var e := NewAddress(s.store.db[k].name, []);
            var t := Step(lib, s, e);
            && Enabled(s, e) && SeedFresh(lib, s, e) && t.store.cache.None?
            && t.store.db.Keys == s.store.db.Keys && Has(t.store.db[k], adr)
            && forall l :: l in s.store.db && l != k ==> t.store.db[l] == s.store.db[l]
  {
    var a := s.store.db[k];
    var b := Step(lib, s, NewAddress(a.name, [])).store.db[k];
    assert a.bals <= b.bals && |b.bals| > 0;
    assert b.bals[0].address == adr by {
      if a.bals != [] {
        assert lib.newAddress(a.seed, 0) == Some(a.bals[0].address);
      }
    }
  }

  lemma SharedCollides(lib: Library, s: State, k: Key, l: Key) returns (es: seq<Event>)
    requires Shared(lib, s.store.db, k, l) && lib.newAddress(s.store.db[k].seed, 0).Some?
    ensures ValidRun(lib, s, es) && SeedsFresh(lib, s, es) && !OneOwner(After(lib, s, es).store.db)
  {
    var x, y := s.store.db[k].name, s.store.db[l].name;
    var adr := lib.newAddress(s.store.db[k].seed, 0).value;
    es := [Restart];
    RunStep(lib, s, [], Restart);
    var s1 := Step(lib, s, Restart);
    HasFirst(lib, s1, k, adr);
    RunStep(lib, s, es, NewAddress(x, []));
    var s2 := Step(lib, s1, NewAddress(x, []));
    es := es + [NewAddress(x, [])];
    HasFirst(lib, s2, l, adr);
    RunStep(lib, s, es, NewAddress(y, []));
    es := es + [NewAddress(y, [])];
  }

  lemma RunStep(lib: Library, s: State, es: seq<Event>, e: Event)
    requires ValidRun(lib, s, es) && SeedsFresh(lib, s, es)
    requires Enabled(After(lib, s, es), e) && SeedFresh(lib, After(lib, s, es), e)
    ensures ValidRun(lib, s, es + [e]) && SeedsFresh(lib, s, es + [e])
    ensures After(lib, s, es + [e]) == Step(lib, After(lib, s, es), e)
  {
    RunMore(lib, s, es, e);
    assert (es + [e])[..|es|] == es;
  }

  /** The exact condition under which addresses keep one owner: a step leaves one owner per
      address, at once and in every continuation that opens accounts with fresh seeds only, if
      and only if the step itself opens no account with a seed in use. */
  lemma OneOwnerIff(lib: Library, s: State, h: History, e: Event)
    requires Invariant(lib, s, h) && Enabled(s, e)
    ensures SeedFresh(lib, s, e) <==>
            forall es :: ValidRun(lib, Step(lib, s, e), es) && SeedsFresh(lib, Step(lib, s, e), es) ==>
              OneOwner(After(lib, Step(lib, s, e), es).store.db)
  {
    var t := Step(lib, s, e);
    if SeedFresh(lib, s, e) {
      StepKeepsLedger(lib, s, h, e);
      StepKeepsFlags(lib, s, h, e);
      forall es | ValidRun(lib, t, es) && SeedsFresh(lib, t, es)
        ensures OneOwner(After(lib, t, es).store.db)
      {
        RunKeepsInvariant(lib, t, StepHistory(lib, s, h, e), es);
        ValidOneOwner(lib, After(lib, t, es).store);
      }
    } else {
      var k, l := OpensShared(lib, s, e);
      var es := SharedCollides(lib, t, k, l);
    }
  }

  // ---- over whole runs ----

  lemma TouchSound(lib: Library, s: Store, adr: Address)
    requires Sound(lib, s)
    ensures Sound(lib, Touch(s, adr)) && Touch(s, adr).db == s.db
    ensures Find(s, adr).Some? ==> ValidCache(s.db, Find(s, adr).value) && Has(Find(s, adr).value, adr)
  {
  }

  lemma CachedAligned(lib: Library, s: Store, a: Acct)
    requires Sound(lib, s) && ValidCache(s.db, a)
    ensures Aligned(lib, a.seed, a.bals)
  {
    AlignedSame(lib, a.seed, s.db[ToKey(a.name)].bals, a.bals);
  }

  lemma CreditOneSound(lib: Library, s: Store, t: Transaction)
    requires Sound(lib, s)
    ensures Sound(lib, CreditOne(s, t)) && SameAccounts(s.db, CreditOne(s, t).db)
  {
    TouchSound(lib, s, t.address);
    var found := Find(s, t.address);
    if t.value != 0 && found.Some? {
      var a := Credited(found.value, t.address, t.value);
      CachedAligned(lib, s, found.value);
      CreditedSame(found.value, t.address, t.value);
      AlignedSame(lib, a.seed, found.value.bals, a.bals);
      PutSound(lib, Touch(s, t.address), a);
    }
  }

  lemma {:induction false} CreditAllSound(lib: Library, s: Store, trs: seq<Transaction>)
    requires Sound(lib, s)
    ensures Sound(lib, CreditAll(s, trs)) && SameAccounts(s.db, CreditAll(s, trs).db)
  {
    if trs == [] {
    } else {
      var init := trs[..|trs| - 1];
      CreditAllSound(lib, s, init);
      CreditOneSound(lib, CreditAll(s, init), trs[|trs| - 1]);
      SameAccountsTransitive(s.db, CreditAll(s, init).db, CreditAll(s, trs).db);
    }
  }

  lemma RollbackSound(lib: Library, s: Store, c: Store)
    requires Sound(lib, s) && Sound(lib, c) && SameAccounts(s.db, c.db)
    ensures Sound(lib, Store(s.db, c.cache))
  {
  }

  /** No account leaves the bucket or changes its seed. */
  ghost predicate SeedsStay(x: map<Key, Acct>, y: map<Key, Acct>) {
    forall k :: k in x ==> k in y && y[k].seed == x[k].seed
  }

  /** A record read by name or from the list is about a stored account. */
  lemma GetSound(lib: Library, s: Store, name: string)
    requires Sound(lib, s) && Get(s, name).Some?
    ensures ValidCache(s.db, Get(s, name).value)
  {
  }

  lemma SpendSound(lib: Library, s: Store, a: Option<Acct>, total: int, signed: bool)
    requires Sound(lib, s) && (a.Some? ==> ValidCache(s.db, a.value))
    ensures var t := SpendStep(lib, s, a, total, signed); Sound(lib, t) && SeedsStay(s.db, t.db)
  {
    if a.Some? && signed && Spent(lib, a.value, total).Some? {
      CachedAligned(lib, s, a.value);
      SpentAligned(lib, a.value, total);
      PutSound(lib, s, Spent(lib, a.value, total).value);
    }
  }

  lemma ExtendSound(lib: Library, s: Store, name: string, seed: Seed)
    requires Sound(lib, s) && Extended(lib, Source(s, name, seed)).Some?
    ensures var t := Put(s, Extended(lib, Source(s, name, seed)).value); Sound(lib, t) && SeedsStay(s.db, t.db)
  {
    if Get(s, name).Some? {
      GetSound(lib, s, name);
      CachedAligned(lib, s, Get(s, name).value);
    }
    PutSound(lib, s, Extended(lib, Source(s, name, seed)).value);
  }

  lemma RestoreSound(lib: Library, s: Store, seed: Seed, count: nat)
    requires Sound(lib, s) && Get(s, "").None? && FirstEntries(lib, seed, count).Some?
    ensures var t := Put(s, Acct("", seed, FirstEntries(lib, seed, count).value));
            Sound(lib, t) && SeedsStay(s.db, t.db)
  {
    FirstEntriesAligned(lib, seed, count);
    PutSound(lib, s, Acct("", seed, FirstEntries(lib, seed, count).value));
  }

  lemma RefreshSound(lib: Library, s: State, e: Event)
    requires Sound(lib, s.store) && e.Refresh? && Enabled(s, e)
    ensures Sound(lib, Step(lib, s, e).store)
  {
    forall k | k in e.db
      ensures ToKey(e.db[k].name) == k && Aligned(lib, e.db[k].seed, e.db[k].bals)
    {
      AlignedSame(lib, s.store.db[k].seed, s.store.db[k].bals, e.db[k].bals);
    }
  }

  lemma StepKeepsSound(lib: Library, s: State, e: Event)
    requires Sound(lib, s.store) && Enabled(s, e)
    ensures Sound(lib, Step(lib, s, e).store) && SeedsStay(s.store.db, Step(lib, s, e).store.db)
  {
    hide Sound, Get, Find, Extended, FirstEntries, CreditAll;
    match e
    case NewAddress(name, seed) =>
      if Extended(lib, Source(s.store, name, seed)).Some? {
        ExtendSound(lib, s.store, name, seed);
      }
    case Restore(seed, count) =>
      if Get(s.store, "").None? && FirstEntries(lib, seed, count).Some? {
        RestoreSound(lib, s.store, seed, count);
      }
    case SendFrom(name, total, signed) =>
      if Get(s.store, name).Some? {
        GetSound(lib, s.store, name);
      }
      SpendSound(lib, s.store, Get(s.store, name), total, signed);
    case SendAny(key, total, signed) =>
      ListSound(lib, s.store, key);
      SpendSound(lib, s.store, Some(s.store.db[key]), total, signed);
    case Lookup(adr) => TouchSound(lib, s.store, adr);
    case Credit(commits) =>
      var trs := Load(s.txs, s.round.confirmed);
      if trs.Some? {
        CreditAllSound(lib, s.store, trs.value);
        RollbackSound(lib, s.store, CreditAll(s.store, trs.value));
      }
    case Refresh(_, _, _) => RefreshSound(lib, s, e);
    case Restart => DroppedSound(lib, s.store);
    case _ =>
  }

  lemma ListSound(lib: Library, s: Store, k: Key)
    requires Sound(lib, s) && k in s.db
    ensures ValidCache(s.db, s.db[k])
  {
  }

  lemma DroppedSound(lib: Library, s: Store)
    requires Sound(lib, s)
    ensures Sound(lib, s.(cache := None))
  {
  }

  lemma {:induction false} RunKeepsSound(lib: Library, s: State, es: seq<Event>)
    requires Sound(lib, s.store) && ValidRun(lib, s, es)
    ensures Sound(lib, After(lib, s, es).store) && SeedsStay(s.store.db, After(lib, s, es).store.db)
  {
    if es == [] {
    } else {
      var n := |es| - 1;
      RunKeepsSound(lib, s, es[..n]);
      hide Sound, Step;
      StepKeepsSound(lib, After(lib, s, es[..n]), es[n]);
    }
  }

  /** In every reachable state entry i of every account is address i of its seed, whatever was
      imported. */
  lemma AlwaysAligned(lib: Library, es: seq<Event>, k: Key)
    requires Injective(lib) && ValidRun(lib, START, es) && k in After(lib, START, es).store.db
    ensures var a := After(lib, START, es).store.db[k]; Aligned(lib, a.seed, a.bals)
  {
    RunKeepsSound(lib, START, es);
  }

  /** A run that opens an account with a used seed leaves the seed with two accounts for good. */
  lemma {:induction false} NotFreshShared(lib: Library, es: seq<Event>) returns (k: Key, l: Key)
    requires Injective(lib) && ValidRun(lib, START, es) && !SeedsFresh(lib, START, es)
    ensures var db := After(lib, START, es).store.db; Shared(lib, db, k, l) && lib.newAddress(db[k].seed, 0).Some?
  {
    assert es != [];
    var n := |es| - 1;
    var s, e := After(lib, START, es[..n]), es[n];
    if SeedsFresh(lib, START, es[..n]) {
      Reachable(lib, es[..n]);
      k, l := OpensShared(lib, s, e);
    } else {
      k, l := NotFreshShared(lib, es[..n]);
      RunKeepsSound(lib, START, es[..n]);
      StepKeepsSound(lib, s, e);
      SharedStays(lib, s.store, Step(lib, s, e).store, k, l);
    }
  }

  lemma SharedStays(lib: Library, s: Store, t: Store, k: Key, l: Key)
    requires Shared(lib, s.db, k, l) && Sound(lib, t) && SeedsStay(s.db, t.db)
    ensures Shared(lib, t.db, k, l) && t.db[k].seed == s.db[k].seed
  {
  }

  /** The exact condition over runs: accounts share no address, at the end of the run and in every
      continuation that opens accounts with fresh seeds only, if and only if the run itself has
      opened no account with a seed in use. */
  lemma OneOwnerOverRuns(lib: Library, es: seq<Event>)
    requires Injective(lib) && ValidRun(lib, START, es)
    ensures var s := After(lib, START, es);
            SeedsFresh(lib, START, es) <==>
            forall fs :: ValidRun(lib, s, fs) && SeedsFresh(lib, s, fs) ==> OneOwner(After(lib, s, fs).store.db)
  {
    var s, h := After(lib, START, es), HistoryAfter(lib, START, NOTHING, es);
    if SeedsFresh(lib, START, es) {
      Reachable(lib, es);
      forall fs | ValidRun(lib, s, fs) && SeedsFresh(lib, s, fs)
        ensures OneOwner(After(lib, s, fs).store.db)
      {
        RunKeepsInvariant(lib, s, h, fs);
        ValidOneOwner(lib, After(lib, s, fs).store);
      }
    } else {
      var k, l := NotFreshShared(lib, es);
      var fs := SharedCollides(lib, s, k, l);
    }
  }
}
