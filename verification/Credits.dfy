/** Which confirmed transactions are credited, exactly, over every run: a round can end after
    its flags are stored, and a late rollback leaves its credits in the cached record only. */
module Credits {
  import opened Gadk
  import opened Sums
  import opened Accounts
  import opened Transfers
  import opened Stores
  import opened Hashes
  import opened Ledger
  import opened Runs

  // ---- what the credit loop posts ----

  /** The transaction moves tokens at an address of the wallet. */
  ghost predicate Effective(db: map<Key, Acct>, t: Transaction) {
    t.value != 0 && Owner(db, t.address).Some?
  }

  ghost predicate AnyEffective(db: map<Key, Acct>, trs: seq<Transaction>) {
    exists t :: t in trs && Effective(db, t)
  }

  /** The first transaction that credits anything does so in the cached record. */
  ghost predicate HitsFirst(s: Store, trs: seq<Transaction>) {
    trs != [] &&
    var init, t := trs[..|trs| - 1], trs[|trs| - 1];
    HitsFirst(s, init) || (!AnyEffective(s.db, init) && Effective(s.db, t) && Hit(s, t.address))
  }

  /** The postings of the transactions that credit anything, in order. */
  ghost function Effects(db: map<Key, Acct>, hashes: seq<Hash>, trs: seq<Transaction>): seq<Posting>
    requires |hashes| == |trs|
  {
    if trs == [] then []
    else
      var n := |trs| - 1;
      var t := trs[n];
      Effects(db, hashes[..n], trs[..n]) +
      if Effective(db, t) then [Posting(hashes[n], t.address, t.value)] else []
  }

  lemma FindIffOwned(lib: Library, s: Store, adr: Address)
    requires Valid(lib, s)
    ensures Find(s, adr).Some? <==> Owner(s.db, adr).Some?
  {
    if s.cache.Some? && Has(s.cache.value, adr) {
      var k := ToKey(s.cache.value.name);
      IndexOfSame(s.db[k].bals, s.cache.value.bals, adr);
      OwnerUnique(lib, s.db, k, adr);
    }
  }

  lemma AnyEffectiveMore(db: map<Key, Acct>, trs: seq<Transaction>)
    requires trs != []
    ensures var n := |trs| - 1;
            AnyEffective(db, trs) <==> AnyEffective(db, trs[..n]) || Effective(db, trs[n])
  {
    var n := |trs| - 1;
    assert trs == trs[..n] + [trs[n]];
  }

  /** A transaction credits in the middle of the loop exactly when it would at its start. */
  lemma EffectiveInside(lib: Library, s: Store, trs: seq<Transaction>, t: Transaction)
    requires Valid(lib, s)
    ensures Valid(lib, CreditAll(s, trs))
    ensures t.value != 0 && Find(CreditAll(s, trs), t.address).Some? <==> Effective(s.db, t)
  {
    CreditAllValid(lib, s, trs);
    CreditAllAccounts(lib, s, trs);
    FindIffOwned(lib, CreditAll(s, trs), t.address);
    OwnerSame(s.db, CreditAll(s, trs).db, t.address);
  }

  lemma LoopUnfolds(s: Store, h: History, hashes: seq<Hash>, trs: seq<Transaction>)
    requires |hashes| == |trs| && trs != []
    ensures var n := |trs| - 1;
            var c, t := CreditAll(s, trs[..n]), trs[n];
            && PostAll(s, h, hashes, trs) == PostOne(c, PostAll(s, h, hashes[..n], trs[..n]), hashes[n], t)
            && CreditAll(s, trs) == CreditOne(c, t)
            && Effects(s.db, hashes, trs) == Effects(s.db, hashes[..n], trs[..n]) +
               (if Effective(s.db, t) then [Posting(hashes[n], t.address, t.value)] else [])
            && HitsFirst(s, trs) == (HitsFirst(s, trs[..n]) ||
                                     (!AnyEffective(s.db, trs[..n]) && Effective(s.db, t) && Hit(s, t.address)))
  {
  }

  /** Exactly what the loop adds to the history. */
  ghost predicate LoopPosted(s: Store, h: History, hashes: seq<Hash>, trs: seq<Transaction>)
    requires |hashes| == |trs|
  {
    var g := PostAll(s, h, hashes, trs);
    && g.credited == h.credited + (if HitsFirst(s, trs) then h.dirty else []) + Effects(s.db, hashes, trs)
    && g.dirty == (if AnyEffective(s.db, trs) then [] else h.dirty)
    && g.sent == h.sent && g.returned == h.returned && g.revised == h.revised
    && (HitsFirst(s, trs) ==> AnyEffective(s.db, trs))
    && (!AnyEffective(s.db, trs) ==> CreditAll(s, trs) == s && Effects(s.db, hashes, trs) == [])
  }

  lemma {:induction false} LoopPosts(lib: Library, s: Store, h: History, hashes: seq<Hash>, trs: seq<Transaction>)
    requires Valid(lib, s) && |hashes| == |trs|
    ensures LoopPosted(s, h, hashes, trs)
  {
    if trs == [] {
      assert h.credited + [] + [] == h.credited;
    } else {
      var n := |trs| - 1;
      LoopPosts(lib, s, h, hashes[..n], trs[..n]);
      LoopUnfolds(s, h, hashes, trs);
      EffectiveInside(lib, s, trs[..n], trs[n]);
      AnyEffectiveMore(s.db, trs);
      var c, g := CreditAll(s, trs[..n]), PostAll(s, h, hashes[..n], trs[..n]);
      var effects := Effects(s.db, hashes[..n], trs[..n]);
      if Effective(s.db, trs[n]) {
        LoopPostsOne(s, h, hashes, trs);
      } else {
        NoPosting(c, g, hashes[n], trs[n]);
        hide *;
        assert effects + [] == effects;
        LoopPostsNone(s, h, hashes, trs);
      }
    }
  }

  lemma LoopPostsNone(s: Store, h: History, hashes: seq<Hash>, trs: seq<Transaction>)
    requires |hashes| == |trs| && trs != [] && LoopPosted(s, h, hashes[..|trs| - 1], trs[..|trs| - 1])
    requires var n := |trs| - 1;
             && PostAll(s, h, hashes, trs) == PostAll(s, h, hashes[..n], trs[..n])
             && CreditAll(s, trs) == CreditAll(s, trs[..n])
             && Effects(s.db, hashes, trs) == Effects(s.db, hashes[..n], trs[..n])
             && HitsFirst(s, trs) == HitsFirst(s, trs[..n])
             && AnyEffective(s.db, trs) == AnyEffective(s.db, trs[..n])
    ensures LoopPosted(s, h, hashes, trs)
  {
    hide PostAll, CreditAll, Effects, HitsFirst, AnyEffective;
  }

  lemma LoopPostsOne(s: Store, h: History, hashes: seq<Hash>, trs: seq<Transaction>)
    requires |hashes| == |trs| && trs != [] && LoopPosted(s, h, hashes[..|trs| - 1], trs[..|trs| - 1])
    requires var t := trs[|trs| - 1]; t.value != 0 && Find(CreditAll(s, trs[..|trs| - 1]), t.address).Some?
    requires Effective(s.db, trs[|trs| - 1])
    ensures LoopPosted(s, h, hashes, trs)
  {
    var n := |trs| - 1;
    var c, g, t := CreditAll(s, trs[..n]), PostAll(s, h, hashes[..n], trs[..n]), trs[n];
    LoopUnfolds(s, h, hashes, trs);
    AnyEffectiveMore(s.db, trs);
    StepPosting(c, g, hashes[n], t);
    LoopUntouched(s, h, hashes[..n], trs[..n]);
    hide Find, Hit, Effective, AnyEffective, CreditOne, CreditAll, Effects, HitsFirst, PostAll, PostOne;
    Combine(h, g, PostAll(s, h, hashes, trs), HitsFirst(s, trs[..n]), AnyEffective(s.db, trs[..n]),
            Effects(s.db, hashes[..n], trs[..n]), Posting(hashes[n], t.address, t.value), Hit(c, t.address));
  }

  lemma LoopUntouched(s: Store, h: History, hashes: seq<Hash>, trs: seq<Transaction>)
    requires |hashes| == |trs| && LoopPosted(s, h, hashes, trs)
    ensures !AnyEffective(s.db, trs) ==> PostAll(s, h, hashes, trs) == h
  {
    hide PostAll, CreditAll, Effects, HitsFirst, AnyEffective;
    assert h.credited + [] + [] == h.credited;
  }

  lemma Combine(h: History, g: History, g1: History, hits: bool, any: bool, effects: seq<Posting>, p: Posting,
        hit: bool)
    requires g.credited == h.credited + (if hits then h.dirty else []) + effects
    requires g.dirty == (if any then [] else h.dirty) && (hits ==> any) && (!any ==> g == h && effects == [])
    requires g1 == g.(credited := g.credited + (if hit then g.dirty else []) + [p], dirty := [])
    ensures g1.credited == h.credited + (if hits || (!any && hit) then h.dirty else []) + (effects + [p])
  {
    if any {
      assert g.credited + [] + [p] == g.credited + [p];
      assert g.credited + [p] == h.credited + (if hits then h.dirty else []) + (effects + [p]);
    } else {
      assert effects + [p] == [p];
    }
  }

  lemma StepPosting(s: Store, g: History, hash: Hash, t: Transaction)
    requires t.value != 0 && Find(s, t.address).Some?
    ensures var p := Posting(hash, t.address, t.value);
            PostOne(s, g, hash, t) ==
            g.(credited := g.credited + (if Hit(s, t.address) then g.dirty else []) + [p], dirty := [])
  {
    assert g.credited + [] == g.credited;
  }

  lemma NoPosting(s: Store, g: History, hash: Hash, t: Transaction)
    requires t.value == 0 || Find(s, t.address).None?
    ensures PostOne(s, g, hash, t) == g && CreditOne(s, t) == s
  {
  }

  lemma {:induction false} EffectsExact(db: map<Key, Acct>, hashes: seq<Hash>, trs: seq<Transaction>)
    requires |hashes| == |trs|
    ensures forall p :: p in Effects(db, hashes, trs) <==>
                        exists i :: 0 <= i < |trs| && IsEffect(db, hashes, trs, i, p)
  {
    if trs == [] {
    } else {
      var n := |trs| - 1;
      EffectsExact(db, hashes[..n], trs[..n]);
      assert forall i, p :: 0 <= i < n ==>
               (IsEffect(db, hashes, trs, i, p) <==> IsEffect(db, hashes[..n], trs[..n], i, p));
      forall p
        ensures p in Effects(db, hashes, trs) <==>
                p in Effects(db, hashes[..n], trs[..n]) || IsEffect(db, hashes, trs, n, p)
      {
      }
    }
  }

  ghost predicate IsEffect(db: map<Key, Acct>, hashes: seq<Hash>, trs: seq<Transaction>, i: nat, p: Posting)
    requires |hashes| == |trs| && i < |trs|
  {
    Effective(db, trs[i]) && p == Posting(hashes[i], trs[i].address, trs[i].value)
  }

  // ---- whose record the cache holds ----

  lemma FindOwner(lib: Library, s: Store, adr: Address)
    requires Valid(lib, s) && Find(s, adr).Some?
    ensures Owner(s.db, adr) == Some(ToKey(Find(s, adr).value.name))
  {
    if s.cache.Some? && Has(s.cache.value, adr) {
      var k := ToKey(s.cache.value.name);
      IndexOfSame(s.db[k].bals, s.cache.value.bals, adr);
      OwnerUnique(lib, s.db, k, adr);
    }
  }

  lemma OwnerSameKey(lib: Library, x: map<Key, Acct>, y: map<Key, Acct>, adr: Address)
    requires Injective(lib) && ValidDb(lib, x) && ValidDb(lib, y) && SameAccounts(x, y)
    ensures Owner(x, adr) == Owner(y, adr)
  {
    OwnerSame(x, y, adr);
    if Owner(x, adr).Some? {
      var k := Owner(x, adr).value;
      IndexOfSame(x[k].bals, y[k].bals, adr);
      OwnerUnique(lib, y, k, adr);
    }
  }

  /** The cached record has the addresses of its account. */
  lemma CacheOwns(lib: Library, s: Store, adr: Address)
    requires Valid(lib, s) && s.cache.Some?
    ensures Has(s.cache.value, adr) <==> Owner(s.db, adr) == Some(ToKey(s.cache.value.name))
  {
    var k := ToKey(s.cache.value.name);
    IndexOfSame(s.db[k].bals, s.cache.value.bals, adr);
    if Has(s.db[k], adr) {
      OwnerUnique(lib, s.db, k, adr);
    }
  }

  /** After the loop the cache is about the account credited last. */
  lemma {:induction false} LoopCaches(lib: Library, s: Store, trs: seq<Transaction>)
    requires Valid(lib, s)
    ensures var k, c := LastCredited(s.db, trs), CreditAll(s, trs);
            && (k.Some? <==> AnyEffective(s.db, trs))
            && (k.Some? ==> c.cache.Some? && ToKey(c.cache.value.name) == k.value)
  {
    if trs == [] {
    } else {
      var n := |trs| - 1;
      var c, t := CreditAll(s, trs[..n]), trs[n];
      LoopCaches(lib, s, trs[..n]);
      AnyEffectiveMore(s.db, trs);
      EffectiveInside(lib, s, trs[..n], t);
      CreditAllAccounts(lib, s, trs[..n]);
      if Effective(s.db, t) {
        FindOwner(lib, c, t.address);
        OwnerSameKey(lib, s.db, c.db, t.address);
      }
    }
  }

  /** The loop leaves the addresses of the account credited last in the cache, and no others. */
  lemma LoopCachedAddresses(lib: Library, s: Store, trs: seq<Transaction>, adr: Address)
    requires Valid(lib, s) && AnyEffective(s.db, trs)
    ensures var c := CreditAll(s, trs);
            c.cache.Some? && (Has(c.cache.value, adr) <==> Owner(s.db, adr) == LastCredited(s.db, trs))
  {
    LoopCaches(lib, s, trs);
    CreditAllValid(lib, s, trs);
    CreditAllAccounts(lib, s, trs);
    CacheOwns(lib, CreditAll(s, trs), adr);
    OwnerSameKey(lib, s.db, CreditAll(s, trs).db, adr);
  }

  // ---- one step ----

  /** The round is about to credit hash x, its i-th, and can load what it credits. */
  ghost predicate EarnsAt(s: State, x: Hash, i: nat) {
    && s.round.Ready? && i < |s.round.confirmed| && s.round.confirmed[i] == x
    && Load(s.txs, s.round.confirmed).Some?
    && Effective(s.store.db, Load(s.txs, s.round.confirmed).value[i])
  }

  /** The step credits x in the bucket. */
  ghost predicate Pays(s: State, e: Event, x: Hash) {
    e == Credit(true) && exists i :: EarnsAt(s, x, i)
  }

  /** The step is rolled back late, and the cached record keeps the credit of x, which is for
      the account credited last. */
  ghost predicate Leaks(s: State, e: Event, x: Hash) {
    e == Credit(false) && exists i: nat :: EarnsAt(s, x, i) && ForLastCredited(s, i)
  }

  ghost predicate ForLastCredited(s: State, i: nat)
    requires s.round.Ready? && Load(s.txs, s.round.confirmed).Some? && i < |s.round.confirmed|
  {
    var trs := Load(s.txs, s.round.confirmed).value;
    Owner(s.store.db, trs[i].address) == LastCredited(s.store.db, trs)
  }

  ghost predicate SpendSucceeds(lib: Library, a: Option<Acct>, total: int, signed: bool) {
    a.Some? && signed && Spent(lib, a.value, total).Some?
  }

  /** The step writes the cached record to the bucket, with what only the record holds. */
  ghost predicate Absorbs(lib: Library, s: State, e: Event)
    requires Enabled(s, e)
  {
    match e
    case NewAddress(name, seed) => Cached(s.store, name) && Extended(lib, Source(s.store, name, seed)).Some?
    case SendFrom(name, total, signed) => Cached(s.store, name) && SpendSucceeds(lib, Get(s.store, name), total, signed)
    case Credit(commits) =>
      var trs := Load(s.txs, s.round.confirmed);
      commits && trs.Some? && HitsFirst(s.store, trs.value)
    case _ => false
  }

  /** The account read under the name is the cached one, by whichever of its names. */
  ghost predicate AboutCached(s: Store, name: string) {
    Cached(s, name) || (Get(s, name).Some? && Cached(s, Get(s, name).value.name))
  }

  /** The step leaves what only the cached record holds there. */
  ghost predicate Keeps(lib: Library, s: State, e: Event)
    requires Enabled(s, e)
  {
    match e
    case NewAddress(name, seed) => Extended(lib, Source(s.store, name, seed)).None? || !AboutCached(s.store, name)
    case SendFrom(name, total, signed) =>
      !SpendSucceeds(lib, Get(s.store, name), total, signed) || !AboutCached(s.store, name)
    case SendAny(key, total, signed) =>
      var a := s.store.db[key];
      !SpendSucceeds(lib, Some(a), total, signed) || !Cached(s.store, a.name)
    case Lookup(adr) => Hit(s.store, adr) || Find(s.store, adr).None?
    case Credit(commits) =>
      var trs := Load(s.txs, s.round.confirmed);
      trs.None? || !AnyEffective(s.store.db, trs.value) ||
      (!commits && HitsFirst(s.store, trs.value) && s.store.cache.Some? &&
       LastCredited(s.store.db, trs.value) == Some(ToKey(s.store.cache.value.name)))
    case Refresh(_, _, _) => false
    case Restart => false
    case _ => true
  }

  ghost predicate Posted(ps: seq<Posting>, x: Hash) {
    exists p :: p in ps && p.hash == x
  }

  lemma PostedSplit(xs: seq<Posting>, ys: seq<Posting>, x: Hash)
    ensures Posted(xs + ys, x) <==> Posted(xs, x) || Posted(ys, x)
  {
  }

  /** What one step does to the credits: those in the bucket, and those in the cache only. */
  ghost predicate PostsExactly(lib: Library, s: State, h: History, e: Event, x: Hash)
    requires Enabled(s, e)
  {
    var g := StepHistory(lib, s, h, e);
    && (Posted(g.credited, x) <==>
        (Posted(h.credited, x) || Pays(s, e, x) || (Posted(h.dirty, x) && Absorbs(lib, s, e))))
    && (Posted(g.dirty, x) <==> (Leaks(s, e, x) || (Posted(h.dirty, x) && Keeps(lib, s, e))))
  }

  lemma EarnedIsEffect(s: State, x: Hash, i: nat)
    requires EarnsAt(s, x, i)
    ensures var trs := Load(s.txs, s.round.confirmed).value;
            Posting(x, trs[i].address, trs[i].value) in Effects(s.store.db, s.round.confirmed, trs)
  {
    var trs := Load(s.txs, s.round.confirmed).value;
    EffectsExact(s.store.db, s.round.confirmed, trs);
    assert IsEffect(s.store.db, s.round.confirmed, trs, i, Posting(x, trs[i].address, trs[i].value));
  }

  lemma EffectIsEarned(s: State, p: Posting) returns (i: nat)
    requires s.round.Ready? && Load(s.txs, s.round.confirmed).Some?
    requires p in Effects(s.store.db, s.round.confirmed, Load(s.txs, s.round.confirmed).value)
    ensures EarnsAt(s, p.hash, i) && p.address == Load(s.txs, s.round.confirmed).value[i].address
  {
    var trs := Load(s.txs, s.round.confirmed).value;
    EffectsExact(s.store.db, s.round.confirmed, trs);
    i :| 0 <= i < |trs| && IsEffect(s.store.db, s.round.confirmed, trs, i, p);
  }

  lemma EffectsPosted(s: State, x: Hash)
    requires s.round.Ready? && Load(s.txs, s.round.confirmed).Some?
    ensures Posted(Effects(s.store.db, s.round.confirmed, Load(s.txs, s.round.confirmed).value), x) <==>
            exists i :: EarnsAt(s, x, i)
  {
    var effects := Effects(s.store.db, s.round.confirmed, Load(s.txs, s.round.confirmed).value);
    hide EarnsAt, Effects;
    if i: nat :| EarnsAt(s, x, i) {
      EarnedIsEffect(s, x, i);
    }
    if p :| p in effects && p.hash == x {
      var i := EffectIsEarned(s, p);
    }
  }

  lemma CommitPosts(lib: Library, s: State, h: History, x: Hash)
    requires Valid(lib, s.store) && s.round.Ready?
    ensures PostsExactly(lib, s, h, Credit(true), x)
  {
    var hashes := s.round.confirmed;
    var trs := Load(s.txs, hashes);
    if trs.Some? {
      LoopPosts(lib, s.store, h, hashes, trs.value);
      EffectsPosted(s, x);
      var effects := Effects(s.store.db, hashes, trs.value);
      var mine := if HitsFirst(s.store, trs.value) then h.dirty else [];
      PostedSplit(h.credited + mine, effects, x);
      PostedSplit(h.credited, mine, x);
      hide Effects, HitsFirst, PostAll, CreditAll, AnyEffective, EarnsAt;
    }
  }

  lemma ConcerningCached(lib: Library, s: Store, trs: seq<Transaction>, ps: seq<Posting>, p: Posting)
    requires Valid(lib, s) && AnyEffective(s.db, trs)
    ensures var c := CreditAll(s, trs).cache;
            c.Some? && (p in Concerning(ps, c.value) <==> p in ps && Owner(s.db, p.address) == LastCredited(s.db, trs))
  {
    LoopCachedAddresses(lib, s, trs, p.address);
    ConcerningExact(ps, CreditAll(s, trs).cache.value);
  }

  lemma LeakIsKept(lib: Library, s: State, x: Hash, i: nat)
    requires Valid(lib, s.store) && EarnsAt(s, x, i) && ForLastCredited(s, i)
    requires AnyEffective(s.store.db, Load(s.txs, s.round.confirmed).value)
    ensures var trs := Load(s.txs, s.round.confirmed).value;
            var c := CreditAll(s.store, trs).cache;
            c.Some? && Posted(Concerning(Effects(s.store.db, s.round.confirmed, trs), c.value), x)
  {
    var trs := Load(s.txs, s.round.confirmed).value;
    hide Concerning, Effects, CreditAll, LastCredited, Owner, Valid, AnyEffective;
    EarnedIsEffect(s, x, i);
    ConcerningCached(lib, s.store, trs, Effects(s.store.db, s.round.confirmed, trs),
                     Posting(x, trs[i].address, trs[i].value));
  }

  lemma KeptIsLeak(lib: Library, s: State, p: Posting)
    requires Valid(lib, s.store) && s.round.Ready? && Load(s.txs, s.round.confirmed).Some?
    requires AnyEffective(s.store.db, Load(s.txs, s.round.confirmed).value)
    requires var trs := Load(s.txs, s.round.confirmed).value;
             var c := CreditAll(s.store, trs).cache;
             c.Some? && p in Concerning(Effects(s.store.db, s.round.confirmed, trs), c.value)
    ensures Leaks(s, Credit(false), p.hash)
  {
    var trs := Load(s.txs, s.round.confirmed).value;
    hide Concerning, Effects, CreditAll, LastCredited, Owner, Valid, AnyEffective, EarnsAt, Load;
    ConcerningCached(lib, s.store, trs, Effects(s.store.db, s.round.confirmed, trs), p);
    var i := EffectIsEarned(s, p);
    assert EarnsAt(s, p.hash, i) && ForLastCredited(s, i);
  }

  /** The rolled-back credits that stay in the cached record. */
  lemma EffectsKept(lib: Library, s: State, x: Hash)
    requires Valid(lib, s.store) && s.round.Ready? && Load(s.txs, s.round.confirmed).Some?
    requires AnyEffective(s.store.db, Load(s.txs, s.round.confirmed).value)
    ensures var trs := Load(s.txs, s.round.confirmed).value;
            var c := CreditAll(s.store, trs).cache;
            c.Some? &&
            (Posted(Concerning(Effects(s.store.db, s.round.confirmed, trs), c.value), x) <==>
             Leaks(s, Credit(false), x))
  {
    var trs := Load(s.txs, s.round.confirmed).value;
    hide Concerning, Effects, CreditAll, Valid, EarnsAt, AnyEffective, Load, ForLastCredited;
    LoopCachedAddresses(lib, s.store, trs, "");
    if Leaks(s, Credit(false), x) {
      var i: nat :| EarnsAt(s, x, i) && ForLastCredited(s, i);
      LeakIsKept(lib, s, x, i);
    }
    var kept := Concerning(Effects(s.store.db, s.round.confirmed, trs), CreditAll(s.store, trs).cache.value);
    if Posted(kept, x) {
      var p :| p in kept && p.hash == x;
      KeptIsLeak(lib, s, p);
    }
  }

  /** The dirty postings that survive in the cache: all of them when it is still about the same
      account, otherwise none. */
  lemma DirtyKept(lib: Library, s: Store, h: History, trs: seq<Transaction>, x: Hash)
    requires LedgerHolds(lib, s, h) && AnyEffective(s.db, trs) && s.cache.Some?
    ensures var c := CreditAll(s, trs).cache;
            c.Some? &&
            (Posted(Concerning(h.dirty, c.value), x) <==>
             Posted(h.dirty, x) && LastCredited(s.db, trs) == Some(ToKey(s.cache.value.name)))
  {
    LoopCachedAddresses(lib, s, trs, "");
    var c := CreditAll(s, trs).cache.value;
    ConcerningExact(h.dirty, c);
    forall p | p in h.dirty
      ensures Has(c, p.address) <==> LastCredited(s.db, trs) == Some(ToKey(s.cache.value.name))
    {
      LoopCachedAddresses(lib, s, trs, p.address);
      CacheOwns(lib, s, p.address);
    }
  }

  lemma {:induction false} ConcerningConcat(xs: seq<Posting>, ys: seq<Posting>, a: Acct)
    ensures Concerning(xs + ys, a) == Concerning(xs, a) + Concerning(ys, a)
  {
    if ys == [] {
      assert xs + ys == xs && Concerning(xs, a) + [] == Concerning(xs, a);
    } else {
      var n := |ys| - 1;
      ConcerningConcat(xs, ys[..n], a);
      assert (xs + ys)[..|xs + ys| - 1] == xs + ys[..n];
    }
  }

  lemma RollbackPosts(lib: Library, s: State, h: History, x: Hash)
    requires LedgerHolds(lib, s.store, h) && s.round.Ready?
    ensures PostsExactly(lib, s, h, Credit(false), x)
  {
    var hashes := s.round.confirmed;
    var trs := Load(s.txs, hashes);
    if trs.Some? {
      LoopPosts(lib, s.store, h, hashes, trs.value);
      PostAllExtends(s.store, h, hashes, trs.value);
      if AnyEffective(s.store.db, trs.value) {
        EffectiveRollback(lib, s, h, x);
      } else {
        IdleRollback(lib, s, h, x);
      }
    }
  }

  lemma IdleRollback(lib: Library, s: State, h: History, x: Hash)
    requires LedgerHolds(lib, s.store, h) && s.round.Ready? && Load(s.txs, s.round.confirmed).Some?
    requires var trs := Load(s.txs, s.round.confirmed).value;
             LoopPosted(s.store, h, s.round.confirmed, trs) && !AnyEffective(s.store.db, trs)
    ensures PostsExactly(lib, s, h, Credit(false), x)
  {
    var hashes, trs := s.round.confirmed, Load(s.txs, s.round.confirmed).value;
    LoopUntouched(s.store, h, hashes, trs);
    EffectsPosted(s, x);
    assert h.credited[|h.credited|..] == [];
    assert [] + h.dirty == h.dirty;
    assert s.store.cache.None? ==> h.dirty == [];
    hide PostAll, CreditAll, Effects, HitsFirst, AnyEffective, LastCredited, EarnsAt, ForLastCredited, LedgerHolds;
  }

  /** The history after a late rollback of a loop that credited something. */
  lemma RollbackHistory(lib: Library, s: State, h: History)
    requires Valid(lib, s.store) && s.round.Ready? && Load(s.txs, s.round.confirmed).Some?
    requires var trs := Load(s.txs, s.round.confirmed).value;
             LoopPosted(s.store, h, s.round.confirmed, trs) && AnyEffective(s.store.db, trs)
    ensures var trs := Load(s.txs, s.round.confirmed).value;
            var c := CreditAll(s.store, trs).cache;
            c.Some? &&
            StepHistory(lib, s, h, Credit(false)) ==
            h.(dirty := Concerning(if HitsFirst(s.store, trs) then h.dirty else [], c.value) +
                        Concerning(Effects(s.store.db, s.round.confirmed, trs), c.value))
  {
    var hashes, trs := s.round.confirmed, Load(s.txs, s.round.confirmed).value;
    hide PostAll, CreditAll, Effects, HitsFirst, AnyEffective, Concerning, RolledBack, Valid, StepHistory, Load;
    StepRollsBack(lib, s, h);
    LoopCachedAddresses(lib, s.store, trs, "");
    RolledBackShape(h, PostAll(s.store, h, hashes, trs), if HitsFirst(s.store, trs) then h.dirty else [],
                    Effects(s.store.db, hashes, trs), CreditAll(s.store, trs).cache.value);
  }

  lemma StepRollsBack(lib: Library, s: State, h: History)
    requires s.round.Ready? && Load(s.txs, s.round.confirmed).Some?
    ensures var hashes, trs := s.round.confirmed, Load(s.txs, s.round.confirmed).value;
            var after := PostAll(s.store, h, hashes, trs);
            && h.credited <= after.credited
            && StepHistory(lib, s, h, Credit(false)) == RolledBack(h, after, CreditAll(s.store, trs).cache)
  {
    PostAllExtends(s.store, h, s.round.confirmed, Load(s.txs, s.round.confirmed).value);
  }

  lemma RolledBackShape(h: History, after: History, mine: seq<Posting>, effects: seq<Posting>, c: Acct)
    requires after.credited == h.credited + mine + effects && after.dirty == []
    ensures h.credited <= after.credited
    ensures RolledBack(h, after, Some(c)) == h.(dirty := Concerning(mine, c) + Concerning(effects, c))
  {
    assert after.credited[|h.credited|..] == mine + effects;
    ConcerningConcat(mine, effects, c);
    var both := Concerning(mine, c) + Concerning(effects, c);
    assert both + [] == both;
  }

  /** Of a late rollback only the cache remains. */
  lemma RollbackKeeps(lib: Library, s: State, x: Hash)
    requires s.round.Ready? && Load(s.txs, s.round.confirmed).Some?
    requires AnyEffective(s.store.db, Load(s.txs, s.round.confirmed).value)
    ensures !Pays(s, Credit(false), x) && !Absorbs(lib, s, Credit(false))
    ensures var trs := Load(s.txs, s.round.confirmed).value;
            Keeps(lib, s, Credit(false)) <==>
            HitsFirst(s.store, trs) && s.store.cache.Some? &&
            LastCredited(s.store.db, trs) == Some(ToKey(s.store.cache.value.name))
  {
  }

  lemma NotPosted(x: Hash)
    ensures !Posted([], x)
  {
  }

  lemma EffectiveRollback(lib: Library, s: State, h: History, x: Hash)
    requires LedgerHolds(lib, s.store, h) && s.round.Ready? && Load(s.txs, s.round.confirmed).Some?
    requires var trs := Load(s.txs, s.round.confirmed).value;
             LoopPosted(s.store, h, s.round.confirmed, trs) && AnyEffective(s.store.db, trs)
    ensures PostsExactly(lib, s, h, Credit(false), x)
  {
    var trs := Load(s.txs, s.round.confirmed).value;
    assert s.store.cache.None? ==> h.dirty == [];
    hide LoopPosted, LedgerHolds, Load, AnyEffective, HitsFirst, LastCredited, CreditAll, Effects, Concerning,
         Posted, Pays, Leaks, Absorbs, Keeps, StepHistory;
    RollbackHistory(lib, s, h);
    EffectsKept(lib, s, x);
    RollbackKeeps(lib, s, x);
    NotPosted(x);
    var c := CreditAll(s.store, trs).cache.value;
    var mine := if HitsFirst(s.store, trs) then h.dirty else [];
    PostedSplit(Concerning(mine, c), Concerning(Effects(s.store.db, s.round.confirmed, trs), c), x);
    NoneConcerning(c);
    if s.store.cache.Some? {
      DirtyKept(lib, s.store, h, trs, x);
    }
  }

  lemma NoneConcerning(c: Acct)
    ensures Concerning([], c) == []
  {
  }

  lemma ReadPosts(s: Store, h: History, name: string, x: Hash)
    ensures var g := ReadHistory(s, h, name);
            && (Posted(g.credited, x) <==> (Posted(h.credited, x) || (Posted(h.dirty, x) && Cached(s, name))))
            && (Posted(g.dirty, x) <==> Posted(h.dirty, x) && !AboutCached(s, name))
  {
    PostedSplit(h.credited, h.dirty, x);
  }

  /** What every step credits, and what it leaves in the cache only. */
  lemma StepPosts(lib: Library, s: State, h: History, e: Event, x: Hash)
    requires LedgerHolds(lib, s.store, h) && Enabled(s, e)
    ensures PostsExactly(lib, s, h, e, x)
  {
    hide LedgerHolds, Posted;
    NotPosted(x);
    match e
    case Credit(commits) =>
      if commits {
        LedgerValid(lib, s.store, h);
        CommitPosts(lib, s, h, x);
      } else {
        RollbackPosts(lib, s, h, x);
      }
    case NewAddress(name, seed) => ReadPosts(s.store, h, name, x);
    case SendFrom(name, total, signed) => ReadPosts(s.store, h, name, x);
    case _ =>
  }

  lemma LedgerValid(lib: Library, s: Store, h: History)
    requires LedgerHolds(lib, s, h)
    ensures Valid(lib, s)
  {
  }

  // ---- whole runs ----

  lemma {:induction false} PrefixValid(lib: Library, s: State, es: seq<Event>, i: nat)
    requires ValidRun(lib, s, es) && i <= |es|
    ensures ValidRun(lib, s, es[..i])
    ensures i < |es| ==> Enabled(After(lib, s, es[..i]), es[i])
    decreases |es|
  {
    if i == |es| {
      assert es[..i] == es;
    } else {
      var n := |es| - 1;
      assert es[..n][..i] == es[..i];
      PrefixValid(lib, s, es[..n], i);
    }
  }

  /** The state before step i of a run. */
  ghost function Before(lib: Library, s0: State, es: seq<Event>, i: nat): (s: State)
    requires ValidRun(lib, s0, es) && i <= |es|
    ensures i < |es| ==> Enabled(s, es[i])
  {
    PrefixValid(lib, s0, es, i);
    After(lib, s0, es[..i])
  }

  /** From the late rollback j up to step i the credit of x is in the cached record only. */
  ghost predicate CachedOnly(lib: Library, s0: State, es: seq<Event>, x: Hash, j: nat, i: nat)
    requires ValidRun(lib, s0, es) && i <= |es|
  {
    && j < i && Leaks(Before(lib, s0, es, j), es[j], x)
    && forall m :: j < m < i ==> Keeps(lib, Before(lib, s0, es, m), es[m])
  }

  ghost predicate WasCachedOnly(lib: Library, s0: State, es: seq<Event>, x: Hash, i: nat)
    requires ValidRun(lib, s0, es) && i <= |es|
  {
    exists j :: CachedOnly(lib, s0, es, x, j, i)
  }

  /** Step i of the run credits x in the bucket: the round pays it, or the account is written
      while its cached record still holds the rolled-back credit. */
  ghost predicate CreditsAt(lib: Library, s0: State, es: seq<Event>, x: Hash, i: nat)
    requires ValidRun(lib, s0, es) && i < |es|
  {
    || Pays(Before(lib, s0, es, i), es[i], x)
    || (Absorbs(lib, Before(lib, s0, es, i), es[i]) && WasCachedOnly(lib, s0, es, x, i))
  }

  ghost predicate EverCredited(lib: Library, s0: State, es: seq<Event>, x: Hash)
    requires ValidRun(lib, s0, es)
  {
    exists i :: 0 <= i < |es| && CreditsAt(lib, s0, es, x, i)
  }

  lemma SameBefore(lib: Library, s0: State, es: seq<Event>, i: nat)
    requires ValidRun(lib, s0, es) && es != [] && i < |es|
    ensures Before(lib, s0, es, i) == Before(lib, s0, es[..|es| - 1], i)
  {
    assert es[..|es| - 1][..i] == es[..i];
  }

  lemma SameCachedOnly(lib: Library, s0: State, es: seq<Event>, x: Hash, j: nat, i: nat)
    requires ValidRun(lib, s0, es) && es != [] && i < |es|
    ensures CachedOnly(lib, s0, es, x, j, i) <==> CachedOnly(lib, s0, es[..|es| - 1], x, j, i)
  {
    forall m | 0 <= m < |es|
      ensures Before(lib, s0, es, m) == Before(lib, s0, es[..|es| - 1], m)
    {
      SameBefore(lib, s0, es, m);
    }
    hide Before, Leaks, Keeps;
  }

  lemma SameWasCachedOnly(lib: Library, s0: State, es: seq<Event>, x: Hash, i: nat)
    requires ValidRun(lib, s0, es) && es != [] && i < |es|
    ensures WasCachedOnly(lib, s0, es, x, i) <==> WasCachedOnly(lib, s0, es[..|es| - 1], x, i)
  {
    hide CachedOnly;
    var init := es[..|es| - 1];
    if j: nat :| CachedOnly(lib, s0, es, x, j, i) {
      SameCachedOnly(lib, s0, es, x, j, i);
    }
    if j: nat :| CachedOnly(lib, s0, init, x, j, i) {
      SameCachedOnly(lib, s0, es, x, j, i);
    }
  }

  lemma SameCreditsAt(lib: Library, s0: State, es: seq<Event>, x: Hash, i: nat)
    requires ValidRun(lib, s0, es) && es != [] && i < |es| - 1
    ensures CreditsAt(lib, s0, es, x, i) <==> CreditsAt(lib, s0, es[..|es| - 1], x, i)
  {
    hide Before, WasCachedOnly, Pays, Absorbs;
    SameBefore(lib, s0, es, i);
    SameWasCachedOnly(lib, s0, es, x, i);
  }

  lemma CachedOnlyMore(lib: Library, s0: State, es: seq<Event>, x: Hash)
    requires ValidRun(lib, s0, es) && es != []
    ensures var n := |es| - 1;
            var s, e := Before(lib, s0, es, n), es[n];
            WasCachedOnly(lib, s0, es, x, n + 1) <==>
            Leaks(s, e, x) || (WasCachedOnly(lib, s0, es, x, n) && Keeps(lib, s, e))
  {
    var n := |es| - 1;
    var next := n + 1;
    hide Before, Leaks, Keeps;
    assert Leaks(Before(lib, s0, es, n), es[n], x) ==> CachedOnly(lib, s0, es, x, n, next);
    if j: nat :| CachedOnly(lib, s0, es, x, j, n) && Keeps(lib, Before(lib, s0, es, n), es[n]) {
      assert CachedOnly(lib, s0, es, x, j, next);
    }
    if j: nat :| CachedOnly(lib, s0, es, x, j, next) {
      assert j < n ==> CachedOnly(lib, s0, es, x, j, n);
    }
  }

  lemma EverCreditedMore(lib: Library, s0: State, es: seq<Event>, x: Hash)
    requires ValidRun(lib, s0, es) && es != []
    ensures EverCredited(lib, s0, es, x) <==>
            EverCredited(lib, s0, es[..|es| - 1], x) || CreditsAt(lib, s0, es, x, |es| - 1)
  {
    hide CreditsAt;
    var n := |es| - 1;
    forall i | 0 <= i < n
      ensures CreditsAt(lib, s0, es, x, i) <==> CreditsAt(lib, s0, es[..n], x, i)
    {
      SameCreditsAt(lib, s0, es, x, i);
    }
  }

  /** What one more step adds. */
  lemma CreditedMore(lib: Library, s0: State, es: seq<Event>, x: Hash)
    requires ValidRun(lib, s0, es) && es != []
    ensures var n := |es| - 1;
            var s, e := After(lib, s0, es[..n]), es[n];
            && (EverCredited(lib, s0, es, x) <==>
                (EverCredited(lib, s0, es[..n], x) || Pays(s, e, x) ||
                 (WasCachedOnly(lib, s0, es[..n], x, n) && Absorbs(lib, s, e))))
            && (WasCachedOnly(lib, s0, es, x, n + 1) <==>
                (Leaks(s, e, x) || (WasCachedOnly(lib, s0, es[..n], x, n) && Keeps(lib, s, e))))
  {
    var n := |es| - 1;
    assert Before(lib, s0, es, n) == After(lib, s0, es[..n]);
    hide Before, CachedOnly, WasCachedOnly, EverCredited, Pays, Leaks, Keeps, Absorbs, After;
    SameWasCachedOnly(lib, s0, es, x, n);
    CachedOnlyMore(lib, s0, es, x);
    EverCreditedMore(lib, s0, es, x);
  }

  /** Over every continuation of a state whose cached record holds nothing of its own: what is
      credited in the end was credited before or by one of the steps. */
  lemma {:induction false} CreditedFrom(lib: Library, s0: State, h0: History, es: seq<Event>, x: Hash)
    requires Invariant(lib, s0, h0) && h0.dirty == [] && ValidRun(lib, s0, es) && SeedsFresh(lib, s0, es)
    ensures var h := HistoryAfter(lib, s0, h0, es);
            && (Posted(h.credited, x) <==> Posted(h0.credited, x) || EverCredited(lib, s0, es, x))
            && (Posted(h.dirty, x) <==> WasCachedOnly(lib, s0, es, x, |es|))
  {
    if es == [] {
      NotPosted(x);
    } else {
      var n := |es| - 1;
      CreditedFrom(lib, s0, h0, es[..n], x);
      CreditedMore(lib, s0, es, x);
      RunKeepsInvariant(lib, s0, h0, es[..n]);
      StepPosts(lib, After(lib, s0, es[..n]), HistoryAfter(lib, s0, h0, es[..n]), es[n], x);
      hide StepHistory, EverCredited, WasCachedOnly, Pays, Leaks, Keeps, Absorbs, Posted, After, FlagsHold, LedgerHolds;
    }
  }

  /** Exactly when a confirmed transaction is credited, over every run: its round's credit step
      loads and commits, or is rolled back late with the account credited last being its own
      and a later step writes that account before anything else replaces the cached record. */
  lemma CreditedIff(lib: Library, es: seq<Event>, x: Hash)
    requires Injective(lib) && ValidRun(lib, START, es) && SeedsFresh(lib, START, es)
    ensures var h := HistoryAfter(lib, START, NOTHING, es);
            && (Posted(h.credited, x) <==> EverCredited(lib, START, es, x))
            && (Posted(h.dirty, x) <==> WasCachedOnly(lib, START, es, x, |es|))
  {
    StartInvariant(lib);
    NotPosted(x);
    CreditedFrom(lib, START, NOTHING, es, x);
  }

  /** Returned as confirmed, and not about to be credited. */
  ghost predicate Passed(s: State, h: History, x: Hash) {
    x in h.returned && x !in PendingOf(s.round)
  }

  lemma StepKeepsPassed(lib: Library, s: State, h: History, e: Event, x: Hash)
    requires FlagsHold(s, h) && Enabled(s, e) && Passed(s, h, x)
    ensures Passed(Step(lib, s, e), StepHistory(lib, s, h, e), x)
  {
    StepKeepsFlags(lib, s, h, e);
    match e
    case Confirm(states) =>
      var f := Step(lib, s, e).round.confirmed;
      assert StepHistory(lib, s, h, e).returned == h.returned + f;
      DistinctConcat(h.returned, f);
    case Credit(commits) => CreditReturns(lib, s, h, commits);
    case _ =>
  }

  /** A hash is pending at most once. */
  lemma {:induction false} RunKeepsPassed(lib: Library, s: State, h: History, es: seq<Event>, x: Hash)
    requires FlagsHold(s, h) && Passed(s, h, x) && ValidRun(lib, s, es)
    ensures Passed(After(lib, s, es), HistoryAfter(lib, s, h, es), x)
  {
    if es == [] {
    } else {
      var n := |es| - 1;
      RunKeepsPassed(lib, s, h, es[..n], x);
      RunKeepsFlags(lib, s, h, es[..n]);
      hide Passed, FlagsHold, Step, StepHistory;
      StepKeepsPassed(lib, After(lib, s, es[..n]), HistoryAfter(lib, s, h, es[..n]), es[n], x);
    }
  }

  /** So no step of a continuation credits it, whether or not it was credited before. */
  lemma PassedNeverCredits(lib: Library, s: State, h: History, es: seq<Event>, x: Hash)
    requires FlagsHold(s, h) && Passed(s, h, x) && ValidRun(lib, s, es)
    ensures !EverCredited(lib, s, es, x)
  {
    forall i | 0 <= i < |es|
      ensures !Pays(Before(lib, s, es, i), es[i], x) && !Leaks(Before(lib, s, es, i), es[i], x)
    {
      PrefixValid(lib, s, es, i);
      RunKeepsPassed(lib, s, h, es[..i], x);
    }
    hide Before, Pays, Leaks, Keeps, Absorbs;
  }

  /** Passed, and held by no record. */
  ghost predicate Lost(s: State, h: History, x: Hash) {
    Passed(s, h, x) && !Posted(h.credited, x) && !Posted(h.dirty, x)
  }

  lemma PostedIn(h: History, x: Hash)
    ensures Posted(Postings(h), x) <==> Posted(h.credited, x) || Posted(h.dirty, x)
  {
    PostedSplit(h.credited, h.dirty, x);
  }

  lemma StepKeepsLost(lib: Library, s: State, h: History, e: Event, x: Hash)
    requires FlagsHold(s, h) && Enabled(s, e) && Lost(s, h, x)
    ensures Lost(Step(lib, s, e), StepHistory(lib, s, h, e), x)
  {
    StepPostsPending(lib, s, h, e);
    PostedIn(h, x);
    PostedIn(StepHistory(lib, s, h, e), x);
    assert !Posted(Postings(StepHistory(lib, s, h, e)), x);
    StepKeepsPassed(lib, s, h, e, x);
  }

  lemma CreditReturns(lib: Library, s: State, h: History, commits: bool)
    requires s.round.Ready?
    ensures StepHistory(lib, s, h, Credit(commits)).returned == h.returned
  {
    var trs := Load(s.txs, s.round.confirmed);
    if trs.Some? {
      PostAllExtends(s.store, h, s.round.confirmed, trs.value);
    }
  }

  /** A lost transaction is never credited, however the run goes on. */
  lemma {:induction false} LostForever(lib: Library, s: State, h: History, es: seq<Event>, x: Hash)
    requires FlagsHold(s, h) && Lost(s, h, x) && ValidRun(lib, s, es)
    ensures Lost(After(lib, s, es), HistoryAfter(lib, s, h, es), x)
  {
    if es == [] {
    } else {
      var n := |es| - 1;
      LostForever(lib, s, h, es[..n], x);
      RunKeepsFlags(lib, s, h, es[..n]);
      hide Lost, FlagsHold, Step, StepHistory;
      StepKeepsLost(lib, After(lib, s, es[..n]), HistoryAfter(lib, s, h, es[..n]), es[n], x);
    }
  }

  /** So a confirmed transaction has one chance: if the step that ends its round neither pays
      it nor leaves it in the cached record, it is never credited in any continuation. */
  lemma OneChance(lib: Library, s: State, h: History, e: Event, es: seq<Event>, x: Hash)
    requires Invariant(lib, s, h) && x in PendingOf(s.round) && Enabled(s, e) && Step(lib, s, e).round.Idle?
    requires ValidRun(lib, Step(lib, s, e), es)
    requires !Pays(s, e, x) && !Leaks(s, e, x)
    ensures !Posted(HistoryAfter(lib, Step(lib, s, e), StepHistory(lib, s, h, e), es).credited, x)
  {
    var t, g := Step(lib, s, e), StepHistory(lib, s, h, e);
    StepPosts(lib, s, h, e, x);
    StepKeepsFlags(lib, s, h, e);
    PendingUnposted(lib, s, h, e, x);
    hide LedgerHolds, FlagsHold, Pays, Leaks, Keeps, Absorbs, Step, StepHistory, Posted;
    LostForever(lib, t, g, es, x);
  }

  lemma PendingUnposted(lib: Library, s: State, h: History, e: Event, x: Hash)
    requires FlagsHold(s, h) && x in PendingOf(s.round) && Enabled(s, e) && Step(lib, s, e).round.Idle?
    ensures !Posted(h.credited, x) && !Posted(h.dirty, x) && x in StepHistory(lib, s, h, e).returned
  {
    PostedSplit(h.credited, h.dirty, x);
    assert Postings(h) == h.credited + h.dirty;
    if e.Credit? {
      CreditReturns(lib, s, h, e.commits);
    }
  }
}
