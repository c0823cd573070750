/** Whole notification rounds on a steady node: replaying after a reset, and restoring from a
    seed. */
module Replay {
  import opened Gadk
  import opened Sums
  import opened Accounts
  import opened Stores
  import opened Hashes
  import opened Ledger
  import opened Runs

  /** What a round finds for the wallet's addresses, and what the node holds confirmed then. */
  datatype Sight = Sight(found: seq<Hash>, confirmed: Hash -> bool)

  function Answers(c: Hash -> bool, q: seq<Hash>): seq<bool> {
    seq(|q|, i requires 0 <= i < |q| => c(q[i]))
  }

  function Replies(content: Hash -> Transaction, q: seq<Hash>): seq<Transaction> {
    seq(|q|, i requires 0 <= i < |q| => content(q[i]))
  }

  /** The node's transactions have the hashes they are asked for by. */
  ghost predicate Served(lib: Library, content: Hash -> Transaction, q: seq<Hash>) {
    forall h :: h in q ==> lib.txHash(content(h)) == h
  }

  ghost function AfterDiscover(lib: Library, s: State, v: Sight, content: Hash -> Transaction): State
    requires s.round.Idle? && Distinct(v.found)
  {
    Step(lib, s, Discover(v.found, Replies(content, News(s.hs, v.found))))
  }

  ghost function AfterConfirm(lib: Library, s: State, v: Sight, content: Hash -> Transaction): State
    requires s.round.Idle? && Distinct(v.found)
  {
    Step(lib, AfterDiscover(lib, s, v, content), Confirm(Answers(v.confirmed, Unconfirmed(Listing(s.hs, v.found)))))
  }

  /** A round that finishes: its three transactions in order. */
  ghost function FullRound(lib: Library, s: State, v: Sight, content: Hash -> Transaction): State
    requires s.round.Idle? && Distinct(v.found)
  {
    Step(lib, AfterConfirm(lib, s, v, content), Credit(true))
  }

  /** Every entry the node holds confirmed is flagged. */
  function Marked(hs: seq<TxState>, c: Hash -> bool): seq<TxState> {
    seq(|hs|, i requires 0 <= i < |hs| => TxState(hs[i].hash, hs[i].confirmed || c(hs[i].hash)))
  }

  lemma {:induction false} FlipMarks(hs: seq<TxState>, c: Hash -> bool)
    ensures Flip(hs, Answers(c, Unconfirmed(hs))) == Marked(hs, c)
  {
    if hs == [] {
    } else {
      var init, last := hs[..|hs| - 1], hs[|hs| - 1];
      FlipMarks(init, c);
      assert Marked(hs, c) == Marked(init, c) + [TxState(last.hash, last.confirmed || c(last.hash))];
      if !last.confirmed {
        var st := Answers(c, Unconfirmed(hs));
        assert st[..|st| - 1] == Answers(c, Unconfirmed(init));
      } else {
        assert Unconfirmed(hs) == Unconfirmed(init);
      }
    }
  }

  function HashAt(content: Hash -> Transaction, adr: Address): Hash -> int {
    (h: Hash) => if content(h).address == adr then content(h).value else 0
  }

  function FlaggedAt(content: Hash -> Transaction, adr: Address): TxState -> int {
    (t: TxState) => if t.confirmed && content(t.hash).address == adr then content(t.hash).value else 0
  }

  /** Marking adds what the newly flagged hashes are worth. */
  lemma {:induction false} MarkedSum(hs: seq<TxState>, c: Hash -> bool, content: Hash -> Transaction, adr: Address)
    ensures SumBy(Marked(hs, c), FlaggedAt(content, adr)) ==
            SumBy(hs, FlaggedAt(content, adr)) + SumBy(Flipped(hs, Marked(hs, c)), HashAt(content, adr))
  {
    if hs == [] {
    } else {
      var n := |hs| - 1;
      var init := hs[..n];
      MarkedSum(init, c, content, adr);
      assert Marked(hs, c)[..n] == Marked(init, c);
      var f := Flipped(init, Marked(init, c));
      if !hs[n].confirmed && c(hs[n].hash) {
        SumAppend(f, hs[n].hash, HashAt(content, adr));
      } else {
        assert f + [] == f;
      }
    }
  }

  lemma ListedSum(hs: seq<TxState>, news: seq<Hash>, content: Hash -> Transaction, adr: Address)
    ensures SumBy(hs + Unflagged(news), FlaggedAt(content, adr)) == SumBy(hs, FlaggedAt(content, adr))
  {
    SumConcat(hs, Unflagged(news), FlaggedAt(content, adr));
    SumZero(Unflagged(news), FlaggedAt(content, adr));
  }

  /** Listed hashes have their transaction stored as the node serves it. */
  ghost predicate Mirrored(hs: seq<TxState>, txs: TxBucket, content: Hash -> Transaction) {
    forall h :: h in HashesOf(hs) ==> h in txs && txs[h] == Stored(content(h))
  }

  lemma {:induction false} PutReplies(lib: Library, txs: TxBucket, content: Hash -> Transaction, q: seq<Hash>)
    requires Served(lib, content, q)
    ensures HoldsReplies(txs, PutAll(lib, txs, Replies(content, q)), content, q)
  {
    if q == [] {
    } else {
      var init, h := q[..|q| - 1], q[|q| - 1];
      assert q == init + [h];
      assert Replies(content, q)[..|q| - 1] == Replies(content, init);
      PutReplies(lib, txs, content, init);
    }
  }

  /** The bucket holds what was asked for, and everything else as before. */
  ghost predicate HoldsReplies(before: TxBucket, after: TxBucket, content: Hash -> Transaction, q: seq<Hash>) {
    && (forall h :: h in q ==> h in after && after[h] == Stored(content(h)))
    && (forall h :: h in before && h !in q ==> h in after && after[h] == before[h])
  }

  /** A state on which every value is the sum of the flagged transactions of its address. */
  ghost predicate Replayed(lib: Library, s: State, content: Hash -> Transaction) {
    && Valid(lib, s.store) && Agrees(s.store) && s.round.Idle?
    && Distinct(HashesOf(s.hs)) && Mirrored(s.hs, s.txs, content)
    && (forall h :: h in HashesOf(s.hs) ==> Owner(s.store.db, content(h).address).Some?)
    && (forall k :: k in s.store.db ==> ValuesFlagged(s.store.db[k], s.hs, content))
  }

  ghost predicate ValuesFlagged(a: Acct, hs: seq<TxState>, content: Hash -> Transaction) {
    forall i :: 0 <= i < |a.bals| ==> a.bals[i].value == SumBy(hs, FlaggedAt(content, a.bals[i].address))
  }

  lemma AfterConfirmIs(lib: Library, s: State, v: Sight, content: Hash -> Transaction)
    requires s.round.Idle? && Distinct(v.found)
    ensures var listed := Listing(s.hs, v.found);
            AfterConfirm(lib, s, v, content) ==
            State(s.store, Marked(listed, v.confirmed),
                  PutAll(lib, s.txs, Replies(content, News(s.hs, v.found))),
                  Ready(Flipped(listed, Marked(listed, v.confirmed))))
  {
    FlipMarks(Listing(s.hs, v.found), v.confirmed);
  }

  /** The lists of a finishing round. */
  lemma RoundLists(lib: Library, s: State, v: Sight, content: Hash -> Transaction)
    requires s.round.Idle? && Distinct(v.found) && Distinct(HashesOf(s.hs))
    requires Mirrored(s.hs, s.txs, content) && Served(lib, content, v.found)
    ensures var c := AfterConfirm(lib, s, v, content);
            && c.hs == Marked(Listing(s.hs, v.found), v.confirmed)
            && c.round == Ready(Flipped(Listing(s.hs, v.found), c.hs))
            && c.store == s.store
            && Distinct(HashesOf(c.hs)) && Mirrored(c.hs, c.txs, content)
            && (forall h :: h in HashesOf(c.hs) <==> h in HashesOf(s.hs) || h in v.found)
  {
    var listed, news := Listing(s.hs, v.found), News(s.hs, v.found);
    hide HoldsReplies, Mirrored, PutAll, News, AfterConfirm, Flipped;
    AfterConfirmIs(lib, s, v, content);
    NewsExact(s.hs, v.found);
    assert HashesOf(listed) == HashesOf(s.hs) + news;
    assert HashesOf(Marked(listed, v.confirmed)) == HashesOf(listed);
    DistinctConcat(HashesOf(s.hs), news);
    PutReplies(lib, s.txs, content, news);
    MirroredMore(s.hs, s.txs, news, Marked(listed, v.confirmed), PutAll(lib, s.txs, Replies(content, news)), content);
  }

  lemma MirroredMore(hs: seq<TxState>, txs: TxBucket, news: seq<Hash>, after: seq<TxState>, put: TxBucket,
      content: Hash -> Transaction)
    requires Mirrored(hs, txs, content) && HoldsReplies(txs, put, content, news)
    requires HashesOf(after) == HashesOf(hs) + news
    ensures Mirrored(after, put, content)
  {
  }

  /** The credits of a round are worth what its newly flagged hashes are. */
  lemma CreditedWorth(txs: TxBucket, confirmed: seq<Hash>, content: Hash -> Transaction, adr: Address)
    requires Load(txs, confirmed).Some? && forall h :: h in confirmed ==> txs[h] == Stored(content(h))
    ensures SumBy(Load(txs, confirmed).value, To(adr)) == SumBy(confirmed, HashAt(content, adr))
  {
    SumCongruent(Load(txs, confirmed).value, To(adr), confirmed, HashAt(content, adr));
  }

  /** Same account, every value raised by the hashes of its address. */
  ghost predicate Gained(a: Acct, b: Acct, hashes: seq<Hash>, content: Hash -> Transaction) {
    && SameAddresses(a.bals, b.bals)
    && forall i :: 0 <= i < |a.bals| ==>
         b.bals[i].value == a.bals[i].value + SumBy(hashes, HashAt(content, a.bals[i].address))
  }

  lemma GainedDirectly(a: Acct, txs: TxBucket, confirmed: seq<Hash>, content: Hash -> Transaction)
    requires Load(txs, confirmed).Some? && forall h :: h in confirmed ==> txs[h] == Stored(content(h))
    ensures Gained(a, CreditedDirectly(a, Load(txs, confirmed).value), confirmed, content)
  {
    forall i | 0 <= i < |a.bals|
      ensures SumBy(Load(txs, confirmed).value, To(a.bals[i].address)) ==
              SumBy(confirmed, HashAt(content, a.bals[i].address))
    {
      CreditedWorth(txs, confirmed, content, a.bals[i].address);
    }
    hide Load, SumBy, To, HashAt, Touched;
  }

  /** A credit step whose transactions are all stored. */
  lemma CreditGains(lib: Library, c: State, content: Hash -> Transaction)
    requires Valid(lib, c.store) && Agrees(c.store) && c.round.Ready?
    requires forall h :: h in c.round.confirmed ==> h in c.txs && c.txs[h] == Stored(content(h))
    ensures var t := Step(lib, c, Credit(true));
            && Valid(lib, t.store) && Agrees(t.store) && t.store.db.Keys == c.store.db.Keys
            && forall k :: k in c.store.db ==> Gained(c.store.db[k], t.store.db[k], c.round.confirmed, content)
  {
    hide Gained, CreditedDirectly, Valid, Agrees, CreditAll;
    var confirmed := c.round.confirmed;
    assert |confirmed| > 0 ==> confirmed[0] in c.txs;
    if Load(c.txs, confirmed).Some? {
      var trs := Load(c.txs, confirmed).value;
      CreditAllValid(lib, c.store, trs);
      CreditAllDirect(lib, c.store, trs);
      forall k | k in c.store.db
        ensures Gained(c.store.db[k], CreditedDirectly(c.store.db[k], trs), confirmed, content)
      {
        GainedDirectly(c.store.db[k], c.txs, confirmed, content);
      }
    } else {
      assert confirmed == [];
      forall k | k in c.store.db
        ensures Gained(c.store.db[k], c.store.db[k], confirmed, content)
      {
        NothingGained(c.store.db[k], content);
      }
    }
  }

  lemma NothingGained(a: Acct, content: Hash -> Transaction)
    ensures Gained(a, a, [], content)
  {
  }

  lemma MirroredHolds(hs: seq<TxState>, txs: TxBucket, content: Hash -> Transaction, q: seq<Hash>)
    requires Mirrored(hs, txs, content) && forall h :: h in q ==> h in HashesOf(hs)
    ensures forall h :: h in q ==> h in txs && txs[h] == Stored(content(h))
  {
  }

  /** What a finishing round does to the values of an agreeing store: every entry gains the
      newly flagged transactions of its address. */
  lemma RoundGains(lib: Library, s: State, v: Sight, content: Hash -> Transaction)
    requires Valid(lib, s.store) && Agrees(s.store) && s.round.Idle? && Distinct(v.found) && Distinct(HashesOf(s.hs))
    requires Mirrored(s.hs, s.txs, content) && Served(lib, content, v.found)
    ensures var t := FullRound(lib, s, v, content);
            && t.hs == Marked(Listing(s.hs, v.found), v.confirmed) && t.round.Idle?
            && Distinct(HashesOf(t.hs)) && Mirrored(t.hs, t.txs, content)
            && (forall h :: h in HashesOf(t.hs) <==> h in HashesOf(s.hs) || h in v.found)
            && Valid(lib, t.store) && Agrees(t.store) && t.store.db.Keys == s.store.db.Keys
            && forall k :: k in s.store.db ==>
                 Gained(s.store.db[k], t.store.db[k], Flipped(Listing(s.hs, v.found), t.hs), content)
  {
    RoundLists(lib, s, v, content);
    var c := AfterConfirm(lib, s, v, content);
    FlippedAreListed(Listing(s.hs, v.found), c.hs);
    MirroredHolds(c.hs, c.txs, content, c.round.confirmed);
    hide Gained, Mirrored;
    CreditGains(lib, c, content);
  }

  /** A finishing round keeps every value equal to the flagged transactions of its address. */
  lemma RoundReplays(lib: Library, s: State, v: Sight, content: Hash -> Transaction)
    requires Replayed(lib, s, content) && Distinct(v.found) && Served(lib, content, v.found)
    requires forall h :: h in v.found ==> Owner(s.store.db, content(h).address).Some?
    ensures Replayed(lib, FullRound(lib, s, v, content), content)
    ensures SameKeysAndAddresses(s.store.db, FullRound(lib, s, v, content).store.db)
  {
    var t := FullRound(lib, s, v, content);
    RoundGains(lib, s, v, content);
    forall k | k in t.store.db
      ensures ValuesFlagged(t.store.db[k], t.hs, content)
    {
      RoundFlags(s.store.db[k], t.store.db[k], s.hs, News(s.hs, v.found), v.confirmed, content);
    }
    forall adr
      ensures Owner(s.store.db, adr).Some? ==> Owner(t.store.db, adr).Some?
    {
      OwnerSurvives(s.store.db, t.store.db, adr);
    }
  }

  ghost predicate SameKeysAndAddresses(x: map<Key, Acct>, y: map<Key, Acct>) {
    x.Keys == y.Keys && forall k :: k in x ==> SameAddresses(x[k].bals, y[k].bals)
  }

  lemma OwnerSurvives(x: map<Key, Acct>, y: map<Key, Acct>, adr: Address)
    requires SameKeysAndAddresses(x, y)
    ensures Owner(x, adr).Some? ==> Owner(y, adr).Some?
  {
    if Owner(x, adr).Some? {
      var k := Owner(x, adr).value;
      IndexOfSame(x[k].bals, y[k].bals, adr);
      assert Has(y[k], adr);
    }
  }

  lemma RoundFlags(a: Acct, b: Acct, hs: seq<TxState>, news: seq<Hash>, c: Hash -> bool, content: Hash -> Transaction)
    requires ValuesFlagged(a, hs, content)
    requires var listed := hs + Unflagged(news); Gained(a, b, Flipped(listed, Marked(listed, c)), content)
    ensures ValuesFlagged(b, Marked(hs + Unflagged(news), c), content)
  {
    forall i | 0 <= i < |b.bals|
      ensures b.bals[i].value == SumBy(Marked(hs + Unflagged(news), c), FlaggedAt(content, b.bals[i].address))
    {
      ListedSum(hs, news, content, a.bals[i].address);
      MarkedSum(hs + Unflagged(news), c, content, a.bals[i].address);
    }
  }

  // ---- reset and replay ----

  /** ResetDB: the hash list is emptied and every value set to 0.  Stored transactions and
      change fields stay. */
  function ZeroedBalances(bs: seq<Balance>): seq<Balance> {
    seq(|bs|, i requires 0 <= i < |bs| => bs[i].(value := 0))
  }

  function Zeroed(a: Acct): Acct {
    a.(bals := ZeroedBalances(a.bals))
  }

  function AllZeroed(db: map<Key, Acct>): map<Key, Acct> {
    map k | k in db :: Zeroed(db[k])
  }

  /** r is what ResetDB leaves of s. */
  ghost predicate IsReset(lib: Library, s: State, r: State) {
    && r.store.db == AllZeroed(s.store.db) && Valid(lib, r.store) && Agrees(r.store)
    && r.hs == [] && r.txs == s.txs && r.round.Idle?
  }

  /** Between two rounds a new address may be handed out. */
  datatype Turn = Notify(sight: Sight) | Fresh(name: string, seed: Seed)

  ghost function TakeTurn(lib: Library, s: State, t: Turn, content: Hash -> Transaction): State
    requires TurnAllowed(lib, s, t, content)
  {
    match t
    case Notify(v) => FullRound(lib, s, v, content)
    case Fresh(name, seed) => Step(lib, s, NewAddress(name, seed))
  }

  /** The node shows each transaction of the wallet's addresses once and serves its content;
      a new account has a seed of its own. */
  ghost predicate TurnAllowed(lib: Library, s: State, t: Turn, content: Hash -> Transaction) {
    match t
    case Notify(v) =>
      && s.round.Idle? && Distinct(v.found) && Served(lib, content, v.found)
      && forall h :: h in v.found ==> Owner(s.store.db, content(h).address).Some?
    case Fresh(name, seed) => SeedFresh(lib, s, NewAddress(name, seed))
  }

  ghost predicate TurnsAllowed(lib: Library, s: State, ts: seq<Turn>, content: Hash -> Transaction)
    decreases |ts|
  {
    ts == [] ||
    (TurnAllowed(lib, s, ts[0], content) && TurnsAllowed(lib, TakeTurn(lib, s, ts[0], content), ts[1..], content))
  }

  ghost function TakeTurns(lib: Library, s: State, ts: seq<Turn>, content: Hash -> Transaction): State
    requires TurnsAllowed(lib, s, ts, content)
    decreases |ts|
  {
    if ts == [] then s else TakeTurns(lib, TakeTurn(lib, s, ts[0], content), ts[1..], content)
  }

  /** Nothing is listed or flagged that the sight does not show. */
  ghost predicate Below(hs: seq<TxState>, v: Sight) {
    forall t :: t in hs ==> t.hash in v.found && (t.confirmed ==> v.confirmed(t.hash))
  }

  /** No earlier sight shows more than the last one. */
  ghost predicate Growing(ts: seq<Turn>, last: Sight) {
    forall t :: t in ts && t.Notify? ==>
      (forall h :: h in t.sight.found ==> h in last.found) && (forall h :: t.sight.confirmed(h) ==> last.confirmed(h))
  }

  /** Another store with the same owners and more, on which the values are right too. */
  lemma ReplayedWith(lib: Library, s: State, t: Store, content: Hash -> Transaction)
    requires Replayed(lib, s, content) && Valid(lib, t) && Agrees(t)
    requires forall adr :: Owner(s.store.db, adr).Some? ==> Owner(t.db, adr).Some?
    requires forall k :: k in t.db ==> ValuesFlagged(t.db[k], s.hs, content)
    ensures Replayed(lib, s.(store := t), content)
  {
    hide Valid, Agrees, ValuesFlagged, Owner;
  }

  lemma SourceCurrent(lib: Library, s: Store, name: string, seed: Seed)
    requires Valid(lib, s) && Agrees(s)
    requires Get(s, name).None? ==> UnusedSeed(lib, s.db, seed)
    ensures Current(lib, s, Source(s, name, seed))
  {
    CacheInvisible(lib, s, "", name);
  }

  lemma ExtendedValid(lib: Library, s: Store, a: Acct)
    requires Valid(lib, s) && Agrees(s) && Current(lib, s, a) && Extended(lib, a).Some?
    ensures var t := Put(s, Extended(lib, a).value);
            && Valid(lib, t) && Agrees(t)
            && forall x :: Owner(s.db, x).Some? ==> Owner(t.db, x).Some?
  {
    var b := Extended(lib, a).value;
    assert Writable(lib, s, b);
    PutValid(lib, s, b);
    hide Valid, Agrees, Owner, Writable;
    forall x
      ensures Owner(s.db, x).Some? ==> Owner(Put(s, b).db, x).Some?
    {
      OwnerGrows(s.db, Put(s, b).db, x);
    }
  }

  lemma ExtendedFlagged(lib: Library, s: State, a: Acct, content: Hash -> Transaction)
    requires Replayed(lib, s, content) && Current(lib, s.store, a) && Extended(lib, a).Some?
    ensures ValuesFlagged(Extended(lib, a).value, s.hs, content)
  {
    NextAddressNew(lib, s.store, a);
    UnusedAddressUnflagged(s, content, lib.newAddress(a.seed, |a.bals|).value);
    hide Valid, Agrees, Owner, SumBy;
    assert ValuesFlagged(a, s.hs, content);
  }

  lemma FreshReplays(lib: Library, s: State, name: string, seed: Seed, content: Hash -> Transaction)
    requires Replayed(lib, s, content) && SeedFresh(lib, s, NewAddress(name, seed))
    ensures Replayed(lib, Step(lib, s, NewAddress(name, seed)), content)
  {
    hide Valid, Agrees, Owner, ValuesFlagged, Mirrored, Extended, Source, Current;
    var a := Source(s.store, name, seed);
    if Extended(lib, a).Some? {
      SourceCurrent(lib, s.store, name, seed);
      ExtendedValid(lib, s.store, a);
      ExtendedFlagged(lib, s, a, content);
      ReplayedWith(lib, s, Put(s.store, Extended(lib, a).value), content);
    }
  }

  lemma UnusedAddressUnflagged(s: State, content: Hash -> Transaction, adr: Address)
    requires forall h :: h in HashesOf(s.hs) ==> Owner(s.store.db, content(h).address).Some?
    requires Owner(s.store.db, adr).None?
    ensures SumBy(s.hs, FlaggedAt(content, adr)) == 0
  {
    forall t | t in s.hs
      ensures FlaggedAt(content, adr)(t) == 0
    {
      var i :| 0 <= i < |s.hs| && s.hs[i] == t;
      assert HashesOf(s.hs)[i] == t.hash;
    }
    SumZero(s.hs, FlaggedAt(content, adr));
  }

  lemma OwnerGrows(x: map<Key, Acct>, y: map<Key, Acct>, adr: Address)
    requires forall k :: k in x ==> k in y && x[k].bals <= y[k].bals
    ensures Owner(x, adr).Some? ==> Owner(y, adr).Some?
  {
    if Owner(x, adr).Some? {
      var k := Owner(x, adr).value;
      assert y[k].bals[IndexOf(x[k].bals, adr)].address == adr;
      assert Has(y[k], adr);
    }
  }

  lemma RoundBelow(hs: seq<TxState>, v: Sight, last: Sight)
    requires Below(hs, last)
    requires (forall h :: h in v.found ==> h in last.found) && (forall h :: v.confirmed(h) ==> last.confirmed(h))
    ensures Below(Marked(hs + Unflagged(News(hs, v.found)), v.confirmed), last)
  {
    NewsExact(hs, v.found);
    var news := News(hs, v.found);
    var listed := hs + Unflagged(news);
    forall i | 0 <= i < |listed|
      ensures listed[i].hash in last.found && (listed[i].confirmed ==> last.confirmed(listed[i].hash))
    {
      if i < |hs| {
        assert listed[i] == hs[i] && hs[i] in hs;
      } else {
        assert listed[i].hash == news[i - |hs|];
      }
    }
  }

  lemma {:induction false} TurnsReplay(lib: Library, s: State, ts: seq<Turn>, last: Sight, content: Hash -> Transaction)
    requires Replayed(lib, s, content) && TurnsAllowed(lib, s, ts, content)
    requires Growing(ts, last) && Below(s.hs, last)
    ensures Replayed(lib, TakeTurns(lib, s, ts, content), content)
    ensures Below(TakeTurns(lib, s, ts, content).hs, last)
    decreases |ts|
  {
    if ts == [] {
    } else {
      match ts[0]
      case Notify(v) =>
        RoundReplays(lib, s, v, content);
        RoundGains(lib, s, v, content);
        RoundBelow(s.hs, v, last);
        hide Replayed, TurnAllowed, Below;
        TurnsReplay(lib, FullRound(lib, s, v, content), ts[1..], last, content);
      case Fresh(name, seed) =>
        FreshReplays(lib, s, name, seed, content);
        hide Replayed, TurnAllowed, Below;
        TurnsReplay(lib, Step(lib, s, NewAddress(name, seed)), ts[1..], last, content);
    }
  }

  /** The list holds exactly what the sight shows, flagged exactly as it confirms. */
  ghost predicate Shows(hs: seq<TxState>, v: Sight) {
    forall t :: t in hs <==> t.hash in v.found && t.confirmed == v.confirmed(t.hash)
  }

  lemma RoundShows(hs: seq<TxState>, v: Sight)
    requires Below(hs, v) && Distinct(HashesOf(hs))
    ensures Shows(Marked(hs + Unflagged(News(hs, v.found)), v.confirmed), v)
  {
    NewsExact(hs, v.found);
    var news := News(hs, v.found);
    var listed := hs + Unflagged(news);
    var m := Marked(listed, v.confirmed);
    forall i | 0 <= i < |m|
      ensures m[i].hash in v.found && m[i].confirmed == v.confirmed(m[i].hash)
    {
      if i < |hs| {
        assert listed[i] == hs[i] && hs[i] in hs;
      } else {
        assert listed[i].hash == news[i - |hs|];
      }
    }
    forall h | h in v.found
      ensures TxState(h, v.confirmed(h)) in m
    {
      if h in HashesOf(hs) {
        var i :| 0 <= i < |hs| && hs[i].hash == h;
        assert m[i].hash == h;
      } else {
        assert h in news;
        var i :| 0 <= i < |news| && news[i] == h;
        assert m[|hs| + i].hash == h;
      }
    }
  }

  /** Two lists that show the same hold the same flagged value at every address. */
  lemma ShownSums(xs: seq<TxState>, ys: seq<TxState>, v: Sight, content: Hash -> Transaction, adr: Address)
    requires Shows(xs, v) && Shows(ys, v) && Distinct(HashesOf(xs)) && Distinct(HashesOf(ys))
    ensures SumBy(xs, FlaggedAt(content, adr)) == SumBy(ys, FlaggedAt(content, adr))
  {
    DistinctEntries(xs);
    DistinctEntries(ys);
    DistinctSameElements(xs, ys);
    SumPermuted(xs, ys, FlaggedAt(content, adr));
  }

  lemma DistinctEntries(hs: seq<TxState>)
    requires Distinct(HashesOf(hs))
    ensures Distinct(hs)
  {
    assert forall i :: 0 <= i < |hs| ==> HashesOf(hs)[i] == hs[i].hash;
  }

  lemma ResetReplays(lib: Library, s: State, r: State, content: Hash -> Transaction)
    requires IsReset(lib, s, r)
    ensures Replayed(lib, r, content) && SameKeysAndAddresses(s.store.db, r.store.db)
  {
    var none: seq<TxState> := [];
    assert HashesOf(none) == [];
  }

  /** Reset and replay equals incremental: on an agreeing store without sends, whatever
      rounds and new addresses led here, one more round and a reset followed by that round
      leave the same values. */
  lemma ReplayEqualsIncremental(lib: Library, s0: State, ts: seq<Turn>, last: Sight, r: State,
        content: Hash -> Transaction)
    requires Replayed(lib, s0, content) && TurnsAllowed(lib, s0, ts, content)
    requires Growing(ts, last) && Below(s0.hs, last)
    requires TurnAllowed(lib, TakeTurns(lib, s0, ts, content), Notify(last), content)
    requires IsReset(lib, FullRound(lib, TakeTurns(lib, s0, ts, content), last, content), r)
    ensures var s1 := FullRound(lib, TakeTurns(lib, s0, ts, content), last, content);
            var s2 := FullRound(lib, r, last, content);
            && SameKeysAndAddresses(s1.store.db, s2.store.db)
            && forall k, i :: k in s1.store.db && 0 <= i < |s1.store.db[k].bals| ==>
                 s2.store.db[k].bals[i].value == s1.store.db[k].bals[i].value
  {
    var s := TakeTurns(lib, s0, ts, content);
    TurnsReplay(lib, s0, ts, last, content);
    RoundReplays(lib, s, last, content);
    RoundGains(lib, s, last, content);
    RoundShows(s.hs, last);
    var s1 := FullRound(lib, s, last, content);
    ResetReplays(lib, s1, r, content);
    SameStructure(s.store.db, s1.store.db, r.store.db);
    forall h | h in last.found
      ensures Owner(r.store.db, content(h).address).Some?
    {
      OwnerSurvives(s.store.db, r.store.db, content(h).address);
    }
    RoundReplays(lib, r, last, content);
    RoundGains(lib, r, last, content);
    RoundShows(r.hs, last);
    var s2 := FullRound(lib, r, last, content);
    SameStructure(s1.store.db, r.store.db, s2.store.db);
    SameShownValues(lib, s1, s2, last, content);
  }

  /** In particular from the empty wallet, whatever rounds and new addresses fill it. */
  lemma ReplayFromStart(lib: Library, ts: seq<Turn>, last: Sight, r: State, content: Hash -> Transaction)
    requires Injective(lib) && TurnsAllowed(lib, START, ts, content) && Growing(ts, last)
    requires TurnAllowed(lib, TakeTurns(lib, START, ts, content), Notify(last), content)
    requires IsReset(lib, FullRound(lib, TakeTurns(lib, START, ts, content), last, content), r)
    ensures var s1 := FullRound(lib, TakeTurns(lib, START, ts, content), last, content);
            var s2 := FullRound(lib, r, last, content);
            && SameKeysAndAddresses(s1.store.db, s2.store.db)
            && forall k, i :: k in s1.store.db && 0 <= i < |s1.store.db[k].bals| ==>
                 s2.store.db[k].bals[i].value == s1.store.db[k].bals[i].value
  {
    StartReplays(lib, content);
    ReplayEqualsIncremental(lib, START, ts, last, r, content);
  }

  lemma SameStructure(x: map<Key, Acct>, y: map<Key, Acct>, z: map<Key, Acct>)
    requires SameKeysAndAddresses(x, y) && SameKeysAndAddresses(y, z)
    ensures SameKeysAndAddresses(x, z)
  {
  }

  lemma SameShownValues(lib: Library, s1: State, s2: State, v: Sight, content: Hash -> Transaction)
    requires Replayed(lib, s1, content) && Replayed(lib, s2, content) && Shows(s1.hs, v) && Shows(s2.hs, v)
    requires SameKeysAndAddresses(s1.store.db, s2.store.db)
    ensures forall k, i :: k in s1.store.db && 0 <= i < |s1.store.db[k].bals| ==>
              s2.store.db[k].bals[i].value == s1.store.db[k].bals[i].value
  {
    forall k, i | k in s1.store.db && 0 <= i < |s1.store.db[k].bals|
      ensures s2.store.db[k].bals[i].value == s1.store.db[k].bals[i].value
    {
      ShownSums(s1.hs, s2.hs, v, content, s1.store.db[k].bals[i].address);
      assert ValuesFlagged(s1.store.db[k], s1.hs, content) && ValuesFlagged(s2.store.db[k], s2.hs, content);
    }
  }

  lemma StartReplays(lib: Library, content: Hash -> Transaction)
    requires Injective(lib)
    ensures Replayed(lib, START, content)
  {
    assert HashesOf(START.hs) == [];
  }

  // ---- restoring from a seed ----

  /** UpdateConfirmationState: the flags are stored and nothing is credited. */
  ghost function Absorbed(lib: Library, s: State, v: Sight, content: Hash -> Transaction): State
    requires s.round.Idle? && Distinct(v.found)
  {
    Step(lib, AfterConfirm(lib, s, v, content), Stop)
  }

  lemma {:induction false} NoNews(hs: seq<TxState>, input: seq<Hash>)
    requires forall h :: h in input ==> h in HashesOf(hs)
    ensures News(hs, input) == []
  {
    if input == [] {
    } else {
      NoNews(hs, input[..|input| - 1]);
    }
  }

  lemma {:induction false} MarkedTwice(hs: seq<TxState>, c: Hash -> bool)
    ensures Flipped(Marked(hs, c), Marked(Marked(hs, c), c)) == []
  {
    if hs == [] {
    } else {
      var n := |hs| - 1;
      MarkedTwice(hs[..n], c);
      assert Marked(hs, c)[..n] == Marked(hs[..n], c);
      assert Marked(Marked(hs, c), c)[..n] == Marked(Marked(hs[..n], c), c);
    }
  }

  lemma AbsorbedList(lib: Library, s: State, v: Sight, content: Hash -> Transaction)
    requires s.round.Idle? && Distinct(v.found) && forall h :: h in v.found ==> h in HashesOf(s.hs)
    ensures Absorbed(lib, s, v, content).hs == Marked(s.hs, v.confirmed)
    ensures Absorbed(lib, s, v, content).store == s.store
  {
    NoNews(s.hs, v.found);
    assert Unflagged([]) == [] && s.hs + [] == s.hs;
    FlipMarks(s.hs, v.confirmed);
  }

  /** A round that finds nothing new and flags nothing credits nothing. */
  lemma QuietRound(lib: Library, a: State, w: Sight, content: Hash -> Transaction)
    requires a.round.Idle? && Distinct(w.found) && forall h :: h in w.found ==> h in HashesOf(a.hs)
    requires Flipped(a.hs, Marked(a.hs, w.confirmed)) == []
    ensures FullRound(lib, a, w, content).store == a.store
  {
    NoNews(a.hs, w.found);
    assert Unflagged([]) == [] && a.hs + [] == a.hs;
    FlipMarks(a.hs, w.confirmed);
    var c := AfterConfirm(lib, a, w, content);
    assert c.round == Ready([]) && c.store == a.store;
    EmptyCredit(lib, c);
  }

  lemma EmptyCredit(lib: Library, c: State)
    requires c.round == Ready([])
    ensures Step(lib, c, Credit(true)).store == c.store
  {
  }

  /** After the flags have been absorbed, a round on the same sight credits nothing. */
  lemma AbsorbedRoundCreditsNothing(lib: Library, s: State, v: Sight, w: Sight, content: Hash -> Transaction)
    requires s.round.Idle? && Distinct(v.found) && Distinct(w.found) && w.confirmed == v.confirmed
    requires forall h :: h in v.found || h in w.found ==> h in HashesOf(s.hs)
    ensures FullRound(lib, Absorbed(lib, s, v, content), w, content).store == s.store
  {
    var a := Absorbed(lib, s, v, content);
    AbsorbedList(lib, s, v, content);
    assert HashesOf(a.hs) == HashesOf(s.hs);
    MarkedTwice(s.hs, v.confirmed);
    QuietRound(lib, a, w, content);
  }

  /** A reset begins a new history: with nothing credited, sent or returned everything that
      holds over runs from the empty wallet holds from here. */
  lemma ResetStartsOver(lib: Library, s: State, r: State)
    requires IsReset(lib, s, r)
    ensures Invariant(lib, r, NOTHING)
  {
    assert forall adr :: Taken(NOTHING, adr) == 0 && Net(NOTHING, adr) == 0 && Raised(NOTHING, adr) == 0;
    assert PostedHashes(Postings(NOTHING)) == [];
    var none: seq<TxState> := [];
    assert HashesOf(none) == [];
  }
}
