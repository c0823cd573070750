/** What importwallet leads to.  It takes the node's values without absorbing the confirmations
    behind them, and lists hashes whose transactions are not stored. */
module Imports {
  import opened Gadk
  import opened Sums
  import opened Accounts
  import opened Stores
  import opened Hashes
  import opened Ledger
  import opened Runs
  import opened Credits
  import opened Replay

  /** The hashes whose flag a round raises: without one so far, and confirmed by the node. */
  function ToRaise(hs: seq<TxState>, c: Hash -> bool): seq<Hash> {
    if hs == [] then []
    else
      var t := hs[|hs| - 1];
      ToRaise(hs[..|hs| - 1], c) + if !t.confirmed && c(t.hash) then [t.hash] else []
  }

  lemma {:induction false} RaisedAreFlipped(hs: seq<TxState>, c: Hash -> bool)
    ensures Flipped(hs, Marked(hs, c)) == ToRaise(hs, c)
  {
    if hs == [] {
    } else {
      var n := |hs| - 1;
      RaisedAreFlipped(hs[..n], c);
      assert Marked(hs, c)[..n] == Marked(hs[..n], c);
    }
  }

  lemma {:induction false} ToRaiseExact(hs: seq<TxState>, c: Hash -> bool)
    ensures forall h :: h in ToRaise(hs, c) <==> TxState(h, false) in hs && c(h)
  {
    if hs == [] {
    } else {
      var init, t := hs[..|hs| - 1], hs[|hs| - 1];
      ToRaiseExact(init, c);
      assert hs == init + [t];
    }
  }

  // ---- the next credit step ----

  /** The hashes whose flag the round under way, or else the next one, raises. */
  function Raises(s: State, v: Sight): seq<Hash> {
    match s.round
    case Idle => ToRaise(Listing(s.hs, v.found), v.confirmed)
    case Found(hs, news) => ToRaise(hs + Unflagged(news), v.confirmed)
    case Ready(confirmed) => confirmed
  }

  /** One of them has no stored transaction.  A round still to come stores what is new to it. */
  ghost predicate Misses(s: State, v: Sight) {
    exists h :: h in Raises(s, v) && h !in s.txs && (s.round.Idle? ==> h in HashesOf(s.hs))
  }

  /** The round under way, or else the next one, up to its credit step. */
  ghost function ToCredit(lib: Library, s: State, v: Sight, content: Hash -> Transaction): State
    requires s.round.Idle? ==> Distinct(v.found)
  {
    match s.round
    case Idle => AfterConfirm(lib, s, v, content)
    case Found(hs, news) => Step(lib, s, Confirm(Answers(v.confirmed, Unconfirmed(hs + Unflagged(news)))))
    case Ready(_) => s
  }

  ghost function FinishRound(lib: Library, s: State, v: Sight, content: Hash -> Transaction): (t: State)
    requires s.round.Idle? ==> Distinct(v.found)
    ensures s.round.Idle? ==> t == FullRound(lib, s, v, content)
  {
    Step(lib, ToCredit(lib, s, v, content), Credit(true))
  }

  /** The stored transactions are as the node serves them. */
  ghost predicate Genuine(txs: TxBucket, content: Hash -> Transaction) {
    forall h :: h in txs ==> txs[h] == Stored(content(h))
  }

  ghost predicate Shown(lib: Library, s: State, v: Sight, content: Hash -> Transaction) {
    Genuine(s.txs, content) && (s.round.Idle? ==> Distinct(v.found) && Served(lib, content, v.found))
  }

  lemma GenuineReplies(lib: Library, txs: TxBucket, content: Hash -> Transaction, q: seq<Hash>)
    requires Genuine(txs, content) && Served(lib, content, q)
    ensures var put := PutAll(lib, txs, Replies(content, q));
            Genuine(put, content) && forall h :: h in put <==> h in txs || h in q
  {
    PutReplies(lib, txs, content, q);
    PutAllKeys(lib, txs, Replies(content, q));
    forall t | t in Replies(content, q)
      ensures lib.txHash(t) in q
    {
      var i :| 0 <= i < |q| && content(q[i]) == t;
    }
  }

  lemma NewsSplit(hs: seq<TxState>, input: seq<Hash>, h: Hash)
    requires TxState(h, false) in Listing(hs, input)
    ensures h in News(hs, input) <==> h !in HashesOf(hs)
  {
    NewsExact(hs, input);
    var listed, news := Listing(hs, input), News(hs, input);
    var i :| 0 <= i < |listed| && listed[i] == TxState(h, false);
    if i < |hs| {
      assert HashesOf(hs)[i] == h;
    } else {
      assert news[i - |hs|] == h;
    }
  }

  /** What reaches the credit step. */
  lemma CreditsRaised(lib: Library, s: State, v: Sight, content: Hash -> Transaction)
    requires Shown(lib, s, v, content)
    ensures var c := ToCredit(lib, s, v, content);
            && c.round == Ready(Raises(s, v)) && c.store == s.store && Genuine(c.txs, content)
            && ((exists h :: h in Raises(s, v) && h !in c.txs) <==> Misses(s, v))
  {
    match s.round
    case Idle =>
      var listed, news := Listing(s.hs, v.found), News(s.hs, v.found);
      AfterConfirmIs(lib, s, v, content);
      RaisedAreFlipped(listed, v.confirmed);
      ToRaiseExact(listed, v.confirmed);
      NewsExact(s.hs, v.found);
      GenuineReplies(lib, s.txs, content, news);
      hide AfterConfirm, ToRaise, News, PutAll, Genuine;
      forall h | TxState(h, false) in listed
        ensures h in news <==> h !in HashesOf(s.hs)
      {
        NewsSplit(s.hs, v.found, h);
      }
    case Found(hs, news) =>
      FlipMarks(hs + Unflagged(news), v.confirmed);
      RaisedAreFlipped(hs + Unflagged(news), v.confirmed);
    case Ready(_) =>
  }

  /** Exactly when a value survives the next credit step, wherever the wallet is in a round: the
      round raises the flag of a hash that has no stored transaction, which stops every
      credit of the round, or the newly confirmed transactions of the address net to zero. */
  lemma RoundSurvivesIff(lib: Library, s: State, v: Sight, content: Hash -> Transaction, k: Key, i: nat)
    requires Valid(lib, s.store) && Agrees(s.store) && Shown(lib, s, v, content)
    requires k in s.store.db && i < |s.store.db[k].bals|
    ensures var t, b := FinishRound(lib, s, v, content), s.store.db[k].bals[i];
            && k in t.store.db && i < |t.store.db[k].bals|
            && (t.store.db[k].bals[i].value == b.value <==>
                Misses(s, v) || SumBy(Raises(s, v), HashAt(content, b.address)) == 0)
  {
    var c := ToCredit(lib, s, v, content);
    CreditsRaised(lib, s, v, content);
    hide Raises, Misses, ToCredit, Valid, Agrees, Step;
    if h :| h in Raises(s, v) && h !in c.txs {
      MissedRound(lib, c, h);
    } else {
      CreditGains(lib, c, content);
      assert Gained(s.store.db[k], FinishRound(lib, s, v, content).store.db[k], Raises(s, v), content);
    }
  }

  lemma MissedRound(lib: Library, c: State, h: Hash)
    requires c.round.Ready? && h in c.round.confirmed && h !in c.txs
    ensures Step(lib, c, Credit(true)).store == c.store
  {
  }

  // ---- import ----

  lemma NewlyListed(hs: seq<TxState>, txs: TxBucket, news: seq<Hash>, h: Hash)
    requires Intact(hs, txs) && h !in txs
    ensures TxState(h, false) in hs + Unflagged(news) <==> h in news
  {
    var listed := hs + Unflagged(news);
    forall j | 0 <= j < |hs|
      ensures hs[j].hash in txs
    {
      assert HashesOf(hs)[j] == hs[j].hash;
    }
    if TxState(h, false) in listed {
      var i :| 0 <= i < |listed| && listed[i] == TxState(h, false);
      assert Unflagged(news)[i - |hs|] == listed[i];
    }
    if h in news {
      var i :| 0 <= i < |news| && news[i] == h;
      assert listed[|hs| + i] == TxState(h, false);
    }
  }

  /** What the import adds to the next credit step's misses: on an idle wallet the hashes it lists
      without their transaction; in the middle of a round nothing, because the round works
      on the list it read before. */
  lemma ImportMisses(s: State, t: State, v: Sight, news: seq<Hash>)
    requires t.round == s.round && t.txs == s.txs && t.hs == s.hs + Unflagged(news)
    ensures !s.round.Idle? ==> Raises(t, v) == Raises(s, v) && (Misses(t, v) <==> Misses(s, v))
    ensures s.round.Idle? && Intact(s.hs, s.txs) ==>
              (Misses(t, v) <==> exists h :: h in news && v.confirmed(h) && h !in s.txs)
  {
    if s.round.Idle? && Intact(s.hs, s.txs) {
      var listed := Listing(t.hs, v.found);
      ToRaiseExact(listed, v.confirmed);
      ListedHashes(s.hs, news);
      hide ToRaise, News, HashesOf;
      forall h | h !in s.txs
        ensures h in news <==> TxState(h, false) in listed && h in HashesOf(t.hs)
      {
        NewlyListed(s.hs, s.txs, news, h);
        ListedBefore(t.hs, v.found, h);
      }
    }
  }

  lemma ListedBefore(hs: seq<TxState>, input: seq<Hash>, h: Hash)
    ensures TxState(h, false) in hs <==> TxState(h, false) in Listing(hs, input) && h in HashesOf(hs)
  {
    var listed := Listing(hs, input);
    if i: nat :| i < |hs| && hs[i] == TxState(h, false) {
      assert HashesOf(hs)[i] == h && listed[i] == hs[i];
    }
    if TxState(h, false) in listed && h in HashesOf(hs) {
      NewsSplit(hs, input, h);
      forall j | |hs| <= j < |listed|
        ensures listed[j].hash in News(hs, input)
      {
        assert listed[j].hash == News(hs, input)[j - |hs|];
      }
    }
  }

  lemma RefreshStores(lib: Library, s: State, e: Event)
    requires Valid(lib, s.store) && e.Refresh? && Enabled(s, e)
    ensures var t := Step(lib, s, e);
            && Valid(lib, t.store) && Agrees(t.store) && t.store.db == e.db
            && t.txs == s.txs && t.round == s.round && t.hs == s.hs + Unflagged(e.news)
  {
    SameAccountsValid(lib, s.store.db, e.db);
  }

  /** After an import every value of the wallet survives the next credit step exactly when that
      step misses a transaction or the newly confirmed ones of the address net to zero. */
  lemma ImportThenRound(lib: Library, s: State, e: Event, v: Sight, content: Hash -> Transaction, k: Key, i: nat)
    requires Valid(lib, s.store) && Shown(lib, s, v, content) && e.Refresh? && Enabled(s, e)
    requires k in e.db && i < |e.db[k].bals|
    ensures var imported := Step(lib, s, e);
            var t, b := FinishRound(lib, imported, v, content), e.db[k].bals[i];
            && k in t.store.db && i < |t.store.db[k].bals|
            && (t.store.db[k].bals[i].value == b.value <==>
                Misses(imported, v) || SumBy(Raises(imported, v), HashAt(content, b.address)) == 0)
            && (!s.round.Idle? ==> Raises(imported, v) == Raises(s, v) && (Misses(imported, v) <==> Misses(s, v)))
            && (s.round.Idle? && Intact(s.hs, s.txs) ==>
                (Misses(imported, v) <==> exists h :: h in e.news && v.confirmed(h) && h !in s.txs))
  {
    RefreshStores(lib, s, e);
    var imported := Step(lib, s, e);
    ImportMisses(s, imported, v, e.news);
    hide Step, Valid, Agrees, Raises, Misses, FinishRound;
    RoundSurvivesIff(lib, imported, v, content, k, i);
  }

  /** Whatever a round works on is listed or stored. */
  ghost predicate RoundKnown(s: State) {
    match s.round
    case Idle => true
    case Found(hs, news) =>
      (forall h :: h in HashesOf(hs) ==> h in HashesOf(s.hs)) && forall h :: h in news ==> h in s.txs
    case Ready(confirmed) => forall h :: h in confirmed ==> h in HashesOf(s.hs)
  }

  /** Once UpdateTXs has stored what is listed, the next credit step misses nothing: it credits on
      top of the balances taken from the node, and a value survives exactly when its newly
      confirmed transactions net to zero. */
  lemma UpdatedImportCreditsAgain(lib: Library, s: State, e: Event, v: Sight, content: Hash -> Transaction,
        k: Key, i: nat)
    requires Valid(lib, s.store) && Shown(lib, s, v, content) && e.Refresh? && Enabled(s, e) && RoundKnown(s)
    requires Served(lib, content, Missing(Step(lib, s, e).hs, s.txs))
    requires k in e.db && i < |e.db[k].bals|
    ensures var imported := Step(lib, s, e);
            var updated := Step(lib, imported, Update(Replies(content, Missing(imported.hs, imported.txs))));
            var t, b := FinishRound(lib, updated, v, content), e.db[k].bals[i];
            && k in t.store.db && i < |t.store.db[k].bals|
            && (t.store.db[k].bals[i].value == b.value <==>
                SumBy(Raises(updated, v), HashAt(content, b.address)) == 0)
  {
    RefreshStores(lib, s, e);
    var imported := Step(lib, s, e);
    ListedHashes(s.hs, e.news);
    var updated := Step(lib, imported, Update(Replies(content, Missing(imported.hs, imported.txs))));
    UpdateFills(lib, imported, content);
    NothingMissed(updated, v);
    hide Step, Valid, Agrees, Raises, Misses, FinishRound, Intact;
    RoundSurvivesIff(lib, updated, v, content, k, i);
  }

  lemma UpdateFills(lib: Library, s: State, content: Hash -> Transaction)
    requires Genuine(s.txs, content) && Served(lib, content, Missing(s.hs, s.txs)) && RoundKnown(s)
    ensures var t := Step(lib, s, Update(Replies(content, Missing(s.hs, s.txs))));
            && t == s.(txs := t.txs) && Intact(t.hs, t.txs) && Genuine(t.txs, content) && RoundKnown(t)
  {
    MissingExact(s.hs, s.txs);
    GenuineReplies(lib, s.txs, content, Missing(s.hs, s.txs));
  }

  lemma NothingMissed(s: State, v: Sight)
    requires Intact(s.hs, s.txs) && RoundKnown(s)
    ensures !Misses(s, v)
  {
    if s.round.Found? {
      var hs, news := s.round.hs, s.round.news;
      ToRaiseExact(hs + Unflagged(news), v.confirmed);
      ListedHashes(hs, news);
      forall h | TxState(h, false) in hs + Unflagged(news)
        ensures h in HashesOf(hs + Unflagged(news))
      {
        var i :| 0 <= i < |hs + Unflagged(news)| && (hs + Unflagged(news))[i] == TxState(h, false);
        assert HashesOf(hs + Unflagged(news))[i] == h;
      }
    }
  }

  // ---- credited on top of a value that contains it ----

  function OnlyOne(x: Hash): Hash -> bool {
    (h: Hash) => h == x
  }

  /** The node's answers, with the given transaction under its hash. */
  function Instead(lib: Library, content: Hash -> Transaction, t: Transaction): Hash -> Transaction {
    (h: Hash) => if h == lib.txHash(t) then t else content(h)
  }

  /** A round that finds just t and hears that it is confirmed. */
  function PayingRun(lib: Library, s: State, t: Transaction, content: Hash -> Transaction): seq<Event> {
    var x := lib.txHash(t);
    if x in PendingOf(s.round) then
      [Update(Replies(Instead(lib, content, t), PendingOf(s.round))), Credit(true)]
    else
      [Restart, Discover([x], [t]), Confirm(Answers(OnlyOne(x), Unconfirmed(Listing(s.hs, [x])))), Credit(true)]
  }

  lemma RunTwo(lib: Library, s: State, d: Event, e: Event)
    requires Enabled(s, d) && Enabled(Step(lib, s, d), e)
    requires SeedFresh(lib, s, d) && SeedFresh(lib, Step(lib, s, d), e)
    ensures ValidRun(lib, s, [d, e]) && SeedsFresh(lib, s, [d, e])
    ensures After(lib, s, [d, e]) == Step(lib, Step(lib, s, d), e)
    ensures Before(lib, s, [d, e], 1) == Step(lib, s, d)
  {
    RunMore(lib, s, [], d);
    RunMore(lib, s, [d], e);
    assert [] + [d] == [d] && [d] + [e] == [d, e];
    assert [d, e][..1] == [d] && [d][..0] == [];
  }

  lemma PendingPays(lib: Library, s: State, t: Transaction, content: Hash -> Transaction)
    requires Effective(s.store.db, t) && Served(lib, content, PendingOf(s.round)) && lib.txHash(t) in PendingOf(s.round)
    ensures var es := PayingRun(lib, s, t, content);
            ValidRun(lib, s, es) && SeedsFresh(lib, s, es) && EverCredited(lib, s, es, lib.txHash(t))
  {
    var x, q, c := lib.txHash(t), PendingOf(s.round), Instead(lib, content, t);
    var u := Update(Replies(c, q));
    var s1 := Step(lib, s, u);
    RunTwo(lib, s, u, Credit(true));
    PutReplies(lib, s.txs, c, q);
    hide PutAll;
    var i :| 0 <= i < |q| && q[i] == x;
    assert x in s1.txs && |s1.txs| > 0;
    assert Load(s1.txs, q).value[i] == Stored(t);
    assert EarnsAt(s1, x, i);
    assert CreditsAt(lib, s, [u, Credit(true)], x, 1);
  }

  lemma {:induction false} RunFour(lib: Library, s: State, es: seq<Event>, s1: State, s2: State, s3: State)
    requires |es| == 4 && Enabled(s, es[0]) && s1 == Step(lib, s, es[0]) && Enabled(s1, es[1])
    requires s2 == Step(lib, s1, es[1]) && Enabled(s2, es[2]) && s3 == Step(lib, s2, es[2]) && Enabled(s3, es[3])
    requires forall e :: e in es ==> !e.NewAddress? && !e.Restore?
    ensures ValidRun(lib, s, es) && SeedsFresh(lib, s, es) && Before(lib, s, es, 3) == s3
  {
    hide Step, Enabled;
    RunNone(lib, s);
    assert es[..0] == [] && es[..1] == [] + [es[0]] && es[..2] == es[..1] + [es[1]];
    assert es[..3] == es[..2] + [es[2]] && es == es[..3] + [es[3]];
    RunMore(lib, s, [], es[0]);
    RunMore(lib, s, es[..1], es[1]);
    RunMore(lib, s, es[..2], es[2]);
    RunMore(lib, s, es[..3], es[3]);
    NoSeeds(lib, s, es);
  }

  lemma {:induction false} NoSeeds(lib: Library, s: State, es: seq<Event>)
    requires ValidRun(lib, s, es) && forall e :: e in es ==> !e.NewAddress? && !e.Restore?
    ensures SeedsFresh(lib, s, es)
  {
    if es == [] {
    } else {
      NoSeeds(lib, s, es[..|es| - 1]);
      assert es[|es| - 1] in es;
    }
  }

  /** The state in which the round that finds just t credits it. */
  function PayingState(lib: Library, s: State, t: Transaction): State {
    var listed, only := Listing(s.hs, [lib.txHash(t)]), OnlyOne(lib.txHash(t));
    State(s.store.(cache := None), Marked(listed, only), s.txs[lib.txHash(t) := Stored(t)],
          Ready(ToRaise(listed, only)))
  }

  lemma PayingSteps(lib: Library, s: State, t: Transaction, content: Hash -> Transaction)
    requires lib.txHash(t) !in PendingOf(s.round)
    ensures var es := PayingRun(lib, s, t, content);
            && ValidRun(lib, s, es) && SeedsFresh(lib, s, es) && Before(lib, s, es, 3) == PayingState(lib, s, t)
  {
    hide Marked, ToRaise, News, Unconfirmed, PutAll, Flipped, HashesOf;
    var x := lib.txHash(t);
    var es := PayingRun(lib, s, t, content);
    var s1 := Step(lib, s, Restart);
    PutAllOne(lib, s.txs, t);
    var s2 := s1.(txs := s.txs[x := Stored(t)], round := Found(s.hs, News(s.hs, [x])));
    assert [x][..1] == [x];
    assert Enabled(s1, es[1]) && Step(lib, s1, es[1]) == s2;
    PayingConfirm(lib, s2, s.hs, x);
    assert Enabled(PayingState(lib, s, t), es[3]);
    hide Step, Enabled;
    RunFour(lib, s, es, s1, s2, PayingState(lib, s, t));
  }

  lemma PayingConfirm(lib: Library, s: State, hs: seq<TxState>, x: Hash)
    requires s.round == Found(hs, News(hs, [x]))
    ensures var listed := Listing(hs, [x]);
            var e := Confirm(Answers(OnlyOne(x), Unconfirmed(listed)));
            && Enabled(s, e)
            && Step(lib, s, e) == s.(hs := Marked(listed, OnlyOne(x)), round := Ready(ToRaise(listed, OnlyOne(x))))
  {
    FlipMarks(Listing(hs, [x]), OnlyOne(x));
    RaisedAreFlipped(Listing(hs, [x]), OnlyOne(x));
    hide Marked, ToRaise, News, Unconfirmed, Flipped;
  }

  lemma UnflaggedPays(lib: Library, s: State, t: Transaction, content: Hash -> Transaction)
    requires Effective(s.store.db, t) && lib.txHash(t) !in PendingOf(s.round) && TxState(lib.txHash(t), true) !in s.hs
    ensures var es := PayingRun(lib, s, t, content);
            ValidRun(lib, s, es) && SeedsFresh(lib, s, es) && EverCredited(lib, s, es, lib.txHash(t))
  {
    var x, es, c := lib.txHash(t), PayingRun(lib, s, t, content), PayingState(lib, s, t);
    PayingSteps(lib, s, t, content);
    ListedUnflagged(s.hs, x);
    ToRaiseExact(Listing(s.hs, [x]), OnlyOne(x));
    hide ToRaise, Marked, Before, ValidRun, SeedsFresh;
    var i :| 0 <= i < |c.round.confirmed| && c.round.confirmed[i] == x;
    assert |c.txs| > 0;
    assert EarnsAt(c, x, i);
    assert CreditsAt(lib, s, es, x, 3);
  }

  lemma PutAllOne(lib: Library, txs: TxBucket, t: Transaction)
    ensures PutAll(lib, txs, [t]) == txs[lib.txHash(t) := Stored(t)]
  {
    assert [t][..0] == [];
  }

  lemma ListedUnflagged(hs: seq<TxState>, x: Hash)
    requires TxState(x, true) !in hs
    ensures TxState(x, false) in Listing(hs, [x])
  {
    NewsExact(hs, [x]);
    var listed, news := Listing(hs, [x]), News(hs, [x]);
    if x in HashesOf(hs) {
      var i :| 0 <= i < |hs| && hs[i].hash == x;
      assert listed[i] == hs[i] == TxState(x, false);
    } else {
      var i :| 0 <= i < |news| && news[i] == x;
      assert listed[|hs| + i] == TxState(x, false);
    }
  }

  /** Exactly when a transaction can still be credited: on a wallet whose cached record holds nothing
      of its own, some continuation credits it if and only if its flag is not yet raised, or a
      round has raised it and is about to credit it. */
  lemma CreditableIff(lib: Library, s: State, h: History, t: Transaction, content: Hash -> Transaction)
    requires FlagsHold(s, h) && Effective(s.store.db, t)
    requires lib.txHash(t) in PendingOf(s.round) ==> Served(lib, content, PendingOf(s.round))
    ensures var x := lib.txHash(t);
            (exists es :: ValidRun(lib, s, es) && SeedsFresh(lib, s, es) && EverCredited(lib, s, es, x)) <==>
            TxState(x, true) !in s.hs || x in PendingOf(s.round)
  {
    var x := lib.txHash(t);
    if x in PendingOf(s.round) {
      PendingPays(lib, s, t, content);
    } else if TxState(x, true) !in s.hs {
      UnflaggedPays(lib, s, t, content);
    } else {
      forall es | ValidRun(lib, s, es)
        ensures !EverCredited(lib, s, es, x)
      {
        PassedNeverCredits(lib, s, h, es, x);
      }
    }
  }

  /** So, after a refresh has taken values that may already contain the transaction: in every
      continuation it is credited on top of them exactly when a step credits it, and some
      continuation does exactly when its flag was not raised before the refresh, or was
      waiting to be credited. */
  lemma RefreshedThenCreditedIff(lib: Library, s: State, h: History, e: Event, t: Transaction,
        content: Hash -> Transaction)
    requires Invariant(lib, s, h) && e.Refresh? && Enabled(s, e)
    requires Effective(s.store.db, t)
    requires lib.txHash(t) in PendingOf(s.round) ==> Served(lib, content, PendingOf(s.round))
    ensures var u, g, x := Step(lib, s, e), StepHistory(lib, s, h, e), lib.txHash(t);
            && (forall es :: ValidRun(lib, u, es) && SeedsFresh(lib, u, es) ==>
                  (Posted(HistoryAfter(lib, u, g, es).credited, x) <==>
                   Posted(h.credited, x) || EverCredited(lib, u, es, x)))
            && ((exists es :: ValidRun(lib, u, es) && SeedsFresh(lib, u, es) && EverCredited(lib, u, es, x)) <==>
                TxState(x, true) !in s.hs || x in PendingOf(s.round))
  {
    var u, g, x := Step(lib, s, e), StepHistory(lib, s, h, e), lib.txHash(t);
    StepKeepsLedger(lib, s, h, e);
    StepKeepsFlags(lib, s, h, e);
    OwnerSame(s.store.db, e.db, t.address);
    RaisesNoFlag(s.hs, e.news, x);
    CreditableIff(lib, u, g, t, content);
    hide LedgerHolds, FlagsHold, EverCredited, Posted, SeedsFresh;
    forall es | ValidRun(lib, u, es) && SeedsFresh(lib, u, es)
      ensures Posted(HistoryAfter(lib, u, g, es).credited, x) <==> Posted(h.credited, x) || EverCredited(lib, u, es, x)
    {
      CreditedFrom(lib, u, g, es, x);
    }
  }

  lemma RaisesNoFlag(hs: seq<TxState>, news: seq<Hash>, x: Hash)
    ensures TxState(x, true) in hs + Unflagged(news) <==> TxState(x, true) in hs
  {
  }
}
