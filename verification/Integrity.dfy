/** Referential integrity over every run: listed hashes and stored transactions, and when the
    credit step misses one.  RefreshAccount lists hashes and stores nothing. */
module Integrity {
  import opened Gadk
  import opened Hashes
  import opened Ledger
  import opened Runs

  /** The node has returned every transaction a round asked for. */
  ghost predicate Answered(lib: Library, s: State, e: Event)
    requires Enabled(s, e)
  {
    e.Discover? ==> forall h :: h in News(s.hs, e.input) ==> h in HashesIn(lib, e.reply)
  }

  ghost predicate AllAnswered(lib: Library, s: State, es: seq<Event>)
    requires ValidRun(lib, s, es)
  {
    es == [] || (AllAnswered(lib, s, es[..|es| - 1]) && Answered(lib, After(lib, s, es[..|es| - 1]), es[|es| - 1]))
  }

  function HashesIn(lib: Library, trs: seq<Transaction>): set<Hash> {
    set t | t in trs :: lib.txHash(t)
  }

  /** The hashes of the transactions the rounds and UpdateTXs of a run received. */
  function Received(lib: Library, es: seq<Event>): set<Hash> {
    if es == [] then {}
    else
      Received(lib, es[..|es| - 1]) +
      match es[|es| - 1]
      case Discover(_, reply) => HashesIn(lib, reply)
      case Update(reply) => HashesIn(lib, reply)
      case _ => {}
  }

  /** The hashes the refreshes of a run listed. */
  function Refreshed(es: seq<Event>): set<Hash> {
    if es == [] then {}
    else
      Refreshed(es[..|es| - 1]) +
      match es[|es| - 1]
      case Refresh(_, news, _) => (set h | h in news)
      case _ => {}
  }

  /** Everything listed, to be listed or to be credited was received or comes from a refresh. */
  ghost predicate Accounted(s: State, received: set<Hash>, refreshed: set<Hash>) {
    && s.txs.Keys == received
    && (forall h :: h in HashesOf(s.hs) ==> h in received || h in refreshed)
    && match s.round
       case Idle => true
       case Found(hs, news) =>
         && (forall h :: h in HashesOf(hs) ==> h in received || h in refreshed)
         && forall h :: h in news ==> h in received
       case Ready(confirmed) => forall h :: h in confirmed ==> h in HashesOf(s.hs)
  }

  lemma PutAllExactly(lib: Library, txs: TxBucket, trs: seq<Transaction>)
    ensures PutAll(lib, txs, trs).Keys == txs.Keys + HashesIn(lib, trs)
  {
    PutAllKeys(lib, txs, trs);
  }

  lemma StepKeepsAccounted(lib: Library, s: State, e: Event, received: set<Hash>, refreshed: set<Hash>)
    requires Accounted(s, received, refreshed) && Enabled(s, e) && Answered(lib, s, e)
    ensures var more := match e
              case Discover(_, reply) => HashesIn(lib, reply)
              case Update(reply) => HashesIn(lib, reply)
              case _ => {};
            var listed := match e case Refresh(_, news, _) => (set h | h in news) case _ => {};
            Accounted(Step(lib, s, e), received + more, refreshed + listed)
  {
    match e
    case Discover(input, reply) => PutAllExactly(lib, s.txs, reply);
    case Update(reply) => PutAllExactly(lib, s.txs, reply);
    case Refresh(_, news, _) => ListedHashes(s.hs, news);
    case Confirm(states) => ConfirmAccounted(lib, s, states, received, refreshed);
    case _ =>
  }

  lemma ConfirmAccounted(lib: Library, s: State, states: seq<bool>, received: set<Hash>, refreshed: set<Hash>)
    requires Accounted(s, received, refreshed) && s.round.Found?
    ensures Accounted(Step(lib, s, Confirm(states)), received + {}, refreshed + {})
  {
    var listed := s.round.hs + Unflagged(s.round.news);
    ListedHashes(s.round.hs, s.round.news);
    ConfirmedExtends(listed, states);
    FlippedAreListed(listed, Confirmed(listed, states));
    hide HashesOf, Confirmed, Flipped, Extends, Unflagged;
    assert received + {} == received && refreshed + {} == refreshed;
  }

  lemma {:induction false} RunAccounted(lib: Library, es: seq<Event>)
    requires ValidRun(lib, START, es) && AllAnswered(lib, START, es)
    ensures Accounted(After(lib, START, es), Received(lib, es), Refreshed(es))
  {
    if es == [] {
      assert HashesOf(START.hs) == [];
    } else {
      var init := es[..|es| - 1];
      RunAccounted(lib, init);
      hide Accounted, Step;
      StepKeepsAccounted(lib, After(lib, START, init), es[|es| - 1], Received(lib, init), Refreshed(init));
    }
  }

  /** Over every run on a node that returns what rounds ask for, interrupted anywhere, the
      credit step misses a transaction exactly when it credits a hash that a refresh listed
      and no reply has brought, neither a round's nor that of UpdateTXs; or when it has
      nothing to credit and nothing was ever stored. */
  lemma CreditMissesIff(lib: Library, es: seq<Event>)
    requires ValidRun(lib, START, es) && AllAnswered(lib, START, es) && After(lib, START, es).round.Ready?
    ensures var s := After(lib, START, es);
            Load(s.txs, s.round.confirmed).None? <==>
            (s.round.confirmed == [] && Received(lib, es) == {}) ||
            exists h :: h in s.round.confirmed && h in Refreshed(es) && h !in Received(lib, es)
  {
    RunAccounted(lib, es);
    var s := After(lib, START, es);
    assert |s.txs| == 0 <==> s.txs.Keys == {};
    if s.round.confirmed != [] {
      assert s.round.confirmed[0] in s.round.confirmed;
    }
  }

  /** Likewise a listed hash lacks its transaction only when a refresh listed it and no reply
      has brought it. */
  lemma ListedWithoutTransaction(lib: Library, es: seq<Event>, h: Hash)
    requires ValidRun(lib, START, es) && AllAnswered(lib, START, es)
    requires h in HashesOf(After(lib, START, es).hs)
    ensures h !in After(lib, START, es).txs <==> h in Refreshed(es) && h !in Received(lib, es)
  {
    RunAccounted(lib, es);
  }

  /** So without a refresh, or once replies have brought everything refreshed, every listed hash
      has its transaction. */
  lemma IntactOverRuns(lib: Library, es: seq<Event>)
    requires ValidRun(lib, START, es) && AllAnswered(lib, START, es) && Refreshed(es) <= Received(lib, es)
    ensures var s := After(lib, START, es);
            && Intact(s.hs, s.txs)
            && (s.round.Ready? && s.round.confirmed != [] ==> Load(s.txs, s.round.confirmed).Some?)
  {
    RunAccounted(lib, es);
    if After(lib, START, es).round.Ready? {
      CreditMissesIff(lib, es);
    }
  }

  /** UpdateTXs re-establishes integrity when the node returns what it asks for. */
  lemma UpdateRestores(lib: Library, s: State, reply: seq<Transaction>)
    requires forall h :: h in Missing(s.hs, s.txs) ==> h in HashesIn(lib, reply)
    ensures var t := Step(lib, s, Update(reply)); Intact(t.hs, t.txs)
  {
    PutAllExactly(lib, s.txs, reply);
    MissingExact(s.hs, s.txs);
  }

  // ---- stored transactions that are not listed ----

  /** The hashes on the list, and those that will be there when the round under way confirms. */
  datatype Listed = Listed(now: set<Hash>, next: set<Hash>)

  /** A round offers what is listed and what it found; its confirmation makes that the list,
      whatever was listed in between. */
  function Lists(l: Listed, e: Event): Listed {
    match e
    case Discover(input, _) => l.(next := l.now + set h | h in input)
    case Confirm(_) => l.(now := l.next)
    case Refresh(_, news, _) => l.(now := l.now + set h | h in news)
    case _ => l
  }

  function ListedBy(es: seq<Event>): Listed {
    if es == [] then Listed({}, {}) else Lists(ListedBy(es[..|es| - 1]), es[|es| - 1])
  }

  function HashSet(hs: seq<TxState>): set<Hash> {
    set h | h in HashesOf(hs)
  }

  ghost predicate ListedExactly(s: State, l: Listed) {
    && HashSet(s.hs) == l.now
    && (s.round.Found? ==> HashSet(s.round.hs) + (set h | h in s.round.news) == l.next)
  }

  lemma StepLists(lib: Library, s: State, e: Event, l: Listed)
    requires ListedExactly(s, l) && Enabled(s, e)
    ensures ListedExactly(Step(lib, s, e), Lists(l, e))
  {
    match e
    case Discover(input, reply) =>
      NewsExact(s.hs, input);
      hide News, PutAll;
      assert HashSet(s.hs) + (set h | h in News(s.hs, input)) == l.now + set h | h in input;
    case Confirm(states) =>
      var listed := s.round.hs + Unflagged(s.round.news);
      ListedHashes(s.round.hs, s.round.news);
      ConfirmedExtends(listed, states);
      hide Confirmed, Flipped, Extends;
      assert HashSet(Confirmed(listed, states)) == l.next;
    case Refresh(_, news, _) =>
      ListedHashes(s.hs, news);
      assert HashSet(s.hs + Unflagged(news)) == l.now + set h | h in news;
    case _ =>
  }

  lemma StepReceives(lib: Library, s: State, e: Event)
    requires Enabled(s, e)
    ensures Step(lib, s, e).txs.Keys == s.txs.Keys +
            match e
            case Discover(_, reply) => HashesIn(lib, reply)
            case Update(reply) => HashesIn(lib, reply)
            case _ => {}
  {
    match e
    case Discover(_, reply) => PutAllExactly(lib, s.txs, reply);
    case Update(reply) => PutAllExactly(lib, s.txs, reply);
    case _ =>
  }

  lemma {:induction false} RunListed(lib: Library, es: seq<Event>)
    requires ValidRun(lib, START, es)
    ensures ListedExactly(After(lib, START, es), ListedBy(es)) && After(lib, START, es).txs.Keys == Received(lib, es)
  {
    if es == [] {
      assert HashesOf(START.hs) == [];
    } else {
      var init, e := es[..|es| - 1], es[|es| - 1];
      RunListed(lib, init);
      hide ListedExactly, Step, Lists;
      StepLists(lib, After(lib, START, init), e, ListedBy(init));
      StepReceives(lib, After(lib, START, init), e);
    }
  }

  /** Over every run a transaction is stored without being listed exactly when a reply brought it
      and the list does not come to hold it: no round has confirmed since it was found, or a
      confirmation has overwritten what a refresh listed.  So every stored transaction is
      listed exactly when the run has listed everything it received. */
  lemma StoredUnlistedIff(lib: Library, es: seq<Event>, h: Hash)
    requires ValidRun(lib, START, es)
    ensures var s := After(lib, START, es);
            && (h in s.txs && h !in HashesOf(s.hs) <==> h in Received(lib, es) && h !in ListedBy(es).now)
            && ((forall x :: x in s.txs ==> x in HashesOf(s.hs)) <==> Received(lib, es) <= ListedBy(es).now)
  {
    RunListed(lib, es);
  }
}
