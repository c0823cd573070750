/** The reading handlers listtransactions and gettransaction of aidos/apis.go. */
module Listings {
  import opened Gadk
  import opened Sums
  import opened Accounts
  import opened Stores
  import opened Hashes
  import opened Wallets

  /** One line of the listing. */
  datatype Item = Item(hash: Hash, tx: Transaction, account: Option<string>, confirmed: bool)

  /** What becomes of one list entry: it is passed over, listed, or ends the call.  A stored
      transaction of an unconfirmed entry's bundle may be unlisted, which is an error; and an
      account filter dereferences the account of an address that has none. */
  datatype Verdict = Skip | Keep(item: Item) | HashNotFound | NilAccount

  datatype Ending = Done | Stopped(why: Verdict)

  const ALL := "*"

  ghost function OwnerName(db: map<Key, Acct>, adr: Address): Option<string> {
    var k := Owner(db, adr);
    if k.Some? then Some(db[k.value].name) else None
  }

  /** Some transaction of the bundle is confirmed. */
  ghost predicate BundleConfirmed(hs: seq<TxState>, txs: TxBucket, bundle: Hash) {
    exists h :: h in Mates(txs, bundle) && TxState(h, true) in hs
  }

  ghost predicate BundleListed(hs: seq<TxState>, txs: TxBucket, bundle: Hash) {
    forall h :: h in Mates(txs, bundle) ==> h in HashesOf(hs)
  }

  ghost function Judge(hs: seq<TxState>, txs: TxBucket, db: map<Key, Acct>, acc: string, t: TxState): Verdict {
    if t.hash !in txs then Skip
    else
      var tr := txs[t.hash];
      var name := OwnerName(db, tr.address);
      if !t.confirmed && !BundleListed(hs, txs, tr.bundle) then HashNotFound
      else if acc != ALL && name.None? then NilAccount
      else if acc != ALL && name.value != acc then Skip
      else Keep(Item(t.hash, tr, name, BundleConfirmed(hs, txs, tr.bundle)))
  }

  /** The verdicts on the whole list, newest entry first. */
  ghost function Verdicts(hs: seq<TxState>, txs: TxBucket, db: map<Key, Acct>, acc: string): seq<Verdict> {
    seq(|hs|, i requires 0 <= i < |hs| => Judge(hs, txs, db, acc, hs[|hs| - 1 - i]))
  }

  function Keeps(vs: seq<Verdict>): seq<Item> {
    if vs == [] then []
    else Keeps(vs[..|vs| - 1]) + if vs[|vs| - 1].Keep? then [vs[|vs| - 1].item] else []
  }

  predicate Bad(v: Verdict) {
    v.HashNotFound? || v.NilAccount?
  }

  /** The position of the first entry that ends the call, or the length. */
  function FirstBad(vs: seq<Verdict>): (b: nat)
    ensures b <= |vs| && (b < |vs| ==> Bad(vs[b]))
    ensures forall i :: 0 <= i < b ==> !Bad(vs[i])
  {
    if vs == [] || Bad(vs[0]) then 0 else 1 + FirstBad(vs[1..])
  }

  function Clamp(n: int, max: nat): (r: nat)
    ensures r <= max
  {
    if n < 0 then 0 else if n > max then max else n
  }

  function Behind(ks: seq<Item>, skip: int): seq<Item> {
    ks[Clamp(skip, |ks|)..]
  }

  /** Drop `skip`, then take `num`; negative numbers count as 0. */
  function Page(ks: seq<Item>, skip: int, num: int): seq<Item> {
    var rest := Behind(ks, skip);
    rest[..Clamp(num, |rest|)]
  }

  /** Two consecutive pages make one larger page. */
  lemma PagesConcat(ks: seq<Item>, skip: nat, m: nat, n: nat)
    ensures Page(ks, skip, m) + Page(ks, skip + m, n) == Page(ks, skip, m + n)
  {
  }

  lemma {:induction false} KeepsPrefix(vs: seq<Verdict>, i: nat)
    requires i <= |vs|
    ensures Keeps(vs[..i]) <= Keeps(vs)
    decreases |vs|
  {
    if i < |vs| {
      KeepsPrefix(vs[..|vs| - 1], i);
      assert vs[..|vs| - 1][..i] == vs[..i];
    } else {
      assert vs[..i] == vs;
    }
  }

  /** The name found for an address does not depend on the cache, fresh or stale. */
  lemma FindNames(lib: Library, s: Store, adr: Address)
    requires Valid(lib, s)
    ensures OwnerName(s.db, adr) == if Find(s, adr).None? then None else Some(Find(s, adr).value.name)
  {
    if s.cache.Some? && Has(s.cache.value, adr) {
      var k := ToKey(s.cache.value.name);
      IndexOfSame(s.db[k].bals, s.cache.value.bals, adr);
      OwnerUnique(lib, s.db, k, adr);
    }
  }

  method AnyConfirmed(hs: seq<TxState>) returns (inc: bool)
    ensures inc <==> exists t :: t in hs && t.confirmed
  {
    inc := false;
    for i := 0 to |hs|
      invariant inc <==> exists j :: 0 <= j < i && hs[j].confirmed
    {
      if hs[i].confirmed {
        inc := true;
      }
    }
    assert inc ==> exists j :: 0 <= j < |hs| && hs[j].confirmed && hs[j] in hs;
  }

  /** Whether the bundle counts as confirmed for an entry; None when a mate is unlisted. */
  method Inclusion(db: HashDB, target: TxState) returns (inc: Option<bool>)
    requires target.hash in db.txs && target in db.hashes
    ensures var bundle := db.txs[target.hash].bundle;
            inc == if !target.confirmed && !BundleListed(db.hashes, db.txs, bundle) then None
                   else Some(BundleConfirmed(db.hashes, db.txs, bundle))
  {
    var bundle := db.txs[target.hash].bundle;
    assert target.hash in Mates(db.txs, bundle);
    if target.confirmed {
      assert target == TxState(target.hash, true);
      return Some(true);
    }
    assert |db.txs| > 0;
    var found, trs, states, keys := db.FindTX(bundle);
    if !found {
      return None;
    }
    var any := AnyConfirmed(states);
    if any {
      var t :| t in states && t.confirmed;
      assert t == TxState(t.hash, true);
    }
    return Some(any);
  }

  /** One turn of the loop.  findAddress moves the cache. */
  method JudgeEntry(w: Wallet, acc: string, target: TxState) returns (v: Verdict)
    requires w.Ok() && target in w.db.hashes
    modifies w`lastAccount
    ensures w.Ok() && (Agrees(old(w.View())) ==> Agrees(w.View()))
    ensures v == Judge(w.db.hashes, w.db.txs, w.StoredAccounts(), acc, target)
    ensures forall p :: 0 <= p < |w.db.hashes| && w.db.hashes[p] == target ==>
              Judged(Source(w.db.hashes, w.db.txs, w.StoredAccounts(), acc), p, v)
  {
    JudgedAs(w, acc, target);
    if target.hash !in w.db.txs {
      return Skip;
    }
    var tr := w.db.txs[target.hash];
    var inc := Inclusion(w.db, target);
    if inc.None? {
      return HashNotFound;
    }
    ghost var s := w.View();
    FindNames(w.lib, s, tr.address);
    TouchAgrees(w.lib, s, tr.address);
    hide Valid, Agrees, Owner, BundleConfirmed, BundleListed;
    var ac, index := w.FindAddress(tr.address);
    if acc != ALL && ac == null {
      return NilAccount;
    }
    if acc != ALL && ac.name != acc {
      return Skip;
    }
    return Keep(Item(target.hash, tr, if ac == null then None else Some(ac.name), inc.value));
  }

  lemma JudgedAs(w: Wallet, acc: string, target: TxState)
    requires w.Ok()
    ensures var v := Judge(w.db.hashes, w.db.txs, w.StoredAccounts(), acc, target);
            forall p :: 0 <= p < |w.db.hashes| && w.db.hashes[p] == target ==>
              Judged(Source(w.db.hashes, w.db.txs, w.StoredAccounts(), acc), p, v)
  {
    forall p | 0 <= p < |w.db.hashes|
      ensures Judged(Source(w.db.hashes, w.db.txs, w.StoredAccounts(), acc), p,
                     Judge(w.db.hashes, w.db.txs, w.StoredAccounts(), acc, w.db.hashes[p]))
    {
      VerdictMeans(w.lib, Source(w.db.hashes, w.db.txs, w.StoredAccounts(), acc), p);
    }
  }

  lemma TouchAgrees(lib: Library, s: Store, adr: Address)
    requires Valid(lib, s)
    ensures Agrees(s) ==> Agrees(Touch(s, adr))
  {
    if Agrees(s) {
      CacheInvisible(lib, s, adr, "");
    }
  }

  /** The list in reverse, the entries of the account, `skip` of them dropped and `num` taken:
      as long as no entry before the page is full ends the call. */
  method ListTransactions(w: Wallet, acc: string, num: int, skip: int)
      returns (ltx: seq<Item>, end: Ending, ghost all: seq<int>, ghost low: int)
    requires w.Ok()
    modifies w`lastAccount
    ensures w.Ok() && (Agrees(old(w.View())) ==> Agrees(w.View()))
    ensures var vs := Verdicts(w.db.hashes, w.db.txs, w.StoredAccounts(), acc);
            var b := FirstBad(vs);
            && ltx == Page(Keeps(vs[..b]), skip, num)
            && end == if num <= 0 || b == |vs| || |ltx| == num then Done else Stopped(vs[b])
    ensures Shows(Source(w.db.hashes, w.db.txs, w.StoredAccounts(), acc), num, skip, ltx, end, all, low)
    ensures acc != "*" ==> forall item :: item in ltx ==> item.account == Some(acc)
  {
    ltx, end := ListItems(w, acc, num, skip);
    ghost var src := Source(w.db.hashes, w.db.txs, w.StoredAccounts(), acc);
    hide Shows, Agrees, Verdicts, FirstBad, Page, Keeps;
    all, low := ListingShows(w.lib, src, num, skip, ltx, end);
    ShowsOnly(w.lib, src, num, skip, ltx, end, all, low);
  }

  /** The loop of the handler. */
  method ListItems(w: Wallet, acc: string, num: int, skip: int) returns (ltx: seq<Item>, end: Ending)
    requires w.Ok()
    modifies w`lastAccount
    ensures w.Ok() && (Agrees(old(w.View())) ==> Agrees(w.View()))
    ensures var vs := Verdicts(w.db.hashes, w.db.txs, w.StoredAccounts(), acc);
            var b := FirstBad(vs);
            && ltx == Page(Keeps(vs[..b]), skip, num)
            && end == if num <= 0 || b == |vs| || |ltx| == num then Done else Stopped(vs[b])
  {
    hide Valid, Agrees, Judge, Judged, Progress, Page, Behind, FirstBad, Verdicts, Keeps;
    var hs := w.db.hashes;
    ghost var vs := Verdicts(hs, w.db.txs, w.StoredAccounts(), acc);
    ltx := [];
    var skipped, i := 0, 0;
    ProgressNone(vs, skip, num);
    VerdictsAt(hs, w.db.txs, w.StoredAccounts(), acc);
    while i < |hs| && |ltx| < num
      invariant 0 <= i <= |hs|
      invariant w.Ok() && (Agrees(old(w.View())) ==> Agrees(w.View()))
      invariant Progress(vs, skip, num, i, skipped, ltx)
    {
      var v := JudgeEntry(w, acc, hs[|hs| - 1 - i]);
      assert v == vs[i];
      if Bad(v) {
        ProgressEnds(vs, skip, num, i, skipped, ltx);
        return ltx, Stopped(v);
      }
      ghost var skipped0, ltx0 := skipped, ltx;
      if v.Keep? {
        skipped := skipped + 1;
        if skipped > skip {
          ltx := ltx + [v.item];
        }
      }
      i := i + 1;
      ProgressStep(vs, skip, num, skipped0, ltx0, i, skipped, ltx);
    }
    ProgressDone(vs, skip, num, i, skipped, ltx);
    return ltx, Done;
  }

  lemma VerdictsAt(hs: seq<TxState>, txs: TxBucket, db: map<Key, Acct>, acc: string)
    ensures var vs := Verdicts(hs, txs, db, acc);
            && |vs| == |hs|
            && forall i :: 0 <= i < |hs| ==> vs[i] == Judge(hs, txs, db, acc, hs[|hs| - 1 - i])
  {
  }

  /** The loop of listtransactions before entry i. */
  ghost predicate Progress(vs: seq<Verdict>, skip: int, num: int, i: nat, skipped: nat, ltx: seq<Item>) {
    && i <= FirstBad(vs)
    && skipped == |Keeps(vs[..i])|
    && ltx == Behind(Keeps(vs[..i]), skip)
    && (|ltx| <= num || ltx == [])
  }

  lemma ProgressNone(vs: seq<Verdict>, skip: int, num: int)
    ensures Progress(vs, skip, num, 0, 0, [])
  {
  }

  lemma ProgressEnds(vs: seq<Verdict>, skip: int, num: int, i: nat, skipped: nat, ltx: seq<Item>)
    requires Progress(vs, skip, num, i, skipped, ltx) && i < |vs| && |ltx| < num && Bad(vs[i])
    ensures i == FirstBad(vs) && ltx == Page(Keeps(vs[..i]), skip, num)
  {
  }

  lemma ProgressStep(vs: seq<Verdict>, skip: int, num: int, skipped0: nat, ltx0: seq<Item>, i: nat, skipped: nat,
        ltx: seq<Item>)
    requires 0 < i <= |vs| && |ltx0| < num && !Bad(vs[i - 1])
    requires Progress(vs, skip, num, i - 1, skipped0, ltx0)
    requires skipped == if vs[i - 1].Keep? then skipped0 + 1 else skipped0
    requires ltx == if vs[i - 1].Keep? && skipped > skip then ltx0 + [vs[i - 1].item] else ltx0
    ensures Progress(vs, skip, num, i, skipped, ltx)
  {
    assert vs[..i][..i - 1] == vs[..i - 1];
  }

  /** Once the page is full, or the list at its end, the later entries do not matter. */
  lemma ProgressDone(vs: seq<Verdict>, skip: int, num: int, i: nat, skipped: nat, ltx: seq<Item>)
    requires Progress(vs, skip, num, i, skipped, ltx) && (i == |vs| || |ltx| >= num)
    ensures ltx == Page(Keeps(vs[..FirstBad(vs)]), skip, num)
    ensures num <= 0 || FirstBad(vs) == |vs| || |ltx| == num
  {
    hide Keeps, Behind, Bad, Page, Clamp;
    var b := FirstBad(vs);
    KeepsPrefix(vs[..b], i);
    assert vs[..b][..i] == vs[..i];
    var some, all := Keeps(vs[..i]), Keeps(vs[..b]);
    assert skipped == |some| && ltx == Behind(some, skip) && (|ltx| <= num || ltx == []);
    assert i == |vs| ==> i == b && some == all;
    PageEarly(some, all, skip, num, ltx);
  }

  lemma PageEarly(some: seq<Item>, all: seq<Item>, skip: int, num: int, ltx: seq<Item>)
    requires some <= all && (some == all || |ltx| >= num) && (|ltx| <= num || ltx == [])
    requires ltx == Behind(some, skip)
    ensures ltx == Page(all, skip, num)
    ensures num <= 0 || some == all || |ltx| == num
  {
  }

  // ---- what the listing shows, entry by entry ----

  /** What a call reads. */
  datatype Source = Source(hs: seq<TxState>, txs: TxBucket, db: map<Key, Acct>, acc: string)

  /** An account of this name has the address. */
  ghost predicate OwnedBy(db: map<Key, Acct>, adr: Address, name: string) {
    exists k :: k in db && Has(db[k], adr) && db[k].name == name
  }

  /** List entry p is stored, and is about the account asked for. */
  ghost predicate Matches(src: Source, p: int) {
    && 0 <= p < |src.hs| && src.hs[p].hash in src.txs
    && (src.acc == "*" || OwnedBy(src.db, src.txs[src.hs[p].hash].address, src.acc))
  }

  /** List entry p is stored and unconfirmed, and a stored transaction of its bundle is not listed. */
  ghost predicate Stuck(src: Source, p: int) {
    && 0 <= p < |src.hs| && src.hs[p].hash in src.txs && !src.hs[p].confirmed
    && exists h ::
         h in src.txs && src.txs[h].bundle == src.txs[src.hs[p].hash].bundle && h !in HashesOf(src.hs)
  }

  /** List entry p ends the call: it is stuck, or it is stored, an account is asked for and no account
      has its address. */
  ghost predicate Ends(src: Source, p: int) {
    || Stuck(src, p)
    || (&& 0 <= p < |src.hs| && src.hs[p].hash in src.txs && src.acc != "*"
        && forall k :: k in src.db ==> !Has(src.db[k], src.txs[src.hs[p].hash].address))
  }

  /** The item shows list entry p: its transaction, the account that has its address, and whether a
      transaction of its bundle is flagged. */
  ghost predicate ShowsEntry(src: Source, p: int, item: Item) {
    && 0 <= p < |src.hs| && item.hash == src.hs[p].hash && item.hash in src.txs && item.tx == src.txs[item.hash]
    && (item.account.Some? ==> OwnedBy(src.db, item.tx.address, item.account.value))
    && (item.account.None? ==> forall k :: k in src.db ==> !Has(src.db[k], item.tx.address))
    && (item.confirmed <==>
          exists h :: h in src.txs && src.txs[h].bundle == item.tx.bundle && TxState(h, true) in src.hs)
  }

  lemma NameIsOwner(lib: Library, db: map<Key, Acct>, adr: Address, name: string)
    requires Injective(lib) && ValidDb(lib, db)
    ensures OwnerName(db, adr) == Some(name) <==> OwnedBy(db, adr, name)
    ensures OwnerName(db, adr).None? <==> forall k :: k in db ==> !Has(db[k], adr)
  {
    if k :| k in db && Has(db[k], adr) && db[k].name == name {
      OwnerUnique(lib, db, k, adr);
    }
  }

  /** What the verdict on list entry p means. */
  ghost predicate Judged(src: Source, p: int, v: Verdict) {
    && (Bad(v) <==> Ends(src, p)) && (v.HashNotFound? <==> Stuck(src, p))
    && (v.Keep? <==> Matches(src, p) && !Ends(src, p))
    && (v.Keep? ==> ShowsEntry(src, p, v.item))
  }

  lemma VerdictMeans(lib: Library, src: Source, p: nat)
    requires Injective(lib) && ValidDb(lib, src.db) && p < |src.hs|
    ensures Judged(src, p, Judge(src.hs, src.txs, src.db, src.acc, src.hs[p]))
  {
    var t := src.hs[p];
    if t.hash in src.txs {
      var tr := src.txs[t.hash];
      BundleMeans(src, tr.bundle);
      NameIsOwner(lib, src.db, tr.address, src.acc);
      var name := OwnerName(src.db, tr.address);
      if name.Some? {
        NameIsOwner(lib, src.db, tr.address, name.value);
      }
      hide OwnerName, OwnedBy, BundleListed, BundleConfirmed, Has;
    }
  }

  lemma BundleMeans(src: Source, bundle: Hash)
    ensures BundleListed(src.hs, src.txs, bundle) <==>
            !exists h :: h in src.txs && src.txs[h].bundle == bundle && h !in HashesOf(src.hs)
    ensures BundleConfirmed(src.hs, src.txs, bundle) <==>
            exists h :: h in src.txs && src.txs[h].bundle == bundle && TxState(h, true) in src.hs
  {
    assert forall h :: h in Mates(src.txs, bundle) <==> h in src.txs && src.txs[h].bundle == bundle;
  }

  ghost predicate Falling(at: seq<int>) {
    forall i, j :: 0 <= i < j < |at| ==> at[i] > at[j]
  }

  /** All list positions from `low` on that match, newest first. */
  ghost predicate AllMatches(src: Source, low: int, at: seq<int>) {
    Falling(at) && forall p :: p in at <==> low <= p && Matches(src, p)
  }

  /** The items show the list entries at the positions. */
  ghost predicate ShowsAll(src: Source, at: seq<int>, ks: seq<Item>) {
    |ks| == |at| && forall i :: 0 <= i < |at| ==> ShowsEntry(src, at[i], ks[i])
  }

  /** Of the first i verdicts, none of which ends the call, the kept ones are about all matching
      entries among the last i of the list. */
  lemma {:induction false} KeptMatches(src: Source, vs: seq<Verdict>, i: nat) returns (at: seq<int>)
    requires i <= |vs| == |src.hs|
    requires forall j :: 0 <= j < i ==> Judged(src, |src.hs| - 1 - j, vs[j]) && !Bad(vs[j])
    ensures AllMatches(src, |src.hs| - i, at) && ShowsAll(src, at, Keeps(vs[..i]))
  {
    if i == 0 {
      at := [];
    } else {
      hide Matches, Ends, ShowsEntry;
      var p := |src.hs| - i;
      at := KeptMatches(src, vs, i - 1);
      assert vs[..i][..i - 1] == vs[..i - 1];
      if vs[i - 1].Keep? {
        OneMoreMatch(src, p, at);
        at := at + [p];
      } else {
        assert Keeps(vs[..i]) == Keeps(vs[..i - 1]);
      }
    }
  }

  lemma OneMoreMatch(src: Source, p: int, at: seq<int>)
    requires AllMatches(src, p + 1, at) && Matches(src, p)
    ensures AllMatches(src, p, at + [p])
  {
    hide Matches;
    forall i | 0 <= i < |at|
      ensures at[i] > p
    {
      assert at[i] in at;
    }
  }

  /** What a listing is: `all` are the matching entries, newest first; `skip` of them are dropped and
      `num` shown.  It ends early at an entry only if the page is not full before it. */
  ghost predicate Shows(src: Source, num: int, skip: int, ltx: seq<Item>, end: Ending, all: seq<int>, low: int) {
    var from := if skip < 0 then 0 else if skip > |all| then |all| else skip;
    var size := if num < 0 then 0 else if num > |all| - from then |all| - from else num;
    && AllMatches(src, low, all)
    && ShowsAll(src, all[from..from + size], ltx)
    && (forall p :: low <= p ==> !Ends(src, p))
    && (low > 0 ==> Ends(src, low - 1))
    && (end.Done? ==> low == 0 || size == num || num <= 0)
    && (!end.Done? ==>
          && low > 0 && size < num
          && end.why == if Stuck(src, low - 1) then HashNotFound else NilAccount)
  }

  lemma ListingShows(lib: Library, src: Source, num: int, skip: int, ltx: seq<Item>, end: Ending)
      returns (all: seq<int>, low: int)
    requires Injective(lib) && ValidDb(lib, src.db)
    requires var vs := Verdicts(src.hs, src.txs, src.db, src.acc);
             var b := FirstBad(vs);
             && ltx == Page(Keeps(vs[..b]), skip, num)
             && end == if num <= 0 || b == |vs| || |ltx| == num then Done else Stopped(vs[b])
    ensures Shows(src, num, skip, ltx, end, all, low)
  {
    hide Judge, Keeps, Matches, Ends, ShowsEntry, ValidDb, Injective;
    var n := |src.hs|;
    var vs := Verdicts(src.hs, src.txs, src.db, src.acc);
    var b := FirstBad(vs);
    forall j | 0 <= j < n
      ensures Judged(src, n - 1 - j, vs[j])
    {
      VerdictMeans(lib, src, n - 1 - j);
    }
    all := KeptMatches(src, vs, b);
    low := n - b;
    forall p | low <= p
      ensures !Ends(src, p)
    {
      if p < n {
        assert Judged(src, p, vs[n - 1 - p]);
      } else {
        EndsInside(src, p);
      }
    }
    if low > 0 {
      assert Judged(src, low - 1, vs[b]);
    }
  }

  /** Asked for one account, the listing shows entries of that account only. */
  lemma ShowsOnly(lib: Library, src: Source, num: int, skip: int, ltx: seq<Item>, end: Ending, all: seq<int>, low: int)
    requires Injective(lib) && ValidDb(lib, src.db) && Shows(src, num, skip, ltx, end, all, low)
    ensures src.acc != "*" ==> forall item :: item in ltx ==> item.account == Some(src.acc)
  {
    hide Ends, Has;
    if src.acc != "*" {
      forall i | 0 <= i < |ltx|
        ensures ltx[i].account == Some(src.acc)
      {
        var from := if skip < 0 then 0 else if skip > |all| then |all| else skip;
        var p := all[from + i];
        assert p in all && ShowsEntry(src, p, ltx[i]);
        NameIsOwner(lib, src.db, ltx[i].tx.address, src.acc);
        if ltx[i].account.Some? {
          NameIsOwner(lib, src.db, ltx[i].tx.address, ltx[i].account.value);
        }
      }
    }
  }

  lemma EndsInside(src: Source, p: int)
    requires p >= |src.hs|
    ensures !Ends(src, p)
  {
  }

  // ---- when no entry ends the call ----

  /** Every stored transaction is listed. */
  ghost predicate AllListed(hs: seq<TxState>, txs: TxBucket) {
    forall h :: h in txs ==> h in HashesOf(hs)
  }

  /** With every stored transaction listed and owned, the listing is the page of the kept
      entries, whatever the account. */
  lemma NothingBad(hs: seq<TxState>, txs: TxBucket, db: map<Key, Acct>, acc: string)
    requires AllListed(hs, txs) && forall h :: h in txs ==> OwnerName(db, txs[h].address).Some?
    ensures var vs := Verdicts(hs, txs, db, acc); FirstBad(vs) == |vs| && vs[..FirstBad(vs)] == vs
  {
    var vs := Verdicts(hs, txs, db, acc);
    forall i | 0 <= i < |vs|
      ensures !Bad(vs[i])
    {
      var t := hs[|hs| - 1 - i];
      assert vs[i] == Judge(hs, txs, db, acc, t);
      if t.hash in txs {
        assert BundleListed(hs, txs, txs[t.hash].bundle);
      }
    }
  }

  /** Every hash of the input is listed already. */
  ghost predicate Known(hs: seq<TxState>, input: seq<Hash>) {
    forall h :: h in input ==> h in HashesOf(hs)
  }

  /** A round that stores its flags keeps every stored transaction listed; one that stops after
      storing transactions keeps it so exactly when it found nothing new. */
  lemma CompareKeepsListed(lib: Library, node: Node, hs: seq<TxState>, txs: TxBucket, input: seq<Hash>)
    requires AllListed(hs, txs) && ReturnsAll(lib, node.trytes)
    requires forall q, t :: node.trytes(q).Some? && t in node.trytes(q).value ==> lib.txHash(t) in q
    ensures var o := Compare(lib, node, hs, txs, input);
            AllListed(o.hashes, o.txs) <==> node.info || node.trytes(News(hs, input)).None? || Known(hs, input)
  {
    var news := News(hs, input);
    var o := Compare(lib, node, hs, txs, input);
    CompareAppends(lib, node, hs, txs, input);
    NewsExact(hs, input);
    var reply := node.trytes(news);
    if reply.Some? {
      PutAllKeys(lib, txs, reply.value);
      assert forall h :: h in o.txs <==> h in txs || h in news;
      hide PutAll, News, ReturnsAll;
      assert o.ok ==> HashesOf(o.hashes) == HashesOf(hs) + news;
      assert !o.ok ==> o.hashes == hs;
      assert news != [] ==> news[0] in news;
    }
  }

  // ---- gettransaction ----

  /** The amount over the transactions in this order, those with an index already seen left out. */
  function AmountFrom(trs: seq<Transaction>, seen: set<int>): int {
    if trs == [] then 0
    else if trs[0].currentIndex in seen then AmountFrom(trs[1..], seen)
    else trs[0].value + AmountFrom(trs[1..], seen + {trs[0].currentIndex})
  }

  function Amount(trs: seq<Transaction>): int {
    AmountFrom(trs, {})
  }

  method SumAmount(trs: seq<Transaction>) returns (amount: int)
    ensures amount == Amount(trs)
  {
    amount := 0;
    var indice: set<int> := {};
    for i := 0 to |trs|
      invariant amount + AmountFrom(trs[i..], indice) == Amount(trs)
    {
      assert trs[i..][1..] == trs[i + 1..];
      if trs[i].currentIndex !in indice {
        indice := indice + {trs[i].currentIndex};
        amount := amount + trs[i].value;
      }
    }
  }

  /** Transactions with the same index carry equal values. */
  ghost predicate IndexDecides(trs: seq<Transaction>) {
    forall t, u :: t in trs && u in trs && t.currentIndex == u.currentIndex ==> t.value == u.value
  }

  ghost predicate HasIndex(trs: seq<Transaction>, x: int) {
    exists t :: t in trs && t.currentIndex == x
  }

  ghost predicate IndexesOf(ixs: seq<int>, trs: seq<Transaction>, seen: set<int>) {
    Distinct(ixs) && forall x :: x in ixs <==> x !in seen && HasIndex(trs, x)
  }

  /** If the index decides the value, the amount is the sum over the distinct indexes: replays
      of the bundle and their order change nothing. */
  lemma {:induction false} AmountIsIndexSum(trs: seq<Transaction>, seen: set<int>, ixs: seq<int>, f: int -> int)
    requires IndexesOf(ixs, trs, seen)
    requires forall t :: t in trs ==> t.value == f(t.currentIndex)
    ensures AmountFrom(trs, seen) == SumBy(ixs, f)
    decreases |trs|
  {
    if trs == [] {
      assert forall x :: !HasIndex(trs, x);
      assert forall x :: x !in ixs;
      NoElements(ixs);
      assert ixs == [];
    } else {
      var t, rest := trs[0], trs[1..];
      assert trs == [t] + rest;
      var x := t.currentIndex;
      if x in seen {
        AmountIsIndexSum(rest, seen, ixs, f);
      } else {
        assert x in ixs by { assert t in trs; }
        var more := Without(ixs, x);
        AmountIsIndexSum(rest, seen + {x}, more, f);
        SumAppend(more, x, f);
        SumPermuted(ixs, more + [x], f);
      }
    }
  }

  ghost function Without(s: seq<int>, x: int): (r: seq<int>)
    requires Distinct(s) && x in s
    ensures Distinct(r) && forall y :: y in r <==> y in s && y != x
    ensures multiset(s) == multiset(r + [x])
  {
    var i :| 0 <= i < |s| && s[i] == x;
    assert s == s[..i] + [x] + s[i + 1..];
    DistinctConcat(s[..i] + [x], s[i + 1..]);
    DistinctConcat(s[..i], [x]);
    DistinctConcat(s[..i], s[i + 1..]);
    s[..i] + s[i + 1..]
  }

  ghost function Indexes(trs: seq<Transaction>): (r: seq<int>)
    ensures IndexesOf(r, trs, {})
  {
    if trs == [] then []
    else
      var init, x := Indexes(trs[..|trs| - 1]), trs[|trs| - 1].currentIndex;
      assert trs == trs[..|trs| - 1] + [trs[|trs| - 1]];
      DistinctConcat(init, [x]);
      if x in init then init else init + [x]
  }

  /** Each entry of the one stands for an entry of the other, with equal index and value. */
  ghost predicate Represents(us: seq<Transaction>, trs: seq<Transaction>) {
    forall u :: u in us ==> exists t :: t in trs && t.currentIndex == u.currentIndex && t.value == u.value
  }

  ghost function ValueAt(trs: seq<Transaction>, x: int): int {
    if exists t :: t in trs && t.currentIndex == x then
      var t :| t in trs && t.currentIndex == x;
      t.value
    else 0
  }

  /** Neither the order nor replayed copies of an entry change the amount. */
  lemma ReplaysIrrelevant(us: seq<Transaction>, trs: seq<Transaction>)
    requires IndexDecides(trs) && Represents(us, trs) && Represents(trs, us)
    ensures Amount(us) == Amount(trs)
  {
    var f, ixs := (x: int) => ValueAt(trs, x), Indexes(trs);
    Decided(trs, trs, f);
    Decided(us, trs, f);
    SameIndexes(us, trs);
    hide *;
    AmountIsIndexSum(trs, {}, ixs, f);
    IndexesShared(us, trs, ixs);
    AmountIsIndexSum(us, {}, ixs, f);
    Amounts(us);
    Amounts(trs);
  }

  lemma Amounts(trs: seq<Transaction>)
    ensures Amount(trs) == AmountFrom(trs, {})
  {
  }

  lemma Decided(us: seq<Transaction>, trs: seq<Transaction>, f: int -> int)
    requires IndexDecides(trs) && Represents(us, trs) && forall x :: f(x) == ValueAt(trs, x)
    ensures forall u :: u in us ==> u.value == f(u.currentIndex)
  {
    forall u | u in us
      ensures u.value == f(u.currentIndex)
    {
      var t :| t in trs && t.currentIndex == u.currentIndex && t.value == u.value;
    }
  }

  lemma SameIndexes(us: seq<Transaction>, trs: seq<Transaction>)
    requires Represents(us, trs) && Represents(trs, us)
    ensures forall x :: HasIndex(us, x) <==> HasIndex(trs, x)
  {
  }

  lemma IndexesShared(us: seq<Transaction>, trs: seq<Transaction>, ixs: seq<int>)
    requires IndexesOf(ixs, trs, {}) && forall x :: HasIndex(us, x) <==> HasIndex(trs, x)
    ensures IndexesOf(ixs, us, {})
  {
    hide HasIndex;
  }

  lemma Reordered(us: seq<Transaction>, trs: seq<Transaction>)
    requires multiset(us) == multiset(trs)
    ensures Represents(us, trs) && Represents(trs, us)
  {
    assert forall t :: t in us <==> t in multiset(us);
    assert forall t :: t in trs <==> t in multiset(trs);
  }

  lemma TakeOut(trs: seq<Transaction>, t: Transaction) returns (rest: seq<Transaction>)
    requires t in trs
    ensures multiset(trs) == multiset([t] + rest) && forall u :: u in trs && u != t ==> u in rest
  {
    var i :| 0 <= i < |trs| && trs[i] == t;
    rest := trs[..i] + trs[i + 1..];
    assert trs == trs[..i] + [t] + trs[i + 1..];
  }

  lemma TwoFirst(t: Transaction, u: Transaction, rest: seq<Transaction>)
    requires t.currentIndex == u.currentIndex
    ensures Amount([t, u] + rest) == t.value + AmountFrom(rest, {t.currentIndex})
  {
    var x, xs, ys := t.currentIndex, [t, u] + rest, [u] + rest;
    assert xs[1..] == ys && ys[1..] == rest;
    var none: set<int> := {};
    assert none + {x} == {x};
    assert AmountFrom(xs, none) == t.value + AmountFrom(ys, {x});
    assert AmountFrom(ys, {x}) == AmountFrom(rest, {x});
  }

  /** Two values under one index: which of them counts depends on the order. */
  lemma OrderMatters(trs: seq<Transaction>, t: Transaction, u: Transaction) returns (xs: seq<Transaction>,
        ys: seq<Transaction>)
    requires t in trs && u in trs && t.currentIndex == u.currentIndex && t.value != u.value
    ensures multiset(xs) == multiset(trs) == multiset(ys) && Amount(xs) != Amount(ys)
  {
    var more := TakeOut(trs, t);
    var rest := TakeOut(more, u);
    TwoFirst(t, u, rest);
    TwoFirst(u, t, rest);
    xs, ys := [t, u] + rest, [u, t] + rest;
    assert multiset(xs) == multiset(ys);
    assert multiset(xs) == multiset{t} + multiset([u] + rest);
    hide Amount;
  }

  /** The amount is the same for every order in which the map yields the transactions exactly
      when the index decides the value. */
  lemma OrderIrrelevantIff(trs: seq<Transaction>)
    ensures (forall us :: multiset(us) == multiset(trs) ==> Amount(us) == Amount(trs)) <==> IndexDecides(trs)
  {
    hide Amount;
    if IndexDecides(trs) {
      forall us | multiset(us) == multiset(trs)
        ensures Amount(us) == Amount(trs)
      {
        Reordered(us, trs);
        ReplaysIrrelevant(us, trs);
      }
    } else {
      var t, u :| t in trs && u in trs && t.currentIndex == u.currentIndex && t.value != u.value;
      var xs, ys := OrderMatters(trs, t, u);
    }
  }

  /** Of the transactions that share an index the first in order counts. */
  lemma {:induction false} AmountTakesFirst(trs: seq<Transaction>, seen: set<int>, t: Transaction)
    ensures AmountFrom(trs + [t], seen) ==
            AmountFrom(trs, seen) + if t.currentIndex in seen || HasIndex(trs, t.currentIndex) then 0 else t.value
    decreases |trs|
  {
    if trs == [] {
      assert trs + [t] == [t] && [t][1..] == [];
    } else {
      var x, rest := trs[0].currentIndex, trs[1..];
      assert (trs + [t])[1..] == rest + [t] && trs == [trs[0]] + rest;
      AmountTakesFirst(rest, if x in seen then seen else seen + {x}, t);
      assert HasIndex(trs, t.currentIndex) <==> t.currentIndex == x || HasIndex(rest, t.currentIndex);
    }
  }

  /** The amount of a bundle, over its stored transactions in the order the map yields. */
  method TransactionAmount(db: HashDB, bundle: Hash) returns (found: bool, amount: int, ghost trs: seq<Transaction>)
    ensures found <==>
            && (exists h :: h in db.txs && db.txs[h].bundle == bundle)
            && forall h :: h in db.txs && db.txs[h].bundle == bundle ==> h in HashesOf(db.hashes)
    ensures found ==> amount == Amount(trs)
    ensures found ==>
              forall t :: t in trs <==> exists h :: h in db.txs && db.txs[h].bundle == bundle && t == db.txs[h]
  {
    amount := 0;
    var ok, ts, states, keys := db.FindTX(bundle);
    trs := ts;
    if !ok {
      return false, amount, trs;
    }
    if |ts| == 0 {
      return false, amount, trs;
    }
    assert keys[0] in keys;
    amount := SumAmount(ts);
    return true, amount, trs;
  }
}
