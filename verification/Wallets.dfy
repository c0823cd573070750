/** The daemon's shared state and its handlers: the accounts bucket, the lastAccount pointer
    into it, the hash database and the ignore list.  Every handler leaves the state the
    corresponding steps of the state machine Runs lead to. */
module Wallets {
  import opened Gadk
  import opened Sums
  import opened Passwd
  import opened Accounts
  import opened Transfers
  import opened Stores
  import opened Hashes
  import opened Ledger
  import opened Runs
  import Discovery
  import Replay
  import Seeds
  import AddressScan

  /** A stored account: the seed is kept encrypted only. */
  datatype Record = Record(name: string, encSeed: seq<Byte>, bals: seq<Balance>)

  /** An element of listAccount's result. */
  datatype Listed = Listed(name: string, seed: Seed, encSeed: seq<Byte>, bals: seq<Balance>)

  ghost function Read(c: Cipher, r: Record): Acct
    requires |r.encSeed| >= BLOCK_SIZE
  {
    Acct(r.name, Decrypted(c, r.encSeed), r.bals)
  }

  ghost function ListedOf(c: Cipher, r: Record): Listed
    requires |r.encSeed| >= BLOCK_SIZE
  {
    Listed(r.name, Decrypted(c, r.encSeed), r.encSeed, r.bals)
  }

  ghost predicate Readable(m: map<Key, Record>) {
    forall k :: k in m ==> |m[k].encSeed| >= BLOCK_SIZE
  }

  ghost function ReadAll(c: Cipher, m: map<Key, Record>): map<Key, Acct>
    requires Readable(m)
  {
    map k | k in m :: Read(c, m[k])
  }

  lemma ReadAllPut(c: Cipher, m: map<Key, Record>, k: Key, r: Record)
    requires Readable(m) && |r.encSeed| >= BLOCK_SIZE
    ensures Readable(m[k := r]) && ReadAll(c, m[k := r]) == ReadAll(c, m)[k := Read(c, r)]
  {
  }

  class Wallet {
    const lib: Library
    const cipher: Cipher
    const db: HashDB
    var accounts: map<Key, Record>
    var lastAccount: Account?
    var ignoreAddr: seq<Address>
    var resetIgnoreCounter: int

    constructor (lib: Library, cipher: Cipher, db: HashDB)
      requires Lawful(lib) && db.hashes == [] && db.txs == map[]
      ensures this.lib == lib && this.cipher == cipher && this.db == db
      ensures Ok() && Now() == START && fresh(this)
    {
      this.lib, this.cipher, this.db := lib, cipher, db;
      accounts, lastAccount, ignoreAddr, resetIgnoreCounter := map[], null, [], 0;
    }

    ghost predicate WellStored()
      reads this
    {
      Readable(accounts)
    }

    /** The object's encrypted seed, if it has one, is its seed. */
    ghost predicate SeedKept(a: Account)
      reads this, a
    {
      a.encSeed.Some? ==> |a.encSeed.value| >= BLOCK_SIZE && Decrypted(cipher, a.encSeed.value) == a.seed
    }

    ghost function StoredAccounts(): map<Key, Acct>
      reads this
      requires WellStored()
    {
      ReadAll(cipher, accounts)
    }

    /** Bucket and cache as values. */
    ghost function View(): Store
      reads this, lastAccount
      requires WellStored()
    {
      Store(StoredAccounts(), if lastAccount == null then None else Some(lastAccount.View()))
    }

    /** What holds after any handler. */
    ghost predicate Fit()
      reads this, lastAccount
    {
      && WellStored() && Lawful(lib) && Sound(lib, View())
      && (lastAccount != null ==> SeedKept(lastAccount) && lastAccount.encSeed.Some?)
    }

    /** What holds as long as no account was opened with a seed in use. */
    ghost predicate Ok()
      reads this, lastAccount
    {
      && WellStored() && Lawful(lib) && Valid(lib, View())
      && (lastAccount != null ==> SeedKept(lastAccount) && lastAccount.encSeed.Some?)
    }

    lemma OkIff()
      ensures Ok() <==> Fit() && SeedsDiffer(lib, StoredAccounts())
    {
    }

    ghost function At(round: Round): State
      reads this, lastAccount, db
      requires WellStored()
    {
      State(View(), db.hashes, db.txs, round)
    }

    ghost function Now(): State
      reads this, lastAccount, db
      requires WellStored()
    {
      At(Idle)
    }

    method ReadAccount(r: Record) returns (ac: Account)
      requires |r.encSeed| >= BLOCK_SIZE
      ensures fresh(ac) && ac.View() == Read(cipher, r) && ac.encSeed == Some(r.encSeed) && SeedKept(ac)
    {
      var seed := Decrypt(cipher, r.encSeed);
      ac := new Account(r.name, seed[..], Some(r.encSeed), r.bals);
    }

    method GetAccount(name: string) returns (ac: Account?)
      requires Fit()
      ensures ac == null <==> Get(View(), name).None?
      ensures ac != null ==> ac.View() == Get(View(), name).value && SeedKept(ac) && ac.encSeed.Some?
                             && (ac == lastAccount || fresh(ac))
      ensures ac != null && ac != lastAccount ==>
                ToKey(name) in StoredAccounts() && ac.View() == StoredAccounts()[ToKey(name)]
    {
      if lastAccount != null && lastAccount.name == name {
        return lastAccount;
      }
      if ToKey(name) !in accounts {
        return null;
      }
      ac := ReadAccount(accounts[ToKey(name)]);
    }

    /** The cached account when it holds the address, else the first in the bucket that does. */
    method FindAddress(adr: Address) returns (result: Account?, index: int)
      requires Ok()
      modifies this`lastAccount
      ensures Ok() && View() == Touch(old(View()), adr)
      ensures result == null <==> Find(old(View()), adr).None?
      ensures result != null ==> result == lastAccount && index == IndexOf(result.balances, adr) && index >= 0
      ensures lastAccount == old(lastAccount) || fresh(lastAccount)
    {
      if lastAccount != null {
        var i := lastAccount.Search(adr);
        if i >= 0 {
          return lastAccount, i;
        }
      }
      result, index := FindStored(adr);
    }

    method FindStored(adr: Address) returns (result: Account?, index: int)
      requires Ok() && (lastAccount != null ==> IndexOf(lastAccount.balances, adr) < 0)
      modifies this`lastAccount
      ensures Ok() && View() == Touch(old(View()), adr)
      ensures result == null <==> Find(old(View()), adr).None?
      ensures result != null ==> result == lastAccount && index == IndexOf(result.balances, adr) && index >= 0
      ensures lastAccount == old(lastAccount) || fresh(lastAccount)
    {
      ghost var s := View();
      TouchValid(lib, s, adr);
      var k := ScanAccounts(adr);
      FindScanned(s, adr);
      hide Valid, Owner, Find, Has;
      if k.None? {
        return null, -1;
      }
      result := ReadAccount(accounts[k.value]);
      lastAccount := result;
      assert View() == Touch(s, adr);
      index := result.Search(adr);
    }

    method ScanAccounts(adr: Address) returns (found: Option<Key>)
      requires Ok()
      ensures found == Owner(StoredAccounts(), adr)
    {
      ghost var m := StoredAccounts();
      var todo := accounts.Keys;
      while todo != {}
        invariant todo <= accounts.Keys
        invariant forall k :: k in accounts.Keys - todo ==> !Has(m[k], adr)
      {
        var k :| k in todo;
        todo := todo - {k};
        var index := SearchIn(accounts[k].bals, adr);
        if index >= 0 {
          OwnerUnique(lib, m, k, adr);
          return Some(k);
        }
      }
      return None;
    }

    method PutAccount(acc: Account, iv: seq<Byte>)
      requires |iv| == BLOCK_SIZE && WellStored() && SeedKept(acc)
      modifies this`lastAccount, this`accounts, acc`encSeed
      ensures lastAccount ==
              if old(lastAccount) != null && old(lastAccount).name == acc.name then acc else old(lastAccount)
      ensures WellStored() && SeedKept(acc) && acc.encSeed.Some?
      ensures old(acc.encSeed).Some? ==> acc.encSeed == old(acc.encSeed)
      ensures accounts == old(accounts)[ToKey(acc.name) := Record(acc.name, acc.encSeed.value, acc.balances)]
      ensures StoredAccounts() == old(StoredAccounts())[ToKey(acc.name) := acc.View()]
    {
      if lastAccount != null && lastAccount.name == acc.name {
        lastAccount := acc;
      }
      if acc.encSeed.None? {
        var ct := Encrypt(cipher, iv, acc.seed);
        DecryptUndoesEncrypt(cipher, iv, acc.seed);
        acc.encSeed := Some(ct[..]);
      }
      ReadAllPut(cipher, accounts, ToKey(acc.name), Record(acc.name, acc.encSeed.value, acc.balances));
      accounts := accounts[ToKey(acc.name) := Record(acc.name, acc.encSeed.value, acc.balances)];
    }

    /** Every stored account once, in the order the cursor happens to yield. */
    method ListAccount() returns (asc: seq<Listed>, keys: seq<Key>)
      requires WellStored()
      ensures Distinct(keys) && |keys| == |asc| && forall k :: k in keys <==> k in accounts
      ensures forall i :: 0 <= i < |keys| ==> asc[i] == ListedOf(cipher, accounts[keys[i]])
    {
      asc, keys := [], [];
      var todo := accounts.Keys;
      while todo != {}
        invariant todo <= accounts.Keys && Distinct(keys) && |keys| == |asc|
        invariant forall k :: k in keys <==> k in accounts && k !in todo
        invariant forall i :: 0 <= i < |keys| ==> keys[i] in accounts && asc[i] == ListedOf(cipher, accounts[keys[i]])
      {
        var k :| k in todo;
        var r := accounts[k];
        var seed := Decrypt(cipher, r.encSeed);
        asc, keys, todo := asc + [Listed(r.name, seed[..], r.encSeed, r.bals)], keys + [k], todo - {k};
      }
    }

    method GetNewAddress(name: string, newSeed: Seed, iv: seq<Byte>) returns (adr: Option<Address>)
      requires Fit() && |iv| == BLOCK_SIZE
      modifies this`accounts, this`lastAccount, lastAccount
      ensures Fit() && Now() == Step(lib, old(Now()), NewAddress(name, newSeed))
      ensures old(Ok()) ==> (Ok() <==> SeedFresh(lib, old(Now()), NewAddress(name, newSeed)))
      ensures var found := Get(old(View()), name);
              var a := if found.Some? then found.value else Acct(name, newSeed, []);
              && adr == lib.newAddress(a.seed, |a.bals|)
              && (adr.Some? ==>
                    && ToKey(a.name) in StoredAccounts()
                    && StoredAccounts()[ToKey(a.name)] == Acct(a.name, a.seed, a.bals + [Balance(adr.value, 0, 0)]))
      ensures lastAccount == old(lastAccount) || fresh(lastAccount)
    {
      OkIff();
      hide Valid, Sound, SeedsDiffer;
      ghost var s := View();
      var ac := GetAccount(name);
      if ac == null {
        ac := new Account(name, newSeed, None, []);
      }
      ghost var a := Source(s, name, newSeed);
      adr := lib.newAddress(ac.seed, |ac.balances|);
      if adr.None? {
        return;
      }
      ac.balances := ac.balances + [Balance(adr.value, 0, 0)];
      PutAccount(ac, iv);
      SourceSound(lib, s, name, newSeed);
      assert View() == Put(s, Extended(lib, a).value);
      OkIff();
    }

    /** Restores the account "" from its seed: as many addresses as precede the first one
        without transactions.  A failing derivation or query before that one is met restores
        none. */
    method RestoreAddressesFromSeed(seed: Seed, node: Node, iv: seq<Byte>) returns (ok: bool, ghost count: nat)
      requires Ok() && |iv| == BLOCK_SIZE
      modifies this`accounts, this`lastAccount, lastAccount
      ensures ok <==> Get(old(View()), "").None?
      ensures Fit() && Now() == if ok then Step(lib, old(Now()), Restore(seed, count)) else old(Now())
      ensures Ok() <==> !ok || UnusedSeed(lib, old(StoredAccounts()), seed)
      ensures ok ==> ToKey("") in StoredAccounts() && Untouched(lib, StoredAccounts()[ToKey("")], seed, count)
      ensures ok ==>
                if exists n :: FirstUnused(lib, node.find, seed, n) then FirstUnused(lib, node.find, seed, count)
                else count == 0
    {
      OkIff();
      hide Valid, Sound, SeedsDiffer, UnusedSeed, FirstUnused, FirstEntries, Get, Untouched;
      ghost var s := View();
      count := 0;
      var found := GetAccount("");
      if found != null {
        return false, count;
      }
      var n := CountUsed(lib, node.find, seed);
      count := n;
      var bals := NewEntries(lib, seed, n);
      RestoredSound(lib, s, seed, n);
      UntouchedEntries(lib, seed, n);
      StoreNew("", seed, bals, iv);
      OkIff();
      return true, count;
    }

    /** Stores a record built from a seed. */
    method StoreNew(name: string, seed: Seed, bals: seq<Balance>, iv: seq<Byte>)
      requires Fit() && |iv| == BLOCK_SIZE && Sound(lib, Put(View(), Acct(name, seed, bals)))
      modifies this`lastAccount, this`accounts
      ensures Fit() && View() == Put(old(View()), Acct(name, seed, bals))
    {
      ghost var s := View();
      hide Sound;
      var ac := new Account(name, seed, None, bals);
      PutAccount(ac, iv);
      assert View() == Put(s, Acct(name, seed, bals));
    }

    /** The loop that credits newly confirmed transactions. */
    method CreditLoop(trs: seq<Transaction>, iv: seq<Byte>)
      requires Ok() && |iv| == BLOCK_SIZE
      modifies this`lastAccount, this`accounts, lastAccount
      ensures Ok() && View() == CreditAll(old(View()), trs)
      ensures lastAccount == old(lastAccount) || fresh(lastAccount)
    {
      for i := 0 to |trs|
        invariant Ok() && View() == CreditAll(old(View()), trs[..i])
        invariant lastAccount == old(lastAccount) || fresh(lastAccount)
      {
        assert trs[..i + 1][..i] == trs[..i];
        CreditTurn(trs[i], iv);
      }
      assert trs[..|trs|] == trs;
    }

    method CreditTurn(tr: Transaction, iv: seq<Byte>)
      requires Ok() && |iv| == BLOCK_SIZE
      modifies this`lastAccount, this`accounts, lastAccount
      ensures Ok() && View() == CreditOne(old(View()), tr)
      ensures lastAccount == old(lastAccount) || fresh(lastAccount)
    {
      if tr.value == 0 {
        return;
      }
      ghost var s := View();
      var acc, index := FindAddress(tr.address);
      if acc == null {
        return;
      }
      ghost var t, a := View(), acc.View();
      CreditOneValid(lib, s, tr);
      CreditEntry(acc, tr.address, index, tr.value);
      ghost var c := Credited(a, tr.address, tr.value);
      hide Valid, Owner, Credited, Find;
      PutAccount(acc, iv);
      assert View() == Put(t, c);
    }

    /** send, once the account is chosen: it is persisted on success only. */
    method SendAndStore(ac: Account, trs: seq<Transfer>, clock: nat -> int, iv: seq<Byte>)
        returns (hash: Hash, bundle: array?<Transaction>)
      requires Fit() && |iv| == BLOCK_SIZE && SeedKept(ac)
      requires ac == lastAccount ||
               (ToKey(ac.name) in StoredAccounts() && StoredAccounts()[ToKey(ac.name)] == ac.View())
      requires forall t :: t in trs ==> |t.message| <= SIG_SIZE
      modifies this`lastAccount, this`accounts, ac
      ensures Fit() && (SeedsDiffer(lib, StoredAccounts()) <==> old(SeedsDiffer(lib, StoredAccounts())))
      ensures lastAccount in {old(lastAccount), ac}
      ensures bundle == null ==> View() == old(View()) && accounts == old(accounts) && lastAccount == old(lastAccount)
      ensures NonNegative(trs) ==> (bundle == null <==> Spent(lib, old(ac.View()), Total(trs)).None?)
      ensures bundle != null ==>
                && Spent(lib, old(ac.View()), Total(trs)).Some?
                && View() == Put(old(View()), Spent(lib, old(ac.View()), Total(trs)).value)
                && Prepared(lib, old(ac.View()), trs, clock, bundle[..]) && hash == BundleHash(lib, bundle[..])
    {
      ghost var s, source := View(), ac.View();
      SourceAligned(lib, s, source);
      hide Valid, Sound, SeedsDiffer, Prepared, Spent;
      var err;
      hash, bundle, err := Send(lib, ac, trs, clock);
      if err == NoError {
        StoreSpent(ac, iv, s, source, Total(trs));
      }
    }

    /** Writes the spent account back; s is what bucket and cache were before it was spent. */
    method StoreSpent(ac: Account, iv: seq<Byte>, ghost s: Store, ghost source: Acct, ghost total: int)
      requires |iv| == BLOCK_SIZE && WellStored() && Lawful(lib) && SeedKept(ac) && Sound(lib, s)
      requires StoredAccounts() == s.db && Spent(lib, source, total) == Some(ac.View())
      requires if ac == lastAccount then s.cache == Some(source)
               else View() == s && ToKey(source.name) in s.db && s.db[ToKey(source.name)] == source
      requires lastAccount != null ==> SeedKept(lastAccount) && lastAccount.encSeed.Some?
      modifies this`lastAccount, this`accounts, ac`encSeed
      ensures Fit() && View() == Put(s, ac.View()) && lastAccount in {old(lastAccount), ac}
      ensures SeedsDiffer(lib, StoredAccounts()) <==> SeedsDiffer(lib, s.db)
    {
      hide Sound, SeedsDiffer, Spent;
      SpentSound(lib, s, source, total);
      assert ac.View().name == source.name by {
        SpentName(lib, source, total);
      }
      PutAccount(ac, iv);
      assert View() == Put(s, ac.View());
    }

    /** send: a named account, or with None any listed one. */
    method SendTokens(acc: Option<string>, trs: seq<Transfer>, clock: nat -> int, iv: seq<Byte>)
        returns (hash: Hash, bundle: array?<Transaction>, ghost e: Event, ghost source: Acct)
      requires Fit() && |iv| == BLOCK_SIZE
      requires forall t :: t in trs ==> |t.message| <= SIG_SIZE
      modifies this`accounts, this`lastAccount, lastAccount
      ensures Fit() && (Ok() <==> old(Ok())) && (lastAccount == old(lastAccount) || fresh(lastAccount))
      ensures bundle == null ==> View() == old(View()) && accounts == old(accounts) && lastAccount == old(lastAccount)
      ensures bundle != null ==> Enabled(old(Now()), e) && Now() == Step(lib, old(Now()), e)
      ensures bundle != null && acc.Some? ==>
                e == SendFrom(acc.value, Total(trs), true) && Get(old(View()), acc.value) == Some(source)
      ensures bundle != null && acc.None? ==>
                e.SendAny? && e.key in old(View()).db && e == SendAny(e.key, Total(trs), true)
                && old(View()).db[e.key] == source
      ensures bundle == null && NonNegative(trs) ==> Unpayable(lib, old(View()), acc, Total(trs))
      ensures bundle != null ==>
                && Spent(lib, source, Total(trs)).Some?
                && Prepared(lib, source, trs, clock, bundle[..]) && hash == BundleHash(lib, bundle[..])
    {
      hide Valid, Sound, SeedsDiffer, Prepared, Spent;
      OkIff();
      bundle, hash, source, e := null, "", Acct("", [], []), Stop;
      if acc.Some? {
        var ac := GetAccount(acc.value);
        if ac == null {
          return;
        }
        source := ac.View();
        if ToKey(acc.value) in accounts {
          KeyOfName(lib, View(), ToKey(acc.value));
        }
        hash, bundle := SendAndStore(ac, trs, clock, iv);
        OkIff();
        e := SendFrom(acc.value, Total(trs), true);
      } else {
        var ac, key := FirstListed();
        if ac == null {
          return;
        }
        source := ac.View();
        hash, bundle := SendAndStore(ac, trs, clock, iv);
        OkIff();
        e := SendAny(key, Total(trs), true);
      }
    }

    /** A copy of the first listed account, whichever that is. */
    method FirstListed() returns (ac: Account?, ghost key: Key)
      requires Fit()
      ensures ac == null <==> StoredAccounts().Keys == {}
      ensures ac != null ==> fresh(ac) && SeedKept(ac) && ac.encSeed.Some?
      ensures ac != null ==> key in StoredAccounts() && StoredAccounts()[key] == ac.View() && ToKey(ac.name) == key
    {
      var acs, keys := ListAccount();
      if |acs| == 0 {
        assert forall k :: k in accounts <==> k in keys;
        return null, "";
      }
      assert keys[0] in keys;
      KeyOfName(lib, View(), keys[0]);
      ac := new Account(acs[0].name, acs[0].seed, Some(acs[0].encSeed), acs[0].bals);
      key := keys[0];
    }

    /** The third transaction of a round.  A failure after the loop rolls the bucket back. */
    method CreditTransaction(news: seq<Hash>, confirmed: seq<Hash>, node: Node, iv: seq<Byte>)
        returns (ok: bool, ghost commits: bool)
      requires Ok() && |iv| == BLOCK_SIZE
      modifies this`lastAccount, this`accounts, lastAccount
      ensures Ok() && Now() == Step(lib, old(At(Ready(confirmed))), Credit(commits))
      ensures ok <==>
              (news == [] && confirmed == []) || (Load(db.txs, confirmed).Some? && node.creditTrytes(news).Some?)
      ensures commits <==> ok || Load(db.txs, confirmed).None?
      ensures lastAccount == old(lastAccount) || fresh(lastAccount)
    {
      commits := true;
      hide Valid, CreditAll;
      CreditNothing(View());
      if |news| == 0 && |confirmed| == 0 {
        assert Load(db.txs, confirmed).Some? ==> Load(db.txs, confirmed).value == [];
        return true, true;
      }
      var trs := db.GetTXs(confirmed);
      if trs.None? {
        return false, true;
      }
      var saved := accounts;
      RollbackValid(lib, View(), trs.value);
      CreditLoop(trs.value, iv);
      if node.creditTrytes(news).None? {
        accounts := saved;
        return false, false;
      }
      return true, true;
    }

    /** The addresses of all accounts, those on the ignore list left out. */
    method WalletAddresses() returns (adrs: seq<Address>)
      requires Ok()
      ensures Distinct(adrs)
      ensures forall a :: a in adrs <==> Owner(StoredAccounts(), a).Some? && a !in ignoreAddr
    {
      var acc, keys := ListAccount();
      adrs := [];
      for i := 0 to |acc|
        invariant adrs == WantedAll(acc[..i], ignoreAddr)
      {
        assert acc[..i + 1][..i] == acc[..i];
        var ac := acc[i];
        ghost var adrs0 := adrs;
        for j := 0 to |ac.bals|
          invariant adrs == adrs0 + Wanted(ac.bals[..j], ignoreAddr)
        {
          assert ac.bals[..j + 1][..j] == ac.bals[..j];
          var ignored := Discovery.Contains(ignoreAddr, ac.bals[j].address);
          if !ignored {
            adrs := adrs + [ac.bals[j].address];
          }
        }
        assert ac.bals[..|ac.bals|] == ac.bals;
      }
      assert acc[..|acc|] == acc;
      WantedAllExact(lib, StoredAccounts(), acc, keys, ignoreAddr);
    }

    /** The first two transactions of a round. */
    method Compare(node: Node, input: seq<Hash>) returns (ok: bool, news: seq<Hash>, confirmed: seq<Hash>)
      requires Ok() && Distinct(input)
      modifies db
      ensures Outcome(db.hashes, db.txs, ok, news, confirmed) ==
              Hashes.Compare(lib, node, old(db.hashes), old(db.txs), input)
      ensures var trace := RoundStart(node, old(Now()), input);
              && ValidRun(lib, old(Now()), trace)
              && After(lib, old(Now()), trace) == At(if ok then Ready(confirmed) else Idle)
    {
      ghost var s := Now();
      ok, news, confirmed := db.CompareHashes(lib, node, input);
      CompareTrace(lib, node, s, input);
    }

    /** Queries the node for all addresses in chunks; rejected ones join the ignore list. */
    method FindExtras(node: Node, size: nat, ghost good: Address -> bool, ghost of: Address -> set<Hash>)
        returns (extras: seq<Hash>)
      requires Ok() && size > 0 && Discovery.Separate(node.find, of)
      modifies this`ignoreAddr
      ensures Ok() && Distinct(extras)
      ensures forall h :: h in extras ==>
                exists a :: Owner(StoredAccounts(), a).Some? && a !in old(ignoreAddr) && h in of(a)
      ensures Asked(StoredAccounts(), node.find, old(ignoreAddr), extras, ignoreAddr)
      ensures Discovery.Faithful(node.find, good, of) ==>
                && Shown(StoredAccounts(), old(ignoreAddr), good, of, extras)
                && Ignoring(StoredAccounts(), old(ignoreAddr), good, ignoreAddr)
    {
      hide Discovery.Faithful, Discovery.Separate, Discovery.Covers, Valid, Asked;
      var adrs := WalletAddresses();
      var bad;
      extras, bad := Discovery.Collect(adrs, size, node.find);
      Discovery.ChunkedTidy(adrs, size, node.find, of);
      Discovery.ChunkedCovers(adrs, size, node.find);
      AskedAll(StoredAccounts(), node.find, of, ignoreAddr, adrs, extras, bad);
      if Discovery.Faithful(node.find, good, of) {
        Discovery.ChunkedExact(adrs, size, node.find, good, of);
      }
      ignoreAddr := ignoreAddr + bad;
    }

    /** The three transactions of a round. */
    method CompareAndCredit(node: Node, input: seq<Hash>, iv: seq<Byte>) returns (ok: bool, ghost commits: bool)
      requires Ok() && |iv| == BLOCK_SIZE && Distinct(input) && input != []
      modifies this`lastAccount, this`accounts, lastAccount, db
      ensures Ok() && (lastAccount == old(lastAccount) || fresh(lastAccount))
      ensures var trace := RoundTrace(node, old(Now()), input, Credit(commits));
              ValidRun(lib, old(Now()), trace) && Now() == After(lib, old(Now()), trace)
      ensures ok <==> Finishes(lib, node, old(db.hashes), old(db.txs), input)
      ensures node.creditTrytes(News(old(db.hashes), input)).Some? || ok ==> commits
    {
      hide Hashes.Compare, Valid, Step, After, ValidRun, RoundStart;
      ghost var s := Now();
      commits := true;
      var news, confirmed;
      ok, news, confirmed := Compare(node, input);
      CompareNews(lib, node, s.hs, s.txs, input);
      if ok {
        ok, commits := CreditTransaction(news, confirmed, node, iv);
        RunMore(lib, s, RoundStart(node, s, input), Credit(commits));
      }
    }

    /** One notification round.  The trace lists its transactions. */
    method Walletnotify(node: Node, iv: seq<Byte>, ghost good: Address -> bool, ghost of: Address -> set<Hash>)
        returns (ok: bool, ghost extras: seq<Hash>, ghost trace: seq<Event>, ghost commits: bool)
      requires Ok() && |iv| == BLOCK_SIZE && Discovery.Separate(node.find, of)
      modifies this, lastAccount, db
      ensures Ok() && (lastAccount == old(lastAccount) || fresh(lastAccount))
      ensures Distinct(extras)
      ensures Discovery.Faithful(node.find, good, of) ==>
                Shown(old(StoredAccounts()), IgnoredIn(old(resetIgnoreCounter), old(ignoreAddr)), good, of, extras)
      ensures Notified(Notice(old(StoredAccounts()), node.find, old(resetIgnoreCounter), old(ignoreAddr), extras,
                              resetIgnoreCounter, ignoreAddr))
      ensures Discovery.Faithful(node.find, good, of) && |old(accounts)| > 0 ==>
                forall a :: a in ignoreAddr <==>
                  || (old(resetIgnoreCounter + 1) % 5 != 0 && a in old(ignoreAddr))
                  || (Owned(old(StoredAccounts()), a) && !good(a))
      ensures trace == RoundTrace(node, old(Now()), extras, Credit(commits))
      ensures ValidRun(lib, old(Now()), trace) && Now() == After(lib, old(Now()), trace)
      ensures ok <==> extras == [] || Finishes(lib, node, old(db.hashes), old(db.txs), extras)
      ensures node.creditTrytes(News(old(db.hashes), extras)).Some? || ok ==> commits
    {
      hide Finishes, Valid, Step, After, ValidRun, Shown, RoundStart, Asked, Discovery.Faithful, Discovery.Separate;
      ghost var s := Now();
      OwnedIff(StoredAccounts());
      NoRecords(cipher, accounts);
      extras, trace, commits, ok := [], [], true, true;
      RunNone(lib, s);
      if |accounts| == 0 {
        NoAccountsShown(StoredAccounts(), IgnoredIn(resetIgnoreCounter, ignoreAddr), good, of);
        return;
      }
      resetIgnoreCounter := resetIgnoreCounter + 1;
      if resetIgnoreCounter % 5 == 0 {
        ignoreAddr := [];
      }
      var hashes := FindExtras(node, 100, good, of);
      extras := hashes;
      if |hashes| > 0 {
        ok, commits := CompareAndCredit(node, hashes, iv);
        trace := RoundTrace(node, s, hashes, Credit(commits));
      }
    }

    /** The first rounds of the daemon's loop, on whatever the node shows in each. */
    method NotifyRounds(nodes: seq<Node>, iv: seq<Byte>, ghost ofs: seq<Address -> set<Hash>>)
        returns (ghost ns: seq<Notice>)
      requires Ok() && |iv| == BLOCK_SIZE && StoredAccounts().Keys != {}
      requires |ofs| == |nodes| && forall i :: 0 <= i < |nodes| ==> Discovery.Separate(nodes[i].find, ofs[i])
      modifies this, lastAccount, db
      ensures Ok()
      ensures |ns| == |nodes| && Consecutive(ns) && forall i :: 0 <= i < |ns| ==> ns[i].find == nodes[i].find
    {
      hide Valid, Notified, Consecutive, Discovery.Separate;
      ns := [];
      NoRounds();
      for i := 0 to |nodes|
        invariant Ok() && StoredAccounts().Keys != {} && (lastAccount == old(lastAccount) || fresh(lastAccount))
        invariant |ns| == i && Consecutive(ns) && forall j :: 0 <= j < i ==> ns[j].find == nodes[j].find
        invariant i > 0 ==> ns[i - 1].counterAfter == resetIgnoreCounter && ns[i - 1].ignoredAfter == ignoreAddr
      {
        ghost var n := NotifyOnce(nodes[i], iv, ofs[i]);
        OneMoreRound(ns, n);
        ns := ns + [n];
      }
    }

    method NotifyOnce(node: Node, iv: seq<Byte>, ghost of: Address -> set<Hash>) returns (ghost n: Notice)
      requires Ok() && |iv| == BLOCK_SIZE && StoredAccounts().Keys != {} && Discovery.Separate(node.find, of)
      modifies this, lastAccount, db
      ensures Ok() && StoredAccounts().Keys != {} && (lastAccount == old(lastAccount) || fresh(lastAccount))
      ensures Notified(n) && n.m == old(StoredAccounts()) && n.find == node.find
      ensures n.counter == old(resetIgnoreCounter) && n.ignored == old(ignoreAddr)
      ensures n.counterAfter == resetIgnoreCounter && n.ignoredAfter == ignoreAddr
    {
      hide Valid, Sound, SeedsDiffer, Notified, Asked, Discovery.Separate, Discovery.Faithful, ValidRun, After,
           RoundTrace, Finishes, Shown, IgnoredIn, Owned;
      OkIff();
      ghost var s, m, c, l := Now(), StoredAccounts(), resetIgnoreCounter, ignoreAddr;
      var ok, extras, trace, commits := Walletnotify(node, iv, (a: Address) => true, of);
      Seeds.RunKeepsSound(lib, s, trace);
      n := Notice(m, node.find, c, l, extras, resetIgnoreCounter, ignoreAddr);
    }

    /** The same without the credit: flags of restored transactions are only stored. */
    method UpdateConfirmationState(node: Node, ghost good: Address -> bool, ghost of: Address -> set<Hash>)
        returns (ghost extras: seq<Hash>, ghost trace: seq<Event>)
      requires Ok() && Discovery.Separate(node.find, of)
      modifies this`ignoreAddr, db
      ensures Ok() && Distinct(extras) && lastAccount == old(lastAccount) && accounts == old(accounts)
      ensures Discovery.Faithful(node.find, good, of) ==>
                && Shown(StoredAccounts(), old(ignoreAddr), good, of, extras)
                && Ignoring(StoredAccounts(), old(ignoreAddr), good, ignoreAddr)
      ensures |accounts| > 0 ==> Asked(StoredAccounts(), node.find, old(ignoreAddr), extras, ignoreAddr)
      ensures trace == RoundTrace(node, old(Now()), extras, Stop)
      ensures ValidRun(lib, old(Now()), trace) && Now() == After(lib, old(Now()), trace)
    {
      hide Asked;
      ghost var s := Now();
      extras, trace := [], [];
      RunNone(lib, s);
      if |accounts| == 0 {
        NoAccountsShown(StoredAccounts(), ignoreAddr, good, of);
        return extras, trace;
      }
      var hashes := FindExtras(node, 8000, good, of);
      extras := hashes;
      trace := RoundTrace(node, s, extras, Stop);
      if |hashes| == 0 {
        return extras, trace;
      }
      var ok, news, confirmed := Compare(node, hashes);
      CompareNews(lib, node, s.hs, s.txs, hashes);
      if ok {
        RunMore(lib, s, RoundStart(node, s, extras), Stop);
      }
    }

    // ---- loops over all accounts ----

    /** A loop over the listed accounts writes every record back through its one range
        variable ac.  After i turns the first i records are those of `after`.  The cache
        is still the account it was, not yet met, or it is the range variable itself, which
        then holds the record written last. */
    ghost predicate Rewriting(ac: Account, last0: Account?, name0: string, before: map<Key, Acct>,
          after: map<Key, Acct>, keys: seq<Key>, i: nat)
      reads this, ac
    {
      && WellStored() && i <= |keys| && StoredAccounts().Keys == before.Keys == after.Keys
      && (forall k :: k in keys ==> k in before)
      && (forall j :: 0 <= j < |keys| ==>
            StoredAccounts()[keys[j]] == if j < i then after[keys[j]] else before[keys[j]])
      && (lastAccount == last0 || lastAccount == ac)
      && (lastAccount == ac ==> 0 < i && ac.View() == after[keys[i - 1]] && SeedKept(ac) && ac.encSeed.Some?)
      && (lastAccount == last0 && last0 != null ==> ToKey(name0) !in keys[..i])
      && (last0 == null ==> lastAccount == null)
    }

    /** The account the cache held when the loop began is a stored one. */
    ghost predicate Remembered(last0: Account?, name0: string, before: map<Key, Acct>)
      reads last0
    {
      last0 != null ==> last0.name == name0 && ToKey(name0) in before && before[ToKey(name0)].name == name0
    }

    method StoreRange(ac: Account, l: Listed, bals: seq<Balance>, iv: seq<Byte>, ghost last0: Account?,
          ghost name0: string, ghost before: map<Key, Acct>, ghost after: map<Key, Acct>, ghost keys: seq<Key>,
          ghost i: nat)
      requires |iv| == BLOCK_SIZE && Rewriting(ac, last0, name0, before, after, keys, i) && i < |keys|
      requires ac != last0 && Distinct(keys) && Remembered(last0, name0, before)
      requires |l.encSeed| >= BLOCK_SIZE && Decrypted(cipher, l.encSeed) == l.seed
      requires ToKey(l.name) == keys[i] && before[keys[i]].name == l.name
      requires after[keys[i]] == Acct(l.name, l.seed, bals)
      modifies this`lastAccount, this`accounts, ac
      ensures Rewriting(ac, last0, name0, before, after, keys, i + 1)
    {
      ac.name, ac.seed, ac.encSeed, ac.balances := l.name, l.seed, Some(l.encSeed), bals;
      PutAccount(ac, iv);
      assert keys[..i + 1] == keys[..i] + [keys[i]];
    }

    /** Every stored value becomes 0 and the hash list empty. */
    method ResetDB(iv: seq<Byte>)
      requires Ok() && |iv| == BLOCK_SIZE
      modifies this`accounts, this`lastAccount, db
      ensures Ok() && Replay.IsReset(lib, old(Now()), Now())
      ensures ZeroedValues(old(StoredAccounts()), StoredAccounts()) && db.hashes == [] && db.txs == old(db.txs)
    {
      hide Valid, Agrees, ZeroedValues;
      ZeroedOnly(StoredAccounts());
      db.hashes := [];
      ZeroAccounts(iv);
    }

    method ZeroAccounts(iv: seq<Byte>)
      requires Ok() && |iv| == BLOCK_SIZE
      modifies this`accounts, this`lastAccount
      ensures Ok() && Agrees(View()) && StoredAccounts() == Replay.AllZeroed(old(StoredAccounts()))
    {
      OkIff();
      hide Rewriting, Remembered, Valid, Sound, WellKept, SeedsDiffer, ListingOf;
      ghost var before := StoredAccounts();
      ghost var last0, name0 := lastAccount, CachedName();
      var acc, keys := ListAccount();
      ListingStart(acc, keys);
      var ac := new Account("", [], None, []);
      RewriteStart(ac, Replay.AllZeroed(before), keys);
      for i := 0 to |acc|
        invariant Rewriting(ac, last0, name0, before, Replay.AllZeroed(before), keys, i)
        invariant Remembered(last0, name0, before)
      {
        ZeroTurn(ac, acc, i, iv, last0, name0, before, keys);
      }
      ListedAll(cipher, before, acc, keys);
      ZeroedAccounts(before);
      RewriteDone(ac, last0, name0, before, Replay.AllZeroed(before), keys);
    }

    method ZeroTurn(ac: Account, acc: seq<Listed>, i: nat, iv: seq<Byte>, ghost last0: Account?,
          ghost name0: string, ghost before: map<Key, Acct>, ghost keys: seq<Key>)
      requires |iv| == BLOCK_SIZE && i < |acc| && ListingOf(cipher, before, acc, keys)
      requires Rewriting(ac, last0, name0, before, Replay.AllZeroed(before), keys, i)
      requires ac != last0 && Remembered(last0, name0, before)
      modifies this`lastAccount, this`accounts, ac
      ensures Rewriting(ac, last0, name0, before, Replay.AllZeroed(before), keys, i + 1)
    {
      hide Rewriting, Remembered, ListingOf;
      var bals := ZeroValues(acc[i].bals);
      ListedAt(cipher, before, acc, keys, i);
      ZeroedAt(before, keys[i]);
      StoreRange(ac, acc[i], bals, iv, last0, name0, before, Replay.AllZeroed(before), keys, i);
    }

    lemma ListingStart(acc: seq<Listed>, keys: seq<Key>)
      requires Fit()
      requires Distinct(keys) && |keys| == |acc| && forall k :: k in keys <==> k in accounts
      requires forall i :: 0 <= i < |keys| ==> acc[i] == ListedOf(cipher, accounts[keys[i]])
      ensures ListingOf(cipher, StoredAccounts(), acc, keys) && WellKept(lib, StoredAccounts())
    {
    }

    lemma RewriteStart(ac: Account, after: map<Key, Acct>, keys: seq<Key>)
      requires Fit() && ac != lastAccount
      requires after.Keys == StoredAccounts().Keys && forall k :: k in keys ==> k in accounts
      ensures Rewriting(ac, lastAccount, CachedName(), StoredAccounts(), after, keys, 0)
      ensures Remembered(lastAccount, CachedName(), StoredAccounts())
    {
    }

    /** Takes the balances of every account from the node and lists the transactions of its
        addresses, unconfirmed.  A failing query rolls everything back and ends the process. */
    method RefreshAccount(node: Node, iv: seq<Byte>) returns (ok: bool, ghost e: Event)
      requires Fit() && |iv| == BLOCK_SIZE
      modifies this`accounts, this`lastAccount, db
      ensures !ok ==> accounts == old(accounts) && db.hashes == old(db.hashes) && db.txs == old(db.txs)
      ensures ok <==> !QueryFails(node, old(StoredAccounts()))
      ensures ok ==>
                && Fit() && (Ok() <==> old(Ok())) && Agrees(View())
                && (lastAccount == old(lastAccount) || fresh(lastAccount))
                && StoredAccounts() == Refreshed(node, old(StoredAccounts()))
                && TookBalances(node, old(StoredAccounts()), StoredAccounts())
                && RefreshedList(node, old(StoredAccounts()), old(db.hashes), db.hashes)
                && db.txs == old(db.txs)
      ensures ok ==> e.Refresh? && Enabled(old(Now()), e) && Now() == Step(lib, old(Now()), e)
    {
      OkIff();
      hide Refreshing, ListingOf, Valid, Sound, WellKept, SeedsDiffer, ListProgress, Remembered, Refreshed,
           RefreshedList, TookBalances, QueryFails, Step, Enabled;
      var saved, hs := accounts, db.hashes;
      ghost var s := Now();
      e := Stop;
      ghost var before := StoredAccounts();
      ghost var last0, name0 := lastAccount, CachedName();
      var acc, keys := ListAccount();
      var ac := new Account("", [], None, []);
      RefreshStart(node, ac, acc, keys, hs);
      for i := 0 to |acc|
        invariant Refreshing(node, ac, last0, name0, before, keys, i, old(db.hashes), hs)
        invariant db.hashes == old(db.hashes) && db.txs == old(db.txs)
      {
        var done;
        done, hs := RefreshTurn(node, ac, acc, i, hs, iv, last0, name0, before, keys, old(db.hashes));
        if !done {
          accounts := saved;
          return false, e;
        }
      }
      RefreshDone(node, ac, acc, last0, name0, before, keys, db.hashes, hs);
      RefreshedTook(node, before);
      e := RefreshEvent(lib, node, s, hs, View(), if keys == [] then "" else keys[|keys| - 1]);
      db.hashes := hs;
      return true, e;
    }

    /** importwallet: restores the account "" and refreshes.  Nothing stores the transactions the
        refresh lists. */
    method ImportWallet(seed: Seed, node: Node, iv: seq<Byte>) returns (ok: bool, fatal: bool, ghost trace: seq<Event>)
      requires Ok() && |iv| == BLOCK_SIZE
      modifies this`accounts, this`lastAccount, lastAccount, db
      ensures !ok && !fatal <==> Get(old(View()), "").Some?
      ensures !ok && !fatal ==> Ok() && Now() == old(Now())
      ensures fatal ==> !ok && db.hashes == old(db.hashes) && db.txs == old(db.txs)
      ensures ok ==> Fit() && Agrees(View()) && db.txs == old(db.txs)
      ensures ok ==> (Ok() <==> UnusedSeed(lib, old(StoredAccounts()), seed))
      ensures ok ==>
                && |trace| == 2 && trace[0].Restore? && trace[0].seed == seed && trace[1].Refresh?
                && ValidRun(lib, old(Now()), trace) && Now() == After(lib, old(Now()), trace)
                && TookBalances(node, Step(lib, old(Now()), trace[0]).store.db, StoredAccounts())
                && RefreshedList(node, Step(lib, old(Now()), trace[0]).store.db, old(db.hashes), db.hashes)
    {
      hide Valid, Sound, UnusedSeed, Step, Agrees, FirstUnused, Refreshed, RefreshedList, TookBalances;
      ghost var s := Now();
      trace, fatal := [], false;
      ghost var count, e;
      ok, count := RestoreAddressesFromSeed(seed, node, iv);
      if !ok {
        return;
      }
      ghost var restored := Now();
      ok, e := RefreshAccount(node, iv);
      if !ok {
        fatal := true;
        return;
      }
      TwoSteps(lib, s, Restore(seed, count), e);
      trace := [Restore(seed, count), e];
    }

    /** Stores the transactions that listed hashes lack. */
    method UpdateTXs(node: Node) returns (ok: bool)
      requires Fit()
      modifies db
      ensures Fit() && (Ok() <==> old(Ok())) && lastAccount == old(lastAccount) && accounts == old(accounts)
      ensures var req := Missing(old(db.hashes), old(db.txs));
              && (ok <==> req == [] || node.trytes(req).Some?)
              && Now() == if req == [] || !ok then old(Now())
                          else Step(lib, old(Now()), Update(node.trytes(req).value))
    {
      OkIff();
      hide Valid, Sound, SeedsDiffer, PutAll, Missing, Decrypted;
      ok := db.UpdateTXs(lib, node);
      OkIff();
    }

    ghost function CachedName(): string
      reads this, lastAccount
    {
      if lastAccount == null then "" else lastAccount.name
    }

    lemma RefreshStart(node: Node, ac: Account, acc: seq<Listed>, keys: seq<Key>, hs: seq<TxState>)
      requires Fit() && ac != lastAccount
      requires Distinct(keys) && |keys| == |acc| && forall k :: k in keys <==> k in accounts
      requires forall i :: 0 <= i < |keys| ==> acc[i] == ListedOf(cipher, accounts[keys[i]])
      ensures Refreshing(node, ac, lastAccount, CachedName(), StoredAccounts(), keys, 0, hs, hs)
      ensures ListingOf(cipher, StoredAccounts(), acc, keys) && WellKept(lib, StoredAccounts())
    {
      ListingStart(acc, keys);
      hide Rewriting, Remembered, Valid, ListingOf, ListProgress, ValidDb, Refreshed;
      RefreshedAccounts(node, StoredAccounts());
      RewriteStart(ac, Refreshed(node, StoredAccounts()), keys);
      ProgressStart(node, StoredAccounts(), keys, hs);
    }

    ghost predicate Refreshing(node: Node, ac: Account, last0: Account?, name0: string, before: map<Key, Acct>,
          keys: seq<Key>, i: nat, hs0: seq<TxState>, hs: seq<TxState>)
      reads this, ac, last0
    {
      && ac != last0 && Remembered(last0, name0, before)
      && Rewriting(ac, last0, name0, before, Refreshed(node, before), keys, i)
      && ListProgress(node, before, keys, i, hs0, hs)
    }

    method RefreshTurn(node: Node, ac: Account, acc: seq<Listed>, i: nat, hs: seq<TxState>, iv: seq<Byte>,
          ghost last0: Account?, ghost name0: string, ghost before: map<Key, Acct>, ghost keys: seq<Key>,
          ghost hs0: seq<TxState>)
        returns (ok: bool, more: seq<TxState>)
      requires |iv| == BLOCK_SIZE && i < |acc| && ListingOf(cipher, before, acc, keys)
      requires Refreshing(node, ac, last0, name0, before, keys, i, hs0, hs)
      modifies this`lastAccount, this`accounts, ac
      ensures ok ==> Refreshing(node, ac, last0, name0, before, keys, i + 1, hs0, more)
      ensures !ok ==> QueryFails(node, before)
    {
      hide Rewriting, ListProgress, Remembered, Refreshed;
      var taken;
      ok, taken, more := QueryAccount(node, acc[i].bals, hs);
      if ok {
        ProgressStep(node, before, keys, i, hs0, hs, more);
        RefreshedAt(node, before, keys[i]);
        StoreRange(ac, acc[i], taken, iv, last0, name0, before, Refreshed(node, before), keys, i);
      }
    }

    lemma RefreshDone(node: Node, ac: Account, acc: seq<Listed>, last0: Account?, name0: string,
          before: map<Key, Acct>, keys: seq<Key>, hs0: seq<TxState>, hs: seq<TxState>)
      requires Lawful(lib) && WellKept(lib, before) && ListingOf(cipher, before, acc, keys)
      requires Refreshing(node, ac, last0, name0, before, keys, |acc|, hs0, hs)
      ensures Fit() && (Ok() <==> SeedsDiffer(lib, before)) && Agrees(View())
      ensures StoredAccounts() == Refreshed(node, before) && RefreshedList(node, before, hs0, hs)
      ensures !QueryFails(node, before)
      ensures lastAccount == last0 || lastAccount == ac
      ensures Keyed(View(), last0 == null, Refreshed(node, before), if keys == [] then "" else keys[|keys| - 1])
    {
      assert lastAccount == last0 || lastAccount == ac;
      hide Rewriting, Refreshed;
      RefreshedAccounts(node, before);
      RewriteDone(ac, last0, name0, before, Refreshed(node, before), keys);
      ProgressDone(node, before, keys, hs0, hs);
    }

    /** Restoring a wallet from its seed into a fresh database: scan, refresh, store the flags,
        notify.  On a node that does not fail and shows the same throughout, every restored
        entry holds exactly the balance the node reports. */
    method ScanAndRestoreAddresses(seed: Seed, entered: Option<int>, raw: seq<Address> -> seq<int>, node: Node,
          iv: seq<Byte>, ghost bal: Address -> int, ghost c: Hash -> bool, ghost of: Address -> set<Hash>,
          ghost content: Hash -> Transaction)
        returns (ok: bool)
      requires Ok() && |iv| == BLOCK_SIZE
      requires |accounts| == 0 && lastAccount == null && db.hashes == [] && ignoreAddr == []
      requires forall i :: 0 <= i < AddressScan.Limit(entered) ==> lib.newAddress(seed, i).Some?
      requires Steady(node, raw, bal, c, of, content)
      modifies this, db
      ensures ok && Ok() && Restored(lib, StoredAccounts(), seed, bal)
      ensures var limit := if entered.Some? && entered.value >= 1 then entered.value else 50000;
              && ToKey("") in StoredAccounts()
              && HoldsFunds(lib, StoredAccounts()[ToKey("")], limit, bal)
    {
      hide Valid, Steady, Aligned, TrueTo, RefreshedList, Refreshed, Restored, HoldsFunds, TookBalances;
      ghost var a := ScanAndStore(seed, entered, raw, iv, node, bal, c, of, content);
      SteadyAnswers(node, raw, bal, c, of, content);
      ghost var e;
      ok, e := RefreshAccount(node, iv);
      SteadyRefresh(lib, node, raw, bal, c, of, content, a, AddressScan.Limit(entered), db.hashes);
      AbsorbAndNotify(node, iv, raw, bal, c, of, content);
    }

    method ScanAndStore(seed: Seed, entered: Option<int>, raw: seq<Address> -> seq<int>, iv: seq<Byte>,
          ghost node: Node, ghost bal: Address -> int, ghost c: Hash -> bool, ghost of: Address -> set<Hash>,
          ghost content: Hash -> Transaction)
        returns (ghost a: Acct)
      requires Ok() && |iv| == BLOCK_SIZE && |accounts| == 0 && lastAccount == null
      requires forall i :: 0 <= i < AddressScan.Limit(entered) ==> lib.newAddress(seed, i).Some?
      requires Steady(node, raw, bal, c, of, content)
      modifies this`accounts, this`lastAccount
      ensures Ok() && lastAccount == null
      ensures a.name == "" && a.seed == seed && |a.bals| > 0 && Aligned(lib, seed, a.bals) && TrueTo(a.bals, bal)
      ensures HoldsFunds(lib, a, AddressScan.Limit(entered), bal)
      ensures StoredAccounts() == map[ToKey("") := a]
      ensures ValidRun(lib, old(Now()), ScanSteps(a)) && Now() == After(lib, old(Now()), ScanSteps(a))
    {
      hide AddressScan.Indexes, AddressScan.Rising, AddressScan.IsHighest, AddressScan.Reported, SumBy;
      var bals, total, highest, all, at := AddressScan.ScanAddresses(lib, seed, entered, 8000, raw);
      AddressScan.FullAnswers(lib, seed, 0, AddressScan.Limit(entered), 8000, raw);
      ScannedTruth(lib, seed, raw, bal, all, at, bals);
      a := Acct("", seed, bals);
      ScannedFunds(lib, a, AddressScan.Limit(entered), raw, bal, all, at, highest);
      assert StoredAccounts() == map[];
      PutValid(lib, View(), a);
      ScanIsSteps(lib, Now(), a);
      hide Valid, Aligned, TrueTo, Steady, ValidRun, After, ScanSteps;
      StoreNew("", seed, bals, iv);
    }

    /** Storing the flags and notifying leaves accounts whose transactions are all listed as they are. */
    method AbsorbAndNotify(node: Node, iv: seq<Byte>, ghost raw: seq<Address> -> seq<int>,
          ghost bal: Address -> int, ghost c: Hash -> bool, ghost of: Address -> set<Hash>,
          ghost content: Hash -> Transaction)
      requires Ok() && |iv| == BLOCK_SIZE && ignoreAddr == [] && Steady(node, raw, bal, c, of, content)
      requires forall h, adr :: Owner(StoredAccounts(), adr).Some? && h in of(adr) ==> h in HashesOf(db.hashes)
      modifies this, lastAccount, db
      ensures Ok() && View() == old(View())
    {
      hide Valid;
      ghost var s := Now();
      Discovery.FaithfulSeparate(node.find, (a: Address) => true, of);
      var e1, t1 := UpdateConfirmationState(node, (a: Address) => true, of);
      ghost var s1 := Now();
      var ok, e2, t2, commits := Walletnotify(node, iv, (a: Address) => true, of);
      QuietAfterAbsorbing(lib, node, s, e1, e2, s1, Now(), c, content);
    }

    /** When the loop has met every account, bucket and cache agree. */
    lemma RewriteDone(ac: Account, last0: Account?, name0: string, before: map<Key, Acct>,
          after: map<Key, Acct>, keys: seq<Key>)
      requires Lawful(lib) && WellKept(lib, before) && Rewriting(ac, last0, name0, before, after, keys, |keys|)
      requires SameAccounts(before, after) && forall k :: k in before ==> k in keys
      requires Remembered(last0, name0, before)
      ensures StoredAccounts() == after && Fit() && (Ok() <==> SeedsDiffer(lib, before)) && Agrees(View())
      ensures lastAccount == null <==> last0 == null
      ensures lastAccount != null ==> keys != [] && lastAccount.View() == after[keys[|keys| - 1]]
    {
      forall k | k in after
        ensures StoredAccounts()[k] == after[k] && ToKey(after[k].name) == k
        ensures Aligned(lib, after[k].seed, after[k].bals)
      {
        var j :| 0 <= j < |keys| && keys[j] == k;
        AlignedSame(lib, before[k].seed, before[k].bals, after[k].bals);
      }
      assert keys[..|keys|] == keys;
      assert lastAccount == null || lastAccount == ac;
    }
  }

  /** Why a transfer of non-negative values fails: there is no such account, or it cannot pay. */
  ghost predicate Unpayable(lib: Library, s: Store, acc: Option<string>, total: int) {
    if acc.Some? then Get(s, acc.value).None? || Spent(lib, Get(s, acc.value).value, total).None?
    else s.db.Keys == {} || exists k :: k in s.db && Spent(lib, s.db[k], total).None?
  }

  const MAX_INT32: nat := 0x7fff_ffff

  ghost predicate Used(lib: Library, find: Discovery.Query, seed: Seed, i: nat) {
    lib.newAddress(seed, i).Some?
    && var r := find([lib.newAddress(seed, i).value]); r.Some? && r.value != []
  }

  ghost predicate FirstUnused(lib: Library, find: Discovery.Query, seed: Seed, n: nat) {
    && n < MAX_INT32 && lib.newAddress(seed, n).Some?
    && (var r := find([lib.newAddress(seed, n).value]); r.Some? && r.value == [])
    && forall i :: 0 <= i < n ==> Used(lib, find, seed, i)
  }

  method CountUsed(lib: Library, find: Discovery.Query, seed: Seed) returns (count: nat)
    ensures if exists n :: FirstUnused(lib, find, seed, n) then FirstUnused(lib, find, seed, count) else count == 0
    ensures forall i :: 0 <= i < count ==> lib.newAddress(seed, i).Some?
  {
    for i := 0 to MAX_INT32
      invariant forall j :: 0 <= j < i ==> Used(lib, find, seed, j) && lib.newAddress(seed, j).Some?
    {
      var adr := lib.newAddress(seed, i);
      if adr.None? {
        NoneUnused(lib, find, seed, i);
        return 0;
      }
      var resp := find([adr.value]);
      if resp.None? {
        NoneUnused(lib, find, seed, i);
        return 0;
      }
      if |resp.value| == 0 {
        assert FirstUnused(lib, find, seed, i);
        return i;
      }
    }
    NoneUnused(lib, find, seed, MAX_INT32);
    return 0;
  }

  /** The search has ended without meeting an unused address. */
  lemma NoneUnused(lib: Library, find: Discovery.Query, seed: Seed, i: nat)
    requires i == MAX_INT32 || (!Used(lib, find, seed, i) && !FirstUnused(lib, find, seed, i))
    requires forall j :: 0 <= j < i ==> Used(lib, find, seed, j)
    ensures forall n :: !FirstUnused(lib, find, seed, n)
  {
    forall n: nat
      ensures !FirstUnused(lib, find, seed, n)
    {
      assert n < i ==> Used(lib, find, seed, n);
      assert n > i && i < MAX_INT32 ==> !Used(lib, find, seed, i);
    }
  }

  method NewEntries(lib: Library, seed: Seed, count: nat) returns (bals: seq<Balance>)
    requires forall i :: 0 <= i < count ==> lib.newAddress(seed, i).Some?
    ensures FirstEntries(lib, seed, count) == Some(bals)
  {
    bals := [];
    for i := 0 to count
      invariant FirstEntries(lib, seed, i) == Some(bals)
    {
      bals := bals + [Balance(lib.newAddress(seed, i).value, 0, 0)];
    }
  }

  /** The account "" with the first addresses of the seed, without value or change. */
  ghost predicate Untouched(lib: Library, a: Acct, seed: Seed, count: nat) {
    && a.name == "" && a.seed == seed && |a.bals| == count
    && forall i :: 0 <= i < count ==>
         lib.newAddress(seed, i) == Some(a.bals[i].address) && a.bals[i].value == 0 && a.bals[i].change == 0
  }

  lemma UntouchedEntries(lib: Library, seed: Seed, count: nat)
    requires FirstEntries(lib, seed, count).Some?
    ensures Untouched(lib, Acct("", seed, FirstEntries(lib, seed, count).value), seed, count)
  {
  }

  /** Writing an account that exists, or a new one; in the latter case seeds differ afterwards
      exactly when the new one was not in use. */
  lemma OpenedSound(lib: Library, s: Store, a: Acct)
    requires Sound(lib, s) && Aligned(lib, a.seed, a.bals)
    requires var k := ToKey(a.name); k in s.db ==> s.db[k].name == a.name && s.db[k].seed == a.seed
    ensures Sound(lib, Put(s, a))
    ensures SeedsDiffer(lib, s.db) ==>
              (SeedsDiffer(lib, Put(s, a).db) <==> ToKey(a.name) in s.db || UnusedSeed(lib, s.db, a.seed))
  {
    PutSound(lib, s, a);
    var t := Put(s, a);
    if ToKey(a.name) !in s.db && SeedsDiffer(lib, t.db) && lib.newAddress(a.seed, 0).Some? {
      forall k | k in s.db
        ensures s.db[k].seed != a.seed
      {
        assert t.db[k] == s.db[k] && t.db[ToKey(a.name)] == a;
      }
    }
  }

  lemma RestoredSound(lib: Library, s: Store, seed: Seed, count: nat)
    requires Sound(lib, s) && SeedsDiffer(lib, s.db) && Get(s, "").None? && FirstEntries(lib, seed, count).Some?
    ensures var t := Put(s, Acct("", seed, FirstEntries(lib, seed, count).value));
            Sound(lib, t) && (SeedsDiffer(lib, t.db) <==> UnusedSeed(lib, s.db, seed))
  {
    FirstEntriesAligned(lib, seed, count);
    OpenedSound(lib, s, Acct("", seed, FirstEntries(lib, seed, count).value));
  }

  /** Reading an account by name, or opening it, and extending it. */
  lemma SourceSound(lib: Library, s: Store, name: string, seed: Seed)
    requires Sound(lib, s) && Extended(lib, Source(s, name, seed)).Some?
    ensures var t := Put(s, Extended(lib, Source(s, name, seed)).value);
            && Sound(lib, t)
            && (SeedsDiffer(lib, s.db) ==>
                (SeedsDiffer(lib, t.db) <==> Get(s, name).Some? || UnusedSeed(lib, s.db, seed)))
  {
    if Get(s, name).Some? {
      SourceAligned(lib, s, Get(s, name).value);
    }
    OpenedSound(lib, s, Extended(lib, Source(s, name, seed)).value);
  }

  function AddressesOf(bs: seq<Balance>): seq<Address> {
    seq(|bs|, i requires 0 <= i < |bs| => bs[i].address)
  }

  /** Every answer overwrites the entries of its address, change aside. */
  function Overlaid(bs: seq<Balance>, answers: seq<AddressBalance>): seq<Balance> {
    if answers == [] then bs
    else
      var b, init := answers[|answers| - 1], Overlaid(bs, answers[..|answers| - 1]);
      seq(|init|, i requires 0 <= i < |init| =>
        if b.address == init[i].address then Balance(b.address, b.value, init[i].change) else init[i])
  }

  ghost predicate Answered(node: Node, a: Acct) {
    node.find(AddressesOf(a.bals)).Some? && node.balances(AddressesOf(a.bals)).Some?
  }

  /** A query for one of the accounts fails. */
  ghost predicate QueryFails(node: Node, m: map<Key, Acct>) {
    exists k :: k in m && !Answered(node, m[k])
  }

  /** One account's turn of the refresh: both queries, before anything is written. */
  method QueryAccount(node: Node, bs: seq<Balance>, hs: seq<TxState>)
      returns (ok: bool, taken: seq<Balance>, more: seq<TxState>)
    ensures ok <==> node.find(AddressesOf(bs)).Some? && node.balances(AddressesOf(bs)).Some?
    ensures ok ==>
              && taken == Overlaid(bs, node.balances(AddressesOf(bs)).value)
              && ListGrown(hs, more)
              && forall h :: h in HashesOf(more) <==> h in HashesOf(hs) || h in node.find(AddressesOf(bs)).value
  {
    var adrs := AddressesOf(bs);
    var r, bals := node.find(adrs), node.balances(adrs);
    if r.None? || bals.None? {
      return false, bs, hs;
    }
    more := AppendUnlisted(hs, r.value);
    taken := TakeBalances(bs, bals.value);
    return true, taken, more;
  }

  method TakeBalances(bs: seq<Balance>, answers: seq<AddressBalance>) returns (r: seq<Balance>)
    ensures r == Overlaid(bs, answers)
  {
    r := bs;
    for j := 0 to |answers|
      invariant r == Overlaid(bs, answers[..j])
    {
      assert answers[..j + 1][..j] == answers[..j];
      ghost var r0 := r;
      for i := 0 to |r|
        invariant |r| == |r0|
        invariant forall k :: 0 <= k < |r| ==>
                    r[k] == if k < i && answers[j].address == r0[k].address
                            then Balance(answers[j].address, answers[j].value, r0[k].change) else r0[k]
      {
        if answers[j].address == r[i].address {
          r := r[i := Balance(answers[j].address, answers[j].value, r[i].change)];
        }
      }
    }
    assert answers[..|answers|] == answers;
  }

  /** Answer j is the last one for the address. */
  ghost predicate LastFor(answers: seq<AddressBalance>, adr: Address, j: nat) {
    && j < |answers| && answers[j].address == adr
    && forall l :: j < l < |answers| ==> answers[l].address != adr
  }

  ghost predicate Mentions(answers: seq<AddressBalance>, adr: Address) {
    exists b :: b in answers && b.address == adr
  }

  /** What the refresh makes of an entry: the value of the last answer for its address, if there is
      one, and its old value otherwise.  Address and change stay. */
  ghost predicate TookLast(b: Balance, answers: seq<AddressBalance>, c: Balance) {
    && c.address == b.address && c.change == b.change
    && (!Mentions(answers, b.address) ==> c.value == b.value)
    && (forall j: nat :: LastFor(answers, b.address, j) ==> c.value == answers[j].value)
  }

  lemma {:induction false} OverlaidLast(bs: seq<Balance>, answers: seq<AddressBalance>, i: nat)
    requires i < |bs|
    ensures |Overlaid(bs, answers)| == |bs| && TookLast(bs[i], answers, Overlaid(bs, answers)[i])
  {
    hide TookLast;
    if answers == [] {
      NothingTaken(bs[i]);
    } else {
      var init, x := answers[..|answers| - 1], answers[|answers| - 1];
      OverlaidLast(bs, init, i);
      assert init + [x] == answers;
      TookOneMore(bs[i], init, x, Overlaid(bs, init)[i], Overlaid(bs, answers)[i]);
    }
  }

  lemma NothingTaken(b: Balance)
    ensures TookLast(b, [], b)
  {
  }

  lemma TookOneMore(b: Balance, init: seq<AddressBalance>, x: AddressBalance, c: Balance, d: Balance)
    requires TookLast(b, init, c)
    requires d == if x.address == c.address then Balance(x.address, x.value, c.change) else c
    ensures TookLast(b, init + [x], d)
  {
    var answers := init + [x];
    assert answers[|init|] == x && forall j :: 0 <= j < |init| ==> answers[j] == init[j];
    forall j: nat | LastFor(answers, b.address, j)
      ensures d.value == answers[j].value
    {
      if j < |init| {
        assert LastFor(init, b.address, j);
      }
    }
  }

  /** The addresses of the entries, in order. */
  ghost predicate Asks(bs: seq<Balance>, adrs: seq<Address>) {
    |adrs| == |bs| && forall i :: 0 <= i < |bs| ==> adrs[i] == bs[i].address
  }

  /** Every entry of every account has taken the node's answer to the query for the account. */
  ghost predicate TookBalances(node: Node, before: map<Key, Acct>, after: map<Key, Acct>) {
    before.Keys == after.Keys && forall k :: k in before ==> TookAll(node, before[k], after[k])
  }

  ghost predicate TookAll(node: Node, a: Acct, c: Acct) {
    && c.name == a.name && c.seed == a.seed && |c.bals| == |a.bals|
    && forall adrs :: Asks(a.bals, adrs) ==>
         && node.balances(adrs).Some?
         && forall i :: 0 <= i < |a.bals| ==> TookLast(a.bals[i], node.balances(adrs).value, c.bals[i])
  }

  lemma RefreshedTook(node: Node, m: map<Key, Acct>)
    requires !QueryFails(node, m)
    ensures TookBalances(node, m, Refreshed(node, m))
  {
    forall k | k in m
      ensures TookAll(node, m[k], Refreshed(node, m)[k])
    {
      assert Answered(node, m[k]);
      RefreshedAt(node, m, k);
      var bs := m[k].bals;
      forall adrs | Asks(bs, adrs)
        ensures adrs == AddressesOf(bs)
      {
      }
      forall i | 0 <= i < |bs|
        ensures |Overlaid(bs, node.balances(AddressesOf(bs)).value)| == |bs|
        ensures TookLast(bs[i], node.balances(AddressesOf(bs)).value,
                         Overlaid(bs, node.balances(AddressesOf(bs)).value)[i])
      {
        OverlaidLast(bs, node.balances(AddressesOf(bs)).value, i);
      }
      OverlaidAddresses(bs, node.balances(AddressesOf(bs)).value);
      hide TookLast, Overlaid, AddressesOf;
    }
  }

  /** What a refresh with truthful answers is worth: a value is the node's afterwards if and only if
      the answers mention its address, or it was the node's before.  So every value is when the
      node answers for every address asked; and when it leaves out what is not positive, an
      entry whose address has been emptied keeps its old value. */
  lemma RefreshTrueIff(node: Node, before: map<Key, Acct>, after: map<Key, Acct>, bal: Address -> int, k: Key, i: nat,
        adrs: seq<Address>)
    requires TookBalances(node, before, after) && k in before && i < |before[k].bals| && Asks(before[k].bals, adrs)
    requires node.balances(adrs).Some? && forall b :: b in node.balances(adrs).value ==> b.value == bal(b.address)
    ensures var x, y, answers := before[k].bals[i], after[k].bals[i], node.balances(adrs).value;
            && (y.value == bal(x.address) <==> Mentions(answers, x.address) || x.value == bal(x.address))
            && ((forall a :: a in adrs ==> Mentions(answers, a)) ==> y.value == bal(x.address))
            && ((forall a :: a in adrs ==> (Mentions(answers, a) <==> bal(a) > 0)) ==>
                y.value == if bal(x.address) > 0 then bal(x.address) else x.value)
  {
    var x, y, answers := before[k].bals[i], after[k].bals[i], node.balances(adrs).value;
    assert TookAll(node, before[k], after[k]);
    assert adrs[i] == x.address && TookLast(x, answers, y);
    if Mentions(answers, x.address) {
      var j := LastMention(answers, x.address);
      assert answers[j] in answers;
    }
  }

  lemma {:induction false} LastMention(answers: seq<AddressBalance>, adr: Address) returns (j: nat)
    requires Mentions(answers, adr)
    ensures LastFor(answers, adr, j)
  {
    var n := |answers| - 1;
    if answers[n].address == adr {
      j := n;
    } else {
      assert answers == answers[..n] + [answers[n]];
      j := LastMention(answers[..n], adr);
    }
  }

  /** Answers that tell the truth leave every entry that was true, true. */
  lemma {:induction false} OverlaidTruth(bs: seq<Balance>, answers: seq<AddressBalance>, bal: Address -> int)
    requires forall b :: b in answers ==> b.value == bal(b.address)
    ensures SameAddresses(bs, Overlaid(bs, answers))
    ensures forall i :: 0 <= i < |bs| && bs[i].value == bal(bs[i].address) ==>
              Overlaid(bs, answers)[i].value == bal(bs[i].address)
  {
    if answers == [] {
    } else {
      OverlaidTruth(bs, answers[..|answers| - 1], bal);
    }
  }

  lemma {:induction false} OverlaidAddresses(bs: seq<Balance>, answers: seq<AddressBalance>)
    ensures SameAddresses(bs, Overlaid(bs, answers))
  {
    if answers == [] {
    } else {
      OverlaidAddresses(bs, answers[..|answers| - 1]);
    }
  }

  /** The accounts with the node's balances, where it answers. */
  function Refreshed(node: Node, m: map<Key, Acct>): map<Key, Acct> {
    map k | k in m ::
      var answers := node.balances(AddressesOf(m[k].bals));
      if answers.Some? then m[k].(bals := Overlaid(m[k].bals, answers.value)) else m[k]
  }

  lemma RefreshedAccounts(node: Node, m: map<Key, Acct>)
    ensures SameAccounts(m, Refreshed(node, m))
  {
    forall k | k in m
      ensures SameAddresses(m[k].bals, Refreshed(node, m)[k].bals)
    {
      var answers := node.balances(AddressesOf(m[k].bals));
      if answers.Some? {
        OverlaidAddresses(m[k].bals, answers.value);
      }
    }
  }

  /** acc lists every account of the map once, under the given keys. */
  ghost predicate ListingOf(c: Cipher, m: map<Key, Acct>, acc: seq<Listed>, keys: seq<Key>) {
    && Distinct(keys) && |keys| == |acc| && (forall k :: k in keys <==> k in m)
    && forall i :: 0 <= i < |keys| ==>
         && keys[i] in m && ToKey(acc[i].name) == keys[i]
         && m[keys[i]] == Acct(acc[i].name, acc[i].seed, acc[i].bals)
         && |acc[i].encSeed| >= BLOCK_SIZE && Decrypted(c, acc[i].encSeed) == acc[i].seed
  }

  lemma RefreshedAt(node: Node, m: map<Key, Acct>, k: Key)
    requires k in m && node.balances(AddressesOf(m[k].bals)).Some?
    ensures k in Refreshed(node, m)
    ensures Refreshed(node, m)[k] ==
            Acct(m[k].name, m[k].seed, Overlaid(m[k].bals, node.balances(AddressesOf(m[k].bals)).value))
  {
  }

  /** The node finds the hash for the addresses of one of the accounts. */
  ghost predicate FoundFor(node: Node, m: map<Key, Acct>, keys: seq<Key>, h: Hash)
    requires forall k :: k in keys ==> k in m
  {
    exists k :: k in keys && var r := node.find(AddressesOf(m[k].bals)); r.Some? && h in r.value
  }

  ghost predicate FoundInWallet(node: Node, m: map<Key, Acct>, h: Hash) {
    exists k :: k in m && var r := node.find(AddressesOf(m[k].bals)); r.Some? && h in r.value
  }

  function Appended(before: seq<TxState>, after: seq<TxState>): seq<Hash>
    requires |before| <= |after|
  {
    HashesOf(after[|before|..])
  }

  /** Old entries stay as they are; what is appended is unconfirmed, not listed before, and
      appended once. */
  ghost predicate ListGrown(before: seq<TxState>, after: seq<TxState>) {
    && before <= after
    && after == before + Unflagged(Appended(before, after))
    && Distinct(Appended(before, after)) && forall h :: h in Appended(before, after) ==> h !in HashesOf(before)
  }

  lemma GrownTwice(x: seq<TxState>, y: seq<TxState>, z: seq<TxState>)
    requires ListGrown(x, y) && ListGrown(y, z)
    ensures ListGrown(x, z)
  {
    var a, b := Appended(x, y), Appended(y, z);
    assert z[|x|..] == y[|x|..] + z[|y|..];
    assert Appended(x, z) == a + b && Unflagged(a + b) == Unflagged(a) + Unflagged(b);
    ListedHashes(x, a);
    DistinctConcat(a, b);
  }

  /** The store a loop over all accounts leaves: its cache, if it had one, holds the account met
      last. */
  ghost predicate Keyed(s: Store, uncached: bool, db: map<Key, Acct>, last: Key) {
    && s.db == db
    && if uncached then s.cache.None? else last in db && s.cache == Some(db[last])
  }

  /** The scan restores the addresses and takes their values at once. */
  ghost function ScanSteps(a: Acct): seq<Event> {
    [Restore(a.seed, |a.bals|), Refresh(map[ToKey("") := a], [], "")]
  }

  lemma ScanIsSteps(lib: Library, s: State, a: Acct)
    requires s.store == Store(map[], None) && a.name == "" && Aligned(lib, a.seed, a.bals)
    ensures ValidRun(lib, s, ScanSteps(a))
    ensures After(lib, s, ScanSteps(a)) == s.(store := Store(map[ToKey("") := a], None))
  {
    var d, e := Restore(a.seed, |a.bals|), Refresh(map[ToKey("") := a], [], "");
    var bals := FirstEntries(lib, a.seed, |a.bals|);
    FirstEntriesAligned(lib, a.seed, |a.bals|);
    var t := Step(lib, s, d);
    assert t.store == Store(map[ToKey("") := Acct("", a.seed, bals.value)], None);
    assert SameAddresses(bals.value, a.bals);
    assert s.hs + Unflagged([]) == s.hs;
    hide FirstEntries;
    TwoSteps(lib, s, d, e);
  }

  lemma TwoSteps(lib: Library, s: State, d: Event, e: Event)
    requires Enabled(s, d) && Enabled(Step(lib, s, d), e)
    ensures ValidRun(lib, s, [d, e]) && After(lib, s, [d, e]) == Step(lib, Step(lib, s, d), e)
  {
    RunMore(lib, s, [], d);
    RunMore(lib, s, [d], e);
    assert [] + [d] == [d] && [d] + [e] == [d, e];
  }

  /** A refresh is the step of that name. */
  lemma RefreshEvent(lib: Library, node: Node, s: State, hs: seq<TxState>, store: Store, last: Key) returns (e: Event)
    requires RefreshedList(node, s.store.db, s.hs, hs)
    requires Keyed(store, s.store.cache.None?, Refreshed(node, s.store.db), last)
    ensures e.Refresh? && e.db == Refreshed(node, s.store.db)
    ensures Enabled(s, e) && Step(lib, s, e) == s.(store := store, hs := hs)
  {
    RefreshedAccounts(node, s.store.db);
    e := Refresh(Refreshed(node, s.store.db), Appended(s.hs, hs), last);
    hide Refreshed;
  }

  /** The refreshed list: everything the node finds for the wallet is on it. */
  ghost predicate RefreshedList(node: Node, m: map<Key, Acct>, before: seq<TxState>, after: seq<TxState>) {
    && ListGrown(before, after)
    && forall h :: h in HashesOf(after) <==> (h in HashesOf(before) || FoundInWallet(node, m, h))
  }

  /** The list after the first i accounts. */
  ghost predicate ListProgress(node: Node, m: map<Key, Acct>, keys: seq<Key>, i: nat, before: seq<TxState>,
        hs: seq<TxState>)
  {
    && i <= |keys| && (forall k :: k in keys ==> k in m)
    && (forall k :: k in keys[..i] ==> Answered(node, m[k]))
    && ListGrown(before, hs)
    && forall h :: h in HashesOf(hs) <==> (h in HashesOf(before) || FoundFor(node, m, keys[..i], h))
  }

  lemma ProgressStart(node: Node, m: map<Key, Acct>, keys: seq<Key>, hs: seq<TxState>)
    requires forall k :: k in keys ==> k in m
    ensures ListProgress(node, m, keys, 0, hs, hs)
  {
    assert hs[|hs|..] == [];
  }

  lemma ListedAt(c: Cipher, m: map<Key, Acct>, acc: seq<Listed>, keys: seq<Key>, i: nat)
    requires ListingOf(c, m, acc, keys) && i < |acc|
    ensures i < |keys| && Distinct(keys) && keys[i] in m && ToKey(acc[i].name) == keys[i]
    ensures m[keys[i]] == Acct(acc[i].name, acc[i].seed, acc[i].bals)
    ensures |acc[i].encSeed| >= BLOCK_SIZE && Decrypted(c, acc[i].encSeed) == acc[i].seed
  {
  }

  lemma ListedAll(c: Cipher, m: map<Key, Acct>, acc: seq<Listed>, keys: seq<Key>)
    requires ListingOf(c, m, acc, keys)
    ensures |keys| == |acc| && forall k :: k in m ==> k in keys
  {
  }

  lemma ProgressStep(node: Node, m: map<Key, Acct>, keys: seq<Key>, i: nat, before: seq<TxState>,
        hs: seq<TxState>, more: seq<TxState>)
    requires ListProgress(node, m, keys, i, before, hs) && i < |keys| && ListGrown(hs, more)
    requires var r := node.find(AddressesOf(m[keys[i]].bals));
             Answered(node, m[keys[i]]) && forall h :: h in HashesOf(more) <==> h in HashesOf(hs) || h in r.value
    ensures ListProgress(node, m, keys, i + 1, before, more)
  {
    GrownTwice(before, hs, more);
    assert keys[..i + 1] == keys[..i] + [keys[i]];
  }

  lemma ProgressDone(node: Node, m: map<Key, Acct>, keys: seq<Key>, before: seq<TxState>, hs: seq<TxState>)
    requires ListProgress(node, m, keys, |keys|, before, hs) && forall k :: k in m ==> k in keys
    ensures RefreshedList(node, m, before, hs) && !QueryFails(node, m)
  {
    assert keys[..|keys|] == keys;
  }

  method AppendUnlisted(hs0: seq<TxState>, input: seq<Hash>) returns (hs: seq<TxState>)
    ensures ListGrown(hs0, hs)
    ensures forall h :: h in HashesOf(hs) <==> h in HashesOf(hs0) || h in input
  {
    hs := hs0;
    assert hs0[|hs0|..] == [];
    for i := 0 to |input|
      invariant ListGrown(hs0, hs)
      invariant forall h :: h in HashesOf(hs) <==> h in HashesOf(hs0) || h in input[..i]
    {
      assert input[..i + 1] == input[..i] + [input[i]];
      var exist := IsListed(hs, input[i]);
      if !exist {
        AppendGrows(hs, input[i]);
        GrownTwice(hs0, hs, hs + [TxState(input[i], false)]);
        hs := hs + [TxState(input[i], false)];
      }
    }
    assert input[..|input|] == input;
  }

  lemma AppendGrows(hs: seq<TxState>, h: Hash)
    requires h !in HashesOf(hs)
    ensures ListGrown(hs, hs + [TxState(h, false)])
    ensures HashesOf(hs + [TxState(h, false)]) == HashesOf(hs) + [h]
  {
    var t := hs + [TxState(h, false)];
    assert t[|hs|..] == [TxState(h, false)];
    assert Appended(hs, t) == [h] && Unflagged([h]) == [TxState(h, false)];
    assert HashesOf(t) == HashesOf(hs) + [h];
  }

  method IsListed(hs: seq<TxState>, h: Hash) returns (exist: bool)
    ensures exist <==> h in HashesOf(hs)
  {
    for j := 0 to |hs|
      invariant h !in HashesOf(hs)[..j]
    {
      if h == hs[j].hash {
        assert HashesOf(hs)[j] == h;
        return true;
      }
    }
    return false;
  }

  // ---- restoring ----

  /** A node that answers every query, and always the same: balances, confirmations,
      transactions by address and by hash. */
  ghost predicate Steady(node: Node, raw: seq<Address> -> seq<int>, bal: Address -> int, c: Hash -> bool,
        of: Address -> set<Hash>, content: Hash -> Transaction)
  {
    && (forall q :: |raw(q)| == |q| && forall i :: 0 <= i < |q| ==> raw(q)[i] == bal(q[i]))
    && (forall q :: node.balances(q).Some? && forall b :: b in node.balances(q).value ==> b.value == bal(b.address))
    && Discovery.Faithful(node.find, (a: Address) => true, of)
    && (forall q :: node.trytes(q) == Some(Replay.Replies(content, q)))
    && (forall q :: node.creditTrytes(q).Some?)
    && node.info
    && (forall q :: node.states(q) == Replay.Answers(c, q))
  }

  /** The scan leaves an aligned record that is true to the node. */
  lemma ScannedTruth(lib: Library, seed: Seed, raw: seq<Address> -> seq<int>, bal: Address -> int,
        all: seq<AddressBalance>, at: seq<nat>, bals: seq<Balance>)
    requires forall i :: 0 <= i < |all| ==> lib.newAddress(seed, i).Some?
    requires forall q :: |raw(q)| == |q| && forall i :: 0 <= i < |q| ==> raw(q)[i] == bal(q[i])
    requires AddressScan.About(lib, seed, all, at) && at == AddressScan.From(0, |all|)
    requires forall b :: b in all ==> AddressScan.Reported(raw, b)
    requires |bals| <= |all| && forall i :: 0 <= i < |bals| ==> bals[i] == Balance(all[i].address, all[i].value, 0)
    ensures Aligned(lib, seed, bals) && TrueTo(bals, bal)
  {
    forall i | 0 <= i < |bals|
      ensures bals[i].value == bal(bals[i].address)
    {
      assert all[i] in all;
    }
  }

  function PositiveAt(bal: Address -> int): Address -> int {
    (a: Address) => if bal(a) > 0 then bal(a) else 0
  }

  /** The account holds everything that the first n addresses of its seed hold, and no entry behind
      the last one with funds. */
  ghost predicate HoldsFunds(lib: Library, a: Acct, n: nat, bal: Address -> int) {
    && (forall i: nat :: i < n && lib.newAddress(a.seed, i).Some? && bal(lib.newAddress(a.seed, i).value) > 0 ==>
          i < |a.bals|)
    && (|a.bals| > 1 ==> a.bals[|a.bals| - 1].value > 0)
    && (forall adrs :: Derived(lib, a.seed, n, adrs) ==> SumBy(a.bals, Spendable()) == SumBy(adrs, PositiveAt(bal)))
  }

  /** The first n addresses of the seed. */
  ghost predicate Derived(lib: Library, seed: Seed, n: nat, adrs: seq<Address>) {
    |adrs| == n && forall i :: 0 <= i < n ==> lib.newAddress(seed, i) == Some(adrs[i])
  }

  /** What the scan keeps on a node that answers in full. */
  lemma ScannedFunds(lib: Library, a: Acct, n: nat, raw: seq<Address> -> seq<int>, bal: Address -> int,
        all: seq<AddressBalance>, at: seq<nat>, highest: nat)
    requires forall q :: |raw(q)| == |q| && forall i :: 0 <= i < |q| ==> raw(q)[i] == bal(q[i])
    requires |all| == n > 0 && AddressScan.About(lib, a.seed, all, at) && at == AddressScan.From(0, n)
    requires forall b :: b in all ==> AddressScan.Reported(raw, b)
    requires forall i :: 0 <= i < n ==> lib.newAddress(a.seed, i).Some?
    requires AddressScan.IsHighest(all, at, highest)
    requires |a.bals| == if highest < n then highest + 1 else n
    requires forall i :: 0 <= i < |a.bals| ==> a.bals[i] == Balance(all[i].address, all[i].value, 0)
    requires SumBy(a.bals, Spendable()) == SumBy(all, AddressScan.Positive())
    ensures HoldsFunds(lib, a, n, bal)
  {
    forall i | 0 <= i < n
      ensures at[i] == i && all[i].value == bal(all[i].address) && lib.newAddress(a.seed, i) == Some(all[i].address)
    {
      assert all[i] in all;
    }
    hide AddressScan.From, AddressScan.About, AddressScan.Reported, SumBy;
    forall adrs | Derived(lib, a.seed, n, adrs)
      ensures SumBy(all, AddressScan.Positive()) == SumBy(adrs, PositiveAt(bal))
    {
      SumCongruent(all, AddressScan.Positive(), adrs, PositiveAt(bal));
    }
  }

  /** The same addresses with the node's balances hold the same funds. */
  lemma SameFunds(lib: Library, a: Acct, b: Acct, n: nat, bal: Address -> int)
    requires HoldsFunds(lib, a, n, bal) && a.seed == b.seed && SameAddresses(a.bals, b.bals)
    requires TrueTo(a.bals, bal) && TrueTo(b.bals, bal)
    ensures HoldsFunds(lib, b, n, bal)
  {
    SumCongruent(a.bals, Spendable(), b.bals, Spendable());
  }

  ghost predicate TrueTo(bs: seq<Balance>, bal: Address -> int) {
    forall i :: 0 <= i < |bs| ==> bs[i].value == bal(bs[i].address)
  }

  lemma SteadyAnswers(node: Node, raw: seq<Address> -> seq<int>, bal: Address -> int, c: Hash -> bool,
        of: Address -> set<Hash>, content: Hash -> Transaction)
    requires Steady(node, raw, bal, c, of, content)
    ensures forall m :: !QueryFails(node, m)
  {
  }

  /** The one account of the seed, aligned, every value as the node reports it. */
  ghost predicate Restored(lib: Library, m: map<Key, Acct>, seed: Seed, bal: Address -> int) {
    && m.Keys == {ToKey("")}
    && var a := m[ToKey("")];
       a.seed == seed && |a.bals| > 0 && Aligned(lib, seed, a.bals) && TrueTo(a.bals, bal)
  }

  /** Refreshing a true account keeps it true, and lists every transaction of its addresses. */
  lemma SteadyRefresh(lib: Library, node: Node, raw: seq<Address> -> seq<int>, bal: Address -> int,
        c: Hash -> bool, of: Address -> set<Hash>, content: Hash -> Transaction, a: Acct, n: nat, hs: seq<TxState>)
    requires Steady(node, raw, bal, c, of, content) && HoldsFunds(lib, a, n, bal)
    requires a.name == "" && |a.bals| > 0 && Aligned(lib, a.seed, a.bals) && TrueTo(a.bals, bal)
    requires RefreshedList(node, map[ToKey("") := a], [], hs)
    ensures var m := Refreshed(node, map[ToKey("") := a]);
            && Restored(lib, m, a.seed, bal)
            && HoldsFunds(lib, m[ToKey("")], n, bal)
            && forall h, adr :: Owner(m, adr).Some? && h in of(adr) ==> h in HashesOf(hs)
  {
    var k := ToKey("");
    var m0 := map[k := a];
    var m := Refreshed(node, m0);
    var q := AddressesOf(a.bals);
    OverlaidTruth(a.bals, node.balances(q).value, bal);
    AlignedSame(lib, a.seed, a.bals, m[k].bals);
    SameFunds(lib, a, m[k], n, bal);
    var none: seq<TxState> := [];
    assert HashesOf(none) == [];
    forall h, adr | Owner(m, adr).Some? && h in of(adr)
      ensures h in HashesOf(hs)
    {
      IndexOfSame(a.bals, m[k].bals, adr);
      assert q[IndexOf(a.bals, adr)] == adr;
      assert node.find(AddressesOf(m0[k].bals)).Some? && h in node.find(q).value;
      assert FoundInWallet(node, m0, h);
    }
  }

  /** With a steady node the first two transactions of a round are those of its sight. */
  lemma StartIsConfirm(lib: Library, node: Node, s: State, extras: seq<Hash>, c: Hash -> bool,
        content: Hash -> Transaction)
    requires s.round.Idle? && Distinct(extras)
    requires forall q :: node.trytes(q) == Some(Replay.Replies(content, q)) && node.states(q) == Replay.Answers(c, q)
    requires node.info
    ensures ValidRun(lib, s, RoundStart(node, s, extras))
    ensures After(lib, s, RoundStart(node, s, extras)) == Replay.AfterConfirm(lib, s, Replay.Sight(extras, c), content)
  {
    var v := Replay.Sight(extras, c);
    var d := Discover(extras, Replay.Replies(content, News(s.hs, extras)));
    var k := Confirm(Replay.Answers(c, Unconfirmed(Listing(s.hs, extras))));
    RunNone(lib, s);
    RunMore(lib, s, [], d);
    RunMore(lib, s, [d], k);
    assert [] + [d] == [d] && [d] + [k] == [d, k] == RoundStart(node, s, extras);
  }

  /** On a steady node a round that finds something is a finishing round on its sight. */
  lemma NotifyIsFullRound(lib: Library, node: Node, s: State, extras: seq<Hash>, c: Hash -> bool,
        content: Hash -> Transaction)
    requires s.round.Idle? && Distinct(extras) && extras != []
    requires forall q :: node.trytes(q) == Some(Replay.Replies(content, q)) && node.states(q) == Replay.Answers(c, q)
    requires node.info
    ensures var trace := RoundTrace(node, s, extras, Credit(true));
            && ValidRun(lib, s, trace)
            && After(lib, s, trace) == Replay.FullRound(lib, s, Replay.Sight(extras, c), content)
    ensures var trace := RoundTrace(node, s, extras, Stop);
            ValidRun(lib, s, trace) && After(lib, s, trace) == Replay.Absorbed(lib, s, Replay.Sight(extras, c), content)
  {
    StartIsConfirm(lib, node, s, extras, c, content);
    hide Step, ValidRun, After, RoundStart, Replay.AfterConfirm;
    ConfirmReady(lib, s, Replay.Sight(extras, c), content);
    RunMore(lib, s, RoundStart(node, s, extras), Credit(true));
    RunMore(lib, s, RoundStart(node, s, extras), Stop);
  }

  lemma ConfirmReady(lib: Library, s: State, v: Replay.Sight, content: Hash -> Transaction)
    requires s.round.Idle? && Distinct(v.found)
    ensures Replay.AfterConfirm(lib, s, v, content).round.Ready?
  {
    Replay.AfterConfirmIs(lib, s, v, content);
  }

  /** So, on an agreeing store, such a round adds to every value exactly the transactions of its
      address that the round newly flags. */
  lemma NotifyGains(lib: Library, node: Node, s: State, extras: seq<Hash>, c: Hash -> bool,
        content: Hash -> Transaction, k: Key, i: nat)
    requires Valid(lib, s.store) && Agrees(s.store) && s.round.Idle? && Distinct(HashesOf(s.hs))
    requires Distinct(extras) && extras != [] && Replay.Mirrored(s.hs, s.txs, content)
    requires forall h :: h in extras ==> lib.txHash(content(h)) == h
    requires forall q :: node.trytes(q) == Some(Replay.Replies(content, q)) && node.states(q) == Replay.Answers(c, q)
    requires node.info && k in s.store.db && i < |s.store.db[k].bals|
    ensures var trace, b := RoundTrace(node, s, extras, Credit(true)), s.store.db[k].bals[i];
            && ValidRun(lib, s, trace)
            && var t := After(lib, s, trace);
               && (forall h :: TxState(h, true) in t.hs <==>
                     TxState(h, true) in s.hs || (c(h) && (h in HashesOf(s.hs) || h in extras)))
               && k in t.store.db && i < |t.store.db[k].bals|
               && exists raised :: NewlyFlagged(s.hs, t.hs, raised)
                    && t.store.db[k].bals[i].value == b.value + SumBy(raised, Replay.HashAt(content, b.address))
  {
    var v := Replay.Sight(extras, c);
    NotifyIsFullRound(lib, node, s, extras, c, content);
    Replay.RoundGains(lib, s, v, content);
    var t := Replay.FullRound(lib, s, v, content);
    FlaggedAfter(s.hs, extras, c);
    var raised := Flipped(Listing(s.hs, extras), t.hs);
    NewFlags(s.hs, extras, c);
    hide Replay.FullRound, RoundTrace, Flipped, Listing, Replay.Marked, Replay.Mirrored, Valid, Agrees, NewlyFlagged;
    assert Replay.Gained(s.store.db[k], t.store.db[k], raised, content);
  }

  lemma MarkedIn(listed: seq<TxState>, c: Hash -> bool, h: Hash)
    ensures TxState(h, true) in Replay.Marked(listed, c) <==>
            TxState(h, true) in listed || (c(h) && h in HashesOf(listed))
  {
    var m := Replay.Marked(listed, c);
    if i: nat :| i < |m| && m[i] == TxState(h, true) {
      assert HashesOf(listed)[i] == h;
      assert listed[i].confirmed ==> listed[i] == TxState(h, true);
    }
    if i: nat :| i < |listed| && listed[i] == TxState(h, true) {
      assert m[i] == TxState(h, true);
    }
    if c(h) && h in HashesOf(listed) {
      var i :| 0 <= i < |listed| && HashesOf(listed)[i] == h;
      assert m[i] == TxState(h, true);
    }
  }

  /** The flags after a finishing round: those before it, and what the node confirms of the list and
      of what was found. */
  lemma FlaggedAfter(hs: seq<TxState>, extras: seq<Hash>, c: Hash -> bool)
    ensures forall h :: TxState(h, true) in Replay.Marked(Listing(hs, extras), c) <==>
                        TxState(h, true) in hs || (c(h) && (h in HashesOf(hs) || h in extras))
  {
    NewsExact(hs, extras);
    ListedHashes(hs, News(hs, extras));
    forall h
      ensures TxState(h, true) in Replay.Marked(Listing(hs, extras), c) <==>
              TxState(h, true) in hs || (c(h) && (h in HashesOf(hs) || h in extras))
    {
      MarkedIn(Listing(hs, extras), c, h);
    }
  }

  lemma NewFlags(hs: seq<TxState>, extras: seq<Hash>, c: Hash -> bool)
    requires Distinct(HashesOf(hs)) && Distinct(extras)
    ensures var listed := Listing(hs, extras);
            && |listed| == |Replay.Marked(listed, c)|
            && NewlyFlagged(hs, Replay.Marked(listed, c), Flipped(listed, Replay.Marked(listed, c)))
  {
    var listed := Listing(hs, extras);
    var after := Replay.Marked(listed, c);
    NewsExact(hs, extras);
    ListedHashes(hs, News(hs, extras));
    DistinctConcat(HashesOf(hs), News(hs, extras));
    FlippedExact(listed, after);
    hide News, Flipped, HashesOf;
    forall h
      ensures h in Flipped(listed, after) <==> TxState(h, true) in after && TxState(h, true) !in hs
    {
      FlagRaised(hs, listed, after, h);
    }
  }

  /** The hashes flagged after and not before, each once. */
  ghost predicate NewlyFlagged(before: seq<TxState>, after: seq<TxState>, raised: seq<Hash>) {
    Distinct(raised) && forall h :: h in raised <==> TxState(h, true) in after && TxState(h, true) !in before
  }

  lemma SameEmpty(xs: seq<Hash>, ys: seq<Hash>)
    requires forall h :: h in xs <==> h in ys
    ensures xs == [] <==> ys == []
  {
    assert xs != [] ==> xs[0] in ys;
    assert ys != [] ==> ys[0] in xs;
  }

  /** Storing the flags and then notifying credits nothing. */
  lemma QuietAfterAbsorbing(lib: Library, node: Node, s: State, e1: seq<Hash>, e2: seq<Hash>, s1: State,
        s2: State, c: Hash -> bool, content: Hash -> Transaction)
    requires s.round.Idle? && Distinct(e1) && Distinct(e2) && forall h :: h in e1 <==> h in e2
    requires forall h :: h in e1 ==> h in HashesOf(s.hs)
    requires forall q :: node.trytes(q) == Some(Replay.Replies(content, q)) && node.states(q) == Replay.Answers(c, q)
    requires node.info
    requires ValidRun(lib, s, RoundTrace(node, s, e1, Stop)) && s1 == After(lib, s, RoundTrace(node, s, e1, Stop))
    requires ValidRun(lib, s1, RoundTrace(node, s1, e2, Credit(true)))
    requires s2 == After(lib, s1, RoundTrace(node, s1, e2, Credit(true)))
    ensures s2.store == s.store
  {
    if e1 == [] {
      SameEmpty(e1, e2);
      RunNone(lib, s);
    } else {
      SameEmpty(e1, e2);
      StartIsConfirm(lib, node, s, e1, c, content);
      RunMore(lib, s, RoundStart(node, s, e1), Stop);
      assert s1 == Replay.Absorbed(lib, s, Replay.Sight(e1, c), content);
      StartIsConfirm(lib, node, s1, e2, c, content);
      RunMore(lib, s1, RoundStart(node, s1, e2), Credit(true));
      Replay.AbsorbedRoundCreditsNothing(lib, s, Replay.Sight(e1, c), Replay.Sight(e2, c), content);
    }
  }

  method ZeroValues(bals0: seq<Balance>) returns (bals: seq<Balance>)
    ensures bals == Replay.ZeroedBalances(bals0)
  {
    bals := bals0;
    for j := 0 to |bals0|
      invariant |bals| == |bals0|
      invariant forall k :: 0 <= k < |bals| ==> bals[k] == if k < j then bals0[k].(value := 0) else bals0[k]
    {
      bals := bals[j := bals[j].(value := 0)];
    }
  }

  lemma ZeroedAt(m: map<Key, Acct>, k: Key)
    requires k in m
    ensures k in Replay.AllZeroed(m)
    ensures Replay.AllZeroed(m)[k] == Acct(m[k].name, m[k].seed, Replay.ZeroedBalances(m[k].bals))
  {
  }

  /** The same accounts and entries with every value 0; change fields stay. */
  ghost predicate ZeroedValues(m: map<Key, Acct>, n: map<Key, Acct>) {
    && m.Keys == n.Keys
    && forall k :: k in m ==>
         && n[k].name == m[k].name && n[k].seed == m[k].seed && |n[k].bals| == |m[k].bals|
         && forall i :: 0 <= i < |m[k].bals| ==>
              n[k].bals[i].address == m[k].bals[i].address && n[k].bals[i].value == 0
              && n[k].bals[i].change == m[k].bals[i].change
  }

  lemma ZeroedOnly(m: map<Key, Acct>)
    ensures ZeroedValues(m, Replay.AllZeroed(m))
  {
  }

  lemma ZeroedAccounts(m: map<Key, Acct>)
    ensures SameAccounts(m, Replay.AllZeroed(m))
  {
  }

  /** The transactions found are those of the wallet's good addresses that are not ignored. */
  ghost predicate Shown(m: map<Key, Acct>, ignored: seq<Address>, good: Address -> bool,
        of: Address -> set<Hash>, extras: seq<Hash>)
  {
    forall h :: h in extras <==> exists a :: Owner(m, a).Some? && a !in ignored && good(a) && h in of(a)
  }

  lemma NoAccountsShown(m: map<Key, Acct>, ignored: seq<Address>, good: Address -> bool, of: Address -> set<Hash>)
    requires m.Keys == {}
    ensures Shown(m, ignored, good, of, []) && forall a :: Owner(m, a).None?
  {
  }

  lemma NoRecords(c: Cipher, m: map<Key, Record>)
    requires Readable(m)
    ensures |m| == 0 <==> ReadAll(c, m).Keys == {}
  {
    assert ReadAll(c, m).Keys == m.Keys;
  }

  ghost predicate Owned(m: map<Key, Acct>, a: Address) {
    exists k :: k in m && Has(m[k], a)
  }

  lemma OwnedIff(m: map<Key, Acct>)
    ensures forall a :: Owned(m, a) <==> Owner(m, a).Some?
  {
  }

  /** What the address queries of a round do: an address of the wallet that is not ignored is heard
      of, or is rejected by itself and ignored from now on; and nothing else is. */
  ghost predicate Asked(m: map<Key, Acct>, find: Discovery.Query, ignored: seq<Address>, extras: seq<Hash>,
        after: seq<Address>)
  {
    && (forall a :: Owned(m, a) && a !in ignored ==> Discovery.Heard(find, a, extras) || a in after)
    && (forall a :: a in ignored ==> a in after)
    && (forall a :: a in after ==> a in ignored || (Owned(m, a) && find([a]).None?))
  }

  lemma AskedAll(m: map<Key, Acct>, find: Discovery.Query, of: Address -> set<Hash>, ignored: seq<Address>,
        adrs: seq<Address>, extras: seq<Hash>, bad: seq<Address>)
    requires forall a :: a in adrs <==> Owner(m, a).Some? && a !in ignored
    requires Discovery.Covers(adrs, Discovery.Found(extras, bad), find)
    requires Discovery.Tidy(adrs, Discovery.Found(extras, bad), find, of)
    ensures Asked(m, find, ignored, extras, ignored + bad)
  {
    OwnedIff(m);
  }

  /** One round: the accounts and the node it works on, the counter and the ignore list before and
      after, and the transactions it finds. */
  datatype Notice = Notice(m: map<Key, Acct>, find: Discovery.Query, counter: int, ignored: seq<Address>,
    extras: seq<Hash>, counterAfter: int, ignoredAfter: seq<Address>)

  /** An empty wallet asks nothing.  Otherwise the round counts, and on every fifth count the list is
      emptied before the addresses are asked for. */
  ghost predicate Notified(n: Notice) {
    if n.m.Keys == {} then n.extras == [] && n.counterAfter == n.counter && n.ignoredAfter == n.ignored
    else
      && n.counterAfter == n.counter + 1
      && Asked(n.m, n.find, if n.counterAfter % 5 == 0 then [] else n.ignored, n.extras, n.ignoredAfter)
  }

  /** Rounds of a wallet with accounts, one after the other.  The accounts and the node may change
      in between; only rounds touch the counter and the list. */
  ghost predicate Consecutive(ns: seq<Notice>) {
    && (forall i :: 0 <= i < |ns| ==> Notified(ns[i]) && ns[i].m.Keys != {})
    && forall i :: 0 < i < |ns| ==>
         ns[i].counter == ns[i - 1].counterAfter && ns[i].ignored == ns[i - 1].ignoredAfter
  }

  lemma NoRounds()
    ensures Consecutive([])
  {
  }

  lemma OneMoreRound(ns: seq<Notice>, n: Notice)
    requires Consecutive(ns) && Notified(n) && n.m.Keys != {}
    requires ns != [] ==> n.counter == ns[|ns| - 1].counterAfter && n.ignored == ns[|ns| - 1].ignoredAfter
    ensures Consecutive(ns + [n])
  {
    hide Notified;
  }

  /** The round passes over no address of the wallet: each is heard of, or rejected by itself. */
  ghost predicate AsksAll(n: Notice) {
    forall a :: Owned(n.m, a) ==> Discovery.Heard(n.find, a, n.extras) || n.find([a]).None?
  }

  lemma {:induction false} CountedUp(ns: seq<Notice>, i: nat)
    requires Consecutive(ns) && i < |ns|
    ensures ns[i].counterAfter == ns[0].counterAfter + i
  {
    if i == 0 {
    } else {
      CountedUp(ns, i - 1);
    }
  }

  /** An address that was ignored is not lost: of any five consecutive rounds one asks for every
      address of the wallet. */
  lemma FiveRoundsAskAll(ns: seq<Notice>, from: nat) returns (i: nat)
    requires from + 5 <= |ns| && Consecutive(ns)
    ensures from <= i < from + 5 && AsksAll(ns[i])
  {
    hide Asked;
    CountedUp(ns, from);
    var c := ns[from].counterAfter;
    i := if c % 5 == 0 then from else from + 5 - c % 5;
    CountedUp(ns, i);
    assert ns[i].counterAfter % 5 == 0;
    AskedWithoutList(ns[i]);
  }

  lemma AskedWithoutList(n: Notice)
    requires Notified(n) && n.m.Keys != {} && n.counterAfter % 5 == 0
    ensures AsksAll(n)
  {
  }

  /** So a transaction of an address that the wallet owns and the node accepts throughout is found
      by one of them. */
  lemma FiveRoundsFind(ns: seq<Notice>, from: nat, goods: seq<Address -> bool>, ofs: seq<Address -> set<Hash>>,
        a: Address)
    requires |goods| == |ofs| == |ns| && from + 5 <= |ns| && Consecutive(ns)
    requires forall i :: from <= i < from + 5 ==> Discovery.Faithful(ns[i].find, goods[i], ofs[i])
    requires forall i :: from <= i < from + 5 ==> Owned(ns[i].m, a) && goods[i](a)
    ensures exists i :: from <= i < from + 5 && forall h :: h in ofs[i](a) ==> h in ns[i].extras
  {
    var i := FiveRoundsAskAll(ns, from);
    var n := ns[i];
    assert Discovery.Faithful(n.find, goods[i], ofs[i]);
    assert n.find([a]).Some?;
    var q :| a in q && n.find(q).Some? && forall h :: h in n.find(q).value ==> h in n.extras;
    assert forall h :: h in ofs[i](a) ==> h in n.extras;
  }

  /** Exactly the bad addresses of the wallet have joined the ignore list. */
  ghost predicate Ignoring(m: map<Key, Acct>, before: seq<Address>, good: Address -> bool, after: seq<Address>) {
    forall a :: a in after <==> (a in before || (Owner(m, a).Some? && !good(a)))
  }

  /** The ignore list a round starts with: it is emptied on every fifth round. */
  function IgnoredIn(counter: int, ignored: seq<Address>): seq<Address> {
    if (counter + 1) % 5 == 0 then [] else ignored
  }

  /** The transactions a round commits before it credits. */
  function RoundStart(node: Node, s: State, input: seq<Hash>): seq<Event> {
    var reply := node.trytes(News(s.hs, input));
    if reply.None? then []
    else if !node.info then [Discover(input, reply.value), Stop]
    else [Discover(input, reply.value), Confirm(node.states(Unconfirmed(Listing(s.hs, input))))]
  }

  /** A whole round: nothing when no transaction was found; otherwise `last` ends it once both
      lists are stored. */
  function RoundTrace(node: Node, s: State, input: seq<Hash>, last: Event): seq<Event> {
    if input == [] then []
    else if node.trytes(News(s.hs, input)).Some? && node.info then RoundStart(node, s, input) + [last]
    else RoundStart(node, s, input)
  }

  /** Both lists are stored, and the credit transaction has nothing to do or all it needs. */
  ghost predicate Finishes(lib: Library, node: Node, hs: seq<TxState>, txs: TxBucket, input: seq<Hash>) {
    var o := Hashes.Compare(lib, node, hs, txs, input);
    && o.ok
    && ((o.news == [] && o.confirmed == []) || (Load(o.txs, o.confirmed).Some? && node.creditTrytes(o.news).Some?))
  }

  lemma CompareNews(lib: Library, node: Node, hs: seq<TxState>, txs: TxBucket, input: seq<Hash>)
    ensures var o := Hashes.Compare(lib, node, hs, txs, input);
            && (o.ok <==> node.trytes(News(hs, input)).Some? && node.info)
            && (o.ok ==> o.news == News(hs, input))
  {
  }

  lemma CompareTrace(lib: Library, node: Node, s: State, input: seq<Hash>)
    requires s.round.Idle? && Distinct(input)
    ensures var o, trace := Hashes.Compare(lib, node, s.hs, s.txs, input), RoundStart(node, s, input);
            && ValidRun(lib, s, trace)
            && After(lib, s, trace) == State(s.store, o.hashes, o.txs, if o.ok then Ready(o.confirmed) else Idle)
  {
    var reply := node.trytes(News(s.hs, input));
    if reply.Some? {
      var d := Discover(input, reply.value);
      RunMore(lib, s, [], d);
      assert [] + [d] == [d];
      var next := if node.info then Confirm(node.states(Unconfirmed(Listing(s.hs, input)))) else Stop;
      RunMore(lib, s, [d], next);
      assert [d] + [next] == [d, next];
    }
  }

  /** The addresses of one account that are not ignored. */
  function Wanted(bs: seq<Balance>, ignored: seq<Address>): seq<Address> {
    if bs == [] then []
    else
      var a := bs[|bs| - 1].address;
      Wanted(bs[..|bs| - 1], ignored) + if a in ignored then [] else [a]
  }

  function WantedAll(acc: seq<Listed>, ignored: seq<Address>): seq<Address> {
    if acc == [] then [] else WantedAll(acc[..|acc| - 1], ignored) + Wanted(acc[|acc| - 1].bals, ignored)
  }

  lemma {:induction false} WantedExact(lib: Library, seed: Seed, bs: seq<Balance>, ignored: seq<Address>)
    requires Injective(lib) && Aligned(lib, seed, bs)
    ensures Distinct(Wanted(bs, ignored))
    ensures forall a :: a in Wanted(bs, ignored) <==> IndexOf(bs, a) >= 0 && a !in ignored
  {
    if bs == [] {
    } else {
      var init, a := bs[..|bs| - 1], bs[|bs| - 1].address;
      WantedExact(lib, seed, init, ignored);
      DistinctConcat(Wanted(init, ignored), [a]);
      assert Wanted(init, ignored) + [] == Wanted(init, ignored);
      forall i | 0 <= i < |init|
        ensures init[i].address != a
      {
        assert lib.newAddress(seed, i) == Some(init[i].address);
      }
    }
  }

  lemma {:induction false} WantedAllExact(lib: Library, m: map<Key, Acct>, acc: seq<Listed>, keys: seq<Key>,
        ignored: seq<Address>)
    requires Injective(lib) && ValidDb(lib, m) && Distinct(keys) && |keys| == |acc|
    requires forall i :: 0 <= i < |keys| ==> keys[i] in m && m[keys[i]].bals == acc[i].bals
    ensures Distinct(WantedAll(acc, ignored))
    ensures forall a :: a in WantedAll(acc, ignored) <==>
              a !in ignored && Owner(m, a).Some? && Owner(m, a).value in keys
  {
    if acc == [] {
    } else {
      hide Distinct, Owner, Injective, Wanted;
      var n := |acc| - 1;
      var k := keys[n];
      assert keys == keys[..n] + [k];
      DistinctConcat(keys[..n], [k]);
      WantedAllExact(lib, m, acc[..n], keys[..n], ignored);
      WantedExact(lib, m[k].seed, m[k].bals, ignored);
      WantedOneMore(lib, m, keys[..n], k, WantedAll(acc[..n], ignored), Wanted(acc[n].bals, ignored), ignored);
    }
  }

  lemma WantedOneMore(lib: Library, m: map<Key, Acct>, keys: seq<Key>, k: Key, ws: seq<Address>, mine: seq<Address>,
        ignored: seq<Address>)
    requires Injective(lib) && ValidDb(lib, m) && k in m && k !in keys && Distinct(ws) && Distinct(mine)
    requires forall a :: a in ws <==> a !in ignored && Owner(m, a).Some? && Owner(m, a).value in keys
    requires forall a :: a in mine <==> Has(m[k], a) && a !in ignored
    ensures Distinct(ws + mine)
    ensures forall a :: a in ws + mine <==> a !in ignored && Owner(m, a).Some? && Owner(m, a).value in keys + [k]
  {
    hide Distinct, Injective, ValidDb;
    forall a | Has(m[k], a)
      ensures Owner(m, a) == Some(k)
    {
      OwnerUnique(lib, m, k, a);
    }
    DistinctConcat(ws, mine);
  }

  lemma FindScanned(s: Store, adr: Address)
    requires s.cache.Some? ==> IndexOf(s.cache.value.bals, adr) < 0
    ensures var k := Owner(s.db, adr); Find(s, adr) == if k.None? then None else Some(s.db[k.value])
    ensures forall a :: Has(a, adr) <==> IndexOf(a.bals, adr) >= 0
  {
  }

  lemma CreditNothing(s: Store)
    ensures CreditAll(s, []) == s
  {
  }

  /** Writing back a rolled-back bucket under the cache of the loop is still well formed. */
  lemma RollbackValid(lib: Library, s: Store, trs: seq<Transaction>)
    requires Valid(lib, s)
    ensures Valid(lib, Store(s.db, CreditAll(s, trs).cache))
  {
    CreditAllValid(lib, s, trs);
    CreditAllAccounts(lib, s, trs);
  }

  lemma KeyOfName(lib: Library, s: Store, k: Key)
    requires Sound(lib, s) && k in s.db
    ensures ToKey(s.db[k].name) == k
  {
  }

  /** A record read by name or from the list is aligned. */
  lemma SourceAligned(lib: Library, s: Store, a: Acct)
    requires Sound(lib, s)
    requires s.cache == Some(a) || (ToKey(a.name) in s.db && s.db[ToKey(a.name)] == a)
    ensures Aligned(lib, a.seed, a.bals)
  {
    if s.cache == Some(a) {
      AlignedSame(lib, a.seed, s.db[ToKey(a.name)].bals, a.bals);
    }
  }

  lemma SpentSound(lib: Library, s: Store, a: Acct, total: int)
    requires Sound(lib, s) && Spent(lib, a, total).Some?
    requires s.cache == Some(a) || (ToKey(a.name) in s.db && s.db[ToKey(a.name)] == a)
    ensures var t := Put(s, Spent(lib, a, total).value);
            Sound(lib, t) && (SeedsDiffer(lib, t.db) <==> SeedsDiffer(lib, s.db))
  {
    SourceAligned(lib, s, a);
    SpentAligned(lib, a, total);
    PutSound(lib, s, Spent(lib, a, total).value);
    SameSeedsDiffer(lib, s.db, Put(s, Spent(lib, a, total).value).db);
  }

  lemma SpentName(lib: Library, a: Acct, total: int)
    requires Spent(lib, a, total).Some?
    ensures Spent(lib, a, total).value.name == a.name
  {
  }

  lemma SameSeedsDiffer(lib: Library, x: map<Key, Acct>, y: map<Key, Acct>)
    requires x.Keys == y.Keys && forall k :: k in x ==> x[k].seed == y[k].seed
    ensures SeedsDiffer(lib, x) <==> SeedsDiffer(lib, y)
  {
  }

  /** A credit zeroes the change it brings back. */
  method CreditEntry(acc: Account, ghost adr: Address, index: nat, v: int)
    requires IndexOf(acc.balances, adr) == index
    modifies acc`balances
    ensures acc.View() == Credited(old(acc.View()), adr, v)
  {
    acc.balances := acc.balances[index := acc.balances[index].(value := acc.balances[index].value + v)];
    acc.balances := acc.balances[index := acc.balances[index].(change := 0)];
  }
}
