/** aidos/accountDB.go: the accounts bucket behind its one-entry cache, as values, and what
    the operations do to the pair.  The class Wallet does the same in place. */
module Stores {
  import opened Gadk
  import opened Sums
  import opened Accounts

  datatype Store = Store(db: map<Key, Acct>, cache: Option<Acct>)

  /** Keys match names, and entries are aligned. */
  ghost predicate WellKept(lib: Library, db: map<Key, Acct>) {
    forall k :: k in db ==> ToKey(db[k].name) == k && Aligned(lib, db[k].seed, db[k].bals)
  }

  /** No two accounts share a seed that yields addresses. */
  ghost predicate SeedsDiffer(lib: Library, db: map<Key, Acct>) {
    forall k, l :: k in db && l in db && db[k].seed == db[l].seed && lib.newAddress(db[k].seed, 0).Some? ==> k == l
  }

  ghost predicate ValidDb(lib: Library, db: map<Key, Acct>) {
    WellKept(lib, db) && SeedsDiffer(lib, db)
  }

  /** No account of the bucket has the seed, unless it yields no address at all. */
  ghost predicate UnusedSeed(lib: Library, db: map<Key, Acct>, seed: Seed) {
    lib.newAddress(seed, 0).Some? ==> forall k :: k in db ==> db[k].seed != seed
  }

  /** The cached record is about a stored account, whatever values it holds. */
  ghost predicate ValidCache(db: map<Key, Acct>, c: Acct) {
    var k := ToKey(c.name);
    k in db && db[k].name == c.name && db[k].seed == c.seed && SameAddresses(db[k].bals, c.bals)
  }

  ghost predicate Valid(lib: Library, s: Store) {
    Injective(lib) && ValidDb(lib, s.db) && (s.cache.Some? ==> ValidCache(s.db, s.cache.value))
  }

  /** Valid, but for accounts that may share a seed. */
  ghost predicate Sound(lib: Library, s: Store) {
    Injective(lib) && WellKept(lib, s.db) && (s.cache.Some? ==> ValidCache(s.db, s.cache.value))
  }

  /** The cache holds what the bucket holds. */
  ghost predicate Agrees(s: Store) {
    s.cache.Some? ==> ToKey(s.cache.value.name) in s.db && s.db[ToKey(s.cache.value.name)] == s.cache.value
  }

  /** What an uncached scan finds. */
  ghost function Owner(db: map<Key, Acct>, adr: Address): (r: Option<Key>)
    ensures r.Some? ==> r.value in db && Has(db[r.value], adr)
    ensures r.None? ==> forall k :: k in db ==> !Has(db[k], adr)
  {
    if exists k :: k in db && Has(db[k], adr) then
      var k :| k in db && Has(db[k], adr);
      Some(k)
    else None
  }

  ghost function Scan(db: map<Key, Acct>, adr: Address): Option<Acct> {
    var k := Owner(db, adr);
    if k.Some? then Some(db[k.value]) else None
  }

  /** findAddress. */
  ghost function Find(s: Store, adr: Address): Option<Acct> {
    if s.cache.Some? && Has(s.cache.value, adr) then s.cache else Scan(s.db, adr)
  }

  /** findAddress remembers what it found. */
  ghost function Touch(s: Store, adr: Address): Store {
    if Find(s, adr).None? then s else s.(cache := Find(s, adr))
  }

  /** getAccount. */
  ghost function Get(s: Store, name: string): Option<Acct> {
    if s.cache.Some? && s.cache.value.name == name then s.cache
    else if ToKey(name) in s.db then Some(s.db[ToKey(name)])
    else None
  }

  /** putAccount. */
  ghost function Put(s: Store, a: Acct): Store {
    Store(s.db[ToKey(a.name) := a],
          if s.cache.Some? && s.cache.value.name == a.name then Some(a) else s.cache)
  }

  function Credited(a: Acct, adr: Address, v: int): Acct
    requires IndexOf(a.bals, adr) >= 0
  {
    var i := IndexOf(a.bals, adr);
    a.(bals := a.bals[i := a.bals[i].(value := a.bals[i].value + v, change := 0)])
  }

  /** One turn of the credit loop. */
  ghost function CreditOne(s: Store, t: Transaction): Store {
    var found := Find(s, t.address);
    if t.value == 0 || found.None? then s
    else Put(Touch(s, t.address), Credited(found.value, t.address, t.value))
  }

  ghost function CreditAll(s: Store, trs: seq<Transaction>): Store {
    if trs == [] then s else CreditOne(CreditAll(s, trs[..|trs| - 1]), trs[|trs| - 1])
  }

  /** Value that the transactions bring to an address. */
  function To(adr: Address): Transaction -> int {
    (t: Transaction) => if t.address == adr then t.value else 0
  }

  ghost predicate Touched(trs: seq<Transaction>, adr: Address) {
    exists t :: t in trs && t.address == adr && t.value != 0
  }

  /** An entry with every credit of its address added, and its change gone if there is one. */
  ghost function CreditedEntry(b: Balance, trs: seq<Transaction>): Balance {
    Balance(b.address, b.value + SumBy(trs, To(b.address)), if Touched(trs, b.address) then 0 else b.change)
  }

  /** The record with every credit written straight into its entries. */
  ghost function CreditedDirectly(a: Acct, trs: seq<Transaction>): Acct {
    a.(bals := seq(|a.bals|, i requires 0 <= i < |a.bals| => CreditedEntry(a.bals[i], trs)))
  }

  ghost function AllCreditedDirectly(db: map<Key, Acct>, trs: seq<Transaction>): map<Key, Acct> {
    map k | k in db :: CreditedDirectly(db[k], trs)
  }

  /** Addresses of different accounts differ, so an address has one owner. */
  lemma OwnerUnique(lib: Library, db: map<Key, Acct>, k: Key, adr: Address)
    requires Injective(lib) && ValidDb(lib, db) && k in db && Has(db[k], adr)
    ensures Owner(db, adr) == Some(k)
  {
    var l := Owner(db, adr).value;
    var i, j := IndexOf(db[k].bals, adr), IndexOf(db[l].bals, adr);
    assert lib.newAddress(db[k].seed, 0) == Some(db[k].bals[0].address);
    assert lib.newAddress(db[k].seed, i) == Some(adr) == lib.newAddress(db[l].seed, j);
  }

  /** An agreeing cache is invisible: findAddress and getAccount answer as the bucket does. */
  lemma CacheInvisible(lib: Library, s: Store, adr: Address, name: string)
    requires Valid(lib, s) && Agrees(s)
    ensures Find(s, adr) == Scan(s.db, adr)
    ensures Get(s, name) == if ToKey(name) in s.db then Some(s.db[ToKey(name)]) else None
    ensures Valid(lib, Touch(s, adr)) && Agrees(Touch(s, adr))
  {
    if s.cache.Some? && Has(s.cache.value, adr) {
      OwnerUnique(lib, s.db, ToKey(s.cache.value.name), adr);
    }
  }

  lemma TouchValid(lib: Library, s: Store, adr: Address)
    requires Valid(lib, s)
    ensures Valid(lib, Touch(s, adr)) && Touch(s, adr).db == s.db
    ensures Find(s, adr).Some? ==> Touch(s, adr).cache == Find(s, adr) && Has(Find(s, adr).value, adr)
                                   && ValidCache(s.db, Find(s, adr).value)
  {
  }

  lemma PutSound(lib: Library, s: Store, a: Acct)
    requires Sound(lib, s) && Aligned(lib, a.seed, a.bals)
    requires var k := ToKey(a.name); k in s.db ==> s.db[k].name == a.name && s.db[k].seed == a.seed
    ensures Sound(lib, Put(s, a))
  {
    assert s.cache.Some? && ToKey(s.cache.value.name) == ToKey(a.name) ==> s.cache.value.name == a.name;
  }

  /** Writing a record of an existing account, or of a new one with a seed of its own. */
  ghost predicate Writable(lib: Library, s: Store, a: Acct) {
    var k := ToKey(a.name);
    && Aligned(lib, a.seed, a.bals)
    && if k in s.db then s.db[k].name == a.name && s.db[k].seed == a.seed
       else UnusedSeed(lib, s.db, a.seed)
  }

  lemma PutValid(lib: Library, s: Store, a: Acct)
    requires Valid(lib, s) && Writable(lib, s, a)
    ensures Valid(lib, Put(s, a))
    ensures Agrees(s) ==> Agrees(Put(s, a))
  {
    assert s.cache.Some? && ToKey(s.cache.value.name) == ToKey(a.name) ==> s.cache.value.name == a.name;
  }

  lemma AlignedSame(lib: Library, seed: Seed, xs: seq<Balance>, ys: seq<Balance>)
    requires SameAddresses(xs, ys) && Aligned(lib, seed, xs)
    ensures Aligned(lib, seed, ys)
  {
  }

  lemma CreditedSame(a: Acct, adr: Address, v: int)
    requires Has(a, adr)
    ensures SameAddresses(a.bals, Credited(a, adr, v).bals)
  {
  }

  lemma CreditOneValid(lib: Library, s: Store, t: Transaction)
    requires Valid(lib, s)
    ensures Valid(lib, CreditOne(s, t))
    ensures Agrees(s) ==> Agrees(CreditOne(s, t))
  {
    TouchValid(lib, s, t.address);
    var found := Find(s, t.address);
    if t.value != 0 && found.Some? {
      var a := Credited(found.value, t.address, t.value);
      CreditedSame(found.value, t.address, t.value);
      AlignedSame(lib, a.seed, s.db[ToKey(a.name)].bals, a.bals);
      PutValid(lib, Touch(s, t.address), a);
      if Agrees(s) {
        CacheInvisible(lib, s, t.address, "");
      }
    }
  }

  lemma {:induction false} CreditAllValid(lib: Library, s: Store, trs: seq<Transaction>)
    requires Valid(lib, s)
    ensures Valid(lib, CreditAll(s, trs))
    ensures Agrees(s) ==> Agrees(CreditAll(s, trs))
  {
    if trs == [] {
    } else {
      CreditAllValid(lib, s, trs[..|trs| - 1]);
      CreditOneValid(lib, CreditAll(s, trs[..|trs| - 1]), trs[|trs| - 1]);
    }
  }

  lemma CreditedEntryStep(b: Balance, trs: seq<Transaction>, t: Transaction)
    ensures CreditedEntry(b, trs + [t]) ==
            if t.address == b.address && t.value != 0
            then CreditedEntry(b, trs).(value := CreditedEntry(b, trs).value + t.value, change := 0)
            else CreditedEntry(b, trs)
  {
    SumAppend(trs, t, To(b.address));
  }

  lemma DirectAddresses(a: Acct, trs: seq<Transaction>)
    ensures SameAddresses(a.bals, CreditedDirectly(a, trs).bals)
  {
  }

  /** One more credit in an aligned record changes the entry of its address and no other. */
  lemma CreditedDirectlyStep(lib: Library, a: Acct, trs: seq<Transaction>, t: Transaction)
    requires Injective(lib) && Aligned(lib, a.seed, a.bals)
    ensures Has(CreditedDirectly(a, trs), t.address) <==> Has(a, t.address)
    ensures CreditedDirectly(a, trs + [t]) ==
            if Has(CreditedDirectly(a, trs), t.address) && t.value != 0
            then Credited(CreditedDirectly(a, trs), t.address, t.value)
            else CreditedDirectly(a, trs)
  {
    hide CreditedEntry, IndexOf, Injective, Aligned;
    var d, e := CreditedDirectly(a, trs), CreditedDirectly(a, trs + [t]);
    DirectAddresses(a, trs);
    IndexOfSame(a.bals, d.bals, t.address);
    forall i | 0 <= i < |a.bals|
      ensures e.bals[i] == if i == IndexOf(a.bals, t.address) && t.value != 0
                           then d.bals[i].(value := d.bals[i].value + t.value, change := 0) else d.bals[i]
    {
      CreditedEntryStep(a.bals[i], trs, t);
      AlignedIndex(lib, a.seed, a.bals, i);
    }
    if Has(a, t.address) && t.value != 0 {
      assert e.bals == Credited(d, t.address, t.value).bals;
    } else {
      assert e.bals == d.bals;
    }
  }

  /** Crediting one stored record directly. */
  ghost function CreditedIn(db: map<Key, Acct>, t: Transaction): map<Key, Acct> {
    var k := Owner(db, t.address);
    if t.value == 0 || k.None? then db
    else db[k.value := Credited(db[k.value], t.address, t.value)]
  }

  lemma CreditOneDirect(lib: Library, s: Store, t: Transaction)
    requires Valid(lib, s) && Agrees(s)
    ensures CreditOne(s, t).db == CreditedIn(s.db, t)
  {
    CacheInvisible(lib, s, t.address, "");
  }

  lemma CreditedInAt(lib: Library, db: map<Key, Acct>, trs: seq<Transaction>, t: Transaction, k: Key)
    requires Injective(lib) && ValidDb(lib, db) && k in db
    requires Owner(AllCreditedDirectly(db, trs), t.address) == Owner(db, t.address)
    ensures k in CreditedIn(AllCreditedDirectly(db, trs), t)
    ensures CreditedDirectly(db[k], trs + [t]) == CreditedIn(AllCreditedDirectly(db, trs), t)[k]
  {
    CreditedDirectlyStep(lib, db[k], trs, t);
    hide Has, Credited, CreditedDirectly;
    if Has(db[k], t.address) {
      OwnerUnique(lib, db, k, t.address);
    }
  }

  lemma CreditedInKeys(db: map<Key, Acct>, t: Transaction)
    ensures CreditedIn(db, t).Keys == db.Keys
  {
  }

  lemma DirectKeys(db: map<Key, Acct>, trs: seq<Transaction>)
    ensures AllCreditedDirectly(db, trs).Keys == db.Keys
  {
  }

  lemma DirectIs(db: map<Key, Acct>, trs: seq<Transaction>, c: map<Key, Acct>)
    requires c.Keys == db.Keys && forall k :: k in db ==> c[k] == CreditedDirectly(db[k], trs)
    ensures c == AllCreditedDirectly(db, trs)
  {
  }

  lemma AllCreditedStep(lib: Library, db: map<Key, Acct>, trs: seq<Transaction>, t: Transaction)
    requires Injective(lib) && ValidDb(lib, db) && ValidDb(lib, AllCreditedDirectly(db, trs))
    ensures AllCreditedDirectly(db, trs + [t]) == CreditedIn(AllCreditedDirectly(db, trs), t)
  {
    hide *;
    OwnerKept(lib, db, trs, t.address);
    CreditedInKeys(AllCreditedDirectly(db, trs), t);
    forall k | k in db
      ensures k in CreditedIn(AllCreditedDirectly(db, trs), t)
      ensures CreditedDirectly(db[k], trs + [t]) == CreditedIn(AllCreditedDirectly(db, trs), t)[k]
    {
      CreditedInAt(lib, db, trs, t, k);
    }
    DirectKeys(db, trs);
    DirectIs(db, trs + [t], CreditedIn(AllCreditedDirectly(db, trs), t));
  }

  /** The credit loop, cache and all, leaves the bucket as if every stored record had been
      credited directly. */
  lemma {:induction false} CreditAllDirect(lib: Library, s: Store, trs: seq<Transaction>)
    requires Valid(lib, s) && Agrees(s)
    ensures CreditAll(s, trs).db == AllCreditedDirectly(s.db, trs)
  {
    if trs == [] {
      forall k | k in s.db
        ensures CreditedDirectly(s.db[k], trs) == s.db[k]
      {
        assert CreditedDirectly(s.db[k], trs).bals == s.db[k].bals;
      }
    } else {
      var init, t := trs[..|trs| - 1], trs[|trs| - 1];
      assert trs == init + [t];
      CreditAllDirect(lib, s, init);
      CreditAllValid(lib, s, init);
      CreditOneDirect(lib, CreditAll(s, init), t);
      AllCreditedStep(lib, s.db, init, t);
    }
  }

  /** Crediting moves no address from one account to another. */
  lemma OwnerKept(lib: Library, db: map<Key, Acct>, trs: seq<Transaction>, adr: Address)
    requires Injective(lib) && ValidDb(lib, db) && ValidDb(lib, AllCreditedDirectly(db, trs))
    ensures Owner(AllCreditedDirectly(db, trs), adr) == Owner(db, adr)
  {
    var d := AllCreditedDirectly(db, trs);
    forall k | k in db
      ensures Has(d[k], adr) <==> Has(db[k], adr)
    {
      IndexOfSame(db[k].bals, d[k].bals, adr);
    }
    if Owner(db, adr).Some? {
      OwnerUnique(lib, d, Owner(db, adr).value, adr);
    }
  }

  // ---- a credit transaction that is rolled back ----

  /** The account of the last transaction that credits anything. */
  ghost function LastCredited(db: map<Key, Acct>, trs: seq<Transaction>): (r: Option<Key>)
    ensures r.Some? ==> r.value in db
  {
    if trs == [] then None
    else
      var t := trs[|trs| - 1];
      if t.value != 0 && Owner(db, t.address).Some? then Owner(db, t.address)
      else LastCredited(db, trs[..|trs| - 1])
  }

  lemma {:induction false} CacheAfterCredits(lib: Library, s: Store, trs: seq<Transaction>)
    requires Valid(lib, s) && Agrees(s)
    ensures var k := LastCredited(s.db, trs);
            CreditAll(s, trs).cache == if k.None? then s.cache else Some(CreditedDirectly(s.db[k.value], trs))
  {
    if trs == [] {
    } else {
      var init, t := trs[..|trs| - 1], trs[|trs| - 1];
      var s1 := CreditAll(s, init);
      CacheAfterCredits(lib, s, init);
      CreditAllValid(lib, s, init);
      CreditAllValid(lib, s, trs);
      CreditAllDirect(lib, s, init);
      CreditAllDirect(lib, s, trs);
      OwnerKept(lib, s.db, init, t.address);
      CacheInvisible(lib, s1, t.address, "");
      var k := LastCredited(s.db, init);
      if k.Some? && !(t.value != 0 && Owner(s.db, t.address).Some?) {
        assert CreditAll(s, trs) == s1;
      }
    }
  }

  /** The credits leave the record as it is. */
  ghost predicate Unmoved(a: Acct, trs: seq<Transaction>) {
    forall i :: 0 <= i < |a.bals| ==>
      && SumBy(trs, To(a.bals[i].address)) == 0
      && (Touched(trs, a.bals[i].address) ==> a.bals[i].change == 0)
  }

  /** When the credit transaction is rolled back after its loop, the bucket returns to its old
      contents and the cache does not.  The two still agree exactly when the account credited
      last comes out as it went in. */
  lemma RollbackAgreesIff(lib: Library, s: Store, trs: seq<Transaction>)
    requires Valid(lib, s) && Agrees(s)
    ensures var k := LastCredited(s.db, trs);
            Agrees(Store(s.db, CreditAll(s, trs).cache)) <==> (k.Some? ==> Unmoved(s.db[k.value], trs))
  {
    var k := LastCredited(s.db, trs);
    CacheAfterCredits(lib, s, trs);
    if k.Some? {
      UnmovedIff(s.db[k.value], trs);
    }
  }

  lemma UnmovedIff(a: Acct, trs: seq<Transaction>)
    ensures CreditedDirectly(a, trs) == a <==> Unmoved(a, trs)
  {
    var d := CreditedDirectly(a, trs);
    if d == a {
      forall i | 0 <= i < |a.bals|
        ensures SumBy(trs, To(a.bals[i].address)) == 0 && (Touched(trs, a.bals[i].address) ==> a.bals[i].change == 0)
      {
        assert d.bals[i] == a.bals[i];
      }
    }
    if Unmoved(a, trs) {
      assert d.bals == a.bals;
    }
  }

  /** The new address of getnewaddress, without value. */
  ghost function Extended(lib: Library, a: Acct): Option<Acct> {
    var adr := lib.newAddress(a.seed, |a.bals|);
    if adr.None? then None else Some(a.(bals := a.bals + [Balance(adr.value, 0, 0)]))
  }

  /** The stored record of an account, or a new one with a seed of its own. */
  ghost predicate Current(lib: Library, s: Store, a: Acct) {
    if ToKey(a.name) in s.db then s.db[ToKey(a.name)] == a
    else a.bals == [] && UnusedSeed(lib, s.db, a.seed)
  }

  /** The next address of a seed is new to the wallet. */
  lemma NextAddressNew(lib: Library, s: Store, a: Acct)
    requires Valid(lib, s) && Current(lib, s, a) && lib.newAddress(a.seed, |a.bals|).Some?
    ensures Owner(s.db, lib.newAddress(a.seed, |a.bals|).value).None?
  {
    var adr := lib.newAddress(a.seed, |a.bals|).value;
    forall l | l in s.db
      ensures !Has(s.db[l], adr)
    {
      forall i | 0 <= i < |s.db[l].bals|
        ensures s.db[l].bals[i].address != adr
      {
        assert lib.newAddress(s.db[l].seed, i) == Some(s.db[l].bals[i].address);
        assert lib.newAddress(s.db[l].seed, 0) == Some(s.db[l].bals[0].address);
      }
    }
  }

  /** The first entries of a seed, without value. */
  ghost function FirstEntries(lib: Library, seed: Seed, count: nat): (r: Option<seq<Balance>>)
    ensures r.Some? ==> |r.value| == count
    ensures r.Some? ==> forall i :: 0 <= i < count ==>
              lib.newAddress(seed, i).Some? && r.value[i] == Balance(lib.newAddress(seed, i).value, 0, 0)
    ensures r.None? <==> exists i :: 0 <= i < count && lib.newAddress(seed, i).None?
  {
    if count == 0 then Some([])
    else
      var init, adr := FirstEntries(lib, seed, count - 1), lib.newAddress(seed, count - 1);
      if init.None? || adr.None? then None else Some(init.value + [Balance(adr.value, 0, 0)])
  }

  lemma {:induction false} FirstEntriesAligned(lib: Library, seed: Seed, count: nat)
    requires FirstEntries(lib, seed, count).Some?
    ensures Aligned(lib, seed, FirstEntries(lib, seed, count).value)
  {
    if count == 0 {
    } else {
      FirstEntriesAligned(lib, seed, count - 1);
    }
  }

  /** The names that share a key. */
  lemma SameKeyIff(m: string, n: string)
    ensures ToKey(m) == ToKey(n) <==> m == n || {m, n} == {"", "\0"}
  {
    assert "\0" != "" && {m, n} == {n, m};
  }

  /** What putAccount wrote is what getAccount reads; every other name is read as before,
      except for the two that share a key. */
  lemma GetAfterPut(lib: Library, s: Store, a: Acct, name: string)
    requires Valid(lib, s) && Agrees(s)
    ensures Get(Put(s, a), a.name) == Some(a)
    ensures name != a.name && {name, a.name} != {"", "\0"} ==> Get(Put(s, a), name) == Get(s, name)
    ensures {name, a.name} == {"", "\0"} ==>
              Get(Put(s, a), name) == if s.cache.Some? && s.cache.value.name == name then s.cache else Some(a)
  {
    SameKeyIff(a.name, name);
  }
}
