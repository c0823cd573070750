/** The ledger behind the stored values.  A history records what was credited, what Send took
    and what refreshes changed; every store operation keeps the equation between them, with
    the cache fresh or stale. */
module Ledger {
  import opened Gadk
  import opened Sums
  import opened Accounts
  import opened Transfers
  import opened Stores

  /** One credit: the transaction, the address it credits and the amount, which may be negative. */
  datatype Posting = Posting(hash: Hash, address: Address, value: int)

  /** A refresh, which overwrites stored values by the node's. */
  datatype Revision = Revision(before: map<Key, Acct>, after: map<Key, Acct>)

  /** credited: postings that have reached the stored records, in order.
      dirty: postings of rolled-back credit transactions that only the cached record holds.
      sent: the input entries of every transfer.
      returned: every hash compareHashes has returned as confirmed.
      revised: the refreshes. */
  datatype History = History(
    credited: seq<Posting>, dirty: seq<Posting>, sent: seq<Flow>, returned: seq<Hash>, revised: seq<Revision>)

  function PostedAt(adr: Address): Posting -> int {
    (p: Posting) => if p.address == adr then p.value else 0
  }

  function GainAt(adr: Address): Posting -> int {
    (p: Posting) => if p.address == adr && p.value > 0 then p.value else 0
  }

  function FlowAt(adr: Address): Flow -> int {
    (f: Flow) => if f.address == adr then f.value else 0
  }

  function PostedHashes(ps: seq<Posting>): seq<Hash> {
    seq(|ps|, i requires 0 <= i < |ps| => ps[i].hash)
  }

  /** What Send has taken from an address. */
  function Taken(h: History, adr: Address): int {
    -SumBy(h.sent, FlowAt(adr))
  }

  /** The value the bucket holds for an address. */
  ghost function ValueIn(db: map<Key, Acct>, adr: Address): int {
    var k := Owner(db, adr);
    if k.None? then 0 else db[k.value].bals[IndexOf(db[k.value].bals, adr)].value
  }

  ghost function DeltaAt(adr: Address): Revision -> int {
    (r: Revision) => ValueIn(r.after, adr) - ValueIn(r.before, adr)
  }

  ghost function RaiseAt(adr: Address): Revision -> int {
    (r: Revision) => if DeltaAt(adr)(r) > 0 then DeltaAt(adr)(r) else 0
  }

  /** What refreshes have added to the value of an address, on balance. */
  ghost function Revised(h: History, adr: Address): int {
    SumBy(h.revised, DeltaAt(adr))
  }

  /** What refreshes have added, those that lowered the value left out. */
  ghost function Raised(h: History, adr: Address): int {
    SumBy(h.revised, RaiseAt(adr))
  }

  ghost function Net(h: History, adr: Address): int {
    Taken(h, adr) - Revised(h, adr)
  }

  /** The ledger equation for the entries of a record. */
  ghost predicate Balanced(a: Acct, credited: seq<Posting>, h: History) {
    forall i :: 0 <= i < |a.bals| ==>
      var b := a.bals[i]; b.value == SumBy(credited, PostedAt(b.address)) - Net(h, b.address)
  }

  ghost predicate BalancedDb(db: map<Key, Acct>, h: History) {
    forall k :: k in db ==> Balanced(db[k], h.credited, h)
  }

  /** Refreshes have touched addresses of the wallet only. */
  ghost predicate RevisedOwned(db: map<Key, Acct>, rs: seq<Revision>) {
    forall r, adr :: r in rs && (Owner(r.before, adr).Some? || Owner(r.after, adr).Some?) ==> Owner(db, adr).Some?
  }

  lemma RevisedOwnedMore(x: map<Key, Acct>, y: map<Key, Acct>, rs: seq<Revision>)
    requires RevisedOwned(x, rs) && forall adr :: Owner(x, adr).Some? ==> Owner(y, adr).Some?
    ensures RevisedOwned(y, rs)
  {
  }

  lemma UnownedUnrevised(db: map<Key, Acct>, rs: seq<Revision>, adr: Address)
    requires RevisedOwned(db, rs) && Owner(db, adr).None?
    ensures SumBy(rs, DeltaAt(adr)) == 0
  {
    SumZero(rs, DeltaAt(adr));
  }

  /** Everything in the history concerns addresses of the wallet. */
  ghost predicate Covered(s: Store, h: History) {
    && (forall p :: p in h.credited ==> Owner(s.db, p.address).Some?)
    && (forall f :: f in h.sent ==> Owner(s.db, f.address).Some?)
    && RevisedOwned(s.db, h.revised)
    && (s.cache.None? ==> h.dirty == [])
    && (forall p :: p in h.dirty ==> Has(s.cache.value, p.address))
  }

  /** No address has given more than it gained. */
  ghost predicate Bounded(h: History) {
    forall adr :: Taken(h, adr) <= SumBy(h.credited, GainAt(adr)) + Raised(h, adr)
  }

  ghost predicate LedgerHolds(lib: Library, s: Store, h: History) {
    && Valid(lib, s)
    && BalancedDb(s.db, h)
    && (s.cache.Some? ==> Balanced(s.cache.value, h.credited + h.dirty, h))
    && Covered(s, h)
    && Bounded(h)
  }

  /** The stored record of the account is the given one, and a cache about it is too. */
  ghost predicate Settled(s: Store, h: History, a: Acct) {
    && ToKey(a.name) in s.db && s.db[ToKey(a.name)] == a
    && (s.cache.Some? && s.cache.value.name == a.name ==> s.cache == Some(a) && h.dirty == [])
  }

  // ---- writing a record back ----

  /** Storing the cached record makes its dirty postings real. */
  function Absorb(h: History): History {
    h.(credited := h.credited + h.dirty, dirty := [])
  }

  lemma ForeignPostings(lib: Library, s: Store, h: History, k: Key)
    requires LedgerHolds(lib, s, h) && s.cache.Some? && k in s.db && k != ToKey(s.cache.value.name)
    ensures Balanced(s.db[k], h.credited + h.dirty, h)
  {
    var a, c := s.db[k], s.cache.value;
    forall i | 0 <= i < |a.bals|
      ensures a.bals[i].value == SumBy(h.credited + h.dirty, PostedAt(a.bals[i].address)) - Net(h, a.bals[i].address)
    {
      var adr := a.bals[i].address;
      AlignedIndex(lib, a.seed, a.bals, i);
      OwnerUnique(lib, s.db, k, adr);
      forall p | p in h.dirty
        ensures PostedAt(adr)(p) == 0
      {
        IndexOfSame(s.db[ToKey(c.name)].bals, c.bals, p.address);
        OwnerUnique(lib, s.db, ToKey(c.name), p.address);
      }
      SumZero(h.dirty, PostedAt(adr));
      SumConcat(h.credited, h.dirty, PostedAt(adr));
    }
  }

  lemma GainsGrow(h: History, more: seq<Posting>)
    requires Bounded(h)
    ensures Bounded(h.(credited := h.credited + more, dirty := []))
  {
    var g := h.(credited := h.credited + more, dirty := []);
    forall adr
      ensures Taken(g, adr) <= SumBy(g.credited, GainAt(adr)) + Raised(g, adr)
    {
      assert Taken(g, adr) == Taken(h, adr) && Raised(g, adr) == Raised(h, adr);
      SumConcat(h.credited, more, GainAt(adr));
      GainPositive(more, adr);
    }
  }

  lemma {:induction false} GainPositive(ps: seq<Posting>, adr: Address)
    ensures SumBy(ps, GainAt(adr)) >= 0
    ensures SumBy(ps, PostedAt(adr)) <= SumBy(ps, GainAt(adr))
  {
    if ps == [] {
    } else {
      GainPositive(ps[..|ps| - 1], adr);
    }
  }

  lemma {:induction false} RaisePositive(rs: seq<Revision>, adr: Address)
    ensures SumBy(rs, RaiseAt(adr)) >= 0
  {
    if rs == [] {
    } else {
      RaisePositive(rs[..|rs| - 1], adr);
    }
  }

  lemma OwnerStays(lib: Library, s: Store, t: Store, adr: Address)
    requires Valid(lib, s) && Valid(lib, t)
    requires forall k :: k in s.db ==>
               && k in t.db && |s.db[k].bals| <= |t.db[k].bals|
               && SameAddresses(s.db[k].bals, t.db[k].bals[..|s.db[k].bals|])
    ensures Owner(s.db, adr).Some? ==> Owner(t.db, adr) == Owner(s.db, adr)
  {
    var k := Owner(s.db, adr);
    if k.Some? {
      var x, y := s.db[k.value].bals, t.db[k.value].bals;
      var i := IndexOf(x, adr);
      assert y[..|x|][i].address == y[i].address == adr;
      assert IndexOf(y, adr) >= 0;
      OwnerUnique(lib, t.db, k.value, adr);
    }
  }

  lemma WriteBackBalanced(lib: Library, s: Store, h: History)
    requires LedgerHolds(lib, s, h) && s.cache.Some?
    ensures BalancedDb(Put(s, s.cache.value).db, Absorb(h))
  {
    var t, g := Put(s, s.cache.value), Absorb(h);
    forall k | k in t.db
      ensures Balanced(t.db[k], g.credited, h)
    {
      if k != ToKey(s.cache.value.name) {
        ForeignPostings(lib, s, h, k);
      }
    }
    forall k | k in t.db
      ensures Balanced(t.db[k], g.credited, g)
    {
      SameSent(t.db[k], g.credited, h, g);
    }
  }

  lemma SameSent(a: Acct, credited: seq<Posting>, h: History, g: History)
    requires h.sent == g.sent && h.revised == g.revised && Balanced(a, credited, h)
    ensures Balanced(a, credited, g)
  {
    assert forall adr :: Net(g, adr) == Net(h, adr);
  }

  lemma WriteBackCovered(lib: Library, s: Store, h: History)
    requires LedgerHolds(lib, s, h) && s.cache.Some? && Valid(lib, Put(s, s.cache.value))
    ensures Covered(Put(s, s.cache.value), Absorb(h))
  {
    hide Balanced, Bounded, RevisedOwned;
    var c := s.cache.value;
    var t := Put(s, c);
    forall adr
      ensures Owner(s.db, adr).Some? ==> Owner(t.db, adr).Some?
    {
      OwnerStays(lib, s, t, adr);
    }
    RevisedOwnedMore(s.db, t.db, h.revised);
    forall p | p in h.dirty
      ensures Owner(t.db, p.address).Some?
    {
      assert Has(t.db[ToKey(c.name)], p.address);
    }
  }

  /** Writing the cached record back keeps the ledger, its dirty postings being absorbed. */
  lemma WriteBack(lib: Library, s: Store, h: History)
    requires LedgerHolds(lib, s, h) && s.cache.Some?
    ensures LedgerHolds(lib, Put(s, s.cache.value), Absorb(h))
    ensures Settled(Put(s, s.cache.value), Absorb(h), s.cache.value)
  {
    var c := s.cache.value;
    AlignedSame(lib, c.seed, s.db[ToKey(c.name)].bals, c.bals);
    PutValid(lib, s, c);
    WriteBackBalanced(lib, s, h);
    WriteBackCovered(lib, s, h);
    GainsGrow(h, h.dirty);
    var g := Absorb(h);
    assert g.credited + g.dirty == g.credited;
    SameSent(c, g.credited, h, g);
  }

  /** Dropping the cached record drops its dirty postings. */
  lemma ReplaceCache(lib: Library, s: Store, h: History, c: Option<Acct>)
    requires LedgerHolds(lib, s, h)
    requires c.Some? ==> ToKey(c.value.name) in s.db && s.db[ToKey(c.value.name)] == c.value
    ensures LedgerHolds(lib, s.(cache := c), h.(dirty := []))
  {
    var g := h.(dirty := []);
    assert forall adr :: Taken(g, adr) == Taken(h, adr) && Net(g, adr) == Net(h, adr);
    assert g.credited + [] == g.credited;
  }

  // ---- changing a settled record ----

  lemma CreditValid(lib: Library, s: Store, a: Acct, adr: Address, v: int)
    requires Valid(lib, s) && ToKey(a.name) in s.db && s.db[ToKey(a.name)] == a && Has(a, adr)
    ensures var c := Credited(a, adr, v); Valid(lib, Put(s, c)) && c.name == a.name
  {
    CreditedSame(a, adr, v);
    AlignedSame(lib, a.seed, a.bals, Credited(a, adr, v).bals);
    PutValid(lib, s, Credited(a, adr, v));
  }

  /** Credits one posting to a settled record that is cached. */
  lemma CreditSettled(lib: Library, s: Store, h: History, a: Acct, p: Posting)
    requires LedgerHolds(lib, s, h) && Settled(s, h, a) && s.cache == Some(a) && Has(a, p.address)
    ensures LedgerHolds(lib, Put(s, Credited(a, p.address, p.value)), h.(credited := h.credited + [p]))
  {
    CreditValid(lib, s, a, p.address, p.value);
    hide Balanced, Bounded, Covered, Credited, Has;
    var t, g := Put(s, Credited(a, p.address, p.value)), h.(credited := h.credited + [p]);
    CreditedBalanced(lib, a, h, p);
    forall k | k in t.db && k != ToKey(a.name)
      ensures Balanced(t.db[k], g.credited, g)
    {
      CreditElsewhere(lib, s, h, ToKey(a.name), k, p);
    }
    assert g.credited + g.dirty == g.credited;
    CreditCovered(lib, s, h, a, p);
    GainsGrow(h, [p]);
  }

  lemma CreditedBalanced(lib: Library, a: Acct, h: History, p: Posting)
    requires Injective(lib) && Aligned(lib, a.seed, a.bals) && Has(a, p.address) && Balanced(a, h.credited, h)
    ensures Balanced(Credited(a, p.address, p.value), h.credited + [p], h.(credited := h.credited + [p]))
  {
    var c := Credited(a, p.address, p.value);
    forall i | 0 <= i < |a.bals|
      ensures c.bals[i].value == SumBy(h.credited + [p], PostedAt(c.bals[i].address)) - Net(h, c.bals[i].address)
    {
      SumAppend(h.credited, p, PostedAt(a.bals[i].address));
      AlignedIndex(lib, a.seed, a.bals, i);
    }
  }

  lemma CreditElsewhere(lib: Library, s: Store, h: History, k: Key, l: Key, p: Posting)
    requires Valid(lib, s) && k in s.db && l in s.db && k != l && Has(s.db[k], p.address)
    requires Balanced(s.db[l], h.credited, h)
    ensures Balanced(s.db[l], h.credited + [p], h.(credited := h.credited + [p]))
  {
    var a := s.db[l];
    forall i | 0 <= i < |a.bals|
      ensures SumBy(h.credited + [p], PostedAt(a.bals[i].address)) == SumBy(h.credited, PostedAt(a.bals[i].address))
    {
      SumAppend(h.credited, p, PostedAt(a.bals[i].address));
      AlignedIndex(lib, a.seed, a.bals, i);
      OwnerUnique(lib, s.db, l, a.bals[i].address);
      OwnerUnique(lib, s.db, k, p.address);
    }
  }

  lemma CreditCovered(lib: Library, s: Store, h: History, a: Acct, p: Posting)
    requires LedgerHolds(lib, s, h) && Settled(s, h, a) && s.cache == Some(a) && Has(a, p.address)
    requires Valid(lib, Put(s, Credited(a, p.address, p.value)))
    ensures Covered(Put(s, Credited(a, p.address, p.value)), h.(credited := h.credited + [p]))
  {
    hide Balanced, Bounded, RevisedOwned;
    var t := Put(s, Credited(a, p.address, p.value));
    OwnerUnique(lib, s.db, ToKey(a.name), p.address);
    forall adr
      ensures Owner(s.db, adr).Some? ==> Owner(t.db, adr).Some?
    {
      OwnerStays(lib, s, t, adr);
    }
    RevisedOwnedMore(s.db, t.db, h.revised);
  }

  /** The inputs Send takes from a record. */
  ghost function SpentFlows(a: Acct, total: int): seq<Flow>
    requires total > 0 ==> SumBy(a.bals, Spendable()) >= total
  {
    if total > 0 then InFlows(a.bals[..Cover(a.bals, total)]) else []
  }

  /** What the inputs take from entry i: all of it when it is positive and within the prefix. */
  lemma {:induction false} InputsAt(lib: Library, seed: Seed, bs: seq<Balance>, k: nat, i: nat)
    requires Injective(lib) && Aligned(lib, seed, bs) && k <= |bs| && i < |bs|
    ensures SumBy(InFlows(bs[..k]), FlowAt(bs[i].address)) == Drained(bs, k)[i].value - bs[i].value
  {
    if k == 0 {
    } else {
      hide Injective, Aligned, InFlows, InputFlows, SumBy, FlowAt;
      var b, adr := bs[k - 1], bs[i].address;
      InputsAt(lib, seed, bs, k - 1, i);
      InFlowsStep(bs, k - 1);
      AddressesDiffer(lib, seed, bs, i, k - 1);
      assert InFlows(bs[..k - 1]) + [] == InFlows(bs[..k - 1]);
      OneInputAt(InFlows(bs[..k - 1]), b, adr);
    }
  }

  lemma AddressesDiffer(lib: Library, seed: Seed, bs: seq<Balance>, i: nat, j: nat)
    requires Injective(lib) && Aligned(lib, seed, bs) && i < |bs| && j < |bs|
    ensures bs[i].address == bs[j].address <==> i == j
  {
    AlignedIndex(lib, seed, bs, i);
    AlignedIndex(lib, seed, bs, j);
  }

  lemma OneInputAt(f: seq<Flow>, b: Balance, adr: Address)
    ensures SumBy(f + InputFlows(b), FlowAt(adr)) ==
            SumBy(f, FlowAt(adr)) - if b.address == adr then b.value else 0
  {
    assert f + InputFlows(b) == (f + [Flow(b.address, -b.value)]) + [Flow(b.address, 0)];
    SumAppend(f + [Flow(b.address, -b.value)], Flow(b.address, 0), FlowAt(adr));
    SumAppend(f, Flow(b.address, -b.value), FlowAt(adr));
  }

  lemma {:induction false} InputsElsewhere(bs: seq<Balance>, adr: Address)
    requires forall i :: 0 <= i < |bs| ==> bs[i].address != adr
    ensures SumBy(InFlows(bs), FlowAt(adr)) == 0
    ensures forall f :: f in InFlows(bs) ==> f.address != adr
  {
    if bs == [] {
    } else {
      var init, b := bs[..|bs| - 1], bs[|bs| - 1];
      InputsElsewhere(init, adr);
      if b.value > 0 {
        OneInputAt(InFlows(init), b, adr);
      } else {
        assert InFlows(bs) == InFlows(init);
      }
    }
  }

  /** Taken rises by what the inputs take. */
  lemma TakenMore(h: History, flows: seq<Flow>, adr: Address)
    ensures Taken(h.(sent := h.sent + flows), adr) == Taken(h, adr) - SumBy(flows, FlowAt(adr))
    ensures Net(h.(sent := h.sent + flows), adr) == Net(h, adr) - SumBy(flows, FlowAt(adr))
  {
    SumConcat(h.sent, flows, FlowAt(adr));
  }

  lemma NewAddressUntouched(s: Store, h: History, adr: Address)
    requires Covered(s, h) && Owner(s.db, adr).None?
    ensures SumBy(h.credited, PostedAt(adr)) == 0 && Net(h, adr) == 0
  {
    forall p | p in h.credited
      ensures PostedAt(adr)(p) == 0
    {
      assert Owner(s.db, p.address).Some?;
    }
    SumZero(h.credited, PostedAt(adr));
    forall f | f in h.sent
      ensures FlowAt(adr)(f) == 0
    {
      assert Owner(s.db, f.address).Some?;
    }
    SumZero(h.sent, FlowAt(adr));
    UnownedUnrevised(s.db, h.revised, adr);
  }

  /** Replacing the settled record by one with more entries and the same seed. */
  ghost predicate Grows(lib: Library, a: Acct, b: Acct) {
    && b.name == a.name && b.seed == a.seed && Aligned(lib, a.seed, b.bals)
    && |a.bals| <= |b.bals| && SameAddresses(a.bals, b.bals[..|a.bals|])
  }

  lemma GrowCovered(lib: Library, s: Store, h: History, a: Acct, b: Acct, flows: seq<Flow>)
    requires LedgerHolds(lib, s, h) && Settled(s, h, a) && Grows(lib, a, b)
    requires forall f :: f in flows ==> Has(a, f.address)
    ensures Valid(lib, Put(s, b)) && Covered(Put(s, b), h.(sent := h.sent + flows))
  {
    hide Balanced, Bounded, RevisedOwned;
    PutValid(lib, s, b);
    var t := Put(s, b);
    forall adr
      ensures Owner(s.db, adr).Some? ==> Owner(t.db, adr).Some?
    {
      OwnerStays(lib, s, t, adr);
    }
    RevisedOwnedMore(s.db, t.db, h.revised);
    forall f | f in flows
      ensures Owner(t.db, f.address).Some?
    {
      OwnerUnique(lib, s.db, ToKey(a.name), f.address);
    }
  }

  /** Inputs from one account do not move the equation of another. */
  lemma SentElsewhere(lib: Library, s: Store, h: History, k: Key, flows: seq<Flow>, x: Acct, credited: seq<Posting>)
    requires Valid(lib, s) && k in s.db && ToKey(x.name) in s.db && k != ToKey(x.name)
    requires forall f :: f in flows ==> Has(s.db[k], f.address)
    requires SameAddresses(s.db[ToKey(x.name)].bals, x.bals) && Balanced(x, credited, h)
    ensures Balanced(x, credited, h.(sent := h.sent + flows))
  {
    forall i | 0 <= i < |x.bals|
      ensures Net(h.(sent := h.sent + flows), x.bals[i].address) == Net(h, x.bals[i].address)
    {
      var adr := x.bals[i].address;
      TakenMore(h, flows, adr);
      AlignedIndex(lib, s.db[ToKey(x.name)].seed, s.db[ToKey(x.name)].bals, i);
      OwnerUnique(lib, s.db, ToKey(x.name), adr);
      forall f | f in flows
        ensures FlowAt(adr)(f) == 0
      {
        OwnerUnique(lib, s.db, k, f.address);
      }
      SumZero(flows, FlowAt(adr));
    }
  }

  /** The general step: a settled record gives inputs and may gain an entry. */
  lemma GrowSettled(lib: Library, s: Store, h: History, a: Acct, b: Acct, flows: seq<Flow>)
    requires LedgerHolds(lib, s, h) && Settled(s, h, a) && Grows(lib, a, b)
    requires forall f :: f in flows ==> Has(a, f.address)
    requires var g := h.(sent := h.sent + flows); Balanced(b, h.credited, g) && Bounded(g)
    ensures LedgerHolds(lib, Put(s, b), h.(sent := h.sent + flows))
  {
    var t, g := Put(s, b), h.(sent := h.sent + flows);
    GrowCovered(lib, s, h, a, b, flows);
    hide Bounded;
    forall k | k in t.db
      ensures Balanced(t.db[k], g.credited, g)
    {
      if k != ToKey(a.name) {
        SentElsewhere(lib, s, h, ToKey(a.name), flows, s.db[k], h.credited);
      }
    }
    if t.cache.Some? {
      if t.cache == Some(b) {
        assert s.cache.Some? && s.cache.value.name == a.name ==> g.dirty == [];
        assert g.credited + [] == g.credited;
        CacheIsGrown(lib, s, h, a, b, g);
      } else {
        SentElsewhere(lib, s, h, ToKey(a.name), flows, t.cache.value, h.credited + h.dirty);
      }
    }
  }

  lemma CacheIsGrown(lib: Library, s: Store, h: History, a: Acct, b: Acct, g: History)
    requires Settled(s, h, a) && Put(s, b).cache == Some(b) && a.name == b.name && h.dirty == g.dirty
    requires Balanced(b, g.credited, g) && g.credited + [] == g.credited
    requires s.cache.Some? && s.cache.value.name == a.name ==> g.dirty == []
    ensures Balanced(b, g.credited + g.dirty, g)
  {
  }

  lemma AppendBalanced(a: Acct, credited: seq<Posting>, h: History, b: Balance)
    requires Balanced(a, credited, h) && b.value == 0
    requires SumBy(credited, PostedAt(b.address)) == 0 && Net(h, b.address) == 0
    ensures Balanced(a.(bals := a.bals + [b]), credited, h)
  {
  }

  lemma DrainBalanced(lib: Library, a: Acct, h: History, total: int)
    requires Injective(lib) && Aligned(lib, a.seed, a.bals) && Balanced(a, h.credited, h)
    requires total > 0 && SumBy(a.bals, Spendable()) >= total
    ensures Balanced(a.(bals := Drained(a.bals, Cover(a.bals, total))), h.credited,
                     h.(sent := h.sent + SpentFlows(a, total)))
  {
    var k := Cover(a.bals, total);
    forall i | 0 <= i < |a.bals|
      ensures Net(h.(sent := h.sent + InFlows(a.bals[..k])), a.bals[i].address) ==
              Net(h, a.bals[i].address) + a.bals[i].value - Drained(a.bals, k)[i].value
    {
      TakenMore(h, InFlows(a.bals[..k]), a.bals[i].address);
      InputsAt(lib, a.seed, a.bals, k, i);
    }
  }

  lemma SpendBalanced(lib: Library, s: Store, h: History, a: Acct, total: int)
    requires LedgerHolds(lib, s, h) && Settled(s, h, a) && Spent(lib, a, total).Some?
    ensures Balanced(Spent(lib, a, total).value, h.credited, h.(sent := h.sent + SpentFlows(a, total)))
  {
    var flows := SpentFlows(a, total);
    if total <= 0 {
      assert h.sent + [] == h.sent;
    } else {
      DrainBalanced(lib, a, h, total);
      var d := a.(bals := Drained(a.bals, Cover(a.bals, total)));
      if Excess(a.bals, total) > 0 {
        var adr := lib.newAddress(a.seed, |a.bals|).value;
        NextAddressNew(lib, s, a);
        NewAddressUntouched(s, h, adr);
        assert !Has(s.db[ToKey(a.name)], adr);
        InputsElsewhere(a.bals[..Cover(a.bals, total)], adr);
        TakenMore(h, flows, adr);
        hide Balanced;
        AppendBalanced(d, h.credited, h.(sent := h.sent + flows), Balance(adr, 0, Excess(a.bals, total)));
      }
    }
  }

  /** The inputs take no more from an address than the account holds there. */
  lemma InputsBounded(lib: Library, a: Acct, h: History, total: int, adr: Address)
    requires Injective(lib) && Aligned(lib, a.seed, a.bals) && Balanced(a, h.credited, h)
    requires total > 0 && SumBy(a.bals, Spendable()) >= total
    requires Taken(h, adr) <= SumBy(h.credited, GainAt(adr)) + Raised(h, adr)
    ensures Taken(h, adr) - SumBy(SpentFlows(a, total), FlowAt(adr)) <= SumBy(h.credited, GainAt(adr)) + Raised(h, adr)
  {
    var i, k := IndexOf(a.bals, adr), Cover(a.bals, total);
    if i >= 0 {
      InputsAt(lib, a.seed, a.bals, k, i);
      GainPositive(h.credited, adr);
      SumAtMost(h.revised, DeltaAt(adr), RaiseAt(adr));
      RaisePositive(h.revised, adr);
    } else {
      InputsElsewhere(a.bals[..k], adr);
    }
  }

  lemma SpendBounded(lib: Library, s: Store, h: History, a: Acct, total: int)
    requires LedgerHolds(lib, s, h) && Settled(s, h, a) && Spent(lib, a, total).Some?
    ensures Bounded(h.(sent := h.sent + SpentFlows(a, total)))
  {
    assert Aligned(lib, a.seed, a.bals) && Balanced(a, h.credited, h) && Injective(lib) && Bounded(h);
    hide LedgerHolds, Settled, Aligned, Balanced, Injective;
    var flows := SpentFlows(a, total);
    forall adr
      ensures var g := h.(sent := h.sent + flows); Taken(g, adr) <= SumBy(g.credited, GainAt(adr)) + Raised(g, adr)
    {
      TakenMore(h, flows, adr);
      if total > 0 {
        InputsBounded(lib, a, h, total, adr);
      }
    }
  }

  /** Inputs come from the account itself. */
  lemma SpentFlowsOwned(a: Acct, total: int)
    requires total > 0 ==> SumBy(a.bals, Spendable()) >= total
    ensures forall f :: f in SpentFlows(a, total) ==> Has(a, f.address)
  {
    forall f | f in SpentFlows(a, total)
      ensures Has(a, f.address)
    {
      if !Has(a, f.address) {
        InputsElsewhere(a.bals[..Cover(a.bals, total)], f.address);
        assert false;
      }
    }
  }

  lemma SpendSettled(lib: Library, s: Store, h: History, a: Acct, total: int)
    requires LedgerHolds(lib, s, h) && Settled(s, h, a) && Spent(lib, a, total).Some?
    ensures LedgerHolds(lib, Put(s, Spent(lib, a, total).value), h.(sent := h.sent + SpentFlows(a, total)))
  {
    SpentAligned(lib, a, total);
    SpentFlowsOwned(a, total);
    SpendBalanced(lib, s, h, a, total);
    SpendBounded(lib, s, h, a, total);
    GrowSettled(lib, s, h, a, Spent(lib, a, total).value, SpentFlows(a, total));
  }

  lemma ExtendSettled(lib: Library, s: Store, h: History, a: Acct)
    requires LedgerHolds(lib, s, h) && Settled(s, h, a) && Extended(lib, a).Some?
    ensures LedgerHolds(lib, Put(s, Extended(lib, a).value), h)
  {
    var adr := lib.newAddress(a.seed, |a.bals|).value;
    NextAddressNew(lib, s, a);
    NewAddressUntouched(s, h, adr);
    AppendBalanced(a, h.credited, h, Balance(adr, 0, 0));
    assert h.sent + [] == h.sent;
    hide Balanced, Bounded, Covered;
    GrowSettled(lib, s, h, a, Extended(lib, a).value, []);
  }

  /** A new account, still without entries, with a seed of its own. */
  lemma EmptyAccount(lib: Library, s: Store, h: History, name: string, seed: Seed)
    requires LedgerHolds(lib, s, h) && ToKey(name) !in s.db && UnusedSeed(lib, s.db, seed)
    ensures var a := Acct(name, seed, []); LedgerHolds(lib, Put(s, a), h) && Settled(Put(s, a), h, a)
  {
    var a := Acct(name, seed, []);
    PutValid(lib, s, a);
    EmptyCovered(lib, s, h, a);
    NothingBalanced(a, h);
    hide Owner, Has, Balanced, Bounded, Covered, RevisedOwned, UnusedSeed, Valid;
    ValidCacheKeyed(lib, s);
  }

  lemma NothingBalanced(a: Acct, h: History)
    requires a.bals == []
    ensures Balanced(a, h.credited, h)
  {
  }

  /** A cached record is about a stored account. */
  lemma ValidCacheKeyed(lib: Library, s: Store)
    requires Valid(lib, s)
    ensures s.cache.Some? ==> ToKey(s.cache.value.name) in s.db
  {
  }

  lemma EmptyCovered(lib: Library, s: Store, h: History, a: Acct)
    requires Valid(lib, s) && Covered(s, h) && ToKey(a.name) !in s.db && Valid(lib, Put(s, a))
    ensures Covered(Put(s, a), h)
  {
    ValidCacheKeyed(lib, s);
    forall adr
      ensures Owner(s.db, adr).Some? ==> Owner(Put(s, a).db, adr).Some?
    {
      OwnerStays(lib, s, Put(s, a), adr);
    }
    RevisedOwnedMore(s.db, Put(s, a).db, h.revised);
    hide Owner, Has, RevisedOwned, Valid;
  }

  // ---- the credit loop ----

  ghost predicate Hit(s: Store, adr: Address) {
    s.cache.Some? && Has(s.cache.value, adr)
  }

  /** What one turn of the credit loop adds to the history. */
  ghost function PostOne(s: Store, h: History, hash: Hash, t: Transaction): History {
    var p := Posting(hash, t.address, t.value);
    if t.value == 0 || Find(s, t.address).None? then h
    else if Hit(s, t.address) then h.(credited := h.credited + h.dirty + [p], dirty := [])
    else h.(credited := h.credited + [p], dirty := [])
  }

  ghost function PostAll(s: Store, h: History, hashes: seq<Hash>, trs: seq<Transaction>): History
    requires |hashes| == |trs|
  {
    if trs == [] then h
    else
      var n := |trs| - 1;
      PostOne(CreditAll(s, trs[..n]), PostAll(s, h, hashes[..n], trs[..n]), hashes[n], trs[n])
  }

  lemma LedgerCreditOne(lib: Library, s: Store, h: History, hash: Hash, t: Transaction)
    requires LedgerHolds(lib, s, h)
    ensures LedgerHolds(lib, CreditOne(s, t), PostOne(s, h, hash, t))
  {
    var found := Find(s, t.address);
    if t.value != 0 && found.Some? {
      var a, p := found.value, Posting(hash, t.address, t.value);
      hide LedgerHolds, Settled;
      if Hit(s, t.address) {
        WriteBackHit(lib, s, h, a);
        CreditSettled(lib, Put(s, a), Absorb(h), a, p);
        assert Put(Put(s, a), Credited(a, t.address, t.value)) == CreditOne(s, t);
      } else {
        TouchMiss(lib, s, h, t.address);
        CreditSettled(lib, Touch(s, t.address), h.(dirty := []), a, p);
      }
    }
  }

  lemma WriteBackHit(lib: Library, s: Store, h: History, a: Acct)
    requires LedgerHolds(lib, s, h) && s.cache == Some(a)
    ensures LedgerHolds(lib, Put(s, a), Absorb(h)) && Settled(Put(s, a), Absorb(h), a)
    ensures Put(s, a).cache == Some(a) && forall b: Acct :: b.name == a.name ==> Put(Put(s, a), b) == Put(s, b)
  {
    WriteBack(lib, s, h);
  }

  lemma TouchMiss(lib: Library, s: Store, h: History, adr: Address)
    requires LedgerHolds(lib, s, h) && !Hit(s, adr) && Find(s, adr).Some?
    ensures var t, g := Touch(s, adr), h.(dirty := []);
            LedgerHolds(lib, t, g) && Settled(t, g, Find(s, adr).value) && t.cache == Find(s, adr)
    ensures Has(Find(s, adr).value, adr)
  {
    ReplaceCache(lib, s, h, Find(s, adr));
  }

  lemma {:induction false} LedgerCreditAll(lib: Library, s: Store, h: History, hashes: seq<Hash>, trs: seq<Transaction>)
    requires LedgerHolds(lib, s, h) && |hashes| == |trs|
    ensures LedgerHolds(lib, CreditAll(s, trs), PostAll(s, h, hashes, trs))
  {
    if trs == [] {
    } else {
      var n := |trs| - 1;
      LedgerCreditAll(lib, s, h, hashes[..n], trs[..n]);
      LedgerCreditOne(lib, CreditAll(s, trs[..n]), PostAll(s, h, hashes[..n], trs[..n]), hashes[n], trs[n]);
    }
  }

  /** The same accounts with the same addresses. */
  ghost predicate SameAccounts(x: map<Key, Acct>, y: map<Key, Acct>) {
    && x.Keys == y.Keys
    && forall k :: k in x ==> x[k].name == y[k].name && x[k].seed == y[k].seed && SameAddresses(x[k].bals, y[k].bals)
  }

  lemma CreditOneAccounts(lib: Library, s: Store, t: Transaction)
    requires Valid(lib, s)
    ensures SameAccounts(s.db, CreditOne(s, t).db)
  {
    TouchValid(lib, s, t.address);
    if t.value != 0 && Find(s, t.address).Some? {
      CreditedSame(Find(s, t.address).value, t.address, t.value);
    }
  }

  lemma SameAccountsTransitive(x: map<Key, Acct>, y: map<Key, Acct>, z: map<Key, Acct>)
    requires SameAccounts(x, y) && SameAccounts(y, z)
    ensures SameAccounts(x, z)
  {
  }

  lemma {:induction false} CreditAllAccounts(lib: Library, s: Store, trs: seq<Transaction>)
    requires Valid(lib, s)
    ensures SameAccounts(s.db, CreditAll(s, trs).db)
  {
    if trs == [] {
    } else {
      var init := trs[..|trs| - 1];
      CreditAllAccounts(lib, s, init);
      CreditAllValid(lib, s, init);
      CreditOneAccounts(lib, CreditAll(s, init), trs[|trs| - 1]);
      SameAccountsTransitive(s.db, CreditAll(s, init).db, CreditAll(s, trs).db);
    }
  }

  /** The loop only adds to the credited postings. */
  lemma {:induction false} PostAllExtends(s: Store, h: History, hashes: seq<Hash>, trs: seq<Transaction>)
    requires |hashes| == |trs|
    ensures var h1 := PostAll(s, h, hashes, trs);
            h.credited <= h1.credited && h1.sent == h.sent && h1.returned == h.returned && h1.revised == h.revised
  {
    if trs == [] {
    } else {
      var n := |trs| - 1;
      PostAllExtends(s, h, hashes[..n], trs[..n]);
    }
  }

  // ---- the rolled-back credit transaction ----

  /** The postings that concern the record. */
  ghost function Concerning(ps: seq<Posting>, a: Acct): seq<Posting> {
    if ps == [] then []
    else Concerning(ps[..|ps| - 1], a) + if Has(a, ps[|ps| - 1].address) then [ps[|ps| - 1]] else []
  }

  lemma {:induction false} ConcerningExact(ps: seq<Posting>, a: Acct)
    ensures forall p :: p in Concerning(ps, a) <==> p in ps && Has(a, p.address)
    ensures forall adr :: Has(a, adr) ==> SumBy(Concerning(ps, a), PostedAt(adr)) == SumBy(ps, PostedAt(adr))
  {
    if ps == [] {
    } else {
      var init, p := ps[..|ps| - 1], ps[|ps| - 1];
      ConcerningExact(init, a);
      assert ps == init + [p] && Concerning(init, a) + [] == Concerning(init, a);
      forall adr | Has(a, adr)
        ensures SumBy(Concerning(ps, a), PostedAt(adr)) == SumBy(ps, PostedAt(adr))
      {
        SumAppend(Concerning(init, a), p, PostedAt(adr));
      }
    }
  }

  /** The bucket returns to its contents before the loop; the cache keeps the loop's result,
      and with it the postings that are now only there. */
  ghost function RolledBack(h: History, after: History, cache: Option<Acct>): History
    requires h.credited <= after.credited
  {
    h.(dirty := if cache.None? then [] else Concerning(after.credited[|h.credited|..], cache.value) + after.dirty)
  }

  lemma LedgerRollback(lib: Library, s: Store, h: History, hashes: seq<Hash>, trs: seq<Transaction>)
    requires LedgerHolds(lib, s, h) && |hashes| == |trs|
    ensures h.credited <= PostAll(s, h, hashes, trs).credited
    ensures var cache := CreditAll(s, trs).cache;
            LedgerHolds(lib, Store(s.db, cache), RolledBack(h, PostAll(s, h, hashes, trs), cache))
  {
    var s1, h1 := CreditAll(s, trs), PostAll(s, h, hashes, trs);
    PostAllExtends(s, h, hashes, trs);
    CreditAllAccounts(lib, s, trs);
    LedgerCreditAll(lib, s, h, hashes, trs);
    if s1.cache.Some? {
      RollbackBalanced(s1.cache.value, h, h1);
      ConcerningExact(h1.credited[|h.credited|..], s1.cache.value);
    }
    RollbackHolds(lib, s, h, s1, h1);
  }

  lemma RollbackHolds(lib: Library, s: Store, h: History, s1: Store, h1: History)
    requires LedgerHolds(lib, s, h) && LedgerHolds(lib, s1, h1) && SameAccounts(s.db, s1.db)
    requires h.credited <= h1.credited && h1.sent == h.sent && h1.revised == h.revised
    requires s1.cache.Some? ==>
               var g := RolledBack(h, h1, s1.cache);
               && Balanced(s1.cache.value, g.credited + g.dirty, g)
               && forall p :: p in g.dirty ==> Has(s1.cache.value, p.address)
    ensures LedgerHolds(lib, Store(s.db, s1.cache), RolledBack(h, h1, s1.cache))
  {
    var g := RolledBack(h, h1, s1.cache);
    assert g.credited == h.credited && g.sent == h.sent && g.revised == h.revised;
    assert s1.cache.None? ==> g.dirty == [];
    SameBounded(h, g);
    hide RevisedOwned, Balanced, Bounded, RolledBack;
    forall k | k in s.db
      ensures Balanced(s.db[k], g.credited, g)
    {
      SameSent(s.db[k], h.credited, h, g);
    }
    SameShape(lib, s, s1);
  }

  lemma SameBounded(h: History, g: History)
    requires Bounded(h) && g.credited == h.credited && g.sent == h.sent && g.revised == h.revised
    ensures Bounded(g)
  {
    assert forall adr :: Taken(g, adr) == Taken(h, adr) && Raised(g, adr) == Raised(h, adr);
  }

  lemma SameShape(lib: Library, s: Store, s1: Store)
    requires Valid(lib, s) && Valid(lib, s1) && SameAccounts(s.db, s1.db)
    ensures Valid(lib, Store(s.db, s1.cache))
  {
  }

  lemma RollbackBalanced(c: Acct, h: History, h1: History)
    requires h.credited <= h1.credited && h1.sent == h.sent && h1.revised == h.revised
    requires Balanced(c, h1.credited + h1.dirty, h1)
    ensures var g := RolledBack(h, h1, Some(c)); Balanced(c, g.credited + g.dirty, g)
  {
    var g := RolledBack(h, h1, Some(c));
    forall i | 0 <= i < |c.bals|
      ensures SumBy(g.credited + g.dirty, PostedAt(c.bals[i].address)) ==
              SumBy(h1.credited + h1.dirty, PostedAt(c.bals[i].address))
    {
      RollbackSum(c, h, h1, i);
    }
    assert forall adr :: Net(g, adr) == Net(h1, adr);
  }

  lemma RollbackSum(c: Acct, h: History, h1: History, i: nat)
    requires h.credited <= h1.credited && i < |c.bals|
    ensures var g, adr := RolledBack(h, h1, Some(c)), c.bals[i].address;
            SumBy(g.credited + g.dirty, PostedAt(adr)) == SumBy(h1.credited + h1.dirty, PostedAt(adr))
  {
    var adr, more := c.bals[i].address, h1.credited[|h.credited|..];
    var mine := Concerning(more, c);
    ConcerningExact(more, c);
    assert Has(c, adr);
    assert h1.credited == h.credited + more;
    SumConcat(h.credited, more, PostedAt(adr));
    SumConcat(h1.credited, h1.dirty, PostedAt(adr));
    SumConcat(mine, h1.dirty, PostedAt(adr));
    SumConcat(h.credited, mine + h1.dirty, PostedAt(adr));
  }

  // ---- refresh ----

  lemma ValueAt(lib: Library, db: map<Key, Acct>, k: Key, i: nat)
    requires Injective(lib) && ValidDb(lib, db) && k in db && i < |db[k].bals|
    ensures ValueIn(db, db[k].bals[i].address) == db[k].bals[i].value
  {
    AlignedIndex(lib, db[k].seed, db[k].bals, i);
    OwnerUnique(lib, db, k, db[k].bals[i].address);
  }

  lemma OwnerSame(x: map<Key, Acct>, y: map<Key, Acct>, adr: Address)
    requires SameAccounts(x, y)
    ensures Owner(x, adr).Some? <==> Owner(y, adr).Some?
  {
    forall k | k in x
      ensures Has(x[k], adr) <==> Has(y[k], adr)
    {
      IndexOfSame(x[k].bals, y[k].bals, adr);
    }
  }

  lemma SameAccountsValid(lib: Library, x: map<Key, Acct>, y: map<Key, Acct>)
    requires ValidDb(lib, x) && SameAccounts(x, y)
    ensures ValidDb(lib, y)
  {
    forall k | k in y
      ensures Aligned(lib, y[k].seed, y[k].bals)
    {
      AlignedSame(lib, x[k].seed, x[k].bals, y[k].bals);
    }
  }

  lemma RevisedMore(h: History, r: Revision, adr: Address)
    ensures var g := h.(dirty := [], revised := h.revised + [r]);
            && Net(g, adr) == Net(h, adr) - DeltaAt(adr)(r) && Taken(g, adr) == Taken(h, adr)
            && Raised(g, adr) >= Raised(h, adr)
  {
    SumAppend(h.revised, r, DeltaAt(adr));
    SumAppend(h.revised, r, RaiseAt(adr));
  }

  lemma RefreshBalanced(lib: Library, s: Store, h: History, db: map<Key, Acct>, k: Key)
    requires Valid(lib, s) && BalancedDb(s.db, h) && SameAccounts(s.db, db) && ValidDb(lib, db) && k in db
    ensures Balanced(db[k], h.credited, h.(dirty := [], revised := h.revised + [Revision(s.db, db)]))
  {
    var r := Revision(s.db, db);
    var g := h.(dirty := [], revised := h.revised + [r]);
    assert Balanced(s.db[k], h.credited, h);
    forall i | 0 <= i < |db[k].bals|
      ensures db[k].bals[i].value ==
              SumBy(h.credited, PostedAt(db[k].bals[i].address)) - Net(g, db[k].bals[i].address)
    {
      var adr := db[k].bals[i].address;
      assert s.db[k].bals[i].address == adr;
      RevisedMore(h, r, adr);
      ValueAt(lib, db, k, i);
      ValueAt(lib, s.db, k, i);
      hide Net, ValueIn, SumBy;
    }
  }

  /** A refresh keeps the ledger, what it changed being recorded. */
  lemma LedgerRefresh(lib: Library, s: Store, h: History, db: map<Key, Acct>, c: Option<Acct>)
    requires LedgerHolds(lib, s, h) && SameAccounts(s.db, db)
    requires c.Some? ==> exists k :: k in db && db[k] == c.value
    ensures LedgerHolds(lib, Store(db, c), h.(dirty := [], revised := h.revised + [Revision(s.db, db)]))
  {
    var r := Revision(s.db, db);
    var g := h.(dirty := [], revised := h.revised + [r]);
    SameAccountsValid(lib, s.db, db);
    RefreshBounded(h, r);
    RefreshCovered(s, h, db, c);
    hide Balanced, Bounded, Covered, ValidDb;
    forall k | k in db
      ensures Balanced(db[k], h.credited, g)
    {
      RefreshBalanced(lib, s, h, db, k);
    }
    assert g.credited + g.dirty == g.credited;
    if c.Some? {
      StoredCached(lib, db, c.value);
    }
  }

  lemma StoredCached(lib: Library, db: map<Key, Acct>, c: Acct)
    requires ValidDb(lib, db) && exists k :: k in db && db[k] == c
    ensures ValidCache(db, c)
  {
  }

  lemma RefreshBounded(h: History, r: Revision)
    requires Bounded(h)
    ensures Bounded(h.(dirty := [], revised := h.revised + [r]))
  {
    var g := h.(dirty := [], revised := h.revised + [r]);
    forall adr
      ensures Taken(g, adr) <= SumBy(g.credited, GainAt(adr)) + Raised(g, adr)
    {
      RevisedMore(h, r, adr);
    }
  }

  lemma RefreshCovered(s: Store, h: History, db: map<Key, Acct>, c: Option<Acct>)
    requires Covered(s, h) && SameAccounts(s.db, db)
    ensures Covered(Store(db, c), h.(dirty := [], revised := h.revised + [Revision(s.db, db)]))
  {
    forall adr
      ensures Owner(s.db, adr).Some? <==> Owner(db, adr).Some?
    {
      OwnerSame(s.db, db, adr);
    }
    hide Owner;
  }
}
