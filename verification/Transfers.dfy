/** aidos/transfer.go, the synchronous part: coin selection, signing and rollback. */
module Transfers {
  import opened Gadk
  import opened Sums
  import opened Accounts

  datatype Error = NoError | NotEnoughBalance | InsufficientBalance | NoChangeAddress | CannotFindAddress

  function TransferValue(): Transfer -> int {
    (t: Transfer) => t.value
  }

  function Total(trs: seq<Transfer>): int {
    SumBy(trs, TransferValue())
  }

  function OutFlows(trs: seq<Transfer>): seq<Flow> {
    seq(|trs|, i requires 0 <= i < |trs| => Flow(trs[i].address, trs[i].value))
  }

  /** Every positive balance, in order, leaves as an input followed by an entry without value. */
  function InFlows(bs: seq<Balance>): seq<Flow> {
    if bs == [] then []
    else
      var b := bs[|bs| - 1];
      InFlows(bs[..|bs| - 1]) + if b.value > 0 then InputFlows(b) else []
  }

  /** The balances after the positive ones among the first k have been taken. */
  function Drained(bs: seq<Balance>, k: nat): seq<Balance> {
    seq(|bs|, i requires 0 <= i < |bs| =>
      if i < k && bs[i].value > 0 then bs[i].(value := 0) else bs[i])
  }

  ghost function CoverFrom(bs: seq<Balance>, total: int, i: nat): (k: nat)
    requires i <= |bs| && SumBy(bs, Spendable()) >= total
    requires forall j :: 0 <= j < i ==> SumBy(bs[..j], Spendable()) < total
    ensures k <= |bs| && SumBy(bs[..k], Spendable()) >= total
    ensures forall j :: 0 <= j < k ==> SumBy(bs[..j], Spendable()) < total
    decreases |bs| - i
  {
    assert bs[..|bs|] == bs;
    if SumBy(bs[..i], Spendable()) >= total then i else CoverFrom(bs, total, i + 1)
  }

  /** The length of the shortest prefix whose positive balances cover the total. */
  ghost function Cover(bs: seq<Balance>, total: int): (k: nat)
    requires SumBy(bs, Spendable()) >= total
    ensures k <= |bs| && SumBy(bs[..k], Spendable()) >= total
    ensures forall j :: 0 <= j < k ==> SumBy(bs[..j], Spendable()) < total
  {
    CoverFrom(bs, total, 0)
  }

  lemma CoverUnique(bs: seq<Balance>, total: int, k: nat)
    requires k <= |bs| && SumBy(bs[..k], Spendable()) >= total
    requires forall j :: 0 <= j < k ==> SumBy(bs[..j], Spendable()) < total
    requires SumBy(bs, Spendable()) >= total
    ensures Cover(bs, total) == k
  {
  }

  /** What a shortest covering prefix holds beyond the total. */
  ghost function Excess(bs: seq<Balance>, total: int): (r: int)
    requires SumBy(bs, Spendable()) >= total
    ensures r >= 0
  {
    SumBy(bs[..Cover(bs, total)], Spendable()) - total
  }

  /** The account after a transfer of the total, None when the transfer fails. */
  ghost function Spent(lib: Library, a: Acct, total: int): Option<Acct> {
    if total <= 0 then Some(a)
    else if SumBy(a.bals, Spendable()) < total then None
    else
      var rest := Drained(a.bals, Cover(a.bals, total));
      var excess := Excess(a.bals, total);
      if excess == 0 then Some(a.(bals := rest))
      else
        var adr := lib.newAddress(a.seed, |a.bals|);
        if adr.None? then None else Some(a.(bals := rest + [Balance(adr.value, 0, excess)]))
  }

  /** The entry pays the transfer: address, value and tag, with the time the clock gave. */
  ghost predicate PaysOut(t: Transaction, tr: Transfer, time: int) {
    t.address == tr.address && t.value == tr.value && t.tag == tr.tag && t.timestamp == time
  }

  /** Entry i has no tag; it has the time the clock gave for it, or shares the time of the input
      whose second half it is. */
  ghost predicate UntaggedAt(b: seq<Transaction>, from: nat, i: nat, clock: nat -> int)
    requires from <= i < |b|
  {
    && b[i].tag == EMPTY_HASH
    && (b[i].timestamp == clock(i) ||
        (i > from && b[i - 1].value < 0 && b[i].value == 0 && b[i].timestamp == b[i - 1].timestamp == clock(i - 1)))
  }

  ghost predicate Untagged(b: seq<Transaction>, from: nat, clock: nat -> int) {
    forall i: nat :: from <= i < |b| ==> UntaggedAt(b, from, i, clock)
  }

  /** One entry per transfer, in request order; what follows has no tag. */
  ghost predicate Labelled(trs: seq<Transfer>, clock: nat -> int, b: seq<Transaction>) {
    && |trs| <= |b|
    && (forall i :: 0 <= i < |trs| ==> PaysOut(b[i], trs[i], clock(i)))
    && Untagged(b, |trs|, clock)
  }

  lemma LabelsInEssence(trs: seq<Transfer>, clock: nat -> int, b: seq<Transaction>, c: seq<Transaction>)
    requires Labelled(trs, clock, b)
    requires |b| == |c| && forall i :: 0 <= i < |b| ==> EssenceOf(b[i]) == EssenceOf(c[i])
    ensures Labelled(trs, clock, c)
  {
    forall i | 0 <= i < |c|
      ensures c[i].value == b[i].value && c[i].tag == b[i].tag && c[i].timestamp == b[i].timestamp
      ensures c[i].address == b[i].address
    {
      assert EssenceOf(b[i]) == EssenceOf(c[i]);
    }
    forall i: nat | |trs| <= i < |c|
      ensures UntaggedAt(c, |trs|, i, clock)
    {
      assert UntaggedAt(b, |trs|, i, clock) && EssenceOf(b[i]) == EssenceOf(c[i]);
      assert i > |trs| ==> EssenceOf(b[i - 1]) == EssenceOf(c[i - 1]);
    }
  }

  lemma NothingAdded(b: seq<Transaction>, clock: nat -> int)
    ensures Untagged(b, |b|, clock)
  {
  }

  lemma UntaggedMore(b: seq<Transaction>, from: nat, n: nat, a: Address, v: int, clock: nat -> int)
    requires from <= |b| && Untagged(b, from, clock) && (n == 1 || (n == 2 && v < 0))
    ensures Untagged(Add(b, n, a, v, clock(|b|), EMPTY_HASH), from, clock)
  {
    var c := Add(b, n, a, v, clock(|b|), EMPTY_HASH);
    forall i: nat | from <= i < |c|
      ensures UntaggedAt(c, from, i, clock)
    {
      if i < |b| {
        assert UntaggedAt(b, from, i, clock) && c[i] == b[i] && (i > from ==> c[i - 1] == b[i - 1]);
      } else if i == |b| + 1 {
        assert c[i - 1].timestamp == clock(|b|) && c[i - 1].value == v;
      }
    }
  }

  method AddOutputs(trs: seq<Transfer>, clock: nat -> int)
      returns (bundle: seq<Transaction>, frags: seq<Trytes>, total: int)
    requires forall t :: t in trs ==> |t.message| <= SIG_SIZE
    ensures Flows(bundle) == OutFlows(trs)
    ensures |bundle| == |trs| && forall i :: 0 <= i < |trs| ==> PaysOut(bundle[i], trs[i], clock(i))
    ensures |frags| == |trs| && forall i :: 0 <= i < |trs| ==> frags[i] == trs[i].message
    ensures total == Total(trs)
  {
    hide Flows, OutFlows, SumBy;
    bundle, frags, total := [], [], 0;
    NoOutputs();
    for i := 0 to |trs|
      invariant Flows(bundle) == OutFlows(trs[..i])
      invariant |bundle| == i && forall j :: 0 <= j < i ==> PaysOut(bundle[j], trs[j], clock(j))
      invariant |frags| == i && forall j :: 0 <= j < i ==> frags[j] == trs[j].message
      invariant total == Total(trs[..i])
    {
      var tr := trs[i];
      frags := frags + [tr.message];
      ghost var b := bundle;
      bundle := Add(bundle, 1, tr.address, tr.value, clock(|bundle|), tr.tag);
      total := total + tr.value;
      OutputsStep(trs, i, b, clock(|b|));
      SumPrefix(trs, i, TransferValue());
    }
    assert trs[..|trs|] == trs;
  }

  lemma NoOutputs()
    ensures Flows([]) == OutFlows([]) && Total([]) == 0
  {
  }

  lemma OutputsStep(trs: seq<Transfer>, i: nat, b: seq<Transaction>, time: int)
    requires i < |trs| && Flows(b) == OutFlows(trs[..i])
    ensures Flows(Add(b, 1, trs[i].address, trs[i].value, time, trs[i].tag)) == OutFlows(trs[..i + 1])
  {
    var f := Flow(trs[i].address, trs[i].value);
    assert Flows(Add(b, 1, trs[i].address, trs[i].value, time, trs[i].tag)) == Flows(b) + [f];
    assert OutFlows(trs[..i + 1]) == OutFlows(trs[..i]) + [f];
  }

  lemma FlowsAddOne(b: seq<Transaction>, from: nat, a: Address, v: int, time: int, tag: Trytes)
    requires from <= |b|
    ensures Flows(Add(b, 1, a, v, time, tag)[from..]) == Flows(b[from..]) + [Flow(a, v)]
  {
  }

  lemma FlowsAddInput(b: seq<Transaction>, from: nat, bal: Balance, time: int, tag: Trytes)
    requires from <= |b|
    ensures Flows(Add(b, 2, bal.address, -bal.value, time, tag)[from..]) == Flows(b[from..]) + InputFlows(bal)
  {
  }

  lemma InFlowsStep(bs: seq<Balance>, i: nat)
    requires i < |bs|
    ensures InFlows(bs[..i + 1]) == InFlows(bs[..i]) +
            if bs[i].value > 0 then InputFlows(bs[i]) else []
  {
    assert bs[..i + 1][..i] == bs[..i];
  }

  /** The entry that returns the excess to the account, if there is one. */
  ghost function ChangeFlow(lib: Library, a: Acct, total: int): seq<Flow>
    requires SumBy(a.bals, Spendable()) >= total
  {
    var excess := Excess(a.bals, total);
    var adr := lib.newAddress(a.seed, |a.bals|);
    if excess > 0 && adr.Some? then [Flow(adr.value, excess)] else []
  }

  /** Inputs and change of a transfer of the total from the account. */
  ghost function FundingFlows(lib: Library, a: Acct, total: int): seq<Flow>
    requires SumBy(a.bals, Spendable()) >= total
  {
    InFlows(a.bals[..Cover(a.bals, total)]) + ChangeFlow(lib, a, total)
  }

  /** The state of the selection before balance i: the first i are used up and do not suffice. */
  ghost predicate Selecting(a: Acct, total: int, i: nat, bals: seq<Balance>, left: int, flows: seq<Flow>) {
    && i <= |a.bals|
    && bals == Drained(a.bals, i)
    && left == total - SumBy(a.bals[..i], Spendable()) > 0
    && (forall j :: 0 <= j <= i ==> SumBy(a.bals[..j], Spendable()) < total)
    && flows == InFlows(a.bals[..i])
  }

  lemma SelectStart(a: Acct, total: int)
    requires total > 0
    ensures Selecting(a, total, 0, a.bals, total, [])
  {
  }

  /** Running out of balances means the account did not hold the total. */
  lemma SelectNone(lib: Library, a: Acct, total: int, bals: seq<Balance>, left: int, flows: seq<Flow>)
    requires Selecting(a, total, |a.bals|, bals, left, flows)
    ensures forall x, f :: Remainder(lib, a, total, x, f, false, NoError)
  {
    assert a.bals[..|a.bals|] == a.bals;
  }

  lemma SelectStep(a: Acct, total: int, i: nat, bals: seq<Balance>, left: int, flows: seq<Flow>)
    requires Selecting(a, total, i, bals, left, flows) && i < |a.bals|
    ensures bals[i] == a.bals[i]
    ensures bals[i].value <= 0 ==> Selecting(a, total, i + 1, bals, left, flows)
    ensures 0 < bals[i].value < left ==>
              Selecting(a, total, i + 1, DrainOne(bals, i), left - bals[i].value, flows + InputFlows(bals[i]))
  {
    SumPrefix(a.bals, i, Spendable());
    InFlowsStep(a.bals, i);
    assert bals[i].value > 0 ==> DrainOne(bals, i) == Drained(a.bals, i + 1);
    assert bals[i].value <= 0 ==> bals == Drained(a.bals, i + 1);
  }

  /** The outcome of the selection: success, or why there is none. */
  ghost predicate Remainder(lib: Library, a: Acct, total: int, after: Acct, funding: seq<Flow>,
        sufficient: bool, err: Error)
  {
    if SumBy(a.bals, Spendable()) < total then !sufficient && err == NoError
    else if Spent(lib, a, total).None? then !sufficient && err == NoChangeAddress
    else
      && sufficient && err == NoError
      && Spent(lib, a, total) == Some(after)
      && funding == FundingFlows(lib, a, total)
  }

  /** The first balance that reaches what is left settles the outcome. */
  lemma SelectLast(lib: Library, a: Acct, total: int, i: nat, bals: seq<Balance>, left: int, flows: seq<Flow>)
    requires total > 0 && Selecting(a, total, i, bals, left, flows) && i < |a.bals|
    requires bals[i].value >= left
    ensures var rest, funding := DrainOne(bals, i), flows + InputFlows(bals[i]);
            var excess := bals[i].value - left;
            var adr := lib.newAddress(a.seed, |a.bals|);
            if excess == 0 then Remainder(lib, a, total, a.(bals := rest), funding, true, NoError)
            else if adr.None? then forall x, f :: Remainder(lib, a, total, x, f, false, NoChangeAddress)
            else Remainder(lib, a, total, a.(bals := rest + [Balance(adr.value, 0, excess)]),
                           funding + [Flow(adr.value, excess)], true, NoError)
  {
    SumPrefix(a.bals, i, Spendable());
    InFlowsStep(a.bals, i);
    SpendableMonotone(a.bals, i + 1);
    CoverUnique(a.bals, total, i + 1);
    assert DrainOne(bals, i) == Drained(a.bals, i + 1);
    assert flows + InputFlows(bals[i]) + [] == flows + InputFlows(bals[i]);
  }

  function InputFlows(b: Balance): seq<Flow> {
    [Flow(b.address, -b.value), Flow(b.address, 0)]
  }

  function DrainOne(bals: seq<Balance>, i: nat): seq<Balance>
    requires i < |bals|
  {
    bals[i := bals[i].(value := 0)]
  }

  /** Selects inputs for a positive total.  The balances change while the bundle grows. */
  method AddRemainder(lib: Library, bundle0: seq<Transaction>, ac: Account, total0: int, clock: nat -> int)
      returns (bundle: seq<Transaction>, sufficient: bool, err: Error)
    requires total0 > 0
    modifies ac`balances
    ensures bundle0 <= bundle && Untagged(bundle, |bundle0|, clock)
    ensures Remainder(lib, old(ac.View()), total0, ac.View(), Flows(bundle[|bundle0|..]), sufficient, err)
  {
    hide Selecting, Remainder, Untagged;
    NothingAdded(bundle0, clock);
    ghost var a := ac.View();
    bundle, sufficient, err := bundle0, false, NoError;
    var total := total0;
    SelectStart(a, total0);
    assert Flows(bundle[|bundle0|..]) == [];
    var i := 0;
    var n := |ac.balances|;
    while i < n
      invariant 0 <= i <= n == |a.bals| == |ac.balances|
      invariant bundle0 <= bundle && Untagged(bundle, |bundle0|, clock)
      invariant Selecting(a, total0, i, ac.balances, total, Flows(bundle[|bundle0|..]))
    {
      ghost var flows := Flows(bundle[|bundle0|..]);
      var bal := ac.balances[i];
      var value := bal.value;
      SelectStep(a, total0, i, ac.balances, total, flows);
      if value > 0 {
        FlowsAddInput(bundle, |bundle0|, bal, clock(|bundle|), EMPTY_HASH);
        UntaggedMore(bundle, |bundle0|, 2, bal.address, -value, clock);
        bundle := Add(bundle, 2, bal.address, -value, clock(|bundle|), EMPTY_HASH);
        var remain := value - total;
        if remain >= 0 {
          SelectLast(lib, a, total0, i, ac.balances, total, flows);
        }
        ac.balances := ac.balances[i := bal.(value := bal.value - value)];
        if remain > 0 {
          var adr := lib.newAddress(ac.seed, |ac.balances|);
          if adr.None? {
            return bundle, false, NoChangeAddress;
          }
          ac.balances := ac.balances + [Balance(adr.value, 0, remain)];
          FlowsAddOne(bundle, |bundle0|, adr.value, remain, clock(|bundle|), EMPTY_HASH);
          UntaggedMore(bundle, |bundle0|, 1, adr.value, remain, clock);
          bundle := Add(bundle, 1, adr.value, remain, clock(|bundle|), EMPTY_HASH);
          return bundle, true, NoError;
        }
        total := total - value;
        if total == 0 {
          return bundle, true, NoError;
        }
      }
      i := i + 1;
    }
    SelectNone(lib, a, total0, ac.balances, total, Flows(bundle[|bundle0|..]));
  }

  lemma SpendableMonotone(bs: seq<Balance>, i: nat)
    requires i <= |bs|
    ensures SumBy(bs[..i], Spendable()) <= SumBy(bs, Spendable())
  {
    assert bs == bs[..i] + bs[i..];
    SumConcat(bs[..i], bs[i..], Spendable());
    var zero := (b: Balance) => 0;
    SumAtMost(bs[i..], zero, Spendable());
    SumZero(bs[i..], zero);
  }

  // ---- signing ----

  /** The first entry that holds the address, or -1. */
  function FirstOf(bs: seq<Balance>, adr: Address): (r: int)
    ensures -1 <= r < |bs|
    ensures r >= 0 ==> bs[r].address == adr
    ensures r == -1 ==> forall j :: 0 <= j < |bs| ==> bs[j].address != adr
    ensures forall j :: 0 <= j < r ==> bs[j].address != adr
  {
    if bs == [] then -1
    else
      var r := FirstOf(bs[..|bs| - 1], adr);
      if r >= 0 then r
      else if bs[|bs| - 1].address == adr then |bs| - 1
      else -1
  }

  /** Entry i carries the second part of the signature of entry i - 1. */
  predicate Follower(b: seq<Transaction>, i: nat) {
    0 < i < |b| && b[i - 1].value < 0 && b[i].value == 0 && b[i].address == b[i - 1].address
  }

  ghost function SignedFrag(lib: Library, a: Acct, b: seq<Transaction>, i: nat): Trytes
    requires Shaped(lib) && i < |b|
  {
    var h := BundleHash(lib, b);
    if b[i].value < 0 && FirstOf(a.bals, b[i].address) >= 0 then
      Signature(lib, a.seed, FirstOf(a.bals, b[i].address), h, 0)
    else if Follower(b, i) && FirstOf(a.bals, b[i].address) >= 0 then
      Signature(lib, a.seed, FirstOf(a.bals, b[i].address), h, 1)
    else b[i].frag
  }

  ghost function Signed(lib: Library, a: Acct, b: seq<Transaction>): seq<Transaction>
    requires Shaped(lib)
  {
    seq(|b|, i requires 0 <= i < |b| => b[i].(frag := SignedFrag(lib, a, b, i)))
  }

  /** The negative entries of the bundle belong to the account. */
  ghost predicate InputsOwned(a: Acct, b: seq<Transaction>) {
    forall i :: 0 <= i < |b| && b[i].value < 0 ==> FirstOf(a.bals, b[i].address) >= 0
  }

  method SignInputs(lib: Library, ac: Account, bundle: array<Transaction>) returns (ok: bool)
    requires Shaped(lib)
    requires forall i :: 0 <= i < bundle.Length && bundle[i].value < 0 ==> i + 1 < bundle.Length
    modifies bundle
    ensures ok <==> InputsOwned(ac.View(), old(bundle[..]))
    ensures ok ==> bundle[..] == Signed(lib, ac.View(), old(bundle[..]))
  {
    ghost var b, a := bundle[..], ac.View();
    var nHash := lib.normalize(BundleHash(lib, bundle[..]));
    for i := 0 to bundle.Length
      invariant forall j :: 0 <= j < bundle.Length ==>
                  bundle[j] == if j < i || (j == i && Follower(b, j))
                               then b[j].(frag := SignedFrag(lib, a, b, j)) else b[j]
      invariant InputsOwned(a, b[..i])
    {
      var bd := bundle[i];
      if bd.value < 0 {
        var index := -1;
        for k := 0 to |ac.balances|
          invariant index == -1
          invariant forall j :: 0 <= j < k ==> ac.balances[j].address != bd.address
        {
          if ac.balances[k].address == bd.address {
            index := k;
            break;
          }
        }
        assert index == FirstOf(a.bals, bd.address);
        if index == -1 {
          assert b[i].value < 0;
          return false;
        }
        var key := lib.newKey(ac.seed, index);
        bundle[i] := bundle[i].(frag := lib.sign(nHash[..HASH_PART], key[..SIG_SIZE]));
        if bundle[i + 1].address == bd.address && bundle[i + 1].value == 0 {
          var nfrag := lib.sign(nHash[HASH_PART..HASH_PART * 2], key[SIG_SIZE..2 * SIG_SIZE]);
          bundle[i + 1] := bundle[i + 1].(frag := nfrag);
        }
      }
    }
    assert b[..bundle.Length] == b;
    return true;
  }

  /** Every input is followed by its second part, and the two verify for its address. */
  ghost predicate InputsSigned(lib: Library, b: seq<Transaction>) {
    forall i :: 0 <= i < |b| && b[i].value < 0 ==>
      Follower(b, i + 1) && lib.verify(b[i].address, lib.normalize(b[i].bundle), b[i].frag, b[i + 1].frag)
  }

  lemma SignedEssence(lib: Library, a: Acct, b: seq<Transaction>)
    requires Shaped(lib)
    ensures BundleHash(lib, Signed(lib, a, b)) == BundleHash(lib, b)
    ensures Flows(Signed(lib, a, b)) == Flows(b)
    ensures |Signed(lib, a, b)| == |b|
    ensures forall i :: 0 <= i < |b| ==> EssenceOf(Signed(lib, a, b)[i]) == EssenceOf(b[i])
  {
    assert Essences(Signed(lib, a, b)) == Essences(b);
  }

  /** Signing with an aligned account yields signatures that verify. */
  lemma SignedVerifies(lib: Library, a: Acct, b: seq<Transaction>)
    requires Lawful(lib) && Aligned(lib, a.seed, a.bals) && InputsOwned(a, b)
    requires forall i :: 0 <= i < |b| ==> b[i].bundle == BundleHash(lib, b)
    requires forall i :: 0 <= i < |b| && b[i].value < 0 ==> Follower(b, i + 1)
    ensures InputsSigned(lib, Signed(lib, a, b))
  {
    var s := Signed(lib, a, b);
    forall i | 0 <= i < |s| && s[i].value < 0
      ensures Follower(s, i + 1)
      ensures lib.verify(s[i].address, lib.normalize(s[i].bundle), s[i].frag, s[i + 1].frag)
    {
      assert Follower(b, i + 1);
      var k := FirstOf(a.bals, b[i].address);
      assert lib.newAddress(a.seed, k) == Some(b[i].address);
    }
  }

  // ---- the prepared bundle ----

  ghost predicate NonNegative(trs: seq<Transfer>) {
    forall t :: t in trs ==> t.value >= 0
  }

  /** Outputs in request order, then inputs and change when tokens move. */
  ghost function BundleFlows(lib: Library, a: Acct, trs: seq<Transfer>): seq<Flow>
    requires Total(trs) > 0 ==> SumBy(a.bals, Spendable()) >= Total(trs)
  {
    OutFlows(trs) + if Total(trs) > 0 then FundingFlows(lib, a, Total(trs)) else []
  }

  ghost predicate Stamped(lib: Library, b: seq<Transaction>) {
    forall i :: 0 <= i < |b| ==>
      b[i].bundle == BundleHash(lib, b) && b[i].currentIndex == i && b[i].lastIndex == |b| - 1
  }

  /** What PrepareTransfers hands to the proof of work. */
  ghost predicate Prepared(lib: Library, a: Acct, trs: seq<Transfer>, clock: nat -> int, b: seq<Transaction>)
    requires Total(trs) > 0 ==> SumBy(a.bals, Spendable()) >= Total(trs)
  {
    && Flows(b) == BundleFlows(lib, a, trs)
    && Labelled(trs, clock, b)
    && Stamped(lib, b)
    && (NonNegative(trs) ==>
          && InputsSigned(lib, b)
          && forall i :: 0 <= i < |trs| ==> b[i].frag == trs[i].message)
  }

  /** Every negative flow is followed by its empty second half. */
  ghost predicate Paired(f: seq<Flow>) {
    forall i :: 0 <= i < |f| && f[i].value < 0 ==> i + 1 < |f| && f[i + 1] == Flow(f[i].address, 0)
  }

  lemma {:induction false} InFlowsPaired(bs: seq<Balance>)
    ensures Paired(InFlows(bs))
  {
    if bs == [] {
    } else {
      InFlowsPaired(bs[..|bs| - 1]);
    }
  }

  lemma {:induction false} InFlowsSourced(bs: seq<Balance>, k: nat)
    requires k <= |bs|
    ensures Sourced(InFlows(bs[..k]), bs)
  {
    if k == 0 {
    } else {
      InFlowsSourced(bs, k - 1);
      InFlowsStep(bs, k - 1);
    }
  }

  lemma {:induction false} InFlowsSum(bs: seq<Balance>)
    ensures SumBy(InFlows(bs), FlowValue()) == -SumBy(bs, Spendable())
  {
    if bs == [] {
    } else {
      var init, b := bs[..|bs| - 1], bs[|bs| - 1];
      InFlowsSum(init);
      if b.value > 0 {
        assert InFlows(bs) == (InFlows(init) + [Flow(b.address, -b.value)]) + [Flow(b.address, 0)];
        SumAppend(InFlows(init) + [Flow(b.address, -b.value)], Flow(b.address, 0), FlowValue());
        SumAppend(InFlows(init), Flow(b.address, -b.value), FlowValue());
      } else {
        assert InFlows(bs) == InFlows(init);
      }
    }
  }

  /** Every negative flow leaves one of the balances. */
  ghost predicate Sourced(f: seq<Flow>, bs: seq<Balance>) {
    forall i :: 0 <= i < |f| && f[i].value < 0 ==> FirstOf(bs, f[i].address) >= 0
  }

  lemma FundingPaired(lib: Library, a: Acct, total: int)
    requires total > 0 && Spent(lib, a, total).Some?
    ensures Paired(FundingFlows(lib, a, total)) && Sourced(FundingFlows(lib, a, total), a.bals)
  {
    var k := Cover(a.bals, total);
    InFlowsPaired(a.bals[..k]);
    InFlowsSourced(a.bals, k);
  }

  /** Inputs and change balance the outputs. */
  lemma FundingSum(lib: Library, a: Acct, total: int)
    requires total > 0 && Spent(lib, a, total).Some?
    ensures SumBy(FundingFlows(lib, a, total), FlowValue()) == -total
    ensures FundingFlows(lib, a, total) != []
  {
    var k := Cover(a.bals, total);
    var inputs, change := InFlows(a.bals[..k]), ChangeFlow(lib, a, total);
    InFlowsSum(a.bals[..k]);
    if change == [] {
      assert inputs + change == inputs;
    } else {
      SumAppend(inputs, change[0], FlowValue());
    }
  }

  /** A successful value transfer moves nothing in or out of the bundle. */
  lemma ZeroSum(lib: Library, a: Acct, trs: seq<Transfer>, clock: nat -> int, b: seq<Transaction>)
    requires Total(trs) > 0 && Spent(lib, a, Total(trs)).Some?
    requires Prepared(lib, a, trs, clock, b)
    ensures SumBy(b, TxValue()) == 0
  {
    FundingSum(lib, a, Total(trs));
    SumConcat(OutFlows(trs), FundingFlows(lib, a, Total(trs)), FlowValue());
    SumCongruent(trs, TransferValue(), OutFlows(trs), FlowValue());
    SumCongruent(b, TxValue(), Flows(b), FlowValue());
  }

  // ---- what a prepared bundle holds, entry by entry ----

  function ValueOf(bs: seq<Balance>): int -> int {
    (i: int) => if 0 <= i < |bs| then bs[i].value else 0
  }

  /** The positive balances among the first k. */
  ghost function Used(bs: seq<Balance>, k: nat): seq<int>
    requires k <= |bs|
  {
    if k == 0 then [] else Used(bs, k - 1) + if bs[k - 1].value > 0 then [k - 1] else []
  }

  ghost predicate Increasing(s: seq<int>) {
    forall m, n :: 0 <= m < n < |s| ==> s[m] < s[n]
  }

  lemma {:induction false} UsedExact(bs: seq<Balance>, k: nat)
    requires k <= |bs|
    ensures forall i :: i in Used(bs, k) <==> 0 <= i < k && bs[i].value > 0
    ensures Increasing(Used(bs, k))
  {
    if k == 0 {
    } else {
      UsedExact(bs, k - 1);
      var before := Used(bs, k - 1);
      assert forall m :: 0 <= m < |before| ==> before[m] in before;
    }
  }

  lemma {:induction false} UsedSum(bs: seq<Balance>, k: nat)
    requires k <= |bs|
    ensures SumBy(Used(bs, k), ValueOf(bs)) == SumBy(bs[..k], Spendable())
  {
    if k == 0 {
    } else {
      hide SumBy;
      UsedSum(bs, k - 1);
      SumPrefix(bs, k - 1, Spendable());
      var before := Used(bs, k - 1);
      if bs[k - 1].value > 0 {
        SumAppend(before, k - 1, ValueOf(bs));
      } else {
        assert Used(bs, k) == before;
      }
    }
  }

  /** The two flows of each balance taken. */
  ghost predicate Inputs(bs: seq<Balance>, used: seq<int>, ins: seq<Flow>) {
    && |ins| == 2 * |used|
    && forall m :: 0 <= m < |used| ==>
         && 0 <= used[m] < |bs| && ins[2 * m] == Flow(bs[used[m]].address, -bs[used[m]].value)
         && ins[2 * m + 1] == Flow(bs[used[m]].address, 0)
  }

  lemma {:induction false} UsedFlows(bs: seq<Balance>, k: nat)
    requires k <= |bs|
    ensures Inputs(bs, Used(bs, k), InFlows(bs[..k]))
  {
    if k == 0 {
    } else {
      UsedFlows(bs, k - 1);
      InFlowsStep(bs, k - 1);
      var f, u := InFlows(bs[..k - 1]), Used(bs, k - 1);
      assert f + [] == f && u + [] == u;
      var x := if bs[k - 1].value > 0 then [k - 1] else [];
      assert Used(bs, k) == u + x;
      hide InFlows, Used, Inputs;
      if bs[k - 1].value > 0 {
        OneMoreInput(bs, u, f, k - 1);
      }
    }
  }

  lemma OneMoreInput(bs: seq<Balance>, used: seq<int>, ins: seq<Flow>, j: nat)
    requires Inputs(bs, used, ins) && j < |bs|
    ensures Inputs(bs, used + [j], ins + InputFlows(bs[j]))
  {
  }

  /** Of a bundle that moves tokens: `used` are the positions of the balances taken, the positive
      ones up to the first with which they cover the total. */
  ghost predicate Taking(bs: seq<Balance>, total: int, used: seq<int>) {
    && used != []
    && Increasing(used)
    && (forall m :: 0 <= m < |used| ==> 0 <= used[m] < |bs| && bs[used[m]].value > 0)
    && (forall j :: 0 <= j < used[|used| - 1] && bs[j].value > 0 ==> j in used)
    && SumBy(used, ValueOf(bs)) - bs[used[|used| - 1]].value < total <= SumBy(used, ValueOf(bs))
  }

  lemma CoverLast(bs: seq<Balance>, total: int)
    requires total > 0 && SumBy(bs, Spendable()) >= total
    ensures var k := Cover(bs, total);
            && k > 0 && bs[k - 1].value > 0 && Used(bs, k) == Used(bs, k - 1) + [k - 1]
            && SumBy(bs[..k], Spendable()) - bs[k - 1].value < total <= SumBy(bs[..k], Spendable())
  {
    hide Cover;
    var k := Cover(bs, total);
    assert bs[..0] == [];
    SumPrefix(bs, k - 1, Spendable());
    assert SumBy(bs[..k - 1], Spendable()) < total;
  }

  lemma CoverTakes(bs: seq<Balance>, total: int)
    requires total > 0 && SumBy(bs, Spendable()) >= total
    ensures var k := Cover(bs, total);
            && Taking(bs, total, Used(bs, k))
            && SumBy(Used(bs, k), ValueOf(bs)) == SumBy(bs[..k], Spendable())
            && forall i :: i in Used(bs, k) <==> 0 <= i < k && bs[i].value > 0
  {
    hide SumBy, Used, Cover, ValueOf;
    var k := Cover(bs, total);
    CoverLast(bs, total);
    UsedExact(bs, k);
    UsedSum(bs, k);
    var used := Used(bs, k);
    forall m | 0 <= m < |used|
      ensures 0 <= used[m] < |bs| && bs[used[m]].value > 0
    {
      assert used[m] in used;
    }
  }

  lemma CanPay(lib: Library, a: Acct, total: int)
    requires Spent(lib, a, total).Some?
    ensures total > 0 ==> SumBy(a.bals, Spendable()) >= total
  {
  }

  lemma SpentIs(lib: Library, a: Acct, total: int)
    requires total > 0 && Spent(lib, a, total).Some?
    ensures var k := Cover(a.bals, total);
            var excess, adr := SumBy(a.bals[..k], Spendable()) - total, lib.newAddress(a.seed, |a.bals|);
            && excess == Excess(a.bals, total)
            && (excess != 0 ==> adr.Some?)
            && Spent(lib, a, total).value.bals ==
               Drained(a.bals, k) + if excess == 0 then [] else [Balance(adr.value, 0, excess)]
  {
    var rest := Drained(a.bals, Cover(a.bals, total));
    assert rest + [] == rest;
  }

  /** Entry i and the next one take all of the balance. */
  ghost predicate TakesAll(b: seq<Transaction>, i: nat, x: Balance)
    requires i + 1 < |b|
  {
    b[i].address == b[i + 1].address == x.address && b[i].value == -x.value && b[i + 1].value == 0
  }

  /** Behind the outputs, for each balance taken, one entry that takes all of it and an empty one for
      the second half of the signature; then, if the balances exceed the total, the excess. */
  ghost predicate Funds(bs: seq<Balance>, n: nat, used: seq<int>, excess: int, b: seq<Transaction>) {
    && |b| == n + 2 * |used| + (if excess == 0 then 0 else 1)
    && (forall m :: 0 <= m < |used| ==> 0 <= used[m] < |bs|)
    && (forall m :: 0 <= m < |used| ==> TakesAll(b, n + 2 * m, bs[used[m]]))
    && (excess != 0 ==> b[|b| - 1].value == excess)
  }

  /** The balances taken are 0 and all others as they were; an excess becomes the change of a new
      entry, for the address the bundle sends it to. */
  ghost predicate Drains(bs: seq<Balance>, used: seq<int>, excess: int, b: seq<Transaction>, after: seq<Balance>) {
    && |after| == |bs| + (if excess == 0 then 0 else 1)
    && (forall j :: 0 <= j < |bs| ==> after[j] == if j in used then bs[j].(value := 0) else bs[j])
    && (excess != 0 ==> b != [] && after[|bs|] == Balance(b[|b| - 1].address, 0, excess))
  }

  /** The bundle of a value transfer, entry by entry, and the account it leaves. */
  lemma BundleShape(lib: Library, a: Acct, trs: seq<Transfer>, clock: nat -> int, b: seq<Transaction>)
      returns (used: seq<int>)
    requires Total(trs) > 0 && Spent(lib, a, Total(trs)).Some?
    requires Prepared(lib, a, trs, clock, b)
    ensures Taking(a.bals, Total(trs), used)
    ensures var excess := SumBy(used, ValueOf(a.bals)) - Total(trs);
            && Funds(a.bals, |trs|, used, excess, b)
            && Drains(a.bals, used, excess, b, Spent(lib, a, Total(trs)).value.bals)
            && (excess != 0 ==> b != [] && lib.newAddress(a.seed, |a.bals|) == Some(b[|b| - 1].address))
    ensures |b| >= |trs| && forall i :: 0 <= i < |trs| ==> PaysOut(b[i], trs[i], clock(i))
  {
    hide Prepared, SumBy, ValueOf, Spent, Taking, Used, Flows, OutFlows, InFlows, Cover, Excess, Total, PaysOut,
         Spendable, ChangeFlow, FundingFlows, BundleFlows, Drained, Funds, Drains, Increasing;
    CanPay(lib, a, Total(trs));
    var k, excess := Cover(a.bals, Total(trs)), Excess(a.bals, Total(trs));
    var change := ChangeFlow(lib, a, Total(trs));
    used := Used(a.bals, k);
    CoverTakes(a.bals, Total(trs));
    SpentIs(lib, a, Total(trs));
    FundingIs(lib, a, Total(trs));
    BundleIs(lib, a, trs);
    PreparedLabels(lib, a, trs, clock, b);
    ShapeByPrefix(a.bals, trs, b, k, excess, change, Spent(lib, a, Total(trs)).value.bals);
  }

  lemma ShapeByPrefix(bs: seq<Balance>, trs: seq<Transfer>, b: seq<Transaction>, k: nat, excess: int,
        change: seq<Flow>, after: seq<Balance>)
    requires k <= |bs| && Flows(b) == OutFlows(trs) + (InFlows(bs[..k]) + change)
    requires if excess == 0 then change == [] else |change| == 1 && change[0].value == excess
    requires after == Drained(bs, k) + if excess == 0 then [] else [Balance(change[0].address, 0, excess)]
    ensures Funds(bs, |trs|, Used(bs, k), excess, b) && Drains(bs, Used(bs, k), excess, b, after)
    ensures excess != 0 ==> b != [] && b[|b| - 1].address == change[0].address
  {
    hide Used, InFlows, Flows, OutFlows, Increasing, Inputs, TakesAll;
    var used, ins := Used(bs, k), InFlows(bs[..k]);
    UsedExact(bs, k);
    UsedFlows(bs, k);
    ShapeOfFlows(bs, trs, b, used, ins, change);
    assert excess != 0 ==> Flow(b[|b| - 1].address, b[|b| - 1].value) == change[0];
  }

  /** What is prepared pays every transfer, in order and with its tag; inputs and change have none. */
  lemma PreparedLabels(lib: Library, a: Acct, trs: seq<Transfer>, clock: nat -> int, b: seq<Transaction>)
    requires Total(trs) > 0 ==> SumBy(a.bals, Spendable()) >= Total(trs)
    requires Prepared(lib, a, trs, clock, b)
    ensures |b| >= |trs| && forall i :: 0 <= i < |trs| ==> PaysOut(b[i], trs[i], clock(i))
    ensures forall i :: |trs| <= i < |b| ==>
              && b[i].tag == EMPTY_HASH
              && (b[i].timestamp == clock(i) || (i > |trs| && b[i - 1].value < 0 && b[i].timestamp == clock(i - 1)))
    ensures Flows(b) == BundleFlows(lib, a, trs)
  {
    hide Stamped, InputsSigned, PaysOut;
    forall i: nat | |trs| <= i < |b|
      ensures b[i].tag == EMPTY_HASH
      ensures b[i].timestamp == clock(i) || (i > |trs| && b[i - 1].value < 0 && b[i].timestamp == clock(i - 1))
    {
      assert UntaggedAt(b, |trs|, i, clock);
    }
  }

  lemma ShapeOfFlows(bs: seq<Balance>, trs: seq<Transfer>, b: seq<Transaction>, used: seq<int>, ins: seq<Flow>,
        change: seq<Flow>)
    requires Inputs(bs, used, ins)
    requires Flows(b) == OutFlows(trs) + (ins + change)
    ensures |b| == |trs| + 2 * |used| + |change|
    ensures forall m :: 0 <= m < |used| ==> 0 <= used[m] < |bs| && TakesAll(b, |trs| + 2 * m, bs[used[m]])
    ensures forall c :: 0 <= c < |change| ==>
              var i := |trs| + 2 * |used| + c; Flow(b[i].address, b[i].value) == change[c]
  {
    FlowsAt(b);
    var f := Flows(b);
    hide Flows;
    forall m | 0 <= m < |used|
      ensures TakesAll(b, |trs| + 2 * m, bs[used[m]])
    {
      assert f[|trs| + 2 * m] == ins[2 * m] && f[|trs| + 2 * m + 1] == ins[2 * m + 1];
    }
    forall c | 0 <= c < |change|
      ensures var i := |trs| + 2 * |used| + c; Flow(b[i].address, b[i].value) == change[c]
    {
      assert f[|trs| + 2 * |used| + c] == change[c];
    }
  }

  lemma BundleIs(lib: Library, a: Acct, trs: seq<Transfer>)
    requires Total(trs) > 0 && SumBy(a.bals, Spendable()) >= Total(trs)
    ensures BundleFlows(lib, a, trs) == OutFlows(trs) + FundingFlows(lib, a, Total(trs))
  {
  }

  lemma FundingIs(lib: Library, a: Acct, total: int)
    requires total > 0 && Spent(lib, a, total).Some?
    ensures FundingFlows(lib, a, total) == InFlows(a.bals[..Cover(a.bals, total)]) + ChangeFlow(lib, a, total)
    ensures if Excess(a.bals, total) == 0 then ChangeFlow(lib, a, total) == []
            else lib.newAddress(a.seed, |a.bals|).Some? &&
                 ChangeFlow(lib, a, total) == [Flow(lib.newAddress(a.seed, |a.bals|).value, Excess(a.bals, total))]
  {
  }

  lemma FlowsAt(b: seq<Transaction>)
    ensures |Flows(b)| == |b| && forall i :: 0 <= i < |b| ==> Flows(b)[i] == Flow(b[i].address, b[i].value)
  {
  }

  /** Inputs and change together take the total out of the account. */
  lemma FundedExactly(lib: Library, a: Acct, trs: seq<Transfer>, clock: nat -> int, b: seq<Transaction>)
    requires Total(trs) > 0 && Spent(lib, a, Total(trs)).Some?
    requires Prepared(lib, a, trs, clock, b)
    ensures |b| >= |trs| && SumBy(b[|trs|..], TxValue()) == -Total(trs)
  {
    var funding := FundingFlows(lib, a, Total(trs));
    hide FundingFlows, Spent, SumBy, Stamped, InputsSigned, FlowValue, TxValue, Total, Labelled;
    FundingSum(lib, a, Total(trs));
    assert |Flows(b)| == |b| && Flows(b)[|trs|..] == funding;
    assert Flows(b[|trs|..]) == funding;
    SumCongruent(b[|trs|..], TxValue(), funding, FlowValue());
  }

  lemma {:induction false} DrainedWorth(bs: seq<Balance>, k: nat)
    requires k <= |bs|
    ensures SumBy(Drained(bs, k), Worth()) == SumBy(bs, Worth()) - SumBy(bs[..k], Spendable())
  {
    if bs != [] {
      var init := bs[..|bs| - 1];
      if k == |bs| {
        DrainedWorth(init, k - 1);
        assert bs[..k] == bs;
        assert init[..k - 1] == init;
        assert Drained(bs, k)[..|bs| - 1] == Drained(init, k - 1);
      } else {
        DrainedWorth(init, k);
        assert init[..k] == bs[..k];
        assert Drained(bs, k)[..|bs| - 1] == Drained(init, k);
      }
    } else {
      assert bs[..k] == [];
    }
  }

  /** The account is worth exactly the total less, counting value and change. */
  lemma Conservation(lib: Library, a: Acct, total: int)
    requires total > 0 && Spent(lib, a, total).Some?
    ensures SumBy(Spent(lib, a, total).value.bals, Worth()) == SumBy(a.bals, Worth()) - total
  {
    var k := Cover(a.bals, total);
    var rest := Drained(a.bals, k);
    DrainedWorth(a.bals, k);
    var excess := Excess(a.bals, total);
    if excess > 0 {
      SumAppend(rest, Balance(lib.newAddress(a.seed, |a.bals|).value, 0, excess), Worth());
    }
  }

  /** A transfer appends at most the next address of the seed. */
  lemma SpentAligned(lib: Library, a: Acct, total: int)
    requires Aligned(lib, a.seed, a.bals) && Spent(lib, a, total).Some?
    ensures var s := Spent(lib, a, total).value;
            && s.name == a.name && s.seed == a.seed && Aligned(lib, a.seed, s.bals)
            && |a.bals| <= |s.bals| <= |a.bals| + 1
            && SameAddresses(a.bals, s.bals[..|a.bals|])
  {
  }

  /** No negative entry is the last of the bundle, whatever the transfers hold. */
  lemma InputNotLast(lib: Library, a: Acct, trs: seq<Transfer>, b: seq<Transaction>)
    requires Total(trs) > 0 && Spent(lib, a, Total(trs)).Some? && Flows(b) == BundleFlows(lib, a, trs)
    ensures forall i :: 0 <= i < |b| && b[i].value < 0 ==> i + 1 < |b|
  {
    var f := FundingFlows(lib, a, Total(trs));
    FundingSum(lib, a, Total(trs));
    FundingPaired(lib, a, Total(trs));
    hide FundingFlows, Spent, SumBy;
    var n := |b| - 1;
    assert |Flows(b)| == |b| && Flows(b)[n] == Flow(b[n].address, b[n].value) == f[|f| - 1];
  }

  /** With non-negative transfers the negative entries are inputs of the account, each
      followed by its second half, and none of them is an output. */
  lemma InputsPaired(lib: Library, a: Acct, trs: seq<Transfer>, b: seq<Transaction>)
    requires NonNegative(trs)
    requires Total(trs) > 0 && Spent(lib, a, Total(trs)).Some? && Flows(b) == BundleFlows(lib, a, trs)
    ensures forall i :: 0 <= i < |b| && b[i].value < 0 ==> |trs| <= i && Follower(b, i + 1)
    ensures InputsOwned(a, b)
  {
    var f := FundingFlows(lib, a, Total(trs));
    FundingPaired(lib, a, Total(trs));
    hide FundingFlows, Spent, SumBy;
    forall i | 0 <= i < |trs|
      ensures Flows(b)[i].value >= 0
    {
      assert Flows(b)[i] == OutFlows(trs)[i] && trs[i] in trs;
    }
    forall i | 0 <= i < |b| && b[i].value < 0
      ensures |trs| <= i && Follower(b, i + 1) && FirstOf(a.bals, b[i].address) >= 0
    {
      assert |Flows(b)| == |b| && Flows(b)[i] == Flow(b[i].address, b[i].value);
      assert Flows(b)[i] == f[i - |trs|];
      assert Flows(b)[i + 1] == f[i + 1 - |trs|];
      assert Flows(b)[i + 1] == Flow(b[i + 1].address, b[i + 1].value);
    }
  }

  /** The change entry does not take an address away. */
  lemma OwnedAfter(lib: Library, a: Acct, total: int, b: seq<Transaction>)
    requires Aligned(lib, a.seed, a.bals) && Spent(lib, a, total).Some?
    requires InputsOwned(a, b)
    ensures InputsOwned(Spent(lib, a, total).value, b)
  {
    var after := Spent(lib, a, total).value;
    SpentAligned(lib, a, total);
    hide Spent;
    forall i | 0 <= i < |b| && b[i].value < 0
      ensures FirstOf(after.bals, b[i].address) >= 0
    {
      var j := FirstOf(a.bals, b[i].address);
      assert after.bals[..|a.bals|][j].address == after.bals[j].address;
    }
  }

  lemma FinalizedBundle(lib: Library, b: seq<Transaction>, frags: seq<Trytes>)
    ensures var f := Finalize(lib, b, frags);
            && Flows(f) == Flows(b) && Stamped(lib, f)
            && |f| == |b| && forall i :: 0 <= i < |b| ==> EssenceOf(f[i]) == EssenceOf(b[i])
  {
    assert Essences(Finalize(lib, b, frags)) == Essences(b);
  }

  /** Signing a finalised bundle completes it. */
  lemma PreparedBySigning(lib: Library, a: Acct, trs: seq<Transfer>, clock: nat -> int, b: seq<Transaction>)
    requires Lawful(lib) && Aligned(lib, a.seed, a.bals)
    requires Total(trs) > 0 && Spent(lib, a, Total(trs)).Some?
    requires Flows(b) == BundleFlows(lib, a, trs) && Stamped(lib, b) && Labelled(trs, clock, b)
    requires forall i :: 0 <= i < |trs| ==> b[i].frag == trs[i].message
    ensures Prepared(lib, a, trs, clock, Signed(lib, Spent(lib, a, Total(trs)).value, b))
  {
    var after := Spent(lib, a, Total(trs)).value;
    SignedEssence(lib, after, b);
    LabelsInEssence(trs, clock, b, Signed(lib, after, b));
    if NonNegative(trs) {
      InputsPaired(lib, a, trs, b);
      OwnedAfter(lib, a, Total(trs), b);
      SpentAligned(lib, a, Total(trs));
      SignedVerifies(lib, after, b);
    }
  }

  method PrepareTransfers(lib: Library, ac: Account, trs: seq<Transfer>, clock: nat -> int)
      returns (bundle: array?<Transaction>, err: Error)
    requires Lawful(lib) && Aligned(lib, ac.seed, ac.balances)
    requires forall t :: t in trs ==> |t.message| <= SIG_SIZE
    modifies ac`balances
    ensures bundle != null <==> err == NoError
    ensures bundle != null ==>
              && fresh(bundle)
              && Spent(lib, old(ac.View()), Total(trs)) == Some(ac.View())
              && Prepared(lib, old(ac.View()), trs, clock, bundle[..])
    ensures err == NotEnoughBalance <==> Total(trs) > 0 && Total(trs) > SumBy(old(ac.balances), Spendable())
    ensures err != InsufficientBalance
    ensures NonNegative(trs) ==> err != CannotFindAddress
    ensures Spent(lib, old(ac.View()), Total(trs)).None? ==> bundle == null
    ensures NonNegative(trs) && bundle == null ==> Spent(lib, old(ac.View()), Total(trs)).None?
  {
    hide UntaggedAt, PaysOut, SumBy;
    ghost var a := ac.View();
    var b, frags, total := AddOutputs(trs, clock);
    FinalizedBundle(lib, b, frags);
    if total <= 0 {
      bundle := ToArray(Finalize(lib, b, frags));
      LabelsInEssence(trs, clock, b, bundle[..]);
      OutputsOnly(lib, a, trs, clock, bundle[..]);
      return bundle, NoError;
    }
    var have := ac.TotalValueWithChange();
    if total > have {
      return null, NotEnoughBalance;
    }
    var sufficient;
    ghost var outputs := b;
    b, sufficient, err := AddRemainder(lib, b, ac, total, clock);
    if err != NoError {
      return null, err;
    }
    if !sufficient {
      return null, InsufficientBalance;
    }
    assert Flows(b) == Flows(outputs) + Flows(b[|outputs|..]);
    FinalizedBundle(lib, b, frags);
    bundle := ToArray(Finalize(lib, b, frags));
    ghost var f := bundle[..];
    InputNotLast(lib, a, trs, f);
    if NonNegative(trs) {
      InputsPaired(lib, a, trs, f);
      OwnedAfter(lib, a, total, f);
    }
    LabelsInEssence(trs, clock, b, f);
    PreparedBySigning(lib, a, trs, clock, f);
    var ok := SignInputs(lib, ac, bundle);
    if !ok {
      return null, CannotFindAddress;
    }
  }

  method ToArray(b: seq<Transaction>) returns (a: array<Transaction>)
    ensures fresh(a) && a[..] == b
  {
    a := new Transaction[|b|](i requires 0 <= i < |b| => b[i]);
  }

  lemma OutputsOnly(lib: Library, a: Acct, trs: seq<Transfer>, clock: nat -> int, b: seq<Transaction>)
    requires Total(trs) <= 0
    requires Flows(b) == OutFlows(trs) && Stamped(lib, b) && Labelled(trs, clock, b)
    requires forall i :: 0 <= i < |trs| ==> b[i].frag == trs[i].message
    ensures Prepared(lib, a, trs, clock, b)
  {
    assert OutFlows(trs) + [] == OutFlows(trs);
    if NonNegative(trs) {
      forall i | 0 <= i < |b|
        ensures b[i].value >= 0
      {
        assert Flows(b)[i] == OutFlows(trs)[i];
        assert trs[i] in trs;
      }
    }
  }

  /** The synchronous part of Send.  The bundle it returns goes to the retry loop. */
  method Send(lib: Library, ac: Account, trs: seq<Transfer>, clock: nat -> int)
      returns (hash: Hash, bundle: array?<Transaction>, err: Error)
    requires Lawful(lib) && Aligned(lib, ac.seed, ac.balances)
    requires forall t :: t in trs ==> |t.message| <= SIG_SIZE
    modifies ac`balances
    ensures bundle != null <==> err == NoError
    ensures bundle == null ==> ac.View() == old(ac.View())
    ensures bundle != null ==>
              && fresh(bundle)
              && Spent(lib, old(ac.View()), Total(trs)) == Some(ac.View())
              && Prepared(lib, old(ac.View()), trs, clock, bundle[..])
              && hash == BundleHash(lib, bundle[..])
    ensures err == NotEnoughBalance <==> Total(trs) > 0 && Total(trs) > SumBy(old(ac.balances), Spendable())
    ensures NonNegative(trs) ==> (bundle == null <==> Spent(lib, old(ac.View()), Total(trs)).None?)
  {
    var bals := ac.balances;
    bundle, err := PrepareTransfers(lib, ac, trs, clock);
    if err != NoError {
      ac.balances := bals;
      return "", null, err;
    }
    hash := BundleHash(lib, bundle[..]);
  }
}
