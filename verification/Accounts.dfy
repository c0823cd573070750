/** aidos/accountDB.go, the values: balances, accounts, and the account object handlers share. */
module Accounts {
  import opened Gadk
  import opened Sums

  type Key = string

  datatype Balance = Balance(address: Address, value: int, change: int)

  datatype Acct = Acct(name: string, seed: Seed, bals: seq<Balance>)

  function ToKey(name: string): Key {
    if name == "" then "\0" else name
  }

  function Spendable(): Balance -> int {
    (b: Balance) => if b.value > 0 then b.value else 0
  }

  /** Value and change together. */
  function Worth(): Balance -> int {
    (b: Balance) => b.value + b.change
  }

  /** The last entry that holds the address, or -1. */
  function IndexOf(bs: seq<Balance>, adr: Address): (r: int)
    ensures -1 <= r < |bs|
    ensures r >= 0 ==> bs[r].address == adr
    ensures forall j :: r < j < |bs| ==> bs[j].address != adr
  {
    if bs == [] then -1
    else if bs[|bs| - 1].address == adr then |bs| - 1
    else IndexOf(bs[..|bs| - 1], adr)
  }

  ghost predicate Has(a: Acct, adr: Address) {
    IndexOf(a.bals, adr) >= 0
  }

  /** Entry i of an account is address i of its seed. */
  ghost predicate Aligned(lib: Library, seed: Seed, bs: seq<Balance>) {
    forall i :: 0 <= i < |bs| ==> lib.newAddress(seed, i) == Some(bs[i].address)
  }

  /** Two accounts whose entries hold the same addresses. */
  ghost predicate SameAddresses(xs: seq<Balance>, ys: seq<Balance>) {
    |xs| == |ys| && forall i :: 0 <= i < |xs| ==> xs[i].address == ys[i].address
  }

  /** An account object as the handlers share it by reference. */
  class Account {
    var name: string
    var seed: Seed
    var encSeed: Option<seq<Byte>>
    var balances: seq<Balance>

    constructor (name: string, seed: Seed, encSeed: Option<seq<Byte>>, balances: seq<Balance>)
      ensures this.name == name && this.seed == seed && this.encSeed == encSeed && this.balances == balances
    {
      this.name, this.seed, this.encSeed, this.balances := name, seed, encSeed, balances;
    }

    function View(): Acct
      reads this
    {
      Acct(name, seed, balances)
    }

    method TotalValueWithChange() returns (t: int)
      ensures t == SumBy(balances, Spendable())
    {
      t := 0;
      for i := 0 to |balances|
        invariant t == SumBy(balances[..i], Spendable())
      {
        SumPrefix(balances, i, Spendable());
        if balances[i].value > 0 {
          t := t + balances[i].value;
        }
      }
      assert balances[..|balances|] == balances;
    }

    method Search(adr: Address) returns (index: int)
      ensures index == IndexOf(balances, adr)
    {
      index := SearchIn(balances, adr);
    }
  }

  method SearchIn(bs: seq<Balance>, adr: Address) returns (index: int)
    ensures index == IndexOf(bs, adr)
  {
    index := -1;
    for i := 0 to |bs|
      invariant index == IndexOf(bs[..i], adr)
    {
      assert bs[..i + 1][..i] == bs[..i];
      if adr == bs[i].address {
        index := i;
      }
    }
    assert bs[..|bs|] == bs;
  }

  /** In an aligned account every address stands once, so first and last occurrence agree. */
  lemma AlignedIndex(lib: Library, seed: Seed, bs: seq<Balance>, i: nat)
    requires Injective(lib) && Aligned(lib, seed, bs) && i < |bs|
    ensures IndexOf(bs, bs[i].address) == i
  {
    var j := IndexOf(bs, bs[i].address);
    assert j >= i;
    assert lib.newAddress(seed, i) == lib.newAddress(seed, j);
  }

  lemma {:induction false} IndexOfSame(xs: seq<Balance>, ys: seq<Balance>, adr: Address)
    requires SameAddresses(xs, ys)
    ensures IndexOf(xs, adr) == IndexOf(ys, adr)
  {
    if xs != [] && xs[|xs| - 1].address != adr {
      IndexOfSame(xs[..|xs| - 1], ys[..|ys| - 1], adr);
    }
  }
}
