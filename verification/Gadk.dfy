/** What the wallet uses of the gadk library: transactions, bundles, and the library's
    cryptographic functions.  The latter are the fields of a Library value about which
    nothing is known beyond the laws stated in Lawful. */
module Gadk {

  type Trytes = string
  type Address = string
  type Hash = string
  type Byte = bv8
  type Seed = seq<Byte>

  datatype Option<+T> = None | Some(value: T)

  datatype Transaction = Transaction(
    address: Address, value: int, tag: Trytes, timestamp: int,
    currentIndex: int, lastIndex: int, bundle: Hash,
    frag: Trytes, trunk: Hash, branch: Hash, nonce: Trytes)

  datatype Transfer = Transfer(address: Address, value: int, message: Trytes, tag: Trytes)

  /** The part of a transaction the bundle hash is computed from.  Trunk, branch, nonce and
      signature fragment are not in it. */
  datatype Essence = Essence(address: Address, value: int, tag: Trytes, timestamp: int)

  /** What an entry moves, and where. */
  datatype Flow = Flow(address: Address, value: int)

  datatype Library = Library(
    newAddress: (Seed, nat) -> Option<Address>,
    newKey: (Seed, nat) -> Trytes,
    normalize: Hash -> seq<int>,
    sign: (seq<int>, Trytes) -> Trytes,
    verify: (Address, seq<int>, Trytes, Trytes) -> bool,
    bundleHash: seq<Essence> -> Hash,
    txHash: Transaction -> Hash,
    isValidBundle: seq<Transaction> -> bool)

  datatype AddressBalance = AddressBalance(address: Address, value: int)

  /** The node as one handler call sees it.  A query that fails answers None, or too few
      inclusion states.  creditTrytes is the later of the two GetTrytes calls of a round. */
  datatype Node = Node(
    find: seq<Address> -> Option<seq<Hash>>,
    trytes: seq<Hash> -> Option<seq<Transaction>>,
    info: bool,
    states: seq<Hash> -> seq<bool>,
    balances: seq<Address> -> Option<seq<AddressBalance>>,
    creditTrytes: seq<Hash> -> Option<seq<Transaction>>)

  const EMPTY_HASH: Hash := Nines(81)
  const EMPTY_SIG: Trytes := Nines(SIG_SIZE)
  const SIG_SIZE: nat := 2187
  const HASH_PART: nat := 27

  function Nines(n: nat): (s: Trytes)
    ensures |s| == n
  {
    if n == 0 then "" else Nines(n - 1) + "9"
  }

  ghost predicate Shaped(lib: Library) {
    && (forall h :: |lib.normalize(h)| == 81)
    && (forall seed, i :: |lib.newKey(seed, i)| == 2 * SIG_SIZE)
  }

  /** Part 0 or 1 of the signature of bundle hash h with key i of the seed. */
  ghost function Signature(lib: Library, seed: Seed, i: nat, h: Hash, part: nat): Trytes
    requires Shaped(lib) && part < 2
  {
    lib.sign(lib.normalize(h)[HASH_PART * part..HASH_PART * (part + 1)],
             lib.newKey(seed, i)[SIG_SIZE * part..SIG_SIZE * (part + 1)])
  }

  ghost predicate Injective(lib: Library) {
    forall s, i, t, j ::
      lib.newAddress(s, i).Some? && lib.newAddress(s, i) == lib.newAddress(t, j) ==> s == t && i == j
  }

  /** Key i of a seed signs for address i of that seed. */
  ghost predicate KeysMatchAddresses(lib: Library)
    requires Shaped(lib)
  {
    forall seed, i, h :: lib.newAddress(seed, i).Some? ==>
      lib.verify(lib.newAddress(seed, i).value, lib.normalize(h),
                 Signature(lib, seed, i, h, 0), Signature(lib, seed, i, h, 1))
  }

  ghost predicate Lawful(lib: Library) {
    Shaped(lib) && Injective(lib) && KeysMatchAddresses(lib)
  }

  function EssenceOf(t: Transaction): Essence {
    Essence(t.address, t.value, t.tag, t.timestamp)
  }

  function Essences(b: seq<Transaction>): seq<Essence> {
    seq(|b|, i requires 0 <= i < |b| => EssenceOf(b[i]))
  }

  function Flows(b: seq<Transaction>): seq<Flow> {
    seq(|b|, i requires 0 <= i < |b| => Flow(b[i].address, b[i].value))
  }

  function BundleHash(lib: Library, b: seq<Transaction>): Hash {
    lib.bundleHash(Essences(b))
  }

  /** Bundle.Add: n entries for the address, the first with the value and the rest with 0. */
  function Add(b: seq<Transaction>, n: nat, a: Address, v: int, time: int, tag: Trytes): seq<Transaction> {
    b + seq(n, i => Transaction(a, if i == 0 then v else 0, tag, time,
                                0, 0, EMPTY_HASH, EMPTY_SIG, EMPTY_HASH, EMPTY_HASH, EMPTY_HASH))
  }

  /** Bundle.Finalize: stamps the bundle hash and the indexes, and writes the given fragments
      into the first entries. */
  function Finalize(lib: Library, b: seq<Transaction>, frags: seq<Trytes>): seq<Transaction> {
    seq(|b|, i requires 0 <= i < |b| =>
      b[i].(bundle := BundleHash(lib, b), currentIndex := i, lastIndex := |b| - 1,
            frag := if i < |frags| then frags[i] else b[i].frag))
  }

  function TxValue(): Transaction -> int {
    (t: Transaction) => t.value
  }

  function FlowValue(): Flow -> int {
    (f: Flow) => f.value
  }
}
