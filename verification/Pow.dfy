/** aidos/transfer.go, the asynchronous part of Send: proof of work in place on the bundle. */
module Pow {
  import opened Gadk
  import opened Sums
  import opened Accounts
  import opened Transfers

  /** A transaction without the fields the proof of work writes. */
  function Content(t: Transaction): Transaction {
    t.(trunk := "", branch := "", nonce := "")
  }

  ghost predicate SameContent(b: seq<Transaction>, c: seq<Transaction>) {
    |b| == |c| && forall i :: 0 <= i < |b| ==> Content(b[i]) == Content(c[i])
  }

  /** From entry `from` on, each entry approves the next one and the approved trunk; the last
      entry approves the pair. */
  ghost predicate ChainedFrom(lib: Library, b: seq<Transaction>, from: int, tra: Approved) {
    forall i :: 0 <= i < |b| && from <= i ==> LinkedAt(lib, b, i, tra)
  }

  ghost predicate LinkedAt(lib: Library, b: seq<Transaction>, i: nat, tra: Approved)
    requires i < |b|
  {
    if i == |b| - 1 then b[i].trunk == tra.trunk && b[i].branch == tra.branch
    else b[i].trunk == lib.txHash(b[i + 1]) && b[i].branch == tra.trunk
  }

  ghost predicate Chained(lib: Library, b: seq<Transaction>, tra: Approved) {
    ChainedFrom(lib, b, 0, tra)
  }

  datatype Approved = Approved(trunk: Hash, branch: Hash)

  /** What the node and the proof of work do in one attempt. */
  datatype Attempt = Attempt(approved: Option<Approved>, pow: Transaction -> (Trytes, bool))

  /** Writing the links of entry i extends the chain and keeps the contents. */
  lemma LinkEntry(lib: Library, b0: seq<Transaction>, b: seq<Transaction>, i: nat, t: Transaction, tra: Approved)
    requires SameContent(b, b0) && i < |b| && Content(t) == Content(b[i])
    ensures SameContent(b[i := t], b0)
    ensures ChainedFrom(lib, b, i + 1, tra) && LinkedAt(lib, b[i := t], i, tra) ==> ChainedFrom(lib, b[i := t], i, tra)
  {
    var c := b[i := t];
    if ChainedFrom(lib, b, i + 1, tra) && LinkedAt(lib, c, i, tra) {
      forall j | i < j < |c|
        ensures LinkedAt(lib, c, j, tra)
      {
        assert LinkedAt(lib, b, j, tra);
      }
    }
  }

  method DoPow(lib: Library, tra: Approved, trytes: array<Transaction>, pow: Transaction -> (Trytes, bool))
      returns (ok: bool)
    modifies trytes
    ensures SameContent(trytes[..], old(trytes[..]))
    ensures ok ==> Chained(lib, trytes[..], tra) && Worked(trytes[..], old(trytes[..]), 0, pow)
    ensures (forall t :: pow(t).1) ==> ok
  {
    hide SameContent, ChainedFrom, Worked;
    ghost var b0 := trytes[..];
    var prev := "";
    var n := trytes.Length;
    var i := n - 1;
    SameContentRefl(lib, b0, tra);
    NoEntries(b0, pow);
    while i >= 0
      invariant -1 <= i < n
      invariant SameContent(trytes[..], b0)
      invariant i < n - 1 ==> prev == lib.txHash(trytes[i + 1])
      invariant ChainedFrom(lib, trytes[..], i + 1, tra) && Worked(trytes[..], b0, i + 1, pow)
      invariant i < n && forall j :: 0 <= j <= i ==> trytes[j] == b0[j]
    {
      ghost var b := trytes[..];
      if i == n - 1 {
        trytes[i] := trytes[i].(trunk := tra.trunk, branch := tra.branch);
      } else {
        trytes[i] := trytes[i].(trunk := prev, branch := tra.trunk);
      }
      var (nonce, found) := pow(trytes[i]);
      trytes[i] := trytes[i].(nonce := nonce);
      LinkEntry(lib, b0, b, i, trytes[i], tra);
      WorkEntry(b0, b, i, trytes[i], pow);
      assert trytes[..] == b[i := trytes[i]];
      if !found {
        return false;
      }
      prev := lib.txHash(trytes[i]);
      i := i - 1;
    }
    return true;
  }

  /** From entry `from` on, the nonce is what the proof of work found for the linked entry. */
  ghost predicate Worked(b: seq<Transaction>, b0: seq<Transaction>, from: int, pow: Transaction -> (Trytes, bool)) {
    |b| == |b0| && forall i :: 0 <= i < |b| && from <= i ==> pow(b[i].(nonce := b0[i].nonce)) == (b[i].nonce, true)
  }

  lemma WorkEntry(b0: seq<Transaction>, b: seq<Transaction>, i: nat, t: Transaction, pow: Transaction -> (Trytes, bool))
    requires i < |b| && Worked(b, b0, i + 1, pow)
    ensures pow(t.(nonce := b0[i].nonce)) == (t.nonce, true) ==> Worked(b[i := t], b0, i, pow)
  {
  }

  lemma NoEntries(b: seq<Transaction>, pow: Transaction -> (Trytes, bool))
    ensures Worked(b, b, |b|, pow)
  {
  }

  lemma SameContentRefl(lib: Library, b: seq<Transaction>, tra: Approved)
    ensures SameContent(b, b) && ChainedFrom(lib, b, |b|, tra)
  {
  }

  /** The last mwm / 3 trytes of the hash are nines. */
  ghost predicate NonceValid(lib: Library, t: Transaction, mwm: nat) {
    var h := lib.txHash(t);
    forall j :: 0 <= j < |h| && |h| - mwm / 3 <= j ==> h[j] == '9'
  }

  method HasValidNonce(lib: Library, t: Transaction, mwm: nat) returns (r: bool)
    requires mwm / 3 <= |lib.txHash(t)|
    ensures r <==> NonceValid(lib, t, mwm)
  {
    var h := lib.txHash(t);
    var i := |h| - 1;
    while i > |h| - 1 - mwm / 3
      invariant |h| - 1 - mwm / 3 <= i < |h|
      invariant forall j :: i < j < |h| ==> h[j] == '9'
    {
      if h[i] != '9' {
        return false;
      }
      i := i - 1;
    }
    return true;
  }

  /** A bundle that may be broadcast. */
  ghost predicate Attached(lib: Library, b: seq<Transaction>, tra: Approved, mwm: nat) {
    && Chained(lib, b, tra)
    && lib.isValidBundle(b)
    && forall i :: 0 <= i < |b| ==> NonceValid(lib, b[i], mwm)
  }

  /** An attempt nothing can stop: the node answers, a nonce is always found, and every chain
      over these contents whose nonces the proof of work has found passes the checks. */
  ghost predicate Unstoppable(lib: Library, b0: seq<Transaction>, mwm: nat, attempt: Attempt) {
    && attempt.approved.Some? && (forall t :: attempt.pow(t).1)
    && forall b, c ::
         && SameContent(b, b0) && SameContent(c, b0)
         && Chained(lib, c, attempt.approved.value) && Worked(c, b, 0, attempt.pow) ==>
           Attached(lib, c, attempt.approved.value, mwm)
  }

  method PowTrytes(lib: Library, trytes: array<Transaction>, mwm: nat, attempt: Attempt) returns (ok: bool)
    requires forall t :: mwm / 3 <= |lib.txHash(t)|
    modifies trytes
    ensures SameContent(trytes[..], old(trytes[..]))
    ensures ok ==> attempt.approved.Some? && Attached(lib, trytes[..], attempt.approved.value, mwm)
    ensures Unstoppable(lib, old(trytes[..]), mwm, attempt) ==> ok
  {
    if attempt.approved.None? {
      return false;
    }
    SameContentTrans(trytes[..], trytes[..], trytes[..]);
    ok := DoPow(lib, attempt.approved.value, trytes, attempt.pow);
    if !ok || !lib.isValidBundle(trytes[..]) {
      return false;
    }
    ghost var b := trytes[..];
    for i := 0 to trytes.Length
      invariant trytes[..] == b
      invariant forall j :: 0 <= j < i ==> NonceValid(lib, b[j], mwm)
    {
      assert b[i] == trytes[i];
      var valid := HasValidNonce(lib, trytes[i], mwm);
      if !valid {
        return false;
      }
    }
  }

  /** The retry loop of Send: the attempts run in turn until one succeeds. */
  method PowUntilDone(lib: Library, ts: array<Transaction>, mwm: nat, attempts: seq<Attempt>)
      returns (done: bool, last: nat)
    requires forall t :: mwm / 3 <= |lib.txHash(t)|
    modifies ts
    ensures SameContent(ts[..], old(ts[..]))
    ensures done ==> last < |attempts| && attempts[last].approved.Some?
                     && Attached(lib, ts[..], attempts[last].approved.value, mwm)
    ensures (exists i :: 0 <= i < |attempts| && Unstoppable(lib, old(ts[..]), mwm, attempts[i])) ==> done
  {
    hide SameContent, Attached, Unstoppable;
    done, last := false, 0;
    ghost var b0 := ts[..];
    SameContentTrans(b0, b0, b0);
    for i := 0 to |attempts|
      invariant !done && SameContent(ts[..], b0)
      invariant forall j :: 0 <= j < i ==> !Unstoppable(lib, b0, mwm, attempts[j])
    {
      ghost var b := ts[..];
      SameUnstoppable(lib, b0, b, mwm, attempts[i]);
      done := PowTrytes(lib, ts, mwm, attempts[i]);
      SameContentTrans(ts[..], b, b0);
      if done {
        return true, i;
      }
    }
  }

  lemma SameContentTrans(x: seq<Transaction>, y: seq<Transaction>, z: seq<Transaction>)
    ensures SameContent(x, y) && SameContent(y, z) ==> SameContent(x, z)
    ensures SameContent(x, x)
  {
  }

  lemma SameUnstoppable(lib: Library, b0: seq<Transaction>, b: seq<Transaction>, mwm: nat, attempt: Attempt)
    requires SameContent(b, b0)
    ensures Unstoppable(lib, b0, mwm, attempt) ==> Unstoppable(lib, b, mwm, attempt)
  {
    if Unstoppable(lib, b0, mwm, attempt) {
      forall a, c | && SameContent(a, b) && SameContent(c, b)
                    && Chained(lib, c, attempt.approved.value) && Worked(c, a, 0, attempt.pow)
        ensures Attached(lib, c, attempt.approved.value, mwm)
      {
        SameContentTrans(a, b, b0);
        SameContentTrans(c, b, b0);
      }
    }
  }

  /** The proof of work touches neither the bundle hash nor values nor signatures. */
  lemma ContentKept(lib: Library, b: seq<Transaction>, c: seq<Transaction>)
    requires SameContent(b, c)
    ensures BundleHash(lib, b) == BundleHash(lib, c) && Flows(b) == Flows(c)
    ensures |b| == |c| && forall i :: 0 <= i < |b| ==> EssenceOf(b[i]) == EssenceOf(c[i])
    ensures Stamped(lib, b) ==> Stamped(lib, c)
    ensures InputsSigned(lib, b) ==> InputsSigned(lib, c)
    ensures forall i :: 0 <= i < |b| ==> b[i].frag == c[i].frag
  {
    forall i | 0 <= i < |b|
      ensures EssenceOf(b[i]) == EssenceOf(c[i])
    {
      assert EssenceOf(Content(b[i])) == EssenceOf(b[i]) && EssenceOf(Content(c[i])) == EssenceOf(c[i]);
    }
    assert Essences(b) == Essences(c);
    forall i | 0 <= i < |b|
      ensures b[i].frag == c[i].frag && b[i].address == c[i].address && b[i].value == c[i].value
      ensures b[i].bundle == c[i].bundle && b[i].currentIndex == c[i].currentIndex && b[i].lastIndex == c[i].lastIndex
    {
      assert Content(b[i]) == Content(c[i]);
    }
  }

  /** What reaches the network is what Send prepared: same hash, flows and signatures; and what
      follows the outputs moves exactly the requested total out of the account. */
  lemma {:induction false} BroadcastIsPrepared(lib: Library, a: Acct, trs: seq<Transfer>, clock: nat -> int,
        b: seq<Transaction>, sent: seq<Transaction>)
    requires Total(trs) > 0 && Spent(lib, a, Total(trs)).Some?
    requires Prepared(lib, a, trs, clock, b) && SameContent(b, sent)
    ensures BundleHash(lib, sent) == BundleHash(lib, b)
    ensures Prepared(lib, a, trs, clock, sent)
    ensures SumBy(sent, TxValue()) == 0
    ensures |sent| >= |trs| && SumBy(sent[|trs|..], TxValue()) == -Total(trs)
    ensures forall i :: 0 <= i < |trs| ==> PaysOut(sent[i], trs[i], clock(i))
    ensures forall i :: |trs| <= i < |sent| ==> sent[i].tag == EMPTY_HASH
  {
    hide SumBy, Spent, Total, Flows, BundleFlows, Stamped, InputsSigned, UntaggedAt, PaysOut, Untagged, SameContent,
         BundleHash, EssenceOf, FundingFlows, OutFlows;
    CanPay(lib, a, Total(trs));
    ContentKept(lib, b, sent);
    LabelsInEssence(trs, clock, b, sent);
    PreparedLabels(lib, a, trs, clock, sent);
    ZeroSum(lib, a, trs, clock, sent);
    FundedExactly(lib, a, trs, clock, sent);
  }
}
