/** aidos/hashDB.go and compareHashes of aidos/notify.go: the list of known transaction hashes
    with their confirmed flags, and the bucket of stored transactions. */
module Hashes {
  import opened Gadk
  import opened Sums

  datatype TxState = TxState(hash: Hash, confirmed: bool)

  type TxBucket = map<Hash, Transaction>

  function HashesOf(hs: seq<TxState>): seq<Hash> {
    seq(|hs|, i requires 0 <= i < |hs| => hs[i].hash)
  }

  /** The given hashes that are not listed, duplicates included. */
  function News(hs: seq<TxState>, hashes: seq<Hash>): seq<Hash> {
    if hashes == [] then []
    else
      var h := hashes[|hashes| - 1];
      News(hs, hashes[..|hashes| - 1]) + if h in HashesOf(hs) then [] else [h]
  }

  function Unflagged(hashes: seq<Hash>): seq<TxState> {
    seq(|hashes|, i requires 0 <= i < |hashes| => TxState(hashes[i], false))
  }

  /** The hashes whose inclusion the node is asked for. */
  function Unconfirmed(hs: seq<TxState>): seq<Hash> {
    if hs == [] then []
    else Unconfirmed(hs[..|hs| - 1]) + if hs[|hs| - 1].confirmed then [] else [hs[|hs| - 1].hash]
  }

  /** The list after the node has answered for the unconfirmed entries in turn. */
  function Flip(hs: seq<TxState>, states: seq<bool>): (r: seq<TxState>)
    requires |states| == |Unconfirmed(hs)|
    ensures |r| == |hs|
  {
    if hs == [] then []
    else
      var init, last := hs[..|hs| - 1], hs[|hs| - 1];
      if last.confirmed then Flip(init, states) + [last]
      else Flip(init, states[..|states| - 1]) + [TxState(last.hash, states[|states| - 1])]
  }

  /** An answer of the wrong length confirms nothing. */
  function Confirmed(hs: seq<TxState>, states: seq<bool>): (r: seq<TxState>)
    ensures |r| == |hs|
  {
    if |states| == |Unconfirmed(hs)| then Flip(hs, states) else hs
  }

  /** The hashes whose flag went up, in list order. */
  function Flipped(before: seq<TxState>, after: seq<TxState>): seq<Hash>
    requires |before| == |after|
  {
    if before == [] then []
    else
      var n := |before| - 1;
      Flipped(before[..n], after[..n]) + if !before[n].confirmed && after[n].confirmed then [before[n].hash] else []
  }

  /** The hashes the node answered yes for. */
  function Chosen(hashes: seq<Hash>, states: seq<bool>): seq<Hash>
    requires |hashes| == |states|
  {
    if hashes == [] then []
    else
      var n := |hashes| - 1;
      Chosen(hashes[..n], states[..n]) + if states[n] then [hashes[n]] else []
  }

  lemma {:induction false} FlippedIsChosen(hs: seq<TxState>, states: seq<bool>)
    requires |states| == |Unconfirmed(hs)|
    ensures Flipped(hs, Flip(hs, states)) == Chosen(Unconfirmed(hs), states)
  {
    if hs == [] {
    } else {
      var n := |hs| - 1;
      var init := hs[..n];
      if hs[n].confirmed {
        FlippedIsChosen(init, states);
        assert Flip(hs, states)[..n] == Flip(init, states);
        assert Unconfirmed(hs) == Unconfirmed(init);
      } else {
        var m := |states| - 1;
        FlippedIsChosen(init, states[..m]);
        assert Flip(hs, states)[..n] == Flip(init, states[..m]);
        assert Unconfirmed(hs)[..m] == Unconfirmed(init);
      }
    }
  }

  lemma {:induction false} FlippedSame(hs: seq<TxState>)
    ensures Flipped(hs, hs) == []
  {
    if hs == [] {
    } else {
      FlippedSame(hs[..|hs| - 1]);
    }
  }

  /** Entries never change their hash and are never un-confirmed. */
  ghost predicate Extends(before: seq<TxState>, after: seq<TxState>) {
    && |before| <= |after|
    && forall p :: 0 <= p < |before| ==>
         after[p].hash == before[p].hash && (before[p].confirmed ==> after[p].confirmed)
  }

  /** Where the unconfirmed entries stand. */
  function Positions(hs: seq<TxState>): (ps: seq<nat>)
    ensures |ps| == |Unconfirmed(hs)|
    ensures forall p :: p in ps ==> p < |hs|
  {
    if hs == [] then []
    else Positions(hs[..|hs| - 1]) + if hs[|hs| - 1].confirmed then [] else [|hs| - 1]
  }

  lemma Unfold(hs: seq<TxState>, states: seq<bool>)
    requires hs != [] && |states| == |Unconfirmed(hs)|
    ensures var init, last, m := hs[..|hs| - 1], hs[|hs| - 1], |states| - 1;
            if last.confirmed then
              && Unconfirmed(hs) == Unconfirmed(init) && Positions(hs) == Positions(init)
              && Flip(hs, states) == Flip(init, states) + [last]
            else
              && Unconfirmed(hs) == Unconfirmed(init) + [last.hash]
              && Positions(hs) == Positions(init) + [|hs| - 1]
              && Flip(hs, states) == Flip(init, states[..m]) + [TxState(last.hash, states[m])]
  {
  }

  lemma {:induction false} FlipExtends(hs: seq<TxState>, states: seq<bool>)
    requires |states| == |Unconfirmed(hs)|
    ensures Extends(hs, Flip(hs, states))
  {
    if hs == [] {
    } else {
      hide Unconfirmed, Flip, Positions;
      var n := |hs| - 1;
      Unfold(hs, states);
      FlipExtends(hs[..n], if hs[n].confirmed then states else states[..|states| - 1]);
    }
  }

  /** One more yes flips exactly the entry it was asked for. */
  lemma {:induction false} FlipOne(hs: seq<TxState>, states: seq<bool>, j: nat)
    requires |states| == |Unconfirmed(hs)| && j < |states|
    ensures Positions(hs)[j] < |hs| && Flip(hs, states)[Positions(hs)[j]].hash == Unconfirmed(hs)[j]
    ensures Flip(hs, states[j := true]) ==
            Flip(hs, states)[Positions(hs)[j] := TxState(Unconfirmed(hs)[j], true)]
  {
    assert hs != [];
    hide Unconfirmed, Positions, Flip;
    Unfold(hs, states);
    Unfold(hs, states[j := true]);
    var init, last, m := hs[..|hs| - 1], hs[|hs| - 1], |states| - 1;
    if last.confirmed {
      FlipOne(init, states, j);
      UpdateBefore(Flip(init, states), [last], Positions(init)[j], TxState(Unconfirmed(init)[j], true));
    } else if j < m {
      assert states[j := true][..m] == states[..m][j := true];
      FlipOne(init, states[..m], j);
      UpdateBefore(Flip(init, states[..m]), [TxState(last.hash, states[m])],
                   Positions(init)[j], TxState(Unconfirmed(init)[j], true));
    } else {
      assert states[j := true][..m] == states[..m];
    }
  }

  lemma UpdateBefore(xs: seq<TxState>, ys: seq<TxState>, p: nat, x: TxState)
    requires p < |xs|
    ensures (xs + ys)[p := x] == xs[p := x] + ys && (xs + ys)[p] == xs[p]
  {
  }

  lemma {:induction false} FlipNothing(hs: seq<TxState>, states: seq<bool>)
    requires |states| == |Unconfirmed(hs)| && forall i :: 0 <= i < |states| ==> !states[i]
    ensures Flip(hs, states) == hs
  {
    if hs == [] {
    } else {
      var init, last := hs[..|hs| - 1], hs[|hs| - 1];
      FlipNothing(init, if last.confirmed then states else states[..|states| - 1]);
      assert hs == init + [last];
    }
  }

  /** Only the first ix answers have been taken in. */
  function UpTo(states: seq<bool>, ix: nat): (r: seq<bool>)
    ensures |r| == |states|
  {
    seq(|states|, j requires 0 <= j < |states| => j < ix && states[j])
  }

  lemma UpToStep(states: seq<bool>, ix: nat)
    requires ix < |states|
    ensures UpTo(states, ix + 1) == if states[ix] then UpTo(states, ix)[ix := true] else UpTo(states, ix)
  {
  }

  lemma UpToAll(states: seq<bool>)
    ensures UpTo(states, |states|) == states
  {
  }

  lemma NoAnswers(hs: seq<TxState>, states: seq<bool>)
    requires |states| == |Unconfirmed(hs)|
    ensures Flip(hs, UpTo(states, 0)) == hs
  {
    FlipNothing(hs, UpTo(states, 0));
  }

  lemma ChosenNone(hashes: seq<Hash>, states: seq<bool>)
    ensures Chosen(hashes[..0], states[..0]) == []
  {
  }

  lemma ChosenStep(hashes: seq<Hash>, states: seq<bool>, ix: nat)
    requires |hashes| == |states| && ix < |hashes|
    ensures Chosen(hashes[..ix + 1], states[..ix + 1]) ==
            Chosen(hashes[..ix], states[..ix]) + if states[ix] then [hashes[ix]] else []
  {
    assert hashes[..ix + 1][..ix] == hashes[..ix] && states[..ix + 1][..ix] == states[..ix];
  }

  /** Asks for every unconfirmed entry and flags those the node confirms. */
  method ConfirmHashes(hs0: seq<TxState>, inclusion: seq<Hash> -> seq<bool>)
      returns (hs: seq<TxState>, confirmed: seq<Hash>)
    ensures hs == Confirmed(hs0, inclusion(Unconfirmed(hs0)))
    ensures confirmed == Flipped(hs0, hs)
  {
    hs, confirmed := hs0, [];
    var checks: seq<Hash>, indexOf: seq<nat> := [], [];
    for idx := 0 to |hs|
      invariant checks == Unconfirmed(hs[..idx]) && indexOf == Positions(hs[..idx])
    {
      assert hs[..idx + 1][..idx] == hs[..idx];
      if !hs[idx].confirmed {
        checks := checks + [hs[idx].hash];
        indexOf := indexOf + [idx];
      }
    }
    assert hs0[..|hs0|] == hs0;
    var states := inclusion(checks);
    FlippedSame(hs0);
    if |states| == |checks| {
      hs, confirmed := SetConfirmed(hs0, checks, indexOf, states);
      FlippedIsChosen(hs0, states);
    }
  }

  method SetConfirmed(hs0: seq<TxState>, checks: seq<Hash>, indexOf: seq<nat>, states: seq<bool>)
      returns (hs: seq<TxState>, confirmed: seq<Hash>)
    requires checks == Unconfirmed(hs0) && indexOf == Positions(hs0) && |states| == |checks|
    ensures hs == Flip(hs0, states) && confirmed == Chosen(checks, states)
  {
    hide Flip, Unconfirmed, Positions, Chosen, UpTo;
    hs, confirmed := hs0, [];
    NoAnswers(hs0, states);
    ChosenNone(checks, states);
    for ix := 0 to |states|
      invariant hs == Flip(hs0, UpTo(states, ix))
      invariant confirmed == Chosen(checks[..ix], states[..ix])
    {
      ChosenStep(checks, states, ix);
      UpToStep(states, ix);
      FlipOne(hs0, UpTo(states, ix), ix);
      if states[ix] {
        confirmed := confirmed + [checks[ix]];
        if checks[ix] == hs[indexOf[ix]].hash {
          hs := hs[indexOf[ix] := TxState(hs[indexOf[ix]].hash, true)];
        } else {
          assert false;
        }
      }
    }
    UpToAll(states);
    assert states[..|states|] == states && checks[..|checks|] == checks;
  }

  // ---- facts about the list ----

  lemma {:induction false} NewsExact(hs: seq<TxState>, input: seq<Hash>)
    ensures forall h :: h in News(hs, input) <==> h in input && h !in HashesOf(hs)
    ensures Distinct(input) ==> Distinct(News(hs, input))
  {
    if input == [] {
    } else {
      var init, h := input[..|input| - 1], input[|input| - 1];
      NewsExact(hs, init);
      assert input == init + [h];
      DistinctConcat(init, [h]);
      DistinctConcat(News(hs, init), [h]);
      assert News(hs, init) + [] == News(hs, init);
    }
  }

  lemma {:induction false} FlippedExact(before: seq<TxState>, after: seq<TxState>)
    requires |before| == |after| && Extends(before, after)
    ensures forall h :: h in Flipped(before, after) <==>
              exists p :: 0 <= p < |before| && before[p].hash == h && !before[p].confirmed && after[p].confirmed
    ensures Distinct(HashesOf(before)) ==> Distinct(Flipped(before, after))
  {
    if before == [] {
    } else {
      var n := |before| - 1;
      FlippedExact(before[..n], after[..n]);
      var f, x := Flipped(before[..n], after[..n]), before[n].hash;
      assert HashesOf(before) == HashesOf(before[..n]) + [x];
      DistinctConcat(HashesOf(before[..n]), [x]);
      DistinctConcat(f, [x]);
      assert f + [] == f;
      forall h | h in f
        ensures h in HashesOf(before[..n])
      {
        var p :| 0 <= p < n && before[..n][p].hash == h;
        assert HashesOf(before[..n])[p] == h;
      }
    }
  }

  lemma ConfirmedExtends(hs: seq<TxState>, states: seq<bool>)
    ensures Extends(hs, Confirmed(hs, states)) && HashesOf(Confirmed(hs, states)) == HashesOf(hs)
  {
    if |states| == |Unconfirmed(hs)| {
      FlipExtends(hs, states);
    }
  }

  lemma ListedHashes(hs: seq<TxState>, news: seq<Hash>)
    ensures HashesOf(hs + Unflagged(news)) == HashesOf(hs) + news
  {
  }

  lemma FlippedAreListed(before: seq<TxState>, after: seq<TxState>)
    requires |before| == |after| && Extends(before, after)
    ensures forall h :: h in Flipped(before, after) ==> h in HashesOf(after)
  {
    FlippedExact(before, after);
    forall h | h in Flipped(before, after)
      ensures h in HashesOf(after)
    {
      var p :| 0 <= p < |before| && before[p].hash == h;
      assert HashesOf(after)[p] == h;
    }
  }

  // ---- the transaction bucket ----

  /** putTX drops the signature; reading puts an empty one back. */
  function Stored(t: Transaction): Transaction {
    t.(frag := EMPTY_SIG)
  }

  function PutAll(lib: Library, txs: TxBucket, trs: seq<Transaction>): TxBucket {
    if trs == [] then txs
    else
      var t := trs[|trs| - 1];
      PutAll(lib, txs, trs[..|trs| - 1])[lib.txHash(t) := Stored(t)]
  }

  lemma {:induction false} PutAllKeys(lib: Library, txs: TxBucket, trs: seq<Transaction>)
    ensures forall h :: h in PutAll(lib, txs, trs) <==> h in txs || exists t :: t in trs && lib.txHash(t) == h
  {
    if trs == [] {
    } else {
      PutAllKeys(lib, txs, trs[..|trs| - 1]);
      assert trs == trs[..|trs| - 1] + [trs[|trs| - 1]];
    }
  }

  /** u is t as the node sent it, but for the signature, which reads as empty. */
  ghost predicate Unsigned(t: Transaction, u: Transaction) {
    && u.address == t.address && u.value == t.value && u.tag == t.tag && u.timestamp == t.timestamp
    && u.currentIndex == t.currentIndex && u.lastIndex == t.lastIndex && u.bundle == t.bundle
    && u.trunk == t.trunk && u.branch == t.branch && u.nonce == t.nonce
    && u.frag == EMPTY_SIG
  }

  /** The last transaction with the hash, or -1. */
  function LastOf(lib: Library, trs: seq<Transaction>, h: Hash): (r: int)
    ensures -1 <= r < |trs|
    ensures r >= 0 ==> lib.txHash(trs[r]) == h
    ensures forall j :: r < j < |trs| ==> lib.txHash(trs[j]) != h
  {
    if trs == [] then -1
    else if lib.txHash(trs[|trs| - 1]) == h then |trs| - 1
    else LastOf(lib, trs[..|trs| - 1], h)
  }

  /** What putting transactions leaves: under each hash the last of that hash, unsigned; other
      hashes as they were. */
  ghost predicate HoldsAll(lib: Library, before: TxBucket, trs: seq<Transaction>, after: TxBucket) {
    forall h :: HoldsAt(lib, before, trs, after, h)
  }

  ghost predicate HoldsAt(lib: Library, before: TxBucket, trs: seq<Transaction>, after: TxBucket, h: Hash) {
    var i := LastOf(lib, trs, h);
    if i < 0 then (h in after <==> h in before) && (h in before ==> after[h] == before[h])
    else h in after && Unsigned(trs[i], after[h])
  }

  lemma {:induction false} PutAllHolds(lib: Library, txs: TxBucket, trs: seq<Transaction>)
    ensures HoldsAll(lib, txs, trs, PutAll(lib, txs, trs))
  {
    forall h
      ensures HoldsAt(lib, txs, trs, PutAll(lib, txs, trs), h)
    {
      PutAllAt(lib, txs, trs, h);
    }
  }

  lemma {:induction false} PutAllAt(lib: Library, txs: TxBucket, trs: seq<Transaction>, h: Hash)
    ensures HoldsAt(lib, txs, trs, PutAll(lib, txs, trs), h)
  {
    if trs == [] {
    } else {
      PutAllAt(lib, txs, trs[..|trs| - 1], h);
    }
  }

  /** A transaction comes back from the bucket as it was put there, its signature aside. */
  lemma StoredThenRead(lib: Library, txs: TxBucket, trs: seq<Transaction>, i: nat)
    requires i < |trs| && forall j :: i < j < |trs| ==> lib.txHash(trs[j]) != lib.txHash(trs[i])
    ensures var r := Load(PutAll(lib, txs, trs), [lib.txHash(trs[i])]);
            r.Some? && |r.value| == 1 && Unsigned(trs[i], r.value[0])
  {
    var put, h := PutAll(lib, txs, trs), lib.txHash(trs[i]);
    PutAllAt(lib, txs, trs, h);
    assert LastOf(lib, trs, h) == i;
    assert h in put && |put| > 0;
  }

  /** Every listed hash has its transaction in the bucket. */
  ghost predicate Intact(hs: seq<TxState>, txs: TxBucket) {
    forall h :: h in HashesOf(hs) ==> h in txs
  }

  /** The node returns every transaction it is asked for. */
  ghost predicate ReturnsAll(lib: Library, trytes: seq<Hash> -> Option<seq<Transaction>>) {
    forall q :: trytes(q).Some? ==>
      forall h :: h in q ==> exists t :: t in trytes(q).value && lib.txHash(t) == h
  }

  /** getTXs: fails on a missing hash, and on a bucket nothing was ever put into. */
  function Load(txs: TxBucket, hashes: seq<Hash>): Option<seq<Transaction>> {
    if |txs| > 0 && forall h :: h in hashes ==> h in txs
    then Some(seq(|hashes|, i requires 0 <= i < |hashes| && hashes[i] in txs => txs[hashes[i]]))
    else None
  }

  // ---- compareHashes ----

  datatype Outcome = Outcome(hashes: seq<TxState>, txs: TxBucket, ok: bool, news: seq<Hash>, confirmed: seq<Hash>)

  function Listing(hs: seq<TxState>, input: seq<Hash>): seq<TxState> {
    hs + Unflagged(News(hs, input))
  }

  /** What a call leaves in the database and returns.  The first commit stores transactions,
      the second the hash list; the call can end before either. */
  ghost function Compare(lib: Library, node: Node, hs: seq<TxState>, txs: TxBucket, input: seq<Hash>): Outcome {
    var reply := node.trytes(News(hs, input));
    if reply.None? then Outcome(hs, txs, false, [], [])
    else if !node.info then Outcome(hs, PutAll(lib, txs, reply.value), false, [], [])
    else
      var listed := Listing(hs, input);
      var after := Confirmed(listed, node.states(Unconfirmed(listed)));
      Outcome(after, PutAll(lib, txs, reply.value), true, News(hs, input), Flipped(listed, after))
  }

  /** The list only grows, by exactly the hashes returned as new, and no flag goes down. */
  lemma CompareAppends(lib: Library, node: Node, hs: seq<TxState>, txs: TxBucket, input: seq<Hash>)
    ensures var o := Compare(lib, node, hs, txs, input);
            && HashesOf(o.hashes) == HashesOf(hs) + o.news
            && Extends(hs, o.hashes)
            && (o.ok ==> forall h :: h in o.news <==> h in input && h !in HashesOf(hs))
  {
    NewsExact(hs, input);
    var listed := Listing(hs, input);
    ConfirmedExtends(listed, node.states(Unconfirmed(listed)));
    assert HashesOf(listed) == HashesOf(hs) + News(hs, input);
    assert HashesOf(hs) + [] == HashesOf(hs);
  }

  /** The hashes returned as confirmed are those whose flag this call raised: unflagged or
      unlisted before, flagged afterwards. */
  lemma CompareConfirms(lib: Library, node: Node, hs: seq<TxState>, txs: TxBucket, input: seq<Hash>)
    requires Distinct(HashesOf(hs)) && Distinct(input)
    ensures var o := Compare(lib, node, hs, txs, input);
            && Distinct(HashesOf(o.hashes)) && Distinct(o.confirmed)
            && forall h :: h in o.confirmed <==> TxState(h, true) in o.hashes && TxState(h, true) !in hs
  {
    var o := Compare(lib, node, hs, txs, input);
    CompareAppends(lib, node, hs, txs, input);
    NewsExact(hs, input);
    DistinctConcat(HashesOf(hs), News(hs, input));
    var listed := Listing(hs, input);
    if o.ok {
      assert HashesOf(listed) == HashesOf(hs) + News(hs, input);
      ConfirmedExtends(listed, node.states(Unconfirmed(listed)));
      FlippedExact(listed, o.hashes);
      forall h
        ensures h in o.confirmed <==> TxState(h, true) in o.hashes && TxState(h, true) !in hs
      {
        FlagRaised(hs, listed, o.hashes, h);
      }
    } else {
      assert HashesOf(hs) + [] == HashesOf(hs);
    }
  }

  lemma FlagRaised(hs: seq<TxState>, listed: seq<TxState>, after: seq<TxState>, h: Hash)
    requires |listed| == |after| && Extends(listed, after) && Distinct(HashesOf(listed))
    requires hs <= listed && forall t :: t in listed[|hs|..] ==> !t.confirmed
    ensures (exists p :: 0 <= p < |listed| && listed[p].hash == h && !listed[p].confirmed && after[p].confirmed) <==>
            TxState(h, true) in after && TxState(h, true) !in hs
  {
    assert forall p :: 0 <= p < |hs| ==> listed[p] == hs[p];
    assert forall p :: |hs| <= p < |listed| ==> listed[p] == listed[|hs|..][p - |hs|];
    if p :| 0 <= p < |listed| && listed[p].hash == h && !listed[p].confirmed && after[p].confirmed {
      assert after[p] == TxState(h, true);
      forall q | 0 <= q < |hs|
        ensures hs[q] != TxState(h, true)
      {
        assert q != p ==> HashesOf(listed)[q] != HashesOf(listed)[p];
      }
    }
    if TxState(h, true) in after && TxState(h, true) !in hs {
      var p :| 0 <= p < |after| && after[p] == TxState(h, true);
      assert p < |hs| ==> hs[p] in hs;
      assert listed[p].hash == h && !listed[p].confirmed;
    }
  }

  /** No hash stands twice in the input, unless it is listed already. */
  ghost predicate RepeatsListedOnly(hs: seq<TxState>, input: seq<Hash>) {
    forall i, j :: 0 <= i < j < |input| && input[i] == input[j] ==> input[i] in HashesOf(hs)
  }

  lemma {:induction false} NewsDistinctIff(hs: seq<TxState>, input: seq<Hash>)
    ensures Distinct(News(hs, input)) <==> RepeatsListedOnly(hs, input)
  {
    if input == [] {
    } else {
      var n := |input| - 1;
      var init, h := input[..n], input[n];
      NewsDistinctIff(hs, init);
      NewsExact(hs, init);
      DistinctConcat(News(hs, init), [h]);
      assert News(hs, init) + [] == News(hs, init);
      RepeatsOneMore(hs, input);
    }
  }

  lemma RepeatsOneMore(hs: seq<TxState>, input: seq<Hash>)
    requires input != []
    ensures var n := |input| - 1;
            RepeatsListedOnly(hs, input) <==>
            RepeatsListedOnly(hs, input[..n]) && (input[n] in input[..n] ==> input[n] in HashesOf(hs))
  {
    var n := |input| - 1;
    var init := input[..n];
    assert forall i :: 0 <= i < n ==> init[i] == input[i];
    if RepeatsListedOnly(hs, input) && input[n] in init {
      var i :| 0 <= i < n && init[i] == input[n];
      assert input[i] == input[n];
    }
  }

  /** Duplicates in the input are not removed: a list without repetition stays so exactly when
      the call stores no list or every repeated hash of the input was listed before. */
  lemma CompareDistinctIff(lib: Library, node: Node, hs: seq<TxState>, txs: TxBucket, input: seq<Hash>)
    requires Distinct(HashesOf(hs))
    ensures Distinct(HashesOf(Compare(lib, node, hs, txs, input).hashes)) <==>
            node.trytes(News(hs, input)).None? || !node.info || RepeatsListedOnly(hs, input)
  {
    CompareAppends(lib, node, hs, txs, input);
    NewsExact(hs, input);
    NewsDistinctIff(hs, input);
    DistinctConcat(HashesOf(hs), Compare(lib, node, hs, txs, input).news);
  }

  lemma {:induction false} FreshList(input: seq<Hash>, states: seq<bool>)
    requires |states| == |input| && forall i :: 0 <= i < |states| ==> states[i]
    ensures News([], input) == input
    ensures Unconfirmed(Unflagged(input)) == input
    ensures Chosen(input, states) == input
  {
    if input == [] {
    } else {
      var n := |input| - 1;
      FreshList(input[..n], states[..n]);
      assert Unflagged(input)[..n] == Unflagged(input[..n]);
    }
  }

  /** Hence a hash that stands twice in the input of the first call is returned as confirmed
      twice: what the node confirms comes back exactly as it went in. */
  lemma RepeatedInputConfirmsTwice(lib: Library, node: Node, txs: TxBucket, input: seq<Hash>)
    requires node.trytes(input).Some? && node.info
    requires |node.states(input)| == |input| && forall i :: 0 <= i < |input| ==> node.states(input)[i]
    ensures Compare(lib, node, [], txs, input).confirmed == input
  {
    FreshList(input, node.states(input));
    var listed := Listing([], input);
    assert listed == Unflagged(input);
    FlippedIsChosen(listed, node.states(input));
  }

  /** Referential integrity holds after each commit point of a call, however it ends. */
  lemma CompareKeepsIntact(lib: Library, node: Node, hs: seq<TxState>, txs: TxBucket, input: seq<Hash>)
    requires Intact(hs, txs) && ReturnsAll(lib, node.trytes)
    ensures var o := Compare(lib, node, hs, txs, input); Intact(hs, o.txs) && Intact(o.hashes, o.txs)
  {
    var o := Compare(lib, node, hs, txs, input);
    CompareAppends(lib, node, hs, txs, input);
    var reply := node.trytes(News(hs, input));
    if reply.Some? {
      PutAllKeys(lib, txs, reply.value);
    }
  }

  /** So the credit step finds every confirmed transaction. */
  lemma CreditsLoadable(lib: Library, node: Node, hs: seq<TxState>, txs: TxBucket, input: seq<Hash>)
    requires Distinct(HashesOf(hs)) && Distinct(input)
    requires Intact(hs, txs) && ReturnsAll(lib, node.trytes)
    ensures var o := Compare(lib, node, hs, txs, input);
            o.news != [] || o.confirmed != [] ==> Load(o.txs, o.confirmed).Some?
  {
    var o := Compare(lib, node, hs, txs, input);
    CompareKeepsIntact(lib, node, hs, txs, input);
    CompareConfirms(lib, node, hs, txs, input);
    CompareAppends(lib, node, hs, txs, input);
    forall h | h in o.confirmed
      ensures h in o.txs
    {
      var p :| 0 <= p < |o.hashes| && o.hashes[p] == TxState(h, true);
      assert HashesOf(o.hashes)[p] == h;
    }
    if o.news != [] {
      assert o.news[0] in HashesOf(o.hashes);
      assert o.news[0] in o.txs;
    } else if o.confirmed != [] {
      assert o.confirmed[0] in o.txs;
    }
  }

  // ---- the database operations ----

  /** The stored transactions of a bundle. */
  function Mates(txs: TxBucket, bundle: Hash): set<Hash> {
    set h | h in txs && txs[h].bundle == bundle
  }

  /** The list entries of one hash. */
  function EntriesOf(hs: seq<TxState>, h: Hash): seq<TxState> {
    if hs == [] then []
    else EntriesOf(hs[..|hs| - 1], h) + if hs[|hs| - 1].hash == h then [hs[|hs| - 1]] else []
  }

  lemma {:induction false} EntriesOfExact(hs: seq<TxState>, h: Hash)
    ensures forall t :: t in EntriesOf(hs, h) <==> t in hs && t.hash == h
    ensures Distinct(HashesOf(hs)) ==> |EntriesOf(hs, h)| <= 1
  {
    if hs == [] {
    } else {
      var init, last := hs[..|hs| - 1], hs[|hs| - 1];
      EntriesOfExact(init, h);
      assert hs == init + [last] && HashesOf(hs) == HashesOf(init) + [last.hash];
      DistinctConcat(HashesOf(init), [last.hash]);
      if EntriesOf(init, h) != [] {
        var t := EntriesOf(init, h)[0];
        assert t in init;
        var i :| 0 <= i < |init| && init[i] == t;
        assert HashesOf(init)[i] == h;
        assert h in HashesOf(init);
      }
    }
  }

  /** The list entries of the hashes in ks, each hash being listed. */
  ghost predicate StatesFor(hs: seq<TxState>, ks: set<Hash>, states: seq<TxState>) {
    && (forall h :: h in ks ==> h in HashesOf(hs))
    && (forall t :: t in states <==> t in hs && t.hash in ks)
    && (Distinct(HashesOf(hs)) ==> |states| == |ks| && Distinct(HashesOf(states)))
  }

  lemma ListedEntries(hs: seq<TxState>, h: Hash)
    ensures EntriesOf(hs, h) == [] <==> h !in HashesOf(hs)
  {
    EntriesOfExact(hs, h);
    if EntriesOf(hs, h) != [] {
      var i :| 0 <= i < |hs| && hs[i] == EntriesOf(hs, h)[0];
      assert HashesOf(hs)[i] == h;
    }
  }

  lemma DistinctOneMore(states: seq<TxState>, matches: seq<TxState>, h: Hash)
    requires Distinct(HashesOf(states)) && |matches| <= 1 && h !in HashesOf(states)
    requires forall t :: t in matches ==> t.hash == h
    ensures Distinct(HashesOf(states + matches))
  {
    assert HashesOf(states + matches) == HashesOf(states) + HashesOf(matches);
    DistinctConcat(HashesOf(states), HashesOf(matches));
  }

  lemma StatesForOneMore(hs: seq<TxState>, ks: set<Hash>, states: seq<TxState>, h: Hash)
    requires StatesFor(hs, ks, states) && h !in ks && h in HashesOf(hs)
    ensures StatesFor(hs, ks + {h}, states + EntriesOf(hs, h))
  {
    EntriesOfExact(hs, h);
    ListedEntries(hs, h);
    if Distinct(HashesOf(hs)) {
      assert forall i :: 0 <= i < |states| ==> states[i] in states;
      DistinctOneMore(states, EntriesOf(hs, h), h);
    }
  }

  /** The listed hashes without a stored transaction. */
  function Missing(hs: seq<TxState>, txs: TxBucket): seq<Hash> {
    if hs == [] then []
    else
      var h := hs[|hs| - 1].hash;
      Missing(hs[..|hs| - 1], txs) + if h in txs then [] else [h]
  }

  lemma {:induction false} MissingExact(hs: seq<TxState>, txs: TxBucket)
    ensures forall h :: h in Missing(hs, txs) <==> h in HashesOf(hs) && h !in txs
  {
    if hs == [] {
    } else {
      var n := |hs| - 1;
      MissingExact(hs[..n], txs);
      assert HashesOf(hs) == HashesOf(hs[..n]) + [hs[n].hash];
    }
  }

  class HashDB {
    var hashes: seq<TxState>
    var txs: TxBucket

    constructor ()
      ensures hashes == [] && txs == map[]
    {
      hashes, txs := [], map[];
    }

    method CompareHashes(lib: Library, node: Node, input: seq<Hash>)
        returns (ok: bool, news: seq<Hash>, confirmed: seq<Hash>)
      modifies this
      ensures Outcome(hashes, txs, ok, news, confirmed) == Compare(lib, node, old(hashes), old(txs), input)
    {
      var hs := hashes;
      news := [];
      for i := 0 to |input|
        invariant news == News(hs, input[..i]) && hashes == hs && txs == old(txs)
      {
        assert input[..i + 1][..i] == input[..i];
        var exist := false;
        for j := 0 to |hs|
          invariant !exist && forall k :: 0 <= k < j ==> hs[k].hash != input[i]
        {
          if input[i] == hs[j].hash {
            exist := true;
            assert HashesOf(hs)[j] == input[i];
            break;
          }
        }
        if !exist {
          news := news + [input[i]];
        }
      }
      assert input[..|input|] == input;
      var trs := node.trytes(news);
      if trs.None? {
        return false, [], [];
      }
      PutTXs(lib, trs.value);
      if !node.info {
        return false, [], [];
      }
      hashes, confirmed := ConfirmHashes(hs + Unflagged(news), node.states);
      return true, news, confirmed;
    }

    method PutTXs(lib: Library, trs: seq<Transaction>)
      modifies this`txs
      ensures txs == PutAll(lib, old(txs), trs)
      ensures HoldsAll(lib, old(txs), trs, txs)
    {
      PutAllHolds(lib, txs, trs);
      hide HoldsAll;
      for i := 0 to |trs|
        invariant txs == PutAll(lib, old(txs), trs[..i])
      {
        assert trs[..i + 1][..i] == trs[..i];
        txs := txs[lib.txHash(trs[i]) := Stored(trs[i])];
      }
      assert trs[..|trs|] == trs;
    }

    method GetTXs(hash: seq<Hash>) returns (ret: Option<seq<Transaction>>)
      ensures ret == Load(txs, hash)
      ensures ret.Some? <==> |txs| > 0 && forall h :: h in hash ==> h in txs
      ensures ret.Some? ==>
                |ret.value| == |hash| && forall i :: 0 <= i < |hash| ==> hash[i] in txs && ret.value[i] == txs[hash[i]]
    {
      if |txs| == 0 {
        return None;
      }
      var trs := [];
      for i := 0 to |hash|
        invariant |trs| == i && forall j :: 0 <= j < i ==> hash[j] in txs && trs[j] == txs[hash[j]]
      {
        if hash[i] !in txs {
          return None;
        }
        trs := trs + [txs[hash[i]]];
      }
      assert forall h :: h in hash ==> h in txs;
      assert trs == Load(txs, hash).value;
      return Some(trs);
    }

    /** Fetches the transactions that listed hashes lack, and stores whatever the node returns. */
    method UpdateTXs(lib: Library, node: Node) returns (ok: bool)
      modifies this`txs
      ensures var req := Missing(hashes, old(txs));
              && (ok <==> req == [] || node.trytes(req).Some?)
              && txs == if req != [] && ok then PutAll(lib, old(txs), node.trytes(req).value) else old(txs)
      ensures ok && ReturnsAll(lib, node.trytes) ==> Intact(hashes, txs)
    {
      var req := [];
      for i := 0 to |hashes|
        invariant req == Missing(hashes[..i], txs) && txs == old(txs)
      {
        assert hashes[..i + 1][..i] == hashes[..i];
        if hashes[i].hash !in txs {
          req := req + [hashes[i].hash];
        }
      }
      assert hashes[..|hashes|] == hashes;
      MissingExact(hashes, txs);
      if |req| == 0 {
        return true;
      }
      var resp := node.trytes(req);
      if resp.None? {
        return false;
      }
      PutTXs(lib, resp.value);
      PutAllKeys(lib, old(txs), resp.value);
      return true;
    }

    /** The stored transactions of a bundle, each once, in the order the map happens to
        yield; and their list entries, in another such order.  None when a stored
        transaction of the bundle is not listed, or nothing was ever stored. */
    method FindTX(bundle: Hash)
        returns (found: bool, trs: seq<Transaction>, states: seq<TxState>, ghost keys: seq<Hash>)
      ensures found <==> |txs| > 0 && forall h :: h in txs && txs[h].bundle == bundle ==> h in HashesOf(hashes)
      ensures found ==> Distinct(keys) && |trs| == |keys|
                        && (forall h :: h in keys <==> h in txs && txs[h].bundle == bundle)
                        && forall i :: 0 <= i < |keys| ==> keys[i] in txs && trs[i] == txs[keys[i]]
      ensures found ==> forall t :: t in states <==> t in hashes && t.hash in txs && txs[t.hash].bundle == bundle
      ensures found && Distinct(HashesOf(hashes)) ==> |states| == |trs| && Distinct(HashesOf(states))
    {
      trs, states, keys := [], [], [];
      if |txs| == 0 {
        return false, trs, states, keys;
      }
      states, found := FindStates(bundle);
      if !found {
        return false, trs, states, keys;
      }
      var todo := Mates(txs, bundle);
      while todo != {}
        invariant todo <= Mates(txs, bundle) && Distinct(keys) && |trs| == |keys|
        invariant |keys| + |todo| == |Mates(txs, bundle)|
        invariant forall h :: h in keys <==> h in Mates(txs, bundle) && h !in todo
        invariant forall i :: 0 <= i < |keys| ==> keys[i] in txs && trs[i] == txs[keys[i]]
      {
        var h :| h in todo;
        trs, keys, todo := trs + [txs[h]], keys + [h], todo - {h};
      }
    }

    method FindStates(bundle: Hash) returns (states: seq<TxState>, found: bool)
      ensures found <==> forall h :: h in Mates(txs, bundle) ==> h in HashesOf(hashes)
      ensures found ==> StatesFor(hashes, Mates(txs, bundle), states)
    {
      hide StatesFor;
      states := [];
      var mates := Mates(txs, bundle);
      var todo := mates;
      NoStates(hashes);
      ghost var done: set<Hash> := {};
      while todo != {}
        invariant mates == done + todo && done !! todo
        invariant StatesFor(hashes, done, states)
      {
        var h :| h in todo;
        var matches := EntriesOfHash(hashes, h);
        ListedEntries(hashes, h);
        if matches == [] {
          return states, false;
        }
        StatesForOneMore(hashes, done, states, h);
        states, todo, done := states + matches, todo - {h}, done + {h};
      }
      assert done == mates;
      AllStates(hashes, done, states);
      return states, true;
    }
  }

  lemma NoStates(hs: seq<TxState>)
    ensures StatesFor(hs, {}, [])
  {
  }

  lemma AllStates(hs: seq<TxState>, ks: set<Hash>, states: seq<TxState>)
    requires StatesFor(hs, ks, states)
    ensures forall h :: h in ks ==> h in HashesOf(hs)
  {
  }

  method EntriesOfHash(hs: seq<TxState>, h: Hash) returns (r: seq<TxState>)
    ensures r == EntriesOf(hs, h)
  {
    r := [];
    for i := 0 to |hs|
      invariant r == EntriesOf(hs[..i], h)
    {
      assert hs[..i + 1][..i] == hs[..i];
      if hs[i].hash == h {
        r := r + [hs[i]];
      }
    }
    assert hs[..|hs|] == hs;
  }
}
