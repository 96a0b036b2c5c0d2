/** What a wallet's scan finds, in terms of the blocks that were applied. */
module ScanViews {
  import opened ByteOrder
  import opened Keys
  import opened Pebble
  import opened Blocks
  import opened Runs
  import opened CutThroughViews
  import opened ComputeViews
  import opened ComputeIndexes
  import opened ReceiverScan
  import opened ComputeScan

  /** The first eight bytes of each output's key. */
  function FirstEights(outs: seq<Output>): (r: seq<Short8>)
    requires forall i :: 0 <= i < |outs| ==> |outs[i].pubkey| == 32
    ensures |r| == |outs|
  {
    seq(|outs|, i requires 0 <= i < |outs| => outs[i].pubkey[..8])
  }

  /** A transaction the wallet can look at: it has a tweak, and 32-byte output keys. */
  ghost predicate Scannable(t: DBTx) {
    t.tweak.Some? && forall i :: 0 <= i < |t.outs| ==> |t.outs[i].pubkey| == 32
  }

  /** The transaction pays the wallet `f`: one of the outputs that keys 0, 1, ... derived from its tweak match in
      turn. */
  ghost predicate Pays(wallet: Wallet, t: DBTx, f: FoundOutput)
    requires Scannable(t)
  {
    var derive := wallet(t.tweak.value);
    derive.Ok? && exists found: seq<Found>, i: nat ::
      && MatchesInTurn(derive.value, multiset(FirstEights(t.outs)), 0, found) && i < |found|
      && f == FoundOutput(found[i].output, found[i].secKeyTweak, t.txid)
  }

  /** The scan of the transaction fails: no shared secret, or no next key after the ones matched. */
  ghost predicate Breaks(wallet: Wallet, t: DBTx)
    requires Scannable(t)
  {
    var derive := wallet(t.tweak.value);
    derive.Err? || exists found :: FailsAfter(derive.value, multiset(FirstEights(t.outs)), 0, found)
  }

  // ---------- one row ----------

  lemma {:induction false} OutShortsAre(outs: seq<Output>)
    requires forall i :: 0 <= i < |outs| ==> |outs[i].pubkey| == 32
    ensures |OutShorts(outs)| == 8 * |outs|
    ensures forall k :: 0 <= k < |outs| ==> OutShorts(outs)[8 * k..8 * k + 8] == outs[k].pubkey[..8]
  {
    if outs != [] {
      var n := |outs| - 1;
      OutShortsAre(outs[..n]);
      var data, front := OutShorts(outs), OutShorts(outs[..n]);
      forall k | 0 <= k < |outs| ensures data[8 * k..8 * k + 8] == outs[k].pubkey[..8] {
        if k < n { assert data[8 * k..8 * k + 8] == front[8 * k..8 * k + 8]; }
      }
    }
  }

  lemma RowValue(blocks: seq<DBBlock>, b: DBBlock, t: DBTx)
    requires ChainRun(blocks) && b in blocks && HasTx(b, t) && t.tweak.Some?
    ensures RowAt(Replay(map[], blocks), b.height, t.txid)
    ensures IsComputeData(t, Replay(map[], blocks)[Encode(ComputeIndex(b.height, t.txid))])
  {
    var key := ComputeIndex(b.height, t.txid);
    RunKeeps(blocks, b, Write(key, t.tweak.value + OutShorts(t.outs)));
    var c := RunHas(blocks, key);
    var s :| HasTx(c, s) && s.txid == t.txid && IsComputeData(s, Replay(map[], blocks)[Encode(key)]);
    assert SameTx(s, t);
  }

  lemma DataSplits(t: DBTx, val: Bytes)
    requires Scannable(t) && IsComputeData(t, val)
    ensures |val| >= 33 && val[..33] == t.tweak.value && Chunks(val[33..]) == FirstEights(t.outs)
  {
    OutShortsAre(t.outs);
    assert val[33..] == OutShorts(t.outs);
  }

  /** The row of an applied transaction: its tweak, then eight bytes per output. */
  lemma RowOf(blocks: seq<DBBlock>, b: DBBlock, t: DBTx)
    requires ChainRun(blocks) && b in blocks && HasTx(b, t) && t.tweak.Some?
    ensures Scannable(t) && RowAt(Replay(map[], blocks), b.height, t.txid)
    ensures var val := Replay(map[], blocks)[Encode(ComputeIndex(b.height, t.txid))];
      |val| >= 33 && val[..33] == t.tweak.value && Chunks(val[33..]) == FirstEights(t.outs)
  {
    assert GoodTx(t);
    RowValue(blocks, b, t);
    DataSplits(t, Replay(map[], blocks)[Encode(ComputeIndex(b.height, t.txid))]);
  }

  /** Every row is that of an applied transaction. */
  lemma RowIsOf(blocks: seq<DBBlock>, height: U32, txid: Hash) returns (b: DBBlock, t: DBTx)
    requires ChainRun(blocks) && RowAt(Replay(map[], blocks), height, txid)
    ensures b in blocks && b.height == height && HasTx(b, t) && t.txid == txid && t.tweak.Some?
  {
    var key := ComputeIndex(height, txid);
    b := RunHas(blocks, key);
    t :| HasTx(b, t) && t.txid == txid && IsComputeData(t, Replay(map[], blocks)[Encode(key)]);
  }

  lemma RowFoundIs(wallet: Wallet, key: Bytes, val: Bytes, t: DBTx)
    requires |key| >= 5 && key[5..] == t.txid && |val| >= 33 && Scannable(t)
    requires val[..33] == t.tweak.value && Chunks(val[33..]) == FirstEights(t.outs)
    ensures RowFound(wallet, key, val).Err? <==> Breaks(wallet, t)
    ensures RowFound(wallet, key, val).Ok? ==>
      forall f :: f in RowFound(wallet, key, val).value <==> Pays(wallet, t, f)
  {
    var outs := FirstEights(t.outs);
    if wallet(t.tweak.value).Ok? {
      var derive := wallet(t.tweak.value).value;
      var m := Matches(derive, multiset(outs), 0);
      if m.Err? {
        var found := ScanFails(derive, multiset(outs), 0);
      } else {
        NeverBreaks(derive, multiset(outs));
        forall f ensures f in RowFound(wallet, key, val).value <==> Pays(wallet, t, f) {
          MatchedIsPaid(wallet, t, derive, m.value, f);
        }
      }
    }
  }

  lemma NeverBreaks(derive: Deriver, outs: multiset<Short8>)
    requires Matches(derive, outs, 0).Ok?
    ensures forall found :: !FailsAfter(derive, outs, 0, found)
  {
    forall found ensures !FailsAfter(derive, outs, 0, found) {
      if FailsAfter(derive, outs, 0, found) { FailureStops(derive, outs, 0, found); }
    }
  }

  lemma MatchedIsPaid(wallet: Wallet, t: DBTx, derive: Deriver, found: seq<Found>, f: FoundOutput)
    requires Scannable(t) && wallet(t.tweak.value) == Ok(derive)
    requires Matches(derive, multiset(FirstEights(t.outs)), 0) == Ok(found)
    ensures f in WithTxid(t.txid, found) <==> Pays(wallet, t, f)
  {
    var outs := FirstEights(t.outs);
    ScanExact(derive, outs, found);
    if Pays(wallet, t, f) {
      var other: seq<Found>, i: nat :| MatchesInTurn(derive, multiset(outs), 0, other) && i < |other|
        && f == FoundOutput(other[i].output, other[i].secKeyTweak, t.txid);
      ScanExact(derive, outs, other);
      assert WithTxid(t.txid, found)[i] == f;
    }
    if f in WithTxid(t.txid, found) {
      var i :| 0 <= i < |found| && WithTxid(t.txid, found)[i] == f;
    }
  }

  // ---------- a whole scan ----------

  /** An applied transaction in the interval; the one with the all-FF txid at its top height is out of bounds. */
  ghost predicate InInterval(blocks: seq<DBBlock>, start: U32, end: U32, b: DBBlock, t: DBTx) {
    b in blocks && HasTx(b, t) && t.tweak.Some? && Visits(start, end, b.height, t.txid)
  }

  lemma RowFinds(blocks: seq<DBBlock>, wallet: Wallet, b: DBBlock, t: DBTx)
    requires ChainRun(blocks) && b in blocks && HasTx(b, t) && t.tweak.Some?
    ensures ComputeStore(Replay(map[], blocks)) && RowAt(Replay(map[], blocks), b.height, t.txid) && Scannable(t)
    ensures var r := RowAtFound(Replay(map[], blocks), wallet, b.height, t.txid);
      (r.Err? <==> Breaks(wallet, t)) && (r.Ok? ==> forall f :: f in r.value <==> Pays(wallet, t, f))
  {
    var db := Replay(map[], blocks);
    RunComputeStore(blocks);
    RowOf(blocks, b, t);
    RowShape(db, b.height, t.txid);
    var k := Encode(ComputeIndex(b.height, t.txid));
    RowFoundIs(wallet, k, db[k], t);
  }

  /** A scan of a fork-free chain fails exactly when the scan of one of its transactions does. */
  lemma ChainScanFails(blocks: seq<DBBlock>, wallet: Wallet, start: U32, end: U32)
    requires ChainRun(blocks)
    ensures ComputeStore(Replay(map[], blocks))
    ensures Sequential(Replay(map[], blocks), wallet, start, end).Err? <==>
      exists b, t :: InInterval(blocks, start, end, b, t) && Scannable(t) && Breaks(wallet, t)
  {
    var db := Replay(map[], blocks);
    RunComputeStore(blocks);
    SequentialFails(db, wallet, start, end);
    if height: U32, txid: Hash :| FailsAt(db, wallet, start, end, height, txid) {
      var b, t := RowIsOf(blocks, height, txid);
      RowFinds(blocks, wallet, b, t);
      assert InInterval(blocks, start, end, b, t);
    }
    if b, t :| InInterval(blocks, start, end, b, t) && Scannable(t) && Breaks(wallet, t) {
      RowFinds(blocks, wallet, b, t);
      assert FailsAt(db, wallet, start, end, b.height, t.txid);
    }
  }

  /** Otherwise it finds exactly what the transactions of the interval pay the wallet. */
  lemma ChainScanFinds(blocks: seq<DBBlock>, wallet: Wallet, start: U32, end: U32, f: FoundOutput)
    requires ChainRun(blocks)
    ensures ComputeStore(Replay(map[], blocks))
    ensures var r := Sequential(Replay(map[], blocks), wallet, start, end); r.Ok? ==>
      (f in r.value <==> exists b, t :: InInterval(blocks, start, end, b, t) && Scannable(t) && Pays(wallet, t, f))
  {
    var db := Replay(map[], blocks);
    RunComputeStore(blocks);
    if Sequential(db, wallet, start, end).Ok? {
      SequentialFinds(db, wallet, start, end, f);
      SequentialFails(db, wallet, start, end);
      if height: U32, txid: Hash :| FindsAt(db, wallet, start, end, height, txid, f) {
        var b, t := RowIsOf(blocks, height, txid);
        RowFinds(blocks, wallet, b, t);
        assert InInterval(blocks, start, end, b, t);
      }
      if b, t :| InInterval(blocks, start, end, b, t) && Scannable(t) && Pays(wallet, t, f) {
        RowFinds(blocks, wallet, b, t);
        assert !FailsAt(db, wallet, start, end, b.height, t.txid);
        assert FindsAt(db, wallet, start, end, b.height, t.txid, f);
      }
    }
  }
}
