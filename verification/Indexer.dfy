/** `handleBlock` and `handleTx`: what the indexer takes from a block of the node. */
module Indexer {
  import opened ByteOrder
  import opened Pebble
  import opened Blocks
  import opened Attach
  import opened Runs
  import opened CutThroughViews
  import opened ComputeViews
  import Writer

  datatype RawOut = RawOut(script: Bytes, amount: U64)
  datatype RawIn = RawIn(prevScript: Bytes, prevTxid: Hash, prevVout: U32)

  /** Output indexes of a transaction fit below the top `uint32`. */
  type RawOuts = s: seq<RawOut> | |s| < MAX_U32 witness []
  datatype RawTx = RawTx(txid: Hash, outs: RawOuts, ins: seq<RawIn>)
  type RawTxs = s: seq<RawTx> | |s| < MAX_U32 witness []
  datatype RawBlock = RawBlock(height: U32, hash: Hash, txs: RawTxs)

  /** The BIP-352 library: the taproot script template and the tweak of a transaction. */
  datatype Rules = Rules(isP2TR: Bytes -> bool, computeTweak: RawTx -> Result<Tweak>)

  /** A taproot script is two bytes of opcodes and a 32-byte key. */
  ghost predicate Taproot(rules: Rules) {
    forall s :: rules.isP2TR(s) ==> |s| == 34
  }

  function PickOuts(rules: Rules, tx: RawTx, n: nat): seq<Output>
    requires Taproot(rules) && n <= |tx.outs|
  {
    if n == 0 then []
    else
      var o := tx.outs[n - 1];
      var picked := if rules.isP2TR(o.script) then [Output(tx.txid, n - 1, o.amount, o.script[2..])] else [];
      PickOuts(rules, tx, n - 1) + picked
  }

  function PickIns(rules: Rules, tx: RawTx, n: nat): seq<In>
    requires Taproot(rules) && n <= |tx.ins|
  {
    if n == 0 then []
    else
      var i := tx.ins[n - 1];
      var picked := if rules.isP2TR(i.prevScript) then [In(i.prevTxid, i.prevVout, i.prevScript[2..])] else [];
      PickIns(rules, tx, n - 1) + picked
  }

  function PickTweak(rules: Rules, tx: RawTx, outs: seq<Output>): Option<Tweak> {
    if outs == [] then None
    else match rules.computeTweak(tx) case Err => None case Ok(t) => Some(t)
  }

  /** `handleTx` as a function; none when the transaction holds nothing of interest. */
  function Handled(rules: Rules, tx: RawTx): Option<DBTx>
    requires Taproot(rules)
  {
    var outs, ins := PickOuts(rules, tx, |tx.outs|), PickIns(rules, tx, |tx.ins|);
    if outs == [] && ins == [] then None else Some(DBTx(tx.txid, PickTweak(rules, tx, outs), outs, ins))
  }

  method HandleTx(rules: Rules, tx: RawTx) returns (r: Option<DBTx>)
    requires Taproot(rules)
    ensures r == Handled(rules, tx)
  {
    var dbOuts, dbIns := [], [];
    for i := 0 to |tx.outs|
      invariant dbOuts == PickOuts(rules, tx, i)
    {
      var v := tx.outs[i];
      if rules.isP2TR(v.script) {
        dbOuts := dbOuts + [Output(tx.txid, i, v.amount, v.script[2..])];
      }
    }
    var tweak := None;
    if |dbOuts| > 0 {
      var computed := rules.computeTweak(tx);
      if computed.Ok? {
        tweak := Some(computed.value);
      }
    }
    for i := 0 to |tx.ins|
      invariant dbIns == PickIns(rules, tx, i)
    {
      var v := tx.ins[i];
      if rules.isP2TR(v.prevScript) {
        dbIns := dbIns + [In(v.prevTxid, v.prevVout, v.prevScript[2..])];
      }
    }
    if tweak.Some? || |dbOuts| > 0 || |dbIns| > 0 {
      return Some(DBTx(tx.txid, tweak, dbOuts, dbIns));
    }
    return None;
  }

  // ---------- what is picked ----------

  /** Outputs under one txid, with 32-byte keys and ascending indexes below `n`. */
  ghost predicate Storable(outs: seq<Output>, txid: Hash, n: nat) {
    && (forall k :: 0 <= k < |outs| ==> outs[k].txid == txid && outs[k].vout < n && |outs[k].pubkey| == 32)
    && (forall j, k :: 0 <= j < k < |outs| ==> outs[j].vout < outs[k].vout)
  }

  lemma {:induction false} PickOutsIs(rules: Rules, tx: RawTx, n: nat)
    requires Taproot(rules) && n <= |tx.outs|
    ensures Storable(PickOuts(rules, tx, n), tx.txid, n)
  {
    if n > 0 { PickOutsIs(rules, tx, n - 1); }
  }

  /** A taproot output of the transaction, under its own index, with its amount and key. */
  predicate TaprootOut(rules: Rules, tx: RawTx, o: Output)
    requires Taproot(rules)
  {
    && o.vout < |tx.outs| && rules.isP2TR(tx.outs[o.vout].script)
    && o == Output(tx.txid, o.vout, tx.outs[o.vout].amount, tx.outs[o.vout].script[2..])
  }

  /** Exactly the taproot outputs, each under its own index. */
  lemma {:induction false} PickOutsExact(rules: Rules, tx: RawTx, n: nat, o: Output)
    requires Taproot(rules) && n <= |tx.outs|
    ensures o in PickOuts(rules, tx, n) <==> o.vout < n && TaprootOut(rules, tx, o)
  {
    if n > 0 { PickOutsExact(rules, tx, n - 1, o); }
  }

  lemma {:induction false} PickInsIs(rules: Rules, tx: RawTx, n: nat)
    requires Taproot(rules) && n <= |tx.ins|
    ensures InsEncodable(PickIns(rules, tx, n))
  {
    if n > 0 { PickInsIs(rules, tx, n - 1); }
  }

  lemma {:induction false} PickInsExact(rules: Rules, tx: RawTx, n: nat, p: In)
    requires Taproot(rules) && n <= |tx.ins|
    ensures p in PickIns(rules, tx, n) <==>
      exists i :: 0 <= i < n && rules.isP2TR(tx.ins[i].prevScript)
        && p == In(tx.ins[i].prevTxid, tx.ins[i].prevVout, tx.ins[i].prevScript[2..])
  {
    if n > 0 { PickInsExact(rules, tx, n - 1, p); }
  }

  /** The places of the inputs that were picked: the same order, none twice, none left out. */
  lemma {:induction false} PickInsPlaces(rules: Rules, tx: RawTx, n: nat) returns (places: seq<nat>)
    requires Taproot(rules) && n <= |tx.ins|
    ensures |places| == |PickIns(rules, tx, n)|
    ensures forall k :: 0 <= k < |places| ==> places[k] < n && rules.isP2TR(tx.ins[places[k]].prevScript)
    ensures forall k :: 0 <= k < |places| ==> var i := tx.ins[places[k]];
      PickIns(rules, tx, n)[k] == In(i.prevTxid, i.prevVout, i.prevScript[2..])
    ensures forall j, k :: 0 <= j < k < |places| ==> places[j] < places[k]
    ensures forall i :: 0 <= i < n && rules.isP2TR(tx.ins[i].prevScript) ==> i in places
  {
    places := [];
    if n > 0 {
      places := PickInsPlaces(rules, tx, n - 1);
      if rules.isP2TR(tx.ins[n - 1].prevScript) { places := places + [n - 1]; }
    }
  }

  /** A transaction has a taproot output. */
  predicate PaysTaproot(rules: Rules, tx: RawTx) {
    exists i :: 0 <= i < |tx.outs| && rules.isP2TR(tx.outs[i].script)
  }

  /** The tweak kept is the one the library computes, whenever there is a taproot output and it succeeds. */
  lemma HandledTweak(rules: Rules, tx: RawTx, t: DBTx, w: Tweak)
    requires Taproot(rules) && Handled(rules, tx) == Some(t)
    ensures t.tweak == Some(w) <==> PaysTaproot(rules, tx) && rules.computeTweak(tx) == Ok(w)
  {
    var outs := PickOuts(rules, tx, |tx.outs|);
    if outs != [] {
      PickOutsExact(rules, tx, |tx.outs|, outs[0]);
      assert outs[0] in outs && PaysTaproot(rules, tx);
    }
    if i :| 0 <= i < |tx.outs| && rules.isP2TR(tx.outs[i].script) {
      PickOutsExact(rules, tx, |tx.outs|, Output(tx.txid, i, tx.outs[i].amount, tx.outs[i].script[2..]));
    }
  }

  /** What the indexer makes of a transaction is storable, its outputs in ascending order of index. */
  lemma HandledIsGood(rules: Rules, tx: RawTx)
    requires Taproot(rules) && Handled(rules, tx).Some?
    ensures var t := Handled(rules, tx).value; GoodTx(t) && AscendingVouts(t) && t.txid == tx.txid
  {
    PickOutsIs(rules, tx, |tx.outs|);
    PickInsIs(rules, tx, |tx.ins|);
  }

  /** A transaction is skipped exactly when it neither creates nor spends a taproot output. */
  lemma SkippedIff(rules: Rules, tx: RawTx)
    requires Taproot(rules)
    ensures Handled(rules, tx).None? <==>
      (forall i :: 0 <= i < |tx.outs| ==> !rules.isP2TR(tx.outs[i].script))
      && (forall i :: 0 <= i < |tx.ins| ==> !rules.isP2TR(tx.ins[i].prevScript))
  {
    var outs, ins := PickOuts(rules, tx, |tx.outs|), PickIns(rules, tx, |tx.ins|);
    if outs != [] { PickOutsExact(rules, tx, |tx.outs|, outs[0]); assert outs[0] in outs; }
    if ins != [] { PickInsExact(rules, tx, |tx.ins|, ins[0]); assert ins[0] in ins; }
    forall i | 0 <= i < |tx.outs| && rules.isP2TR(tx.outs[i].script) ensures outs != [] {
      PickOutsExact(rules, tx, |tx.outs|, Output(tx.txid, i, tx.outs[i].amount, tx.outs[i].script[2..]));
    }
    forall i | 0 <= i < |tx.ins| && rules.isP2TR(tx.ins[i].prevScript) ensures ins != [] {
      PickInsExact(rules, tx, |tx.ins|, In(tx.ins[i].prevTxid, tx.ins[i].prevVout, tx.ins[i].prevScript[2..]));
    }
  }

  // ---------- blocks ----------

  function HandledTxs(rules: Rules, txs: seq<RawTx>): (r: seq<Option<DBTx>>)
    requires Taproot(rules)
    ensures |r| == |txs|
  {
    seq(|txs|, i requires 0 <= i < |txs| => Handled(rules, txs[i]))
  }

  function HandledBlock(rules: Rules, b: RawBlock): DBBlock
    requires Taproot(rules)
  {
    DBBlock(b.height, b.hash, HandledTxs(rules, b.txs))
  }

  /** Skipped transactions leave their position empty. */
  method HandleBlock(rules: Rules, b: RawBlock) returns (r: DBBlock)
    requires Taproot(rules)
    ensures r == HandledBlock(rules, b)
  {
    var dbTxs := new Option<DBTx>[|b.txs|](_ => None);
    for i := 0 to |b.txs|
      invariant forall k :: 0 <= k < i ==> dbTxs[k] == Handled(rules, b.txs[k])
    {
      dbTxs[i] := HandleTx(rules, b.txs[i]);
    }
    assert dbTxs[..] == HandledTxs(rules, b.txs);
    r := DBBlock(b.height, b.hash, dbTxs[..]);
  }

  /** What is stored at a position of a block, field by field, in terms of the node's transaction there. */
  lemma HandledAt(rules: Rules, b: RawBlock, i: nat)
    requires Taproot(rules) && i < |b.txs|
    ensures |HandledBlock(rules, b).txs| == |b.txs|
    ensures HandledBlock(rules, b).height == b.height && HandledBlock(rules, b).hash == b.hash
    ensures var tx, r := b.txs[i], HandledBlock(rules, b).txs[i]; r.Some? ==>
      && r.value.txid == tx.txid
      && (forall w: Tweak :: r.value.tweak == Some(w) <==> PaysTaproot(rules, tx) && rules.computeTweak(tx) == Ok(w))
      && (forall o :: o in r.value.outs <==> TaprootOut(rules, tx, o))
      && AscendingVouts(r.value)
  {
    var tx := b.txs[i];
    var r := Handled(rules, tx);
    if r.Some? {
      HandledIsGood(rules, tx);
      forall w: Tweak
        ensures r.value.tweak == Some(w) <==> PaysTaproot(rules, tx) && rules.computeTweak(tx) == Ok(w)
      {
        HandledTweak(rules, tx, r.value, w);
      }
      forall o: Output
        ensures o in r.value.outs <==> TaprootOut(rules, tx, o)
      {
        PickOutsExact(rules, tx, |tx.outs|, o);
      }
    }
  }

  function HandledRun(rules: Rules, raw: seq<RawBlock>): (r: seq<DBBlock>)
    requires Taproot(rules)
    ensures |r| == |raw|
  {
    seq(|raw|, i requires 0 <= i < |raw| => HandledBlock(rules, raw[i]))
  }

  ghost predicate RawHas(b: RawBlock, tx: RawTx) {
    tx in b.txs
  }

  /** Blocks of one chain of the node: a height or a hash names one block, a txid one transaction. */
  ghost predicate NodeChain(raw: seq<RawBlock>) {
    && (forall a, b :: a in raw && b in raw && (a.hash == b.hash || a.height == b.height) ==> a == b)
    && (forall a, b, s, t {:trigger RawHas(a, s), RawHas(b, t)} ::
          a in raw && b in raw && RawHas(a, s) && RawHas(b, t) && s.txid == t.txid ==> s == t)
  }

  lemma RawOf(rules: Rules, raw: seq<RawBlock>, b: DBBlock) returns (a: RawBlock)
    requires Taproot(rules) && b in HandledRun(rules, raw)
    ensures a in raw && b == HandledBlock(rules, a)
  {
    var i :| 0 <= i < |raw| && HandledRun(rules, raw)[i] == b;
    a := raw[i];
  }

  lemma RawTxOf(rules: Rules, a: RawBlock, t: DBTx) returns (tx: RawTx)
    requires Taproot(rules) && HasTx(HandledBlock(rules, a), t)
    ensures RawHas(a, tx) && Handled(rules, tx) == Some(t)
    ensures GoodTx(t) && AscendingVouts(t) && t.txid == tx.txid
  {
    var i :| 0 <= i < |a.txs| && HandledTxs(rules, a.txs)[i] == Some(t);
    tx := a.txs[i];
    HandledIsGood(rules, tx);
  }

  /** Every chain of the node, handled by the indexer, is a run the store's guarantees are about. */
  lemma NodeChainIsChainRun(rules: Rules, raw: seq<RawBlock>)
    requires Taproot(rules) && NodeChain(raw)
    ensures ChainRun(HandledRun(rules, raw))
  {
    var blocks := HandledRun(rules, raw);
    forall a, b | a in blocks && b in blocks && (a.hash == b.hash || a.height == b.height) ensures a == b {
      var x := RawOf(rules, raw, a);
      var y := RawOf(rules, raw, b);
    }
    forall b, t | b in blocks && HasTx(b, t) ensures GoodTx(t) && AscendingVouts(t) {
      var x := RawOf(rules, raw, b);
      var _ := RawTxOf(rules, x, t);
    }
    forall a, b, s, t | a in blocks && b in blocks && HasTx(a, s) && HasTx(b, t) ensures SameTx(s, t) {
      var x := RawOf(rules, raw, a);
      var y := RawOf(rules, raw, b);
      var u := RawTxOf(rules, x, s);
      var v := RawTxOf(rules, y, t);
      assert s.txid == t.txid ==> u == v;
    }
  }

  lemma SameOutpoint(s: DBTx, t: DBTx, o: Output, p: Output)
    requires GoodTx(s) && GoodTx(t) && SameTx(s, t) && AscendingVouts(t)
    requires o in s.outs && p in t.outs && o.txid == p.txid && o.vout == p.vout
    ensures o == p
  {
    var i :| 0 <= i < |s.outs| && s.outs[i] == o;
    var j :| 0 <= j < |t.outs| && t.outs[j] == p;
    VoutFixesIndex(t, i, j);
  }

  /** Such a run also leaves the same store in whatever order its blocks are written. */
  lemma ChainRunCoherent(blocks: seq<DBBlock>)
    requires ChainRun(blocks)
    ensures Coherent(SetOf(blocks))
  {
    forall a, b, s, t | a in SetOf(blocks) && b in SetOf(blocks) && HasTx(a, s) && HasTx(b, t)
      ensures SameTx(s, t) && GoodTx(s) && AscendingVouts(t) && GoodTx(t) {}
    forall a, b, o, p |
      a in SetOf(blocks) && b in SetOf(blocks) && HasOut(a, o) && HasOut(b, p) && o.txid == p.txid && o.vout == p.vout
      ensures o == p
    {
      var s :| HasTx(a, s) && o in s.outs;
      var t :| HasTx(b, t) && p in t.outs;
      assert SameTx(s, t) && GoodTx(s) && AscendingVouts(t) && GoodTx(t);
      SameOutpoint(s, t, o, p);
    }
    forall a, b, s, t | a in SetOf(blocks) && b in SetOf(blocks) && HasTx(a, s) && HasTx(b, t) && s.txid == t.txid
      ensures s.tweak.None? || t.tweak.None? || s.tweak == t.tweak
    {
      assert SameTx(s, t);
    }
  }

  /** From the node to the database: once everything applied is committed, the database depends only on
      which blocks of the node's chain were applied. */
  lemma NodeChainDatabase(rules: Rules, raw: seq<RawBlock>, db: DB, s: Writer.State)
    requires Taproot(rules) && NodeChain(raw)
    requires Writer.Reachable(db, s) && Writer.Drained(s) && SetOf(s.applied) == SetOf(HandledRun(rules, raw))
    ensures s.db == Replay(db, HandledRun(rules, raw))
  {
    NodeChainIsChainRun(rules, raw);
    ChainRunCoherent(HandledRun(rules, raw));
    Writer.DrainedDatabase(db, s);
    OrderIndependent(db, s.applied, HandledRun(rules, raw));
  }
}
