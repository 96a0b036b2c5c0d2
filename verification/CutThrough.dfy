/** The cut-through queries: which tweaks and outputs of a block are still worth sending. */
module CutThrough {
  import opened ByteOrder
  import opened Keys
  import opened Encoders
  import opened Pebble
  import opened Blocks
  import opened Reads
  import opened FastReads
  import opened FastTweaks
  import opened ChainViews

  type ActiveHeight = Hash -> Option<U32>

  // ---------- IsSpentAt ----------

  predicate Active(active: ActiveHeight, k: Bytes, H: U32)
    requires SpendKey(k)
  {
    match active(SpendBlock(k)) case None => false case Some(h) => h <= H
  }

  ghost predicate SpentActive(db: DB, txid: Hash, vout: U32, H: U32, active: ActiveHeight)
    requires WellFormed(db)
  {
    ScanSpendKeys(db, txid, vout);
    var keys := Scan(db, BoundsSpend(txid, vout));
    exists i :: 0 <= i < |keys| && Active(active, keys[i], H)
  }

  method IsSpentAt(db: DB, prevTxid: Hash, prevVout: U32, H: U32, active: ActiveHeight) returns (spent: bool)
    requires WellFormed(db)
    ensures spent <==> SpentActive(db, prevTxid, prevVout, H, active)
  {
    ScanSpendKeys(db, prevTxid, prevVout);
    var lb, ub := MakeBoundsSpend(prevTxid, prevVout);
    var it := new Iterator(db, lb[..], ub[..]);
    spent := ScanActive(it, H, active);
  }

  method ScanActive(it: Iterator, H: U32, active: ActiveHeight) returns (spent: bool)
    requires it.Valid() && SpendKeys(it.keys)
    modifies it
    ensures spent <==> exists i :: 0 <= i < |it.keys| && Active(active, it.keys[i], H)
  {
    var ok := it.First();
    while ok
      invariant it.Valid() && ok == (it.pos < |it.keys|)
      invariant forall i :: 0 <= i < it.pos ==> !Active(active, it.keys[i], H)
      decreases |it.keys| - it.pos
    {
      if Active(active, it.Key(), H) {
        return true;
      }
      ok := it.Next();
    }
    spent := false;
  }

  // ---------- TweaksForBlock ----------

  ghost predicate Survives(db: DB, txid: Hash, o: Output, H: U32, dust: U64, active: ActiveHeight)
    requires WellFormed(db)
  {
    o.amount >= dust && !SpentActive(db, txid, o.vout, H, active)
  }

  ghost predicate AnySurvives(db: DB, txid: Hash, outs: seq<Output>, H: U32, dust: U64, active: ActiveHeight)
    requires WellFormed(db)
  {
    exists i :: 0 <= i < |outs| && Survives(db, txid, outs[i], H, dust, active)
  }

  ghost function DustRow(db: DB, txid: Hash, H: U32, dust: U64, active: ActiveHeight): Result<seq<TweakRow>>
    requires WellFormed(db)
  {
    match LoadTweak(db, txid)
    case None => Ok([])
    case Some(v) => match TxOutputs(db, txid)
      case Err => Err
      case Ok(outs) =>
        Ok(if AnySurvives(db, txid, outs, H, dust, active) then [TweakRow(txid, Fit33(v))] else [])
  }

  ghost function DustRows(db: DB, txids: seq<Hash>, H: U32, dust: U64, active: ActiveHeight)
    : (r: seq<Result<seq<TweakRow>>>)
    requires WellFormed(db)
    ensures |r| == |txids|
  {
    seq(|txids|, i requires 0 <= i < |txids| => DustRow(db, txids[i], H, dust, active))
  }

  ghost function DustTweaks(db: DB, hash: Hash, H: U32, dust: U64, active: ActiveHeight): Result<seq<TweakRow>>
    requires WellFormed(db)
  {
    match Txids(db, hash) case Err => Err case Ok(txids) => Join(DustRows(db, txids, H, dust, active))
  }

  /** What the loop knows of the first n outputs: whether one is unspent, and the largest unspent amount. */
  ghost predicate LargestUnspent(db: DB, txid: Hash, outs: seq<Output>, n: nat, H: U32, active: ActiveHeight,
                                 any: bool, most: U64)
    requires WellFormed(db) && n <= |outs|
  {
    && (any ==> exists i :: 0 <= i < n && Survives(db, txid, outs[i], H, 0, active) && outs[i].amount == most)
    && (!any ==> most == 0)
    && forall i :: 0 <= i < n && Survives(db, txid, outs[i], H, 0, active) ==> any && outs[i].amount <= most
  }

  lemma LargestDecides(db: DB, txid: Hash, outs: seq<Output>, H: U32, dust: U64, active: ActiveHeight, any: bool,
                       most: U64)
    requires WellFormed(db) && LargestUnspent(db, txid, outs, |outs|, H, active, any, most)
    ensures any && (dust == 0 || most >= dust) <==> AnySurvives(db, txid, outs, H, dust, active)
  {
    if any && (dust == 0 || most >= dust) {
      var i :| 0 <= i < |outs| && Survives(db, txid, outs[i], H, 0, active) && outs[i].amount == most;
      assert Survives(db, txid, outs[i], H, dust, active);
    } else if i :| 0 <= i < |outs| && Survives(db, txid, outs[i], H, dust, active) {
      assert Survives(db, txid, outs[i], H, 0, active);
    }
  }

  /** The largest unspent amount decides, with no unspent output deciding first. */
  method KeepForDust(db: DB, txid: Hash, outs: seq<Output>, H: U32, dust: U64, active: ActiveHeight)
    returns (keep: bool)
    requires WellFormed(db)
    ensures keep <==> AnySurvives(db, txid, outs, H, dust, active)
  {
    var hasUnspent, maxUnspent: U64 := false, 0;
    for n := 0 to |outs|
      invariant LargestUnspent(db, txid, outs, n, H, active, hasUnspent, maxUnspent)
    {
      var o := outs[n];
      var spent := IsSpentAt(db, txid, o.vout, H, active);
      if !spent {
        assert Survives(db, txid, outs[n], H, 0, active);
        hasUnspent := true;
        if o.amount > maxUnspent {
          maxUnspent := o.amount;
        }
      }
    }
    LargestDecides(db, txid, outs, H, dust, active, hasUnspent, maxUnspent);
    keep := hasUnspent && (dust == 0 || maxUnspent >= dust);
  }

  method TweaksForBlock(db: DB, blockHash: Hash, H: U32, dust: U64, active: ActiveHeight)
    returns (r: Result<seq<TweakRow>>)
    requires WellFormed(db)
    ensures r == DustTweaks(db, blockHash, H, dust, active)
  {
    var t := BlockTxids(db, blockHash);
    if t.Err? {
      return Err;
    }
    r := DustLoop(db, t.value, H, dust, active);
  }

  method DustLoop(db: DB, txids: seq<Hash>, H: U32, dust: U64, active: ActiveHeight)
    returns (r: Result<seq<TweakRow>>)
    requires WellFormed(db)
    ensures r == Join(DustRows(db, txids, H, dust, active))
  {
    ghost var rs := DustRows(db, txids, H, dust, active);
    var out := [];
    for n := 0 to |txids|
      invariant Join(rs[..n]) == Ok(out)
    {
      var row := DustRowOf(db, txids[n], H, dust, active);
      assert rs[n] == row;
      if row.Err? {
        JoinErr(rs, n);
        return Err;
      }
      JoinNext(rs, n);
      out := out + row.value;
    }
    assert rs[..|txids|] == rs;
    r := Ok(out);
  }

  method DustRowOf(db: DB, txid: Hash, H: U32, dust: U64, active: ActiveHeight) returns (r: Result<seq<TweakRow>>)
    requires WellFormed(db)
    ensures r == DustRow(db, txid, H, dust, active)
  {
    var tweak := LoadTweak(db, txid);
    if tweak.None? {
      return Ok([]);
    }
    var outs := OutputsForTx(db, txid);
    if outs.Err? {
      return Err;
    }
    var keep := KeepForDust(db, txid, outs.value, H, dust, active);
    r := Ok(if keep then [TweakRow(txid, Fit33(tweak.value))] else []);
  }

  // ---------- TweaksForBlockCutThrough ----------

  /** Stops at the first output that is unspent at the tip, or whose lookup fails. */
  ghost function AnyUnspent(db: DB, txid: Hash, outs: seq<Output>, H: U32): Result<bool>
    requires WellFormed(db)
  {
    if outs == [] then Ok(false)
    else match SpentTip(db, txid, outs[0].vout, H)
      case Err => Err
      case Ok(spent) => if spent then AnyUnspent(db, txid, outs[1..], H) else Ok(true)
  }

  ghost function CutRow(db: DB, txid: Hash, H: U32): Result<seq<TweakRow>>
    requires WellFormed(db)
  {
    match LoadTweak(db, txid)
    case None => Ok([])
    case Some(v) => match TxOutputs(db, txid)
      case Err => Err
      case Ok(outs) => match AnyUnspent(db, txid, outs, H)
        case Err => Err
        case Ok(keep) => Ok(if keep then [TweakRow(txid, Fit33(v))] else [])
  }

  ghost function CutRows(db: DB, txids: seq<Hash>, H: U32): (r: seq<Result<seq<TweakRow>>>)
    requires WellFormed(db)
    ensures |r| == |txids|
  {
    seq(|txids|, i requires 0 <= i < |txids| => CutRow(db, txids[i], H))
  }

  ghost function CutTweaks(db: DB, hash: Hash, H: U32): Result<seq<TweakRow>>
    requires WellFormed(db)
  {
    match Txids(db, hash) case Err => Err case Ok(txids) => Join(CutRows(db, txids, H))
  }

  method CutRowOf(db: DB, txid: Hash, H: U32) returns (r: Result<seq<TweakRow>>)
    requires WellFormed(db)
    ensures r == CutRow(db, txid, H)
  {
    var tweak := LoadTweak(db, txid);
    if tweak.None? {
      return Ok([]);
    }
    var outs := OutputsForTx(db, txid);
    if outs.Err? {
      return Err;
    }
    for n := 0 to |outs.value|
      invariant AnyUnspent(db, txid, outs.value, H) == AnyUnspent(db, txid, outs.value[n..], H)
    {
      var spent := SpentAtHeightTip(db, txid, outs.value[n].vout, H);
      if spent.Err? {
        return Err;
      }
      if !spent.value {
        return Ok([TweakRow(txid, Fit33(tweak.value))]);
      }
      assert outs.value[n..][1..] == outs.value[n + 1..];
    }
    r := Ok([]);
  }

  method TweaksForBlockCutThrough(db: DB, blockHash: Hash, tipHeight: U32) returns (r: Result<seq<TweakRow>>)
    requires WellFormed(db)
    ensures r == CutTweaks(db, blockHash, tipHeight)
  {
    var t := BlockTxids(db, blockHash);
    if t.Err? {
      return Err;
    }
    r := CutLoop(db, t.value, tipHeight);
  }

  method CutLoop(db: DB, txids: seq<Hash>, H: U32) returns (r: Result<seq<TweakRow>>)
    requires WellFormed(db)
    ensures r == Join(CutRows(db, txids, H))
  {
    ghost var rs := CutRows(db, txids, H);
    var out := [];
    for n := 0 to |txids|
      invariant Join(rs[..n]) == Ok(out)
    {
      var row := CutRowOf(db, txids[n], H);
      assert rs[n] == row;
      if row.Err? {
        JoinErr(rs, n);
        return Err;
      }
      JoinNext(rs, n);
      out := out + row.value;
    }
    assert rs[..|txids|] == rs;
    r := Ok(out);
  }

  /** The dust limit is accepted and never looked at. */
  method TweaksForBlockCutThroughDustLimit(db: DB, blockHash: Hash, tipHeight: U32, dustLimit: U64)
    returns (r: Result<seq<TweakRow>>)
    requires WellFormed(db)
    ensures r == CutTweaks(db, blockHash, tipHeight)
  {
    r := TweaksForBlockCutThrough(db, blockHash, tipHeight);
  }

  // ---------- FetchOutputsCutThroughDustLimit ----------

  /** Filters the outputs one by one; a failed spend lookup fails the whole read. */
  ghost function Filtered(db: DB, outs: seq<Output>, H: U32, dust: U64): Result<seq<Output>>
    requires WellFormed(db)
  {
    if outs == [] then Ok([])
    else var o := outs[|outs| - 1]; match Filtered(db, outs[..|outs| - 1], H, dust)
      case Err => Err
      case Ok(kept) =>
        if o.amount < dust then Ok(kept)
        else match SpentTip(db, o.txid, o.vout, H)
          case Err => Err
          case Ok(spent) => Ok(if spent then kept else kept + [o])
  }

  ghost function CutOutputs(db: DB, hash: Hash, H: U32, dust: U64): Result<seq<Output>>
    requires WellFormed(db)
  {
    match BlockOutputs(db, hash) case Err => Err case Ok(outs) => Filtered(db, outs, H, dust)
  }

  lemma {:induction false} FilteredErr(db: DB, outs: seq<Output>, H: U32, dust: U64, n: nat)
    requires WellFormed(db) && n <= |outs| && Filtered(db, outs[..n], H, dust).Err?
    ensures Filtered(db, outs, H, dust).Err?
    decreases |outs| - n
  {
    if n == |outs| {
      assert outs[..n] == outs;
    } else {
      assert outs[..n + 1][..n] == outs[..n];
      FilteredErr(db, outs, H, dust, n + 1);
    }
  }

  method FetchOutputsCutThroughDustLimit(db: DB, blockhash: Hash, tipHeight: U32, dustLimit: U64)
    returns (r: Result<seq<Output>>)
    requires WellFormed(db)
    ensures r == CutOutputs(db, blockhash, tipHeight, dustLimit)
  {
    var all := FetchOutputs(db, blockhash);
    if all.Err? {
      return Err;
    }
    r := FilterLoop(db, all.value, tipHeight, dustLimit);
  }

  method FilterLoop(db: DB, outs: seq<Output>, H: U32, dust: U64) returns (r: Result<seq<Output>>)
    requires WellFormed(db)
    ensures r == Filtered(db, outs, H, dust)
  {
    var kept := [];
    for n := 0 to |outs|
      invariant Filtered(db, outs[..n], H, dust) == Ok(kept)
    {
      var o := outs[n];
      assert outs[..n + 1][..n] == outs[..n];
      if o.amount < dust {
        continue;
      }
      var spent := SpentAtHeightTip(db, o.txid, o.vout, H);
      if spent.Err? {
        FilteredErr(db, outs, H, dust, n + 1);
        return Err;
      }
      if spent.value {
        continue;
      }
      kept := kept + [o];
    }
    assert outs[..|outs|] == outs;
    r := Ok(kept);
  }
}
