/** The sequential scan of the compute index: one receiver scan per stored transaction. */
module ComputeScan {
  import opened ByteOrder
  import opened Keys
  import opened Encoders
  import opened Pebble
  import opened Blocks
  import opened Reads
  import opened FastReads
  import opened ComputeIndexes
  import opened ReceiverScan
  import opened Runs
  import opened ChainViews

  /** The shared secret of a tweak with the scan key, as the output keys derived from it. */
  type Wallet = Bytes -> Result<Deriver>

  datatype FoundOutput = FoundOutput(output: Short8, secKeyTweak: Bytes, txid: Bytes)

  /** Compute index rows start with a tweak; a shorter value would stop the program. */
  ghost predicate ComputeStore(db: DB) {
    WellFormed(db) && forall k {:trigger IsKey(k)} :: k in db && k != [] && k[0] == 0x0D ==> |db[k]| >= 33
  }

  /** Stores built by applying blocks are such stores. */
  lemma RunComputeStore(blocks: seq<DBBlock>)
    ensures ComputeStore(Replay(map[], blocks))
  {
    var db := Replay(map[], blocks);
    RunWellFormed(blocks);
    forall k | k in db && k != [] && k[0] == 0x0D ensures |db[k]| >= 33 {
      var key := RunKeys(blocks, k);
      var b := RunHas(blocks, key);
      var t :| HasTx(b, t) && t.txid == key.txid && IsComputeData(t, db[k]);
    }
  }

  function Chunks(data: Bytes): (r: seq<Short8>)
    ensures |r| == |data| / 8
  {
    seq(|data| / 8, i requires 0 <= i < |data| / 8 => data[8 * i..8 * i + 8])
  }

  function WithTxid(txid: Bytes, found: seq<Found>): (r: seq<FoundOutput>)
    ensures |r| == |found|
  {
    seq(|found|, i requires 0 <= i < |found| => FoundOutput(found[i].output, found[i].secKeyTweak, txid))
  }

  /** What one compute index row holds for the wallet. */
  ghost function RowFound(wallet: Wallet, key: Bytes, val: Bytes): Result<seq<FoundOutput>>
    requires |key| >= 5 && |val| >= 33
  {
    match wallet(val[..33])
    case Err => Err
    case Ok(derive) =>
      match Matches(derive, multiset(Chunks(val[33..])), 0)
      case Err => Err
      case Ok(found) => Ok(WithTxid(key[5..], found))
  }

  method ScanRow(wallet: Wallet, key: Bytes, val: Bytes) returns (r: Result<seq<FoundOutput>>)
    requires |key| >= 5 && |val| >= 33
    ensures r == RowFound(wallet, key, val)
  {
    var derive := wallet(val[..33]);
    if derive.Err? {
      return Err;
    }
    var shortOutputs := SplitChunks(val[33..]);
    assert shortOutputs == Chunks(val[33..]);
    var foundPerTx := ReceiverScanTransactionShortOutputs(derive.value, shortOutputs);
    if foundPerTx.Err? {
      return Err;
    }
    r := Ok(WithTxid(key[5..], foundPerTx.value));
  }

  ghost function RowsFound(db: DB, wallet: Wallet, keys: seq<Bytes>): (r: seq<Result<seq<FoundOutput>>>)
    requires ComputeRows(db, keys)
    ensures |r| == |keys| && forall i :: 0 <= i < |keys| ==> r[i] == RowFound(wallet, keys[i], db[keys[i]])
  {
    seq(|keys|, i requires 0 <= i < |keys| => RowFound(wallet, keys[i], db[keys[i]]))
  }

  lemma ScanIsRows(db: DB, bounds: Bounds)
    requires ComputeStore(db) && bounds.BoundsComputeIndex?
    ensures ComputeRows(db, Scan(db, bounds))
  {
    var keys := Scan(db, bounds);
    forall i | 0 <= i < |keys| ensures keys[i] in db && |keys[i]| >= 5 && |db[keys[i]]| >= 33 {
      assert keys[i] in keys;
      var key := KeyOf(db, keys[i]);
      BoundsExact(bounds, key);
      assert keys[i][0] == 0x0D;
      assert IsKey(keys[i]);
    }
  }

  /** `DBComputeComputeIndex` as a function of the store. */
  ghost function Sequential(db: DB, wallet: Wallet, start: U32, end: U32): Result<seq<FoundOutput>>
    requires ComputeStore(db)
  {
    var bounds := BoundsComputeIndex(start, end);
    ScanIsRows(db, bounds);
    Join(RowsFound(db, wallet, Scan(db, bounds)))
  }

  lemma JoinStep<T>(rs: seq<Result<seq<T>>>, n: nat, found: seq<T>, part: seq<T>)
    requires n < |rs| && Join(rs[..n]) == Ok(found) && rs[n] == Ok(part)
    ensures Join(rs[..n + 1]) == Ok(found + part)
  {
    JoinNext(rs, n);
  }

  method ScanRows(it: Iterator, wallet: Wallet) returns (r: Result<seq<FoundOutput>>)
    requires it.Valid() && ComputeRows(it.db, it.keys)
    modifies it
    ensures r == Join(RowsFound(it.db, wallet, it.keys))
  {
    ghost var rs := RowsFound(it.db, wallet, it.keys);
    var found := [];
    var ok := it.First();
    while ok
      invariant it.Valid() && ok == (it.pos < |it.keys|)
      invariant Join(rs[..it.pos]) == Ok(found)
      decreases |it.keys| - it.pos
    {
      var foundPerTx := ScanRow(wallet, it.Key(), it.Value());
      assert foundPerTx == rs[it.pos];
      if foundPerTx.Err? {
        JoinErr(rs, it.pos);
        return Err;
      }
      JoinStep(rs, it.pos, found, foundPerTx.value);
      found := found + foundPerTx.value;
      ok := it.Next();
    }
    assert rs[..|rs|] == rs;
    r := Ok(found);
  }

  method DBComputeComputeIndex(db: DB, wallet: Wallet, start: U32, end: U32) returns (r: Result<seq<FoundOutput>>)
    requires ComputeStore(db)
    ensures r == Sequential(db, wallet, start, end)
  {
    ScanIsRows(db, BoundsComputeIndex(start, end));
    var lb, ub := MakeBoundsComputeIndex(start, end);
    var it := new Iterator(db, lb[..], ub[..]);
    r := ScanRows(it, wallet);
  }

  // ---------- what a scan finds, by transaction ----------

  /** The rows a scan of a height interval visits: all but a row with the all-FF txid at the top height. */
  ghost predicate Visits(start: U32, end: U32, height: U32, txid: Hash) {
    start <= height <= end && !(height == end && txid == MAX_HASH)
  }

  /** A stored transaction, and what the wallet owns in it. */
  ghost predicate RowAt(db: DB, height: U32, txid: Hash) {
    Encode(ComputeIndex(height, txid)) in db
  }

  lemma RowShape(db: DB, height: U32, txid: Hash)
    requires ComputeStore(db) && RowAt(db, height, txid)
    ensures var k := Encode(ComputeIndex(height, txid)); |k| == 37 && k[5..] == txid && |db[k]| >= 33
  {
    var k := Encode(ComputeIndex(height, txid));
    assert k == [0x0D] + BE32(height) + txid;
    assert k[0] == 0x0D && IsKey(k);
  }

  ghost function RowAtFound(db: DB, wallet: Wallet, height: U32, txid: Hash): Result<seq<FoundOutput>>
    requires ComputeStore(db) && RowAt(db, height, txid)
  {
    RowShape(db, height, txid);
    var k := Encode(ComputeIndex(height, txid));
    RowFound(wallet, k, db[k])
  }

  lemma ScanVisits(db: DB, start: U32, end: U32, height: U32, txid: Hash)
    ensures Encode(ComputeIndex(height, txid)) in Scan(db, BoundsComputeIndex(start, end)) <==>
      RowAt(db, height, txid) && Visits(start, end, height, txid)
  {
    BoundsExact(BoundsComputeIndex(start, end), ComputeIndex(height, txid));
  }

  lemma ScanKey(db: DB, start: U32, end: U32, k: Bytes) returns (height: U32, txid: Hash)
    requires ComputeStore(db) && k in Scan(db, BoundsComputeIndex(start, end))
    ensures k == Encode(ComputeIndex(height, txid)) && RowAt(db, height, txid) && Visits(start, end, height, txid)
  {
    var key := KeyOf(db, k);
    BoundsExact(BoundsComputeIndex(start, end), key);
    height, txid := key.height, key.txid;
    ScanVisits(db, start, end, height, txid);
  }

  lemma {:induction false} JoinFails<T>(rs: seq<Result<seq<T>>>)
    ensures Join(rs).Err? <==> exists i :: 0 <= i < |rs| && rs[i].Err?
  {
    if rs != [] {
      var n := |rs| - 1;
      JoinFails(rs[..n]);
      if i :| 0 <= i < |rs| && rs[i].Err? {
        assert i < n ==> rs[..n][i].Err?;
      }
    }
  }

  lemma {:induction false} JoinMember<T>(rs: seq<Result<seq<T>>>, x: T)
    requires Join(rs).Ok?
    ensures x in Join(rs).value <==> exists i :: 0 <= i < |rs| && rs[i].Ok? && x in rs[i].value
  {
    if rs != [] {
      var n := |rs| - 1;
      JoinMember(rs[..n], x);
      if i :| 0 <= i < |rs| && rs[i].Ok? && x in rs[i].value {
        assert i < n ==> x in rs[..n][i].value;
      }
      if i :| 0 <= i < n && rs[..n][i].Ok? && x in rs[..n][i].value {
        assert x in rs[i].value;
      }
    }
  }

  /** A visited row whose scan fails. */
  ghost predicate FailsAt(db: DB, wallet: Wallet, start: U32, end: U32, height: U32, txid: Hash)
    requires ComputeStore(db)
  {
    RowAt(db, height, txid) && Visits(start, end, height, txid) && RowAtFound(db, wallet, height, txid).Err?
  }

  /** A visited row that holds `f` for the wallet. */
  ghost predicate FindsAt(db: DB, wallet: Wallet, start: U32, end: U32, height: U32, txid: Hash, f: FoundOutput)
    requires ComputeStore(db)
  {
    && RowAt(db, height, txid) && Visits(start, end, height, txid)
    && RowAtFound(db, wallet, height, txid).Ok? && f in RowAtFound(db, wallet, height, txid).value
  }

  /** A scan fails exactly when a visited row does. */
  lemma SequentialFails(db: DB, wallet: Wallet, start: U32, end: U32)
    requires ComputeStore(db)
    ensures Sequential(db, wallet, start, end).Err? <==>
      exists height: U32, txid: Hash :: FailsAt(db, wallet, start, end, height, txid)
  {
    var keys := Scan(db, BoundsComputeIndex(start, end));
    ScanIsRows(db, BoundsComputeIndex(start, end));
    var rs := RowsFound(db, wallet, keys);
    JoinFails(rs);
    if i :| 0 <= i < |rs| && rs[i].Err? {
      var height, txid := ScanKey(db, start, end, keys[i]);
      assert FailsAt(db, wallet, start, end, height, txid);
    }
    if height: U32, txid: Hash :| FailsAt(db, wallet, start, end, height, txid) {
      ScanVisits(db, start, end, height, txid);
      var i :| 0 <= i < |keys| && keys[i] == Encode(ComputeIndex(height, txid));
      assert rs[i].Err?;
    }
  }

  /** A scan that succeeds finds exactly what the visited rows hold. */
  lemma SequentialFinds(db: DB, wallet: Wallet, start: U32, end: U32, f: FoundOutput)
    requires ComputeStore(db) && Sequential(db, wallet, start, end).Ok?
    ensures f in Sequential(db, wallet, start, end).value <==>
      exists height: U32, txid: Hash :: FindsAt(db, wallet, start, end, height, txid, f)
  {
    var keys := Scan(db, BoundsComputeIndex(start, end));
    ScanIsRows(db, BoundsComputeIndex(start, end));
    var rs := RowsFound(db, wallet, keys);
    JoinMember(rs, f);
    if i :| 0 <= i < |rs| && rs[i].Ok? && f in rs[i].value {
      var height, txid := ScanKey(db, start, end, keys[i]);
      assert FindsAt(db, wallet, start, end, height, txid, f);
    }
    if height: U32, txid: Hash :| FindsAt(db, wallet, start, end, height, txid, f) {
      ScanVisits(db, start, end, height, txid);
      var i :| 0 <= i < |keys| && keys[i] == Encode(ComputeIndex(height, txid));
      assert rs[i].Ok? && f in rs[i].value;
    }
  }

  lemma EmptyIntervalScan(db: DB, wallet: Wallet, start: U32, end: U32)
    requires ComputeStore(db) && start > end
    ensures Sequential(db, wallet, start, end) == Ok([])
  {
    var keys := Scan(db, BoundsComputeIndex(start, end));
    ScanIsRows(db, BoundsComputeIndex(start, end));
    if keys != [] {
      var _, _ := ScanKey(db, start, end, keys[0]);
    }
    assert RowsFound(db, wallet, keys) == [];
  }
}
