/** The one-iterator reads: sort the txids, walk forward, stop early, put rows back in block order. */
module FastReads {
  import opened ByteOrder
  import opened Keys
  import opened Pebble
  import opened Blocks
  import opened Seqs
  import opened Reads

  // ---------- sortedTxidOrder ----------

  ghost predicate SortedOrder(txids: seq<Hash>, order: seq<nat>) {
    && IsPermutation(order, |txids|)
    && (forall i, j {:trigger Lt(txids[order[j]], txids[order[i]])} ::
          0 <= i < j < |order| ==> !Lt(txids[order[j]], txids[order[i]]))
  }

  method FindSlot(txids: seq<Hash>, order: seq<nat>, n: nat) returns (at: nat)
    requires n < |txids| && |order| == n && forall i :: 0 <= i < n ==> order[i] < n
    ensures at <= n && (at > 0 ==> !Lt(txids[n], txids[order[at - 1]]))
    ensures forall i :: at <= i < n ==> Lt(txids[n], txids[order[i]])
  {
    at := n;
    while at > 0 && Lt(txids[n], txids[order[at - 1]])
      invariant 0 <= at <= n
      invariant forall i :: at <= i < n ==> Lt(txids[n], txids[order[i]])
    {
      at := at - 1;
    }
  }

  /** Positions in ascending txid order; equal txids may come in either order. */
  method SortedTxidOrder(txids: seq<Hash>) returns (order: seq<nat>)
    ensures SortedOrder(txids, order)
  {
    order := [];
    for n := 0 to |txids|
      invariant SortedOrder(txids[..n], order)
    {
      var at := FindSlot(txids, order, n);
      InsertSorted(txids[..n + 1], order, at);
      order := order[..at] + [n] + order[at..];
    }
    assert txids[..|txids|] == txids;
  }

  /** Inserting the next position after the last one that does not exceed it keeps the order sorted. */
  lemma InsertSorted(txids: seq<Hash>, order: seq<nat>, at: nat)
    requires txids != []
    requires SortedOrder(txids[..|txids| - 1], order) && at < |txids|
    requires at > 0 ==> !Lt(txids[|txids| - 1], txids[order[at - 1]])
    requires forall i :: at <= i < |order| ==> Lt(txids[|txids| - 1], txids[order[i]])
    ensures SortedOrder(txids, order[..at] + [|txids| - 1] + order[at..])
  {
    var n := |txids| - 1;
    var r := order[..at] + [n] + order[at..];
    forall i | 0 <= i < at ensures !Lt(txids[n], txids[order[i]]) {
      if i < at - 1 { NotLtTrans(txids[order[i]], txids[order[at - 1]], txids[n]); }
    }
    forall i | at <= i < n ensures !Lt(txids[order[i]], txids[n]) {
      LtAsymmetric(txids[n], txids[order[i]]);
    }
    InsertPermutes(order, n, at);
    forall i, j | 0 <= i < j < |r| ensures !Lt(txids[r[j]], txids[r[i]]) {
      var a, b := if i < at then i else i - 1, if j < at then j else j - 1;
      assert i != at ==> r[i] == order[a];
      assert j != at ==> r[j] == order[b];
      if i != at && j != at {
        assert !Lt(txids[..n][order[b]], txids[..n][order[a]]);
      }
    }
  }

  lemma InsertPermutes(order: seq<nat>, n: nat, at: nat)
    requires IsPermutation(order, n) && at <= n
    ensures IsPermutation(order[..at] + [n] + order[at..], n + 1)
  {
    var r := order[..at] + [n] + order[at..];
    forall p | 0 <= p < n + 1 ensures p in r {
      if p == n {
        assert r[at] == n;
      } else {
        assert p in order;
        var i :| 0 <= i < n && order[i] == p;
        assert r[if i < at then i else i + 1] == p;
      }
    }
  }

  lemma NotLtTrans(a: Bytes, b: Bytes, c: Bytes)
    requires !Lt(b, a) && !Lt(c, b)
    ensures !Lt(c, a)
  {
    LtTotal(a, b);
    LtTotal(b, c);
    if Lt(c, a) {
      if a != b && b != c { LtTransitive(a, b, c); }
      LtAsymmetric(c, a);
    }
  }

  // ---------- the outputs of one transaction under the shared iterator ----------

  predicate OutKeyOf(k: Bytes, txid: Hash) {
    |k| == 37 && k[0] == 0x03 && k[1..33] == txid
  }

  lemma OutKeyForm(k: Bytes, key: Key, txid: Hash)
    requires k == Encode(key)
    ensures OutKeyOf(k, txid) <==> key.Out? && key.txid == txid
    ensures key.Out? ==> |k| == 37 && k[1..33] == key.txid && FromBE32(k[33..]) == key.vout
  {
    if key.Out? {
      assert k == [0x03] + key.txid + BE32(key.vout);
      assert k[1..33] == key.txid && k[33..] == BE32(key.vout);
      BE32RoundTrip(key.vout);
    }
  }

  /** Every output key of a transaction, the top vout included. */
  ghost function TxKeys(db: DB, txid: Hash): (r: seq<Bytes>)
    ensures Ascending(r) && OutKeys(db, r)
    ensures forall k :: k in r <==> k in db && OutKeyOf(k, txid)
  {
    var r := Sorted(set k | k in db && OutKeyOf(k, txid));
    assert forall i :: 0 <= i < |r| ==> r[i] in r;
    r
  }

  ghost function AllOutputs(db: DB, txid: Hash): Result<seq<Output>> {
    OutRows(db, txid, TxKeys(db, txid))
  }

  /** The part of the output index that belongs to one transaction starts where the seek lands. */
  ghost predicate Landed(keys: seq<Bytes>, txid: Hash, p: nat) {
    && p <= |keys|
    && (forall i :: 0 <= i < p ==> Lt(keys[i], Encode(Out(txid, 0))))
    && (p < |keys| ==> !Lt(keys[p], Encode(Out(txid, 0))))
  }

  /** The whole output index, as the shared iterator sees it. */
  ghost predicate OutIndex(db: DB, keys: seq<Bytes>) {
    && WellFormed(db) && Ascending(keys) && OutKeys(db, keys)
    && forall k :: k in keys <==> k in db && InBounds(k, [0x03], [0x04])
  }

  lemma OutIndexKey(db: DB, keys: seq<Bytes>, k: Bytes) returns (key: Key)
    requires OutIndex(db, keys) && k in keys
    ensures key.Out? && k == Encode(key)
  {
    key := KeyOf(db, k);
    PrefixBoundsExact(0x03, key);
  }

  lemma OutIndexHas(db: DB, keys: seq<Bytes>, k: Bytes, txid: Hash)
    requires OutIndex(db, keys) && k in db && OutKeyOf(k, txid)
    ensures k in keys
  {
    var key := KeyOf(db, k);
    OutKeyForm(k, key, txid);
    PrefixBoundsExact(0x03, key);
  }

  /** Keys of the transaction never lie before the landing position. */
  lemma NotBeforeLanding(k: Bytes, key: Key, txid: Hash)
    requires key.Out? && k == Encode(key)
    ensures Lt(k, Encode(Out(txid, 0))) <==> Lt(key.txid, txid)
    ensures key.txid == txid ==> !Lt(k, Encode(Out(txid, 0)))
  {
    EncodeOrder(key, Out(txid, 0));
    Compare(key.txid, txid);
  }

  /** Walking from the landing position while the txid matches collects exactly the transaction's keys. */
  lemma SegmentIsTx(db: DB, keys: seq<Bytes>, txid: Hash, p: nat, q: nat)
    requires OutIndex(db, keys) && Landed(keys, txid, p) && p <= q <= |keys|
    requires forall i :: p <= i < q ==> OutKeyOf(keys[i], txid)
    requires q < |keys| ==> !OutKeyOf(keys[q], txid)
    ensures TxKeys(db, txid) == keys[p..q]
  {
    forall k ensures k in keys[p..q] <==> k in db && OutKeyOf(k, txid) {
      if k in db && OutKeyOf(k, txid) { InSegment(db, keys, txid, p, q, k); }
    }
    AscendingUnique(TxKeys(db, txid), keys[p..q]);
  }

  lemma InSegment(db: DB, keys: seq<Bytes>, txid: Hash, p: nat, q: nat, k: Bytes)
    requires OutIndex(db, keys) && Landed(keys, txid, p) && p <= q <= |keys|
    requires q < |keys| ==> !OutKeyOf(keys[q], txid)
    requires k in db && OutKeyOf(k, txid)
    ensures k in keys[p..q]
  {
    OutIndexHas(db, keys, k, txid);
    var i :| 0 <= i < |keys| && keys[i] == k;
    var key := OutIndexKey(db, keys, k);
    OutKeyForm(k, key, txid);
    NotBeforeLanding(k, key, txid);
    if i >= q { PastSegment(db, keys, txid, p, q, i); }
    assert keys[p..q][i - p] == k;
  }

  /** Past the first foreign key at or after the landing there is no key of the transaction. */
  lemma PastSegment(db: DB, keys: seq<Bytes>, txid: Hash, p: nat, q: nat, i: nat)
    requires OutIndex(db, keys) && Landed(keys, txid, p) && p <= q <= i < |keys|
    requires !OutKeyOf(keys[q], txid)
    ensures !OutKeyOf(keys[i], txid)
  {
    var first := OutIndexKey(db, keys, keys[q]);
    var far := OutIndexKey(db, keys, keys[i]);
    OutKeyForm(keys[q], first, txid);
    OutKeyForm(keys[i], far, txid);
    if p < q { LtTransitiveDown(keys[p], keys[q], Encode(Out(txid, 0))); }
    if q < i { ForeignStaysForeign(first, far, txid); }
  }

  lemma ForeignStaysForeign(first: Key, far: Key, txid: Hash)
    requires first.Out? && far.Out? && Lt(Encode(first), Encode(far))
    requires first.txid != txid && !Lt(Encode(first), Encode(Out(txid, 0)))
    ensures far.txid != txid
  {
    EncodeOrder(first, far);
    EncodeOrder(first, Out(txid, 0));
    Compare(first.txid, txid);
  }

  lemma LtTransitiveDown(a: Bytes, b: Bytes, c: Bytes)
    requires Lt(a, b) && !Lt(a, c)
    ensures !Lt(b, c)
  {
    if Lt(b, c) { LtTransitive(a, b, c); }
  }

  /** When a seek runs off the end, that transaction and every later one has no outputs. */
  lemma NothingAfter(db: DB, keys: seq<Bytes>, txid: Hash, later: Hash)
    requires OutIndex(db, keys) && Landed(keys, txid, |keys|) && !Lt(later, txid)
    ensures AllOutputs(db, later) == Ok([])
  {
    var ks := TxKeys(db, later);
    assert ks != [] ==> ks[0] in ks;
    forall k | k in db ensures !OutKeyOf(k, later) {
      if OutKeyOf(k, later) {
        OutIndexHas(db, keys, k, later);
        var key := OutIndexKey(db, keys, k);
        OutKeyForm(k, key, later);
        NotBeforeLanding(k, key, txid);
      }
    }
  }

  // ---------- fetchOutputs ----------

  ghost function Join<T>(rs: seq<Result<seq<T>>>): Result<seq<T>> {
    if rs == [] then Ok([])
    else match (Join(rs[..|rs| - 1]), rs[|rs| - 1])
      case (Ok(a), Ok(b)) => Ok(a + b)
      case _ => Err
  }

  lemma {:induction false} JoinOk<T>(rs: seq<Result<seq<T>>>, vals: seq<seq<T>>)
    requires |rs| == |vals| && forall i :: 0 <= i < |rs| ==> rs[i] == Ok(vals[i])
    ensures Join(rs) == Ok(Flatten(vals))
  {
    if rs != [] { JoinOk(rs[..|rs| - 1], vals[..|rs| - 1]); }
  }

  lemma {:induction false} JoinErr<T>(rs: seq<Result<seq<T>>>, i: nat)
    requires i < |rs| && rs[i].Err?
    ensures Join(rs) == Err
  {
    if i < |rs| - 1 { JoinErr(rs[..|rs| - 1], i); }
  }

  lemma JoinNext<T>(rs: seq<Result<seq<T>>>, n: nat)
    requires n < |rs|
    ensures Join(rs[..n]).Ok? && rs[n].Ok? ==> Join(rs[..n + 1]) == Ok(Join(rs[..n]).value + rs[n].value)
  {
    assert rs[..n + 1][..n] == rs[..n];
  }

  lemma JoinLonger<T(!new)>(a: seq<Result<seq<T>>>, b: seq<Result<seq<T>>>, top: nat)
    requires |a| == |b| && top < |a|
    requires forall i :: 0 <= i < |a| ==> a[i].Ok? && b[i].Ok? && |a[i].value| >= |b[i].value|
    requires |a[top].value| > |b[top].value|
    ensures Join(a) != Join(b)
  {
    var x := seq(|a|, i requires 0 <= i < |a| => a[i].value);
    var y := seq(|b|, i requires 0 <= i < |b| => b[i].value);
    JoinOk(a, x);
    JoinOk(b, y);
    assert |x[top]| > |y[top]|;
    FlattenLonger(x, y);
  }

  /** The outputs of every transaction of a list, transaction by transaction. */
  ghost function PerTx(db: DB, txids: seq<Hash>): (r: seq<Result<seq<Output>>>)
    ensures |r| == |txids|
  {
    seq(|txids|, i requires 0 <= i < |txids| => AllOutputs(db, txids[i]))
  }

  ghost function BlockOutputs(db: DB, blockhash: Hash): Result<seq<Output>> {
    match Txids(db, blockhash)
    case Err => Err
    case Ok(txids) => Join(PerTx(db, txids))
  }

  /** Reads on from a landed seek while the key still belongs to the transaction. */
  method WalkTx(it: Iterator, txid: Hash) returns (r: Result<seq<Output>>)
    requires it.Valid() && it.pos < |it.keys| && OutKeys(it.db, it.keys)
    modifies it
    ensures it.Valid() && old(it.pos) <= it.pos
    ensures forall i :: old(it.pos) <= i < it.pos ==> it.keys[i][1..33] == txid
    ensures r.Ok? && it.pos < |it.keys| ==> it.keys[it.pos][1..33] != txid
    ensures r.Ok? ==> r == OutRows(it.db, txid, it.keys[old(it.pos)..it.pos])
    ensures r.Err? ==> it.pos < |it.keys| && it.keys[it.pos][1..33] == txid && |it.db[it.keys[it.pos]]| != 40
  {
    ghost var p := it.pos;
    var outs: seq<Output> := [];
    var ok := true;
    while ok && it.Key()[1..33] == txid
      invariant it.Valid() && p <= it.pos && ok == (it.pos < |it.keys|)
      invariant forall i :: p <= i < it.pos ==> it.keys[i][1..33] == txid
      invariant OutRows(it.db, txid, it.keys[p..it.pos]) == Ok(outs)
      decreases |it.keys| - it.pos
    {
      OutRowsNext(it.db, txid, it.keys, p, it.pos);
      var o := OutRow(txid, it.Key(), it.Value());
      if o.Err? {
        return Err;
      }
      outs := outs + [o.value];
      ok := it.Next();
    }
    r := Ok(outs);
  }

  lemma OutRowsNext(db: DB, txid: Hash, keys: seq<Bytes>, p: nat, q: nat)
    requires OutKeys(db, keys) && p <= q < |keys|
    ensures var o := OutRow(txid, keys[q], db[keys[q]]);
      OutRows(db, txid, keys[p..q]).Ok? && o.Ok? ==>
        OutRows(db, txid, keys[p..q + 1]) == Ok(OutRows(db, txid, keys[p..q]).value + [o.value])
  {
    assert keys[p..q + 1][..q - p] == keys[p..q];
  }

  /** One seek of the shared iterator: the transaction's outputs, or word that nothing is left. */
  method SeekTx(it: Iterator, txid: Hash) returns (more: bool, r: Result<seq<Output>>)
    requires it.Valid() && OutIndex(it.db, it.keys)
    modifies it
    ensures it.Valid()
    ensures more ==> r == AllOutputs(it.db, txid)
    ensures !more ==> Landed(it.keys, txid, |it.keys|)
  {
    more := it.SeekGE(Encode(Out(txid, 0)));
    if !more {
      return false, Err;
    }
    ghost var p := it.pos;
    r := WalkTx(it, txid);
    TagOfOutIndex(it.db, it.keys);
    if r.Ok? {
      SegmentIsTx(it.db, it.keys, txid, p, it.pos);
    } else {
      BadRow(it.db, it.keys[it.pos], txid);
    }
  }

  lemma TagOfOutIndex(db: DB, keys: seq<Bytes>)
    requires OutIndex(db, keys)
    ensures forall i, txid :: 0 <= i < |keys| ==> (OutKeyOf(keys[i], txid) <==> keys[i][1..33] == txid)
  {
    forall i | 0 <= i < |keys| ensures |keys[i]| == 37 && keys[i][0] == 0x03 {
      var key := OutIndexKey(db, keys, keys[i]);
    }
  }

  lemma BadRow(db: DB, k: Bytes, txid: Hash)
    requires k in db && OutKeyOf(k, txid) && |db[k]| != 40
    ensures AllOutputs(db, txid) == Err
  {
    assert k in TxKeys(db, txid);
    var n :| 0 <= n < |TxKeys(db, txid)| && TxKeys(db, txid)[n] == k;
    OutRowsErr(db, txid, TxKeys(db, txid), n);
  }

  method FetchOutputs(db: DB, blockhash: Hash) returns (r: Result<seq<Output>>)
    requires WellFormed(db)
    ensures r == BlockOutputs(db, blockhash)
  {
    var t := BlockTxids(db, blockhash);
    if t.Err? {
      return Err;
    }
    var txids := t.value;
    if |txids| == 0 {
      return Ok([]);
    }
    var it := new Iterator(db, [0x03], [0x04]);
    IteratorIsOutIndex(db, it.keys);
    r := FetchSorted(it, txids);
  }

  lemma IteratorIsOutIndex(db: DB, keys: seq<Bytes>)
    requires WellFormed(db) && keys == Range(db, [0x03], [0x04])
    ensures OutIndex(db, keys)
  {
    forall i | 0 <= i < |keys| ensures keys[i] in db && |keys[i]| == 37 {
      assert keys[i] in keys;
      var key := KeyOf(db, keys[i]);
      PrefixBoundsExact(0x03, key);
    }
  }

  /** Seeks ascend, so once one runs off the end no later one can find anything. */
  lemma NothingLeft(db: DB, keys: seq<Bytes>, txids: seq<Hash>, order: seq<nat>, n: nat)
    requires OutIndex(db, keys) && SortedOrder(txids, order) && n < |order|
    requires Landed(keys, txids[order[n]], |keys|)
    ensures forall j :: n <= j < |order| ==> AllOutputs(db, txids[order[j]]) == Ok([])
  {
    forall j | n <= j < |order| ensures AllOutputs(db, txids[order[j]]) == Ok([]) {
      Compare(txids[order[j]], txids[order[n]]);
      NothingAfter(db, keys, txids[order[n]], txids[order[j]]);
    }
  }

  lemma AllPlaced(db: DB, txids: seq<Hash>, order: seq<nat>, buckets: seq<seq<Output>>)
    requires IsPermutation(order, |txids|) && |buckets| == |txids|
    requires forall j :: 0 <= j < |order| ==> AllOutputs(db, txids[order[j]]) == Ok(buckets[order[j]])
    ensures Join(PerTx(db, txids)) == Ok(Flatten(buckets))
  {
    forall p | 0 <= p < |txids| ensures PerTx(db, txids)[p] == Ok(buckets[p]) {
      assert p in order;
      var j :| 0 <= j < |order| && order[j] == p;
    }
    JoinOk(PerTx(db, txids), buckets);
  }

  /** The txid-ordered walk; `perTx` is indexed by position in the block. */
  method FetchSorted(it: Iterator, txids: seq<Hash>) returns (r: Result<seq<Output>>)
    requires it.Valid() && OutIndex(it.db, it.keys)
    modifies it
    ensures r == Join(PerTx(it.db, txids))
  {
    var perTx := new seq<Output>[|txids|](_ => []);
    var order := SortedTxidOrder(txids);
    var n, more := 0, true;
    while n < |order| && more
      invariant it.Valid() && n <= |order|
      invariant forall j :: 0 <= j < n ==> AllOutputs(it.db, txids[order[j]]) == Ok(perTx[order[j]])
      invariant forall j :: n <= j < |order| ==> perTx[order[j]] == []
      invariant !more ==> forall j :: n <= j < |order| ==> AllOutputs(it.db, txids[order[j]]) == Ok([])
      decreases |order| - n, more
    {
      var pos := order[n];
      var outs;
      more, outs := SeekTx(it, txids[pos]);
      if !more {
        NothingLeft(it.db, it.keys, txids, order, n);
      } else if outs.Err? {
        JoinErr(PerTx(it.db, txids), pos);
        return Err;
      } else {
        perTx[pos] := outs.value;
        n := n + 1;
      }
    }
    AllPlaced(it.db, txids, order, perTx[..]);
    var out := Flattened(perTx[..]);
    r := Ok(out);
  }

  method Flattened<T>(parts: seq<seq<T>>) returns (out: seq<T>)
    ensures out == Flatten(parts)
  {
    out := [];
    for i := 0 to |parts|
      invariant out == Flatten(parts[..i])
    {
      FlattenNext(parts, i);
      out := out + parts[i];
    }
    assert parts[..|parts|] == parts;
  }
}
