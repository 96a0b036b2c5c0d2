/** The key space of the store: every index, its byte layout, its order and its scan bounds. */
module Keys {
  import opened ByteOrder

  /** One constructor per index, named after the prefix constants. */
  datatype Key =
    | BlockTx(hash: Hash, pos: U32)
    | Tx(txid: Hash)
    | Out(txid: Hash, vout: U32)
    | Spend(txid: Hash, vout: U32, hash: Hash)
    | CIHeight(height: U32)
    | CIBlock(hash: Hash)
    | TxOccur(txid: Hash, hash: Hash)
    | ComputeIndex(height: U32, txid: Hash)
    | SpentOutputsShort(hash: Hash)
    | TxidOutpoints(hash: Hash, txid: Hash)

  function Tag(k: Key): Byte {
    match k
    case BlockTx(_, _) => 0x01
    case Tx(_) => 0x02
    case Out(_, _) => 0x03
    case Spend(_, _, _) => 0x04
    case CIHeight(_) => 0x05
    case CIBlock(_) => 0x06
    case TxOccur(_, _) => 0x07
    case ComputeIndex(_, _) => 0x0D
    case SpentOutputsShort(_) => 0x0E
    case TxidOutpoints(_, _) => 0x0F
  }

  /** The fields behind the prefix byte, in key order. */
  function Fields(k: Key): Bytes {
    match k
    case BlockTx(hash, pos) => hash + BE32(pos)
    case Tx(txid) => txid
    case Out(txid, vout) => txid + BE32(vout)
    case Spend(txid, vout, hash) => txid + (BE32(vout) + hash)
    case CIHeight(height) => BE32(height)
    case CIBlock(hash) => hash
    case TxOccur(txid, hash) => txid + hash
    case ComputeIndex(height, txid) => BE32(height) + txid
    case SpentOutputsShort(hash) => hash
    case TxidOutpoints(hash, txid) => hash + txid
  }

  function Encode(k: Key): (b: Bytes)
    ensures |b| > 0 && b[0] == Tag(k)
  {
    [Tag(k)] + Fields(k)
  }

  // ---------- injectivity ----------

  lemma FieldsInjective(a: Key, b: Key)
    requires Tag(a) == Tag(b) && Fields(a) == Fields(b)
    ensures a == b
  {
    match a
    case BlockTx(hash, pos) => SplitEqual(hash, BE32(pos), b.hash, BE32(b.pos)); BE32Injective(pos, b.pos);
    case Tx(_) =>
    case Out(txid, vout) => SplitEqual(txid, BE32(vout), b.txid, BE32(b.vout)); BE32Injective(vout, b.vout);
    case Spend(txid, vout, hash) =>
      SplitEqual(txid, BE32(vout) + hash, b.txid, BE32(b.vout) + b.hash);
      SplitEqual(BE32(vout), hash, BE32(b.vout), b.hash);
      BE32Injective(vout, b.vout);
    case CIHeight(height) => BE32Injective(height, b.height);
    case CIBlock(_) =>
    case TxOccur(txid, hash) => SplitEqual(txid, hash, b.txid, b.hash);
    case ComputeIndex(height, txid) =>
      SplitEqual(BE32(height), txid, BE32(b.height), b.txid);
      BE32Injective(height, b.height);
    case SpentOutputsShort(_) =>
    case TxidOutpoints(hash, txid) => SplitEqual(hash, txid, b.hash, b.txid);
  }

  lemma SplitEqual(a: Bytes, x: Bytes, b: Bytes, y: Bytes)
    requires |a| == |b| && a + x == b + y
    ensures a == b && x == y
  {
    assert a == (a + x)[..|a|] && b == (b + y)[..|a|];
    assert x == (a + x)[|a|..] && y == (b + y)[|a|..];
  }

  /** Equal encodings of a height, position or vout are equal numbers. */
  lemma BE32Injective(u: U32, v: U32)
    ensures BE32(u) == BE32(v) <==> u == v
  {
    BE32RoundTrip(u);
    BE32RoundTrip(v);
  }

  /** Distinct keys never share bytes, within one index or across indexes. */
  lemma EncodeInjective(a: Key, b: Key)
    ensures Encode(a) == Encode(b) <==> a == b
  {
    if Encode(a) == Encode(b) {
      assert Encode(a)[1..] == Fields(a) && Encode(b)[1..] == Fields(b);
      FieldsInjective(a, b);
    }
  }

  // ---------- order ----------

  /** Field-by-field order: hashes as byte strings, numbers as numbers. */
  predicate KeyLt(a: Key, b: Key) {
    Tag(a) < Tag(b) || (Tag(a) == Tag(b) && match a {
      case BlockTx(hash, pos) => Lt(hash, b.hash) || (hash == b.hash && pos < b.pos)
      case Tx(txid) => Lt(txid, b.txid)
      case Out(txid, vout) => Lt(txid, b.txid) || (txid == b.txid && vout < b.vout)
      case Spend(txid, vout, hash) =>
        Lt(txid, b.txid) || (txid == b.txid && (vout < b.vout || (vout == b.vout && Lt(hash, b.hash))))
      case CIHeight(height) => height < b.height
      case CIBlock(hash) => Lt(hash, b.hash)
      case TxOccur(txid, hash) => Lt(txid, b.txid) || (txid == b.txid && Lt(hash, b.hash))
      case ComputeIndex(height, txid) => height < b.height || (height == b.height && Lt(txid, b.txid))
      case SpentOutputsShort(hash) => Lt(hash, b.hash)
      case TxidOutpoints(hash, txid) => Lt(hash, b.hash) || (hash == b.hash && Lt(txid, b.txid))
    })
  }

  lemma FieldsOrder(a: Key, b: Key)
    requires Tag(a) == Tag(b)
    ensures Lt(Fields(a), Fields(b)) <==> KeyLt(a, b)
  {
    match a
    case BlockTx(hash, pos) => LtConcat(hash, b.hash, BE32(pos), BE32(b.pos)); BE32Order(pos, b.pos);
    case Tx(_) =>
    case Out(txid, vout) => LtConcat(txid, b.txid, BE32(vout), BE32(b.vout)); BE32Order(vout, b.vout);
    case Spend(txid, vout, hash) =>
      LtConcat(txid, b.txid, BE32(vout) + hash, BE32(b.vout) + b.hash);
      LtConcat(BE32(vout), BE32(b.vout), hash, b.hash);
      BE32Order(vout, b.vout);
      BE32Injective(vout, b.vout);
    case CIHeight(height) => BE32Order(height, b.height);
    case CIBlock(_) =>
    case TxOccur(txid, hash) => LtConcat(txid, b.txid, hash, b.hash);
    case ComputeIndex(height, txid) =>
      LtConcat(BE32(height), BE32(b.height), txid, b.txid);
      BE32Order(height, b.height);
      BE32Injective(height, b.height);
    case SpentOutputsShort(_) =>
    case TxidOutpoints(hash, txid) => LtConcat(hash, b.hash, txid, b.txid);
  }

  /** The byte order of the store is the field order of the keys. */
  lemma EncodeOrder(a: Key, b: Key)
    ensures Lt(Encode(a), Encode(b)) <==> KeyLt(a, b)
  {
    var x, y := Encode(a), Encode(b);
    assert x[1..] == Fields(a) && y[1..] == Fields(b);
    if Tag(a) == Tag(b) {
      FieldsOrder(a, b);
    }
  }

  // ---------- scan bounds ----------

  /** Pebble bounds: the lower one inclusive, the upper one exclusive. */
  predicate InBounds(k: Bytes, lb: Bytes, ub: Bytes) {
    !Lt(k, lb) && Lt(k, ub)
  }

  /** Every scan bound the store uses, as the pair of keys at its two ends. */
  datatype Bounds =
    | BoundsBlockTx(hash: Hash)
    | BoundsOut(txid: Hash)
    | BoundsSpend(txid: Hash, vout: U32)
    | BoundsCIHeight
    | BoundsTxidOutpoints(hash: Hash)
    | BoundsComputeIndex(start: U32, end: U32)
  {
    function Low(): Key {
      match this
      case BoundsBlockTx(hash) => BlockTx(hash, 0)
      case BoundsOut(txid) => Out(txid, 0)
      case BoundsSpend(txid, vout) => Spend(txid, vout, ZERO_HASH)
      case BoundsCIHeight => CIHeight(0)
      case BoundsTxidOutpoints(hash) => TxidOutpoints(hash, ZERO_HASH)
      case BoundsComputeIndex(start, _) => ComputeIndex(start, ZERO_HASH)
    }

    function High(): Key {
      match this
      case BoundsBlockTx(hash) => BlockTx(hash, MAX_U32)
      case BoundsOut(txid) => Out(txid, MAX_U32)
      case BoundsSpend(txid, vout) => Spend(txid, vout, MAX_HASH)
      case BoundsCIHeight => CIHeight(MAX_U32)
      case BoundsTxidOutpoints(hash) => TxidOutpoints(hash, MAX_HASH)
      case BoundsComputeIndex(_, end) => ComputeIndex(end, MAX_HASH)
    }

    /** The keys a reader of the scan is after: given leading fields, or a height interval. */
    predicate Wanted(k: Key) {
      match this
      case BoundsBlockTx(hash) => k.BlockTx? && k.hash == hash
      case BoundsOut(txid) => k.Out? && k.txid == txid
      case BoundsSpend(txid, vout) => k.Spend? && k.txid == txid && k.vout == vout
      case BoundsCIHeight => k.CIHeight?
      case BoundsTxidOutpoints(hash) => k.TxidOutpoints? && k.hash == hash
      case BoundsComputeIndex(start, end) => k.ComputeIndex? && start <= k.height <= end
    }

    /** `Lt` on the encodings, inclusive below and exclusive above. */
    predicate Contains(k: Bytes) {
      InBounds(k, Encode(Low()), Encode(High()))
    }
  }

  lemma ContainsByFields(bounds: Bounds, k: Key)
    ensures bounds.Contains(Encode(k)) <==> !KeyLt(k, bounds.Low()) && KeyLt(k, bounds.High())
  {
    EncodeOrder(k, bounds.Low());
    EncodeOrder(k, bounds.High());
  }

  /** A scan meets exactly the wanted keys, less the one key that is its upper bound. */
  lemma BoundsExact(bounds: Bounds, k: Key)
    ensures bounds.Contains(Encode(k)) <==> bounds.Wanted(k) && k != bounds.High()
  {
    ContainsByFields(bounds, k);
    match bounds
    case BoundsBlockTx(hash) => if k.BlockTx? { Compare(k.hash, hash); }
    case BoundsOut(txid) => if k.Out? { Compare(k.txid, txid); }
    case BoundsSpend(txid, vout) => if k.Spend? { Compare(k.txid, txid); LtExtremes(k.hash, 32); }
    case BoundsCIHeight =>
    case BoundsTxidOutpoints(hash) => if k.TxidOutpoints? { Compare(k.hash, hash); LtExtremes(k.txid, 32); }
    case BoundsComputeIndex(_, _) => if k.ComputeIndex? { LtExtremes(k.txid, 32); }
  }

  /** Exactly one of less, equal and greater. */
  lemma Compare(a: Bytes, b: Bytes)
    ensures a == b ==> !Lt(a, b) && !Lt(b, a)
    ensures a != b ==> Lt(a, b) != Lt(b, a)
  {
    LtTotal(a, b);
    if Lt(a, b) { LtAsymmetric(a, b); }
    if Lt(b, a) { LtAsymmetric(b, a); }
  }

  /** `[]byte{prefix}` to `[]byte{prefix+1}`: every key of one index, and no other. */
  lemma PrefixBoundsExact(tag: Byte, k: Key)
    requires tag < 0xFF
    ensures InBounds(Encode(k), [tag], [tag + 1]) <==> Tag(k) == tag
  {
    var b, rest: Bytes := Encode(k), [];
    var low: Bytes, high: Bytes := [tag], [tag + 1];
    assert low[1..] == rest && high[1..] == rest && !Lt(b[1..], rest);
    assert Lt(b, low) <==> b[0] < tag;
    assert Lt(b, high) <==> b[0] < tag + 1;
  }
}
