/** The key builders as they run: a zeroed buffer, a prefix byte, copies and fill loops. */
module Encoders {
  import opened ByteOrder
  import opened Keys

  /** What `copy(dst[at:], src)` leaves in a buffer that held `was`. */
  function Overlay(was: Bytes, at: nat, src: Bytes): (now: Bytes)
    requires at + |src| <= |was|
    ensures |now| == |was|
    ensures forall i :: 0 <= i < |was| ==> now[i] == if at <= i < at + |src| then src[i - at] else was[i]
  {
    was[..at] + src + was[at + |src|..]
  }

  method Copy(dst: array<Byte>, at: nat, src: Bytes)
    requires at + |src| <= dst.Length
    modifies dst
    ensures dst[..] == Overlay(old(dst[..]), at, src)
  {
    for i := 0 to |src|
      invariant forall j :: 0 <= j < dst.Length ==>
        dst[j] == if at <= j < at + i then src[j - at] else old(dst[..])[j]
    {
      dst[at + i] := src[i];
    }
  }

  /** `for i := at; i < len(dst); i++ { dst[i] = 0xFF }`. */
  method FillFF(dst: array<Byte>, at: nat)
    requires at <= dst.Length
    modifies dst
    ensures dst[..] == Overlay(old(dst[..]), at, Fill(0xFF, dst.Length - at))
  {
    for i := at to dst.Length
      invariant forall j :: 0 <= j < dst.Length ==> dst[j] == if at <= j < i then 0xFF else old(dst[..])[j]
    {
      dst[i] := 0xFF;
    }
  }

  /** `make([]byte, n)` with the prefix byte set. */
  method NewBuffer(tag: Byte, n: nat) returns (k: array<Byte>)
    requires n > 0
    ensures fresh(k) && k[..] == [tag] + Fill(0, n - 1)
  {
    k := new Byte[n](_ => 0);
    k[0] := tag;
  }

  method KeyBlockTx(blockHash: Hash, pos: U32) returns (k: array<Byte>)
    ensures fresh(k) && k[..] == Encode(BlockTx(blockHash, pos))
  {
    k := NewBuffer(0x01, 37);
    Copy(k, 1, blockHash);
    Copy(k, 33, BE32(pos));
  }

  method KeyTx(txid: Hash) returns (k: array<Byte>)
    ensures fresh(k) && k[..] == Encode(Tx(txid))
  {
    k := NewBuffer(0x02, 33);
    Copy(k, 1, txid);
  }

  method KeyTxOccur(txid: Hash, blockHash: Hash) returns (k: array<Byte>)
    ensures fresh(k) && k[..] == Encode(TxOccur(txid, blockHash))
  {
    k := NewBuffer(0x07, 65);
    Copy(k, 1, txid);
    Copy(k, 33, blockHash);
  }

  method KeyOut(txid: Hash, vout: U32) returns (k: array<Byte>)
    ensures fresh(k) && k[..] == Encode(Out(txid, vout))
  {
    k := NewBuffer(0x03, 37);
    Copy(k, 1, txid);
    Copy(k, 33, BE32(vout));
  }

  method KeySpend(prevTxid: Hash, prevVout: U32, blockHash: Hash) returns (k: array<Byte>)
    ensures fresh(k) && k[..] == Encode(Spend(prevTxid, prevVout, blockHash))
  {
    k := NewBuffer(0x04, 69);
    Copy(k, 1, prevTxid);
    Copy(k, 33, BE32(prevVout));
    Copy(k, 37, blockHash);
  }

  method KeyCIHeight(height: U32) returns (k: array<Byte>)
    ensures fresh(k) && k[..] == Encode(CIHeight(height))
  {
    k := NewBuffer(0x05, 5);
    Copy(k, 1, BE32(height));
  }

  method KeyCIBlock(blockHash: Hash) returns (k: array<Byte>)
    ensures fresh(k) && k[..] == Encode(CIBlock(blockHash))
  {
    k := NewBuffer(0x06, 33);
    Copy(k, 1, blockHash);
  }

  method KeySpentOutputsShort(blockHash: Hash) returns (k: array<Byte>)
    ensures fresh(k) && k[..] == Encode(SpentOutputsShort(blockHash))
  {
    k := NewBuffer(0x0E, 33);
    Copy(k, 1, blockHash);
  }

  method KeyTxidOutpoints(blockHash: Hash, txid: Hash) returns (k: array<Byte>)
    ensures fresh(k) && k[..] == Encode(TxidOutpoints(blockHash, txid))
  {
    k := NewBuffer(0x0F, 65);
    Copy(k, 1, blockHash);
    Copy(k, 33, txid);
  }

  method KeyComputeIndex(height: U32, txid: Hash) returns (k: array<Byte>)
    ensures fresh(k) && k[..] == Encode(ComputeIndex(height, txid))
  {
    k := NewBuffer(0x0D, 37);
    Copy(k, 1, BE32(height));
    Copy(k, 5, txid);
    assert k[..] == [0x0D] + (BE32(height) + txid);
  }

  // The range bounds come out as the encodings of the two end keys of `Bounds`.

  method MakeBoundsBlockTx(blockHash: Hash) returns (lb: array<Byte>, ub: array<Byte>)
    ensures lb[..] == Encode(BoundsBlockTx(blockHash).Low()) && ub[..] == Encode(BoundsBlockTx(blockHash).High())
  {
    BE32Extremes();
    lb := NewBuffer(0x01, 37);
    Copy(lb, 1, blockHash);
    ub := NewBuffer(0x01, 37);
    Copy(ub, 1, blockHash);
    FillFF(ub, 33);
  }

  method MakeBoundsOut(txid: Hash) returns (lb: array<Byte>, ub: array<Byte>)
    ensures lb[..] == Encode(BoundsOut(txid).Low()) && ub[..] == Encode(BoundsOut(txid).High())
  {
    BE32Extremes();
    lb := NewBuffer(0x03, 37);
    Copy(lb, 1, txid);
    ub := NewBuffer(0x03, 37);
    Copy(ub, 1, txid);
    FillFF(ub, 33);
  }

  method MakeBoundsSpend(prevTxid: Hash, prevVout: U32) returns (lb: array<Byte>, ub: array<Byte>)
    ensures lb[..] == Encode(BoundsSpend(prevTxid, prevVout).Low())
    ensures ub[..] == Encode(BoundsSpend(prevTxid, prevVout).High())
  {
    lb := NewBuffer(0x04, 69);
    Copy(lb, 1, prevTxid);
    Copy(lb, 33, BE32(prevVout));
    ghost var head := [0x04] + prevTxid + BE32(prevVout);
    assert lb[..] == head + Fill(0, 32);
    ub := NewBuffer(0, 69);
    Copy(ub, 0, lb[..]);
    FillFF(ub, 37);
    assert ub[..] == head + Fill(0xFF, 32);
  }

  method MakeBoundsCIHeight() returns (lb: array<Byte>, ub: array<Byte>)
    ensures lb[..] == Encode(BoundsCIHeight.Low()) && ub[..] == Encode(BoundsCIHeight.High())
  {
    lb := NewBuffer(0x05, 5);
    Copy(lb, 1, BE32(0));
    ub := NewBuffer(0x05, 5);
    Copy(ub, 1, BE32(MAX_U32));
  }

  method MakeBoundsTxidOutpoints(blockHash: Hash) returns (lb: array<Byte>, ub: array<Byte>)
    ensures lb[..] == Encode(BoundsTxidOutpoints(blockHash).Low())
    ensures ub[..] == Encode(BoundsTxidOutpoints(blockHash).High())
  {
    lb := NewBuffer(0x0F, 65);
    Copy(lb, 1, blockHash);
    ub := NewBuffer(0x0F, 65);
    Copy(ub, 1, blockHash);
    FillFF(ub, 33);
  }

  /** `BoundsComputeIndexOneHeight(h)` is the case `start == end == h`. */
  method MakeBoundsComputeIndex(start: U32, end: U32) returns (lb: array<Byte>, ub: array<Byte>)
    ensures lb[..] == Encode(BoundsComputeIndex(start, end).Low())
    ensures ub[..] == Encode(BoundsComputeIndex(start, end).High())
  {
    lb := NewBuffer(0x0D, 37);
    Copy(lb, 1, BE32(start));
    ub := NewBuffer(0x0D, 37);
    Copy(ub, 1, BE32(end));
    Copy(ub, 5, MAX_HASH);
  }
}
