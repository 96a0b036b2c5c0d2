/** The response items, and a reader of their JSON that knows nothing of how they are printed. */
module Readers {
  import opened ByteOrder
  import opened Blocks

  datatype UTXOItemLight = UTXOItemLight(vout: U32, amount: U64, pubkey: Bytes)
  datatype UTXOItem = UTXOItem(txid: Bytes, light: UTXOItemLight)
  datatype ComputeIndexItem = ComputeIndexItem(txid: Bytes, tweak: Bytes, outputs: seq<Bytes>)
  datatype FullTxItem = FullTxItem(txid: Bytes, tweak: Bytes, inputs: seq<Bytes>, utxos: Option<seq<UTXOItemLight>>)

  /** A block's response: its identifier and one of the index arrays. */
  datatype Response<T> = Response(blockHash: Bytes, blockHeight: U32, index: seq<T>)

  /** What was read, and the text after it. */
  datatype Parsed<+T> = Fail | Got(value: T, rest: string) {
    predicate IsFailure() { Fail? }

    function PropagateFailure<U>(): Parsed<U>
      requires IsFailure()
    {
      Fail
    }

    function Extract(): (T, string)
      requires !IsFailure()
    {
      (value, rest)
    }
  }

  type Reader<T> = string -> Parsed<T>

  // ---------- tokens ----------

  function Lit(s: string, lit: string): Parsed<()> {
    if lit <= s then Got((), s[|lit|..]) else Fail
  }

  /** A member's name and colon. */
  function Name(s: string, name: string): Parsed<()> {
    Lit(s, "\"" + name + "\":")
  }

  predicate IsDigit(c: char) {
    '0' <= c <= '9'
  }

  function DigitCount(s: string): (n: nat)
    ensures n <= |s| && forall i :: 0 <= i < n ==> IsDigit(s[i])
  {
    if s == "" || !IsDigit(s[0]) then 0 else 1 + DigitCount(s[1..])
  }

  function DecValue(digits: string): nat
    requires forall i :: 0 <= i < |digits| ==> IsDigit(digits[i])
  {
    if digits == "" then 0
    else
      var last := digits[|digits| - 1];
      assert IsDigit(last);
      DecValue(digits[..|digits| - 1]) * 10 + DigitValue(last)
  }

  function DigitValue(c: char): nat
    requires IsDigit(c)
  {
    c as int - '0' as int
  }

  /** A number in base ten, below a limit. */
  function ReadDec(s: string, limit: nat): Parsed<nat> {
    var n := DigitCount(s);
    if n == 0 || DecValue(s[..n]) >= limit then Fail else Got(DecValue(s[..n]), s[n..])
  }

  function Nibble(c: char): Option<Byte> {
    if '0' <= c <= '9' then Some(c as int - '0' as int)
    else if 'a' <= c <= 'f' then Some(10 + (c as int - 'a' as int))
    else None
  }

  /** Two lower-case digits to a byte, the high one first. */
  function Unhex(h: string): Option<Bytes> {
    if h == "" then Some([])
    else if |h| == 1 then None
    else
      var n := |h| - 2;
      match (Unhex(h[..n]), Nibble(h[n]), Nibble(h[n + 1]))
      case (Some(front), Some(high), Some(low)) =>
        if 16 * high + low < 256 then Some(front + [16 * high + low]) else None
      case _ => None
  }

  function QuoteAt(s: string): (n: nat)
    ensures n <= |s|
  {
    if s == "" || s[0] == '"' then 0 else 1 + QuoteAt(s[1..])
  }

  /** A quoted hex string. */
  function ReadHex(s: string): Parsed<Bytes> {
    var (_, text) :- Lit(s, "\"");
    var n := QuoteAt(text);
    if n == |text| then Fail
    else match Unhex(text[..n]) case None => Fail case Some(bytes) => Got(bytes, text[n + 1..])
  }

  // ---------- arrays ----------

  /** After an element: the closing bracket, or a comma and the next element. */
  function ReadRest<T>(read: Reader<T>, s: string): Parsed<seq<T>>
    decreases |s|
  {
    if Lit(s, "]").Got? then Got([], s[1..])
    else
      var (_, text) :- Lit(s, ",");
      var (x, rest) :- read(text);
      if |rest| > |text| then Fail
      else
        var (xs, after) :- ReadRest(read, rest);
        Got([x] + xs, after)
  }

  function ReadList<T>(read: Reader<T>, s: string): Parsed<seq<T>> {
    var (_, text) :- Lit(s, "[");
    if Lit(text, "]").Got? then Got([], text[1..])
    else
      var (x, rest) :- read(text);
      var (xs, after) :- ReadRest(read, rest);
      Got([x] + xs, after)
  }

  // ---------- items ----------

  /** The three members both UTXO forms end with, and the closing brace. */
  function ReadLightMembers(s: string): Parsed<UTXOItemLight> {
    var (_, s1) :- Name(s, "vout");
    var (vout, s2) :- ReadDec(s1, 0x1_0000_0000);
    var (_, s3) :- Lit(s2, ",");
    var (_, s4) :- Name(s3, "amount");
    var (amount, s5) :- ReadDec(s4, 0x1_0000_0000_0000_0000);
    var (_, s6) :- Lit(s5, ",");
    var (_, s7) :- Name(s6, "pubkey");
    var (pubkey, s8) :- ReadHex(s7);
    var (_, s9) :- Lit(s8, "}");
    Got(UTXOItemLight(vout, amount, pubkey), s9)
  }

  function ReadLight(s: string): Parsed<UTXOItemLight> {
    var (_, s1) :- Lit(s, "{");
    ReadLightMembers(s1)
  }

  function ReadUTXO(s: string): Parsed<UTXOItem> {
    var (_, s1) :- Lit(s, "{");
    var (_, s2) :- Name(s1, "txid");
    var (txid, s3) :- ReadHex(s2);
    var (_, s4) :- Lit(s3, ",");
    var (light, s5) :- ReadLightMembers(s4);
    Got(UTXOItem(txid, light), s5)
  }

  /** The opening brace and the two members every transaction item starts with. */
  function ReadTxStart(s: string): Parsed<(Bytes, Bytes)> {
    var (_, s1) :- Lit(s, "{");
    var (_, s2) :- Name(s1, "txid");
    var (txid, s3) :- ReadHex(s2);
    var (_, s4) :- Lit(s3, ",");
    var (_, s5) :- Name(s4, "tweak");
    var (tweak, s6) :- ReadHex(s5);
    var (_, s7) :- Lit(s6, ",");
    Got((txid, tweak), s7)
  }

  function ReadCompute(s: string): Parsed<ComputeIndexItem> {
    var (start, s1) :- ReadTxStart(s);
    var (_, s2) :- Name(s1, "outputs");
    var (outputs, s3) :- ReadList(ReadHex, s2);
    var (_, s4) :- Lit(s3, "}");
    Got(ComputeIndexItem(start.0, start.1, outputs), s4)
  }

  /** null, or an array. */
  function ReadUTXOs(s: string): Parsed<Option<seq<UTXOItemLight>>> {
    if Lit(s, "null").Got? then Got(None, s[4..])
    else
      var (utxos, rest) :- ReadList(ReadLight, s);
      Got(Some(utxos), rest)
  }

  function ReadFull(s: string): Parsed<FullTxItem> {
    var (start, s1) :- ReadTxStart(s);
    var (_, s2) :- Name(s1, "inputs");
    var (inputs, s3) :- ReadList(ReadHex, s2);
    var (_, s4) :- Lit(s3, ",");
    var (_, s5) :- Name(s4, "utxos");
    var (utxos, s6) :- ReadUTXOs(s5);
    var (_, s7) :- Lit(s6, "}");
    Got(FullTxItem(start.0, start.1, inputs, utxos), s7)
  }

  // ---------- responses and streams ----------

  function ReadIdentifier(s: string): Parsed<(Bytes, U32)> {
    var (_, s1) :- Lit(s, "{");
    var (_, s2) :- Name(s1, "block_hash");
    var (hash, s3) :- ReadHex(s2);
    var (_, s4) :- Lit(s3, ",");
    var (_, s5) :- Name(s4, "block_height");
    var (height, s6) :- ReadDec(s5, 0x1_0000_0000);
    var (_, s7) :- Lit(s6, "}");
    Got((hash, height), s7)
  }

  function ReadResponse<T>(read: Reader<T>, s: string): Parsed<Response<T>> {
    var (_, s1) :- Lit(s, "{");
    var (_, s2) :- Name(s1, "block_identifier");
    var (ident, s3) :- ReadIdentifier(s2);
    var (_, s4) :- Lit(s3, ",");
    var (_, s5) :- Name(s4, "index");
    var (index, s6) :- ReadList(read, s5);
    var (_, s7) :- Lit(s6, "}");
    Got(Response(ident.0, ident.1, index), s7)
  }

  /** An entry of a stream ends its line. */
  function ReadLine<T>(read: Reader<T>, s: string): Parsed<T> {
    var (x, rest) :- read(s);
    var (_, after) :- Lit(rest, "\n");
    Got(x, after)
  }

  function LineReader<T>(read: Reader<T>): Reader<T> {
    (s: string) => ReadLine(read, s)
  }

  function ResponseReader<T>(read: Reader<T>): Reader<Response<T>> {
    (s: string) => ReadResponse(read, s)
  }

  /** The whole streamed document. */
  function ReadDocument<T>(read: Reader<T>, s: string): Parsed<seq<T>> {
    var (_, s1) :- Lit(s, "{");
    var (_, s2) :- Name(s1, "blocks");
    var (entries, s3) :- ReadList(LineReader(read), s2);
    var (_, s4) :- Lit(s3, "}");
    Got(entries, s4)
  }
}
