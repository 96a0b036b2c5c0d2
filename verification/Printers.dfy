/** The append-style JSON printers: their texts are balanced, and a reader gets back what was printed. */
module Printers {
  import opened ByteOrder
  import opened Blocks
  import opened Json
  import opened Readers
  import Stream

  // ---------- hexadecimal and decimal ----------

  function HexDigit(n: nat): char
    requires n < 16
  {
    if n < 10 then '0' + n as char else 'a' + (n - 10) as char
  }

  function HexByte(b: Byte): string {
    [HexDigit(b / 16), HexDigit(b % 16)]
  }

  lemma HexDigitReads(n: nat)
    requires n < 16
    ensures Nibble(HexDigit(n)) == Some(n) && PlainChar(HexDigit(n))
  {
  }

  function Hex(src: Bytes): (r: string)
    ensures |r| == 2 * |src|
  {
    if src == [] then ""
    else Hex(src[..|src| - 1]) + HexByte(src[|src| - 1])
  }

  lemma {:induction false} HexPlain(src: Bytes)
    ensures PlainText(Hex(src))
  {
    if src != [] {
      var b := src[|src| - 1];
      HexPlain(src[..|src| - 1]);
      HexDigitReads(b / 16);
      HexDigitReads(b % 16);
    }
  }

  lemma {:induction false} HexReads(src: Bytes)
    ensures Unhex(Hex(src)) == Some(src)
  {
    if src != [] {
      var n := |src| - 1;
      HexReads(src[..n]);
      UnhexMore(Hex(src[..n]), src[..n], src[n]);
      assert src == src[..n] + [src[n]];
    }
  }

  lemma UnhexMore(h: string, front: Bytes, b: Byte)
    requires Unhex(h) == Some(front)
    ensures Unhex(h + HexByte(b)) == Some(front + [b])
  {
    HexDigitReads(b / 16);
    HexDigitReads(b % 16);
    var all := h + HexByte(b);
    assert all[..|all| - 2] == h && all[|all| - 2] == HexDigit(b / 16) && all[|all| - 1] == HexDigit(b % 16);
  }

  /** `appendHexString`: a quoted, lower-case hex string. */
  function HexText(src: Bytes): string {
    "\"" + Hex(src) + "\""
  }

  lemma HexTextNeutral(src: Bytes)
    ensures Neutral(HexText(src))
  {
    HexPlain(src);
    QuotedIsNeutral(Hex(src));
  }

  lemma {:induction false} QuoteAtIs(a: string, x: string)
    requires PlainText(a)
    ensures QuoteAt(a + ("\"" + x)) == |a|
  {
    var s := a + ("\"" + x);
    if a != "" {
      assert s[0] == a[0] && s[1..] == a[1..] + ("\"" + x);
      QuoteAtIs(a[1..], x);
    } else {
      assert s[0] == '"';
    }
  }

  /** Whatever follows, the reader finds what was printed and where it ends. */
  ghost predicate ReadsBack<T(!new)>(read: Reader<T>, show: T -> string, a: T) {
    forall x: string {:trigger show(a) + x} :: read(show(a) + x) == Got(a, x)
  }

  lemma HexTextReadsBack(a: Bytes)
    ensures ReadsBack(ReadHex, HexText, a)
  {
    forall x: string ensures ReadHex(HexText(a) + x) == Got(a, x) {
      HexReads(a);
      HexPlain(a);
      QuotedReads(Hex(a), a, x);
    }
  }

  lemma QuotedReads(h: string, bytes: Bytes, x: string)
    requires Unhex(h) == Some(bytes) && PlainText(h)
    ensures ReadHex("\"" + h + "\"" + x) == Got(bytes, x)
  {
    var text := h + ("\"" + x);
    QuoteGroups(h, x);
    LitIs("\"", text);
    QuoteAtIs(h, x);
    CutAt(h, '"', x);
  }

  lemma QuoteGroups(h: string, x: string)
    ensures "\"" + h + "\"" + x == "\"" + (h + ("\"" + x))
  {
  }

  lemma CutAt(a: string, c: char, x: string)
    ensures |a| < |a + ([c] + x)| && (a + ([c] + x))[..|a|] == a && (a + ([c] + x))[|a| + 1..] == x
  {
  }

  lemma LitIs(lit: string, x: string)
    ensures Lit(lit + x, lit) == Got((), x)
  {
  }

  /** `strconv.AppendUint` in base ten. */
  function Dec(n: nat): (r: string)
    ensures r != "" && forall i :: 0 <= i < |r| ==> IsDigit(r[i])
  {
    var digit := '0' + (n % 10) as char;
    if n < 10 then [digit] else Dec(n / 10) + [digit]
  }

  lemma {:induction false} DecReads(n: nat)
    ensures DecValue(Dec(n)) == n
  {
    var d := Dec(n);
    assert d[|d| - 1] == '0' + (n % 10) as char;
    if n >= 10 {
      DecReads(n / 10);
      assert d[..|d| - 1] == Dec(n / 10);
    } else {
      assert d[..|d| - 1] == "";
    }
  }

  lemma DecNeutral(n: nat)
    ensures Neutral(Dec(n))
  {
    PlainIsNeutral(START, Dec(n));
  }

  lemma {:induction false} DigitCountIs(d: string, x: string)
    requires (forall i :: 0 <= i < |d| ==> IsDigit(d[i])) && x != "" && !IsDigit(x[0])
    ensures DigitCount(d + x) == |d|
  {
    if d == "" {
      assert d + x == x;
    } else {
      assert (d + x)[1..] == d[1..] + x;
      DigitCountIs(d[1..], x);
    }
  }

  /** A number is read back from what is before the next character that is not a digit. */
  lemma DecReadsBack(n: nat, limit: nat, x: string)
    requires n < limit && x != "" && !IsDigit(x[0])
    ensures ReadDec(Dec(n) + x, limit) == Got(n, x)
  {
    DigitCountIs(Dec(n), x);
    DecReads(n);
    assert (Dec(n) + x)[..|Dec(n)|] == Dec(n) && (Dec(n) + x)[|Dec(n)|..] == x;
  }

  // ---------- arrays ----------

  /** The text after an element: a comma and the next one, or the closing bracket. */
  function Rest<T>(f: T -> string, xs: seq<T>): string {
    if xs == [] then "]" else "," + (f(xs[0]) + Rest(f, xs[1..]))
  }

  function ListBody<T>(f: T -> string, xs: seq<T>): string {
    if xs == [] then "]" else f(xs[0]) + Rest(f, xs[1..])
  }

  function ListText<T>(f: T -> string, xs: seq<T>): string {
    "[" + ListBody(f, xs)
  }

  /** What the loop still has to print before element `i`. */
  function TailFrom<T>(f: T -> string, xs: seq<T>, i: nat): string
    requires i <= |xs|
  {
    if i == 0 then ListBody(f, xs) else Rest(f, xs[i..])
  }

  function Comma(i: nat): string {
    if i > 0 then "," else ""
  }

  lemma TailStep<T>(f: T -> string, xs: seq<T>, i: nat, r: string)
    requires i < |xs|
    ensures r + TailFrom(f, xs, i) == (r + Comma(i) + f(xs[i])) + TailFrom(f, xs, i + 1)
  {
    assert xs[i..][1..] == xs[i + 1..];
    var e, tail := f(xs[i]), Rest(f, xs[i + 1..]);
    assert TailFrom(f, xs, i) == Comma(i) + (e + tail);
    Regroup(r, Comma(i), e, tail);
  }

  lemma Regroup(a: string, b: string, c: string, d: string)
    ensures a + (b + (c + d)) == (a + b + c) + d
  {
  }

  /** `appendHexArray`, and the array loop of `FullTxItem.MarshalJSON`. */
  method AppendArray<T>(dst: string, f: T -> string, xs: seq<T>) returns (r: string)
    ensures r == dst + ListText(f, xs)
  {
    r := dst + "[";
    ghost var all := r + ListBody(f, xs);
    for i := 0 to |xs|
      invariant r + TailFrom(f, xs, i) == all
    {
      ghost var before := r;
      TailStep(f, xs, i, r);
      if i > 0 {
        r := r + ",";
      }
      assert r == before + Comma(i);
      r := r + f(xs[i]);
    }
    assert TailFrom(f, xs, |xs|) == "]";
    r := r + "]";
    assert (dst + "[") + ListBody(f, xs) == dst + ("[" + ListBody(f, xs));
  }

  lemma {:induction false} RestReads<T(!new)>(f: T -> string, xs: seq<T>)
    requires forall x :: Neutral(f(x))
    ensures Read(Lex("[", Plain), Rest(f, xs)) == START
  {
    var inside := Lex("[", Plain);
    if xs == [] {
      ReadOne(inside, ']');
      assert "["[..0] == "";
    } else {
      ReadOne(inside, ',');
      ReadConcat(inside, ",", f(xs[0]) + Rest(f, xs[1..]));
      NeutralUnder("[", f(xs[0]));
      ReadConcat(inside, f(xs[0]), Rest(f, xs[1..]));
      RestReads(f, xs[1..]);
    }
  }

  lemma ListNeutral<T(!new)>(f: T -> string, xs: seq<T>)
    requires forall x :: Neutral(f(x))
    ensures Neutral(ListText(f, xs))
  {
    var inside := Lex("[", Plain);
    ReadOne(START, '[');
    assert "" + ['['] == "[";
    ReadConcat(START, "[", ListBody(f, xs));
    if xs == [] {
      RestReads(f, []);
    } else {
      NeutralUnder("[", f(xs[0]));
      ReadConcat(inside, f(xs[0]), Rest(f, xs[1..]));
      RestReads(f, xs[1..]);
    }
  }

  /** Every element is read back, and none starts like the end of the array. */
  ghost predicate Elements<T(!new)>(read: Reader<T>, f: T -> string) {
    (forall a :: ReadsBack(read, f, a)) && forall a :: f(a) != "" && f(a)[0] != ']'
  }

  lemma {:induction false} RestReadsBack<T(!new)>(read: Reader<T>, f: T -> string, xs: seq<T>, x: string)
    requires Elements(read, f)
    ensures ReadRest(read, Rest(f, xs) + x) == Got(xs, x)
    decreases |xs|
  {
    var s := Rest(f, xs) + x;
    if xs == [] {
      LitIs("]", x);
    } else {
      var after := Rest(f, xs[1..]) + x;
      var text := f(xs[0]) + after;
      assert s == "," + text && s[0] == ',';
      LitIs(",", text);
      assert ReadsBack(read, f, xs[0]);
      assert read(text) == Got(xs[0], after);
      RestReadsBack(read, f, xs[1..], x);
      assert xs == [xs[0]] + xs[1..];
    }
  }

  /** An array of readable elements is read back, whatever follows it. */
  lemma ListReadsBack<T(!new)>(read: Reader<T>, f: T -> string, xs: seq<T>, x: string)
    requires Elements(read, f)
    ensures ReadList(read, ListText(f, xs) + x) == Got(xs, x)
  {
    var text := ListBody(f, xs) + x;
    assert ListText(f, xs) + x == "[" + text;
    LitIs("[", text);
    if xs == [] {
      LitIs("]", x);
    } else {
      var after := Rest(f, xs[1..]) + x;
      assert text == f(xs[0]) + after && text[0] == f(xs[0])[0];
      assert ReadsBack(read, f, xs[0]);
      assert read(text) == Got(xs[0], after);
      RestReadsBack(read, f, xs[1..], x);
      assert xs == [xs[0]] + xs[1..];
    }
  }

  lemma HexElements()
    ensures Elements(ReadHex, HexText) && forall b :: Neutral(HexText(b))
  {
    forall a ensures ReadsBack(ReadHex, HexText, a) { HexTextReadsBack(a); }
    forall b ensures Neutral(HexText(b)) { HexTextNeutral(b); }
  }

  // ---------- objects ----------

  /** A member of an object, and the text after it. */
  function Member(name: string, val: string, more: string): string {
    "\"" + name + "\"" + (":" + (val + more))
  }

  function Object(members: string): string {
    "{" + members + "}"
  }

  function Then(members: string): string {
    "," + members
  }

  lemma ThenNeutral(members: string)
    requires Neutral(members)
    ensures Neutral(Then(members))
  {
    ReadOne(START, ',');
    NeutralConcat(",", members);
  }

  lemma MemberNeutral(name: string, val: string, more: string)
    requires PlainText(name) && Neutral(val) && Neutral(more)
    ensures Neutral(Member(name, val, more))
  {
    QuotedIsNeutral(name);
    ReadOne(START, ':');
    NeutralConcat(val, more);
    NeutralConcat(":", val + more);
    NeutralConcat("\"" + name + "\"", ":" + (val + more));
  }

  lemma MemberReads(name: string, val: string, more: string, x: string)
    ensures Name(Member(name, val, more) + x, name) == Got((), val + (more + x))
  {
    var head := "\"" + name + "\":";
    assert Member(name, val, more) + x == head + (val + (more + x));
    LitIs(head, val + (more + x));
  }

  lemma ThenReads(members: string, x: string)
    ensures Lit(Then(members) + x, ",") == Got((), members + x)
  {
    assert Then(members) + x == "," + (members + x);
    LitIs(",", members + x);
  }

  lemma ObjectReads(members: string, x: string)
    ensures Lit(Object(members) + x, "{") == Got((), members + ("}" + x))
  {
    assert Object(members) + x == "{" + (members + ("}" + x));
    LitIs("{", members + ("}" + x));
  }

  lemma EndReads(x: string)
    ensures Lit("" + ("}" + x), "}") == Got((), x)
  {
    assert "" + ("}" + x) == "}" + x;
    LitIs("}", x);
  }

  lemma HexMember(name: string, a: Bytes, more: string, x: string)
    ensures Name(Member(name, HexText(a), more) + x, name) == Got((), HexText(a) + (more + x))
    ensures ReadHex(HexText(a) + (more + x)) == Got(a, more + x)
  {
    MemberReads(name, HexText(a), more, x);
    HexTextReadsBack(a);
  }

  lemma DecMember(name: string, n: nat, limit: nat, more: string, x: string)
    requires n < limit && more + x != "" && !IsDigit((more + x)[0])
    ensures Name(Member(name, Dec(n), more) + x, name) == Got((), Dec(n) + (more + x))
    ensures ReadDec(Dec(n) + (more + x), limit) == Got(n, more + x)
  {
    MemberReads(name, Dec(n), more, x);
    DecReadsBack(n, limit, more + x);
  }

  lemma ListMember<T(!new)>(read: Reader<T>, f: T -> string, name: string, xs: seq<T>, more: string, x: string)
    requires Elements(read, f)
    ensures Name(Member(name, ListText(f, xs), more) + x, name) == Got((), ListText(f, xs) + (more + x))
    ensures ReadList(read, ListText(f, xs) + (more + x)) == Got(xs, more + x)
  {
    MemberReads(name, ListText(f, xs), more, x);
    ListReadsBack(read, f, xs, more + x);
  }

  lemma ListMemberNeutral<T(!new)>(f: T -> string, name: string, xs: seq<T>, more: string)
    requires PlainText(name) && Neutral(more) && forall x :: Neutral(f(x))
    ensures Neutral(Member(name, ListText(f, xs), more))
  {
    ListNeutral(f, xs);
    MemberNeutral(name, ListText(f, xs), more);
  }

  // ---------- UTXOItemLight and UTXOItem ----------

  function PubkeyMember(u: UTXOItemLight): string {
    Member("pubkey", HexText(u.pubkey), "")
  }

  function AmountMembers(u: UTXOItemLight): string {
    Member("amount", Dec(u.amount), Then(PubkeyMember(u)))
  }

  function LightMembers(u: UTXOItemLight): string {
    Member("vout", Dec(u.vout), Then(AmountMembers(u)))
  }

  function LightText(u: UTXOItemLight): string {
    Object(LightMembers(u))
  }

  lemma LightMembersNeutral(u: UTXOItemLight)
    ensures Neutral(LightMembers(u))
  {
    DecNeutral(u.vout);
    DecNeutral(u.amount);
    HexTextNeutral(u.pubkey);
    MemberNeutral("pubkey", HexText(u.pubkey), "");
    ThenNeutral(PubkeyMember(u));
    MemberNeutral("amount", Dec(u.amount), Then(PubkeyMember(u)));
    ThenNeutral(AmountMembers(u));
    MemberNeutral("vout", Dec(u.vout), Then(AmountMembers(u)));
  }

  /** The reader finds the index under "vout", the value under "amount" and the key under "pubkey". */
  lemma LightMembersReadBack(u: UTXOItemLight, x: string)
    ensures ReadLightMembers(LightMembers(u) + ("}" + x)) == Got(u, x)
  {
    var y := "}" + x;
    DecMember("vout", u.vout, 0x1_0000_0000, Then(AmountMembers(u)), y);
    ThenReads(AmountMembers(u), y);
    DecMember("amount", u.amount, 0x1_0000_0000_0000_0000, Then(PubkeyMember(u)), y);
    ThenReads(PubkeyMember(u), y);
    HexMember("pubkey", u.pubkey, "", y);
    EndReads(x);
  }

  lemma LightElements()
    ensures Elements(ReadLight, LightText) && forall u :: Neutral(LightText(u))
  {
    forall u ensures ReadsBack(ReadLight, LightText, u) {
      forall x: string ensures ReadLight(LightText(u) + x) == Got(u, x) {
        ObjectReads(LightMembers(u), x);
        LightMembersReadBack(u, x);
      }
    }
    forall u ensures Neutral(LightText(u)) {
      LightMembersNeutral(u);
      NeutralBrackets('{', LightMembers(u), '}');
    }
  }

  function UTXOMembers(u: UTXOItem): string {
    Member("txid", HexText(u.txid), Then(LightMembers(u.light)))
  }

  function UTXOText(u: UTXOItem): string {
    Object(UTXOMembers(u))
  }

  /** A UTXO item is balanced, and a reader finds its four fields under their names. */
  lemma UTXOPrinted(u: UTXOItem)
    ensures Neutral(UTXOText(u)) && ReadsBack(ReadUTXO, UTXOText, u)
  {
    HexTextNeutral(u.txid);
    LightMembersNeutral(u.light);
    ThenNeutral(LightMembers(u.light));
    MemberNeutral("txid", HexText(u.txid), Then(LightMembers(u.light)));
    NeutralBrackets('{', UTXOMembers(u), '}');
    forall x: string ensures ReadUTXO(UTXOText(u) + x) == Got(u, x) {
      ObjectReads(UTXOMembers(u), x);
      HexMember("txid", u.txid, Then(LightMembers(u.light)), "}" + x);
      ThenReads(LightMembers(u.light), "}" + x);
      LightMembersReadBack(u.light, x);
    }
  }

  lemma UTXOElements()
    ensures Elements(ReadUTXO, UTXOText) && forall u :: Neutral(UTXOText(u))
  {
    forall u ensures ReadsBack(ReadUTXO, UTXOText, u) && Neutral(UTXOText(u)) { UTXOPrinted(u); }
  }

  // ---------- ComputeIndexItem ----------

  function TweakMember(tweak: Bytes, more: string): string {
    Member("tweak", HexText(tweak), Then(more))
  }

  /** The two members every transaction item starts with. */
  function TxMembers(txid: Bytes, tweak: Bytes, more: string): string {
    Member("txid", HexText(txid), Then(TweakMember(tweak, more)))
  }

  lemma TxMembersNeutral(txid: Bytes, tweak: Bytes, more: string)
    requires Neutral(more)
    ensures Neutral(TxMembers(txid, tweak, more))
  {
    HexTextNeutral(txid);
    HexTextNeutral(tweak);
    ThenNeutral(more);
    MemberNeutral("tweak", HexText(tweak), Then(more));
    ThenNeutral(TweakMember(tweak, more));
    MemberNeutral("txid", HexText(txid), Then(TweakMember(tweak, more)));
  }

  lemma TxStartReads(txid: Bytes, tweak: Bytes, more: string, x: string)
    ensures ReadTxStart(Object(TxMembers(txid, tweak, more)) + x) == Got((txid, tweak), more + ("}" + x))
  {
    var y := "}" + x;
    ObjectReads(TxMembers(txid, tweak, more), x);
    HexMember("txid", txid, Then(TweakMember(tweak, more)), y);
    ThenReads(TweakMember(tweak, more), y);
    HexMember("tweak", tweak, Then(more), y);
    ThenReads(more, y);
  }

  function OutputsMember(c: ComputeIndexItem): string {
    Member("outputs", ListText(HexText, c.outputs), "")
  }

  function ComputeText(c: ComputeIndexItem): string {
    Object(TxMembers(c.txid, c.tweak, OutputsMember(c)))
  }

  /** A compute index item is balanced, and a reader finds its txid, tweak and outputs under their names. */
  lemma ComputePrinted(c: ComputeIndexItem)
    ensures Neutral(ComputeText(c)) && ReadsBack(ReadCompute, ComputeText, c)
  {
    HexElements();
    ListMemberNeutral(HexText, "outputs", c.outputs, "");
    TxMembersNeutral(c.txid, c.tweak, OutputsMember(c));
    NeutralBrackets('{', TxMembers(c.txid, c.tweak, OutputsMember(c)), '}');
    forall x: string ensures ReadCompute(ComputeText(c) + x) == Got(c, x) {
      TxStartReads(c.txid, c.tweak, OutputsMember(c), x);
      ListMember(ReadHex, HexText, "outputs", c.outputs, "", "}" + x);
      EndReads(x);
    }
  }

  lemma ComputeElements()
    ensures Elements(ReadCompute, ComputeText) && forall c :: Neutral(ComputeText(c))
  {
    forall c ensures ReadsBack(ReadCompute, ComputeText, c) && Neutral(ComputeText(c)) { ComputePrinted(c); }
  }

  // ---------- FullTxItem ----------

  /** A nil slice prints as null, an empty one as []. */
  function UTXOsText(utxos: Option<seq<UTXOItemLight>>): string {
    match utxos case None => "null" case Some(us) => ListText(LightText, us)
  }

  function UTXOsMember(f: FullTxItem): string {
    Member("utxos", UTXOsText(f.utxos), "")
  }

  function InputsMembers(f: FullTxItem): string {
    Member("inputs", ListText(HexText, f.inputs), Then(UTXOsMember(f)))
  }

  function FullText(f: FullTxItem): string {
    Object(TxMembers(f.txid, f.tweak, InputsMembers(f)))
  }

  method AppendUTXOs(dst: string, utxos: Option<seq<UTXOItemLight>>) returns (r: string)
    ensures r == dst + UTXOsText(utxos)
  {
    if utxos.None? {
      r := dst + "null";
    } else {
      r := AppendArray(dst, LightText, utxos.value);
    }
  }

  lemma UTXOsPrinted(utxos: Option<seq<UTXOItemLight>>)
    ensures Neutral(UTXOsText(utxos)) && ReadsBack(ReadUTXOs, UTXOsText, utxos)
  {
    LightElements();
    if utxos.Some? {
      ListNeutral(LightText, utxos.value);
    } else {
      PlainIsNeutral(START, "null");
    }
    forall x: string ensures ReadUTXOs(UTXOsText(utxos) + x) == Got(utxos, x) {
      if utxos.Some? {
        ListReadsBack(ReadLight, LightText, utxos.value, x);
        assert (UTXOsText(utxos) + x)[0] == '[';
      } else {
        LitIs("null", x);
      }
    }
  }

  lemma FullNeutral(f: FullTxItem)
    ensures Neutral(FullText(f))
  {
    UTXOsPrinted(f.utxos);
    MemberNeutral("utxos", UTXOsText(f.utxos), "");
    ThenNeutral(UTXOsMember(f));
    HexElements();
    ListMemberNeutral(HexText, "inputs", f.inputs, Then(UTXOsMember(f)));
    TxMembersNeutral(f.txid, f.tweak, InputsMembers(f));
    NeutralBrackets('{', TxMembers(f.txid, f.tweak, InputsMembers(f)), '}');
  }

  /** A full item is balanced; a reader finds every field under its name, a nil UTXO list told from an empty one. */
  lemma FullPrinted(f: FullTxItem)
    ensures Neutral(FullText(f)) && ReadsBack(ReadFull, FullText, f)
  {
    FullNeutral(f);
    forall x: string ensures ReadFull(FullText(f) + x) == Got(f, x) {
      TxStartReads(f.txid, f.tweak, InputsMembers(f), x);
      InputsRead(f, "}" + x);
      UTXOsRead(f, "}" + x);
      EndReads(x);
    }
  }

  lemma InputsRead(f: FullTxItem, y: string)
    ensures Name(InputsMembers(f) + y, "inputs") == Got((), ListText(HexText, f.inputs) + (Then(UTXOsMember(f)) + y))
    ensures ReadList(ReadHex, ListText(HexText, f.inputs) + (Then(UTXOsMember(f)) + y))
      == Got(f.inputs, Then(UTXOsMember(f)) + y)
    ensures Lit(Then(UTXOsMember(f)) + y, ",") == Got((), UTXOsMember(f) + y)
  {
    HexElements();
    ListMember(ReadHex, HexText, "inputs", f.inputs, Then(UTXOsMember(f)), y);
    ThenReads(UTXOsMember(f), y);
  }

  lemma UTXOsRead(f: FullTxItem, y: string)
    ensures Name(UTXOsMember(f) + y, "utxos") == Got((), UTXOsText(f.utxos) + ("" + y))
    ensures ReadUTXOs(UTXOsText(f.utxos) + ("" + y)) == Got(f.utxos, "" + y)
  {
    MemberReads("utxos", UTXOsText(f.utxos), "", y);
    UTXOsPrinted(f.utxos);
  }

  // ---------- responses ----------

  function HeightMember(height: U32): string {
    Member("block_height", Dec(height), "")
  }

  function IdentifierMembers(hash: Bytes, height: U32): string {
    Member("block_hash", HexText(hash), Then(HeightMember(height)))
  }

  function IdentifierText(hash: Bytes, height: U32): string {
    Object(IdentifierMembers(hash, height))
  }

  function IndexMember<T>(f: T -> string, r: Response<T>): string {
    Member("index", ListText(f, r.index), "")
  }

  function ResponseMembers<T>(f: T -> string, r: Response<T>): string {
    Member("block_identifier", IdentifierText(r.blockHash, r.blockHeight), Then(IndexMember(f, r)))
  }

  function ResponseText<T>(f: T -> string, r: Response<T>): string {
    Object(ResponseMembers(f, r))
  }

  lemma IdentifierPrinted(hash: Bytes, height: U32)
    ensures Neutral(IdentifierText(hash, height))
    ensures forall x: string {:trigger IdentifierText(hash, height) + x} ::
      ReadIdentifier(IdentifierText(hash, height) + x) == Got((hash, height), x)
  {
    DecNeutral(height);
    HexTextNeutral(hash);
    MemberNeutral("block_height", Dec(height), "");
    ThenNeutral(HeightMember(height));
    MemberNeutral("block_hash", HexText(hash), Then(HeightMember(height)));
    NeutralBrackets('{', IdentifierMembers(hash, height), '}');
    forall x: string ensures ReadIdentifier(IdentifierText(hash, height) + x) == Got((hash, height), x) {
      var y := "}" + x;
      ObjectReads(IdentifierMembers(hash, height), x);
      HexMember("block_hash", hash, Then(HeightMember(height)), y);
      ThenReads(HeightMember(height), y);
      assert ("" + y)[0] == '}';
      DecMember("block_height", height, 0x1_0000_0000, "", y);
      EndReads(x);
    }
  }

  lemma IdentifierPlain()
    ensures PlainText("block_identifier")
  {
  }

  lemma IndexNeutral<T(!new)>(f: T -> string, r: Response<T>)
    requires forall x :: Neutral(f(x))
    ensures Neutral(Then(IndexMember(f, r)))
  {
    ListMemberNeutral(f, "index", r.index, "");
    ThenNeutral(IndexMember(f, r));
  }

  /** Whatever the index holds, the response is a balanced text. */
  lemma ResponseNeutral<T(!new)>(f: T -> string, r: Response<T>)
    requires forall x :: Neutral(f(x))
    ensures Neutral(ResponseText(f, r))
  {
    IdentifierPrinted(r.blockHash, r.blockHeight);
    IndexNeutral(f, r);
    IdentifierPlain();
    MemberNeutral("block_identifier", IdentifierText(r.blockHash, r.blockHeight), Then(IndexMember(f, r)));
    NeutralBrackets('{', ResponseMembers(f, r), '}');
  }

  /** A reader finds the block's hash and height and its whole index, item by item. */
  lemma ResponseReadsBack<T(!new)>(read: Reader<T>, f: T -> string, r: Response<T>, x: string)
    requires Elements(read, f)
    ensures ReadResponse(read, ResponseText(f, r) + x) == Got(r, x)
  {
    var y := "}" + x;
    var ident := IdentifierText(r.blockHash, r.blockHeight);
    ObjectReads(ResponseMembers(f, r), x);
    MemberReads("block_identifier", ident, Then(IndexMember(f, r)), y);
    IdentifierPrinted(r.blockHash, r.blockHeight);
    ThenReads(IndexMember(f, r), y);
    ListMember(read, f, "index", r.index, "", y);
    EndReads(x);
  }

  // ---------- the four range streams ----------

  /** A stream whose entries are responses printed by one of the item printers. */
  ghost predicate Prints<T(!new)>(src: Stream.Source<Response<T>>, f: T -> string) {
    forall r :: src.marshal(r).Ok? ==> src.marshal(r).value == ResponseText(f, r)
  }

  lemma PrintsBalanced<T(!new)>(src: Stream.Source<Response<T>>, f: T -> string)
    requires Prints(src, f) && forall x :: Neutral(f(x))
    ensures Stream.BalancedPayloads(src)
  {
    forall r ensures Neutral(ResponseText(f, r)) { ResponseNeutral(f, r); }
  }

  /** The payloads of the tweak, spent-output, UTXO and compute-index streams are balanced, as `streamBlocks` needs. */
  lemma RangePayloads(hexes: Stream.Source<Response<Bytes>>, utxos: Stream.Source<Response<UTXOItem>>,
                      items: Stream.Source<Response<ComputeIndexItem>>)
    requires Prints(hexes, HexText) && Prints(utxos, UTXOText) && Prints(items, ComputeText)
    ensures Stream.BalancedPayloads(hexes) && Stream.BalancedPayloads(utxos) && Stream.BalancedPayloads(items)
  {
    HexElements();
    PrintsBalanced(hexes, HexText);
    UTXOElements();
    PrintsBalanced(utxos, UTXOText);
    ComputeElements();
    PrintsBalanced(items, ComputeText);
  }
}
