/** `streamBlocks`: a JSON document written height by height to a connection that may fail at any byte. */
module Stream {
  import opened ByteOrder
  import opened Blocks
  import opened Json

  /** A connection that takes `capacity` bytes and then fails; a failing write has sent a part of its text. */
  class Sink {
    const capacity: nat
    var text: string

    constructor (capacity: nat)
      ensures this.capacity == capacity && text == ""
    {
      this.capacity := capacity;
      text := "";
    }

    method WriteString(s: string) returns (ok: bool)
      requires |text| <= capacity
      modifies this
      ensures text == Take(old(text) + s, capacity)
      ensures ok == (|old(text) + s| <= capacity)
      ensures ok ==> text == old(text) + s
    {
      ok := |text| + |s| <= capacity;
      text := Take(text + s, capacity);
    }
  }

  function Take(s: string, n: nat): string {
    if |s| <= n then s else s[..n]
  }

  /** The store's height index, the handler's payload builder and the JSON encoder; each may fail. */
  datatype Source<!P> = Source(
    lookup: U32 -> Result<Option<Bytes>>,
    encode: (U32, Bytes) -> Result<P>,
    marshal: P -> Result<string>)

  /** What a stream that no write failure stops has sent. */
  datatype Progress = Progress(text: string, written: nat, failed: bool)

  const OPENING := "{\"blocks\":["
  const CLOSING := "]}"

  function Separator(written: nat): string {
    if written > 0 then "," else ""
  }

  function Send<P>(src: Source<P>, p: Progress, height: U32): Progress {
    match src.lookup(height)
    case Err => p.(failed := true)
    case Ok(None) => p
    case Ok(Some(hash)) =>
      match src.encode(height, hash)
      case Err => p.(failed := true)
      case Ok(payload) =>
        match src.marshal(payload)
        case Err => Progress(p.text + Separator(p.written), p.written, true)
        case Ok(text) => Progress(p.text + Separator(p.written) + (text + "\n"), p.written + 1, false)
  }

  function SentBelow<P>(src: Source<P>, start: U32, i: int): (p: Progress)
    requires start <= i <= MAX_U32 + 1
    decreases i
  {
    if i == start then Progress(OPENING, 0, false)
    else var p := SentBelow(src, start, i - 1); if p.failed then p else Send(src, p, i - 1)
  }

  /** Where the loop over the heights ends. */
  function Stop(start: U32, end: U32): int {
    if start <= end then end + 1 else start
  }

  /** Everything an unbroken connection would carry. */
  function Sent<P>(src: Source<P>, start: U32, end: U32): Progress {
    var p := SentBelow(src, start, Stop(start, end));
    if p.failed then p else p.(text := p.text + CLOSING)
  }

  lemma {:induction false} SentGrows<P>(src: Source<P>, start: U32, i: int, j: int)
    requires start <= i <= j <= MAX_U32 + 1
    ensures SentBelow(src, start, i).text <= SentBelow(src, start, j).text
    ensures SentBelow(src, start, i).failed ==> SentBelow(src, start, j) == SentBelow(src, start, i)
    decreases j
  {
    if i < j { SentGrows(src, start, i, j - 1); }
  }

  /** Text sent so far is part of everything that would be sent. */
  lemma SentPrefix<P>(src: Source<P>, start: U32, end: U32, i: int)
    requires start <= i <= Stop(start, end)
    ensures SentBelow(src, start, i).text <= Sent(src, start, end).text
    ensures SentBelow(src, start, i).failed ==> Sent(src, start, end) == SentBelow(src, start, i)
  {
    SentGrows(src, start, i, Stop(start, end));
  }

  lemma TakePrefix(a: string, b: string, n: nat)
    requires a <= b && |a| > n
    ensures Take(a, n) == Take(b, n)
  {
    assert a[..n] == b[..n];
  }

  /** A write that fails has sent the first bytes of everything that would be sent, up to the failure. */
  lemma CutShort<P>(src: Source<P>, start: U32, end: U32, i: int, text: string, n: nat)
    requires start <= i <= end
    requires text <= SentBelow(src, start, i + 1).text && |text| > n
    ensures Take(text, n) == Take(Sent(src, start, end).text, n) && |Sent(src, start, end).text| > n
  {
    SentPrefix(src, start, end, i + 1);
    TakePrefix(text, Sent(src, start, end).text, n);
  }

  method StreamBlocks<P>(src: Source<P>, start: U32, end: U32, w: Sink) returns (lookups: nat)
    requires w.text == ""
    modifies w
    ensures w.text == Take(Sent(src, start, end).text, w.capacity)
    ensures lookups <= Stop(start, end) - start
    ensures !Sent(src, start, end).failed && |Sent(src, start, end).text| <= w.capacity ==>
      lookups == Stop(start, end) - start
  {
    SentPrefix(src, start, end, start);
    var ok := w.WriteString(OPENING);
    assert "" + OPENING == OPENING;
    if !ok {
      TakePrefix(OPENING, Sent(src, start, end).text, w.capacity);
      return 0;
    }
    ok, lookups := StreamHeights(src, start, end, w);
    if ok {
      var _ := w.WriteString(CLOSING);
    }
  }

  /** The loop counter is 64 bits wide, so it can pass the top of the 32-bit heights. */
  method StreamHeights<P>(src: Source<P>, start: U32, end: U32, w: Sink) returns (ok: bool, lookups: nat)
    requires |w.text| <= w.capacity && SentBelow(src, start, start).text == w.text
    modifies w
    ensures lookups <= Stop(start, end) - start
    ensures ok ==> lookups == Stop(start, end) - start && |w.text| <= w.capacity
    ensures ok ==> SentBelow(src, start, Stop(start, end)).text == w.text
    ensures ok ==> !SentBelow(src, start, Stop(start, end)).failed
    ensures !ok ==> w.text == Take(Sent(src, start, end).text, w.capacity)
    ensures !ok ==> Sent(src, start, end).failed || |Sent(src, start, end).text| > w.capacity
  {
    lookups := 0;
    var written := 0;
    var i: U64 := start;
    while i <= end
      invariant start <= i <= Stop(start, end) && lookups == i - start && |w.text| <= w.capacity
      invariant SentBelow(src, start, i) == Progress(w.text, written, false)
      decreases end + 1 - i
    {
      ok, written := StreamOne(src, start, end, i, written, w);
      lookups := lookups + 1;
      i := i + 1;
      if !ok {
        return;
      }
    }
    ok := true;
  }

  /** One turn of the loop; false means the stream was abandoned. */
  method StreamOne<P>(src: Source<P>, ghost start: U32, ghost end: U32, height: U32, written: nat, w: Sink)
    returns (ok: bool, written': nat)
    requires start <= height <= end && |w.text| <= w.capacity
    requires SentBelow(src, start, height) == Progress(w.text, written, false)
    modifies w
    ensures ok ==> |w.text| <= w.capacity && SentBelow(src, start, height + 1) == Progress(w.text, written', false)
    ensures !ok ==> w.text == Take(Sent(src, start, end).text, w.capacity)
    ensures !ok ==> Sent(src, start, end).failed || |Sent(src, start, end).text| > w.capacity
  {
    ghost var before := w.text;
    SentPrefix(src, start, end, height + 1);
    var blockhash := src.lookup(height);
    if blockhash.Err? {
      return false, written;
    }
    if blockhash.value.None? {
      return true, written;
    }
    var payload := src.encode(height, blockhash.value.value);
    if payload.Err? {
      return false, written;
    }
    var text := src.marshal(payload.value);
    if written > 0 {
      ok := w.WriteString(",");
      if !ok {
        CutShort(src, start, end, height, before + ",", w.capacity);
        return false, written;
      }
    }
    assert w.text == before + Separator(written);
    if text.Err? {
      return false, written;
    }
    ok := w.WriteString(text.value + "\n");
    if !ok {
      CutShort(src, start, end, height, before + Separator(written) + (text.value + "\n"), w.capacity);
      return false, written;
    }
    return true, written + 1;
  }

  // ---------- what a complete stream holds ----------

  /** The indexed heights from start up to, not including, i. */
  function Indexed<P>(src: Source<P>, start: U32, i: int): seq<U32>
    requires start <= i <= MAX_U32 + 1
    decreases i
  {
    if i == start then []
    else
      var r := Indexed(src, start, i - 1);
      if IsIndexed(src, i - 1) then r + [i - 1] else r
  }

  predicate IsIndexed<P>(src: Source<P>, height: U32) {
    src.lookup(height).Ok? && src.lookup(height).value.Some?
  }

  ghost predicate Increasing(s: seq<U32>) {
    forall j, k :: 0 <= j < k < |s| ==> s[j] < s[k]
  }

  lemma {:induction false} IndexedIs<P>(src: Source<P>, start: U32, i: int)
    requires start <= i <= MAX_U32 + 1
    ensures Increasing(Indexed(src, start, i))
    ensures forall h: U32 :: h in Indexed(src, start, i) <==> start <= h < i && IsIndexed(src, h)
    decreases i
  {
    if i > start {
      IndexedIs(src, start, i - 1);
      var r := Indexed(src, start, i - 1);
      assert forall k :: 0 <= k < |r| ==> r[k] in r;
    }
  }

  /** The text of an indexed height's entry. */
  function EntryAt<P>(src: Source<P>, height: U32): Result<string> {
    match src.lookup(height)
    case Err => Err
    case Ok(None) => Err
    case Ok(Some(hash)) => match src.encode(height, hash)
      case Err => Err
      case Ok(payload) => src.marshal(payload)
  }

  /** Entries one to a line, with commas between them. */
  function JoinEntries(entries: seq<string>): string {
    if entries == [] then ""
    else if |entries| == 1 then entries[0] + "\n"
    else JoinEntries(entries[..|entries| - 1]) + "," + (entries[|entries| - 1] + "\n")
  }

  /** The document before its closing brackets. */
  function Upto(entries: seq<string>): string {
    OPENING + JoinEntries(entries)
  }

  function Document(entries: seq<string>): string {
    Upto(entries) + CLOSING
  }

  /** One entry per indexed height, in ascending order of height. */
  ghost predicate EntriesOf<P>(src: Source<P>, heights: seq<U32>, entries: seq<string>) {
    |entries| == |heights| && forall k :: 0 <= k < |heights| ==> EntryAt(src, heights[k]) == Ok(entries[k])
  }

  lemma JoinSnoc(entries: seq<string>, e: string)
    ensures JoinEntries(entries + [e]) == JoinEntries(entries) + Separator(|entries|) + (e + "\n")
  {
    assert (entries + [e])[..|entries|] == entries;
    if entries == [] { assert JoinEntries([]) + Separator(0) + (e + "\n") == e + "\n"; }
  }

  lemma {:induction false} SentIs<P>(src: Source<P>, start: U32, i: int) returns (entries: seq<string>)
    requires start <= i <= MAX_U32 + 1 && !SentBelow(src, start, i).failed
    ensures EntriesOf(src, Indexed(src, start, i), entries)
    ensures SentBelow(src, start, i) == Progress(Upto(entries), |entries|, false)
    ensures forall h: U32 :: start <= h < i ==> src.lookup(h).Ok?
    decreases i
  {
    if i == start {
      entries := [];
      assert Upto([]) == OPENING by { assert OPENING + "" == OPENING; }
    } else {
      var before := SentIs(src, start, i - 1);
      SendIs(src, before, i - 1);
      entries := before;
      if IsIndexed(src, i - 1) {
        entries := before + [EntryAt(src, i - 1).value];
        EntriesGrow(src, Indexed(src, start, i - 1), before, i - 1);
      }
    }
  }

  lemma EntriesGrow<P>(src: Source<P>, heights: seq<U32>, entries: seq<string>, height: U32)
    requires EntriesOf(src, heights, entries) && EntryAt(src, height).Ok?
    ensures EntriesOf(src, heights + [height], entries + [EntryAt(src, height).value])
  {
  }

  /** An indexed height adds its entry, any other height nothing. */
  lemma SendIs<P>(src: Source<P>, entries: seq<string>, height: U32)
    requires !Send(src, Progress(Upto(entries), |entries|, false), height).failed
    ensures src.lookup(height).Ok?
    ensures var r := Send(src, Progress(Upto(entries), |entries|, false), height);
      if src.lookup(height).value.None? then r == Progress(Upto(entries), |entries|, false)
      else EntryAt(src, height).Ok? && var es := entries + [EntryAt(src, height).value];
        r == Progress(Upto(es), |es|, false)
  {
    if src.lookup(height).Ok? && src.lookup(height).value.Some? {
      var e := EntryAt(src, height);
      JoinSnoc(entries, e.value);
      SentAssoc(OPENING, JoinEntries(entries), Separator(|entries|), e.value + "\n");
    }
  }

  lemma SentAssoc(a: string, b: string, c: string, d: string)
    ensures (a + b) + c + d == a + (b + c + d)
  {
  }

  /** A stream that did not fail is the document with exactly the indexed heights, ascending. */
  lemma CompleteStream<P>(src: Source<P>, start: U32, end: U32) returns (entries: seq<string>)
    requires !Sent(src, start, end).failed
    ensures var heights := Indexed(src, start, Stop(start, end));
      && EntriesOf(src, heights, entries) && Increasing(heights)
      && forall h: U32 :: h in heights <==> start <= h <= end && IsIndexed(src, h)
    ensures Sent(src, start, end).text == Document(entries)
    ensures forall h: U32 :: start <= h <= end ==> src.lookup(h).Ok?
  {
    entries := SentIs(src, start, Stop(start, end));
    IndexedIs(src, start, Stop(start, end));
  }

  // ---------- a cut stream never parses ----------

  /** The encoder's payloads are balanced texts. */
  ghost predicate BalancedPayloads<P(!new)>(src: Source<P>) {
    forall p :: src.marshal(p).Ok? ==> Neutral(src.marshal(p).value)
  }

  const IN_ARRAY := Lex("[", Plain)

  /** What follows the opening brace. */
  function Inner(text: string): string {
    if text == "" then "" else text[1..]
  }

  /** An opening brace, and then the array still open. */
  predicate InArray(text: string) {
    text != "" && text[0] == '{' && Read(START, Inner(text)) == IN_ARRAY
  }

  lemma OpeningReads()
    ensures InArray(OPENING)
  {
    var name := "blocks";
    QuotedIsNeutral(name);
    var quoted := "\"" + name + "\"";
    ReadOne(START, ':');
    ReadConcat(START, quoted, ":");
    ReadOne(START, '[');
    ReadConcat(START, quoted + ":", "[");
    assert Inner(OPENING) == quoted + ":" + "[";
    assert "" + ['['] == "[";
  }

  lemma EntryReads(text: string)
    requires Neutral(text)
    ensures Neutral(text + "\n") && Neutral("," + (text + "\n")) && Neutral(",")
  {
    ReadOne(START, '\n');
    ReadOne(START, ',');
    NeutralConcat(text, "\n");
    NeutralConcat(",", text + "\n");
  }

  lemma InnerAppend(text: string, s: string)
    requires text != ""
    ensures Inner(text + s) == Inner(text) + s && (text + s)[0] == text[0]
  {
  }

  /** Appending a balanced piece inside the array stays inside the array. */
  lemma StaysInArray(text: string, s: string)
    requires InArray(text) && Neutral(s)
    ensures InArray(text + s)
  {
    InnerAppend(text, s);
    ReadConcat(START, Inner(text), s);
    NeutralUnder("[", s);
  }

  lemma {:induction false} SentInArray<P(!new)>(src: Source<P>, start: U32, i: int)
    requires start <= i <= MAX_U32 + 1 && BalancedPayloads(src)
    ensures InArray(SentBelow(src, start, i).text)
    decreases i
  {
    OpeningReads();
    if i > start {
      SentInArray(src, start, i - 1);
      var p := SentBelow(src, start, i - 1);
      SendInArray(src, p, i - 1);
      assert SentBelow(src, start, i) == if p.failed then p else Send(src, p, i - 1);
    }
  }

  lemma SendInArray<P(!new)>(src: Source<P>, p: Progress, height: U32)
    requires BalancedPayloads(src)
    requires InArray(p.text)
    ensures InArray(Send(src, p, height).text)
  {
    if src.lookup(height).Ok? && src.lookup(height).value.Some? {
      var payload := src.encode(height, src.lookup(height).value.value);
      if payload.Ok? {
        EntryReads("");
        StaysInArray(p.text, Separator(p.written));
        if src.marshal(payload.value).Ok? {
          EntryReads(src.marshal(payload.value).value);
          StaysInArray(p.text + Separator(p.written), src.marshal(payload.value).value + "\n");
        }
      }
    }
  }

  /** Closing the array and the object completes the text. */
  lemma ClosingCompletes(text: string)
    requires InArray(text)
    ensures Complete(text + CLOSING) && Read(START, Inner(text + "]")) == START
  {
    InnerAppend(text, "]");
    ReadConcat(START, Inner(text), "]");
    ReadOne(IN_ARRAY, ']');
    assert "["[..0] == "";
    NeutralBrackets('{', Inner(text + "]"), '}');
    assert text + CLOSING == ['{'] + Inner(text + "]") + ['}'];
  }

  /** A non-empty text that goes on no further than the array's closing bracket is never complete. */
  lemma PartNeverParses(whole: string, part: string)
    requires whole != "" && whole[0] == '{' && !Read(START, Inner(whole)).Broken? && part <= whole
    ensures !Complete(part)
  {
    if part != "" {
      assert Inner(part) <= Inner(whole);
      PrefixUnbroken(START, Inner(part), Inner(whole));
      Unclosed(Inner(part));
      assert part == "{" + Inner(part);
    }
  }

  /** Whatever fails and wherever the connection breaks, the client can parse the text exactly when nothing
      failed and every byte arrived. */
  lemma ParsesIff<P(!new)>(src: Source<P>, start: U32, end: U32, capacity: nat)
    requires BalancedPayloads(src)
    ensures Complete(Take(Sent(src, start, end).text, capacity)) <==>
      !Sent(src, start, end).failed && |Sent(src, start, end).text| <= capacity
  {
    var p := SentBelow(src, start, Stop(start, end));
    var sent := Sent(src, start, end);
    var part := Take(sent.text, capacity);
    SentInArray(src, start, Stop(start, end));
    if p.failed {
      PartNeverParses(p.text, part);
    } else {
      ClosingCompletes(p.text);
      if |sent.text| > capacity {
        assert sent.text == (p.text + "]") + "}";
        assert part <= p.text + "]";
        PartNeverParses(p.text + "]", part);
      }
    }
  }
}
