/** What a client reads out of a complete stream. */
module StreamViews {
  import opened ByteOrder
  import opened Blocks
  import opened Readers
  import opened Printers
  import opened Stream

  // ---------- the document as an object ----------

  /** The lines after the first, each behind its comma. */
  function Later(entries: seq<string>): string {
    if entries == [] then "" else "," + ((entries[0] + "\n") + Later(entries[1..]))
  }

  lemma {:induction false} LaterSnoc(entries: seq<string>, e: string)
    ensures Later(entries + [e]) == Later(entries) + "," + (e + "\n")
  {
    if entries == [] {
      assert entries + [e] == [e] && [e][1..] == [];
      assert Later([]) == "";
    } else {
      assert (entries + [e])[1..] == entries[1..] + [e];
      LaterSnoc(entries[1..], e);
    }
  }

  lemma {:induction false} JoinFront(entries: seq<string>)
    requires entries != []
    ensures JoinEntries(entries) == (entries[0] + "\n") + Later(entries[1..])
  {
    var n := |entries| - 1;
    if n == 0 {
      assert Later(entries[1..]) == "";
    } else {
      var front := entries[..n];
      JoinFront(front);
      LaterSnoc(front[1..], entries[n]);
      assert front[1..] + [entries[n]] == entries[1..];
      Regrouped(entries[0] + "\n", Later(front[1..]), ",", entries[n] + "\n");
    }
  }

  lemma Regrouped(a: string, b: string, c: string, d: string)
    ensures (a + b) + c + d == a + (b + c + d)
  {
  }

  /** An entry as a line of the document. */
  function Line<P>(show: P -> string): P -> string {
    (p: P) => show(p) + "\n"
  }

  ghost predicate Shown<P>(show: P -> string, ps: seq<P>, entries: seq<string>) {
    |entries| == |ps| && forall k :: 0 <= k < |ps| ==> entries[k] == show(ps[k])
  }

  lemma {:induction false} LaterIsRest<P>(show: P -> string, ps: seq<P>, entries: seq<string>)
    requires Shown(show, ps, entries)
    ensures Later(entries) + "]" == Rest(Line(show), ps)
  {
    if ps != [] {
      LaterIsRest(show, ps[1..], entries[1..]);
      var line := entries[0] + "\n";
      assert Line(show)(ps[0]) == line;
      assert "," + (line + Later(entries[1..])) + "]" == "," + (line + (Later(entries[1..]) + "]"));
    }
  }

  lemma JoinIsList<P>(show: P -> string, ps: seq<P>, entries: seq<string>)
    requires Shown(show, ps, entries)
    ensures JoinEntries(entries) + "]" == ListBody(Line(show), ps)
  {
    if ps != [] {
      JoinFront(entries);
      LaterIsRest(show, ps[1..], entries[1..]);
      var line := entries[0] + "\n";
      assert Line(show)(ps[0]) == line;
      assert (line + Later(entries[1..])) + "]" == line + (Later(entries[1..]) + "]");
    }
  }

  function BlocksMember<P>(show: P -> string, ps: seq<P>): string {
    Member("blocks", ListText(Line(show), ps), "")
  }

  lemma OpeningIs(body: string)
    ensures OPENING + body + CLOSING == Object(Member("blocks", "[" + (body + "]"), ""))
  {
    assert OPENING == "{" + ("\"" + "blocks" + "\"" + ":") + "[";
    assert CLOSING == "]" + "}";
    var list := "[" + (body + "]");
    assert Member("blocks", list, "") == ("\"" + "blocks" + "\"" + ":") + list;
  }

  /** The document is one object whose one member lists the entries. */
  lemma DocumentIs<P>(show: P -> string, ps: seq<P>, entries: seq<string>)
    requires Shown(show, ps, entries)
    ensures Document(entries) == Object(BlocksMember(show, ps))
  {
    JoinIsList(show, ps, entries);
    OpeningIs(JoinEntries(entries));
  }

  // ---------- reading it ----------

  lemma LineElements<P(!new)>(read: Reader<P>, show: P -> string)
    requires Elements(read, show)
    ensures Elements(LineReader(read), Line(show))
  {
    forall p ensures ReadsBack(LineReader(read), Line(show), p) && Line(show)(p) != "" && Line(show)(p)[0] != ']' {
      assert ReadsBack(read, show, p);
      forall x: string ensures LineReader(read)(Line(show)(p) + x) == Got(p, x) {
        assert Line(show)(p) + x == show(p) + ("\n" + x);
        LitIs("\n", x);
      }
    }
  }

  lemma DocumentReadsBack<P(!new)>(read: Reader<P>, show: P -> string, ps: seq<P>, entries: seq<string>)
    requires Elements(read, show) && Shown(show, ps, entries)
    ensures ReadDocument(read, Document(entries)) == Got(ps, "")
  {
    DocumentIs(show, ps, entries);
    LineElements(read, show);
    ObjectReads(BlocksMember(show, ps), "");
    assert Object(BlocksMember(show, ps)) + "" == Object(BlocksMember(show, ps));
    ListMember(LineReader(read), Line(show), "blocks", ps, "", "}" + "");
    EndReads("");
  }

  // ---------- streams of responses ----------

  function Show<T>(f: T -> string): Response<T> -> string {
    (r: Response<T>) => ResponseText(f, r)
  }

  lemma ResponseElements<T(!new)>(read: Reader<T>, f: T -> string)
    requires Elements(read, f)
    ensures Elements(ResponseReader(read), Show(f))
  {
    forall r ensures ReadsBack(ResponseReader(read), Show(f), r) && Show(f)(r) != "" && Show(f)(r)[0] != ']' {
      forall x: string ensures ResponseReader(read)(Show(f)(r) + x) == Got(r, x) {
        ResponseReadsBack(read, f, r, x);
      }
    }
  }

  /** The handler's response for an indexed height. */
  ghost predicate AnswersAt<P>(src: Source<P>, height: U32, p: P) {
    IsIndexed(src, height) && src.encode(height, src.lookup(height).value.value) == Ok(p)
  }

  lemma EntriesShown<T(!new)>(src: Source<Response<T>>, f: T -> string, heights: seq<U32>, entries: seq<string>)
    returns (rs: seq<Response<T>>)
    requires Prints(src, f) && EntriesOf(src, heights, entries)
    ensures Shown(Show(f), rs, entries)
    ensures forall k :: 0 <= k < |heights| ==> AnswersAt(src, heights[k], rs[k])
  {
    rs := [];
    for n := 0 to |heights|
      invariant |rs| == n
      invariant forall k :: 0 <= k < n ==> entries[k] == Show(f)(rs[k]) && AnswersAt(src, heights[k], rs[k])
    {
      var r := EntryShown(src, f, heights[n], entries[n]);
      rs := rs + [r];
    }
  }

  lemma EntryShown<T(!new)>(src: Source<Response<T>>, f: T -> string, height: U32, entry: string)
    returns (r: Response<T>)
    requires Prints(src, f) && EntryAt(src, height) == Ok(entry)
    ensures entry == Show(f)(r) && AnswersAt(src, height, r)
  {
    r := src.encode(height, src.lookup(height).value.value).value;
    assert src.marshal(r).value == ResponseText(f, r);
  }

  /** A client that reads a complete stream gets the handler's response for every indexed height, ascending, and
      nothing else. */
  lemma StreamReadsBack<T(!new)>(src: Source<Response<T>>, read: Reader<T>, f: T -> string, start: U32, end: U32)
    returns (rs: seq<Response<T>>)
    requires Prints(src, f) && Elements(read, f) && !Sent(src, start, end).failed
    ensures ReadDocument(ResponseReader(read), Sent(src, start, end).text) == Got(rs, "")
    ensures var heights := Indexed(src, start, Stop(start, end));
      |rs| == |heights| && forall k :: 0 <= k < |heights| ==> AnswersAt(src, heights[k], rs[k])
  {
    var entries := CompleteStream(src, start, end);
    rs := EntriesShown(src, f, Indexed(src, start, Stop(start, end)), entries);
    ResponseElements(read, f);
    DocumentReadsBack(ResponseReader(read), Show(f), rs, entries);
  }
}
