/** Pebble as the store uses it: an ordered byte map, bounded iterators and atomic batches. */
module Pebble {
  import opened ByteOrder
  import opened Keys

  type DB = map<Bytes, Bytes>

  // ---------- sorted key sequences ----------

  ghost predicate Ascending(s: seq<Bytes>) {
    forall i, j {:trigger Lt(s[i], s[j])} :: 0 <= i < j < |s| ==> Lt(s[i], s[j])
  }

  ghost predicate IsLeast(m: Bytes, s: set<Bytes>) {
    m in s && forall x :: x in s ==> x == m || Lt(m, x)
  }

  lemma {:induction false} LeastExists(s: set<Bytes>)
    requires s != {}
    ensures exists m :: IsLeast(m, s)
  {
    var x :| x in s;
    if s == {x} {
      assert IsLeast(x, s);
    } else {
      LeastExists(s - {x});
      var m :| IsLeast(m, s - {x});
      LtTotal(x, m);
      if Lt(x, m) {
        forall y | y in s ensures y == x || Lt(x, y) {
          if y != x && y != m { LtTransitive(x, m, y); }
        }
        assert IsLeast(x, s);
      } else {
        assert IsLeast(m, s);
      }
    }
  }

  ghost function Least(s: set<Bytes>): (m: Bytes)
    requires s != {}
    ensures IsLeast(m, s)
  {
    LeastExists(s);
    var m :| IsLeast(m, s);
    m
  }

  /** The elements of `s` in key order. */
  ghost function Sorted(s: set<Bytes>): (r: seq<Bytes>)
    ensures Ascending(r)
    ensures forall x :: x in r <==> x in s
  {
    if s == {} then [] else [Least(s)] + Sorted(s - {Least(s)})
  }

  /** An ascending sequence is fixed by its elements. */
  lemma {:induction false} AscendingUnique(a: seq<Bytes>, b: seq<Bytes>)
    requires Ascending(a) && Ascending(b)
    requires forall x :: x in a <==> x in b
    ensures a == b
  {
    assert b != [] ==> b[0] in a;
    if a != [] {
      assert a[0] in b && b != [];
      if a[0] != b[0] {
        assert Lt(a[0], b[0]) && Lt(b[0], a[0]);
        LtAsymmetric(a[0], b[0]);
      }
      forall x ensures x in a[1..] <==> x in b[1..] {
        if x in a[1..] { TailOther(a, b, x); }
        if x in b[1..] { TailOther(b, a, x); }
      }
      AscendingUnique(a[1..], b[1..]);
      assert a == [a[0]] + a[1..] && b == [b[0]] + b[1..];
    }
  }

  lemma TailOther(a: seq<Bytes>, b: seq<Bytes>, x: Bytes)
    requires Ascending(a) && a != [] && b != [] && a[0] == b[0] && x in a[1..] && x in b
    ensures x in b[1..]
  {
    var i :| 0 <= i < |a[1..]| && a[1..][i] == x;
    LtAsymmetric(a[0], a[i + 1]);
    var j :| 0 <= j < |b| && b[j] == x;
    assert b[1..][j - 1] == x;
  }

  /** A sorted enumeration is the only ascending sequence with those elements. */
  lemma SortedIs(s: set<Bytes>, r: seq<Bytes>)
    requires Ascending(r) && forall x :: x in r <==> x in s
    ensures Sorted(s) == r
  {
    AscendingUnique(Sorted(s), r);
  }

  // ---------- iterators ----------

  /** The keys an iterator with these bounds can stop at. */
  ghost function Range(db: DB, lb: Bytes, ub: Bytes): (r: seq<Bytes>)
    ensures Ascending(r)
    ensures forall k :: k in r <==> k in db && InBounds(k, lb, ub)
  {
    Sorted(set k | k in db && InBounds(k, lb, ub))
  }

  ghost function Scan(db: DB, bounds: Bounds): (r: seq<Bytes>)
    ensures Ascending(r)
    ensures forall k :: k in r <==> k in db && bounds.Contains(k)
  {
    Range(db, Encode(bounds.Low()), Encode(bounds.High()))
  }

  /** A bounded iterator: a position in the ascending keys, one past the end when exhausted. */
  class Iterator {
    const db: DB
    const keys: seq<Bytes>
    var pos: nat

    ghost predicate Valid() reads this {
      pos <= |keys| && Ascending(keys) && forall i :: 0 <= i < |keys| ==> keys[i] in db
    }

    constructor (db: DB, lb: Bytes, ub: Bytes)
      ensures Valid() && pos == |keys|
      ensures this.db == db && keys == Range(db, lb, ub)
    {
      var found := [];
      var todo := set k | k in db && InBounds(k, lb, ub);
      ghost var all := todo;
      while todo != {}
        invariant Ascending(found) && todo <= all
        invariant forall k :: k in found <==> k in all && k !in todo
        invariant forall k, f :: k in todo && f in found ==> Lt(f, k)
        decreases todo
      {
        var m := FindLeast(todo);
        forall k, f | k in todo - {m} && f in found + [m] ensures Lt(f, k) {}
        found, todo := found + [m], todo - {m};
      }
      SortedIs(all, found);
      assert forall i :: 0 <= i < |found| ==> found[i] in found;
      this.db := db;
      keys := found;
      pos := |found|;
    }

    method First() returns (ok: bool)
      requires Valid()
      modifies this
      ensures Valid() && pos == 0 && ok == (pos < |keys|)
    {
      pos := 0;
      ok := pos < |keys|;
    }

    method Next() returns (ok: bool)
      requires Valid() && pos < |keys|
      modifies this
      ensures Valid() && pos == old(pos) + 1 && ok == (pos < |keys|)
    {
      pos := pos + 1;
      ok := pos < |keys|;
    }

    method Last() returns (ok: bool)
      requires Valid()
      modifies this
      ensures Valid() && ok == (keys != []) && pos == if ok then |keys| - 1 else |keys|
    {
      ok := keys != [];
      pos := if ok then |keys| - 1 else |keys|;
    }

    /** Moves to the first key not below `key`. */
    method SeekGE(key: Bytes) returns (ok: bool)
      requires Valid()
      modifies this
      ensures Valid() && ok == (pos < |keys|)
      ensures forall i :: 0 <= i < pos ==> Lt(keys[i], key)
      ensures ok ==> !Lt(keys[pos], key)
    {
      pos := 0;
      while pos < |keys| && Lt(keys[pos], key)
        invariant pos <= |keys|
        invariant forall i :: 0 <= i < pos ==> Lt(keys[i], key)
      {
        pos := pos + 1;
      }
      ok := pos < |keys|;
    }

    function Key(): Bytes
      requires Valid() && pos < |keys|
      reads this
    {
      keys[pos]
    }

    function Value(): Bytes
      requires Valid() && pos < |keys|
      reads this
    {
      db[keys[pos]]
    }
  }

  method FindLeast(s: set<Bytes>) returns (m: Bytes)
    requires s != {}
    ensures IsLeast(m, s)
  {
    m :| m in s;
    var todo := s - {m};
    while todo != {}
      invariant m in s && todo <= s
      invariant forall x :: x in s && x !in todo ==> x == m || Lt(m, x)
      decreases todo
    {
      var x :| x in todo;
      LtTotal(x, m);
      if Lt(x, m) {
        forall y | y in s && y !in todo ensures y == x || Lt(x, y) {
          if y != m { LtTransitive(x, m, y); }
        }
        m := x;
      }
      todo := todo - {x};
    }
  }

  // ---------- batches ----------

  datatype Write = Write(key: Key, val: Bytes)

  /** `batch.Set` in program order: a later write to the same key wins. */
  function Put(m: DB, ws: seq<Write>): DB {
    if ws == [] then m
    else var w := ws[|ws| - 1]; Put(m, ws[..|ws| - 1])[Encode(w.key) := w.val]
  }

  lemma {:induction false} PutConcat(m: DB, a: seq<Write>, b: seq<Write>)
    ensures Put(m, a + b) == Put(Put(m, a), b)
  {
    if b == [] {
      assert a + b == a;
    } else {
      assert (a + b)[..|a + b| - 1] == a + b[..|b| - 1];
      PutConcat(m, a, b[..|b| - 1]);
    }
  }

  /** Committing a batch is replaying its writes on the database. */
  lemma {:induction false} CommitIsPut(db: DB, ws: seq<Write>)
    ensures db + Put(map[], ws) == Put(db, ws)
  {
    if ws != [] {
      CommitIsPut(db, ws[..|ws| - 1]);
    }
  }

  ghost predicate Writes(ws: seq<Write>, key: Key) {
    exists i :: 0 <= i < |ws| && ws[i].key == key
  }

  /** A key is present after the writes iff it was there before or one of them wrote it. */
  lemma PutHas(m: DB, ws: seq<Write>, key: Key)
    ensures Encode(key) in Put(m, ws) <==> Encode(key) in m || Writes(ws, key)
    ensures Writes(ws, key) ==> Write(key, Put(m, ws)[Encode(key)]) in ws
    ensures !Writes(ws, key) && Encode(key) in m ==> Put(m, ws)[Encode(key)] == m[Encode(key)]
  {
    PutKey(m, ws, key);
    RowsHas(ws, key);
  }

  /** Every key of a store built by writes is the encoding of a written key. */
  lemma {:induction false} PutKeys(ws: seq<Write>, k: Bytes)
    requires k in Put(map[], ws)
    ensures exists i :: 0 <= i < |ws| && k == Encode(ws[i].key)
  {
    var n := |ws| - 1;
    if k != Encode(ws[n].key) {
      PutKeys(ws[..n], k);
      var i :| 0 <= i < n && k == Encode(ws[..n][i].key);
      assert k == Encode(ws[i].key);
    } else {
      assert k == Encode(ws[n].key);
    }
  }

  /** Writing back what is already there changes nothing. */
  lemma {:induction false} PutNoop(m: DB, ws: seq<Write>)
    requires forall i :: 0 <= i < |ws| ==> Encode(ws[i].key) in m && m[Encode(ws[i].key)] == ws[i].val
    ensures Put(m, ws) == m
  {
    if ws != [] {
      var n := |ws| - 1;
      assert forall i :: 0 <= i < n ==> ws[..n][i] == ws[i];
      PutNoop(m, ws[..n]);
    }
  }

  /** The rows a list of writes leaves, by key. */
  ghost function Rows(ws: seq<Write>): map<Key, Bytes> {
    if ws == [] then map[]
    else var w := ws[|ws| - 1]; Rows(ws[..|ws| - 1])[w.key := w.val]
  }

  lemma {:induction false} RowsConcat(a: seq<Write>, b: seq<Write>)
    ensures Rows(a + b) == Rows(a) + Rows(b)
  {
    if b == [] {
      assert a + b == a;
    } else {
      assert (a + b)[..|a + b| - 1] == a + b[..|b| - 1];
      RowsConcat(a, b[..|b| - 1]);
    }
  }

  lemma {:induction false} PutKey(m: DB, ws: seq<Write>, key: Key)
    ensures Encode(key) in Put(m, ws) <==> Encode(key) in m || key in Rows(ws)
    ensures key in Rows(ws) ==> Put(m, ws)[Encode(key)] == Rows(ws)[key]
    ensures key !in Rows(ws) && Encode(key) in m ==> Put(m, ws)[Encode(key)] == m[Encode(key)]
  {
    if ws != [] {
      PutKey(m, ws[..|ws| - 1], key);
      EncodeInjective(ws[|ws| - 1].key, key);
    }
  }

  lemma {:induction false} PutRows(m: DB, ws: seq<Write>, k: Bytes)
    ensures k in Put(m, ws) <==> k in m || exists key :: key in Rows(ws) && k == Encode(key)
    ensures forall key :: key in Rows(ws) && k == Encode(key) ==> Put(m, ws)[k] == Rows(ws)[key]
    ensures k in m && (forall key :: key in Rows(ws) ==> k != Encode(key)) ==> Put(m, ws)[k] == m[k]
  {
    if ws != [] {
      var n := |ws| - 1;
      var last := ws[n].key;
      PutRows(m, ws[..n], k);
      assert last in Rows(ws);
      forall key | key in Rows(ws) && k == Encode(key) ensures Put(m, ws)[k] == Rows(ws)[key] {
        EncodeInjective(key, last);
      }
    }
  }

  /** Only the rows matter: writes that leave the same rows give the same database. */
  lemma PutByRows(m: DB, a: seq<Write>, b: seq<Write>)
    requires Rows(a) == Rows(b)
    ensures Put(m, a) == Put(m, b)
  {
    forall k ensures k in Put(m, a) <==> k in Put(m, b)
             ensures k in Put(m, a) ==> Put(m, a)[k] == Put(m, b)[k] {
      PutRows(m, a, k);
      PutRows(m, b, k);
    }
  }

  lemma {:induction false} RowsHas(ws: seq<Write>, key: Key)
    ensures key in Rows(ws) <==> Writes(ws, key)
    ensures key in Rows(ws) ==> Write(key, Rows(ws)[key]) in ws
  {
    if ws != [] {
      var n := |ws| - 1;
      RowsHas(ws[..n], key);
      assert ws == ws[..n] + [ws[n]];
      assert key in Rows(ws) <==> key == ws[n].key || key in Rows(ws[..n]);
      if Writes(ws[..n], key) {
        var i :| 0 <= i < n && ws[..n][i].key == key;
        assert ws[i].key == key;
      }
      if Writes(ws, key) && ws[n].key != key {
        var i :| 0 <= i < |ws| && ws[i].key == key;
        assert ws[..n][i].key == key;
      }
    }
  }
}
