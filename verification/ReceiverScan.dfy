/** The output-matching loop of section "Scanning" of BIP-352, on 8-byte outputs and without labels. */
module ReceiverScan {
  import opened ByteOrder
  import opened Blocks
  import opened ComputeIndexes
  import opened Seqs

  /** The first 8 bytes of the k-th output key, and its secret-key tweak. */
  datatype Derived = Derived(key: Short8, tweak: Bytes)

  /** `CreateOutputPubKeyTweak` for one shared secret; curve arithmetic is not modelled. */
  type Deriver = nat -> Result<Derived>

  datatype Found = Found(output: Short8, secKeyTweak: Bytes)

  /** The specification knows the outputs only as a multiset. */
  ghost function Matches(derive: Deriver, outs: multiset<Short8>, k: nat): Result<seq<Found>>
    decreases |outs|
  {
    match derive(k)
    case Err => Err
    case Ok(d) =>
      if d.key !in outs then Ok([])
      else match Matches(derive, outs - multiset{d.key}, k + 1)
        case Err => Err
        case Ok(rest) => Ok([Found(d.key, d.tweak)] + rest)
  }

  /** Position of the first output equal to a key, or the length. */
  method FindOutput(outs: seq<Short8>, key: Short8) returns (i: nat)
    ensures i <= |outs| && (i < |outs| ==> outs[i] == key) && (i == |outs| ==> key !in outs)
  {
    i := 0;
    while i < |outs| && outs[i] != key
      invariant i <= |outs| && forall j :: 0 <= j < i ==> outs[j] != key
    {
      i := i + 1;
    }
  }

  function Prepend(found: seq<Found>, r: Result<seq<Found>>): Result<seq<Found>> {
    match r case Err => Err case Ok(rest) => Ok(found + rest)
  }

  lemma MatchesCons(derive: Deriver, outs: multiset<Short8>, k: nat, one: Found)
    requires derive(k) == Ok(Derived(one.output, one.secKeyTweak)) && one.output in outs
    ensures Matches(derive, outs, k) == Prepend([one], Matches(derive, outs - multiset{one.output}, k + 1))
  {
  }

  /** One turn of the loop: what was still to be matched is the output matched now and what is left to match. */
  lemma MatchOne(derive: Deriver, outs: multiset<Short8>, k: nat, found: seq<Found>)
    requires derive(k).Ok? && derive(k).value.key in outs
    ensures Prepend(found, Matches(derive, outs, k))
      == Prepend(found + [Found(derive(k).value.key, derive(k).value.tweak)],
                 Matches(derive, outs - multiset{derive(k).value.key}, k + 1))
  {
    var d := derive(k).value;
    PrependTwice(found, Found(d.key, d.tweak), Matches(derive, outs - multiset{d.key}, k + 1));
  }

  /** Matches k = 0, 1, ... in turn, each time removing the output it matched. */
  method ReceiverScanTransactionShortOutputs(derive: Deriver, txOutputs: seq<Short8>) returns (r: Result<seq<Found>>)
    ensures r == Matches(derive, multiset(txOutputs), 0)
  {
    var outs, k, found := txOutputs, 0, [];
    PrependNothing([], Matches(derive, multiset(outs), k));
    while true
      invariant Matches(derive, multiset(txOutputs), 0) == Prepend(found, Matches(derive, multiset(outs), k))
      decreases |outs|
    {
      var d := derive(k);
      if d.Err? {
        return Err;
      }
      var i := FindOutput(outs, d.value.key);
      if i == |outs| {
        PrependNothing(found, Ok([]));
        return Ok(found);
      }
      WithoutMultiset(outs, i);
      MatchOne(derive, multiset(outs), k, found);
      found := found + [Found(outs[i], d.value.tweak)];
      outs := Without(outs, i);
      k := k + 1;
    }
  }

  lemma PrependNothing(found: seq<Found>, r: Result<seq<Found>>)
    ensures Prepend([], r) == r && Prepend(found, Ok([])) == Ok(found)
  {
    assert found + [] == found;
    if r.Ok? { assert [] + r.value == r.value; }
  }

  lemma PrependTwice(found: seq<Found>, one: Found, rest: Result<seq<Found>>)
    ensures Prepend(found, Prepend([one], rest)) == Prepend(found + [one], rest)
  {
    if rest.Ok? { assert found + ([one] + rest.value) == (found + [one]) + rest.value; }
  }

  // ---------- what the matches are ----------

  ghost function Outputs(found: seq<Found>): multiset<Short8> {
    if found == [] then multiset{} else Outputs(found[..|found| - 1]) + multiset{found[|found| - 1].output}
  }

  lemma OutputsSnoc(found: seq<Found>, f: Found)
    ensures Outputs(found + [f]) == Outputs(found) + multiset{f.output}
  {
    assert (found + [f])[..|found|] == found;
  }

  lemma {:induction false} OutputsCons(f: Found, rest: seq<Found>)
    ensures Outputs([f] + rest) == multiset{f.output} + Outputs(rest)
  {
    if rest == [] {
      assert [f] + rest == [] + [f];
      OutputsSnoc([], f);
    } else {
      var n := |rest| - 1;
      OutputsCons(f, rest[..n]);
      assert ([f] + rest)[..n + 1] == [f] + rest[..n];
    }
  }

  /** `found[j]` is the output with index k + j. */
  ghost predicate InTurn(derive: Deriver, k: nat, found: seq<Found>) {
    forall j :: 0 <= j < |found| ==> derive(k + j) == Ok(Derived(found[j].output, found[j].secKeyTweak))
  }

  lemma InTurnCons(derive: Deriver, k: nat, one: Found, rest: seq<Found>)
    ensures InTurn(derive, k, [one] + rest) <==>
      derive(k) == Ok(Derived(one.output, one.secKeyTweak)) && InTurn(derive, k + 1, rest)
  {
    var found := [one] + rest;
    if InTurn(derive, k, found) {
      assert derive(k + 0) == Ok(Derived(found[0].output, found[0].secKeyTweak));
      forall j | 0 <= j < |rest| ensures derive(k + 1 + j) == Ok(Derived(rest[j].output, rest[j].secKeyTweak)) {
        assert found[j + 1] == rest[j] && k + (j + 1) == k + 1 + j;
      }
    }
    if derive(k) == Ok(Derived(one.output, one.secKeyTweak)) && InTurn(derive, k + 1, rest) {
      forall j | 0 <= j < |found| ensures derive(k + j) == Ok(Derived(found[j].output, found[j].secKeyTweak)) {
        if j > 0 { assert found[j] == rest[j - 1] && k + j == k + 1 + (j - 1); }
      }
    }
  }

  lemma TakeOut<T>(outs: multiset<T>, x: T, rest: multiset<T>)
    ensures multiset{x} + rest <= outs <==> x in outs && rest <= outs - multiset{x}
    ensures outs - (multiset{x} + rest) == outs - multiset{x} - rest
  {
    if multiset{x} + rest <= outs { assert (multiset{x} + rest)[x] >= 1; }
  }

  /** Keys k, k+1, ... matched in turn, each with an output of its own. */
  ghost predicate Takes(derive: Deriver, outs: multiset<Short8>, k: nat, found: seq<Found>) {
    InTurn(derive, k, found) && Outputs(found) <= outs
  }

  lemma TakesCons(derive: Deriver, outs: multiset<Short8>, k: nat, one: Found, rest: seq<Found>)
    ensures Takes(derive, outs, k, [one] + rest) <==>
      derive(k) == Ok(Derived(one.output, one.secKeyTweak)) && one.output in outs
      && Takes(derive, outs - multiset{one.output}, k + 1, rest)
    ensures outs - Outputs([one] + rest) == outs - multiset{one.output} - Outputs(rest)
  {
    InTurnCons(derive, k, one, rest);
    OutputsCons(one, rest);
    TakeOut(outs, one.output, Outputs(rest));
  }

  /** The next key after the ones found is not left among the outputs. */
  ghost predicate StopsAt(derive: Deriver, left: multiset<Short8>, n: nat) {
    derive(n).Ok? && derive(n).value.key !in left
  }

  /** The scan's result: k, k+1, ... matched in turn, and the first key no longer among the outputs. */
  ghost predicate MatchesInTurn(derive: Deriver, outs: multiset<Short8>, k: nat, found: seq<Found>) {
    Takes(derive, outs, k, found) && StopsAt(derive, outs - Outputs(found), k + |found|)
  }

  lemma MatchesInTurnCons(derive: Deriver, outs: multiset<Short8>, k: nat, one: Found, rest: seq<Found>)
    ensures MatchesInTurn(derive, outs, k, [one] + rest) <==>
      derive(k) == Ok(Derived(one.output, one.secKeyTweak)) && one.output in outs
      && MatchesInTurn(derive, outs - multiset{one.output}, k + 1, rest)
  {
    TakesCons(derive, outs, k, one, rest);
    assert k + |[one] + rest| == k + 1 + |rest|;
  }

  /** A successful scan finds k = 0..n-1 in turn, and found plus remaining is what there was. */
  lemma {:induction false} ScanFinds(derive: Deriver, outs: multiset<Short8>, k: nat)
    requires Matches(derive, outs, k).Ok?
    ensures MatchesInTurn(derive, outs, k, Matches(derive, outs, k).value)
    decreases |outs|
  {
    var d := derive(k).value;
    if d.key in outs {
      ScanFinds(derive, outs - multiset{d.key}, k + 1);
      MatchesInTurnCons(derive, outs, k, Found(d.key, d.tweak), Matches(derive, outs - multiset{d.key}, k + 1).value);
    } else {
      assert outs - Outputs([]) == outs;
    }
  }

  lemma StopsNow(derive: Deriver, outs: multiset<Short8>, k: nat)
    requires StopsAt(derive, outs - Outputs([]), k + 0)
    ensures Matches(derive, outs, k) == Ok([])
  {
    assert outs - Outputs([]) == outs;
  }

  /** Nothing else has that shape: the index of the first unmatched key is unique, and so is the result. */
  lemma {:induction false} ScanUnique(derive: Deriver, outs: multiset<Short8>, k: nat, found: seq<Found>)
    requires MatchesInTurn(derive, outs, k, found)
    ensures Matches(derive, outs, k) == Ok(found)
    decreases |found|
  {
    if found == [] {
      StopsNow(derive, outs, k);
    } else {
      var one, rest := found[0], found[1..];
      assert found == [one] + rest && Prepend([one], Ok(rest)) == Ok(found);
      MatchesInTurnCons(derive, outs, k, one, rest);
      ScanUnique(derive, outs - multiset{one.output}, k + 1, rest);
      MatchesCons(derive, outs, k, one);
    }
  }

  /** For every ordering of a transaction's outputs, the scan succeeds with exactly this result. */
  lemma ScanExact(derive: Deriver, txOutputs: seq<Short8>, found: seq<Found>)
    ensures Matches(derive, multiset(txOutputs), 0) == Ok(found) <==>
      MatchesInTurn(derive, multiset(txOutputs), 0, found)
  {
    if Matches(derive, multiset(txOutputs), 0) == Ok(found) {
      ScanFinds(derive, multiset(txOutputs), 0);
    }
    if MatchesInTurn(derive, multiset(txOutputs), 0, found) {
      ScanUnique(derive, multiset(txOutputs), 0, found);
    }
  }

  /** The derivation of the key after `found` fails. */
  ghost predicate FailsAfter(derive: Deriver, outs: multiset<Short8>, k: nat, found: seq<Found>) {
    Takes(derive, outs, k, found) && derive(k + |found|).Err?
  }

  lemma FailsAfterCons(derive: Deriver, outs: multiset<Short8>, k: nat, one: Found, rest: seq<Found>)
    ensures FailsAfter(derive, outs, k, [one] + rest) <==>
      derive(k) == Ok(Derived(one.output, one.secKeyTweak)) && one.output in outs
      && FailsAfter(derive, outs - multiset{one.output}, k + 1, rest)
  {
    TakesCons(derive, outs, k, one, rest);
    assert k + |[one] + rest| == k + 1 + |rest|;
  }

  /** A scan fails only where a key it gets to cannot be derived. */
  lemma {:induction false} ScanFails(derive: Deriver, outs: multiset<Short8>, k: nat) returns (found: seq<Found>)
    requires Matches(derive, outs, k).Err?
    ensures FailsAfter(derive, outs, k, found)
    decreases |outs|
  {
    found := [];
    if derive(k).Ok? {
      var d := derive(k).value;
      var rest := ScanFails(derive, outs - multiset{d.key}, k + 1);
      found := [Found(d.key, d.tweak)] + rest;
      FailsAfterCons(derive, outs, k, Found(d.key, d.tweak), rest);
    }
  }

  lemma {:induction false} FailureStops(derive: Deriver, outs: multiset<Short8>, k: nat, found: seq<Found>)
    requires FailsAfter(derive, outs, k, found)
    ensures Matches(derive, outs, k).Err?
    decreases |found|
  {
    if found != [] {
      var one, rest := found[0], found[1..];
      assert found == [one] + rest;
      FailsAfterCons(derive, outs, k, one, rest);
      FailureStops(derive, outs - multiset{one.output}, k + 1, rest);
      MatchesCons(derive, outs, k, one);
    }
  }
}
