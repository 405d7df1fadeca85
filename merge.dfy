/**
 What `SetDefaultValues` does to the template's parameters. `keyvals` is a
 flat list read two at a time: `keyvals[2q]` is a parameter name and
 `keyvals[2q + 1]` its new default value. Only complete pairs are used,
 in order, and each one replaces the named parameter wholesale.
 */
module DefaultsMerge {
  import opened FirebaseRemoteConfig

  /** The parameters after every complete pair of `keyvals` has been written
      into `params`, first pair first. The keys afterwards are the keys
      before plus every key a complete pair names. */
  function Merged(params: map<string, Parameter>, keyvals: seq<string>): (r: map<string, Parameter>)
    ensures r.Keys == params.Keys + NamedKeys(keyvals)
    decreases |keyvals|
  {
    if |keyvals| < 2 then
      assert NamedKeys(keyvals) == {};
      params
    else
      NamedKeysOfTail(keyvals);
      Merged(params[keyvals[0] := DefaultOnly(keyvals[1])], keyvals[2..])
  }

  /** The key of the `q`-th complete pair. */
  function KeyAt(keyvals: seq<string>, q: nat): (k: string)
    requires q < |keyvals| / 2
  {
    keyvals[2 * q]
  }

  /** The value of the `q`-th complete pair. */
  function ValueAt(keyvals: seq<string>, q: nat): (v: string)
    requires q < |keyvals| / 2
  {
    keyvals[2 * q + 1]
  }

  /** The keys that some complete pair names. */
  ghost function NamedKeys(keyvals: seq<string>): set<string>
  {
    set q: nat | q < |keyvals| / 2 :: KeyAt(keyvals, q)
  }

  /** Dropping the first pair shifts every later pair down by one. */
  lemma PairsOfTail(keyvals: seq<string>)
    requires |keyvals| >= 2
    ensures |keyvals[2..]| / 2 == |keyvals| / 2 - 1
    ensures forall q: nat :: q < |keyvals[2..]| / 2 ==>
      KeyAt(keyvals[2..], q) == KeyAt(keyvals, q + 1) && ValueAt(keyvals[2..], q) == ValueAt(keyvals, q + 1)
  {
  }

  /** The named keys are the first pair's key and the keys the rest names. */
  lemma NamedKeysOfTail(keyvals: seq<string>)
    requires |keyvals| >= 2
    ensures NamedKeys(keyvals) == {keyvals[0]} + NamedKeys(keyvals[2..])
  {
    PairsOfTail(keyvals);
    var tail := keyvals[2..];
    forall k | k in NamedKeys(keyvals)
      ensures k in {keyvals[0]} + NamedKeys(tail)
    {
      var q: nat :| q < |keyvals| / 2 && KeyAt(keyvals, q) == k;
      if q > 0 {
        assert KeyAt(tail, q - 1) == k;
      }
    }
    forall k | k in {keyvals[0]} + NamedKeys(tail)
      ensures k in NamedKeys(keyvals)
    {
      if k == keyvals[0] {
        assert KeyAt(keyvals, 0) == k;
      } else {
        var q: nat :| q < |tail| / 2 && KeyAt(tail, q) == k;
        assert KeyAt(keyvals, q + 1) == k;
      }
    }
  }

  /** Pairs are applied in order: merging `front + back` is merging `front`
      and then merging `back` into the result, provided `front` holds whole
      pairs. */
  lemma {:induction false} MergeAppend(params: map<string, Parameter>, front: seq<string>, back: seq<string>)
    requires |front| % 2 == 0
    ensures Merged(params, front + back) == Merged(Merged(params, front), back)
    decreases |front|
  {
    if |front| == 0 {
      assert front + back == back;
    } else {
      var all := front + back;
      assert all[0] == front[0] && all[1] == front[1];
      assert all[2..] == front[2..] + back;
      MergeAppend(params[front[0] := DefaultOnly(front[1])], front[2..], back);
    }
  }

  /** A key left without a value at the end of an odd-length list is ignored. */
  lemma {:induction false} MergeDropsUnpairedKey(params: map<string, Parameter>, keyvals: seq<string>)
    requires |keyvals| % 2 == 1
    ensures Merged(params, keyvals) == Merged(params, keyvals[..|keyvals| - 1])
  {
    var front := keyvals[..|keyvals| - 1];
    assert keyvals == front + [keyvals[|keyvals| - 1]];
    MergeAppend(params, front, [keyvals[|keyvals| - 1]]);
  }

  /** A key no complete pair names keeps exactly the entry it had, or stays
      absent. */
  lemma {:induction false} MergedAtUnnamedKey(params: map<string, Parameter>, keyvals: seq<string>, k: string)
    requires k !in NamedKeys(keyvals)
    ensures k in Merged(params, keyvals) <==> k in params
    ensures k in params ==> Merged(params, keyvals)[k] == params[k]
    decreases |keyvals|
  {
    if |keyvals| >= 2 {
      NamedKeysOfTail(keyvals);
      MergedAtUnnamedKey(params[keyvals[0] := DefaultOnly(keyvals[1])], keyvals[2..], k);
    }
  }

  /** The last complete pair that names a key decides it: the key is present
      and holds that pair's value as its default, with no conditional
      values and no description, whatever it held before. */
  lemma {:induction false} MergedAtLastPair(params: map<string, Parameter>, keyvals: seq<string>, p: nat)
    requires p < |keyvals| / 2
    requires forall q: nat :: p < q < |keyvals| / 2 ==> KeyAt(keyvals, q) != KeyAt(keyvals, p)
    ensures KeyAt(keyvals, p) in Merged(params, keyvals)
    ensures Merged(params, keyvals)[KeyAt(keyvals, p)]
      == Parameter(Some(ParameterValue(ValueAt(keyvals, p), false)), map[], "")
    decreases |keyvals|
  {
    var tail := keyvals[2..];
    var next := params[keyvals[0] := DefaultOnly(keyvals[1])];
    PairsOfTail(keyvals);
    if p == 0 {
      forall k | k in NamedKeys(tail)
        ensures k != keyvals[0]
      {
        var q: nat :| q < |tail| / 2 && KeyAt(tail, q) == k;
        assert KeyAt(keyvals, q + 1) == k;
      }
      MergedAtUnnamedKey(next, tail, keyvals[0]);
    } else {
      assert KeyAt(tail, p - 1) == KeyAt(keyvals, p);
      forall q: nat | p - 1 < q < |tail| / 2
        ensures KeyAt(tail, q) != KeyAt(tail, p - 1)
      {
        assert KeyAt(tail, q) == KeyAt(keyvals, q + 1);
      }
      MergedAtLastPair(next, tail, p - 1);
    }
  }

  /** The merge touches the named keys and nothing else: outside the named
      keys the result equals `params`. */
  lemma MergeFrame(params: map<string, Parameter>, keyvals: seq<string>)
    ensures Merged(params, keyvals) - NamedKeys(keyvals) == params - NamedKeys(keyvals)
  {
    var r := Merged(params, keyvals);
    var named := NamedKeys(keyvals);
    forall k | k !in named
      ensures (k in r <==> k in params) && (k in params ==> r[k] == params[k])
    {
      MergedAtUnnamedKey(params, keyvals, k);
    }
  }

  /** What a key held before the merge does not matter once a pair names it:
      two parameter maps that agree outside the named keys merge to the same
      result. */
  lemma {:induction false} MergeForgetsNamedKeys(m1: map<string, Parameter>, m2: map<string, Parameter>, keyvals: seq<string>)
    requires m1 - NamedKeys(keyvals) == m2 - NamedKeys(keyvals)
    ensures Merged(m1, keyvals) == Merged(m2, keyvals)
    decreases |keyvals|
  {
    if |keyvals| < 2 {
      assert NamedKeys(keyvals) == {};
      assert m1 == m1 - {} && m2 == m2 - {};
    } else {
      NamedKeysOfTail(keyvals);
      var rest := NamedKeys(keyvals[2..]);
      var n1 := m1[keyvals[0] := DefaultOnly(keyvals[1])];
      var n2 := m2[keyvals[0] := DefaultOnly(keyvals[1])];
      forall k | k !in rest
        ensures (k in n1 - rest <==> k in n2 - rest) && (k in n1 - rest ==> n1[k] == n2[k])
      {
        if k != keyvals[0] {
          assert k !in NamedKeys(keyvals);
          assert k in m1 - NamedKeys(keyvals) <==> k in m1;
          assert k in m2 - NamedKeys(keyvals) <==> k in m2;
          if k in m1 {
            assert (m1 - NamedKeys(keyvals))[k] == (m2 - NamedKeys(keyvals))[k];
          }
        }
      }
      assert n1 - rest == n2 - rest;
      MergeForgetsNamedKeys(n1, n2, keyvals[2..]);
    }
  }

  /** Writing the same pairs a second time changes nothing. */
  lemma MergeIdempotent(params: map<string, Parameter>, keyvals: seq<string>)
    ensures Merged(Merged(params, keyvals), keyvals) == Merged(params, keyvals)
  {
    MergeFrame(params, keyvals);
    MergeForgetsNamedKeys(Merged(params, keyvals), params, keyvals);
  }
}
