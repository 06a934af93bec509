/** optur/samplers/backends/backend.py: the default `joint_sample` of a sampler
    backend, which keeps the fixed parameters and draws every other parameter of
    the search space from the backend's own `sample`. */
module SamplerBackend {
  import opened Errors
  import opened Proto

  /** The order in which iteration visits a search space's keys: each key once. */
  predicate Enumerates(keys: seq<string>, space: SearchSpace) {
    && (forall k :: k in keys ==> k in space)
    && (forall k :: k in space ==> k in keys)
    && Distinct(keys)
  }

  predicate Distinct(s: seq<string>) {
    forall i, j :: 0 <= i < j < |s| ==> s[i] != s[j]
  }

  /** The keys, in iteration order, that the loop samples: those not fixed. */
  function Unfixed(keys: seq<string>, fixed: map<string, ParameterValue>): (u: seq<string>)
    ensures forall k :: k in u <==> k in keys && k !in fixed
    ensures |u| <= |keys|
  {
    if keys == [] then []
    else if keys[0] in fixed then Unfixed(keys[1..], fixed)
    else [keys[0]] + Unfixed(keys[1..], fixed)
  }

  /** The for-loop of joint_sample as a fold: `acc` is `ret` so far, and `calls`
      counts the calls to `sample` made so far. `sample(d, n)` stands for the
      value the backend's `sample` returns on its `n`-th call of this run. */
  function Filled(acc: map<string, ParameterValue>, fixed: map<string, ParameterValue>, space: SearchSpace,
                  keys: seq<string>, sample: (Distribution, nat) -> ParameterValue, calls: nat): map<string, ParameterValue>
    requires forall k :: k in keys ==> k in space
    decreases |keys|
  {
    if keys == [] then acc
    else if keys[0] in fixed then Filled(acc, fixed, space, keys[1..], sample, calls)
    else Filled(acc[keys[0] := sample(space[keys[0]], calls)], fixed, space, keys[1..], sample, calls + 1)
  }

  /** The fixed parameters, or none. */
  function FixedOrEmpty(fixed: Option<map<string, ParameterValue>>): map<string, ParameterValue> {
    if fixed.Some? then fixed.value else map[]
  }

  /** The result of the default joint_sample. */
  function DefaultJointSample(fixed: Option<map<string, ParameterValue>>, searchSpace: Option<SearchSpace>,
                              keys: seq<string>, sample: (Distribution, nat) -> ParameterValue): map<string, ParameterValue>
    requires searchSpace.Some? ==> Enumerates(keys, searchSpace.value)
  {
    var ret := FixedOrEmpty(fixed);
    if searchSpace.Some? then Filled(ret, ret, searchSpace.value, keys, sample, 0) else ret
  }

  /** The default joint_sample: a copy of the fixed parameters, then one call to
      `sample` for each key of the search space that is not fixed. */
  method JointSample(fixed: Option<map<string, ParameterValue>>, searchSpace: Option<SearchSpace>,
                     keys: seq<string>, sample: (Distribution, nat) -> ParameterValue)
    returns (ret: map<string, ParameterValue>)
    requires searchSpace.Some? ==> Enumerates(keys, searchSpace.value)
    ensures ret == DefaultJointSample(fixed, searchSpace, keys, sample)
  {
    ret := FixedOrEmpty(fixed);
    if searchSpace.Some? {
      var f := ret;
      var calls: nat := 0;
      for i := 0 to |keys|
        invariant Filled(ret, f, searchSpace.value, keys[i..], sample, calls)
               == Filled(f, f, searchSpace.value, keys, sample, 0)
      {
        assert keys[i..][1..] == keys[i + 1..];
        var key := keys[i];
        if key !in f {
          ret := ret[key := sample(searchSpace.value[key], calls)];
          calls := calls + 1;
        }
      }
      assert keys[|keys|..] == [];
    }
  }

  lemma DistinctTail(keys: seq<string>)
    requires keys != [] && Distinct(keys)
    ensures Distinct(keys[1..]) && keys[0] !in keys[1..]
  {
    forall i, j | 0 <= i < j < |keys[1..]| ensures keys[1..][i] != keys[1..][j] {
      assert keys[1..][i] == keys[i + 1] && keys[1..][j] == keys[j + 1];
    }
    forall j | 0 <= j < |keys[1..]| ensures keys[1..][j] != keys[0] {
      assert keys[1..][j] == keys[j + 1];
    }
  }

  lemma {:induction false} UnfixedDistinct(keys: seq<string>, fixed: map<string, ParameterValue>)
    requires Distinct(keys)
    ensures Distinct(Unfixed(keys, fixed))
    decreases |keys|
  {
    if keys != [] {
      DistinctTail(keys);
      UnfixedDistinct(keys[1..], fixed);
      if keys[0] !in fixed {
        var rest := Unfixed(keys[1..], fixed);
        assert keys[0] !in rest;
        var u := [keys[0]] + rest;
        forall i, j | 0 <= i < j < |u| ensures u[i] != u[j] {
          assert u[j] == rest[j - 1];
          if i > 0 {
            assert u[i] == rest[i - 1];
          }
        }
      }
    }
  }

  /** The fold adds exactly the keys it samples. */
  lemma {:induction false} FilledKeys(acc: map<string, ParameterValue>, fixed: map<string, ParameterValue>,
                                      space: SearchSpace, keys: seq<string>,
                                      sample: (Distribution, nat) -> ParameterValue, calls: nat)
    requires forall k :: k in keys ==> k in space
    ensures Filled(acc, fixed, space, keys, sample, calls).Keys == acc.Keys + (set k | k in keys && k !in fixed)
    decreases |keys|
  {
    if keys != [] {
      if keys[0] in fixed {
        FilledKeys(acc, fixed, space, keys[1..], sample, calls);
        assert (set k | k in keys && k !in fixed) == (set k | k in keys[1..] && k !in fixed);
      } else {
        FilledKeys(acc[keys[0] := sample(space[keys[0]], calls)], fixed, space, keys[1..], sample, calls + 1);
        assert (set k | k in keys && k !in fixed) == {keys[0]} + (set k | k in keys[1..] && k !in fixed);
      }
    }
  }

  /** An entry the fold starts from survives unless the fold samples its key. */
  lemma {:induction false} FilledKeeps(acc: map<string, ParameterValue>, fixed: map<string, ParameterValue>,
                                       space: SearchSpace, keys: seq<string>,
                                       sample: (Distribution, nat) -> ParameterValue, calls: nat, k: string)
    requires forall k :: k in keys ==> k in space
    requires k in acc && k !in Unfixed(keys, fixed)
    ensures k in Filled(acc, fixed, space, keys, sample, calls)
    ensures Filled(acc, fixed, space, keys, sample, calls)[k] == acc[k]
    decreases |keys|
  {
    if keys != [] {
      if keys[0] in fixed {
        FilledKeeps(acc, fixed, space, keys[1..], sample, calls, k);
      } else {
        FilledKeeps(acc[keys[0] := sample(space[keys[0]], calls)], fixed, space, keys[1..], sample, calls + 1, k);
      }
    }
  }

  /** The `j`-th key the fold samples gets the value of call `calls + j`. */
  lemma {:induction false} FilledSamples(acc: map<string, ParameterValue>, fixed: map<string, ParameterValue>,
                                         space: SearchSpace, keys: seq<string>,
                                         sample: (Distribution, nat) -> ParameterValue, calls: nat, j: nat)
    requires forall k :: k in keys ==> k in space
    requires Distinct(keys)
    requires j < |Unfixed(keys, fixed)|
    ensures Unfixed(keys, fixed)[j] in Filled(acc, fixed, space, keys, sample, calls)
    ensures Filled(acc, fixed, space, keys, sample, calls)[Unfixed(keys, fixed)[j]]
         == sample(space[Unfixed(keys, fixed)[j]], calls + j)
    decreases |keys|
  {
    DistinctTail(keys);
    if keys[0] in fixed {
      FilledSamples(acc, fixed, space, keys[1..], sample, calls, j);
    } else {
      var acc' := acc[keys[0] := sample(space[keys[0]], calls)];
      var rest := Unfixed(keys[1..], fixed);
      if j == 0 {
        assert keys[0] !in rest;
        FilledKeeps(acc', fixed, space, keys[1..], sample, calls + 1, keys[0]);
      } else {
        FilledSamples(acc', fixed, space, keys[1..], sample, calls + 1, j - 1);
        assert Unfixed(keys, fixed)[j] == rest[j - 1];
      }
    }
  }

  /** The default joint_sample keeps every fixed parameter with its value; its
      keys are the fixed keys plus the search-space keys; with no search space
      the result is the fixed parameters, or empty. */
  lemma JointSampleKeepsFixed(fixed: Option<map<string, ParameterValue>>, searchSpace: Option<SearchSpace>,
                              keys: seq<string>, sample: (Distribution, nat) -> ParameterValue)
    requires searchSpace.Some? ==> Enumerates(keys, searchSpace.value)
    ensures var f, r := FixedOrEmpty(fixed), DefaultJointSample(fixed, searchSpace, keys, sample);
      && (forall k :: k in f ==> k in r && r[k] == f[k])
      && (searchSpace.None? ==> r == f)
      && (searchSpace.Some? ==> r.Keys == f.Keys + searchSpace.value.Keys)
  {
    if searchSpace.Some? {
      var f, space := FixedOrEmpty(fixed), searchSpace.value;
      var r := DefaultJointSample(fixed, searchSpace, keys, sample);
      FilledKeys(f, f, space, keys, sample, 0);
      forall k | k in f ensures k in r && r[k] == f[k] {
        FilledKeeps(f, f, space, keys, sample, 0, k);
      }
      forall k | k in f.Keys + space.Keys ensures k in r {
        if k !in f {
          assert k in keys;
        }
      }
    }
  }

  /** With a search space, the keys the default joint_sample samples are exactly
      the search-space keys that are not fixed, each once, in iteration order, and
      the `j`-th of them gets the value of the `j`-th call to `sample`. */
  lemma JointSampleSamplesUnfixed(fixed: Option<map<string, ParameterValue>>, space: SearchSpace,
                                  keys: seq<string>, sample: (Distribution, nat) -> ParameterValue)
    requires Enumerates(keys, space)
    ensures var f, r := FixedOrEmpty(fixed), DefaultJointSample(fixed, Some(space), keys, sample);
      var u := Unfixed(keys, f);
      && Distinct(u)
      && (forall k :: k in u <==> k in space && k !in f)
      && (forall j :: 0 <= j < |u| ==> u[j] in r && r[u[j]] == sample(space[u[j]], j))
  {
    var f := FixedOrEmpty(fixed);
    var r := DefaultJointSample(fixed, Some(space), keys, sample);
    var u := Unfixed(keys, f);
    forall j | 0 <= j < |u| ensures u[j] in r && r[u[j]] == sample(space[u[j]], j) {
      FilledSamples(f, f, space, keys, sample, 0, j);
    }
    UnfixedDistinct(keys, f);
  }
}
