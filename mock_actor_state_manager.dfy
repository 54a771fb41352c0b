/** MockActorStateManager (CareOtter.ServiceFabricUtilities.Mocks/StateManager/MockActorStateManager.cs):
    named actor state in a plain dictionary. The Try operations of reading
    and removing can be made to fail at random; the random draw in [0, 100)
    is a parameter here. Values are of one type V; the source's casts from
    object are not modelled. */
module MockActorStateManagers {
  import opened Wrappers

  /** Whether a Try operation fails: never when the chance is 0, otherwise
      when the draw exceeds the chance. */
  function MaybeFail(transientFailureChance: int, draw: int): (fail: bool)
    ensures transientFailureChance == 0 ==> !fail
    ensures transientFailureChance != 0 ==> (fail <==> draw > transientFailureChance)
  {
    if transientFailureChance == 0 then false else draw > transientFailureChance
  }

  /** A chance of 100 or more never fails, and a negative chance always
      fails, as the draw lies in [0, 100). */
  lemma MaybeFailExtremes(chance: int, draw: int)
    requires 0 <= draw < 100
    ensures chance >= 100 ==> !MaybeFail(chance, draw)
    ensures chance < 0 ==> MaybeFail(chance, draw)
  {
  }

  /** The draws lo, lo + 1, ..., hi - 1, each as likely as the others. */
  function Draws(lo: int, hi: int): (s: set<int>)
    ensures forall d :: d in s <==> lo <= d < hi
    ensures lo <= hi ==> |s| == hi - lo
    decreases hi - lo
  {
    if lo >= hi then {} else Draws(lo, hi - 1) + {hi - 1}
  }

  /** As written, a chance strictly between 0 and 100 fails on 99 - chance of
      the 100 draws, so a larger chance means fewer failures: the rate is
      inverted with respect to "the chance that the Try methods fail". */
  lemma MaybeFailRate(chance: int)
    requires 0 < chance < 100
    ensures |set d | d in Draws(0, 100) && MaybeFail(chance, d)| == 99 - chance
  {
    assert (set d | d in Draws(0, 100) && MaybeFail(chance, d)) == Draws(chance + 1, 100);
  }

  /** The transient failure the property describes: a draw below the chance. */
  function IntendedFail(transientFailureChance: int, draw: int): bool
  {
    draw < transientFailureChance
  }

  /** With the intended test, a chance of c percent fails on exactly c of the
      100 draws, so a chance of 0 never fails and one of 100 always does. */
  lemma IntendedFailRate(chance: int)
    requires 0 <= chance <= 100
    ensures |set d | d in Draws(0, 100) && IntendedFail(chance, d)| == chance
  {
    assert (set d | d in Draws(0, 100) && IntendedFail(chance, d)) == Draws(0, chance);
  }

  class MockActorStateManager<V> {
    var stateDict: map<string, V>
    var TransientFailureChance: int

    constructor (transientFailureChance: int)
      ensures stateDict == map[] && TransientFailureChance == transientFailureChance
    {
      stateDict := map[];
      TransientFailureChance := transientFailureChance;
    }

    /** Dictionary.Add: a name already present throws. */
    method AddStateAsync(stateName: string, value: V) returns (r: Outcome)
      modifies this
      ensures r.Fail? <==> stateName in old(stateDict)
      ensures r.Fail? ==> r.error == ArgumentException && stateDict == old(stateDict)
      ensures r.Pass? ==> stateDict == old(stateDict)[stateName := value]
    {
      if stateName in stateDict {
        return Fail(ArgumentException);
      }
      stateDict := stateDict[stateName := value];
      return Pass;
    }

    /** A missing name throws KeyNotFoundException. */
    method GetStateAsync(stateName: string) returns (r: Result<V>)
      ensures r.Ok? <==> stateName in stateDict
      ensures r.Ok? ==> r.value == stateDict[stateName]
      ensures r.Err? ==> r.error == KeyNotFoundException
    {
      if stateName !in stateDict {
        return Err(KeyNotFoundException);
      }
      return Ok(stateDict[stateName]);
    }

    /** Unconditional overwrite. */
    method SetStateAsync(stateName: string, value: V)
      modifies this
      ensures stateDict == old(stateDict)[stateName := value]
    {
      stateDict := stateDict[stateName := value];
    }

    /** Removes the name if present; a missing name is no error. */
    method RemoveStateAsync(stateName: string)
      modifies this
      ensures stateDict == old(stateDict) - {stateName}
    {
      stateDict := stateDict - {stateName};
    }

    /** Also Dictionary.Add, so it throws on a duplicate instead of answering
        false, and answers true otherwise. */
    method TryAddStateAsync(stateName: string, value: V) returns (r: Result<bool>)
      modifies this
      ensures r.Err? <==> stateName in old(stateDict)
      ensures r.Err? ==> r.error == ArgumentException && stateDict == old(stateDict)
      ensures r.Ok? ==> r.value && stateDict == old(stateDict)[stateName := value]
    {
      var added := AddStateAsync(stateName, value);
      if added.Fail? {
        return Err(added.error);
      }
      return Ok(true);
    }

    /** Nothing when the failure fires or the name is missing. */
    method TryGetStateAsync(stateName: string, draw: int) returns (r: Option<V>)
      requires 0 <= draw < 100
      ensures r.Some? <==> !MaybeFail(TransientFailureChance, draw) && stateName in stateDict
      ensures r.Some? ==> r.value == stateDict[stateName]
    {
      if MaybeFail(TransientFailureChance, draw) || stateName !in stateDict {
        return None;
      }
      return Some(stateDict[stateName]);
    }

    /** False and no change when the failure fires or the name is missing;
        otherwise removes and answers true. */
    method TryRemoveStateAsync(stateName: string, draw: int) returns (removed: bool)
      requires 0 <= draw < 100
      modifies this
      ensures removed <==> !MaybeFail(TransientFailureChance, draw) && stateName in old(stateDict)
      ensures stateDict == if removed then old(stateDict) - {stateName} else old(stateDict)
    {
      if MaybeFail(TransientFailureChance, draw) || stateName !in stateDict {
        return false;
      }
      stateDict := stateDict - {stateName};
      return true;
    }

    method ContainsStateAsync(stateName: string) returns (present: bool)
      ensures present <==> stateName in stateDict
    {
      present := stateName in stateDict;
    }

    /** The stored value, unchanged, when present; otherwise adds `value` and
        returns it. */
    method GetOrAddStateAsync(stateName: string, value: V) returns (v: V)
      modifies this
      ensures stateName in old(stateDict) ==> v == old(stateDict)[stateName] && stateDict == old(stateDict)
      ensures stateName !in old(stateDict) ==> v == value && stateDict == old(stateDict)[stateName := value]
    {
      if stateName in stateDict {
        return stateDict[stateName];
      }
      stateDict := stateDict[stateName := value];
      return value;
    }

    /** Stores `addValue` for a missing name, update(name, current) otherwise,
        and returns what it stored. */
    method AddOrUpdateStateAsync(stateName: string, addValue: V, updateValueFactory: (string, V) -> V) returns (stored: V)
      modifies this
      ensures stored == if stateName in old(stateDict) then updateValueFactory(stateName, old(stateDict)[stateName]) else addValue
      ensures stateDict == old(stateDict)[stateName := stored]
    {
      if stateName !in stateDict {
        stateDict := stateDict[stateName := addValue];
        return addValue;
      }
      var newVal := updateValueFactory(stateName, stateDict[stateName]);
      stateDict := stateDict[stateName := newVal];
      return newVal;
    }

    /** The names in use, in no particular order. */
    method GetStateNamesAsync() returns (names: set<string>)
      ensures names == stateDict.Keys
    {
      names := stateDict.Keys;
    }

    method ClearCacheAsync() returns (r: Outcome)
      ensures r == Fail(NotImplementedException)
    {
      r := Fail(NotImplementedException);
    }
  }
}
