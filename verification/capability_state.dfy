/** `formatCapabilityState` of `src/identifyDevices.ts`: a `reduce` that stores each state
    entry's value under its type, ignoring the instance, so a later entry of the same type
    overwrites an earlier one; reading `state.value` of an entry without `state` throws. */
module CapabilityState {
  import opened Results
  import opened Types

  /** The record built by the `reduce`: type to reported value (a missing value is stored as such). */
  type StateMap = map<string, Option<Json>>

  function FormatCapabilityState(entries: seq<StateEntry>): (r: Result<StateMap>)
    ensures r.Err? <==> exists i :: 0 <= i < |entries| && entries[i].state.NoState?
  {
    if |entries| == 0 then Ok(map[])
    else
      var last := entries[|entries| - 1];
      match FormatCapabilityState(entries[..|entries| - 1])
      case Err(e) => Err(e)
      case Ok(m) =>
        if last.state.NoState? then Err(MissingState(last.capType))
        else Ok(m[last.capType := last.state.value])
  }

  /** Every entry carries a `state` member. */
  predicate AllStated(entries: seq<StateEntry>)
  {
    forall i :: 0 <= i < |entries| ==> entries[i].state.State?
  }

  /** The error names the type of the first entry without a state. */
  lemma {:induction false} FirstMissingStateReported(entries: seq<StateEntry>, i: nat)
    requires i < |entries| && entries[i].state.NoState? && AllStated(entries[..i])
    ensures FormatCapabilityState(entries) == Err(MissingState(entries[i].capType))
  {
    var init := entries[..|entries| - 1];
    if i < |entries| - 1 {
      assert init[..i] == entries[..i];
      FirstMissingStateReported(init, i);
    } else {
      assert init == entries[..i];
      assert FormatCapabilityState(init).Ok?;
    }
  }

  /** The keys are exactly the entry types. */
  lemma {:induction false} KeysAreTypes(entries: seq<StateEntry>)
    requires AllStated(entries)
    ensures FormatCapabilityState(entries).Ok?
    ensures FormatCapabilityState(entries).value.Keys == set i | 0 <= i < |entries| :: entries[i].capType
  {
    if |entries| > 0 {
      var init := entries[..|entries| - 1];
      assert AllStated(init) by {
        forall i | 0 <= i < |init| ensures init[i].state.State? {
          assert init[i] == entries[i];
        }
      }
      KeysAreTypes(init);
      var last := entries[|entries| - 1];
      var before := set i | 0 <= i < |init| :: init[i].capType;
      var all := set i | 0 <= i < |entries| :: entries[i].capType;
      assert all == before + {last.capType} by {
        forall t | t in all ensures t in before + {last.capType} {
          var i :| 0 <= i < |entries| && entries[i].capType == t;
          if i < |init| { assert init[i] == entries[i]; }
        }
        forall t | t in before ensures t in all {
          var i :| 0 <= i < |init| && init[i].capType == t;
          assert entries[i] == init[i];
        }
      }
    }
  }

  /** An entry whose type no later entry repeats is the one whose value is kept. */
  lemma {:induction false} LastOfTypeWins(entries: seq<StateEntry>, i: nat)
    requires AllStated(entries) && i < |entries|
    requires forall j :: i < j < |entries| ==> entries[j].capType != entries[i].capType
    ensures FormatCapabilityState(entries).Ok?
    ensures entries[i].capType in FormatCapabilityState(entries).value
    ensures FormatCapabilityState(entries).value[entries[i].capType] == entries[i].state.value
  {
    KeysAreTypes(entries);
    var init := entries[..|entries| - 1];
    if i < |entries| - 1 {
      assert AllStated(init) by {
        forall k | 0 <= k < |init| ensures init[k].state.State? {
          assert init[k] == entries[k];
        }
      }
      forall j | i < j < |init| ensures init[j].capType != init[i].capType {
        assert init[j] == entries[j];
      }
      LastOfTypeWins(init, i);
      assert init[i] == entries[i];
    }
  }
}
