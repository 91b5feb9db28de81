/** Per-key latches that make a command's read and write one step for others. */
module Latching {
  import opened Options
  import opened MvccModel

  predicate AllFree<T>(latches: map<Key, T>, keys: seq<Key>) {
    forall k :: k in keys ==> k !in latches
  }

  /** The holder of the first of the keys that is not free. */
  function FirstTaken<T>(latches: map<Key, T>, keys: seq<Key>): Option<T> {
    if keys == [] then None else if keys[0] in latches then Some(latches[keys[0]]) else FirstTaken(latches, keys[1..])
  }

  function Taken<T>(latches: map<Key, T>, keys: seq<Key>, owner: T): map<Key, T> {
    latches + map k | k in keys :: owner
  }

  function Released<T>(latches: map<Key, T>, keys: seq<Key>): map<Key, T> {
    latches - set k | k in keys
  }

  /** Taking free latches and letting them go restores the map. */
  lemma {:induction false} ReleaseUndoesTake<T>(latches: map<Key, T>, keys: seq<Key>, owner: T)
    requires AllFree(latches, keys)
    ensures Released(Taken(latches, keys, owner), keys) == latches
  {
    var m := Released(Taken(latches, keys, owner), keys);
    assert forall k :: k in m <==> k in latches;
  }

  lemma {:induction false} OneMore<T>(latches: map<Key, T>, keys: seq<Key>, i: nat, owner: T)
    requires i < |keys|
    ensures Taken(latches, keys[..i], owner)[keys[i] := owner] == Taken(latches, keys[..i + 1], owner)
    ensures Released(latches, keys[..i]) - {keys[i]} == Released(latches, keys[..i + 1])
  {
    assert keys[..i + 1] == keys[..i] + [keys[i]];
  }

  /** A notifier stands for the task that holds the latches it is stored under. */
  type Notify = nat

  class Latches {
    var latchMap: map<Key, Notify>
    var nextNotify: Notify

    constructor ()
      ensures latchMap == map[]
    {
      latchMap, nextNotify := map[], 0;
    }

    /** Takes all latches at once, or none and names the holder of the first that is taken. */
    method AcquireLatches(keys: seq<Key>) returns (waitFor: Option<Notify>)
      modifies this
      ensures waitFor.None? <==> AllFree(old(latchMap), keys)
      ensures waitFor.None? ==>
                latchMap == Taken(old(latchMap), keys, old(nextNotify)) && nextNotify == old(nextNotify) + 1
      ensures waitFor.Some? ==> unchanged(this) && waitFor == FirstTaken(latchMap, keys)
    {
      for i := 0 to |keys|
        invariant forall j :: 0 <= j < i ==> keys[j] !in latchMap
        invariant unchanged(this) && FirstTaken(latchMap, keys) == FirstTaken(latchMap, keys[i..])
      {
        assert keys[i] in keys && keys[i..][0] == keys[i] && keys[i..][1..] == keys[i + 1..];
        if keys[i] in latchMap { return Some(latchMap[keys[i]]); }
      }
      var notify := nextNotify;
      nextNotify := nextNotify + 1;
      for i := 0 to |keys|
        invariant nextNotify == old(nextNotify) + 1
        invariant latchMap == Taken(old(latchMap), keys[..i], notify)
      {
        OneMore(old(latchMap), keys, i, notify);
        latchMap := latchMap[keys[i] := notify];
      }
      assert keys[..|keys|] == keys;
      return None;
    }

    /** Frees the latches and wakes those who wait on the first of them. */
    method ReleaseLatches(keys: seq<Key>) returns (woken: Option<Notify>)
      modifies this`latchMap
      ensures latchMap == Released(old(latchMap), keys)
      ensures woken == if |keys| > 0 && keys[0] in old(latchMap) then Some(old(latchMap)[keys[0]]) else None
    {
      woken := None;
      if |keys| > 0 {
        if keys[0] in latchMap { woken := Some(latchMap[keys[0]]); }
        latchMap := latchMap - {keys[0]};
        OneMore(old(latchMap), keys, 0, 0);
        for i := 1 to |keys|
          invariant latchMap == Released(old(latchMap), keys[..i])
        {
          OneMore(old(latchMap), keys, i, 0);
          latchMap := latchMap - {keys[i]};
        }
        assert keys[..|keys|] == keys;
      }
    }
  }
}
