/** `user.checkProfile` and `user.createNew` (handler.ts, lines 249-271):
    giving allergy profiles ids and building a new user's profile map.
    `uuid()` is the parameter `uuids`: its k-th call returns `uuids(k)`. */
module Users {
  import opened Types

  /** `checkProfile`: a profile with an empty id gets the fresh one. */
  function CheckProfile(p: AllergyProfile, freshId: string): (r: AllergyProfile)
    ensures r.name == p.name && r.allergies == p.allergies
    ensures p.id != "" ==> r == p
    ensures p.id == "" ==> r.id == freshId
  {
    if |p.id| == 0 then p.(id := freshId) else p
  }

  /** How many of the profiles have no id, i.e. how many times `uuid()`
      is called for them. */
  function NoIdCount(profs: seq<AllergyProfile>): (n: nat)
    ensures n <= |profs|
    decreases |profs|
  {
    if profs == [] then 0
    else NoIdCount(profs[..|profs| - 1]) + (if profs[|profs| - 1].id == "" then 1 else 0)
  }

  /** The i-th profile as `createNew` stores it: with its own id, or with
      the uuid drawn for it, the ones before it having drawn theirs. */
  function Stored(profs: seq<AllergyProfile>, i: int, uuids: nat -> string): AllergyProfile
    requires 0 <= i < |profs|
  {
    CheckProfile(profs[i], uuids(NoIdCount(profs[..i])))
  }

  /** The profile map after the `forEach` has visited every profile: each
      stored under its id, a later one replacing an earlier one with the
      same id. */
  function Profiles(profs: seq<AllergyProfile>, uuids: nat -> string): map<string, AllergyProfile>
    decreases |profs|
  {
    if profs == [] then map[]
    else
      var q := Stored(profs, |profs| - 1, uuids);
      Profiles(profs[..|profs| - 1], uuids)[q.id := q]
  }

  /** `createNew(name, archievedBalance, allergyProfileArr)`. */
  method CreateNew(name: string, archievedBalance: int, profs: seq<AllergyProfile>, uuids: nat -> string)
    returns (u: RespIndUser)
    ensures u.name == name && u.archievedBalance == archievedBalance
    ensures u.profiles == Profiles(profs, uuids)
    ensures u.id == uuids(NoIdCount(profs))
  {
    var profiles: map<string, AllergyProfile> := map[];
    var calls := 0;
    for i := 0 to |profs|
      invariant profiles == Profiles(profs[..i], uuids)
      invariant calls == NoIdCount(profs[..i])
    {
      var prof := profs[i];
      assert profs[..i + 1][..i] == profs[..i];
      if prof.id != "" {
        profiles := profiles[prof.id := prof];
      } else {
        var id := uuids(calls);
        calls := calls + 1;
        profiles := profiles[id := prof.(id := id)];
      }
    }
    assert profs[..|profs|] == profs;
    u := RespIndUser(uuids(calls), name, archievedBalance, profiles);
  }

  lemma PrefixStored(profs: seq<AllergyProfile>, n: int, i: int, uuids: nat -> string)
    requires 0 <= i < n <= |profs|
    ensures Stored(profs[..n], i, uuids) == Stored(profs, i, uuids)
  {
    assert profs[..n][..i] == profs[..i];
  }

  /** No later profile is stored under the same id as the i-th. */
  predicate LastStoredAt(profs: seq<AllergyProfile>, i: int, uuids: nat -> string)
    requires 0 <= i < |profs|
  {
    forall j :: i < j < |profs| ==> Stored(profs, j, uuids).id != Stored(profs, i, uuids).id
  }

  /** Every profile is in the map under the id it was stored with. */
  lemma {:induction false} StoredIdsArePresent(profs: seq<AllergyProfile>, uuids: nat -> string)
    ensures forall i :: 0 <= i < |profs| ==> Stored(profs, i, uuids).id in Profiles(profs, uuids)
    decreases |profs|
  {
    if profs != [] {
      var n := |profs| - 1;
      StoredIdsArePresent(profs[..n], uuids);
      forall i | 0 <= i < n
        ensures Stored(profs, i, uuids).id in Profiles(profs, uuids)
      {
        PrefixStored(profs, n, i, uuids);
      }
    }
  }

  /** The map has no other keys. */
  lemma {:induction false} KeysAreStoredIds(profs: seq<AllergyProfile>, uuids: nat -> string)
    ensures forall k :: k in Profiles(profs, uuids) ==>
      exists i :: 0 <= i < |profs| && Stored(profs, i, uuids).id == k
    decreases |profs|
  {
    if profs != [] {
      var n := |profs| - 1;
      KeysAreStoredIds(profs[..n], uuids);
      forall k | k in Profiles(profs, uuids)
        ensures exists i :: 0 <= i < |profs| && Stored(profs, i, uuids).id == k
      {
        if k != Stored(profs, n, uuids).id {
          assert k in Profiles(profs[..n], uuids);
          var i :| 0 <= i < n && Stored(profs[..n], i, uuids).id == k;
          PrefixStored(profs, n, i, uuids);
        }
      }
    }
  }

  /** A profile whose id no later profile reuses is the one the map holds
      under that id: a later profile with the same id replaces it. */
  lemma {:induction false} LastStoredWins(profs: seq<AllergyProfile>, uuids: nat -> string)
    ensures forall i :: 0 <= i < |profs| && LastStoredAt(profs, i, uuids) ==>
      && Stored(profs, i, uuids).id in Profiles(profs, uuids)
      && Profiles(profs, uuids)[Stored(profs, i, uuids).id] == Stored(profs, i, uuids)
    decreases |profs|
  {
    StoredIdsArePresent(profs, uuids);
    if profs != [] {
      var n := |profs| - 1;
      var init := profs[..n];
      LastStoredWins(init, uuids);
      forall i | 0 <= i < n && LastStoredAt(profs, i, uuids)
        ensures Stored(profs, i, uuids).id in Profiles(profs, uuids)
        ensures Profiles(profs, uuids)[Stored(profs, i, uuids).id] == Stored(profs, i, uuids)
      {
        PrefixStored(profs, n, i, uuids);
        forall j | i < j < n
          ensures Stored(init, j, uuids).id != Stored(init, i, uuids).id
        {
          PrefixStored(profs, n, j, uuids);
        }
        assert LastStoredAt(init, i, uuids);
      }
    }
  }

  /** Each profile in the map carries the id it is stored under. */
  lemma {:induction false} ValuesCarryKeys(profs: seq<AllergyProfile>, uuids: nat -> string)
    ensures forall k :: k in Profiles(profs, uuids) ==> Profiles(profs, uuids)[k].id == k
    decreases |profs|
  {
    if profs != [] {
      ValuesCarryKeys(profs[..|profs| - 1], uuids);
    }
  }

  /** Every profile is found under its own id, and a profile given with an
      id keeps it and is stored as given unless a later profile reuses the id. */
  lemma ProfilesKeyedById(profs: seq<AllergyProfile>, uuids: nat -> string)
    ensures forall k :: k in Profiles(profs, uuids) ==> Profiles(profs, uuids)[k].id == k
    ensures forall i :: 0 <= i < |profs| && profs[i].id != "" ==> profs[i].id in Profiles(profs, uuids)
    ensures forall i :: 0 <= i < |profs| && profs[i].id != "" && LastStoredAt(profs, i, uuids) ==>
      Profiles(profs, uuids)[profs[i].id] == profs[i]
  {
    StoredIdsArePresent(profs, uuids);
    LastStoredWins(profs, uuids);
    ValuesCarryKeys(profs, uuids);
    forall i | 0 <= i < |profs| && profs[i].id != ""
      ensures profs[i].id in Profiles(profs, uuids)
    {
      assert Stored(profs, i, uuids) == profs[i];
    }
  }

  /** A profile without an id takes the next uuid: the first takes call 0,
      the next call 1, and the user's own id comes after all of them. */
  lemma {:induction false} NoIdProfilesDrawInOrder(profs: seq<AllergyProfile>, i: int, uuids: nat -> string)
    requires 0 <= i < |profs| && profs[i].id == ""
    ensures Stored(profs, i, uuids).id == uuids(NoIdCount(profs[..i]))
    ensures NoIdCount(profs[..i]) < NoIdCount(profs)
    decreases |profs|
  {
    if i < |profs| - 1 {
      var init := profs[..|profs| - 1];
      assert init[..i] == profs[..i];
      NoIdProfilesDrawInOrder(init, i, uuids);
    } else {
      assert profs[..|profs| - 1] == profs[..i];
    }
  }
}
