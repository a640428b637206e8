/** keydb.c: updating a key store with a list of keys, and the list that goes out to the peers. */
module KeyDb {
  import opened Packets
  import opened SigDedupe
  import opened Merge
  import opened PublicKeys

  type Db = map<Fingerprint, Key>

  /** Store after an update, keys left on the list, and how many fingerprints were new. */
  datatype Run = Run(db: Db, kept: seq<Key>, added: nat)

  /** One turn of the generic_update_keys loop. */
  function Step(db: Db, k: Key, banned: set<Fingerprint>, updateOnly: bool): (r: Run) {
    if k.fp in banned then Run(db, [], 0)
    else if k.fp !in db then
      if updateOnly then Run(db, [k], 0) else Run(db[k.fp := k], [k], 1)
    else
      var d := DeltaKey(db[k.fp], k);
      if Bare(d) then Run(db, [], 0) else Run(db[k.fp := MergedKey(db[k.fp], k)], [d], 0)
  }

  type Stepper = (Db, Key) -> Run

  /** The loop itself, whatever one turn does. */
  function Fold(step: Stepper, db: Db, keys: seq<Key>): (r: Run)
    decreases |keys|
  {
    if keys == [] then Run(db, [], 0)
    else
      var s := step(db, keys[0]);
      var t := Fold(step, s.db, keys[1..]);
      Run(t.db, s.kept + t.kept, s.added + t.added)
  }

  function Turn(banned: set<Fingerprint>, updateOnly: bool): (step: Stepper) {
    (db: Db, k: Key) => Step(db, k, banned, updateOnly)
  }

  function Update(db: Db, keys: seq<Key>, banned: set<Fingerprint>, updateOnly: bool): (r: Run) {
    Fold(Turn(banned, updateOnly), db, keys)
  }

  lemma {:induction false} FoldConcat(step: Stepper, db: Db, xs: seq<Key>, ys: seq<Key>)
    ensures var r := Fold(step, db, xs);
            var t := Fold(step, r.db, ys);
            Fold(step, db, xs + ys) == Run(t.db, r.kept + t.kept, r.added + t.added)
    decreases |xs|
  {
    if xs == [] {
      assert xs + ys == ys;
    } else {
      assert (xs + ys)[1..] == xs[1..] + ys && (xs + ys)[0] == xs[0];
      var s := step(db, xs[0]);
      FoldConcat(step, s.db, xs[1..], ys);
      var r := Fold(step, s.db, xs[1..]);
      assert s.kept + (r.kept + Fold(step, r.db, ys).kept) == (s.kept + r.kept) + Fold(step, r.db, ys).kept;
    }
  }

  lemma FoldOne(step: Stepper, db: Db, k: Key)
    ensures Fold(step, db, [k]) == step(db, k)
  {
    var s := step(db, k);
    assert [k][1..] == [] && s.kept + [] == s.kept;
    assert Fold(step, s.db, []) == Run(s.db, [], 0);
  }

  /** A key cleankeys has been over: no packet twice, one signature per signer class. */
  ghost predicate Clean(k: Key) {
    DistinctKey(k) && CleanList(k.uids) && CleanList(k.subkeys)
  }

  ghost predicate CleanList(list: seq<SignedPacket>) {
    forall i | 0 <= i < |list| :: Deduped(list[i].sigs)
  }

  ghost predicate CleanDb(db: Db) {
    forall fp | fp in db :: db[fp].fp == fp && Clean(db[fp])
  }

  ghost predicate CleanKeys(keys: seq<Key>) {
    forall i | 0 <= i < |keys| :: Clean(keys[i])
  }

  // ------------------------------------------------------- cleanness is kept

  lemma {:induction false} FreshOrigin(incoming: seq<Signature>, stored: seq<Signature>, m: nat) returns (o: nat)
    requires m < |Fresh(incoming, stored)|
    ensures m <= o < |incoming| && incoming[o] == Fresh(incoming, stored)[m] && !Known(stored, incoming[o])
  {
    if Known(stored, incoming[0]) {
      o := FreshOrigin(incoming[1..], stored, m);
      o := o + 1;
    } else if m == 0 {
      o := 0;
    } else {
      o := FreshOrigin(incoming[1..], stored, m - 1);
      o := o + 1;
    }
  }

  lemma {:induction false} FreshDeduped(incoming: seq<Signature>, stored: seq<Signature>)
    requires Deduped(incoming)
    ensures Deduped(Fresh(incoming, stored))
  {
    if incoming != [] {
      FreshDeduped(incoming[1..], stored);
      var f, g := Fresh(incoming, stored), Fresh(incoming[1..], stored);
      if !Known(stored, incoming[0]) {
        forall j | 0 < j < |f| ensures !MatchesSigner(f[0], f[j]) {
          var o := FreshOrigin(incoming[1..], stored, j - 1);
          assert incoming[o + 1] == f[j];
        }
      }
    }
  }

  lemma {:induction false} UnseenClean(incoming: seq<SignedPacket>, stored: seq<SignedPacket>)
    requires DistinctPackets(incoming) && CleanList(incoming)
    ensures DistinctPackets(Unseen(incoming, stored)) && CleanList(Unseen(incoming, stored))
  {
    if incoming != [] {
      var front := if Has(stored, incoming[0].packet) then [] else [incoming[0]];
      UnseenClean(incoming[1..], stored);
      UnseenIn(incoming[1..], stored, incoming[0].packet);
      DistinctHead(incoming, incoming[0].packet);
      DistinctCons(front, Unseen(incoming[1..], stored));
    }
  }

  lemma {:induction false} DeltaClean(incoming: seq<SignedPacket>, stored: seq<SignedPacket>)
    requires CleanList(incoming)
    ensures CleanList(DeltaList(incoming, stored))
  {
    if incoming != [] {
      DeltaClean(incoming[1..], stored);
      match Lookup(stored, incoming[0].packet)
      case Absent =>
      case Present(sigs) => FreshDeduped(incoming[0].sigs, sigs);
    }
  }

  lemma MergedListClean(stored: seq<SignedPacket>, incoming: seq<SignedPacket>)
    requires DistinctPackets(stored) && CleanList(stored) && DistinctPackets(incoming) && CleanList(incoming)
    ensures DistinctPackets(MergedList(stored, incoming)) && CleanList(MergedList(stored, incoming))
  {
    UnseenClean(incoming, stored);
    var m, u := MergedPackets(stored, incoming), Unseen(incoming, stored);
    var all: seq<SignedPacket> := m + u;
    forall i, j | 0 <= i < j < |all| ensures !SamePacket(all[i].packet, all[j].packet) {
      if i < |m| && |m| <= j {
        UnseenIn(incoming, stored, stored[i].packet);
        FindSignedFirst(stored, stored[i].packet, i);
        if SamePacket(all[i].packet, all[j].packet) {
          FindSignedFirst(u, stored[i].packet, j - |m|);
        }
      }
    }
    forall i | 0 <= i < |all| ensures Deduped(all[i].sigs) {
      if i < |m| {
        match Lookup(incoming, stored[i].packet)
        case Absent =>
        case Present(sigs) => SurvivorsDeduped(stored[i].sigs + Fresh(sigs, stored[i].sigs));
      }
    }
  }

  lemma MergeKeepsClean(a: Key, b: Key)
    requires Clean(a) && Clean(b)
    ensures Clean(MergedKey(a, b)) && Clean(DeltaKey(a, b))
  {
    MergedListClean(a.uids, b.uids);
    MergedListClean(a.subkeys, b.subkeys);
    DeltaClean(b.uids, a.uids);
    DeltaClean(b.subkeys, a.subkeys);
    DeltaDistinct(b.uids, a.uids);
    DeltaDistinct(b.subkeys, a.subkeys);
  }

  lemma StepKeepsClean(db: Db, k: Key, banned: set<Fingerprint>, updateOnly: bool)
    requires CleanDb(db) && Clean(k)
    ensures CleanDb(Step(db, k, banned, updateOnly).db) && CleanKeys(Step(db, k, banned, updateOnly).kept)
  {
    if k.fp in db {
      MergeKeepsClean(db[k.fp], k);
    }
  }

  /** Every run from a clean store on clean keys ends in a clean store and sends out clean keys. */
  lemma {:induction false} UpdateKeepsClean(db: Db, keys: seq<Key>, banned: set<Fingerprint>, updateOnly: bool)
    requires CleanDb(db) && CleanKeys(keys)
    ensures CleanDb(Update(db, keys, banned, updateOnly).db)
    ensures CleanKeys(Update(db, keys, banned, updateOnly).kept)
    decreases |keys|
  {
    if keys != [] {
      StepKeepsClean(db, keys[0], banned, updateOnly);
      UpdateKeepsClean(Step(db, keys[0], banned, updateOnly).db, keys[1..], banned, updateOnly);
    }
  }

  lemma UpdateSnoc(db: Db, keys: seq<Key>, k: Key, banned: set<Fingerprint>, updateOnly: bool)
    ensures var r := Update(db, keys, banned, updateOnly);
            var s := Step(r.db, k, banned, updateOnly);
            Update(db, keys + [k], banned, updateOnly) == Run(s.db, r.kept + s.kept, r.added + s.added)
  {
    FoldConcat(Turn(banned, updateOnly), db, keys, [k]);
    FoldOne(Turn(banned, updateOnly), Update(db, keys, banned, updateOnly).db, k);
  }

  class KeyStore {
    var stored: Db

    constructor ()
      ensures stored == map[]
    {
      stored := map[];
    }

    /** One key of the list: dropped, stored as it came, or merged and reduced. */
    method UpdateKey(k: Key, banned: set<Fingerprint>, updateOnly: bool) returns (left: seq<Key>, added: nat)
      modifies this
      ensures old(CleanDb(stored)) && Clean(k) ==> Run(stored, left, added) == Step(old(stored), k, banned, updateOnly)
    {
      left, added := [], 0;
      if k.fp in banned {
        return;
      }
      if k.fp !in stored {
        left := [k];
        if !updateOnly {
          stored := stored[k.fp := k];
          added := 1;
        }
      } else {
        var oldKey := new PublicKey(stored[k.fp]);
        var curKey := new PublicKey(k);
        var _ := MergeKeys(oldKey, curKey);
        if curKey.sigs != [] || curKey.uids != [] || curKey.subkeys != [] {
          stored := stored[k.fp := oldKey.Value()];
          left := [curKey.Value()];
        }
      }
    }

    /**
     generic_update_keys: blacklisted keys and keys that bring nothing leave the list, a stored
     key is merged and its entry on the list reduced, a new one is stored as it came.
     */
    method UpdateKeys(keys: seq<Key>, banned: set<Fingerprint>, updateOnly: bool)
      returns (kept: seq<Key>, added: nat)
      modifies this
      ensures old(CleanDb(stored)) && CleanKeys(keys) ==>
                CleanDb(stored) && Run(stored, kept, added) == Update(old(stored), keys, banned, updateOnly)
    {
      kept, added := [], 0;
      ghost var ok := CleanDb(stored) && CleanKeys(keys);
      for i := 0 to |keys|
        invariant ok ==> CleanDb(stored)
        invariant ok ==> Run(stored, kept, added) == Update(old(stored), keys[..i], banned, updateOnly)
      {
        assert keys[..i + 1] == keys[..i] + [keys[i]];
        if ok {
          UpdateSnoc(old(stored), keys[..i], keys[i], banned, updateOnly);
          StepKeepsClean(stored, keys[i], banned, updateOnly);
        }
        var left, n := UpdateKey(keys[i], banned, updateOnly);
        kept, added := kept + left, added + n;
      }
      assert keys[..|keys|] == keys;
    }
  }
}
