/**
 What the peers can rely on when they are sent the reduced key list instead of the original:
 applying it gives the same store. And what they cannot: the list is not always minimal.
 */
module DeltaReplay {
  import opened Packets
  import opened SigDedupe
  import opened Merge
  import opened PublicKeys
  import opened KeyDb

  lemma {:induction false} FreshOfFresh(incoming: seq<Signature>, stored: seq<Signature>)
    ensures Fresh(Fresh(incoming, stored), stored) == Fresh(incoming, stored)
  {
    if incoming != [] {
      FreshOfFresh(incoming[1..], stored);
      var g := Fresh(incoming[1..], stored);
      if Known(stored, incoming[0]) {
        assert Fresh(incoming, stored) == [] + g == g;
      } else {
        assert Fresh(incoming, stored)[1..] == g;
      }
    }
  }

  lemma {:induction false} FreshDirectOfFresh(incoming: seq<Signature>, stored: seq<Signature>)
    ensures FreshDirect(FreshDirect(incoming, stored), stored) == FreshDirect(incoming, stored)
  {
    if incoming != [] {
      FreshDirectOfFresh(incoming[1..], stored);
      var g := FreshDirect(incoming[1..], stored);
      if HasDirect(stored, incoming[0]) {
        assert FreshDirect(incoming, stored) == [] + g == g;
      } else {
        assert FreshDirect(incoming, stored)[1..] == g;
      }
    }
  }

  /** A difference list is its own difference. */
  lemma {:induction false} DeltaOfDelta(incoming: seq<SignedPacket>, stored: seq<SignedPacket>)
    ensures DeltaList(DeltaList(incoming, stored), stored) == DeltaList(incoming, stored)
  {
    if incoming != [] {
      var n, d := incoming[0], DeltaList(incoming[1..], stored);
      var r := Reduced(n, stored);
      DeltaOfDelta(incoming[1..], stored);
      match Lookup(stored, n.packet)
      case Absent =>
      case Present(sigs) => FreshOfFresh(n.sigs, sigs);
      if r == [] {
        assert r + d == d;
      } else {
        assert (r + d)[1..] == d;
      }
    }
  }

  /** What the difference list says about a packet that is stored with signatures `sigs`. */
  lemma {:induction false} DeltaLookup(incoming: seq<SignedPacket>, stored: seq<SignedPacket>, p: Packet, sigs: seq<Signature>)
    requires DistinctPackets(incoming) && Lookup(stored, p) == Present(sigs)
    ensures Lookup(DeltaList(incoming, stored), p) ==
            match Lookup(incoming, p)
            case Absent => Absent
            case Present(new_) => if Fresh(new_, sigs) == [] then Absent else Present(Fresh(new_, sigs))
  {
    if incoming != [] {
      var n, rest := incoming[0], incoming[1..];
      var d := DeltaList(rest, stored);
      if SamePacket(n.packet, p) {
        FindSignedSame(stored, n.packet, p);
        DistinctHead(incoming, p);
        if Has(d, p) {
          DeltaHas(rest, stored, p);
        }
        assert [] + d == d;
      } else {
        DeltaLookup(rest, stored, p, sigs);
        FindSignedCons(Reduced(n, stored), d, p);
        assert Lookup(incoming, p) == Lookup(rest, p);
      }
    }
  }

  lemma LookupOwn(stored: seq<SignedPacket>, i: nat)
    requires i < |stored| && DistinctPackets(stored)
    ensures Lookup(stored, stored[i].packet) == Present(stored[i].sigs)
  {
    FindSignedFirst(stored, stored[i].packet, i);
    var k := FindSigned(stored, stored[i].packet);
    assert k == i;
  }

  lemma ReplayPacket(stored: seq<SignedPacket>, incoming: seq<SignedPacket>, i: nat)
    requires i < |stored| && DistinctPackets(stored) && DistinctPackets(incoming) && Deduped(stored[i].sigs)
    ensures MergedPacket(stored[i], DeltaList(incoming, stored)) == MergedPacket(stored[i], incoming)
  {
    var o := stored[i];
    LookupOwn(stored, i);
    DeltaLookup(incoming, stored, o.packet, o.sigs);
    match Lookup(incoming, o.packet)
    case Absent =>
    case Present(sigs) =>
      FreshOfFresh(sigs, o.sigs);
      if Fresh(sigs, o.sigs) == [] {
        assert o.sigs + [] == o.sigs;
        DedupedFixed(o.sigs);
      }
  }

  /** Merging the difference list gives what merging the original list gave. */
  lemma ReplayList(stored: seq<SignedPacket>, incoming: seq<SignedPacket>)
    requires DistinctPackets(stored) && DistinctPackets(incoming) && CleanList(stored)
    ensures MergedList(stored, DeltaList(incoming, stored)) == MergedList(stored, incoming)
  {
    forall i | 0 <= i < |stored|
      ensures MergedPacket(stored[i], DeltaList(incoming, stored)) == MergedPacket(stored[i], incoming)
    {
      ReplayPacket(stored, incoming, i);
    }
    UnseenOfDelta(incoming, stored);
    assert MergedPackets(stored, DeltaList(incoming, stored)) == MergedPackets(stored, incoming);
  }

  lemma ReplayKey(a: Key, b: Key)
    requires Clean(a) && DistinctKey(b)
    ensures MergedKey(a, DeltaKey(a, b)) == MergedKey(a, b)
    ensures DeltaKey(a, DeltaKey(a, b)) == DeltaKey(a, b)
  {
    FreshDirectOfFresh(b.sigs, a.sigs);
    ReplayList(a.uids, b.uids);
    ReplayList(a.subkeys, b.subkeys);
    DeltaOfDelta(b.uids, a.uids);
    DeltaOfDelta(b.subkeys, a.subkeys);
  }

  lemma ReplayStep(db: Db, k: Key, banned: set<Fingerprint>, updateOnly: bool)
    requires CleanDb(db) && Clean(k)
    ensures var s := Step(db, k, banned, updateOnly);
            |s.kept| <= 1 && (s.kept != [] ==> Step(db, s.kept[0], banned, updateOnly) == s)
  {
    if k.fp in db {
      ReplayKey(db[k.fp], k);
    }
  }

  lemma ReplayOne(db: Db, k: Key, banned: set<Fingerprint>, updateOnly: bool)
    requires CleanDb(db) && Clean(k)
    ensures var s := Step(db, k, banned, updateOnly);
            Update(db, s.kept, banned, updateOnly) == s
  {
    ReplayStep(db, k, banned, updateOnly);
    var s := Step(db, k, banned, updateOnly);
    if s.kept != [] {
      assert s.kept == [s.kept[0]];
      FoldOne(Turn(banned, updateOnly), db, s.kept[0]);
    }
  }

  /**
   Delta replication. A replica in the same state that is sent the reduced list instead of the
   original one ends in the same store, finds the same number of new keys, and would itself
   send out exactly the list it received.
   */
  lemma {:induction false} DeltaReplication(db: Db, keys: seq<Key>, banned: set<Fingerprint>, updateOnly: bool)
    requires CleanDb(db) && CleanKeys(keys)
    ensures var r := Update(db, keys, banned, updateOnly);
            Update(db, r.kept, banned, updateOnly) == r
    decreases |keys|
  {
    if keys != [] {
      var step := Turn(banned, updateOnly);
      var s := step(db, keys[0]);
      StepKeepsClean(db, keys[0], banned, updateOnly);
      ReplayOne(db, keys[0], banned, updateOnly);
      DeltaReplication(s.db, keys[1..], banned, updateOnly);
      FoldConcat(step, db, s.kept, Fold(step, s.db, keys[1..]).kept);
    }
  }
}
