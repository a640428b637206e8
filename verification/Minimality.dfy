/**
 Is the list sent to the peers the least one? keydb.c promises the minimum set of updates. A key
 is dropped exactly when every packet and signature of it is already known, but a signature
 that is merely out of date is not known: it changes nothing and is passed on all the same.
 */
module Minimality {
  import opened Packets
  import opened SigDedupe
  import opened Merge
  import opened PublicKeys
  import opened KeyDb
  import opened DeltaReplay

  // ------------------------------------------------------- what is dropped

  ghost predicate AllKnown(incoming: seq<Signature>, stored: seq<Signature>) {
    forall i | 0 <= i < |incoming| :: Known(stored, incoming[i])
  }

  lemma {:induction false} FreshEmpty(incoming: seq<Signature>, stored: seq<Signature>)
    ensures Fresh(incoming, stored) == [] <==> AllKnown(incoming, stored)
  {
    if incoming != [] {
      FreshEmpty(incoming[1..], stored);
      assert AllKnown(incoming, stored) ==> AllKnown(incoming[1..], stored);
      assert AllKnown(incoming[1..], stored) && Known(stored, incoming[0]) ==> AllKnown(incoming, stored) by {
        assert forall i | 0 < i < |incoming| :: incoming[i] == incoming[1..][i - 1];
      }
    }
  }

  ghost predicate CoveredPacket(n: SignedPacket, stored: seq<SignedPacket>) {
    Has(stored, n.packet) && AllKnown(n.sigs, Lookup(stored, n.packet).sigs)
  }

  ghost predicate CoveredList(incoming: seq<SignedPacket>, stored: seq<SignedPacket>) {
    forall i | 0 <= i < |incoming| :: CoveredPacket(incoming[i], stored)
  }

  lemma {:induction false} DeltaEmpty(incoming: seq<SignedPacket>, stored: seq<SignedPacket>)
    ensures DeltaList(incoming, stored) == [] <==> CoveredList(incoming, stored)
  {
    if incoming != [] {
      var n, rest := incoming[0], incoming[1..];
      DeltaEmpty(rest, stored);
      match Lookup(stored, n.packet)
      case Absent =>
        assert !CoveredPacket(incoming[0], stored);
      case Present(sigs) =>
        FreshEmpty(n.sigs, sigs);
        assert CoveredList(incoming, stored) ==> CoveredList(rest, stored);
        assert CoveredList(rest, stored) && CoveredPacket(n, stored) ==> CoveredList(incoming, stored) by {
          assert forall i | 0 < i < |incoming| :: incoming[i] == rest[i - 1];
        }
    }
  }

  ghost predicate AllDirect(incoming: seq<Signature>, stored: seq<Signature>) {
    forall i | 0 <= i < |incoming| :: HasDirect(stored, incoming[i])
  }

  lemma {:induction false} FreshDirectEmpty(incoming: seq<Signature>, stored: seq<Signature>)
    ensures FreshDirect(incoming, stored) == [] <==> AllDirect(incoming, stored)
  {
    if incoming != [] {
      FreshDirectEmpty(incoming[1..], stored);
      assert AllDirect(incoming, stored) ==> AllDirect(incoming[1..], stored);
      assert AllDirect(incoming[1..], stored) && HasDirect(stored, incoming[0]) ==> AllDirect(incoming, stored) by {
        assert forall i | 0 < i < |incoming| :: incoming[i] == incoming[1..][i - 1];
      }
    }
  }

  /** Every packet and signature of `b` is already on `a`. */
  ghost predicate Covered(b: Key, a: Key) {
    AllDirect(b.sigs, a.sigs) && CoveredList(b.uids, a.uids) && CoveredList(b.subkeys, a.subkeys)
  }

  /** A key leaves the list exactly when it is blacklisted or already wholly known. */
  lemma DroppedIff(db: Db, k: Key, banned: set<Fingerprint>, updateOnly: bool)
    ensures Step(db, k, banned, updateOnly).kept == [] <==>
            k.fp in banned || (k.fp in db && Covered(k, db[k.fp]))
  {
    if k.fp in db {
      var a := db[k.fp];
      FreshDirectEmpty(k.sigs, a.sigs);
      DeltaEmpty(k.uids, a.uids);
      DeltaEmpty(k.subkeys, a.subkeys);
    }
  }

  ghost function Admitted(keys: seq<Key>, banned: set<Fingerprint>): (r: set<Fingerprint>) {
    set i | 0 <= i < |keys| && keys[i].fp !in banned :: keys[i].fp
  }

  lemma AdmittedCons(keys: seq<Key>, banned: set<Fingerprint>)
    requires keys != []
    ensures Admitted(keys, banned) ==
            (if keys[0].fp in banned then {} else {keys[0].fp}) + Admitted(keys[1..], banned)
  {
    forall fp | fp in Admitted(keys, banned)
      ensures fp in (if keys[0].fp in banned then {} else {keys[0].fp}) + Admitted(keys[1..], banned)
    {
      var i :| 0 <= i < |keys| && keys[i].fp !in banned && keys[i].fp == fp;
      if i > 0 {
        assert keys[1..][i - 1] == keys[i];
      }
    }
    forall fp | fp in Admitted(keys[1..], banned) ensures fp in Admitted(keys, banned) {
      var i :| 0 <= i < |keys[1..]| && keys[1..][i].fp !in banned && keys[1..][i].fp == fp;
      assert keys[i + 1] == keys[1..][i];
    }
  }

  lemma AddOne(s: set<Fingerprint>, fp: Fingerprint)
    ensures |s + {fp}| == |s| + if fp in s then 0 else 1
  {
    if fp in s {
      assert s + {fp} == s;
    }
  }

  lemma StepCount(db: Db, k: Key, banned: set<Fingerprint>, updateOnly: bool)
    ensures var s := Step(db, k, banned, updateOnly);
            && s.added == (if k.fp in banned || k.fp in db || updateOnly then 0 else 1)
            && s.db.Keys == db.Keys + if k.fp in banned || updateOnly then {} else {k.fp}
  {
  }

  lemma {:induction false} FoldCount(step: Stepper, db: Db, keys: seq<Key>)
    requires forall d: Db, k: Key :: |step(d, k).db.Keys| == |d.Keys| + step(d, k).added
    ensures |Fold(step, db, keys).db.Keys| == |db.Keys| + Fold(step, db, keys).added
    decreases |keys|
  {
    if keys != [] {
      FoldCount(step, step(db, keys[0]).db, keys[1..]);
    }
  }

  lemma {:induction false} FoldKeys(step: Stepper, db: Db, keys: seq<Key>, banned: set<Fingerprint>, updateOnly: bool)
    requires forall d: Db, k: Key ::
               step(d, k).db.Keys == d.Keys + if k.fp in banned || updateOnly then {} else {k.fp}
    ensures Fold(step, db, keys).db.Keys == db.Keys + if updateOnly then {} else Admitted(keys, banned)
    decreases |keys|
  {
    if keys != [] {
      FoldKeys(step, step(db, keys[0]).db, keys[1..], banned, updateOnly);
      AdmittedCons(keys, banned);
    }
  }

  /**
   The store gains exactly the fingerprints on the list that are not blacklisted (none with
   update-only), and the count returned is the number of those that were new.
   */
  lemma AddedCount(db: Db, keys: seq<Key>, banned: set<Fingerprint>, updateOnly: bool)
    ensures var r := Update(db, keys, banned, updateOnly);
            && r.added == |r.db.Keys| - |db.Keys|
            && r.db.Keys == db.Keys + if updateOnly then {} else Admitted(keys, banned)
  {
    var step := Turn(banned, updateOnly);
    forall d: Db, k: Key
      ensures |step(d, k).db.Keys| == |d.Keys| + step(d, k).added
      ensures step(d, k).db.Keys == d.Keys + if k.fp in banned || updateOnly then {} else {k.fp}
    {
      StepCount(d, k, banned, updateOnly);
      AddOne(d.Keys, k.fp);
    }
    FoldCount(step, db, keys);
    FoldKeys(step, db, keys, banned, updateOnly);
  }

  // ------------------------------------------------------- what changes the store

  /** A stored signature displaces `s` wherever `s` is appended. */
  ghost predicate Superseded(stored: seq<Signature>, s: Signature) {
    exists i | 0 <= i < |stored| :: Beats(stored[i], s, true)
  }

  ghost predicate AddsNothing(incoming: seq<Signature>, stored: seq<Signature>) {
    forall i | 0 <= i < |incoming| :: Known(stored, incoming[i]) || Superseded(stored, incoming[i])
  }

  lemma StoredNotBeaten(stored: seq<Signature>, more: seq<Signature>, k: nat)
    requires Deduped(stored) && k < |stored|
    requires forall i | 0 <= i < |more| :: Superseded(stored, more[i])
    ensures Survives(stored + more, k)
  {
    var all := stored + more;
    forall i | 0 <= i < |all| && i != k ensures !Beats(all[i], all[k], i < k) {
      if |stored| <= i {
        var x :| 0 <= x < |stored| && Beats(stored[x], more[i - |stored|], true);
        assert x == k || !MatchesSigner(stored[if x < k then x else k], stored[if x < k then k else x]);
      }
    }
  }

  /** Stored entries beat everything appended, and nothing appended beats them: only they survive. */
  lemma {:induction false} StoredSurvive(stored: seq<Signature>, more: seq<Signature>, k: nat)
    requires Deduped(stored) && k <= |stored| + |more|
    requires forall i | 0 <= i < |more| :: Superseded(stored, more[i])
    ensures SurvivorsFrom(stored + more, k) == if k <= |stored| then stored[k..] else []
    decreases |stored| + |more| - k
  {
    var all := stored + more;
    if k < |all| {
      StoredSurvive(stored, more, k + 1);
      if k < |stored| {
        StoredNotBeaten(stored, more, k);
      } else {
        var x :| 0 <= x < |stored| && Beats(stored[x], more[k - |stored|], true);
        assert Beats(all[x], all[k], x < k);
      }
    }
  }

  lemma {:induction false} FreshIn(incoming: seq<Signature>, stored: seq<Signature>, i: nat) returns (m: nat)
    requires i < |incoming| && !Known(stored, incoming[i])
    ensures m < |Fresh(incoming, stored)| && Fresh(incoming, stored)[m] == incoming[i]
  {
    if i == 0 {
      m := 0;
    } else {
      m := FreshIn(incoming[1..], stored, i - 1);
      if !Known(stored, incoming[0]) {
        m := m + 1;
      }
    }
  }

  /** Merging leaves a stored signature list alone iff everything incoming is known or out of date. */
  lemma UnchangedIff(stored: seq<Signature>, incoming: seq<Signature>)
    requires Deduped(stored)
    ensures MergeSigs(stored, incoming) == stored <==> AddsNothing(incoming, stored)
  {
    var f := Fresh(incoming, stored);
    if AddsNothing(incoming, stored) {
      forall m | 0 <= m < |f| ensures Superseded(stored, f[m]) {
        var o := FreshOrigin(incoming, stored, m);
      }
      StoredSurvive(stored, f, 0);
    } else {
      var i :| 0 <= i < |incoming| && !Known(stored, incoming[i]) && !Superseded(stored, incoming[i]);
      var m := FreshIn(incoming, stored, i);
      var b := ClassKeepsBest(stored + f, |stored| + m);
      assert |stored| <= b;
      var o := FreshOrigin(incoming, stored, b - |stored|);
      forall x | 0 <= x < |stored| ensures stored[x] != incoming[o] {
        assert !SameSignature(stored[x], incoming[o]);
      }
    }
  }

  ghost predicate AddsNothingPacket(n: SignedPacket, stored: seq<SignedPacket>) {
    Has(stored, n.packet) && AddsNothing(n.sigs, Lookup(stored, n.packet).sigs)
  }

  ghost predicate AddsNothingList(incoming: seq<SignedPacket>, stored: seq<SignedPacket>) {
    forall i | 0 <= i < |incoming| :: AddsNothingPacket(incoming[i], stored)
  }

  lemma {:induction false} UnseenEmpty(incoming: seq<SignedPacket>, stored: seq<SignedPacket>)
    ensures Unseen(incoming, stored) == [] <==> forall i | 0 <= i < |incoming| :: Has(stored, incoming[i].packet)
  {
    if incoming != [] {
      UnseenEmpty(incoming[1..], stored);
      assert forall i | 0 < i < |incoming| :: incoming[i] == incoming[1..][i - 1];
      assert forall i | 0 <= i < |incoming[1..]| :: incoming[1..][i] == incoming[i + 1];
    }
  }

  /** The stored packet that an incoming one meets, and what the merge makes of it. */
  lemma MetPacket(stored: seq<SignedPacket>, incoming: seq<SignedPacket>, i: nat) returns (k: nat)
    requires i < |incoming| && DistinctPackets(incoming) && Has(stored, incoming[i].packet)
    ensures k < |stored| && k == FindSigned(stored, incoming[i].packet)
    ensures Lookup(stored, incoming[i].packet) == Present(stored[k].sigs)
    ensures MergedPacket(stored[k], incoming) == SignedPacket(stored[k].packet, MergeSigs(stored[k].sigs, incoming[i].sigs))
  {
    k := FindSigned(stored, incoming[i].packet);
    LookupOwn(incoming, i);
    FindSignedSame(incoming, stored[k].packet, incoming[i].packet);
  }

  lemma ListUnchangedIff(stored: seq<SignedPacket>, incoming: seq<SignedPacket>)
    requires DistinctPackets(stored) && DistinctPackets(incoming) && CleanList(stored)
    ensures MergedList(stored, incoming) == stored <==> AddsNothingList(incoming, stored)
  {
    UnseenEmpty(incoming, stored);
    var m := MergedPackets(stored, incoming);
    if MergedList(stored, incoming) == stored {
      assert |m + Unseen(incoming, stored)| == |stored|;
      assert Unseen(incoming, stored) == [] && m + [] == m;
      forall i | 0 <= i < |incoming| ensures AddsNothingPacket(incoming[i], stored) {
        var k := MetPacket(stored, incoming, i);
        assert m[k] == stored[k];
        UnchangedIff(stored[k].sigs, incoming[i].sigs);
      }
    }
    if AddsNothingList(incoming, stored) {
      forall i | 0 <= i < |incoming| ensures Has(stored, incoming[i].packet) {
        assert AddsNothingPacket(incoming[i], stored);
      }
      forall k | 0 <= k < |stored| ensures m[k] == stored[k] {
        UntouchedPacket(stored, incoming, k);
      }
      assert m == stored && m + [] == m;
    }
  }

  lemma UntouchedPacket(stored: seq<SignedPacket>, incoming: seq<SignedPacket>, k: nat)
    requires DistinctPackets(stored) && CleanList(stored) && k < |stored| && AddsNothingList(incoming, stored)
    ensures MergedPacket(stored[k], incoming) == stored[k]
  {
    var i := FindSigned(incoming, stored[k].packet);
    if i < |incoming| {
      LookupOwn(stored, k);
      FindSignedSame(stored, stored[k].packet, incoming[i].packet);
      assert AddsNothingPacket(incoming[i], stored);
      UnchangedIff(stored[k].sigs, incoming[i].sigs);
    }
  }

  lemma {:induction false} NoFreshDirect(a: Key, b: Key)
    ensures a.sigs + FreshDirect(b.sigs, a.sigs) == a.sigs <==> AllDirect(b.sigs, a.sigs)
  {
    FreshDirectEmpty(b.sigs, a.sigs);
    assert |a.sigs + FreshDirect(b.sigs, a.sigs)| == |a.sigs| + |FreshDirect(b.sigs, a.sigs)|;
  }

  /** Whatever `b` brings for `a` is known or out of date. */
  ghost predicate AddsNothingKey(b: Key, a: Key) {
    && AllDirect(b.sigs, a.sigs)
    && AddsNothingList(b.uids, a.uids)
    && AddsNothingList(b.subkeys, a.subkeys)
    && (b.revoked ==> a.revoked)
  }

  lemma KeyUnchangedIff(a: Key, b: Key)
    requires Clean(a) && Clean(b)
    ensures MergedKey(a, b) == a <==> AddsNothingKey(b, a)
  {
    NoFreshDirect(a, b);
    ListUnchangedIff(a.uids, b.uids);
    ListUnchangedIff(a.subkeys, b.subkeys);
  }

  lemma SameStoreIff(db: Db, fp: Fingerprint, k: Key)
    ensures db[fp := k] == db <==> fp in db && db[fp] == k
  {
    assert db[fp := k][fp] == k;
    if fp in db && db[fp] == k {
      assert db[fp := k] == db;
    }
  }

  /**
   So the promised minimum is missed by exactly two kinds of keys, which change nothing in the store
   and stay on the list that is sent out: stored ones all of whose news is out of date, and, with
   update-only, those that are not stored.
   */
  lemma PassedOnForNothingIff(db: Db, k: Key, banned: set<Fingerprint>, updateOnly: bool)
    requires CleanDb(db) && Clean(k)
    ensures var s := Step(db, k, banned, updateOnly);
            s.kept != [] && s.db == db <==>
            k.fp !in banned && if k.fp in db then !Covered(k, db[k.fp]) && AddsNothingKey(k, db[k.fp]) else updateOnly
  {
    DroppedIff(db, k, banned, updateOnly);
    if k.fp in db {
      KeyUnchangedIff(db[k.fp], k);
      SameStoreIff(db, k.fp, MergedKey(db[k.fp], k));
    } else {
      SameStoreIff(db, k.fp, k);
    }
  }

  /** The other kind: an empty server that only updates passes on a key it does not keep. */
  lemma UpdateOnlyExample(banned: set<Fingerprint>)
    requires [1] !in banned
    ensures var k := Key([1], Packet(PACKET_PUBLICKEY, false, [4]), false, [], [], []);
            Clean(k) && Update(map[], [k], banned, true) == Run(map[], [k], 0)
  {
    var k := Key([1], Packet(PACKET_PUBLICKEY, false, [4]), false, [], [], []);
    FoldOne(Turn(banned, true), map[], k);
  }

  // ------------------------------------------------------- whether the exchange comes to rest

  /** `s`, or a fresh one compare_signatures cannot tell from it, gets into the merged list. */
  ghost predicate Represented(f: seq<Signature>, s: Signature, stored: seq<Signature>) {
    exists j | 0 <= j < |f| :: SameSignature(f[j], s) && !Superseded(stored, f[j])
  }

  ghost predicate Settles(incoming: seq<Signature>, stored: seq<Signature>) {
    forall i | 0 <= i < |incoming| ::
      Known(stored, incoming[i]) || Represented(Fresh(incoming, stored), incoming[i], stored)
  }

  lemma FreshSurvivesIff(stored: seq<Signature>, f: seq<Signature>, j: nat)
    requires j < |f| && Deduped(f)
    ensures Survives(stored + f, |stored| + j) <==> !Superseded(stored, f[j])
  {
    var all := stored + f;
    if Superseded(stored, f[j]) {
      var x :| 0 <= x < |stored| && Beats(stored[x], f[j], true);
      assert Beats(all[x], all[|stored| + j], true);
    } else {
      forall i | 0 <= i < |all| && i != |stored| + j ensures !Beats(all[i], all[|stored| + j], i < |stored| + j) {
        if |stored| <= i {
          var i' := i - |stored|;
          assert !MatchesSigner(f[if i' < j then i' else j], f[if i' < j then j else i']);
        }
      }
    }
  }

  lemma KnownIff(stored: seq<Signature>, f: seq<Signature>, s: Signature)
    requires Deduped(f) && !Known(stored, s)
    ensures Known(Survivors(stored + f), s) <==> Represented(f, s, stored)
  {
    var m := Survivors(stored + f);
    if Known(m, s) {
      var k :| 0 <= k < |m| && SameSignature(m[k], s);
      var o := SurvivorFrom(stored + f, m[k]);
      assert |stored| <= o;
      FreshSurvivesIff(stored, f, o - |stored|);
      assert SameSignature(f[o - |stored|], s);
    }
    if Represented(f, s, stored) {
      var j :| 0 <= j < |f| && SameSignature(f[j], s) && !Superseded(stored, f[j]);
      FreshSurvivesIff(stored, f, j);
      SurvivorIn(stored + f, 0, |stored| + j);
      var k :| 0 <= k < |m| && m[k] == f[j];
      assert SameSignature(m[k], s);
    }
  }

  /**
   Sending the difference once more to a server that has merged it: nothing is called fresh any
   more iff every incoming signature was known or is represented in what was merged.
   */
  lemma EchoIff(stored: seq<Signature>, incoming: seq<Signature>)
    requires Deduped(incoming)
    ensures Fresh(Fresh(incoming, stored), MergeSigs(stored, incoming)) == [] <==> Settles(incoming, stored)
  {
    var f, m := Fresh(incoming, stored), MergeSigs(stored, incoming);
    FreshDeduped(incoming, stored);
    FreshEmpty(f, m);
    forall i | 0 <= i < |f| ensures !Known(stored, f[i]) && (Known(m, f[i]) <==> Represented(f, f[i], stored)) {
      var u := FreshOrigin(incoming, stored, i);
      KnownIff(stored, f, f[i]);
    }
    if AllKnown(f, m) {
      forall i | 0 <= i < |incoming| && !Known(stored, incoming[i]) ensures Represented(f, incoming[i], stored) {
        var k := FreshIn(incoming, stored, i);
      }
    }
    if Settles(incoming, stored) {
      forall i | 0 <= i < |f| ensures Known(m, f[i]) {
        var u := FreshOrigin(incoming, stored, i);
      }
    }
  }

  lemma RepresentedV4(stored: seq<Signature>, f: seq<Signature>, i: nat)
    requires Deduped(f) && i < |f| && f[i].version == 4
    ensures Represented(f, f[i], stored) <==> !Superseded(stored, f[i])
  {
    if Represented(f, f[i], stored) {
      var j :| 0 <= j < |f| && SameSignature(f[j], f[i]) && !Superseded(stored, f[j]);
      if j != i {
        assert !MatchesSigner(f[if j < i then j else i], f[if j < i then i else j]);
      }
    }
    assert SameSignature(f[i], f[i]);
  }

  /** For version 4 that is to say: whatever is not known is not out of date either. */
  lemma SettlesV4(stored: seq<Signature>, incoming: seq<Signature>)
    requires Deduped(incoming) && forall i | 0 <= i < |incoming| :: incoming[i].version == 4
    ensures Settles(incoming, stored) <==>
            forall i | 0 <= i < |incoming| :: Known(stored, incoming[i]) || !Superseded(stored, incoming[i])
  {
    var f := Fresh(incoming, stored);
    FreshDeduped(incoming, stored);
    forall i | 0 <= i < |incoming| && !Known(stored, incoming[i])
      ensures Represented(f, incoming[i], stored) <==> !Superseded(stored, incoming[i])
    {
      var m := FreshIn(incoming, stored, i);
      RepresentedV4(stored, f, m);
    }
  }

  ghost predicate SettlesPacket(n: SignedPacket, stored: seq<SignedPacket>) {
    Has(stored, n.packet) ==> Settles(n.sigs, Lookup(stored, n.packet).sigs)
  }

  ghost predicate SettlesList(incoming: seq<SignedPacket>, stored: seq<SignedPacket>) {
    forall i | 0 <= i < |incoming| :: SettlesPacket(incoming[i], stored)
  }

  lemma {:induction false} LookupConcat(x: seq<SignedPacket>, y: seq<SignedPacket>, p: Packet)
    ensures Lookup(x + y, p) == if Has(x, p) then Lookup(x, p) else Lookup(y, p)
  {
    if x == [] {
      assert x + y == y;
    } else {
      assert (x + y)[1..] == x[1..] + y;
      LookupConcat(x[1..], y, p);
    }
  }

  lemma {:induction false} LookupUnseen(incoming: seq<SignedPacket>, stored: seq<SignedPacket>, p: Packet)
    requires !Has(stored, p)
    ensures Lookup(Unseen(incoming, stored), p) == Lookup(incoming, p)
  {
    if incoming != [] {
      var n := incoming[0];
      var front := if Has(stored, n.packet) then [] else [n];
      LookupUnseen(incoming[1..], stored, p);
      LookupConcat(front, Unseen(incoming[1..], stored), p);
      if SamePacket(n.packet, p) {
        FindSignedSame(stored, n.packet, p);
      }
    }
  }

  /** What the merged list has for an incoming packet. */
  lemma LookupMerged(stored: seq<SignedPacket>, incoming: seq<SignedPacket>, i: nat)
    requires i < |incoming| && DistinctPackets(incoming)
    ensures Lookup(MergedList(stored, incoming), incoming[i].packet) ==
            match Lookup(stored, incoming[i].packet)
            case Absent => Present(incoming[i].sigs)
            case Present(sigs) => Present(MergeSigs(sigs, incoming[i].sigs))
  {
    var p := incoming[i].packet;
    HasMerged(stored, incoming, p);
    LookupConcat(MergedPackets(stored, incoming), Unseen(incoming, stored), p);
    if Has(stored, p) {
      var k := MetPacket(stored, incoming, i);
    } else {
      LookupUnseen(incoming, stored, p);
      LookupOwn(incoming, i);
    }
  }

  /** What is left of incoming packet `i` is covered by the merged list iff its signatures settle. */
  lemma EchoPacket(stored: seq<SignedPacket>, incoming: seq<SignedPacket>, i: nat)
    requires i < |incoming| && DistinctPackets(incoming) && CleanList(incoming)
    ensures var left := Lookup(DeltaList(incoming, stored), incoming[i].packet);
            var merged := Lookup(MergedList(stored, incoming), incoming[i].packet);
            && merged.Present?
            && ((left.Present? ==> AllKnown(left.sigs, merged.sigs)) <==> SettlesPacket(incoming[i], stored))
  {
    var n := incoming[i];
    LookupMerged(stored, incoming, i);
    LookupOwn(incoming, i);
    match Lookup(stored, n.packet)
    case Absent =>
      DeltaFinds(incoming, stored, n.packet);
      forall k | 0 <= k < |n.sigs| ensures Known(n.sigs, n.sigs[k]) {
        assert SameSignature(n.sigs[k], n.sigs[k]);
      }
    case Present(sigs) =>
      DeltaLookup(incoming, stored, n.packet, sigs);
      EchoIff(sigs, n.sigs);
      FreshEmpty(Fresh(n.sigs, sigs), MergeSigs(sigs, n.sigs));
  }

  lemma EchoList(stored: seq<SignedPacket>, incoming: seq<SignedPacket>)
    requires DistinctPackets(incoming) && CleanList(incoming)
    ensures CoveredList(DeltaList(incoming, stored), MergedList(stored, incoming)) <==> SettlesList(incoming, stored)
  {
    var d, m := DeltaList(incoming, stored), MergedList(stored, incoming);
    DeltaDistinct(incoming, stored);
    if CoveredList(d, m) {
      forall i | 0 <= i < |incoming| ensures SettlesPacket(incoming[i], stored) {
        EchoPacket(stored, incoming, i);
        var j := FindSigned(d, incoming[i].packet);
        if j < |d| {
          assert CoveredPacket(d[j], m);
          FindSignedSame(m, d[j].packet, incoming[i].packet);
        }
      }
    }
    if SettlesList(incoming, stored) {
      forall j | 0 <= j < |d| ensures CoveredPacket(d[j], m) {
        LookupOwn(d, j);
        DeltaHas(incoming, stored, d[j].packet);
        var i := FindSigned(incoming, d[j].packet);
        EchoPacket(stored, incoming, i);
        assert SettlesPacket(incoming[i], stored);
        FindSignedSame(m, d[j].packet, incoming[i].packet);
        FindSignedSame(d, d[j].packet, incoming[i].packet);
      }
    }
  }

  lemma {:induction false} FreshDirectAppended(incoming: seq<Signature>, stored: seq<Signature>)
    ensures AllDirect(FreshDirect(incoming, stored), stored + FreshDirect(incoming, stored))
  {
    var f := FreshDirect(incoming, stored);
    forall i | 0 <= i < |f| ensures HasDirect(stored + f, f[i]) {
      assert (stored + f)[|stored| + i] == f[i];
    }
  }

  /**
   When the exchange comes to rest: a server that has merged the difference drops it on second
   sight iff, packet by packet, every signature was known or is represented in the merge.
   */
  lemma RestIff(db: Db, k: Key)
    requires CleanDb(db) && Clean(k) && k.fp in db
    ensures var a := db[k.fp];
            Step(db[k.fp := MergedKey(a, k)], DeltaKey(a, k), {}, false).kept == [] <==>
            SettlesList(k.uids, a.uids) && SettlesList(k.subkeys, a.subkeys)
  {
    var a := db[k.fp];
    DroppedIff(db[k.fp := MergedKey(a, k)], DeltaKey(a, k), {}, false);
    FreshDirectAppended(k.sigs, a.sigs);
    EchoList(a.uids, k.uids);
    EchoList(a.subkeys, k.subkeys);
  }

  /** The n-th message between two servers that keep answering each other's update with its remainder. */
  function Bounce(here: Db, there: Db, msg: seq<Key>, n: nat): (r: seq<Key>)
    decreases n
  {
    if n == 0 then msg
    else
      var u := Update(there, msg, {}, false);
      Bounce(u.db, here, u.kept, n - 1)
  }

  /** A non-empty remainder that changes nothing is passed back and forth for ever. */
  lemma {:induction false} StaleBounces(db: Db, k: Key, n: nat)
    requires CleanDb(db) && Clean(k)
    requires var s := Step(db, k, {}, false); s.db == db
    ensures var s := Step(db, k, {}, false); Bounce(db, db, s.kept, n) == s.kept
    decreases n
  {
    var s := Step(db, k, {}, false);
    ReplayOne(db, k, {}, false);
    if n > 0 {
      StaleBounces(db, k, n - 1);
    }
  }

  lemma SinglePacket(sa: SignedPacket, sb: SignedPacket)
    requires SamePacket(sa.packet, sb.packet)
    ensures MergedList([sa], [sb]) == [SignedPacket(sa.packet, MergeSigs(sa.sigs, sb.sigs))]
    ensures DeltaList([sb], [sa]) == ReducedBy(sb, sa.sigs)
  {
    assert Lookup([sb], sa.packet) == Present(sb.sigs) && Lookup([sa], sb.packet) == Present(sa.sigs);
    assert Unseen([sb], [sa]) == [];
    assert MergedPackets([sa], [sb]) == [MergedPacket(sa, [sb])];
  }

  /** Such a remainder exists: an older certification by a signer whose newer one is stored. */
  lemma StaleExample(fp: Fingerprint, uid: Packet, stored: Signature, stale: Signature, n: nat)
    requires stored.version == stale.version == 4 && stored.sigtype == stale.sigtype == 0x10
    requires stored.issuer == stale.issuer == 7 && stored.created == 20 && stale.created == 10
    ensures var a := Key(fp, Packet(PACKET_PUBLICKEY, false, [4]), false, [], [SignedPacket(uid, [stored])], []);
            var b := a.(uids := [SignedPacket(uid, [stale])]);
            && Clean(a) && Clean(b)
            && Step(map[fp := a], b, {}, false) == Run(map[fp := a], [b], 0)
            && Bounce(map[fp := a], map[fp := a], [b], n) == [b]
  {
    var a := Key(fp, Packet(PACKET_PUBLICKEY, false, [4]), false, [], [SignedPacket(uid, [stored])], []);
    var b := a.(uids := [SignedPacket(uid, [stale])]);
    StaleMerge(a, b, stored, stale);
    StaleStep(map[fp := a], a, b);
    StaleBounces(map[fp := a], b, n);
  }

  lemma StaleStep(db: Db, a: Key, b: Key)
    requires b.fp in db && db[b.fp] == a && MergedKey(a, b) == a && DeltaKey(a, b) == b && !Bare(b)
    ensures Step(db, b, {}, false) == Run(db, [b], 0)
  {
    assert db[b.fp := a] == db;
  }

  lemma StaleMerge(a: Key, b: Key, stored: Signature, stale: Signature)
    requires stored.version == stale.version && stored.sigtype == stale.sigtype && !IsRevocation(stored.sigtype)
    requires stored.issuer == stale.issuer != 0 && stale.created < stored.created
    requires a.sigs == [] && a.subkeys == [] && |a.uids| == 1 && a.uids[0].sigs == [stored]
    requires b == a.(uids := [SignedPacket(a.uids[0].packet, [stale])])
    ensures MergedKey(a, b) == a && DeltaKey(a, b) == b
  {
    assert Superseded([stored], stale) by {
      assert Beats([stored][0], stale, true);
    }
    UnchangedIff([stored], [stale]);
    SinglePacket(a.uids[0], b.uids[0]);
    assert Fresh([stale], [stored]) == [stale];
    assert a.uids == [a.uids[0]] && MergedList([], []) == [];
  }
}
