/**
 What merging and collapsing leave, said without the definitions they are built from: which positions
 stay, in terms of versions, types, issuers, times and octets alone.
 */
module MergeShape {
  import opened Sequences
  import opened Packets
  import opened SigDedupe
  import opened Merge
  import opened PublicKeys
  import opened KeyDb

  // ------------------------------------------------------------------- the collapse

  /** Same version, type and issuer. */
  predicate SameClass(a: Signature, b: Signature) {
    a.version == b.version && a.sigtype == b.sigtype && a.issuer == b.issuer
  }

  /**
   An entry of unknown issuer stays. A revocation stays if it is the first of its class; anything else
   if nothing of its class is newer and nothing before it is as new.
   */
  ghost predicate Stays(s: seq<Signature>, k: nat)
    requires k < |s|
  {
    || s[k].issuer == 0
    || if s[k].sigtype == 0x20 || s[k].sigtype == 0x28 || s[k].sigtype == 0x30 then
         forall i | 0 <= i < k :: !SameClass(s[i], s[k])
       else
         && (forall i | 0 <= i < |s| && SameClass(s[i], s[k]) :: s[i].created <= s[k].created)
         && (forall i | 0 <= i < k && SameClass(s[i], s[k]) :: s[i].created < s[k].created)
  }

  lemma StaysIff(s: seq<Signature>, k: nat)
    requires k < |s|
    ensures Survives(s, k) <==> Stays(s, k)
  {
    if Survives(s, k) && s[k].issuer != 0 {
      forall i | 0 <= i < |s| && i != k && SameClass(s[i], s[k]) ensures !Beats(s[i], s[k], i < k) {
      }
    }
  }

  lemma {:induction false} SurvivorsPicked(s: seq<Signature>, k: nat) returns (pos: seq<nat>)
    requires k <= |s|
    ensures Picks(SurvivorsFrom(s, k), s, pos)
    ensures forall i: nat :: i in pos <==> k <= i < |s| && Survives(s, i)
    decreases |s| - k
  {
    if k == |s| {
      pos := [];
    } else {
      pos := SurvivorsPicked(s, k + 1);
      if Survives(s, k) {
        assert forall m | 0 <= m < |pos| :: pos[m] in pos;
        PicksHead(SurvivorsFrom(s, k + 1), s, pos, k);
        pos := [k] + pos;
      } else {
        assert [] + SurvivorsFrom(s, k + 1) == SurvivorsFrom(s, k + 1);
      }
    }
  }

  /** dedupe_sigs keeps exactly these positions, in order. */
  lemma CollapseKeeps(s: seq<Signature>) returns (pos: seq<nat>)
    ensures Picks(Survivors(s), s, pos)
    ensures forall i: nat :: i in pos <==> i < |s| && Stays(s, i)
  {
    pos := SurvivorsPicked(s, 0);
    forall i: nat | i < |s| ensures Survives(s, i) <==> Stays(s, i) {
      StaysIff(s, i);
    }
  }

  /** Two revocations by one issuer: the first one stays. Two certifications: the newer one. */
  lemma CollapsePair(a: Signature, b: Signature)
    requires a.version == b.version == 4 && a.issuer == b.issuer == 7 && a.created < b.created && a.sigtype == b.sigtype
    ensures a.sigtype == 0x30 ==> Survivors([a, b]) == [a]
    ensures a.sigtype == 0x13 ==> Survivors([a, b]) == [b]
  {
    var s := [a, b];
    assert SameClass(s[0], s[1]) && SameClass(s[1], s[0]);
    StaysIff(s, 0);
    StaysIff(s, 1);
    assert SurvivorsFrom(s, 2) == [];
    assert SurvivorsFrom(s, 1) == (if Survives(s, 1) then [b] else []) + [];
  }

  // ------------------------------------------------------------------- one packet's signatures

  /** compare_signatures finds the signature on the list. */
  ghost predicate Listed(sig: Signature, stored: seq<Signature>) {
    exists i | 0 <= i < |stored| ::
      && stored[i].version == sig.version && (sig.version == 4 ==> stored[i].sigtype == sig.sigtype)
      && stored[i].created == sig.created && stored[i].issuer == sig.issuer
  }

  lemma KnownIff(stored: seq<Signature>, sig: Signature)
    ensures Known(stored, sig) <==> Listed(sig, stored)
  {
    if Known(stored, sig) {
      var i :| 0 <= i < |stored| && SameSignature(stored[i], sig);
    }
    if Listed(sig, stored) {
      var i :| 0 <= i < |stored| && stored[i].version == sig.version
               && (sig.version == 4 ==> stored[i].sigtype == sig.sigtype)
               && stored[i].created == sig.created && stored[i].issuer == sig.issuer;
      assert SameSignature(stored[i], sig);
    }
  }

  /** Thinning leaves exactly the incoming signatures that are not listed. */
  lemma {:induction false} FreshPicked(incoming: seq<Signature>, stored: seq<Signature>) returns (pos: seq<nat>)
    ensures Picks(Fresh(incoming, stored), incoming, pos)
    ensures forall i: nat :: i in pos <==> i < |incoming| && !Listed(incoming[i], stored)
  {
    if incoming == [] {
      pos := [];
    } else {
      pos := FreshPicked(incoming[1..], stored);
      KnownIff(stored, incoming[0]);
      if Listed(incoming[0], stored) {
        pos := PicksSkip(Fresh(incoming[1..], stored), incoming, pos);
        assert Fresh(incoming, stored) == Fresh(incoming[1..], stored);
      } else {
        pos := PicksKeep(Fresh(incoming[1..], stored), incoming, pos);
      }
    }
  }

  /** merge_packet_sigs: the stored signatures, then the incoming ones not listed, collapsed. */
  lemma MergeSigsShape(stored: seq<Signature>, incoming: seq<Signature>)
    returns (news: seq<Signature>, from: seq<nat>, pos: seq<nat>)
    ensures Picks(news, incoming, from) && forall i: nat :: i in from <==> i < |incoming| && !Listed(incoming[i], stored)
    ensures var all := stored + news;
            && Picks(MergeSigs(stored, incoming), all, pos)
            && forall i: nat :: i in pos <==> i < |all| && Stays(all, i)
  {
    news := Fresh(incoming, stored);
    from := FreshPicked(incoming, stored);
    pos := CollapseKeeps(stored + news);
  }

  // ------------------------------------------------------------------- packets

  /** A packet of that tag and those octets is on the list. */
  ghost predicate OnList(list: seq<SignedPacket>, tag: nat, data: seq<byte>) {
    exists i | 0 <= i < |list| :: list[i].packet.tag == tag && list[i].packet.data == data
  }

  lemma HasIff(list: seq<SignedPacket>, p: Packet)
    ensures Has(list, p) <==> OnList(list, p.tag, p.data)
  {
    if OnList(list, p.tag, p.data) {
      var i :| 0 <= i < |list| && list[i].packet.tag == p.tag && list[i].packet.data == p.data;
      FindSignedFirst(list, p, i);
    }
  }

  lemma {:induction false} UnseenPicked(incoming: seq<SignedPacket>, stored: seq<SignedPacket>) returns (pos: seq<nat>)
    ensures Picks(Unseen(incoming, stored), incoming, pos)
    ensures forall i: nat :: i in pos <==>
              i < |incoming| && !OnList(stored, incoming[i].packet.tag, incoming[i].packet.data)
  {
    if incoming == [] {
      pos := [];
    } else {
      var p := incoming[0].packet;
      pos := UnseenPicked(incoming[1..], stored);
      HasIff(stored, p);
      if OnList(stored, p.tag, p.data) {
        pos := PicksSkip(Unseen(incoming[1..], stored), incoming, pos);
        assert Unseen(incoming, stored) == Unseen(incoming[1..], stored);
      } else {
        pos := PicksKeep(Unseen(incoming[1..], stored), incoming, pos);
      }
    }
  }

  /**
   merge_signed_packets: the stored packets in their places, then the incoming ones that were not
   stored, in their order and with the signatures they came with.
   */
  lemma MergedListShape(stored: seq<SignedPacket>, incoming: seq<SignedPacket>) returns (pos: seq<nat>)
    ensures var m := MergedList(stored, incoming);
            && |m| >= |stored| && (forall i | 0 <= i < |stored| :: m[i].packet == stored[i].packet)
            && Picks(m[|stored|..], incoming, pos)
    ensures forall i: nat :: i in pos <==>
              i < |incoming| && !OnList(stored, incoming[i].packet.tag, incoming[i].packet.data)
  {
    pos := UnseenPicked(incoming, stored);
    assert MergedList(stored, incoming)[|stored|..] == Unseen(incoming, stored);
  }

  /** Entry j is the first on the list of that tag and those octets. */
  ghost predicate FirstOnList(list: seq<SignedPacket>, j: nat, p: Packet) {
    j < |list| && list[j].packet.tag == p.tag && list[j].packet.data == p.data && !OnList(list[..j], p.tag, p.data)
  }

  /** A stored packet takes the signatures of the first incoming one like it, or stays as it is. */
  lemma MergedPacketShape(stored: seq<SignedPacket>, incoming: seq<SignedPacket>, i: nat, j: nat)
    requires i < |stored|
    ensures !OnList(incoming, stored[i].packet.tag, stored[i].packet.data) ==>
              MergedList(stored, incoming)[i] == stored[i]
    ensures FirstOnList(incoming, j, stored[i].packet) ==>
              MergedList(stored, incoming)[i].sigs == MergeSigs(stored[i].sigs, incoming[j].sigs)
  {
    var p := stored[i].packet;
    HasIff(incoming, p);
    assert MergedList(stored, incoming)[i] == MergedPacket(stored[i], incoming);
    if FirstOnList(incoming, j, p) {
      FindSignedFirst(incoming, p, j);
      assert forall m | 0 <= m < j :: incoming[..j][m] == incoming[m];
    }
  }

  // ------------------------------------------------------------------- direct signatures

  /** A signature packet of those octets is among them. */
  ghost predicate Direct(sigs: seq<Signature>, p: Packet) {
    exists i | 0 <= i < |sigs| :: sigs[i].packet.tag == p.tag && sigs[i].packet.data == p.data
  }

  lemma DirectIff(sigs: seq<Signature>, s: Signature)
    ensures HasDirect(sigs, s) <==> Direct(sigs, s.packet)
  {
    if HasDirect(sigs, s) {
      var i :| 0 <= i < |sigs| && SamePacket(sigs[i].packet, s.packet);
    }
    if Direct(sigs, s.packet) {
      var i :| 0 <= i < |sigs| && sigs[i].packet.tag == s.packet.tag && sigs[i].packet.data == s.packet.data;
      assert SamePacket(sigs[i].packet, s.packet);
    }
  }

  lemma {:induction false} FreshDirectPicked(incoming: seq<Signature>, stored: seq<Signature>) returns (pos: seq<nat>)
    ensures Picks(FreshDirect(incoming, stored), incoming, pos)
    ensures forall i: nat :: i in pos <==> i < |incoming| && !Direct(stored, incoming[i].packet)
  {
    if incoming == [] {
      pos := [];
    } else {
      pos := FreshDirectPicked(incoming[1..], stored);
      DirectIff(stored, incoming[0]);
      if Direct(stored, incoming[0].packet) {
        pos := PicksSkip(FreshDirect(incoming[1..], stored), incoming, pos);
        assert FreshDirect(incoming, stored) == FreshDirect(incoming[1..], stored);
      } else {
        pos := PicksKeep(FreshDirect(incoming[1..], stored), incoming, pos);
      }
    }
  }

  /**
   merge_keys: the stored key keeps its direct signatures and gains those of the other key that it did
   not have, behind them and in their order; the difference has just these. Either is revoked afterwards
   if one of them was.
   */
  lemma MergedDirect(a: Key, b: Key) returns (pos: seq<nat>)
    ensures a.sigs <= MergedKey(a, b).sigs
    ensures Picks(MergedKey(a, b).sigs[|a.sigs|..], b.sigs, pos) && Picks(DeltaKey(a, b).sigs, b.sigs, pos)
    ensures forall i: nat :: i in pos <==> i < |b.sigs| && !Direct(a.sigs, b.sigs[i].packet)
    ensures MergedKey(a, b).fp == a.fp && MergedKey(a, b).primary == a.primary
    ensures MergedKey(a, b).revoked == DeltaKey(a, b).revoked == (a.revoked || b.revoked)
  {
    pos := FreshDirectPicked(b.sigs, a.sigs);
    assert MergedKey(a, b).sigs[|a.sigs|..] == FreshDirect(b.sigs, a.sigs);
  }

  lemma DirectConcat(x: seq<Signature>, y: seq<Signature>, p: Packet)
    ensures Direct(x + y, p) <==> Direct(x, p) || Direct(y, p)
  {
    var all := x + y;
    if Direct(x, p) {
      var i :| 0 <= i < |x| && x[i].packet.tag == p.tag && x[i].packet.data == p.data;
      assert all[i] == x[i];
    }
    if Direct(y, p) {
      var i :| 0 <= i < |y| && y[i].packet.tag == p.tag && y[i].packet.data == p.data;
      assert all[|x| + i] == y[i];
    }
  }

  /** A direct signature is on the merged key exactly if it was on either. */
  lemma DirectIsUnion(a: Key, b: Key, p: Packet)
    ensures Direct(MergedKey(a, b).sigs, p) <==> Direct(a.sigs, p) || Direct(b.sigs, p)
  {
    var pos := MergedDirect(a, b);
    var m, f := MergedKey(a, b).sigs, MergedKey(a, b).sigs[|a.sigs|..];
    assert m == a.sigs + f;
    DirectConcat(a.sigs, f, p);
    if Direct(f, p) {
      var i :| 0 <= i < |f| && f[i].packet.tag == p.tag && f[i].packet.data == p.data;
      assert b.sigs[pos[i]] == f[i];
    }
    if Direct(b.sigs, p) && !Direct(a.sigs, p) {
      var i :| 0 <= i < |b.sigs| && b.sigs[i].packet.tag == p.tag && b.sigs[i].packet.data == p.data;
      assert i in pos;
      var n :| 0 <= n < |pos| && pos[n] == i;
      assert f[n] == b.sigs[i];
    }
  }

  // ------------------------------------------------------------------- whole runs

  /** A turn of the update touches no other key; a new key is stored and passed on as it came. */
  lemma StepTouches(db: Db, k: Key, banned: set<Fingerprint>, updateOnly: bool, gp: Fingerprint)
    ensures var s := Step(db, k, banned, updateOnly);
            && (gp != k.fp ==> (gp in s.db <==> gp in db) && (gp in db ==> s.db[gp] == db[gp]))
            && (k.fp in banned ==> s.db == db && s.kept == [])
            && (k.fp !in banned && k.fp !in db && !updateOnly ==> k.fp in s.db && s.db[k.fp] == k && s.kept == [k])
  {
  }

  ghost predicate StoredDirect(db: Db, fp: Fingerprint, p: Packet) {
    fp in db && Direct(db[fp].sigs, p)
  }

  ghost predicate OfferedDirect(keys: seq<Key>, banned: set<Fingerprint>, fp: Fingerprint, p: Packet) {
    exists i | 0 <= i < |keys| :: keys[i].fp == fp && fp !in banned && Direct(keys[i].sigs, p)
  }

  lemma BareDirect(a: Key, b: Key, p: Packet)
    requires Bare(DeltaKey(a, b)) && Direct(b.sigs, p)
    ensures Direct(a.sigs, p)
  {
    var pos := MergedDirect(a, b);
    var i :| 0 <= i < |b.sigs| && b.sigs[i].packet.tag == p.tag && b.sigs[i].packet.data == p.data;
    assert i !in pos;
  }

  lemma StepDirect(db: Db, k: Key, banned: set<Fingerprint>, fp: Fingerprint, p: Packet)
    ensures StoredDirect(Step(db, k, banned, false).db, fp, p) <==>
            StoredDirect(db, fp, p) || (k.fp == fp && fp !in banned && Direct(k.sigs, p))
  {
    if k.fp == fp && fp in db && fp !in banned {
      if Bare(DeltaKey(db[fp], k)) {
        if Direct(k.sigs, p) {
          BareDirect(db[fp], k, p);
        }
      } else {
        DirectIsUnion(db[fp], k, p);
      }
    }
  }

  lemma OfferedCons(keys: seq<Key>, banned: set<Fingerprint>, fp: Fingerprint, p: Packet)
    requires keys != []
    ensures OfferedDirect(keys, banned, fp, p) <==>
            (keys[0].fp == fp && fp !in banned && Direct(keys[0].sigs, p)) || OfferedDirect(keys[1..], banned, fp, p)
  {
    assert keys == [keys[0]] + keys[1..];
  }

  /**
   A run of generic_update_keys joins the direct signatures too: one is on a stored key afterwards
   exactly if it was before or a key on the list brought it.
   */
  lemma {:induction false} UpdateJoinsDirect(db: Db, keys: seq<Key>, banned: set<Fingerprint>, fp: Fingerprint, p: Packet)
    ensures StoredDirect(Update(db, keys, banned, false).db, fp, p) <==>
            StoredDirect(db, fp, p) || OfferedDirect(keys, banned, fp, p)
    decreases |keys|
  {
    if keys != [] {
      StepDirect(db, keys[0], banned, fp, p);
      OfferedCons(keys, banned, fp, p);
      UpdateJoinsDirect(Turn(banned, false)(db, keys[0]).db, keys[1..], banned, fp, p);
    }
  }

  /** Whatever comes later, and in either mode, the direct signatures of a stored key stay where they are. */
  lemma {:induction false} DirectStays(db: Db, keys: seq<Key>, banned: set<Fingerprint>, updateOnly: bool, fp: Fingerprint)
    requires fp in db
    ensures var r := Update(db, keys, banned, updateOnly).db; fp in r && db[fp].sigs <= r[fp].sigs
    decreases |keys|
  {
    if keys != [] {
      var next := Turn(banned, updateOnly)(db, keys[0]).db;
      if keys[0].fp in db {
        var pos := MergedDirect(db[keys[0].fp], keys[0]);
      }
      assert fp in next && db[fp].sigs <= next[fp].sigs;
      DirectStays(next, keys[1..], banned, updateOnly, fp);
    }
  }
}
