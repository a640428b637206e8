/** The loops of merge_signed_packets and merge_keys, over lists held in object fields. */
module PublicKeys {
  import opened Packets
  import opened SigDedupe
  import opened Merge

  lemma MergedPacketsSnoc(stored: seq<SignedPacket>, i: nat, incoming: seq<SignedPacket>)
    requires i < |stored|
    ensures MergedPackets(stored[..i + 1], incoming) ==
            MergedPackets(stored[..i], incoming) + [MergedPacket(stored[i], incoming)]
  {
  }

  lemma DistinctPrefix(stored: seq<SignedPacket>, i: nat)
    requires i < |stored| && DistinctPackets(stored)
    ensures !Has(stored[..i], stored[i].packet)
  {
    assert forall k | 0 <= k < i :: !SamePacket(stored[..i][k].packet, stored[i].packet);
  }

  lemma {:induction false} UnseenSnoc(incoming: seq<SignedPacket>, n: SignedPacket, stored: seq<SignedPacket>)
    ensures Unseen(incoming + [n], stored) == Unseen(incoming, stored) + if Has(stored, n.packet) then [] else [n]
  {
    if incoming != [] {
      assert (incoming + [n])[1..] == incoming[1..] + [n];
      UnseenSnoc(incoming[1..], n, stored);
    }
  }

  lemma {:induction false} UnseenIn(incoming: seq<SignedPacket>, stored: seq<SignedPacket>, p: Packet)
    ensures Has(Unseen(incoming, stored), p) ==> Has(incoming, p) && !Has(stored, p)
    ensures Has(incoming, p) && !Has(stored, p) ==> Has(Unseen(incoming, stored), p)
  {
    if incoming != [] {
      UnseenIn(incoming[1..], stored, p);
      var front := if Has(stored, incoming[0].packet) then [] else [incoming[0]];
      HasCons(front, Unseen(incoming[1..], stored), p);
      if SamePacket(incoming[0].packet, p) {
        FindSignedSame(stored, incoming[0].packet, p);
      }
    }
  }

  lemma {:induction false} HasConcat(a: seq<SignedPacket>, b: seq<SignedPacket>, p: Packet)
    ensures Has(a + b, p) <==> Has(a, p) || Has(b, p)
  {
    if a == [] {
      assert a + b == b;
    } else {
      assert (a + b)[1..] == a[1..] + b;
      HasConcat(a[1..], b, p);
    }
  }

  lemma {:induction false} HasMerged(stored: seq<SignedPacket>, incoming: seq<SignedPacket>, p: Packet)
    ensures FindSigned(MergedPackets(stored, incoming), p) == FindSigned(stored, p)
  {
    if stored != [] {
      HasMerged(stored[1..], incoming, p);
      assert MergedPackets(stored, incoming)[1..] == MergedPackets(stored[1..], incoming);
      assert MergedPacket(stored[0], incoming).packet == stored[0].packet;
    }
  }

  /** How far the first loop of merge_signed_packets has got after `i` stored packets. */
  ghost function MergedUpTo(stored: seq<SignedPacket>, incoming: seq<SignedPacket>, i: nat): (r: seq<SignedPacket>)
    requires i <= |stored|
    ensures |r| == |stored| && forall k | i <= k < |r| :: r[k] == stored[k]
  {
    MergedPackets(stored[..i], incoming) + stored[i..]
  }

  /** A stored packet finds on the difference list what it would find on the incoming one. */
  lemma MergedStep(stored: seq<SignedPacket>, incoming: seq<SignedPacket>, i: nat)
    requires i < |stored| && !Has(stored[..i], stored[i].packet)
    ensures MergedUpTo(stored, incoming, i + 1) ==
            MergedUpTo(stored, incoming, i)[i := MergedPacket(stored[i], DeltaList(incoming, stored[..i]))]
  {
    MergedPacketsSnoc(stored, i, incoming);
    DeltaFinds(incoming, stored[..i], stored[i].packet);
  }

  lemma CommonStep(stored: seq<SignedPacket>, incoming: seq<SignedPacket>, i: nat)
    requires i < |stored| && DistinctPackets(stored) && DistinctPackets(incoming)
    ensures var rest := DeltaList(incoming, stored[..i]);
            && MergedUpTo(stored, incoming, i + 1) ==
               MergedUpTo(stored, incoming, i)[i := MergedPacket(stored[i], rest)]
            && DeltaList(incoming, stored[..i + 1]) == Thinned(rest, stored[i])
  {
    DistinctPrefix(stored, i);
    MergedStep(stored, incoming, i);
    DeltaStep(incoming, stored[..i], stored[i]);
    assert stored[..i + 1] == stored[..i] + [stored[i]];
  }

  /** First loop of merge_signed_packets: every stored packet takes what it lacks and thins out the rest. */
  method MergeCommon(stored: seq<SignedPacket>, incoming: seq<SignedPacket>)
    returns (merged: seq<SignedPacket>, rest: seq<SignedPacket>)
    ensures |merged| == |stored|
    ensures DistinctPackets(stored) && DistinctPackets(incoming) ==>
              merged == MergedPackets(stored, incoming) && rest == DeltaList(incoming, stored)
  {
    ghost var ok := DistinctPackets(stored) && DistinctPackets(incoming);
    merged, rest := stored, incoming;
    DeltaOfNone(incoming);
    for i := 0 to |stored|
      invariant |merged| == |stored| && merged[i..] == stored[i..]
      invariant ok ==> merged == MergedUpTo(stored, incoming, i) && rest == DeltaList(incoming, stored[..i])
    {
      if ok {
        CommonStep(stored, incoming, i);
      }
      var o := stored[i];
      assert merged[i..][0] == o;
      var j := FindSigned(rest, o.packet);
      if j < |rest| {
        merged := merged[i := SignedPacket(o.packet, MergeSigs(o.sigs, rest[j].sigs))];
        rest := ThinnedAt(rest, j, o.sigs);
      }
      assert merged[i + 1..] == stored[i + 1..];
    }
    assert stored[..|stored|] == stored;
  }

  lemma {:induction false} DeltaOfNone(incoming: seq<SignedPacket>)
    ensures DeltaList(incoming, []) == incoming
  {
    if incoming != [] {
      DeltaOfNone(incoming[1..]);
    }
  }

  /** The second loop's test sees a packet as missing exactly when it was not stored. */
  lemma AppendStep(stored: seq<SignedPacket>, incoming: seq<SignedPacket>, rest: seq<SignedPacket>, i: nat)
    requires i < |rest| && DistinctPackets(rest)
    ensures var merged := MergedPackets(stored, incoming) + Unseen(rest[..i], stored);
            MergedPackets(stored, incoming) + Unseen(rest[..i + 1], stored) ==
            if Has(merged, rest[i].packet) then merged else merged + [rest[i]]
  {
    DistinctPrefix(rest, i);
    assert rest[..i + 1] == rest[..i] + [rest[i]];
    AppendOne(stored, incoming, rest[..i], rest[i]);
  }

  lemma AppendOne(stored: seq<SignedPacket>, incoming: seq<SignedPacket>, front: seq<SignedPacket>, n: SignedPacket)
    requires !Has(front, n.packet)
    ensures var merged := MergedPackets(stored, incoming) + Unseen(front, stored);
            MergedPackets(stored, incoming) + Unseen(front + [n], stored) ==
            if Has(merged, n.packet) then merged else merged + [n]
  {
    HasConcat(MergedPackets(stored, incoming), Unseen(front, stored), n.packet);
    HasMerged(stored, incoming, n.packet);
    UnseenIn(front, stored, n.packet);
    UnseenSnoc(front, n, stored);
  }

  /** Second loop of merge_signed_packets: whatever is still missing goes to the tail. */
  method AppendMissing(common: seq<SignedPacket>, rest: seq<SignedPacket>,
                       ghost stored: seq<SignedPacket>, ghost incoming: seq<SignedPacket>)
    returns (merged: seq<SignedPacket>)
    ensures DistinctPackets(rest) && common == MergedPackets(stored, incoming) ==>
              merged == common + Unseen(rest, stored)
  {
    ghost var ok := DistinctPackets(rest) && common == MergedPackets(stored, incoming);
    merged := common;
    for i := 0 to |rest|
      invariant ok ==> merged == common + Unseen(rest[..i], stored)
    {
      if ok {
        AppendStep(stored, incoming, rest, i);
      }
      if !Has(merged, rest[i].packet) {
        merged := merged + [rest[i]];
      }
    }
    assert rest[..|rest|] == rest;
  }

  /**
   merge_signed_packets. On lists that name no packet twice (what remove_signed_packet assumes)
   the results are the merged list and the difference list.
   */
  method MergeSignedPackets(stored: seq<SignedPacket>, incoming: seq<SignedPacket>)
    returns (merged: seq<SignedPacket>, rest: seq<SignedPacket>)
    ensures DistinctPackets(stored) && DistinctPackets(incoming) ==>
              merged == MergedList(stored, incoming) && rest == DeltaList(incoming, stored)
  {
    merged, rest := MergeCommon(stored, incoming);
    if DistinctPackets(stored) && DistinctPackets(incoming) {
      DeltaDistinct(incoming, stored);
      UnseenOfDelta(incoming, stored);
    }
    merged := AppendMissing(merged, rest, stored, incoming);
  }

  class PublicKey {
    const fp: Fingerprint
    const primary: Packet
    var revoked: bool
    var sigs: seq<Signature>
    var uids: seq<SignedPacket>
    var subkeys: seq<SignedPacket>

    constructor (k: Key)
      ensures Value() == k
    {
      fp, primary := k.fp, k.primary;
      revoked, sigs, uids, subkeys := k.revoked, k.sigs, k.uids, k.subkeys;
    }

    function Value(): (k: Key)
      reads this
    {
      Key(fp, primary, revoked, sigs, uids, subkeys)
    }
  }

  lemma {:induction false} FreshDirectSnoc(incoming: seq<Signature>, sig: Signature, stored: seq<Signature>)
    ensures FreshDirect(incoming + [sig], stored) ==
            FreshDirect(incoming, stored) + if HasDirect(stored, sig) then [] else [sig]
  {
    if incoming != [] {
      assert (incoming + [sig])[1..] == incoming[1..] + [sig];
      FreshDirectSnoc(incoming[1..], sig, stored);
    }
  }

  /** The direct-signature loop of merge_keys. */
  method KeepFreshDirect(incoming: seq<Signature>, stored: seq<Signature>) returns (rest: seq<Signature>)
    ensures rest == FreshDirect(incoming, stored)
  {
    rest := [];
    for i := 0 to |incoming|
      invariant rest == FreshDirect(incoming[..i], stored)
    {
      assert incoming[..i + 1] == incoming[..i] + [incoming[i]];
      FreshDirectSnoc(incoming[..i], incoming[i], stored);
      if !HasDirect(stored, incoming[i]) {
        rest := rest + [incoming[i]];
      }
    }
    assert incoming[..|incoming|] == incoming;
  }

  /** merge_keys: the merged key ends up in `a`, the difference in `b`. */
  method MergeKeys(a: PublicKey, b: PublicKey) returns (rc: int)
    requires a != b
    modifies a, b
    ensures rc == if KeyId(a.fp) == KeyId(b.fp) then 0 else -1
    ensures rc == 0 && old(DistinctKey(a.Value()) && DistinctKey(b.Value())) ==>
              && a.Value() == MergedKey(old(a.Value()), old(b.Value()))
              && b.Value() == DeltaKey(old(a.Value()), old(b.Value()))
    ensures rc != 0 ==>
              var revoked := old(a.revoked) || old(b.revoked);
              && a.Value() == old(a.Value()).(revoked := revoked)
              && b.Value() == old(b.Value()).(revoked := revoked)
  {
    rc := 0;
    if KeyId(a.fp) != KeyId(b.fp) {
      rc := -1;
    } else {
      var rest := KeepFreshDirect(b.sigs, a.sigs);
      b.sigs := rest;
      a.sigs := a.sigs + b.sigs;
      var merged, left := MergeSignedPackets(a.uids, b.uids);
      a.uids, b.uids := merged, left;
      merged, left := MergeSignedPackets(a.subkeys, b.subkeys);
      a.subkeys, b.subkeys := merged, left;
    }
    if a.revoked || b.revoked {
      a.revoked, b.revoked := true, true;
    }
  }
}
