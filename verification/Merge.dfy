/** merge.c above the level of one signature list. */
module Merge {
  import opened Packets
  import opened SigDedupe

  /** compare_signatures: the signature type is only looked at for version 4. */
  predicate SameSignature(a: Signature, b: Signature) {
    && a.version == b.version
    && (a.version == 4 ==> a.sigtype == b.sigtype)
    && a.created == b.created
    && a.issuer == b.issuer
  }

  /** find_signature. */
  predicate Known(stored: seq<Signature>, sig: Signature) {
    exists i | 0 <= i < |stored| :: SameSignature(stored[i], sig)
  }

  /** The incoming signatures that the stored list does not have yet. */
  function Fresh(incoming: seq<Signature>, stored: seq<Signature>): (r: seq<Signature>) {
    if incoming == [] then []
    else (if Known(stored, incoming[0]) then [] else [incoming[0]]) + Fresh(incoming[1..], stored)
  }

  /** What merge_packet_sigs leaves on the stored packet. */
  function MergeSigs(stored: seq<Signature>, incoming: seq<Signature>): (r: seq<Signature>) {
    Survivors(stored + Fresh(incoming, stored))
  }

  /** The thinning loop's goal seen from position `i`: what is before it stays. */
  ghost function FreshFrom(s: seq<Signature>, i: nat, stored: seq<Signature>): (r: seq<Signature>)
    requires i <= |s|
    ensures i == 0 ==> r == Fresh(s, stored)
    ensures i == |s| ==> r == s
  {
    s[..i] + Fresh(s[i..], stored)
  }

  lemma FreshStep(s: seq<Signature>, i: nat, stored: seq<Signature>)
    requires i < |s|
    ensures FreshFrom(s, i, stored) ==
            if Known(stored, s[i]) then FreshFrom(Without(s, i), i, stored) else FreshFrom(s, i + 1, stored)
  {
    assert Without(s, i)[i..] == s[i..][1..] && Without(s, i)[..i] == s[..i];
    assert s[i + 1..] == s[i..][1..];
  }

  // ---------------------------------------------------------------- signed packet lists

  /** find_signed_packet: position of the first equal packet, or the length. */
  function FindSigned(list: seq<SignedPacket>, p: Packet): (i: nat)
    ensures i <= |list|
    ensures i < |list| ==> SamePacket(list[i].packet, p)
  {
    if list == [] || SamePacket(list[0].packet, p) then 0 else 1 + FindSigned(list[1..], p)
  }

  lemma {:induction false} FindSignedFirst(list: seq<SignedPacket>, p: Packet, k: nat)
    requires k < |list| && SamePacket(list[k].packet, p)
    ensures FindSigned(list, p) <= k
  {
    if !SamePacket(list[0].packet, p) {
      FindSignedFirst(list[1..], p, k - 1);
    }
  }

  predicate Has(list: seq<SignedPacket>, p: Packet) {
    FindSigned(list, p) < |list|
  }

  /** No packet is listed twice. */
  ghost predicate DistinctPackets(list: seq<SignedPacket>) {
    forall i, j | 0 <= i < j < |list| :: !SamePacket(list[i].packet, list[j].packet)
  }

  lemma DistinctHead(list: seq<SignedPacket>, p: Packet)
    requires list != [] && DistinctPackets(list) && SamePacket(list[0].packet, p)
    ensures !Has(list[1..], p)
  {
    var j := FindSigned(list[1..], p);
    if j < |list| - 1 {
      assert SamePacket(list[0].packet, list[j + 1].packet);
    }
  }

  datatype Listed = Absent | Present(sigs: seq<Signature>)

  /** The signatures a list has for a packet. */
  function Lookup(list: seq<SignedPacket>, p: Packet): (r: Listed)
    ensures r.Present? <==> Has(list, p)
  {
    var j := FindSigned(list, p);
    if j < |list| then Present(list[j].sigs) else Absent
  }

  /** A stored packet together with what `incoming` adds to it. */
  function MergedPacket(o: SignedPacket, incoming: seq<SignedPacket>): (r: SignedPacket) {
    match Lookup(incoming, o.packet)
    case Present(sigs) => SignedPacket(o.packet, MergeSigs(o.sigs, sigs))
    case Absent => o
  }

  function MergedPackets(stored: seq<SignedPacket>, incoming: seq<SignedPacket>): (r: seq<SignedPacket>)
    ensures |r| == |stored|
    ensures forall i | 0 <= i < |r| :: r[i] == MergedPacket(stored[i], incoming)
  {
    if stored == [] then [] else [MergedPacket(stored[0], incoming)] + MergedPackets(stored[1..], incoming)
  }

  /** The incoming packets that are not stored at all. */
  function Unseen(incoming: seq<SignedPacket>, stored: seq<SignedPacket>): (r: seq<SignedPacket>) {
    if incoming == [] then []
    else (if Has(stored, incoming[0].packet) then [] else [incoming[0]]) + Unseen(incoming[1..], stored)
  }

  /** Merged list: every stored packet in place, then the unseen ones in order of arrival. */
  function MergedList(stored: seq<SignedPacket>, incoming: seq<SignedPacket>): (r: seq<SignedPacket>) {
    MergedPackets(stored, incoming) + Unseen(incoming, stored)
  }

  /** What is left of an incoming packet once the stored signatures are taken out: maybe nothing. */
  function ReducedBy(n: SignedPacket, sigs: seq<Signature>): (r: seq<SignedPacket>)
    ensures |r| <= 1 && (r != [] ==> r[0].packet == n.packet)
  {
    var f := Fresh(n.sigs, sigs);
    if f == [] then [] else [SignedPacket(n.packet, f)]
  }

  function Reduced(n: SignedPacket, stored: seq<SignedPacket>): (r: seq<SignedPacket>)
    ensures |r| <= 1 && (r != [] ==> r[0].packet == n.packet)
  {
    match Lookup(stored, n.packet)
    case Absent => [n]
    case Present(sigs) => ReducedBy(n, sigs)
  }

  /** The difference list merge_signed_packets leaves in place of `incoming`. */
  function DeltaList(incoming: seq<SignedPacket>, stored: seq<SignedPacket>): (r: seq<SignedPacket>) {
    if incoming == [] then [] else Reduced(incoming[0], stored) + DeltaList(incoming[1..], stored)
  }

  lemma {:induction false} FindSignedSnoc(list: seq<SignedPacket>, o: SignedPacket, p: Packet)
    ensures FindSigned(list + [o], p) ==
            if Has(list, p) then FindSigned(list, p) else if SamePacket(o.packet, p) then |list| else |list| + 1
  {
    if list != [] {
      assert (list + [o])[1..] == list[1..] + [o];
      FindSignedSnoc(list[1..], o, p);
    }
  }

  lemma {:induction false} DeltaIgnoresAbsent(incoming: seq<SignedPacket>, stored: seq<SignedPacket>, o: SignedPacket)
    requires !Has(incoming, o.packet)
    ensures DeltaList(incoming, stored + [o]) == DeltaList(incoming, stored)
  {
    if incoming != [] {
      ReducedIgnoresOther(incoming[0], stored, o);
      DeltaIgnoresAbsent(incoming[1..], stored, o);
    }
  }

  /** What the first loop does to the difference list when it comes to a stored packet's signatures. */
  function ThinnedAt(d: seq<SignedPacket>, j: nat, sigs: seq<Signature>): (r: seq<SignedPacket>)
    requires j <= |d|
  {
    if j == |d| then d else d[..j] + ReducedBy(d[j], sigs) + d[j + 1..]
  }

  function Thinned(d: seq<SignedPacket>, o: SignedPacket): (r: seq<SignedPacket>) {
    ThinnedAt(d, FindSigned(d, o.packet), o.sigs)
  }

  lemma {:induction false} FindSignedSame(list: seq<SignedPacket>, p: Packet, q: Packet)
    requires SamePacket(p, q)
    ensures FindSigned(list, p) == FindSigned(list, q)
  {
    if list != [] {
      FindSignedSame(list[1..], p, q);
    }
  }

  lemma FindSignedCons(front: seq<SignedPacket>, list: seq<SignedPacket>, p: Packet)
    requires |front| <= 1 && (front != [] ==> !SamePacket(front[0].packet, p))
    ensures FindSigned(front + list, p) == |front| + FindSigned(list, p)
  {
    if front == [] {
      assert front + list == list;
    } else {
      assert (front + list)[1..] == list;
    }
  }

  lemma ThinnedAtCons(front: seq<SignedPacket>, d: seq<SignedPacket>, j: nat, sigs: seq<Signature>)
    requires j <= |d|
    ensures ThinnedAt(front + d, |front| + j, sigs) == front + ThinnedAt(d, j, sigs)
  {
    if j < |d| {
      var x := ReducedBy(d[j], sigs);
      assert (front + d)[..|front| + j] == front + d[..j] && (front + d)[|front| + j + 1..] == d[j + 1..];
      assert (front + d[..j]) + x + d[j + 1..] == front + (d[..j] + x + d[j + 1..]);
    }
  }

  lemma DeltaStepHead(n: SignedPacket, rest: seq<SignedPacket>, stored: seq<SignedPacket>, o: SignedPacket)
    requires SamePacket(n.packet, o.packet) && !Has(stored, o.packet) && !Has(rest, o.packet)
    ensures Reduced(n, stored + [o]) + DeltaList(rest, stored + [o]) ==
            Thinned(Reduced(n, stored) + DeltaList(rest, stored), o)
  {
    FindSignedSame(stored, n.packet, o.packet);
    FindSignedSnoc(stored, o, n.packet);
    DeltaIgnoresAbsent(rest, stored, o);
    var tail := DeltaList(rest, stored);
    assert ([n] + tail)[..0] == [] && ([n] + tail)[1..] == tail;
    assert [] + ReducedBy(n, o.sigs) == ReducedBy(n, o.sigs);
    assert Lookup(stored + [o], n.packet) == Present(o.sigs);
  }

  lemma ReducedIgnoresOther(n: SignedPacket, stored: seq<SignedPacket>, o: SignedPacket)
    requires !SamePacket(n.packet, o.packet)
    ensures Reduced(n, stored + [o]) == Reduced(n, stored)
  {
    FindSignedSnoc(stored, o, n.packet);
  }

  lemma DeltaStepTail(n: SignedPacket, rest: seq<SignedPacket>, stored: seq<SignedPacket>, o: SignedPacket)
    requires !SamePacket(n.packet, o.packet)
    requires DeltaList(rest, stored + [o]) == Thinned(DeltaList(rest, stored), o)
    ensures Reduced(n, stored + [o]) + DeltaList(rest, stored + [o]) ==
            Thinned(Reduced(n, stored) + DeltaList(rest, stored), o)
  {
    var r, d := Reduced(n, stored), DeltaList(rest, stored);
    ReducedIgnoresOther(n, stored, o);
    FindSignedCons(r, d, o.packet);
    ThinnedAtCons(r, d, FindSigned(d, o.packet), o.sigs);
  }

  lemma DistinctTail(list: seq<SignedPacket>)
    requires list != [] && DistinctPackets(list)
    ensures DistinctPackets(list[1..])
  {
  }

  /** Thinning against one stored packet after the other builds the difference list. */
  lemma {:induction false} DeltaStep(incoming: seq<SignedPacket>, stored: seq<SignedPacket>, o: SignedPacket)
    requires DistinctPackets(incoming) && !Has(stored, o.packet)
    ensures DeltaList(incoming, stored + [o]) == Thinned(DeltaList(incoming, stored), o)
  {
    if incoming != [] {
      var n, rest := incoming[0], incoming[1..];
      if SamePacket(n.packet, o.packet) {
        DistinctHead(incoming, o.packet);
        DeltaStepHead(n, rest, stored, o);
      } else {
        DistinctTail(incoming);
        DeltaStep(rest, stored, o);
        DeltaStepTail(n, rest, stored, o);
      }
    }
  }

  /** A packet not stored before is still found on the difference list, with all its signatures. */
  lemma {:induction false} DeltaFinds(incoming: seq<SignedPacket>, stored: seq<SignedPacket>, p: Packet)
    requires !Has(stored, p)
    ensures Lookup(DeltaList(incoming, stored), p) == Lookup(incoming, p)
  {
    if incoming != [] {
      var n, rest := incoming[0], incoming[1..];
      if SamePacket(n.packet, p) {
        FindSignedSame(stored, n.packet, p);
        assert Reduced(n, stored) == [n];
      } else {
        DeltaFinds(rest, stored, p);
        FindSignedCons(Reduced(n, stored), DeltaList(rest, stored), p);
        assert Lookup(incoming, p) == Lookup(rest, p);
      }
    }
  }

  lemma HasCons(front: seq<SignedPacket>, list: seq<SignedPacket>, p: Packet)
    requires |front| <= 1
    ensures Has(front + list, p) <==> (front != [] && SamePacket(front[0].packet, p)) || Has(list, p)
  {
    if front == [] {
      assert front + list == list;
    } else {
      assert (front + list)[1..] == list;
    }
  }

  lemma DistinctCons(front: seq<SignedPacket>, list: seq<SignedPacket>)
    requires |front| <= 1 && DistinctPackets(list) && (front != [] ==> !Has(list, front[0].packet))
    ensures DistinctPackets(front + list)
  {
    var all: seq<SignedPacket> := front + list;
    forall i, j | 0 <= i < j < |all| ensures !SamePacket(all[i].packet, all[j].packet) {
      if i < |front| && SamePacket(all[i].packet, all[j].packet) {
        FindSignedFirst(list, front[0].packet, j - 1);
      }
    }
  }

  /** The difference list holds incoming packets only. */
  lemma {:induction false} DeltaHas(incoming: seq<SignedPacket>, stored: seq<SignedPacket>, p: Packet)
    requires Has(DeltaList(incoming, stored), p)
    ensures Has(incoming, p)
  {
    if incoming != [] {
      HasCons(Reduced(incoming[0], stored), DeltaList(incoming[1..], stored), p);
      if !SamePacket(incoming[0].packet, p) {
        DeltaHas(incoming[1..], stored, p);
      }
    }
  }

  lemma {:induction false} DeltaDistinct(incoming: seq<SignedPacket>, stored: seq<SignedPacket>)
    requires DistinctPackets(incoming)
    ensures DistinctPackets(DeltaList(incoming, stored))
  {
    if incoming != [] {
      var r, d := Reduced(incoming[0], stored), DeltaList(incoming[1..], stored);
      DeltaDistinct(incoming[1..], stored);
      if Has(d, incoming[0].packet) {
        DeltaHas(incoming[1..], stored, incoming[0].packet);
        DistinctHead(incoming, incoming[0].packet);
      }
      DistinctCons(r, d);
    }
  }

  lemma {:induction false} UnseenOfDelta(incoming: seq<SignedPacket>, stored: seq<SignedPacket>)
    ensures Unseen(DeltaList(incoming, stored), stored) == Unseen(incoming, stored)
  {
    if incoming != [] {
      var r, d := Reduced(incoming[0], stored), DeltaList(incoming[1..], stored);
      UnseenOfDelta(incoming[1..], stored);
      if r == [] {
        assert r + d == d;
      } else {
        assert (r + d)[1..] == d;
      }
    }
  }

  // ---------------------------------------------------------------- whole keys

  type Fingerprint = seq<byte>

  datatype Key = Key(fp: Fingerprint, primary: Packet, revoked: bool,
                     sigs: seq<Signature>, uids: seq<SignedPacket>, subkeys: seq<SignedPacket>)

  /** Big-endian value of up to eight octets. */
  function BigEndian(s: seq<byte>): (n: nat) {
    if s == [] then 0 else BigEndian(s[..|s| - 1]) * 256 + s[|s| - 1]
  }

  /** fingerprint2keyid: low 64 bits of a version 4 fingerprint, high 64 bits of a version 5 one. */
  function KeyId(fp: Fingerprint): (id: nat) {
    if |fp| == 20 then BigEndian(fp[12..]) else if |fp| == 32 then BigEndian(fp[..8]) else 0xFFFF_FFFF_FFFF_FFFF
  }

  /** find_packet on a list of direct key signatures: here the bytes decide. */
  predicate HasDirect(stored: seq<Signature>, sig: Signature) {
    exists i | 0 <= i < |stored| :: SamePacket(stored[i].packet, sig.packet)
  }

  function FreshDirect(incoming: seq<Signature>, stored: seq<Signature>): (r: seq<Signature>) {
    if incoming == [] then []
    else (if HasDirect(stored, incoming[0]) then [] else [incoming[0]]) + FreshDirect(incoming[1..], stored)
  }

  /** What merge_keys makes of the stored key. */
  function MergedKey(a: Key, b: Key): (r: Key) {
    a.(revoked := a.revoked || b.revoked,
       sigs := a.sigs + FreshDirect(b.sigs, a.sigs),
       uids := MergedList(a.uids, b.uids),
       subkeys := MergedList(a.subkeys, b.subkeys))
  }

  /** What merge_keys leaves of the incoming key. */
  function DeltaKey(a: Key, b: Key): (r: Key) {
    b.(revoked := a.revoked || b.revoked,
       sigs := FreshDirect(b.sigs, a.sigs),
       uids := DeltaList(b.uids, a.uids),
       subkeys := DeltaList(b.subkeys, a.subkeys))
  }

  /** Nothing but the primary key packet is left. */
  predicate Bare(k: Key) {
    k.sigs == [] && k.uids == [] && k.subkeys == []
  }

  ghost predicate DistinctKey(k: Key) {
    DistinctPackets(k.uids) && DistinctPackets(k.subkeys)
  }
}
