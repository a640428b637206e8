/**
 cleankeys (cleankey.c): what every key goes through before it is merged or stored. The pipeline
 establishes the cleanness that merging relies on and bounds what a key can carry; without signature
 caps and checks it does nothing a second time.
 */
module CleanKeys {
  import opened Sequences
  import opened Packets
  import opened SigDedupe
  import opened Merge
  import opened KeyDb
  import opened Duplicates
  import opened CapUids
  import Join
  import Subpackets

  const UID_LIMIT := 1024
  const UAT_LIMIT := 0xFFFF
  const PACKET_LIMIT := 8383
  const MAX_UIDS_PER_KEY := 32
  const MAX_UATS_PER_KEY := 4
  const URN_PREFIX: seq<byte> := [85, 73, 68, 58, 117, 114, 110, 58]  // "UID:urn:"

  // ------------------------------------------------------------------ the stages

  predicate Fit(p: Packet) {
    |p.data| <= if p.tag == PACKET_UID then UID_LIMIT else if p.tag == PACKET_UAT then UAT_LIMIT else PACKET_LIMIT
  }

  /** clean_large_packets. */
  function Fitting(list: seq<SignedPacket>): (r: seq<SignedPacket>)
    ensures |r| <= |list|
  {
    if list == [] then [] else (if Fit(list[0].packet) then [list[0]] else []) + Fitting(list[1..])
  }

  /** signedpacket_is_primary. */
  predicate IsMarkedPrimary(p: SignedPacket) {
    exists i | 0 <= i < |p.sigs| :: Subpackets.MarksPrimary(p.sigs[i].packet.data)
  }

  /** signedpacket_is_urn_anchor. */
  predicate IsUrnAnchor(p: Packet) {
    p.tag == PACKET_UID && URN_PREFIX <= p.data
  }

  function KindFor(tag: nat): (kind: SignedPacket -> Kind) {
    (p: SignedPacket) =>
      if p.packet.tag != tag then Other
      else if Join.Revoked(p.sigs) then Kind.Revoked
      else Active(IsMarkedPrimary(p), IsUrnAnchor(p.packet))
  }

  function CapTag(list: seq<SignedPacket>, tag: nat, max: nat): (r: seq<SignedPacket>) {
    Capped(list, KindFor(tag), max, max)
  }

  function Collapsed(list: seq<SignedPacket>): (r: seq<SignedPacket>)
    ensures |r| == |list|
    ensures forall i | 0 <= i < |list| :: r[i] == SignedPacket(list[i].packet, Survivors(list[i].sigs))
  {
    if list == [] then [] else [SignedPacket(list[0].packet, Survivors(list[0].sigs))] + Collapsed(list[1..])
  }

  /** cap_sigs_per_packet: the oldest `max` signatures stay; 0 means no cap. */
  function CutSigs(list: seq<SignedPacket>, tag: nat, max: nat): (r: seq<SignedPacket>)
    ensures |r| == |list|
    ensures forall i | 0 <= i < |list| :: r[i].packet == list[i].packet && r[i].sigs <= list[i].sigs
  {
    if list == [] then []
    else
      var p := list[0];
      [if p.packet.tag == tag && 0 < max < |p.sigs| then SignedPacket(p.packet, p.sigs[..max]) else p]
      + CutSigs(list[1..], tag, max)
  }

  /** What checking one signature says of it. */
  datatype Verdict = Bad | Unchecked | BySelf | ByOther

  /** Which checks are asked for; the judge stands for hashing and for public key verification. */
  datatype Check =
    | NoCheck
    | Check(full: bool, needOther: Fingerprint -> bool, judge: (Packet, Packet, Signature) -> Verdict)

  datatype Policy = Policy(large: bool, capUids: bool, capUats: bool, uidSigs: nat, uatSigs: nat, check: Check)

  function Passing(sigs: seq<Signature>, ok: Signature -> bool): (r: seq<Signature>)
    ensures |r| <= |sigs|
  {
    if sigs == [] then [] else (if ok(sigs[0]) then [sigs[0]] else []) + Passing(sigs[1..], ok)
  }

  /** What the judge says of the signatures on one packet. */
  function Says(judge: (Packet, Signature) -> Verdict, p: Packet): (say: Signature -> Verdict) {
    (s: Signature) => judge(p, s)
  }

  function NotBad(say: Signature -> Verdict): (ok: Signature -> bool) {
    (s: Signature) => say(s) != Bad
  }

  /** The judge for the packets of one key. */
  function JudgeOf(judge: (Packet, Packet, Signature) -> Verdict, primary: Packet): (j: (Packet, Signature) -> Verdict) {
    (p: Packet, s: Signature) => judge(primary, p, s)
  }

  predicate SomeIs(sigs: seq<Signature>, say: Signature -> Verdict, v: Verdict) {
    exists i | 0 <= i < |sigs| :: say(sigs[i]) == v
  }

  function CheckedPacket(p: SignedPacket, full: bool, say: Signature -> Verdict): (r: seq<SignedPacket>) {
    if full && !SomeIs(p.sigs, say, BySelf) then [] else [SignedPacket(p.packet, Passing(p.sigs, NotBad(say)))]
  }

  /** The first loop of clean_list_sighashes: packets without a good self-signature go when all is verified. */
  function CheckedList(list: seq<SignedPacket>, full: bool, judge: (Packet, Signature) -> Verdict): (r: seq<SignedPacket>) {
    if list == [] then []
    else
      CheckedPacket(list[0], full, Says(judge, list[0].packet)) + CheckedList(list[1..], full, judge)
  }

  predicate OtherSigned(list: seq<SignedPacket>, judge: (Packet, Signature) -> Verdict) {
    exists i | 0 <= i < |list| :: SomeIs(list[i].sigs, Says(judge, list[i].packet), ByOther)
  }

  /** clean_key_signatures. */
  function Checked(k: Key, check: Check): (r: Key) {
    match check
    case NoCheck => k
    case Check(full, needOther, judge) =>
      var j := JudgeOf(judge, k.primary);
      var uids := if full && needOther(k.fp) && !OtherSigned(k.uids, j) then [] else CheckedList(k.uids, full, j);
      k.(sigs := Passing(k.sigs, NotBad(Says(j, k.primary))), uids := uids, subkeys := CheckedList(k.subkeys, full, j))
  }

  function SigCount(list: seq<SignedPacket>): (n: nat) {
    if list == [] then 0 else |list[0].sigs| + SigCount(list[1..])
  }

  function WithoutLarge(k: Key, policy: Policy): (r: Key) {
    if policy.large then k.(uids := Fitting(k.uids)) else k
  }

  function WithoutDuplicates(k: Key): (r: Key) {
    k.(uids := Single(k.uids), subkeys := Single(k.subkeys))
  }

  function WithCaps(k: Key, policy: Policy): (r: Key) {
    var u := if policy.capUids then CapTag(k.uids, PACKET_UID, MAX_UIDS_PER_KEY) else k.uids;
    k.(uids := if policy.capUats then CapTag(u, PACKET_UAT, MAX_UATS_PER_KEY) else u)
  }

  function WithOnePerSigner(k: Key): (r: Key) {
    k.(sigs := Survivors(k.sigs), uids := Collapsed(k.uids), subkeys := Collapsed(k.subkeys))
  }

  function WithSigCaps(k: Key, policy: Policy): (r: Key) {
    k.(uids := CutSigs(CutSigs(k.uids, PACKET_UID, policy.uidSigs), PACKET_UAT, policy.uatSigs))
  }

  /** The key before its signatures are checked. */
  function Trimmed(k: Key, policy: Policy): (r: Key) {
    WithSigCaps(WithOnePerSigner(WithCaps(WithoutDuplicates(WithoutLarge(k, policy)), policy)), policy)
  }

  /** A key of version 4 or later after its turn of the loop. */
  function Cleaned(k: Key, policy: Policy): (r: Key) {
    Checked(Trimmed(k, policy), policy.check)
  }

  // --------------------------------------------------- what each stage keeps

  predicate AllFit(list: seq<SignedPacket>) {
    forall i | 0 <= i < |list| :: Fit(list[i].packet)
  }

  lemma {:induction false} FittingFits(list: seq<SignedPacket>)
    ensures AllFit(Fitting(list))
    ensures AllFit(list) <==> |Fitting(list)| == |list|
    ensures AllFit(list) ==> Fitting(list) == list
  {
    if list != [] {
      FittingFits(list[1..]);
      assert AllFit(list) <==> Fit(list[0].packet) && AllFit(list[1..]) by {
        assert list == [list[0]] + list[1..];
      }
    }
  }

  lemma {:induction false} OthersFit(list: seq<SignedPacket>, p: Packet)
    requires AllFit(list)
    ensures AllFit(Others(list, p))
  {
    if list != [] {
      OthersFit(list[1..], p);
    }
  }

  lemma {:induction false} SingleFits(list: seq<SignedPacket>)
    requires AllFit(list)
    ensures AllFit(Single(list))
    decreases |list|
  {
    if list != [] {
      OthersFit(list[1..], list[0].packet);
      SingleFits(Others(list[1..], list[0].packet));
    }
  }

  /** The list has no more packets of the tag than the cap allows, active and revoked. */
  ghost predicate Within(list: seq<SignedPacket>, tag: nat, max: nat) {
    var k := Kinds(list, KindFor(tag));
    Actives(k) <= max && Revokeds(k) <= max
  }

  lemma CapTagKeeps(list: seq<SignedPacket>, tag: nat, max: nat)
    ensures AllFit(list) ==> AllFit(CapTag(list, tag, max))
    ensures DistinctPackets(list) ==> DistinctPackets(CapTag(list, tag, max))
  {
    var k := Kinds(list, KindFor(tag));
    var a, r := Excess(Actives(k), max), Excess(Revokeds(k), max);
    KeptKeeps(list, k, a, r, |list|);
  }

  lemma {:induction false} KeptKeeps(list: seq<SignedPacket>, k: seq<Kind>, a: nat, r: nat, i: nat)
    requires i <= |list| == |k|
    ensures AllFit(list) ==> AllFit(Kept(list, k, a, r, i))
    ensures DistinctPackets(list) ==> DistinctPackets(Kept(list, k, a, r, i))
  {
    if i > 0 {
      KeptKeeps(list, k, a, r, i - 1);
      var before := Kept(list, k, a, r, i - 1);
      forall m | 0 <= m < |before| && DistinctPackets(list) ensures !SamePacket(before[m].packet, list[i - 1].packet) {
        var o := KeptFrom(list, k, a, r, i - 1, m);
      }
    }
  }

  lemma CapTagWithin(list: seq<SignedPacket>, tag: nat, max: nat)
    requires max >= 2
    ensures Within(CapTag(list, tag, max), tag, max)
  {
    CapCounts(list, KindFor(tag), max, max);
  }

  /** A list within the cap is left alone. */
  lemma WithinFixed(list: seq<SignedPacket>, tag: nat, max: nat)
    requires Within(list, tag, max)
    ensures CapTag(list, tag, max) == list
  {
    KeptAll(list, Kinds(list, KindFor(tag)), |list|);
  }

  /** Capping one tag leaves the other one within its cap. */
  lemma CapTagKeepsWithin(list: seq<SignedPacket>, tag: nat, max: nat, other: nat, otherMax: nat)
    requires Within(list, other, otherMax)
    ensures Within(CapTag(list, tag, max), other, otherMax)
  {
    var k := Kinds(list, KindFor(tag));
    KeptCountsAny(list, KindFor(other), k, Excess(Actives(k), max), Excess(Revokeds(k), max), |list|);
  }

  lemma {:induction false} AlikeCounts(k: seq<Kind>, l: seq<Kind>, i: nat)
    requires i <= |k| == |l| && forall i | 0 <= i < |k| :: k[i].Active? == l[i].Active? && k[i].Revoked? == l[i].Revoked?
    ensures ActivesTo(k, i) == ActivesTo(l, i) && RevokedsTo(k, i) == RevokedsTo(l, i)
  {
    if i > 0 {
      AlikeCounts(k, l, i - 1);
    }
  }

  /** One signature per signer is enough to tell revoked packets from active ones. */
  lemma CollapsedKeeps(list: seq<SignedPacket>, tag: nat, max: nat)
    ensures Within(Collapsed(list), tag, max) == Within(list, tag, max)
    ensures AllFit(list) ==> AllFit(Collapsed(list))
    ensures DistinctPackets(list) ==> DistinctPackets(Collapsed(list))
  {
    var k, l := Kinds(list, KindFor(tag)), Kinds(Collapsed(list), KindFor(tag));
    forall i | 0 <= i < |list| ensures k[i].Active? == l[i].Active? && k[i].Revoked? == l[i].Revoked? {
      Join.RevokedSurvivors(list[i].sigs);
    }
    AlikeCounts(k, l, |k|);
  }

  lemma CollapsedClean(list: seq<SignedPacket>)
    ensures CleanList(Collapsed(list))
    ensures CleanList(list) ==> Collapsed(list) == list
  {
    forall i | 0 <= i < |list| ensures Deduped(Collapsed(list)[i].sigs) {
      SurvivorsDeduped(list[i].sigs);
    }
    if CleanList(list) {
      forall i | 0 <= i < |list| ensures Collapsed(list)[i] == list[i] {
        DedupedFixed(list[i].sigs);
      }
    }
  }

  lemma CutSigsClean(list: seq<SignedPacket>, tag: nat, max: nat)
    requires CleanList(list) && DistinctPackets(list)
    ensures CleanList(CutSigs(list, tag, max)) && DistinctPackets(CutSigs(list, tag, max))
  {
  }

  lemma {:induction false} CutSigsOff(list: seq<SignedPacket>, tag: nat)
    ensures CutSigs(list, tag, 0) == list
  {
    if list != [] {
      CutSigsOff(list[1..], tag);
    }
  }

  lemma {:induction false} PassingClean(sigs: seq<Signature>, ok: Signature -> bool)
    ensures forall x | x in Passing(sigs, ok) :: x in sigs && ok(x)
    ensures Deduped(sigs) ==> Deduped(Passing(sigs, ok))
  {
    if sigs != [] {
      var tail := Passing(sigs[1..], ok);
      PassingClean(sigs[1..], ok);
      forall j | 0 <= j < |tail| && Deduped(sigs) ensures !MatchesSigner(sigs[0], tail[j]) {
        assert tail[j] in sigs[1..];
      }
    }
  }

  lemma {:induction false} CheckedListClean(list: seq<SignedPacket>, full: bool, judge: (Packet, Signature) -> Verdict)
    requires CleanList(list) && DistinctPackets(list)
    ensures CleanList(CheckedList(list, full, judge)) && DistinctPackets(CheckedList(list, full, judge))
    ensures forall q :: Has(CheckedList(list, full, judge), q) ==> Has(list, q)
  {
    if list != [] {
      var p, rest := list[0], list[1..];
      var say := Says(judge, p.packet);
      var front := CheckedPacket(p, full, say);
      var tail := CheckedList(rest, full, judge);
      CheckedListClean(rest, full, judge);
      PassingClean(p.sigs, NotBad(say));
      DistinctHead(list, p.packet);
      DistinctCons(front, tail);
      assert CheckedList(list, full, judge) == front + tail;
      forall q | Has(front + tail, q) ensures Has(list, q) {
        HasStep(list, q);
        if front == [] {
          assert front + tail == tail;
        } else {
          HasStep(front + tail, q);
          assert (front + tail)[1..] == tail;
        }
      }
    }
  }

  function Tagged(list: seq<SignedPacket>, tag: nat): (n: nat) {
    if list == [] then 0 else Tagged(list[..|list| - 1], tag) + (if list[|list| - 1].packet.tag == tag then 1 else 0)
  }

  lemma {:induction false} TaggedIsBoth(list: seq<SignedPacket>, tag: nat)
    ensures var k := Kinds(list, KindFor(tag)); Tagged(list, tag) == Actives(k) + Revokeds(k)
  {
    if list != [] {
      var front, p := list[..|list| - 1], list[|list| - 1];
      TaggedIsBoth(front, tag);
      CountsAppend(Kinds(front, KindFor(tag)), KindFor(tag)(p));
      assert Kinds(list, KindFor(tag)) == Kinds(front, KindFor(tag)) + [KindFor(tag)(p)];
    }
  }

  lemma {:induction false} TaggedSame(a: seq<SignedPacket>, b: seq<SignedPacket>, tag: nat)
    requires |a| == |b| && forall i | 0 <= i < |a| :: a[i].packet == b[i].packet
    ensures Tagged(a, tag) == Tagged(b, tag)
  {
    if a != [] {
      TaggedSame(a[..|a| - 1], b[..|b| - 1], tag);
    }
  }

  lemma {:induction false} TaggedConcat(a: seq<SignedPacket>, b: seq<SignedPacket>, tag: nat)
    ensures Tagged(a + b, tag) == Tagged(a, tag) + Tagged(b, tag)
  {
    if b == [] {
      assert a + b == a;
    } else {
      TaggedConcat(a, b[..|b| - 1], tag);
      assert (a + b)[..|a + b| - 1] == a + b[..|b| - 1];
    }
  }

  lemma {:induction false} TaggedChecked(list: seq<SignedPacket>, full: bool, judge: (Packet, Signature) -> Verdict, tag: nat)
    ensures Tagged(CheckedList(list, full, judge), tag) <= Tagged(list, tag)
  {
    if list != [] {
      var p := list[0];
      var front := CheckedPacket(p, full, Says(judge, p.packet));
      var tail := CheckedList(list[1..], full, judge);
      TaggedChecked(list[1..], full, judge, tag);
      assert CheckedList(list, full, judge) == front + tail && list == [p] + list[1..];
      TaggedConcat(front, tail, tag);
      TaggedConcat([p], list[1..], tag);
    }
  }

  lemma {:induction false} CutSigsCut(list: seq<SignedPacket>, tag: nat, max: nat)
    requires max > 0
    ensures forall i | 0 <= i < |list| && list[i].packet.tag == tag :: |CutSigs(list, tag, max)[i].sigs| <= max
  {
    if list != [] {
      CutSigsCut(list[1..], tag, max);
    }
  }

  // ------------------------------------------------------ the pipeline invariant

  /** At most `max` signatures on each packet of the tag; 0 means any number. */
  predicate SigsWithin(list: seq<SignedPacket>, tag: nat, max: nat) {
    max == 0 || forall i | 0 <= i < |list| && list[i].packet.tag == tag :: |list[i].sigs| <= max
  }

  lemma CutSigsWithin(list: seq<SignedPacket>, tag: nat, max: nat, other: nat, otherMax: nat)
    ensures SigsWithin(CutSigs(list, tag, max), tag, max)
    ensures SigsWithin(list, other, otherMax) ==> SigsWithin(CutSigs(list, tag, max), other, otherMax)
  {
    if max > 0 {
      CutSigsCut(list, tag, max);
    }
  }

  lemma {:induction false} CheckedSigsWithin(list: seq<SignedPacket>, full: bool, judge: (Packet, Signature) -> Verdict, tag: nat, max: nat)
    requires SigsWithin(list, tag, max)
    ensures SigsWithin(CheckedList(list, full, judge), tag, max)
  {
    if list != [] {
      CheckedSigsWithin(list[1..], full, judge, tag, max);
    }
  }

  /** Everything cleankeys promises of one key, given its policy. */
  ghost predicate Tidy(k: Key, policy: Policy) {
    && Clean(k) && Deduped(k.sigs)
    && (policy.capUids ==> Tagged(k.uids, PACKET_UID) <= 2 * MAX_UIDS_PER_KEY)
    && (policy.capUats ==> Tagged(k.uids, PACKET_UAT) <= 2 * MAX_UATS_PER_KEY)
    && SigsWithin(k.uids, PACKET_UID, policy.uidSigs) && SigsWithin(k.uids, PACKET_UAT, policy.uatSigs)
  }

  /** The key after the signature collapse: clean, and within the caps that are on. */
  lemma Collapse(k: Key, policy: Policy)
    ensures var m := WithOnePerSigner(WithCaps(WithoutDuplicates(WithoutLarge(k, policy)), policy));
            && Clean(m) && Deduped(m.sigs)
            && (policy.large ==> AllFit(m.uids))
            && (policy.capUids ==> Within(m.uids, PACKET_UID, MAX_UIDS_PER_KEY))
            && (policy.capUats ==> Within(m.uids, PACKET_UAT, MAX_UATS_PER_KEY))
  {
    var k1 := WithoutLarge(k, policy);
    var k2 := WithoutDuplicates(k1);
    FittingFits(k.uids);
    if policy.large {
      SingleFits(k1.uids);
    }
    SingleDistinct(k1.uids, k.primary);
    SingleDistinct(k1.subkeys, k.primary);
    CapsHold(k2.uids, policy);
    var k3 := WithCaps(k2, policy);
    SurvivorsDeduped(k3.sigs);
    CollapsedKeeps(k3.uids, PACKET_UID, MAX_UIDS_PER_KEY);
    CollapsedKeeps(k3.uids, PACKET_UAT, MAX_UATS_PER_KEY);
    CollapsedKeeps(k3.subkeys, PACKET_UID, MAX_UIDS_PER_KEY);
    CollapsedClean(k3.uids);
    CollapsedClean(k3.subkeys);
  }

  lemma CapsHold(uids: seq<SignedPacket>, policy: Policy)
    requires DistinctPackets(uids)
    ensures var u := if policy.capUids then CapTag(uids, PACKET_UID, MAX_UIDS_PER_KEY) else uids;
            var v := if policy.capUats then CapTag(u, PACKET_UAT, MAX_UATS_PER_KEY) else u;
            && DistinctPackets(v) && (AllFit(uids) ==> AllFit(v))
            && (policy.capUids ==> Within(v, PACKET_UID, MAX_UIDS_PER_KEY))
            && (policy.capUats ==> Within(v, PACKET_UAT, MAX_UATS_PER_KEY))
  {
    var u := if policy.capUids then CapTag(uids, PACKET_UID, MAX_UIDS_PER_KEY) else uids;
    CapTagKeeps(uids, PACKET_UID, MAX_UIDS_PER_KEY);
    CapTagWithin(uids, PACKET_UID, MAX_UIDS_PER_KEY);
    CapTagKeeps(u, PACKET_UAT, MAX_UATS_PER_KEY);
    CapTagWithin(u, PACKET_UAT, MAX_UATS_PER_KEY);
    if policy.capUids {
      CapTagKeepsWithin(u, PACKET_UAT, MAX_UATS_PER_KEY, PACKET_UID, MAX_UIDS_PER_KEY);
    }
  }

  lemma TrimmedTidy(k: Key, policy: Policy)
    ensures Tidy(Trimmed(k, policy), policy)
  {
    Collapse(k, policy);
    var m := WithOnePerSigner(WithCaps(WithoutDuplicates(WithoutLarge(k, policy)), policy));
    var c := CutSigs(m.uids, PACKET_UID, policy.uidSigs);
    CutSigsClean(m.uids, PACKET_UID, policy.uidSigs);
    CutSigsClean(c, PACKET_UAT, policy.uatSigs);
    CutSigsWithin(m.uids, PACKET_UID, policy.uidSigs, PACKET_UAT, 0);
    CutSigsWithin(c, PACKET_UAT, policy.uatSigs, PACKET_UID, policy.uidSigs);
    var t := Trimmed(k, policy).uids;
    TaggedIsBoth(m.uids, PACKET_UID);
    TaggedIsBoth(m.uids, PACKET_UAT);
    TaggedSame(m.uids, t, PACKET_UID);
    TaggedSame(m.uids, t, PACKET_UAT);
  }

  lemma CheckedTidy(k: Key, policy: Policy)
    requires Tidy(k, policy)
    ensures Tidy(Checked(k, policy.check), policy)
  {
    match policy.check
    case NoCheck =>
    case Check(full, needOther, judge) =>
      var j := JudgeOf(judge, k.primary);
      PassingClean(k.sigs, NotBad(Says(j, k.primary)));
      CheckedListClean(k.uids, full, j);
      CheckedListClean(k.subkeys, full, j);
      TaggedChecked(k.uids, full, j, PACKET_UID);
      TaggedChecked(k.uids, full, j, PACKET_UAT);
      CheckedSigsWithin(k.uids, full, j, PACKET_UID, policy.uidSigs);
      CheckedSigsWithin(k.uids, full, j, PACKET_UAT, policy.uatSigs);
  }

  /** Whatever comes in and whatever the checks say, what a turn of the loop leaves is tidy. */
  lemma CleanedTidy(k: Key, policy: Policy)
    ensures Tidy(Cleaned(k, policy), policy)
  {
    TrimmedTidy(k, policy);
    CheckedTidy(Trimmed(k, policy), policy);
  }

  // ------------------------------------------------------- a second run

  function Plain(policy: Policy): (r: Policy) {
    policy.(uidSigs := 0, uatSigs := 0, check := NoCheck)
  }

  /** What the three stages that take packets away count. */
  function PacketTrims(k: Key, policy: Policy): (n: nat) {
    var k1 := WithoutLarge(k, policy);
    var k2 := WithoutDuplicates(k1);
    var k3 := WithCaps(k2, policy);
    Excess(|k.uids|, |k1.uids|) + Excess(|k1.uids|, |k2.uids|) + Excess(|k1.subkeys|, |k2.subkeys|)
    + Excess(|k2.uids|, |k3.uids|)
  }

  /** What the two stages that take signatures away count. */
  function SigTrims(k: Key, policy: Policy): (n: nat) {
    var k4 := WithOnePerSigner(k);
    var k5 := WithSigCaps(k4, policy);
    Excess(|k.sigs|, |k4.sigs|) + Excess(SigCount(k.uids), SigCount(k4.uids))
    + Excess(SigCount(k.subkeys), SigCount(k4.subkeys)) + Excess(SigCount(k4.uids), SigCount(k5.uids))
  }

  /** How many things the stages before the checks took away, as their return values add up. */
  function Trims(k: Key, policy: Policy): (n: nat) {
    PacketTrims(k, policy) + SigTrims(WithCaps(WithoutDuplicates(WithoutLarge(k, policy)), policy), policy)
  }

  /** Cleaning a second time changes nothing and counts nothing, when signatures are neither capped nor checked. */
  lemma SecondRunIdle(k: Key, policy: Policy)
    requires policy == Plain(policy)
    ensures var c := Cleaned(k, policy); Cleaned(c, policy) == c && Trims(c, policy) == 0
  {
    var c := Cleaned(k, policy);
    Collapse(k, policy);
    var m := WithOnePerSigner(WithCaps(WithoutDuplicates(WithoutLarge(k, policy)), policy));
    CutSigsOff(m.uids, PACKET_UID);
    CutSigsOff(m.uids, PACKET_UAT);
    assert c == m;
    InOrderFixed(c, policy);
  }

  /** A key that the stages before the checks have nothing to take from. */
  ghost predicate InOrder(k: Key, policy: Policy) {
    && Clean(k) && Deduped(k.sigs) && (policy.large ==> AllFit(k.uids))
    && (policy.capUids ==> Within(k.uids, PACKET_UID, MAX_UIDS_PER_KEY))
    && (policy.capUats ==> Within(k.uids, PACKET_UAT, MAX_UATS_PER_KEY))
    && SigsWithin(k.uids, PACKET_UID, policy.uidSigs) && SigsWithin(k.uids, PACKET_UAT, policy.uatSigs)
  }

  lemma {:induction false} CutSigsFixed(list: seq<SignedPacket>, tag: nat, max: nat)
    requires SigsWithin(list, tag, max)
    ensures CutSigs(list, tag, max) == list
  {
    if list != [] {
      CutSigsFixed(list[1..], tag, max);
    }
  }

  lemma PacketsFixed(k: Key, policy: Policy)
    requires InOrder(k, policy)
    ensures WithoutLarge(k, policy) == k && WithoutDuplicates(k) == k && WithCaps(k, policy) == k
  {
    FittingFits(k.uids);
    SingleFixed(k.uids);
    SingleFixed(k.subkeys);
    if policy.capUids {
      WithinFixed(k.uids, PACKET_UID, MAX_UIDS_PER_KEY);
    }
    if policy.capUats {
      WithinFixed(k.uids, PACKET_UAT, MAX_UATS_PER_KEY);
    }
  }

  lemma InOrderFixed(k: Key, policy: Policy)
    requires InOrder(k, policy)
    ensures Trimmed(k, policy) == k && Trims(k, policy) == 0
  {
    PacketsFixed(k, policy);
    DedupedFixed(k.sigs);
    CollapsedClean(k.uids);
    CollapsedClean(k.subkeys);
    assert WithOnePerSigner(k) == k;
    CutSigsFixed(k.uids, PACKET_UID, policy.uidSigs);
    CutSigsFixed(k.uids, PACKET_UAT, policy.uatSigs);
    assert WithSigCaps(k, policy) == k;
  }

  // --------------------------------------------------- what a count of zero means

  lemma {:induction false} SurvivorsSize(s: seq<Signature>, k: nat)
    requires k <= |s|
    ensures |SurvivorsFrom(s, k)| <= |s| - k
    ensures |SurvivorsFrom(s, k)| == |s| - k ==> SurvivorsFrom(s, k) == s[k..]
    decreases |s| - k
  {
    if k < |s| {
      SurvivorsSize(s, k + 1);
    }
  }

  lemma {:induction false} CollapsedSize(list: seq<SignedPacket>)
    ensures SigCount(Collapsed(list)) <= SigCount(list)
    ensures SigCount(Collapsed(list)) == SigCount(list) ==> Collapsed(list) == list
  {
    if list != [] {
      SurvivorsSize(list[0].sigs, 0);
      CollapsedSize(list[1..]);
      assert Collapsed(list)[1..] == Collapsed(list[1..]);
    }
  }

  lemma {:induction false} CutSigsSize(list: seq<SignedPacket>, tag: nat, max: nat)
    ensures SigCount(CutSigs(list, tag, max)) <= SigCount(list)
    ensures SigCount(CutSigs(list, tag, max)) == SigCount(list) ==> CutSigs(list, tag, max) == list
  {
    if list != [] {
      CutSigsSize(list[1..], tag, max);
      assert CutSigs(list, tag, max)[1..] == CutSigs(list[1..], tag, max);
    }
  }

  lemma PacketTrimsIff(k: Key, policy: Policy)
    ensures var r := WithCaps(WithoutDuplicates(WithoutLarge(k, policy)), policy);
            && |r.uids| <= |k.uids| && |r.subkeys| <= |k.subkeys|
            && PacketTrims(k, policy) == (|k.uids| - |r.uids|) + (|k.subkeys| - |r.subkeys|)
            && (PacketTrims(k, policy) == 0 ==> r == k)
  {
    LargeTrims(k, policy);
    var k1 := WithoutLarge(k, policy);
    DuplicateTrims(k1);
    CapTrims(WithoutDuplicates(k1), policy);
  }

  lemma LargeTrims(k: Key, policy: Policy)
    ensures var r := WithoutLarge(k, policy);
            |r.uids| <= |k.uids| && r.subkeys == k.subkeys && (|r.uids| == |k.uids| ==> r == k)
  {
    FittingFits(k.uids);
  }

  lemma DuplicateTrims(k: Key)
    ensures var r := WithoutDuplicates(k);
            && |r.uids| <= |k.uids| && |r.subkeys| <= |k.subkeys|
            && (|r.uids| == |k.uids| && |r.subkeys| == |k.subkeys| ==> r == k)
  {
    SingleFixed(k.uids);
    SingleFixed(k.subkeys);
  }

  lemma CapTrims(k: Key, policy: Policy)
    ensures var r := WithCaps(k, policy);
            |r.uids| <= |k.uids| && r.subkeys == k.subkeys && (|r.uids| == |k.uids| ==> r == k)
  {
    var u := if policy.capUids then CapTag(k.uids, PACKET_UID, MAX_UIDS_PER_KEY) else k.uids;
    CappedSize(k.uids, KindFor(PACKET_UID), MAX_UIDS_PER_KEY, MAX_UIDS_PER_KEY);
    CappedSize(u, KindFor(PACKET_UAT), MAX_UATS_PER_KEY, MAX_UATS_PER_KEY);
  }

  lemma SigTrimsIff(k: Key, policy: Policy)
    ensures var r := WithSigCaps(WithOnePerSigner(k), policy);
            |r.uids| == |k.uids| && |r.subkeys| == |k.subkeys| && (SigTrims(k, policy) == 0 <==> r == k)
  {
    var k4 := WithOnePerSigner(k);
    var c := CutSigs(k4.uids, PACKET_UID, policy.uidSigs);
    SurvivorsSize(k.sigs, 0);
    CollapsedSize(k.uids);
    CollapsedSize(k.subkeys);
    CutSigsSize(k4.uids, PACKET_UID, policy.uidSigs);
    CutSigsSize(c, PACKET_UAT, policy.uatSigs);
  }

  /** Without checks, a key is changed exactly when something is counted for it. */
  lemma NothingTrimmedIff(k: Key, policy: Policy)
    ensures Trims(k, policy) == 0 <==> Trimmed(k, policy) == k
  {
    PacketTrimsIff(k, policy);
    SigTrimsIff(WithCaps(WithoutDuplicates(WithoutLarge(k, policy)), policy), policy);
  }

  // ------------------------------------------------------------- the whole list

  /** Signatures the checks remove; packets that go with them are not counted. */
  function BadSigs(list: seq<SignedPacket>, judge: (Packet, Signature) -> Verdict): (n: nat) {
    if list == [] then 0
    else |list[0].sigs| - |Passing(list[0].sigs, NotBad(Says(judge, list[0].packet)))| + BadSigs(list[1..], judge)
  }

  function CheckTrims(k: Key, check: Check): (n: nat) {
    match check
    case NoCheck => 0
    case Check(full, needOther, judge) =>
      var j := JudgeOf(judge, k.primary);
      |k.sigs| - |Passing(k.sigs, NotBad(Says(j, k.primary)))| + BadSigs(k.uids, j) + BadSigs(k.subkeys, j)
  }

  function Count(k: Key, policy: Policy): (n: nat) {
    Trims(k, policy) + CheckTrims(Trimmed(k, policy), policy.check)
  }

  predicate Versioned(keys: seq<Key>) {
    forall i | 0 <= i < |keys| :: keys[i].primary.data != []
  }

  predicate Outdated(k: Key)
    requires k.primary.data != []
  {
    k.primary.data[0] < 4
  }

  /** What one turn of the loop makes of a key, and what it adds to the counter. */
  datatype Turned = Turned(key: Key, count: nat)

  type Cleaner = Key -> Turned

  function TurnOf(policy: Policy): (turn: Cleaner) {
    (k: Key) => Turned(Cleaned(k, policy), Count(k, policy))
  }

  datatype Outcome = Outcome(keys: seq<Key>, changed: nat) {
    function After(left: seq<Key>, before: nat): (r: Outcome) { Outcome(left + keys, before + changed) }
  }

  /** The loop of cleankeys. Its counter is shared by all keys: `count` is what earlier ones left in it. */
  function Turns(turn: Cleaner, keys: seq<Key>, count: nat): (r: Outcome)
    requires Versioned(keys)
    decreases |keys|
  {
    if keys == [] then Outcome([], 0)
    else if Outdated(keys[0]) then
      var t := Turns(turn, keys[1..], count);
      Outcome(t.keys, t.changed + 1)
    else
      var c, n := turn(keys[0]).key, count + turn(keys[0]).count;
      var t := Turns(turn, keys[1..], n);
      Outcome((if c.uids == [] then [] else [c]) + t.keys, t.changed + if n > 0 then 1 else 0)
  }

  function CleanRun(keys: seq<Key>, policy: Policy): (r: Outcome)
    requires Versioned(keys)
  {
    Turns(TurnOf(policy), keys, 0)
  }

  ghost predicate Makes(turn: Cleaner, good: Key -> bool, k: Key) {
    turn(k).key.primary == k.primary && good(turn(k).key)
  }

  lemma {:induction false} TurnsMake(turn: Cleaner, good: Key -> bool, keys: seq<Key>, count: nat)
    requires Versioned(keys) && forall k :: Makes(turn, good, k)
    ensures var r := Turns(turn, keys, count).keys;
            Versioned(r) && forall i | 0 <= i < |r| :: !Outdated(r[i]) && r[i].uids != [] && good(r[i])
    decreases |keys|
  {
    if keys != [] {
      assert Makes(turn, good, keys[0]);
      TurnsMake(turn, good, keys[1..], if Outdated(keys[0]) then count else count + turn(keys[0]).count);
    }
  }

  /** Every key on the list afterwards is of version 4 or later, has a user id, and is tidy. */
  lemma RunTidy(keys: seq<Key>, policy: Policy)
    requires Versioned(keys)
    ensures var r := CleanRun(keys, policy).keys;
            Versioned(r) && forall i | 0 <= i < |r| :: !Outdated(r[i]) && r[i].uids != [] && Tidy(r[i], policy)
  {
    var good := (k: Key) => Tidy(k, policy);
    forall k ensures Makes(TurnOf(policy), good, k) {
      CleanedTidy(k, policy);
      CleanedSamePrimary(k, policy);
    }
    TurnsMake(TurnOf(policy), good, keys, 0);
  }

  lemma CleanedSamePrimary(k: Key, policy: Policy)
    ensures Cleaned(k, policy).primary == k.primary && Cleaned(k, policy).fp == k.fp
  {
  }

  /** What update and merge ask of incoming keys is what cleaning gives. */
  lemma RunFeedsUpdate(keys: seq<Key>, policy: Policy)
    requires Versioned(keys)
    ensures KeyDb.CleanKeys(CleanRun(keys, policy).keys)
  {
    RunTidy(keys, policy);
  }

  ghost predicate Settles(turn: Cleaner, k: Key) {
    var c := turn(k).key;
    c.primary == k.primary && turn(c) == Turned(c, 0)
  }

  lemma {:induction false} TurnsSettle(turn: Cleaner, keys: seq<Key>, count: nat)
    requires Versioned(keys) && forall k :: Settles(turn, k)
    ensures var r := Turns(turn, keys, count).keys; Versioned(r) && Turns(turn, r, 0) == Outcome(r, 0)
    decreases |keys|
  {
    if keys != [] {
      var n := if Outdated(keys[0]) then count else count + turn(keys[0]).count;
      var rest := Turns(turn, keys[1..], n).keys;
      TurnsSettle(turn, keys[1..], n);
      if !Outdated(keys[0]) {
        assert Settles(turn, keys[0]);
        var c := turn(keys[0]).key;
        if c.uids == [] {
          assert [] + rest == rest;
        } else {
          assert ([c] + rest)[1..] == rest;
        }
      }
    }
  }

  /** Without signature caps and checks, a second run finds nothing to do and returns 0. */
  lemma SecondRun(keys: seq<Key>, policy: Policy)
    requires Versioned(keys) && policy == Plain(policy)
    ensures var r := CleanRun(keys, policy).keys; Versioned(r) && CleanRun(r, policy) == Outcome(r, 0)
  {
    forall k ensures Settles(TurnOf(policy), k) {
      SecondRunIdle(k, policy);
      CleanedSamePrimary(k, policy);
    }
    TurnsSettle(TurnOf(policy), keys, 0);
  }

  // ----------------------------------------------------------------- the methods

  /** clean_large_packets. */
  method DropLarge(list: seq<SignedPacket>) returns (rest: seq<SignedPacket>, dropped: nat)
    ensures rest == Fitting(list) && dropped == |list| - |rest|
  {
    rest, dropped := [], 0;
    var todo := list;
    while todo != []
      invariant rest + Fitting(todo) == Fitting(list) && dropped + |rest| + |todo| == |list|
      decreases |todo|
    {
      var p := todo[0];
      var limit := PACKET_LIMIT;
      if p.packet.tag == PACKET_UID {
        limit := UID_LIMIT;
      } else if p.packet.tag == PACKET_UAT {
        limit := UAT_LIMIT;
      }
      if |p.packet.data| > limit {
        assert [] + Fitting(todo[1..]) == Fitting(todo[1..]);
        dropped := dropped + 1;
      } else {
        ConcatAssoc(rest, [p], Fitting(todo[1..]));
        rest := rest + [p];
      }
      todo := todo[1..];
    }
  }

  /** The loops that collapse the signatures on each packet of a list. */
  method CollapseEach(list: seq<SignedPacket>) returns (rest: seq<SignedPacket>, removed: int)
    ensures rest == Collapsed(list) && removed == SigCount(list) - SigCount(rest)
  {
    rest, removed := [], 0;
    var todo := list;
    while todo != []
      invariant rest + Collapsed(todo) == Collapsed(list)
      invariant removed + SigCount(todo) - SigCount(Collapsed(todo)) == SigCount(list) - SigCount(Collapsed(list))
      decreases |todo|
    {
      var sigs := Survivors(todo[0].sigs);
      assert Collapsed(todo) == [SignedPacket(todo[0].packet, sigs)] + Collapsed(todo[1..]);
      assert Collapsed(todo)[1..] == Collapsed(todo[1..]);
      ConcatAssoc(rest, [SignedPacket(todo[0].packet, sigs)], Collapsed(todo[1..]));
      rest := rest + [SignedPacket(todo[0].packet, sigs)];
      removed, todo := removed + (|todo[0].sigs| - |sigs|), todo[1..];
    }
  }

  /** Walks past the signatures that stay and drops the others one by one. */
  method CutOne(sigs: seq<Signature>, max: nat) returns (rest: seq<Signature>, dropped: nat)
    ensures rest == if |sigs| <= max then sigs else sigs[..max]
    ensures dropped == |sigs| - |rest|
  {
    var kept: nat := 0;
    while kept < |sigs| && kept < max
      invariant kept <= |sigs| && kept <= max
    {
      kept := kept + 1;
    }
    rest, dropped := sigs[..kept], 0;
    var i := kept;
    while i < |sigs|
      invariant kept <= i <= |sigs| && dropped == i - kept
    {
      i, dropped := i + 1, dropped + 1;
    }
  }

  /** cap_sigs_per_packet. */
  method CapSigs(list: seq<SignedPacket>, tag: nat, max: nat) returns (rest: seq<SignedPacket>, dropped: int)
    ensures rest == CutSigs(list, tag, max) && dropped == SigCount(list) - SigCount(rest)
  {
    if max == 0 {
      CutSigsOff(list, tag);
      return list, 0;
    }
    rest, dropped := [], 0;
    var todo := list;
    while todo != []
      invariant rest + CutSigs(todo, tag, max) == CutSigs(list, tag, max)
      invariant dropped + SigCount(todo) - SigCount(CutSigs(todo, tag, max)) == SigCount(list) - SigCount(CutSigs(list, tag, max))
      decreases |todo|
    {
      var p, n := todo[0], 0;
      if p.packet.tag == tag {
        var sigs;
        sigs, n := CutOne(p.sigs, max);
        p := SignedPacket(p.packet, sigs);
      }
      assert CutSigs(todo, tag, max) == [p] + CutSigs(todo[1..], tag, max);
      assert CutSigs(todo, tag, max)[1..] == CutSigs(todo[1..], tag, max);
      ConcatAssoc(rest, [p], CutSigs(todo[1..], tag, max));
      rest, dropped, todo := rest + [p], dropped + n, todo[1..];
    }
  }

  lemma SomeIsStep(sigs: seq<Signature>, i: nat, say: Signature -> Verdict, v: Verdict)
    requires i < |sigs|
    ensures SomeIs(sigs[..i + 1], say, v) == (SomeIs(sigs[..i], say, v) || say(sigs[i]) == v)
  {
    var a, b := sigs[..i], sigs[..i + 1];
    assert b[i] == sigs[i] && forall j | 0 <= j < i :: a[j] == b[j];
  }

  /** clean_sighashes, with its two flags. */
  method CheckSigs(sigs: seq<Signature>, say: Signature -> Verdict)
    returns (rest: seq<Signature>, removed: nat, self: bool, other: bool)
    ensures rest == Passing(sigs, NotBad(say)) && removed == |sigs| - |rest|
    ensures self == SomeIs(sigs, say, BySelf) && other == SomeIs(sigs, say, ByOther)
  {
    rest, removed, self, other := [], 0, false, false;
    for i := 0 to |sigs|
      invariant rest + Passing(sigs[i..], NotBad(say)) == Passing(sigs, NotBad(say)) && removed + |rest| == i
      invariant self == SomeIs(sigs[..i], say, BySelf) && other == SomeIs(sigs[..i], say, ByOther)
    {
      SomeIsStep(sigs, i, say, BySelf);
      SomeIsStep(sigs, i, say, ByOther);
      assert sigs[i..][1..] == sigs[i + 1..];
      var v := say(sigs[i]);
      if v == BySelf {
        self := true;
      } else if v == ByOther {
        other := true;
      }
      if v == Bad {
        assert [] + Passing(sigs[i + 1..], NotBad(say)) == Passing(sigs[i + 1..], NotBad(say));
        removed := removed + 1;
      } else {
        ConcatAssoc(rest, [sigs[i]], Passing(sigs[i + 1..], NotBad(say)));
        rest := rest + [sigs[i]];
      }
    }
    assert sigs[..|sigs|] == sigs;
  }

  lemma OtherSignedCons(list: seq<SignedPacket>, judge: (Packet, Signature) -> Verdict)
    requires list != []
    ensures OtherSigned(list, judge) <==>
            SomeIs(list[0].sigs, Says(judge, list[0].packet), ByOther) || OtherSigned(list[1..], judge)
  {
    assert list == [list[0]] + list[1..];
  }

  /** clean_list_sighashes. */
  method CheckPackets(list: seq<SignedPacket>, full: bool, needOther: bool, judge: (Packet, Signature) -> Verdict)
    returns (rest: seq<SignedPacket>, removed: nat)
    ensures rest == if full && needOther && !OtherSigned(list, judge) then [] else CheckedList(list, full, judge)
    ensures removed == BadSigs(list, judge)
  {
    rest, removed := [], 0;
    var todo, other := list, false;
    while todo != []
      invariant rest + CheckedList(todo, full, judge) == CheckedList(list, full, judge)
      invariant removed + BadSigs(todo, judge) == BadSigs(list, judge)
      invariant other || OtherSigned(todo, judge) <==> OtherSigned(list, judge)
      decreases |todo|
    {
      var p := todo[0];
      var sigs, n, self, o := CheckSigs(p.sigs, Says(judge, p.packet));
      OtherSignedCons(todo, judge);
      if full && !self {
        assert [] + CheckedList(todo[1..], full, judge) == CheckedList(todo[1..], full, judge);
      } else {
        ConcatAssoc(rest, [SignedPacket(p.packet, sigs)], CheckedList(todo[1..], full, judge));
        rest := rest + [SignedPacket(p.packet, sigs)];
      }
      removed, other, todo := removed + n, other || o, todo[1..];
    }
    if needOther && full && !other {
      rest := [];
    }
  }

  /** clean_key_signatures. */
  method CheckKey(k: Key, check: Check) returns (c: Key, removed: nat)
    ensures c == Checked(k, check) && removed == CheckTrims(k, check)
  {
    match check
    case NoCheck => return k, 0;
    case Check(full, needOther, judge) =>
      var j := JudgeOf(judge, k.primary);
      var sigs, onKey, _, _ := CheckSigs(k.sigs, Says(j, k.primary));
      var uids, onUids := CheckPackets(k.uids, full, needOther(k.fp), j);
      var subkeys, onSubkeys := CheckPackets(k.subkeys, full, false, j);
      c, removed := k.(sigs := sigs, uids := uids, subkeys := subkeys), onKey + onUids + onSubkeys;
  }

  /** cap_uids_per_key and cap_uats_per_key. */
  method CapBoth(k: Key, policy: Policy) returns (c: Key, dropped: nat)
    ensures c == WithCaps(k, policy) && |c.uids| <= |k.uids| && dropped == |k.uids| - |c.uids|
  {
    var uids, n := k.uids, 0;
    dropped := 0;
    if policy.capUids {
      CappedSize(uids, KindFor(PACKET_UID), MAX_UIDS_PER_KEY, MAX_UIDS_PER_KEY);
      uids, dropped := CapPacketType(uids, KindFor(PACKET_UID), MAX_UIDS_PER_KEY, MAX_UIDS_PER_KEY);
    }
    if policy.capUats {
      CappedSize(uids, KindFor(PACKET_UAT), MAX_UATS_PER_KEY, MAX_UATS_PER_KEY);
      uids, n := CapPacketType(uids, KindFor(PACKET_UAT), MAX_UATS_PER_KEY, MAX_UATS_PER_KEY);
    }
    c, dropped := k.(uids := uids), dropped + n;
  }

  /** The stages that take packets away. */
  method ThinPackets(k: Key, policy: Policy) returns (c: Key, removed: nat)
    ensures c == WithCaps(WithoutDuplicates(WithoutLarge(k, policy)), policy) && removed == PacketTrims(k, policy)
  {
    PacketTrimsIff(k, policy);
    c, removed := k, 0;
    if policy.large {
      var fit, large := DropLarge(c.uids);
      removed, c := large, c.(uids := fit);
    }
    var uids, mergedUids := DedupPackets(c.uids);
    var subkeys, mergedSubkeys := DedupPackets(c.subkeys);
    c := c.(uids := uids, subkeys := subkeys);
    assert c == WithoutDuplicates(WithoutLarge(k, policy));
    var dropped;
    c, dropped := CapBoth(c, policy);
    removed := removed + mergedUids + mergedSubkeys + dropped;
  }

  /** The signature collapse on every list of the key. */
  method CollapseKey(k: Key) returns (c: Key, removed: nat)
    ensures c == WithOnePerSigner(k)
    ensures removed == Excess(|k.sigs|, |c.sigs|) + Excess(SigCount(k.uids), SigCount(c.uids))
                       + Excess(SigCount(k.subkeys), SigCount(c.subkeys))
  {
    SurvivorsSize(k.sigs, 0);
    CollapsedSize(k.uids);
    CollapsedSize(k.subkeys);
    var sigs := Survivors(k.sigs);
    var uids, onUids := CollapseEach(k.uids);
    var subkeys, onSubkeys := CollapseEach(k.subkeys);
    c := k.(sigs := sigs, uids := uids, subkeys := subkeys);
    removed := (|k.sigs| - |sigs|) + onUids + onSubkeys;
  }

  /** The signature caps for user ids and for user attributes. */
  method CapBothSigs(k: Key, policy: Policy) returns (c: Key, removed: nat)
    ensures c == WithSigCaps(k, policy) && removed == Excess(SigCount(k.uids), SigCount(c.uids))
  {
    CutSigsSize(k.uids, PACKET_UID, policy.uidSigs);
    var uids, onUids := CapSigs(k.uids, PACKET_UID, policy.uidSigs);
    CutSigsSize(uids, PACKET_UAT, policy.uatSigs);
    var both, onUats := CapSigs(uids, PACKET_UAT, policy.uatSigs);
    c, removed := k.(uids := both), onUids + onUats;
  }

  /** The stages that take signatures away. */
  method ThinSigs(k: Key, policy: Policy) returns (c: Key, removed: nat)
    ensures c == WithSigCaps(WithOnePerSigner(k), policy) && removed == SigTrims(k, policy)
  {
    var dropped;
    c, removed := CollapseKey(k);
    c, dropped := CapBothSigs(c, policy);
    removed := removed + dropped;
  }

  ghost predicate IsTurn(turn: Cleaner, policy: Policy) {
    forall k {:trigger Cleaned(k, policy)} :: turn(k) == Turned(Cleaned(k, policy), Count(k, policy))
  }

  /** One turn of the loop, stage by stage. */
  method CleanOne(k: Key, policy: Policy, ghost turn: Cleaner) returns (c: Key, count: nat)
    requires IsTurn(turn, policy)
    ensures Turned(c, count) == turn(k)
  {
    var packets, sigs, bad;
    c, packets := ThinPackets(k, policy);
    c, sigs := ThinSigs(c, policy);
    c, bad := CheckKey(c, policy.check);
    count := packets + sigs + bad;
    assert c == Cleaned(k, policy);
  }

  lemma TurnsStep(turn: Cleaner, todo: seq<Key>, count: nat, left: seq<Key>, changed: nat, t: Turned)
    requires todo != [] && Versioned(todo) && !Outdated(todo[0]) && turn(todo[0]) == t
    ensures Turns(turn, todo, count).After(left, changed)
         == Turns(turn, todo[1..], count + t.count).After(
              if t.key.uids == [] then left else left + [t.key], changed + if count + t.count > 0 then 1 else 0)
  {
    var rest := Turns(turn, todo[1..], count + t.count).keys;
    assert (left + [t.key]) + rest == left + ([t.key] + rest) && [] + rest == rest;
  }

  method CleanLoop(keys: seq<Key>, policy: Policy, ghost turn: Cleaner) returns (left: seq<Key>, changed: nat)
    requires Versioned(keys) && IsTurn(turn, policy)
    ensures Outcome(left, changed) == Turns(turn, keys, 0)
  {
    left, changed := [], 0;
    var todo, count := keys, 0;
    while todo != []
      invariant Versioned(todo)
      invariant Turns(turn, keys, 0) == Turns(turn, todo, count).After(left, changed)
      decreases |todo|
    {
      var k := todo[0];
      if k.primary.data[0] < 4 {
        changed := changed + 1;
      } else {
        var c, n := CleanOne(k, policy, turn);
        TurnsStep(turn, todo, count, left, changed, Turned(c, n));
        count := count + n;
        if count > 0 {
          changed := changed + 1;
        }
        if c.uids != [] {
          left := left + [c];
        }
      }
      todo := todo[1..];
    }
  }

  /** cleankeys. */
  method CleanKeyList(keys: seq<Key>, policy: Policy) returns (left: seq<Key>, changed: nat)
    requires Versioned(keys)
    ensures Outcome(left, changed) == CleanRun(keys, policy)
  {
    left, changed := CleanLoop(keys, policy, TurnOf(policy));
  }
}
