/**
 Cleaning a list that has been cleaned (cleankey.c), under any policy. What a run leaves has nothing
 for a second one to take, but for two things: a signature that goes after the cap on user ids can be
 a revocation, so that a packet turns active and over the cap; and a user id that goes for lack of a
 self-signature can be the one that carried another key's signature.
 */
module CleanTwice {
  import opened Packets
  import opened SigDedupe
  import opened Merge
  import opened KeyDb
  import opened CapUids
  import opened CleanKeys
  import opened CleanReturn
  import Join

  // --------------------------------------------------- fewer signatures, fewer revoked packets

  function RevokedOf(list: seq<SignedPacket>, tag: nat): (n: nat) { Revokeds(Kinds(list, KindFor(tag))) }

  function ActiveOf(list: seq<SignedPacket>, tag: nat): (n: nat) { Actives(Kinds(list, KindFor(tag))) }

  lemma KindsSnoc(list: seq<SignedPacket>, p: SignedPacket, tag: nat)
    ensures RevokedOf(list + [p], tag) == RevokedOf(list, tag) + Bit(p.packet.tag == tag && Join.Revoked(p.sigs))
    ensures ActiveOf(list + [p], tag) == ActiveOf(list, tag) + Bit(p.packet.tag == tag && !Join.Revoked(p.sigs))
  {
    assert Kinds(list + [p], KindFor(tag)) == Kinds(list, KindFor(tag)) + [KindFor(tag)(p)];
    CountsAppend(Kinds(list, KindFor(tag)), KindFor(tag)(p));
  }

  lemma {:induction false} RevokedConcat(a: seq<SignedPacket>, b: seq<SignedPacket>, tag: nat)
    ensures RevokedOf(a + b, tag) == RevokedOf(a, tag) + RevokedOf(b, tag)
  {
    if b == [] {
      assert a + b == a;
    } else {
      var init, p := b[..|b| - 1], b[|b| - 1];
      RevokedConcat(a, init, tag);
      KindsSnoc(a + init, p, tag);
      KindsSnoc(init, p, tag);
      assert a + b == (a + init) + [p] && b == init + [p];
    }
  }

  lemma RevokedOne(p: SignedPacket, tag: nat)
    ensures RevokedOf([p], tag) == Bit(p.packet.tag == tag && Join.Revoked(p.sigs))
  {
    KindsSnoc([], p, tag);
    assert [] + [p] == [p];
  }

  /** Thinner signature lists on the same packets. */
  lemma {:induction false} CutRevoked(list: seq<SignedPacket>, cut: seq<SignedPacket>, tag: nat)
    requires |cut| == |list|
    requires forall i | 0 <= i < |list| :: cut[i].packet == list[i].packet && cut[i].sigs <= list[i].sigs
    ensures RevokedOf(cut, tag) <= RevokedOf(list, tag)
  {
    if list != [] {
      var n := |list| - 1;
      CutRevoked(list[..n], cut[..n], tag);
      KindsSnoc(list[..n], list[n], tag);
      KindsSnoc(cut[..n], cut[n], tag);
      assert list == list[..n] + [list[n]] && cut == cut[..n] + [cut[n]];
    }
  }

  lemma {:induction false} PassingKeeps(sigs: seq<Signature>, ok: Signature -> bool, x: Signature)
    ensures x in Passing(sigs, ok) <==> x in sigs && ok(x)
  {
    if sigs != [] {
      PassingKeeps(sigs[1..], ok, x);
    }
  }

  lemma PassingMeans(sigs: seq<Signature>, say: Signature -> Verdict, v: Verdict)
    ensures var r := Passing(sigs, NotBad(say));
            && !SomeIs(r, say, Bad) && (v != Bad ==> SomeIs(r, say, v) == SomeIs(sigs, say, v))
            && (Join.Revoked(r) ==> Join.Revoked(sigs))
  {
    var r := Passing(sigs, NotBad(say));
    forall x ensures x in r <==> x in sigs && say(x) != Bad {
      PassingKeeps(sigs, NotBad(say), x);
    }
    forall i | 0 <= i < |r| ensures r[i] in sigs && say(r[i]) != Bad {
      assert r[i] in r;
    }
    if v != Bad && SomeIs(sigs, say, v) {
      var i :| 0 <= i < |sigs| && say(sigs[i]) == v;
      assert sigs[i] in r;
    }
  }

  lemma AllFitCons(list: seq<SignedPacket>)
    requires list != []
    ensures AllFit(list) <==> Fit(list[0].packet) && AllFit(list[1..])
  {
    assert list == [list[0]] + list[1..];
  }

  /** What the checks leave would pass them again, but for the need of another's signature. */
  lemma {:induction false} CheckedAgain(list: seq<SignedPacket>, full: bool, judge: (Packet, Signature) -> Verdict)
    ensures var r := CheckedList(list, full, judge);
            NoBadSig(r, judge) && (full ==> AllSelf(r, judge)) && (AllFit(list) ==> AllFit(r))
  {
    if list != [] {
      var p, rest := list[0], list[1..];
      var front, tail := CheckedPacket(p, full, Says(judge, p.packet)), CheckedList(rest, full, judge);
      CheckedAgain(rest, full, judge);
      PassingMeans(p.sigs, Says(judge, p.packet), BySelf);
      AllFitCons(list);
      if front != [] {
        assert front == [front[0]] && (front + tail)[1..] == tail;
        ListCons(front + tail, judge);
        AllFitCons(front + tail);
      } else {
        assert front + tail == tail;
      }
    }
  }

  lemma PacketRevoked(p: SignedPacket, full: bool, say: Signature -> Verdict, tag: nat)
    ensures RevokedOf(CheckedPacket(p, full, say), tag) <= RevokedOf([p], tag)
  {
    RevokedOne(p, tag);
    PassingMeans(p.sigs, say, BySelf);
    RevokedOne(SignedPacket(p.packet, Passing(p.sigs, NotBad(say))), tag);
  }

  lemma {:induction false} CheckedRevoked(list: seq<SignedPacket>, full: bool, judge: (Packet, Signature) -> Verdict, tag: nat)
    ensures RevokedOf(CheckedList(list, full, judge), tag) <= RevokedOf(list, tag)
  {
    if list != [] {
      var p, rest := list[0], list[1..];
      CheckedRevoked(rest, full, judge, tag);
      PacketRevoked(p, full, Says(judge, p.packet), tag);
      RevokedConcat([p], rest, tag);
      RevokedConcat(CheckedPacket(p, full, Says(judge, p.packet)), CheckedList(rest, full, judge), tag);
      assert list == [p] + rest;
    }
  }

  // ------------------------------------------------------------------ what a run leaves

  ghost predicate RevokedWithin(k: Key, policy: Policy) {
    && (policy.capUids ==> RevokedOf(k.uids, PACKET_UID) <= MAX_UIDS_PER_KEY)
    && (policy.capUats ==> RevokedOf(k.uids, PACKET_UAT) <= MAX_UATS_PER_KEY)
  }

  /** Everything a second run asks for that the first one sees to. */
  ghost predicate Groomed(k: Key, policy: Policy) {
    && Tidy(k, policy) && (policy.large ==> AllFit(k.uids)) && RevokedWithin(k, policy)
    && Passes(k, policy.check) && SelfSigned(k, policy.check)
  }

  lemma TrimmedGroomed(k: Key, policy: Policy)
    ensures var t := Trimmed(k, policy);
            Tidy(t, policy) && (policy.large ==> AllFit(t.uids)) && RevokedWithin(t, policy)
  {
    TrimmedTidy(k, policy);
    Collapse(k, policy);
    var m := WithOnePerSigner(WithCaps(WithoutDuplicates(WithoutLarge(k, policy)), policy));
    SigCapsGroomed(m.uids, policy, PACKET_UID);
    SigCapsGroomed(m.uids, policy, PACKET_UAT);
  }

  lemma SigCapsGroomed(list: seq<SignedPacket>, policy: Policy, tag: nat)
    ensures var t := CutSigs(CutSigs(list, PACKET_UID, policy.uidSigs), PACKET_UAT, policy.uatSigs);
            RevokedOf(t, tag) <= RevokedOf(list, tag) && (AllFit(list) ==> AllFit(t))
  {
    var c := CutSigs(list, PACKET_UID, policy.uidSigs);
    var t := CutSigs(c, PACKET_UAT, policy.uatSigs);
    CutRevoked(list, c, tag);
    CutRevoked(c, t, tag);
  }

  lemma CheckedGroomed(k: Key, policy: Policy)
    requires Tidy(k, policy) && (policy.large ==> AllFit(k.uids)) && RevokedWithin(k, policy)
    ensures Groomed(Checked(k, policy.check), policy)
  {
    CheckedTidy(k, policy);
    match policy.check
    case NoCheck =>
    case Check(full, needOther, judge) =>
      var j := JudgeOf(judge, k.primary);
      PassingMeans(k.sigs, Says(j, k.primary), BySelf);
      CheckedAgain(k.uids, full, j);
      CheckedAgain(k.subkeys, full, j);
      CheckedRevoked(k.uids, full, j, PACKET_UID);
      CheckedRevoked(k.uids, full, j, PACKET_UAT);
  }

  lemma CleanedGroomed(k: Key, policy: Policy)
    ensures Groomed(Cleaned(k, policy), policy)
  {
    TrimmedGroomed(k, policy);
    CheckedGroomed(Trimmed(k, policy), policy);
  }

  // ----------------------------------------------------------------- the second run

  /** No more active packets than the caps allow, and another's signature where one is needed. */
  ghost predicate StaysPut(k: Key, policy: Policy) {
    && (policy.capUids ==> ActiveOf(k.uids, PACKET_UID) <= MAX_UIDS_PER_KEY)
    && (policy.capUats ==> ActiveOf(k.uids, PACKET_UAT) <= MAX_UATS_PER_KEY)
    && OthersVouch(k, policy.check)
  }

  lemma GroomedIdleIff(k: Key, policy: Policy)
    requires Groomed(k, policy) && k.primary.data != [] && !Outdated(k) && k.uids != []
    ensures MarkOf(k, policy) == Idle <==> StaysPut(k, policy)
  {
  }

  lemma RunGroomed(keys: seq<Key>, policy: Policy)
    requires Versioned(keys)
    ensures var r := CleanRun(keys, policy).keys;
            Versioned(r) && forall i | 0 <= i < |r| :: !Outdated(r[i]) && r[i].uids != [] && Groomed(r[i], policy)
  {
    var good := (k: Key) => Groomed(k, policy);
    forall k ensures Makes(TurnOf(policy), good, k) {
      CleanedGroomed(k, policy);
      CleanedSamePrimary(k, policy);
    }
    TurnsMake(TurnOf(policy), good, keys, 0);
  }

  /**
   Under any policy, a second run returns 0 and leaves the list alone exactly if no key on it has
   active packets over a cap and each has another's signature where that is asked for.
   */
  lemma SecondRunIff(keys: seq<Key>, policy: Policy)
    requires Versioned(keys)
    ensures var r := CleanRun(keys, policy).keys;
            Versioned(r) &&
            (CleanRun(r, policy) == Outcome(r, 0) <==> forall i | 0 <= i < |r| :: StaysPut(r[i], policy))
  {
    RunGroomed(keys, policy);
    var r := CleanRun(keys, policy).keys;
    forall i | 0 <= i < |r| ensures MarkOf(r[i], policy) == Idle <==> StaysPut(r[i], policy) {
      GroomedIdleIff(r[i], policy);
    }
    ZeroIff(r, policy);
  }

  // ------------------------------------------------------------------ an input that fails

  function Uat(n: byte, sigs: seq<Signature>): (p: SignedPacket) { SignedPacket(Packet(PACKET_UAT, false, [n]), sigs) }

  function CertRevocation(issuer: byte): (s: Signature) { SigBy(SIGTYPE_CERT_REV, issuer) }

  /** Four active attributes and a revoked one, whose revocation is its second signature. */
  function FiveUats(sigs: seq<Signature>): (list: seq<SignedPacket>) {
    [Uat(1, []), Uat(2, []), Uat(3, []), Uat(4, [])] + [Uat(5, sigs)]
  }

  /** One signature kept on each attribute, and attributes capped. */
  function OneSigEach(): (policy: Policy) { Policy(false, false, true, 0, 1, NoCheck) }

  lemma FourActive()
    ensures var four := [Uat(1, []), Uat(2, []), Uat(3, []), Uat(4, [])];
            ActiveOf(four, PACKET_UAT) == 4 && RevokedOf(four, PACKET_UAT) == 0
  {
    var a, b, c, d := Uat(1, []), Uat(2, []), Uat(3, []), Uat(4, []);
    KindsSnoc([], a, PACKET_UAT);
    KindsSnoc([a], b, PACKET_UAT);
    KindsSnoc([a, b], c, PACKET_UAT);
    KindsSnoc([a, b, c], d, PACKET_UAT);
    assert [] + [a] == [a] && [a] + [b] == [a, b] && [a, b] + [c] == [a, b, c] && [a, b, c] + [d] == [a, b, c, d];
  }

  /** The first run keeps all five and cuts the revocation; the second finds five active ones and drops one. */
  lemma RevocationCut()
    ensures var cert, revocation := ExampleSig(2), CertRevocation(1);
            var k, c := ExampleKey(FiveUats([cert, revocation])), ExampleKey(FiveUats([cert]));
            && Cleaned(k, OneSigEach()) == c
            && Cleaned(c, OneSigEach()) != c
  {
    var cert, revocation := ExampleSig(2), CertRevocation(1);
    var k, c := ExampleKey(FiveUats([cert, revocation])), ExampleKey(FiveUats([cert]));
    FiveCleaned(k, c, cert, revocation);
    FiveActive(c, cert);
  }

  lemma FiveDistinct(sigs: seq<Signature>)
    ensures DistinctPackets(FiveUats(sigs))
    ensures Deduped(sigs) ==> CleanList(FiveUats(sigs))
  {
  }

  lemma FiveCleaned(k: Key, c: Key, cert: Signature, revocation: Signature)
    requires cert == ExampleSig(2) && revocation == CertRevocation(1)
    requires k == ExampleKey(FiveUats([cert, revocation])) && c == ExampleKey(FiveUats([cert]))
    ensures Cleaned(k, OneSigEach()) == c
  {
    FiveDistinct([cert, revocation]);
    FiveCounted([cert, revocation]);
    assert Join.Revoked([cert, revocation]) by {
      assert Join.IsCertRevocation([cert, revocation][1]);
    }
    OneSigCut(k.uids, c.uids);
    SameButCut(k, c);
  }

  lemma FiveCounted(sigs: seq<Signature>)
    ensures RevokedOf(FiveUats(sigs), PACKET_UAT) == Bit(Join.Revoked(sigs))
    ensures ActiveOf(FiveUats(sigs), PACKET_UAT) == 4 + Bit(!Join.Revoked(sigs))
  {
    FourActive();
    KindsSnoc([Uat(1, []), Uat(2, []), Uat(3, []), Uat(4, [])], Uat(5, sigs), PACKET_UAT);
  }

  /** A key that is in order but for the signature cap. */
  lemma SameButCut(k: Key, c: Key)
    requires InOrder(k, OneSigEach().(uatSigs := 0))
    requires c == k.(uids := CutSigs(k.uids, PACKET_UAT, 1))
    ensures Cleaned(k, OneSigEach()) == c
  {
    PacketsFixed(k, OneSigEach().(uatSigs := 0));
    DedupedFixed(k.sigs);
    CollapsedClean(k.uids);
    CollapsedClean(k.subkeys);
    assert WithOnePerSigner(k) == k;
    CutSigsOff(k.uids, PACKET_UID);
  }

  lemma {:induction false} OneSigCut(list: seq<SignedPacket>, cut: seq<SignedPacket>)
    requires |list| == |cut|
    requires forall i | 0 <= i < |list| :: list[i].packet.tag == PACKET_UAT && list[i].packet == cut[i].packet
    requires forall i | 0 <= i < |list| :: cut[i].sigs == if |list[i].sigs| > 1 then list[i].sigs[..1] else list[i].sigs
    ensures CutSigs(list, PACKET_UAT, 1) == cut
  {
    if list != [] {
      OneSigCut(list[1..], cut[1..]);
      assert cut == [cut[0]] + cut[1..];
    }
  }

  lemma FiveActive(c: Key, cert: Signature)
    requires cert == ExampleSig(2) && c == ExampleKey(FiveUats([cert]))
    ensures Cleaned(c, OneSigEach()) != c
  {
    FiveCounted([cert]);
    OverCap(c, OneSigEach());
  }

  lemma OverCap(c: Key, policy: Policy)
    requires policy.capUats && policy.check == NoCheck && ActiveOf(c.uids, PACKET_UAT) > MAX_UATS_PER_KEY
    ensures Cleaned(c, policy) != c
  {
    NothingTrimmedMeans(c, policy);
    NothingTrimmedIff(c, policy);
  }
}
