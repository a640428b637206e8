/**
 What cleankeys returns (cleankey.c), and what a second run does. The comment promises the number of
 keys cleaned, and 0 if no changes were made. The counter is shared by all keys, and packets and keys
 that go for lack of a self-signature, of another's signature or of user ids are not counted.
 */
module CleanReturn {
  import opened Packets
  import opened SigDedupe
  import opened Merge
  import opened KeyDb
  import opened Duplicates
  import opened CapUids
  import opened CleanKeys
  import Join

  // ------------------------------------------------- what the stages before the checks take

  /** If no signature is cut, the key was within the signature caps. */
  lemma UncutWithin(k: Key, policy: Policy)
    requires SigTrims(k, policy) == 0
    ensures WithOnePerSigner(k) == k
    ensures SigsWithin(k.uids, PACKET_UID, policy.uidSigs) && SigsWithin(k.uids, PACKET_UAT, policy.uatSigs)
  {
    var k4 := WithOnePerSigner(k);
    var c := CutSigs(k4.uids, PACKET_UID, policy.uidSigs);
    SurvivorsSize(k.sigs, 0);
    CollapsedSize(k.uids);
    CollapsedSize(k.subkeys);
    CutSigsSize(k4.uids, PACKET_UID, policy.uidSigs);
    CutSigsSize(c, PACKET_UAT, policy.uatSigs);
    CutSigsWithin(k4.uids, PACKET_UID, policy.uidSigs, PACKET_UAT, 0);
    CutSigsWithin(c, PACKET_UAT, policy.uatSigs, PACKET_UID, policy.uidSigs);
  }

  /** Nothing is counted before the checks exactly for a key that is in order. */
  lemma NothingTrimmedMeans(k: Key, policy: Policy)
    ensures Trims(k, policy) == 0 <==> InOrder(k, policy)
  {
    if Trims(k, policy) == 0 {
      PacketTrimsIff(k, policy);
      assert WithCaps(WithoutDuplicates(WithoutLarge(k, policy)), policy) == k;
      UncutWithin(k, policy);
      Collapse(k, policy);
    }
    if InOrder(k, policy) {
      InOrderFixed(k, policy);
    }
  }

  // ------------------------------------------------------------- what the checks take

  lemma {:induction false} PassingAll(sigs: seq<Signature>, say: Signature -> Verdict)
    ensures var r := Passing(sigs, NotBad(say));
            && (|r| == |sigs| <==> !SomeIs(sigs, say, Bad))
            && (|r| == |sigs| ==> r == sigs)
  {
    if sigs != [] {
      PassingAll(sigs[1..], say);
      assert SomeIs(sigs, say, Bad) <==> say(sigs[0]) == Bad || SomeIs(sigs[1..], say, Bad) by {
        assert sigs == [sigs[0]] + sigs[1..];
      }
    }
  }

  ghost predicate NoBadSig(list: seq<SignedPacket>, judge: (Packet, Signature) -> Verdict) {
    forall i | 0 <= i < |list| :: !SomeIs(list[i].sigs, Says(judge, list[i].packet), Bad)
  }

  ghost predicate AllSelf(list: seq<SignedPacket>, judge: (Packet, Signature) -> Verdict) {
    forall i | 0 <= i < |list| :: SomeIs(list[i].sigs, Says(judge, list[i].packet), BySelf)
  }

  lemma ListCons(list: seq<SignedPacket>, judge: (Packet, Signature) -> Verdict)
    requires list != []
    ensures NoBadSig(list, judge) <==>
            !SomeIs(list[0].sigs, Says(judge, list[0].packet), Bad) && NoBadSig(list[1..], judge)
    ensures AllSelf(list, judge) <==>
            SomeIs(list[0].sigs, Says(judge, list[0].packet), BySelf) && AllSelf(list[1..], judge)
  {
    assert list == [list[0]] + list[1..];
  }

  lemma {:induction false} BadSigsIff(list: seq<SignedPacket>, judge: (Packet, Signature) -> Verdict)
    ensures BadSigs(list, judge) == 0 <==> NoBadSig(list, judge)
  {
    if list != [] {
      BadSigsIff(list[1..], judge);
      PassingAll(list[0].sigs, Says(judge, list[0].packet));
      ListCons(list, judge);
    }
  }

  lemma SigCountConcat(a: seq<SignedPacket>, b: seq<SignedPacket>)
    requires |a| <= 1
    ensures SigCount(a + b) == SigCount(a) + SigCount(b)
  {
    if a == [] {
      assert a + b == b;
    } else {
      assert (a + b)[1..] == b && a[1..] == [];
    }
  }

  /** At least the signatures counted as bad are gone. */
  lemma {:induction false} BadSigsGo(list: seq<SignedPacket>, full: bool, judge: (Packet, Signature) -> Verdict)
    ensures SigCount(CheckedList(list, full, judge)) + BadSigs(list, judge) <= SigCount(list)
    ensures |CheckedList(list, full, judge)| <= |list|
  {
    if list != [] {
      BadSigsGo(list[1..], full, judge);
      var front := CheckedPacket(list[0], full, Says(judge, list[0].packet));
      SigCountConcat(front, CheckedList(list[1..], full, judge));
      assert front != [] ==> front[1..] == [];
    }
  }

  /** With no bad signature, a list is left alone exactly if it need not or does carry self-signatures. */
  lemma {:induction false} CheckedFixedIff(list: seq<SignedPacket>, full: bool, judge: (Packet, Signature) -> Verdict)
    requires NoBadSig(list, judge)
    ensures CheckedList(list, full, judge) == list <==> !full || AllSelf(list, judge)
  {
    if list != [] {
      var p, rest := list[0], list[1..];
      ListCons(list, judge);
      CheckedFixedIff(rest, full, judge);
      PassingAll(p.sigs, Says(judge, p.packet));
      BadSigsGo(rest, full, judge);
      var front := CheckedPacket(p, full, Says(judge, p.packet));
      if front == [] {
        assert |CheckedList(list, full, judge)| < |list|;
      } else {
        assert front == [p] && list == [p] + rest;
        assert CheckedList(list, full, judge)[1..] == CheckedList(rest, full, judge);
      }
    }
  }

  // ---------------------------------------------------- what becomes of a key, by inputs alone

  /** No signature of the key is judged bad. */
  ghost predicate Passes(k: Key, check: Check) {
    match check
    case NoCheck => true
    case Check(full, needOther, judge) =>
      var j := JudgeOf(judge, k.primary);
      !SomeIs(k.sigs, Says(j, k.primary), Bad) && NoBadSig(k.uids, j) && NoBadSig(k.subkeys, j)
  }

  ghost predicate SelfSigned(k: Key, check: Check) {
    match check
    case NoCheck => true
    case Check(full, needOther, judge) =>
      var j := JudgeOf(judge, k.primary);
      full ==> AllSelf(k.uids, j) && AllSelf(k.subkeys, j)
  }

  ghost predicate OthersVouch(k: Key, check: Check) {
    match check
    case NoCheck => true
    case Check(full, needOther, judge) =>
      full && needOther(k.fp) ==> OtherSigned(k.uids, JudgeOf(judge, k.primary))
  }

  /**
   Too old a version; something counted is taken; something goes uncounted; nothing is touched.
   */
  datatype Mark = Old | Busy | Silent | Idle

  ghost function MarkOf(k: Key, policy: Policy): (m: Mark) {
    if k.primary.data == [] || Outdated(k) then Old
    else if !InOrder(k, policy) || !Passes(k, policy.check) then Busy
    else if k.uids == [] || !SelfSigned(k, policy.check) || !OthersVouch(k, policy.check) then Silent
    else Idle
  }

  lemma CheckTrimsIff(k: Key, check: Check)
    ensures CheckTrims(k, check) == 0 <==> Passes(k, check)
  {
    match check
    case NoCheck =>
    case Check(full, needOther, judge) =>
      var j := JudgeOf(judge, k.primary);
      PassingAll(k.sigs, Says(j, k.primary));
      BadSigsIff(k.uids, j);
      BadSigsIff(k.subkeys, j);
  }

  lemma CountIff(k: Key, policy: Policy)
    ensures Count(k, policy) == 0 <==> InOrder(k, policy) && Passes(k, policy.check)
  {
    NothingTrimmedMeans(k, policy);
    NothingTrimmedIff(k, policy);
    CheckTrimsIff(Trimmed(k, policy), policy.check);
  }

  function AllSigs(k: Key): (n: nat) { |k.sigs| + SigCount(k.uids) + SigCount(k.subkeys) }

  lemma CheckedShrinks(k: Key, check: Check)
    ensures var c := Checked(k, check);
            |c.uids| <= |k.uids| && |c.subkeys| <= |k.subkeys| && AllSigs(c) + CheckTrims(k, check) <= AllSigs(k)
  {
    match check
    case NoCheck =>
    case Check(full, needOther, judge) =>
      var j := JudgeOf(judge, k.primary);
      BadSigsGo(k.uids, full, j);
      BadSigsGo(k.subkeys, full, j);
  }

  lemma SigTrimsShrink(k: Key, policy: Policy)
    ensures AllSigs(WithSigCaps(WithOnePerSigner(k), policy)) + SigTrims(k, policy) == AllSigs(k)
  {
    var k4 := WithOnePerSigner(k);
    var c := CutSigs(k4.uids, PACKET_UID, policy.uidSigs);
    SurvivorsSize(k.sigs, 0);
    CollapsedSize(k.uids);
    CollapsedSize(k.subkeys);
    CutSigsSize(k4.uids, PACKET_UID, policy.uidSigs);
    CutSigsSize(c, PACKET_UAT, policy.uatSigs);
  }

  /** What is counted is a change: a later stage does not put back what an earlier one took. */
  lemma CountedIsChange(k: Key, policy: Policy)
    requires Count(k, policy) > 0
    ensures Cleaned(k, policy) != k
  {
    var k3 := WithCaps(WithoutDuplicates(WithoutLarge(k, policy)), policy);
    PacketTrimsIff(k, policy);
    SigTrimsIff(k3, policy);
    CheckedShrinks(Trimmed(k, policy), policy.check);
    if PacketTrims(k, policy) == 0 {
      SigTrimsShrink(k, policy);
    }
  }

  /** The checks leave a key without bad signatures alone exactly if they are content with its packets. */
  lemma CheckedSameIff(k: Key, check: Check)
    requires Passes(k, check)
    ensures Checked(k, check) == k && k.uids != [] <==> k.uids != [] && SelfSigned(k, check) && OthersVouch(k, check)
  {
    match check
    case NoCheck =>
    case Check(full, needOther, judge) =>
      var j := JudgeOf(judge, k.primary);
      PassingAll(k.sigs, Says(j, k.primary));
      CheckedFixedIff(k.uids, full, j);
      CheckedFixedIff(k.subkeys, full, j);
  }

  /** Without a count, a key stays as it is exactly if full verification is content with its packets. */
  lemma UncountedIff(k: Key, policy: Policy)
    requires InOrder(k, policy) && Passes(k, policy.check)
    ensures Cleaned(k, policy) == k && k.uids != [] <==>
            k.uids != [] && SelfSigned(k, policy.check) && OthersVouch(k, policy.check)
  {
    InOrderFixed(k, policy);
    CheckedSameIff(k, policy.check);
  }

  /** The key is taken off the list or altered. */
  predicate Touched(turn: Cleaner, k: Key)
    requires k.primary.data != []
  {
    Outdated(k) || turn(k).key != k || turn(k).key.uids == []
  }

  ghost predicate MarksKey(turn: Cleaner, mark: Key -> Mark, k: Key) {
    k.primary.data != [] ==>
      && (Outdated(k) <==> mark(k) == Old)
      && (turn(k).count > 0 && !Outdated(k) <==> mark(k) == Busy)
      && (Touched(turn, k) <==> mark(k) != Idle)
  }

  ghost function Marker(policy: Policy): (mark: Key -> Mark) {
    (k: Key) => MarkOf(k, policy)
  }

  lemma BusyMeans(k: Key, policy: Policy)
    requires k.primary.data != [] && !Outdated(k)
    ensures MarkOf(k, policy) == Busy <==> Count(k, policy) > 0
    ensures MarkOf(k, policy) != Old
  {
    CountIff(k, policy);
  }

  lemma IdleMeans(k: Key, policy: Policy)
    requires k.primary.data != [] && !Outdated(k) && MarkOf(k, policy) != Busy
    ensures Cleaned(k, policy) == k && k.uids != [] <==> MarkOf(k, policy) == Idle
  {
    UncountedIff(k, policy);
  }

  lemma TurnMarks(k: Key, policy: Policy)
    ensures MarksKey(TurnOf(policy), Marker(policy), k)
  {
    if k.primary.data != [] && !Outdated(k) {
      BusyMeans(k, policy);
      if Count(k, policy) > 0 {
        CountedIsChange(k, policy);
      } else {
        IdleMeans(k, policy);
      }
    }
  }

  // ------------------------------------------------------------------ the whole list

  /** The number of keys cleaned: taken off the list or altered. */
  function TouchedKeys(turn: Cleaner, keys: seq<Key>): (n: nat)
    requires Versioned(keys)
  {
    if keys == [] then 0 else TouchedKeys(turn, keys[1..]) + Bit(Touched(turn, keys[0]))
  }

  ghost function Idles(mark: Key -> Mark, keys: seq<Key>): (n: nat) {
    if keys == [] then 0 else Idles(mark, keys[1..]) + Bit(mark(keys[0]) == Idle)
  }

  /** Keys touched uncounted before the first one that is counted. */
  ghost function SilentBefore(mark: Key -> Mark, keys: seq<Key>): (n: nat) {
    if keys == [] || mark(keys[0]) == Busy then 0
    else SilentBefore(mark, keys[1..]) + Bit(mark(keys[0]) == Silent)
  }

  /** Keys left alone behind the first one that is counted. */
  ghost function IdleAfter(mark: Key -> Mark, keys: seq<Key>): (n: nat) {
    if keys == [] then 0
    else if mark(keys[0]) == Busy then Idles(mark, keys[1..])
    else IdleAfter(mark, keys[1..])
  }

  /** Once the counter is above zero every key is counted. */
  lemma {:induction false} AllCountedAfter(turn: Cleaner, mark: Key -> Mark, keys: seq<Key>, count: nat)
    requires Versioned(keys) && count > 0 && forall k :: MarksKey(turn, mark, k)
    ensures Turns(turn, keys, count).changed == |keys| == TouchedKeys(turn, keys) + Idles(mark, keys)
    decreases |keys|
  {
    if keys != [] {
      assert MarksKey(turn, mark, keys[0]);
      AllCountedAfter(turn, mark, keys[1..], if Outdated(keys[0]) then count else count + turn(keys[0]).count);
    }
  }

  lemma {:induction false} TurnsBalance(turn: Cleaner, mark: Key -> Mark, keys: seq<Key>)
    requires Versioned(keys) && forall k :: MarksKey(turn, mark, k)
    ensures Turns(turn, keys, 0).changed + SilentBefore(mark, keys) == TouchedKeys(turn, keys) + IdleAfter(mark, keys)
    decreases |keys|
  {
    if keys != [] {
      assert MarksKey(turn, mark, keys[0]);
      if mark(keys[0]) == Busy {
        AllCountedAfter(turn, mark, keys[1..], turn(keys[0]).count);
      } else {
        TurnsBalance(turn, mark, keys[1..]);
      }
    }
  }

  /**
   cleankeys promises the number of keys cleaned. It is off by the keys left alone behind the first
   counted one, which are counted with it, less the keys touched before that one without a count:
   the number is right exactly when there are as many of the one as of the other.
   */
  lemma ReturnValueIff(keys: seq<Key>, policy: Policy)
    requires Versioned(keys)
    ensures var changed, touched := CleanRun(keys, policy).changed, TouchedKeys(TurnOf(policy), keys);
            var over, under := IdleAfter(Marker(policy), keys), SilentBefore(Marker(policy), keys);
            changed + under == touched + over && (changed == touched <==> over == under)
  {
    forall k ensures MarksKey(TurnOf(policy), Marker(policy), k) {
      TurnMarks(k, policy);
    }
    TurnsBalance(TurnOf(policy), Marker(policy), keys);
  }

  ghost predicate AllIdle(mark: Key -> Mark, keys: seq<Key>) {
    forall i | 0 <= i < |keys| :: mark(keys[i]) == Idle
  }

  /** Nothing that would be counted. */
  ghost predicate Quiet(mark: Key -> Mark, keys: seq<Key>) {
    forall i | 0 <= i < |keys| :: mark(keys[i]) == Idle || mark(keys[i]) == Silent
  }

  lemma MarkCons(mark: Key -> Mark, keys: seq<Key>)
    requires keys != []
    ensures AllIdle(mark, keys) <==> mark(keys[0]) == Idle && AllIdle(mark, keys[1..])
    ensures Quiet(mark, keys) <==> (mark(keys[0]) == Idle || mark(keys[0]) == Silent) && Quiet(mark, keys[1..])
  {
    assert keys == [keys[0]] + keys[1..];
  }

  lemma {:induction false} TurnsZero(turn: Cleaner, mark: Key -> Mark, keys: seq<Key>)
    requires Versioned(keys) && forall k :: MarksKey(turn, mark, k)
    ensures Turns(turn, keys, 0).changed == 0 <==> Quiet(mark, keys)
    decreases |keys|
  {
    if keys != [] {
      MarkCons(mark, keys);
      assert MarksKey(turn, mark, keys[0]);
      if !Outdated(keys[0]) && turn(keys[0]).count == 0 {
        TurnsZero(turn, mark, keys[1..]);
      }
    }
  }

  lemma {:induction false} TurnsSame(turn: Cleaner, mark: Key -> Mark, keys: seq<Key>, count: nat)
    requires Versioned(keys) && forall k :: MarksKey(turn, mark, k)
    ensures var r := Turns(turn, keys, count).keys; |r| <= |keys| && (r == keys <==> AllIdle(mark, keys))
    decreases |keys|
  {
    if keys != [] {
      var k, n := keys[0], if Outdated(keys[0]) then count else count + turn(keys[0]).count;
      MarkCons(mark, keys);
      assert MarksKey(turn, mark, k);
      TurnsSame(turn, mark, keys[1..], n);
      var rest := Turns(turn, keys[1..], n).keys;
      if !Outdated(k) && turn(k).key.uids != [] {
        assert ([turn(k).key] + rest)[1..] == rest && ([turn(k).key] + rest)[0] == turn(k).key;
        assert keys == [k] + keys[1..];
      }
    }
  }

  /**
   A return value of 0 is promised to mean that no changes were made. The list stays as it is exactly
   if every key is idle, while 0 is returned exactly if every key is idle or touched without a count.
   */
  lemma ZeroIff(keys: seq<Key>, policy: Policy)
    requires Versioned(keys)
    ensures CleanRun(keys, policy).changed == 0 <==> Quiet(Marker(policy), keys)
    ensures CleanRun(keys, policy).keys == keys <==> AllIdle(Marker(policy), keys)
  {
    forall k ensures MarksKey(TurnOf(policy), Marker(policy), k) {
      TurnMarks(k, policy);
    }
    TurnsZero(TurnOf(policy), Marker(policy), keys);
    TurnsSame(TurnOf(policy), Marker(policy), keys, 0);
  }

  // ------------------------------------------------------------------ inputs that fail

  lemma {:induction false} CountsSmall(k: seq<Kind>, i: nat)
    requires i <= |k|
    ensures ActivesTo(k, i) + RevokedsTo(k, i) <= i
  {
    if i > 0 {
      CountsSmall(k, i - 1);
    }
  }

  /** A key with few small packets and at most one signature on each. */
  lemma SmallInOrder(k: Key, policy: Policy)
    requires DistinctKey(k) && |k.uids| <= 4 && |k.sigs| <= 1 && AllFit(k.uids)
    requires forall i | 0 <= i < |k.uids| :: |k.uids[i].sigs| <= 1
    requires forall i | 0 <= i < |k.subkeys| :: |k.subkeys[i].sigs| <= 1
    ensures InOrder(k, policy)
  {
    CountsSmall(Kinds(k.uids, KindFor(PACKET_UID)), |k.uids|);
    CountsSmall(Kinds(k.uids, KindFor(PACKET_UAT)), |k.uids|);
  }

  lemma OneKey(k: Key, policy: Policy)
    requires k.primary.data != [] && !Outdated(k) && Count(k, policy) == 0
    ensures CleanRun([k], policy) == Outcome(if Cleaned(k, policy).uids == [] then [] else [Cleaned(k, policy)], 0)
  {
    assert [k][1..] == [];
    assert Turns(TurnOf(policy), [], 0) == Outcome([], 0);
  }

  /** A key without user ids is taken off the list with a result of 0. */
  lemma SilentRemoval(primary: Packet, policy: Policy)
    requires primary.data != [] && primary.data[0] >= 4
    ensures CleanRun([Key([], primary, false, [], [], [])], policy) == Outcome([], 0)
  {
    var k := Key([], primary, false, [], [], []);
    SmallInOrder(k, policy);
    CountIff(k, policy);
    InOrderFixed(k, policy);
    OneKey(k, policy);
  }

  function ExampleJudge(primary: Packet, p: Packet, s: Signature): (v: Verdict) {
    if s.issuer == 1 then BySelf else ByOther
  }

  /**
   A version 4 signature made at time zero: creation time in the hashed area, issuer in the other one,
   two octets of the hash and a number of one bit.
   */
  function SigOctets(kind: byte, issuer: byte): (d: seq<byte>) {
    [4, kind, 1, 8, 0, 6, 5, 2, 0, 0, 0, 0, 0, 10, 9, 16, 0, 0, 0, 0, 0, 0, 0, issuer, 0, 0, 0, 1, 1]
  }

  function SigBy(kind: byte, issuer: byte): (s: Signature) {
    Signature(Packet(PACKET_SIGNATURE, false, SigOctets(kind, issuer)), 4, kind, issuer, 0)
  }

  function ExampleSig(issuer: byte): (s: Signature) { SigBy(0x13, issuer) }

  function ExampleUid(n: byte, issuer: byte): (p: SignedPacket) {
    SignedPacket(Packet(PACKET_UID, false, [n]), [ExampleSig(issuer)])
  }

  function ExampleKey(uids: seq<SignedPacket>): (k: Key) {
    Key([1], Packet(PACKET_PUBLICKEY, false, [4]), false, [], uids, [])
  }

  function FullCheck(needOther: bool): (policy: Policy) {
    Policy(true, true, true, 0, 0, Check(true, fp => needOther, ExampleJudge))
  }

  lemma ExampleVerdict(primary: Packet, p: Packet, s: Signature)
    ensures Says(JudgeOf(ExampleJudge, primary), p)(s) == if s.issuer == 1 then BySelf else ByOther
  {
    assert Says(JudgeOf(ExampleJudge, primary), p)(s) == ExampleJudge(primary, p, s);
  }

  /** One packet with a signature by the key itself stays; one signed only by another goes. */
  lemma CheckedPair(primary: Packet, a: SignedPacket, b: SignedPacket)
    requires |a.sigs| == 1 && a.sigs[0].issuer == 1 && |b.sigs| == 1 && b.sigs[0].issuer == 2
    ensures var j := JudgeOf(ExampleJudge, primary);
            && CheckedList([a, b], true, j) == [a] && OtherSigned([a, b], j) && !OtherSigned([a], j)
  {
    var j := JudgeOf(ExampleJudge, primary);
    ExampleVerdict(primary, a.packet, a.sigs[0]);
    ExampleVerdict(primary, b.packet, b.sigs[0]);
    assert a.sigs == [a.sigs[0]] && a.sigs[1..] == [] && [a, b][1..] == [b] && [b][1..] == [];
    assert Passing(a.sigs, NotBad(Says(j, a.packet))) == a.sigs;
    assert CheckedPacket(a, true, Says(j, a.packet)) == [a] && CheckedPacket(b, true, Says(j, b.packet)) == [];
    assert CheckedList([b], true, j) == [];
    assert SomeIs([a, b][1].sigs, Says(j, [a, b][1].packet), ByOther);
  }

  lemma ExampleChecked(needOther: bool)
    ensures var a, b := ExampleUid(65, 1), ExampleUid(66, 2);
            && Checked(ExampleKey([a, b]), FullCheck(needOther).check) == ExampleKey([a])
            && Checked(ExampleKey([a]), FullCheck(true).check) == ExampleKey([])
  {
    CheckedPair(ExampleKey([]).primary, ExampleUid(65, 1), ExampleUid(66, 2));
  }

  lemma NeverBad(k: Key, check: Check)
    requires check.Check? && check.judge == ExampleJudge
    ensures Passes(k, check)
  {
    var j := JudgeOf(check.judge, k.primary);
    forall p: Packet, s: Signature ensures Says(j, p)(s) != Bad {
      assert Says(j, p)(s) == check.judge(k.primary, p, s) == ExampleJudge(k.primary, p, s);
    }
  }

  /** One key in order and without a bad signature: all that happens is what the checks do. */
  lemma OneInOrder(k: Key, policy: Policy, c: Key)
    requires k.primary.data != [] && !Outdated(k) && InOrder(k, policy) && Passes(k, policy.check)
    requires Checked(k, policy.check) == c
    ensures CleanRun([k], policy) == Outcome(if c.uids == [] then [] else [c], 0)
  {
    CountIff(k, policy);
    InOrderFixed(k, policy);
    OneKey(k, policy);
  }

  lemma ExampleInOrder(uids: seq<SignedPacket>, policy: Policy)
    requires 1 <= |uids| <= 2 && uids[0] == ExampleUid(65, 1) && (|uids| == 2 ==> uids[1] == ExampleUid(66, 2))
    ensures InOrder(ExampleKey(uids), policy)
  {
    SmallInOrder(ExampleKey(uids), policy);
  }

  /**
   With full verification a user id goes for lack of a self-signature, and the result is 0. If it
   carried the only signature by another key, a second run empties the key that the first one kept.
   */
  lemma UncountedRemoval(needOther: bool)
    ensures var a, b := ExampleUid(65, 1), ExampleUid(66, 2);
            && CleanRun([ExampleKey([a, b])], FullCheck(needOther)) == Outcome([ExampleKey([a])], 0)
            && CleanRun([ExampleKey([a])], FullCheck(true)) == Outcome([], 0)
  {
    var a, b := ExampleUid(65, 1), ExampleUid(66, 2);
    var x, y := ExampleKey([a, b]), ExampleKey([a]);
    ExampleChecked(needOther);
    ExampleInOrder([a, b], FullCheck(needOther));
    ExampleInOrder([a], FullCheck(true));
    NeverBad(x, FullCheck(needOther).check);
    NeverBad(y, FullCheck(true).check);
    OneInOrder(x, FullCheck(needOther), y);
    OneInOrder(y, FullCheck(true), ExampleKey([]));
  }

  lemma CountedTwice(turn: Cleaner, mark: Key -> Mark, x: Key, y: Key)
    requires x.primary.data != [] && y.primary.data != [] && forall k :: MarksKey(turn, mark, k)
    requires mark(x) == Busy && mark(y) == Idle
    ensures Turns(turn, [x, y], 0).changed == 2 && TouchedKeys(turn, [x, y]) == 1
  {
    var keys := [x, y];
    assert keys[1..] == [y] && [y][1..] == [];
    assert MarksKey(turn, mark, x) && MarksKey(turn, mark, y);
    assert TouchedKeys(turn, []) == 0 && Idles(mark, []) == 0;
    assert TouchedKeys(turn, [y]) == Bit(Touched(turn, y)) && Idles(mark, [y]) == Bit(mark(y) == Idle);
    TurnsBalance(turn, mark, keys);
  }

  /** A key with a user id twice before one that is left alone: both are counted, one is touched. */
  lemma OverCount(policy: Policy)
    requires policy.check == NoCheck
    ensures var a := ExampleUid(65, 1);
            var keys := [ExampleKey([a, a]), ExampleKey([a])];
            CleanRun(keys, policy).changed == 2 && TouchedKeys(TurnOf(policy), keys) == 1
  {
    var a := ExampleUid(65, 1);
    var x, y := ExampleKey([a, a]), ExampleKey([a]);
    assert !InOrder(x, policy) by {
      assert SamePacket(x.uids[0].packet, x.uids[1].packet);
    }
    ExampleInOrder([a], policy);
    forall k ensures MarksKey(TurnOf(policy), Marker(policy), k) {
      TurnMarks(k, policy);
    }
    CountedTwice(TurnOf(policy), Marker(policy), x, y);
  }
}
