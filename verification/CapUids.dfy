/**
 The two-queue cap on user ids and user attributes (cleankey.c): the oldest packets of a tag beyond
 a maximum are dropped, counted apart for active and for revoked ones, but one primary and one URN
 anchor among the active ones are spared.
 */
module CapUids {
  import opened Sequences
  import opened Packets

  /** How a packet of the list counts: of another tag, revoked, or active. */
  datatype Kind = Other | Revoked | Active(primary: bool, anchor: bool)

  function Bit(b: bool): (n: nat) { if b then 1 else 0 }

  /** How many of the first `i` packets are active. */
  function ActivesTo(k: seq<Kind>, i: nat): (n: nat)
    requires i <= |k|
  {
    if i == 0 then 0 else ActivesTo(k, i - 1) + Bit(k[i - 1].Active?)
  }

  function RevokedsTo(k: seq<Kind>, i: nat): (n: nat)
    requires i <= |k|
  {
    if i == 0 then 0 else RevokedsTo(k, i - 1) + Bit(k[i - 1].Revoked?)
  }

  function Actives(k: seq<Kind>): (n: nat) { ActivesTo(k, |k|) }

  function Revokeds(k: seq<Kind>): (n: nat) { RevokedsTo(k, |k|) }

  function Excess(n: nat, max: nat): (e: nat) { if n > max then n - max else 0 }

  function Min(a: nat, b: nat): (m: nat) { if a < b then a else b }

  predicate Primary(x: Kind) { x.Active? && x.primary }

  predicate Anchor(x: Kind) { x.Active? && x.anchor }

  // -------------------------------------------------- which packets are dropped

  predicate FirstPrimary(k: seq<Kind>, i: nat)
    requires i < |k|
  {
    Primary(k[i]) && forall j | 0 <= j < i :: !Primary(k[j])
  }

  /** The first anchor that is not already spared as the first primary. */
  predicate FirstAnchor(k: seq<Kind>, i: nat)
    requires i < |k|
  {
    Anchor(k[i]) && !FirstPrimary(k, i) && forall j | 0 <= j < i :: Anchor(k[j]) ==> FirstPrimary(k, j)
  }

  predicate Loose(k: seq<Kind>, i: nat)
    requires i < |k|
  {
    k[i].Active? && !FirstPrimary(k, i) && !FirstAnchor(k, i)
  }

  function LooseBefore(k: seq<Kind>, i: nat): (n: nat)
    requires i <= |k|
  {
    if i == 0 then 0 else LooseBefore(k, i - 1) + (if Loose(k, i - 1) then 1 else 0)
  }

  /** Packet `i` is among the `a` oldest active packets that are not spared, or the `r` oldest revoked ones. */
  predicate Dropped(k: seq<Kind>, i: nat, a: nat, r: nat)
    requires i < |k|
  {
    (Loose(k, i) && LooseBefore(k, i) < a) || (k[i].Revoked? && RevokedsTo(k, i) < r)
  }

  /** What is left of the first `i` elements, in their order. */
  function Kept<T>(s: seq<T>, k: seq<Kind>, a: nat, r: nat, i: nat): (t: seq<T>)
    requires i <= |s| == |k|
  {
    if i == 0 then [] else Kept(s, k, a, r, i - 1) + (if Dropped(k, i - 1, a, r) then [] else [s[i - 1]])
  }

  function Kinds(list: seq<SignedPacket>, kind: SignedPacket -> Kind): (k: seq<Kind>)
    ensures |k| == |list| && forall i | 0 <= i < |list| :: k[i] == kind(list[i])
  {
    seq(|list|, i requires 0 <= i < |list| => kind(list[i]))
  }

  /** The whole cap as a function. */
  function Capped(list: seq<SignedPacket>, kind: SignedPacket -> Kind, maxActive: nat, maxRevoked: nat):
    (t: seq<SignedPacket>)
  {
    var k := Kinds(list, kind);
    Kept(list, k, Excess(Actives(k), maxActive), Excess(Revokeds(k), maxRevoked), |list|)
  }

  // -------------------------------------------------------------------- counts

  lemma {:induction false} CountsFront(k: seq<Kind>, x: Kind, i: nat)
    requires i <= |k|
    ensures ActivesTo(k + [x], i) == ActivesTo(k, i) && RevokedsTo(k + [x], i) == RevokedsTo(k, i)
  {
    if i > 0 {
      CountsFront(k, x, i - 1);
    }
  }

  lemma CountsAppend(k: seq<Kind>, x: Kind)
    ensures Actives(k + [x]) == Actives(k) + Bit(x.Active?)
    ensures Revokeds(k + [x]) == Revokeds(k) + Bit(x.Revoked?)
  {
    CountsFront(k, x, |k|);
  }

  predicate PrimaryBefore(k: seq<Kind>, i: nat)
    requires i <= |k|
  {
    exists j | 0 <= j < i :: Primary(k[j])
  }

  predicate AnchorBefore(k: seq<Kind>, i: nat)
    requires i <= |k|
  {
    exists j | 0 <= j < i :: Anchor(k[j]) && !FirstPrimary(k, j)
  }

  /** Among the first `i` packets at most two are spared. */
  lemma {:induction false} SparedAtMostTwo(k: seq<Kind>, i: nat)
    requires i <= |k|
    ensures ActivesTo(k, i) == LooseBefore(k, i) + Bit(PrimaryBefore(k, i)) + Bit(AnchorBefore(k, i))
  {
    if i > 0 {
      SparedAtMostTwo(k, i - 1);
      FlagStep(k, i - 1);
    }
  }

  /** How one more packet moves the two flags. */
  lemma FlagStep(k: seq<Kind>, i: nat)
    requires i < |k|
    ensures FirstPrimary(k, i) == (Primary(k[i]) && !PrimaryBefore(k, i))
    ensures FirstAnchor(k, i) == (Anchor(k[i]) && !FirstPrimary(k, i) && !AnchorBefore(k, i))
    ensures PrimaryBefore(k, i + 1) == (PrimaryBefore(k, i) || FirstPrimary(k, i))
    ensures AnchorBefore(k, i + 1) == (AnchorBefore(k, i) || FirstAnchor(k, i))
  {
  }

  lemma KeptStep(k: seq<Kind>, a: nat, r: nat, i: nat)
    requires i < |k|
    ensures var before, after := Kept(k, k, a, r, i), Kept(k, k, a, r, i + 1);
            && Actives(after) == Actives(before) + Bit(k[i].Active? && !Dropped(k, i, a, r))
            && Revokeds(after) == Revokeds(before) + Bit(k[i].Revoked? && !Dropped(k, i, a, r))
  {
    var before := Kept(k, k, a, r, i);
    if Dropped(k, i, a, r) {
      assert before + [] == before;
    } else {
      CountsAppend(before, k[i]);
    }
  }

  lemma LooseStep(k: seq<Kind>, a: nat, r: nat, i: nat)
    requires i < |k|
    ensures Min(a, LooseBefore(k, i + 1)) == Min(a, LooseBefore(k, i)) + Bit(k[i].Active? && Dropped(k, i, a, r))
  {
  }

  lemma KeptActiveStep(k: seq<Kind>, a: nat, r: nat, i: nat)
    requires i < |k|
    ensures Actives(Kept(k, k, a, r, i + 1)) + Min(a, LooseBefore(k, i + 1)) ==
            Actives(Kept(k, k, a, r, i)) + Min(a, LooseBefore(k, i)) + Bit(k[i].Active?)
  {
    KeptStep(k, a, r, i);
    LooseStep(k, a, r, i);
  }

  /** How many active packets are left. */
  lemma {:induction false} KeptActives(k: seq<Kind>, a: nat, r: nat, i: nat)
    requires i <= |k|
    ensures Actives(Kept(k, k, a, r, i)) + Min(a, LooseBefore(k, i)) == ActivesTo(k, i)
  {
    if i > 0 {
      KeptActives(k, a, r, i - 1);
      KeptActiveStep(k, a, r, i - 1);
    }
  }

  /** How many revoked packets are left. */
  lemma {:induction false} KeptRevokeds(k: seq<Kind>, a: nat, r: nat, i: nat)
    requires i <= |k|
    ensures Revokeds(Kept(k, k, a, r, i)) + Min(r, RevokedsTo(k, i)) == RevokedsTo(k, i)
  {
    if i > 0 {
      KeptRevokeds(k, a, r, i - 1);
      KeptStep(k, a, r, i - 1);
    }
  }

  /** Taking kinds and dropping packets can be done in either order. */
  lemma {:induction false} KindsOfKept(list: seq<SignedPacket>, kind: SignedPacket -> Kind, a: nat, r: nat, i: nat)
    requires i <= |list|
    ensures var k := Kinds(list, kind); Kinds(Kept(list, k, a, r, i), kind) == Kept(k, k, a, r, i)
  {
    if i > 0 {
      KindsOfKept(list, kind, a, r, i - 1);
    }
  }

  /**
   With room for at least two active packets, exactly the excess is dropped: what is left has the
   smaller of the number there was and the maximum, for both classes.
   */
  lemma CapCounts(list: seq<SignedPacket>, kind: SignedPacket -> Kind, maxActive: nat, maxRevoked: nat)
    requires maxActive >= 2
    ensures var k, t := Kinds(list, kind), Kinds(Capped(list, kind, maxActive, maxRevoked), kind);
            && Actives(t) == Min(Actives(k), maxActive)
            && Revokeds(t) == Min(Revokeds(k), maxRevoked)
  {
    var k := Kinds(list, kind);
    var a, r := Excess(Actives(k), maxActive), Excess(Revokeds(k), maxRevoked);
    KindsOfKept(list, kind, a, r, |list|);
    KeptActives(k, a, r, |k|);
    KeptRevokeds(k, a, r, |k|);
    SparedAtMostTwo(k, |k|);
  }

  /** Nothing to drop: nothing changes. */
  lemma {:induction false} KeptAll<T>(s: seq<T>, k: seq<Kind>, i: nat)
    requires i <= |s| == |k|
    ensures Kept(s, k, 0, 0, i) == s[..i]
  {
    if i > 0 {
      KeptAll(s, k, i - 1);
    }
  }

  /** A second run drops nothing. */
  lemma CapIdempotent(list: seq<SignedPacket>, kind: SignedPacket -> Kind, maxActive: nat, maxRevoked: nat)
    requires maxActive >= 2
    ensures var t := Capped(list, kind, maxActive, maxRevoked); Capped(t, kind, maxActive, maxRevoked) == t
  {
    var t := Capped(list, kind, maxActive, maxRevoked);
    CapCounts(list, kind, maxActive, maxRevoked);
    KeptAll(t, Kinds(t, kind), |t|);
  }

  /** What is left was there, and did not meet the condition for going. */
  lemma {:induction false} KeptFrom<T>(s: seq<T>, k: seq<Kind>, a: nat, r: nat, i: nat, m: nat) returns (o: nat)
    requires i <= |s| == |k| && m < |Kept(s, k, a, r, i)|
    ensures o < i && Kept(s, k, a, r, i)[m] == s[o] && !Dropped(k, o, a, r)
  {
    if m < |Kept(s, k, a, r, i - 1)| {
      o := KeptFrom(s, k, a, r, i - 1, m);
    } else {
      o := i - 1;
    }
  }

  lemma {:induction false} KeptSize<T>(s: seq<T>, k: seq<Kind>, a: nat, r: nat, i: nat)
    requires i <= |s| == |k|
    ensures |Kept(s, k, a, r, i)| <= i
    ensures |Kept(s, k, a, r, i)| == i ==> Kept(s, k, a, r, i) == s[..i]
  {
    if i > 0 {
      KeptSize(s, k, a, r, i - 1);
    }
  }

  lemma CappedSize(list: seq<SignedPacket>, kind: SignedPacket -> Kind, maxActive: nat, maxRevoked: nat)
    ensures var t := Capped(list, kind, maxActive, maxRevoked); |t| <= |list| && (|t| == |list| ==> t == list)
  {
    var k := Kinds(list, kind);
    KeptSize(list, k, Excess(Actives(k), maxActive), Excess(Revokeds(k), maxRevoked), |list|);
  }

  lemma KindsStep(list: seq<SignedPacket>, kind: SignedPacket -> Kind, k: seq<Kind>, a: nat, r: nat, i: nat)
    requires i < |list| == |k|
    ensures var before, after := Kinds(Kept(list, k, a, r, i), kind), Kinds(Kept(list, k, a, r, i + 1), kind);
            after == before || after == before + [kind(list[i])]
  {
    if Dropped(k, i, a, r) {
      assert Kept(list, k, a, r, i + 1) == Kept(list, k, a, r, i);
    } else {
      assert Kinds(Kept(list, k, a, r, i + 1), kind) == Kinds(Kept(list, k, a, r, i), kind) + [kind(list[i])];
    }
  }

  lemma CountsStep(before: seq<Kind>, after: seq<Kind>, x: Kind)
    requires after == before || after == before + [x]
    ensures Actives(after) <= Actives(before) + Bit(x.Active?)
    ensures Revokeds(after) <= Revokeds(before) + Bit(x.Revoked?)
  {
    CountsAppend(before, x);
  }

  /** Dropping packets, for whatever reason, adds to no class. */
  lemma {:induction false} KeptCountsAny(list: seq<SignedPacket>, kind: SignedPacket -> Kind, k: seq<Kind>, a: nat, r: nat, i: nat)
    requires i <= |list| == |k|
    ensures Actives(Kinds(Kept(list, k, a, r, i), kind)) <= ActivesTo(Kinds(list, kind), i)
    ensures Revokeds(Kinds(Kept(list, k, a, r, i), kind)) <= RevokedsTo(Kinds(list, kind), i)
  {
    if i > 0 {
      KeptCountsAny(list, kind, k, a, r, i - 1);
      KindsStep(list, kind, k, a, r, i - 1);
      CountsStep(Kinds(Kept(list, k, a, r, i - 1), kind), Kinds(Kept(list, k, a, r, i), kind), kind(list[i - 1]));
    } else {
      assert Kinds(Kept(list, k, a, r, 0), kind) == [];
    }
  }

  /** The first primary and the first anchor among the active packets are never dropped, whatever the maxima. */
  lemma SparedKept(k: seq<Kind>, i: nat, a: nat, r: nat)
    requires i < |k|
    requires FirstPrimary(k, i) || (Anchor(k[i]) && forall j | 0 <= j < i :: !Anchor(k[j]))
    ensures !Dropped(k, i, a, r)
  {
  }

  /** The last packet is dropped. */
  ghost predicate LastGoes(k: seq<Kind>, maxActive: nat, maxRevoked: nat) {
    k != [] && Dropped(k, |k| - 1, Excess(Actives(k), maxActive), Excess(Revokeds(k), maxRevoked))
  }

  lemma LastStays(k: seq<Kind>, maxActive: nat, maxRevoked: nat)
    requires maxActive >= 3 && maxRevoked >= 1
    ensures !LastGoes(k, maxActive, maxRevoked)
  {
    if k != [] {
      SparedAtMostTwo(k, |k|);
    }
  }

  /** A primary, an anchor and an ordinary packet: with a maximum of two or less the last one goes. */
  lemma LastCanGo(maxActive: nat, maxRevoked: nat)
    requires maxActive <= 2
    ensures LastGoes([Active(true, false), Active(false, true), Active(false, false)], maxActive, maxRevoked)
  {
    var k := [Active(true, false), Active(false, true), Active(false, false)];
    assert FirstPrimary(k, 0) && FirstAnchor(k, 1) && !FirstAnchor(k, 2);
    assert LooseBefore(k, 1) == 0;
    CountsAppend([], k[0]);
    CountsAppend([k[0]], k[1]);
    CountsAppend([k[0], k[1]], k[2]);
    assert [] + [k[0]] == [k[0]] && [k[0]] + [k[1]] == [k[0], k[1]] && [k[0], k[1]] + [k[2]] == k;
  }

  lemma RevokedCanGo(maxActive: nat)
    ensures LastGoes([Revoked], maxActive, 0)
  {
    CountsAppend([], Revoked);
    assert [] + [Revoked] == [Revoked];
  }

  /**
   The tail pointer of the list is not adjusted, so the last packet must stay. It stays on every
   list exactly with maxima of at least three and one.
   */
  lemma LastStaysIff(maxActive: nat, maxRevoked: nat)
    ensures (forall k :: !LastGoes(k, maxActive, maxRevoked)) <==> maxActive >= 3 && maxRevoked >= 1
  {
    if maxActive >= 3 && maxRevoked >= 1 {
      forall k ensures !LastGoes(k, maxActive, maxRevoked) {
        LastStays(k, maxActive, maxRevoked);
      }
    } else if maxActive <= 2 {
      LastCanGo(maxActive, maxRevoked);
    } else {
      RevokedCanGo(maxActive);
    }
  }

  // ---------------------------------------------------------------- the method

  /** Pass 1 of cap_packet_type. */
  method CountKinds(list: seq<SignedPacket>, kind: SignedPacket -> Kind) returns (active: nat, revoked: nat)
    ensures active == Actives(Kinds(list, kind)) && revoked == Revokeds(Kinds(list, kind))
  {
    active, revoked := 0, 0;
    ghost var k := Kinds(list, kind);
    for i := 0 to |list|
      invariant active == ActivesTo(k, i) && revoked == RevokedsTo(k, i)
    {
      match kind(list[i])
      case Other =>
      case Revoked => revoked := revoked + 1;
      case Active(_, _) => active := active + 1;
    }
  }

  /** The counters and flags of pass 2. */
  datatype Sweep = Sweep(dropA: nat, dropR: nat, primaryKept: bool, anchorKept: bool) {
    /** Whether the next packet goes. */
    predicate Drops(x: Kind) {
      match x
      case Other => false
      case Revoked => dropR > 0
      case Active(primary, anchor) => dropA > 0 && !(!primaryKept && primary) && !(!anchorKept && anchor)
    }

    function Next(x: Kind): (t: Sweep) {
      match x
      case Other => this
      case Revoked => if dropR == 0 then this else this.(dropR := dropR - 1)
      case Active(primary, anchor) =>
        if dropA == 0 then this
        else if !primaryKept && primary then this.(primaryKept := true)
        else if !anchorKept && anchor then this.(anchorKept := true)
        else this.(dropA := dropA - 1)
    }
  }

  /** What pass 2 leaves of the packets from `i` on. */
  function Swept<T>(s: seq<T>, k: seq<Kind>, w: Sweep, i: nat): (t: seq<T>)
    requires i <= |s| == |k|
    decreases |s| - i
  {
    if i == |s| then [] else (if w.Drops(k[i]) then [] else [s[i]]) + Swept(s, k, w.Next(k[i]), i + 1)
  }

  /** What the counters and flags say when `i` packets have been passed. */
  ghost predicate InPass2(k: seq<Kind>, a: nat, r: nat, i: nat, w: Sweep)
    requires i <= |k|
  {
    && w.dropA == Excess(a, LooseBefore(k, i)) && w.dropR == Excess(r, RevokedsTo(k, i))
    && (w.dropA > 0 ==> w.primaryKept == PrimaryBefore(k, i) && w.anchorKept == AnchorBefore(k, i))
  }

  lemma Pass2Step(k: seq<Kind>, a: nat, r: nat, i: nat, w: Sweep)
    requires i < |k| && InPass2(k, a, r, i, w)
    ensures w.Drops(k[i]) == Dropped(k, i, a, r)
    ensures InPass2(k, a, r, i + 1, w.Next(k[i]))
  {
    FlagStep(k, i);
  }

  /** Counting down while sweeping drops exactly the packets described by `Dropped`. */
  lemma {:induction false} SweepIsKept<T>(s: seq<T>, k: seq<Kind>, a: nat, r: nat, i: nat, w: Sweep)
    requires i <= |s| == |k| && InPass2(k, a, r, i, w)
    ensures Kept(s, k, a, r, i) + Swept(s, k, w, i) == Kept(s, k, a, r, |s|)
    decreases |s| - i
  {
    if i < |s| {
      Pass2Step(k, a, r, i, w);
      SweepIsKept(s, k, a, r, i + 1, w.Next(k[i]));
      ConcatAssoc(Kept(s, k, a, r, i), if w.Drops(k[i]) then [] else [s[i]], Swept(s, k, w.Next(k[i]), i + 1));
    }
  }

  lemma {:induction false} SweptAll<T>(s: seq<T>, k: seq<Kind>, w: Sweep, i: nat)
    requires i <= |s| == |k| && w.dropA == 0 && w.dropR == 0
    ensures Swept(s, k, w, i) == s[i..]
    decreases |s| - i
  {
    if i < |s| {
      SweptAll(s, k, w, i + 1);
    }
  }

  lemma SweptStep<T>(s: seq<T>, k: seq<Kind>, w: Sweep, i: nat, front: seq<T>)
    requires i < |s| == |k|
    ensures front + Swept(s, k, w, i) ==
            (if w.Drops(k[i]) then front else front + [s[i]]) + Swept(s, k, w.Next(k[i]), i + 1)
  {
    if w.Drops(k[i]) {
      assert [] + Swept(s, k, w.Next(k[i]), i + 1) == Swept(s, k, w.Next(k[i]), i + 1);
    } else {
      ConcatAssoc(front, [s[i]], Swept(s, k, w.Next(k[i]), i + 1));
    }
  }

  /** Pass 2: a cursor splits the list; the packet under it is passed over or unlinked. */
  method SweepList(list: seq<SignedPacket>, kind: SignedPacket -> Kind, start: Sweep)
    returns (rest: seq<SignedPacket>, dropped: nat)
    ensures rest == Swept(list, Kinds(list, kind), start, 0)
    ensures dropped == |list| - |rest|
  {
    ghost var k := Kinds(list, kind);
    ghost var all := Swept(list, k, start, 0);
    ghost var i: nat := 0;
    var w, front, todo := start, [], list;
    dropped := 0;
    while todo != [] && (w.dropA > 0 || w.dropR > 0)
      invariant i <= |list| && todo == list[i..] && dropped == |list| - |front| - |todo|
      invariant front + Swept(list, k, w, i) == all
      decreases |todo|
    {
      var x := kind(todo[0]);
      SweptStep(list, k, w, i, front);
      if w.Drops(x) {
        dropped := dropped + 1;
      } else {
        front := front + [todo[0]];
      }
      w, todo, i := w.Next(x), todo[1..], i + 1;
    }
    if i < |list| {
      SweptAll(list, k, w, i);
    }
    rest := front + todo;
  }

  /** cap_packet_type. */
  method CapPacketType(list: seq<SignedPacket>, kind: SignedPacket -> Kind, maxActive: nat, maxRevoked: nat)
    returns (rest: seq<SignedPacket>, dropped: nat)
    ensures rest == Capped(list, kind, maxActive, maxRevoked)
    ensures dropped == |list| - |rest|
  {
    var active, revoked := CountKinds(list, kind);
    ghost var k := Kinds(list, kind);
    var dropA, dropR := Excess(active, maxActive), Excess(revoked, maxRevoked);
    if dropA == 0 && dropR == 0 {
      KeptAll(list, k, |list|);
      return list, 0;
    }
    var w := Sweep(dropA, dropR, false, false);
    rest, dropped := SweepList(list, kind, w);
    SweepIsKept(list, k, dropA, dropR, 0, w);
  }
}
