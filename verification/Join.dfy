/**
 Merging as a join. Seen as a table "newest version 4 certification per packet, signature type
 and signer", a merge is the pointwise maximum, so stores that have seen the same keys agree,
 in whatever order, however often and in whatever portions the keys arrived.
 */
module Join {
  import opened Packets
  import opened SigDedupe
  import opened Merge
  import opened PublicKeys
  import opened KeyDb
  import opened DeltaReplay
  import opened Minimality

  /** A signer's certifications of one kind; revocations follow another rule. */
  datatype SignerClass = SignerClass(sigtype: nat, issuer: nat) {
    predicate Valid() { issuer != 0 && !IsRevocation(sigtype) }
  }

  predicate InClass(s: Signature, c: SignerClass) {
    s.version == 4 && s.sigtype == c.sigtype && s.issuer == c.issuer
  }

  /** One more than the newest creation time in the class, or zero if the class is empty. */
  function Newest(sigs: seq<Signature>, c: SignerClass): (n: nat) {
    if sigs == [] then 0
    else Max(if InClass(sigs[0], c) then sigs[0].created + 1 else 0, Newest(sigs[1..], c))
  }

  lemma {:induction false} NewestBounds(sigs: seq<Signature>, c: SignerClass, i: nat)
    requires i < |sigs| && InClass(sigs[i], c)
    ensures sigs[i].created < Newest(sigs, c)
  {
    if i > 0 {
      NewestBounds(sigs[1..], c, i - 1);
    }
  }

  lemma {:induction false} NewestAttained(sigs: seq<Signature>, c: SignerClass) returns (i: nat)
    requires Newest(sigs, c) > 0
    ensures i < |sigs| && InClass(sigs[i], c) && sigs[i].created + 1 == Newest(sigs, c)
  {
    if InClass(sigs[0], c) && sigs[0].created + 1 == Newest(sigs, c) {
      i := 0;
    } else {
      i := NewestAttained(sigs[1..], c);
      i := i + 1;
    }
  }

  /** If all of a's class is matched or outdone in b, b's newest is at least a's. */
  lemma NewestMonotone(a: seq<Signature>, b: seq<Signature>, c: SignerClass)
    requires forall i | 0 <= i < |a| && InClass(a[i], c) ::
               exists j | 0 <= j < |b| :: InClass(b[j], c) && a[i].created <= b[j].created
    ensures Newest(a, c) <= Newest(b, c)
  {
    if Newest(a, c) > 0 {
      var i := NewestAttained(a, c);
      var j :| 0 <= j < |b| && InClass(b[j], c) && a[i].created <= b[j].created;
      NewestBounds(b, c, j);
    }
  }

  lemma NewestSurvivors(s: seq<Signature>, c: SignerClass)
    requires c.Valid()
    ensures Newest(Survivors(s), c) == Newest(s, c)
  {
    var r := Survivors(s);
    forall i | 0 <= i < |s| && InClass(s[i], c)
      ensures exists j | 0 <= j < |r| :: InClass(r[j], c) && s[i].created <= r[j].created
    {
      var b := ClassKeepsBest(s, i);
      var j :| 0 <= j < |r| && r[j] == s[b];
    }
    NewestMonotone(s, r, c);
    forall j | 0 <= j < |r| && InClass(r[j], c)
      ensures exists i | 0 <= i < |s| :: InClass(s[i], c) && r[j].created <= s[i].created
    {
      var o := SurvivorFrom(s, r[j]);
    }
    NewestMonotone(r, s, c);
  }

  lemma {:induction false} NewestConcat(a: seq<Signature>, b: seq<Signature>, c: SignerClass)
    ensures Newest(a + b, c) == Max(Newest(a, c), Newest(b, c))
  {
    if a == [] {
      assert a + b == b;
    } else {
      assert (a + b)[1..] == a[1..] + b;
      NewestConcat(a[1..], b, c);
    }
  }

  lemma NewestFresh(stored: seq<Signature>, incoming: seq<Signature>, c: SignerClass)
    ensures Max(Newest(stored, c), Newest(Fresh(incoming, stored), c)) == Max(Newest(stored, c), Newest(incoming, c))
  {
    var f := Fresh(incoming, stored);
    forall j | 0 <= j < |f| && InClass(f[j], c)
      ensures exists i | 0 <= i < |incoming| :: InClass(incoming[i], c) && f[j].created <= incoming[i].created
    {
      var o := FreshOrigin(incoming, stored, j);
    }
    NewestMonotone(f, incoming, c);
    if Newest(incoming, c) > 0 {
      var i := NewestAttained(incoming, c);
      if Known(stored, incoming[i]) {
        var k :| 0 <= k < |stored| && SameSignature(stored[k], incoming[i]);
        NewestBounds(stored, c, k);
      } else {
        var m := FreshIn(incoming, stored, i);
        NewestBounds(f, c, m);
      }
    }
  }

  lemma NewestMerge(stored: seq<Signature>, incoming: seq<Signature>, c: SignerClass)
    requires c.Valid()
    ensures Newest(MergeSigs(stored, incoming), c) == Max(Newest(stored, c), Newest(incoming, c))
  {
    var f := Fresh(incoming, stored);
    NewestSurvivors(stored + f, c);
    NewestConcat(stored, f, c);
    NewestFresh(stored, incoming, c);
  }

  // ------------------------------------------------------- packets, keys, stores

  function Level(list: seq<SignedPacket>, p: Packet, c: SignerClass): (n: nat) {
    match Lookup(list, p)
    case Absent => 0
    case Present(sigs) => Newest(sigs, c)
  }

  /** merge_signed_packets takes the pointwise maximum. */
  lemma MergedLevel(stored: seq<SignedPacket>, incoming: seq<SignedPacket>, p: Packet, c: SignerClass)
    requires c.Valid()
    ensures Level(MergedList(stored, incoming), p, c) == Max(Level(stored, p, c), Level(incoming, p, c))
  {
    var m := MergedPackets(stored, incoming);
    HasMerged(stored, incoming, p);
    LookupConcat(m, Unseen(incoming, stored), p);
    var k := FindSigned(stored, p);
    if k < |stored| {
      FindSignedSame(incoming, stored[k].packet, p);
      assert m[k] == MergedPacket(stored[k], incoming);
      match Lookup(incoming, p)
      case Absent =>
      case Present(sigs) => NewestMerge(stored[k].sigs, sigs, c);
    } else {
      LookupUnseen(incoming, stored, p);
    }
  }

  datatype Part = Uids | Subkeys

  function PartOf(k: Key, part: Part): (r: seq<SignedPacket>) {
    match part
    case Uids => k.uids
    case Subkeys => k.subkeys
  }

  /** A place in the table: which packet of which key, certified by whom and how. */
  datatype Cell = Cell(fp: Fingerprint, part: Part, packet: Packet, signer: SignerClass)

  function KeyLevel(k: Key, cell: Cell): (n: nat) {
    Level(PartOf(k, cell.part), cell.packet, cell.signer)
  }

  /** merge_keys is a join: commutative, associative and idempotent on every cell. */
  lemma MergeIsJoin(a: Key, b: Key, d: Key, cell: Cell)
    requires cell.signer.Valid()
    ensures KeyLevel(MergedKey(a, b), cell) == Max(KeyLevel(a, cell), KeyLevel(b, cell))
    ensures KeyLevel(MergedKey(a, b), cell) == KeyLevel(MergedKey(b, a), cell)
    ensures KeyLevel(MergedKey(MergedKey(a, b), d), cell) == KeyLevel(MergedKey(a, MergedKey(b, d)), cell)
    ensures KeyLevel(MergedKey(a, a), cell) == KeyLevel(a, cell)
  {
    MergedKeyLevel(a, b, cell);
    MergedKeyLevel(b, a, cell);
    MergedKeyLevel(b, d, cell);
    MergedKeyLevel(a, a, cell);
    MergedKeyLevel(MergedKey(a, b), d, cell);
    MergedKeyLevel(a, MergedKey(b, d), cell);
  }

  lemma MergedKeyLevel(a: Key, b: Key, cell: Cell)
    requires cell.signer.Valid()
    ensures KeyLevel(MergedKey(a, b), cell) == Max(KeyLevel(a, cell), KeyLevel(b, cell))
  {
    MergedLevel(PartOf(a, cell.part), PartOf(b, cell.part), cell.packet, cell.signer);
  }

  function DbLevel(db: Db, cell: Cell): (n: nat) {
    if cell.fp in db then KeyLevel(db[cell.fp], cell) else 0
  }

  /** What one incoming key contributes to a cell. */
  function Offer(k: Key, banned: set<Fingerprint>, cell: Cell): (n: nat) {
    if k.fp == cell.fp && k.fp !in banned then KeyLevel(k, cell) else 0
  }

  function Offers(keys: seq<Key>, banned: set<Fingerprint>, cell: Cell): (n: nat) {
    if keys == [] then 0 else Max(Offer(keys[0], banned, cell), Offers(keys[1..], banned, cell))
  }

  lemma BareLevel(a: Key, b: Key, cell: Cell)
    requires Clean(a) && DistinctKey(b) && Bare(DeltaKey(a, b)) && cell.signer.Valid()
    ensures KeyLevel(b, cell) <= KeyLevel(a, cell)
  {
    ReplayKey(a, b);
    MergedKeyLevel(a, b, cell);
    MergedKeyLevel(a, DeltaKey(a, b), cell);
  }

  lemma StepLevel(db: Db, k: Key, banned: set<Fingerprint>, cell: Cell)
    requires CleanDb(db) && Clean(k) && cell.signer.Valid()
    ensures DbLevel(Step(db, k, banned, false).db, cell) == Max(DbLevel(db, cell), Offer(k, banned, cell))
  {
    if k.fp == cell.fp && k.fp in db && k.fp !in banned {
      if Bare(DeltaKey(db[k.fp], k)) {
        BareLevel(db[k.fp], k, cell);
      } else {
        MergedKeyLevel(db[k.fp], k, cell);
      }
    }
  }

  /** A whole run of generic_update_keys joins the store with everything on the list. */
  lemma {:induction false} UpdateIsJoin(db: Db, keys: seq<Key>, banned: set<Fingerprint>, cell: Cell)
    requires CleanDb(db) && CleanKeys(keys) && cell.signer.Valid()
    ensures DbLevel(Update(db, keys, banned, false).db, cell) == Max(DbLevel(db, cell), Offers(keys, banned, cell))
    decreases |keys|
  {
    if keys != [] {
      StepKeepsClean(db, keys[0], banned, false);
      StepLevel(db, keys[0], banned, cell);
      UpdateIsJoin(Turn(banned, false)(db, keys[0]).db, keys[1..], banned, cell);
    }
  }

  lemma {:induction false} OffersBound(keys: seq<Key>, banned: set<Fingerprint>, cell: Cell, i: nat)
    requires i < |keys|
    ensures Offer(keys[i], banned, cell) <= Offers(keys, banned, cell)
  {
    if i > 0 {
      OffersBound(keys[1..], banned, cell, i - 1);
    }
  }

  lemma {:induction false} OffersSubset(xs: seq<Key>, ys: seq<Key>, banned: set<Fingerprint>, cell: Cell)
    requires forall i | 0 <= i < |xs| :: xs[i] in ys
    ensures Offers(xs, banned, cell) <= Offers(ys, banned, cell)
  {
    if xs != [] {
      assert xs[0] in ys;
      var j :| 0 <= j < |ys| && ys[j] == xs[0];
      OffersBound(ys, banned, cell, j);
      assert forall i | 0 <= i < |xs[1..]| :: xs[1..][i] == xs[i + 1];
      OffersSubset(xs[1..], ys, banned, cell);
    }
  }

  /** Strong convergence: order and repetition of the keys do not matter, only which keys were seen. */
  lemma Convergence(db: Db, xs: seq<Key>, ys: seq<Key>, banned: set<Fingerprint>, cell: Cell)
    requires CleanDb(db) && CleanKeys(xs) && CleanKeys(ys) && cell.signer.Valid()
    requires forall k :: k in xs <==> k in ys
    ensures DbLevel(Update(db, xs, banned, false).db, cell) == DbLevel(Update(db, ys, banned, false).db, cell)
  {
    UpdateIsJoin(db, xs, banned, cell);
    UpdateIsJoin(db, ys, banned, cell);
    OffersSubset(xs, ys, banned, cell);
    OffersSubset(ys, xs, banned, cell);
  }

  /** `there` knows at least as much as `here`. */
  ghost predicate Dominates(there: Db, here: Db) {
    forall cell: Cell :: cell.signer.Valid() ==> DbLevel(here, cell) <= DbLevel(there, cell)
  }

  /**
   A peer that was up to date stays up to date: if `there` dominated `here`, then after `here` takes
   the keys and `there` is sent only the reduced list, it dominates again.
   */
  lemma SyncKeepsUp(here: Db, there: Db, keys: seq<Key>, banned: set<Fingerprint>)
    requires CleanDb(here) && CleanDb(there) && CleanKeys(keys) && Dominates(there, here)
    ensures var r := Update(here, keys, banned, false);
            Dominates(Update(there, r.kept, banned, false).db, r.db)
  {
    var r := Update(here, keys, banned, false);
    DeltaReplication(here, keys, banned, false);
    UpdateKeepsClean(here, keys, banned, false);
    forall cell: Cell | cell.signer.Valid()
      ensures DbLevel(r.db, cell) <= DbLevel(Update(there, r.kept, banned, false).db, cell)
    {
      UpdateIsJoin(here, r.kept, banned, cell);
      UpdateIsJoin(there, r.kept, banned, cell);
    }
  }

  // ------------------------------------------------------- revocations

  predicate IsCertRevocation(s: Signature) {
    (s.version == 4 || s.version == 5) && s.sigtype == SIGTYPE_CERT_REV
  }

  /** signedpacket_is_revoked. */
  predicate Revoked(sigs: seq<Signature>) {
    exists i | 0 <= i < |sigs| :: IsCertRevocation(sigs[i])
  }

  lemma RevokedSurvivors(s: seq<Signature>)
    ensures Revoked(Survivors(s)) <==> Revoked(s)
  {
    var r := Survivors(s);
    if Revoked(s) {
      var i :| 0 <= i < |s| && IsCertRevocation(s[i]);
      var b := ClassKeepsBest(s, i);
      var j :| 0 <= j < |r| && r[j] == s[b];
      assert IsCertRevocation(r[j]);
    }
    if Revoked(r) {
      var j :| 0 <= j < |r| && IsCertRevocation(r[j]);
      var o := SurvivorFrom(s, r[j]);
      assert IsCertRevocation(s[o]);
    }
  }

  /** After a merge the packet is revoked iff it was, or an incoming revocation was not taken for known. */
  lemma RevokedMergeIff(stored: seq<Signature>, incoming: seq<Signature>)
    ensures Revoked(MergeSigs(stored, incoming)) <==>
            Revoked(stored) || exists i | 0 <= i < |incoming| :: IsCertRevocation(incoming[i]) && !Known(stored, incoming[i])
  {
    var f := Fresh(incoming, stored);
    var all := stored + f;
    RevokedSurvivors(all);
    if Revoked(all) && !Revoked(stored) {
      var m :| 0 <= m < |all| && IsCertRevocation(all[m]);
      assert |stored| <= m;
      var o := FreshOrigin(incoming, stored, m - |stored|);
      assert IsCertRevocation(incoming[o]) && !Known(stored, incoming[o]);
    }
    if Revoked(stored) {
      var m :| 0 <= m < |stored| && IsCertRevocation(stored[m]);
      assert IsCertRevocation(all[m]);
    }
    if i :| 0 <= i < |incoming| && IsCertRevocation(incoming[i]) && !Known(stored, incoming[i]) {
      var m := FreshIn(incoming, stored, i);
      assert IsCertRevocation(all[|stored| + m]);
    }
  }

  /** With version 4 revocations that is a plain "or". */
  lemma RevokedMergeV4(stored: seq<Signature>, incoming: seq<Signature>)
    requires forall i | 0 <= i < |incoming| && IsCertRevocation(incoming[i]) :: incoming[i].version == 4
    ensures Revoked(MergeSigs(stored, incoming)) <==> Revoked(stored) || Revoked(incoming)
  {
    RevokedMergeIff(stored, incoming);
    if Revoked(incoming) {
      var i :| 0 <= i < |incoming| && IsCertRevocation(incoming[i]);
      if Known(stored, incoming[i]) {
        var k :| 0 <= k < |stored| && SameSignature(stored[k], incoming[i]);
        assert IsCertRevocation(stored[k]);
      }
    }
  }

  /** Not so for version 5: a revocation issued in the same second as a stored certification is lost. */
  lemma LostV5Revocation(cert: Signature, rev: Signature)
    requires cert.version == rev.version == 5 && cert.sigtype == 0x10 && rev.sigtype == SIGTYPE_CERT_REV
    requires cert.issuer == rev.issuer && cert.created == rev.created
    ensures Revoked([rev]) && !Revoked(MergeSigs([cert], [rev]))
  {
    assert IsCertRevocation([rev][0]);
    RevokedMergeIff([cert], [rev]);
    assert SameSignature([cert][0], rev);
  }

  ghost predicate UidRevoked(db: Db, fp: Fingerprint, p: Packet) {
    fp in db && Has(db[fp].uids, p) && Revoked(Lookup(db[fp].uids, p).sigs)
  }

  lemma MergeKeepsRevoked(stored: seq<SignedPacket>, incoming: seq<SignedPacket>, p: Packet)
    requires Has(stored, p) && Revoked(Lookup(stored, p).sigs)
    ensures Has(MergedList(stored, incoming), p) && Revoked(Lookup(MergedList(stored, incoming), p).sigs)
  {
    var m := MergedPackets(stored, incoming);
    HasMerged(stored, incoming, p);
    LookupConcat(m, Unseen(incoming, stored), p);
    var k := FindSigned(stored, p);
    assert m[k] == MergedPacket(stored[k], incoming);
    match Lookup(incoming, stored[k].packet)
    case Absent =>
    case Present(sigs) => RevokedMergeIff(stored[k].sigs, sigs);
  }

  lemma StepKeepsRevoked(db: Db, k: Key, banned: set<Fingerprint>, updateOnly: bool, fp: Fingerprint, p: Packet)
    requires UidRevoked(db, fp, p)
    ensures UidRevoked(Step(db, k, banned, updateOnly).db, fp, p)
  {
    if k.fp == fp {
      MergeKeepsRevoked(db[fp].uids, k.uids, p);
    }
  }

  /** A certification revocation, once stored on a UID, survives every later run. */
  lemma {:induction false} RevocationSurvives(
      db: Db, keys: seq<Key>, banned: set<Fingerprint>, updateOnly: bool, fp: Fingerprint, p: Packet)
    requires UidRevoked(db, fp, p)
    ensures UidRevoked(Update(db, keys, banned, updateOnly).db, fp, p)
    decreases |keys|
  {
    if keys != [] {
      StepKeepsRevoked(db, keys[0], banned, updateOnly, fp, p);
      RevocationSurvives(Turn(banned, updateOnly)(db, keys[0]).db, keys[1..], banned, updateOnly, fp, p);
    }
  }
}
