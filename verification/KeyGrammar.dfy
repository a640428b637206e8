/**
 From packets to keys and back (parse_keys and flatten_publickey of parsekey.c, section 11.1 of
 RFC 4880). Keys are here as they are parsed: packets in their places.
 */
module KeyGrammar {
  import opened Sequences
  import opened Packets

  datatype RawSigned = RawSigned(packet: Packet, sigs: seq<Packet>)

  datatype RawKey = RawKey(primary: Packet, revoked: bool, sigs: seq<Packet>, uids: seq<RawSigned>, subkeys: seq<RawSigned>)

  datatype Parsed = Refused | Accepted(keys: seq<RawKey>)

  /** A version 3 or 4 revocation of the key itself. */
  predicate IsKeyRevocation(p: Packet) {
    (|p.data| > 2 && p.data[0] == 3 && p.data[2] == SIGTYPE_KEY_REV) ||
    (|p.data| > 1 && p.data[0] == 4 && p.data[1] == SIGTYPE_KEY_REV)
  }

  // ------------------------------------------------------------------- parsing

  function AddSigLast(list: seq<RawSigned>, p: Packet): (r: seq<RawSigned>)
    requires list != []
    ensures |r| == |list|
  {
    var last := list[|list| - 1];
    list[..|list| - 1] + [last.(sigs := last.sigs + [p])]
  }

  /** A signature goes to the last subkey, else to the last user id, else to the key itself. */
  function AddSig(k: RawKey, p: Packet): (r: RawKey) {
    if k.subkeys != [] then k.(subkeys := AddSigLast(k.subkeys, p))
    else if k.uids != [] then k.(uids := AddSigLast(k.uids, p))
    else k.(sigs := k.sigs + [p], revoked := k.revoked || IsKeyRevocation(p))
  }

  predicate IsUser(tag: nat) { tag == PACKET_UID || tag == PACKET_UAT }

  function WithLast(keys: seq<RawKey>, k: RawKey): (r: seq<RawKey>)
    requires keys != []
  {
    keys[..|keys| - 1] + [k]
  }

  /** One turn of the parse_keys loop. */
  function Turn(keys: seq<RawKey>, p: Packet): (r: Parsed) {
    if p.tag == PACKET_PUBLICKEY then Accepted(keys + [RawKey(p, false, [], [], [])])
    else if p.tag == PACKET_SIGNATURE then
      if keys == [] then Refused else Accepted(WithLast(keys, AddSig(keys[|keys| - 1], p)))
    else if IsUser(p.tag) then
      if keys == [] || keys[|keys| - 1].subkeys != [] then Refused
      else
        var k := keys[|keys| - 1];
        Accepted(WithLast(keys, k.(uids := k.uids + [RawSigned(p, [])])))
    else if p.tag == PACKET_PUBLICSUBKEY then
      if keys == [] then Refused
      else
        var k := keys[|keys| - 1];
        Accepted(WithLast(keys, k.(subkeys := k.subkeys + [RawSigned(p, [])])))
    else Accepted(keys)
  }

  function Parse(keys: seq<RawKey>, ps: seq<Packet>): (r: Parsed)
    decreases |ps|
  {
    if ps == [] then Accepted(keys)
    else match Turn(keys, ps[0])
      case Refused => Refused
      case Accepted(more) => Parse(more, ps[1..])
  }

  // ---------------------------------------------------------------- flattening

  function FlattenSigned(list: seq<RawSigned>): (r: seq<Packet>) {
    if list == [] then []
    else FlattenSigned(list[..|list| - 1]) + ([list[|list| - 1].packet] + list[|list| - 1].sigs)
  }

  function Flatten(k: RawKey): (r: seq<Packet>) {
    [k.primary] + k.sigs + FlattenSigned(k.uids) + FlattenSigned(k.subkeys)
  }

  function FlattenAll(keys: seq<RawKey>): (r: seq<Packet>) {
    if keys == [] then [] else FlattenAll(keys[..|keys| - 1]) + Flatten(keys[|keys| - 1])
  }

  // ----------------------------------------------------- flatten after parse

  predicate Relevant(p: Packet) {
    p.tag == PACKET_PUBLICKEY || p.tag == PACKET_SIGNATURE || IsUser(p.tag) || p.tag == PACKET_PUBLICSUBKEY
  }

  /** The list without the kinds of packets the parser ignores. */
  function Filtered(ps: seq<Packet>): (r: seq<Packet>) {
    if ps == [] then [] else (if Relevant(ps[0]) then [ps[0]] else []) + Filtered(ps[1..])
  }

  lemma Prefix<T>(a: seq<T>, x: T)
    ensures (a + [x])[..|a|] == a && (a + [x])[|a|] == x
  {
  }

  lemma FlattenSignedSnoc(list: seq<RawSigned>, s: RawSigned)
    ensures FlattenSigned(list + [s]) == FlattenSigned(list) + ([s.packet] + s.sigs)
  {
    Prefix(list, s);
  }

  lemma FlattenNew(list: seq<RawSigned>, p: Packet)
    ensures FlattenSigned(list + [RawSigned(p, [])]) == FlattenSigned(list) + [p]
  {
    FlattenSignedSnoc(list, RawSigned(p, []));
    assert [p] + [] == [p];
  }

  lemma FlattenAllSnoc(keys: seq<RawKey>, k: RawKey)
    ensures FlattenAll(keys + [k]) == FlattenAll(keys) + Flatten(k)
  {
    Prefix(keys, k);
  }

  lemma FlattenSigLast(list: seq<RawSigned>, p: Packet)
    requires list != []
    ensures FlattenSigned(AddSigLast(list, p)) == FlattenSigned(list) + [p]
  {
    var last := list[|list| - 1];
    FlattenSignedSnoc(list[..|list| - 1], last.(sigs := last.sigs + [p]));
  }

  /** Placing a packet puts it at the end of what flattening gives. */
  lemma FlattenSubkey(k: RawKey, subkeys: seq<RawSigned>, p: Packet)
    requires FlattenSigned(subkeys) == FlattenSigned(k.subkeys) + [p]
    ensures Flatten(k.(subkeys := subkeys)) == Flatten(k) + [p]
  {
    ConcatAssoc([k.primary] + k.sigs + FlattenSigned(k.uids), FlattenSigned(k.subkeys), [p]);
  }

  lemma FlattenUser(k: RawKey, uids: seq<RawSigned>, p: Packet)
    requires k.subkeys == [] && FlattenSigned(uids) == FlattenSigned(k.uids) + [p]
    ensures Flatten(k.(uids := uids)) == Flatten(k) + [p]
  {
    ConcatAssoc([k.primary] + k.sigs, FlattenSigned(k.uids), [p]);
  }

  lemma FlattenSig(k: RawKey, p: Packet)
    ensures Flatten(AddSig(k, p)) == Flatten(k) + [p]
  {
    if k.subkeys != [] {
      FlattenSigLast(k.subkeys, p);
      FlattenSubkey(k, AddSigLast(k.subkeys, p), p);
    } else if k.uids != [] {
      FlattenSigLast(k.uids, p);
      FlattenUser(k, AddSigLast(k.uids, p), p);
    } else {
      ConcatAssoc([k.primary], k.sigs, [p]);
    }
  }

  lemma FlattenLast(keys: seq<RawKey>, k: RawKey, p: Packet)
    requires keys != [] && Flatten(k) == Flatten(keys[|keys| - 1]) + [p]
    ensures FlattenAll(WithLast(keys, k)) == FlattenAll(keys) + [p]
  {
    var front := keys[..|keys| - 1];
    FlattenAllSnoc(front, k);
    ConcatAssoc(FlattenAll(front), Flatten(keys[|keys| - 1]), [p]);
  }

  lemma TurnFlattens(keys: seq<RawKey>, p: Packet)
    requires Turn(keys, p).Accepted?
    ensures FlattenAll(Turn(keys, p).keys) == FlattenAll(keys) + (if Relevant(p) then [p] else [])
  {
    if p.tag == PACKET_PUBLICKEY {
      FlattenAllSnoc(keys, RawKey(p, false, [], [], []));
    } else if Relevant(p) {
      var k := keys[|keys| - 1];
      if p.tag == PACKET_SIGNATURE {
        FlattenSig(k, p);
        FlattenLast(keys, AddSig(k, p), p);
      } else if IsUser(p.tag) {
        FlattenNew(k.uids, p);
        FlattenUser(k, k.uids + [RawSigned(p, [])], p);
        FlattenLast(keys, k.(uids := k.uids + [RawSigned(p, [])]), p);
      } else {
        FlattenNew(k.subkeys, p);
        FlattenSubkey(k, k.subkeys + [RawSigned(p, [])], p);
        FlattenLast(keys, k.(subkeys := k.subkeys + [RawSigned(p, [])]), p);
      }
    }
  }

  /** Flattening what was parsed gives the packets back, but for the ignored kinds. */
  lemma {:induction false} FlattenAfterParse(keys: seq<RawKey>, ps: seq<Packet>)
    requires Parse(keys, ps).Accepted?
    ensures FlattenAll(Parse(keys, ps).keys) == FlattenAll(keys) + Filtered(ps)
    decreases |ps|
  {
    if ps != [] {
      var more := Turn(keys, ps[0]).keys;
      TurnFlattens(keys, ps[0]);
      FlattenAfterParse(more, ps[1..]);
      ConcatAssoc(FlattenAll(keys), if Relevant(ps[0]) then [ps[0]] else [], Filtered(ps[1..]));
    }
  }

  // ----------------------------------------------------- parse after flatten

  predicate AllSigs(ps: seq<Packet>) {
    forall i | 0 <= i < |ps| :: ps[i].tag == PACKET_SIGNATURE
  }

  predicate AnyRevocation(ps: seq<Packet>) {
    exists i | 0 <= i < |ps| :: IsKeyRevocation(ps[i])
  }

  predicate WellTaggedList(list: seq<RawSigned>, users: bool) {
    forall i | 0 <= i < |list| ::
      AllSigs(list[i].sigs) && if users then IsUser(list[i].packet.tag) else list[i].packet.tag == PACKET_PUBLICSUBKEY
  }

  /** Every packet is where its tag says, and the flag says whether a direct signature revokes the key. */
  predicate WellTagged(k: RawKey) {
    && k.primary.tag == PACKET_PUBLICKEY && AllSigs(k.sigs) && k.revoked == AnyRevocation(k.sigs)
    && WellTaggedList(k.uids, true) && WellTaggedList(k.subkeys, false)
  }

  lemma {:induction false} ParseConcat(keys: seq<RawKey>, a: seq<Packet>, b: seq<Packet>)
    ensures Parse(keys, a + b) ==
            match Parse(keys, a) case Refused => Refused case Accepted(more) => Parse(more, b)
    decreases |a|
  {
    if a == [] {
      assert a + b == b;
    } else {
      assert (a + b)[1..] == a[1..] + b;
      if Turn(keys, a[0]).Accepted? {
        ParseConcat(Turn(keys, a[0]).keys, a[1..], b);
      }
    }
  }

  lemma ParseOn(keys: seq<RawKey>, a: seq<Packet>, mid: seq<RawKey>, b: seq<Packet>, end: seq<RawKey>)
    requires Parse(keys, a) == Accepted(mid) && Parse(mid, b) == Accepted(end)
    ensures Parse(keys, a + b) == Accepted(end)
  {
    ParseConcat(keys, a, b);
  }

  lemma ParseSnoc(keys: seq<RawKey>, a: seq<Packet>, p: Packet, more: seq<RawKey>)
    requires Parse(keys, a) == Accepted(more)
    ensures Parse(keys, a + [p]) == Turn(more, p)
  {
    ParseConcat(keys, a, [p]);
    assert [p][1..] == [];
    assert Parse(more, [p]) == match Turn(more, p) case Refused => Refused case Accepted(ks) => Parse(ks, []);
  }

  /** Direct signatures, one after the other. */
  lemma {:induction false} ParseDirect(front: seq<RawKey>, p: Packet, sigs: seq<Packet>)
    requires p.tag == PACKET_PUBLICKEY && AllSigs(sigs)
    ensures Parse(front, [p] + sigs) == Accepted(front + [RawKey(p, AnyRevocation(sigs), sigs, [], [])])
    decreases |sigs|
  {
    if sigs == [] {
      assert [p] + sigs == [] + [p];
      ParseSnoc(front, [], p, front);
    } else {
      var init, s := sigs[..|sigs| - 1], sigs[|sigs| - 1];
      ParseDirect(front, p, init);
      var k := RawKey(p, AnyRevocation(init), init, [], []);
      ParseSnoc(front, [p] + init, s, front + [k]);
      assert [p] + sigs == ([p] + init) + [s];
      Prefix(front, k);
      assert init + [s] == sigs;
      assert AnyRevocation(sigs) == (AnyRevocation(init) || IsKeyRevocation(s)) by {
        assert forall i | 0 <= i < |init| :: sigs[i] == init[i];
      }
    }
  }

  function ListOf(k: RawKey, users: bool): (r: seq<RawSigned>) { if users then k.uids else k.subkeys }

  function WithList(k: RawKey, users: bool, list: seq<RawSigned>): (r: RawKey) {
    if users then k.(uids := list) else k.(subkeys := list)
  }

  function AddSigsLast(list: seq<RawSigned>, sigs: seq<Packet>): (r: seq<RawSigned>)
    requires list != []
  {
    var last := list[|list| - 1];
    list[..|list| - 1] + [last.(sigs := last.sigs + sigs)]
  }

  lemma AddSigsCons(list: seq<RawSigned>, sigs: seq<Packet>)
    requires list != []
    ensures sigs == [] ==> AddSigsLast(list, sigs) == list
    ensures sigs != [] ==> AddSigsLast(AddSigLast(list, sigs[0]), sigs[1..]) == AddSigsLast(list, sigs)
  {
    var init, last := list[..|list| - 1], list[|list| - 1];
    if sigs == [] {
      assert last.sigs + sigs == last.sigs;
    } else {
      Prefix(init, last.(sigs := last.sigs + [sigs[0]]));
      assert (last.sigs + [sigs[0]]) + sigs[1..] == last.sigs + sigs;
    }
  }

  /** The signatures on the packet that was placed last. */
  lemma {:induction false} ParseSigs(front: seq<RawKey>, k: RawKey, sigs: seq<Packet>, users: bool)
    requires AllSigs(sigs) && ListOf(k, users) != [] && (users ==> k.subkeys == [])
    ensures Parse(front + [k], sigs) == Accepted(front + [WithList(k, users, AddSigsLast(ListOf(k, users), sigs))])
    decreases |sigs|
  {
    AddSigsCons(ListOf(k, users), sigs);
    if sigs != [] {
      var next := WithList(k, users, AddSigLast(ListOf(k, users), sigs[0]));
      assert AddSig(k, sigs[0]) == next;
      Prefix(front, k);
      ParseSigs(front, next, sigs[1..], users);
    }
  }

  lemma ParseSigned(front: seq<RawKey>, k: RawKey, s: RawSigned, users: bool)
    requires AllSigs(s.sigs) && (users ==> k.subkeys == [])
    requires if users then IsUser(s.packet.tag) else s.packet.tag == PACKET_PUBLICSUBKEY
    ensures Parse(front + [k], [s.packet] + s.sigs) == Accepted(front + [WithList(k, users, ListOf(k, users) + [s])])
  {
    var k2 := WithList(k, users, ListOf(k, users) + [RawSigned(s.packet, [])]);
    TurnPlaces(front, k, s.packet, users);
    assert ([s.packet] + s.sigs)[1..] == s.sigs;
    ParseSigs(front, k2, s.sigs, users);
    SignedLast(ListOf(k, users), s);
  }

  /** A packet of its own kind starts a new entry. */
  lemma TurnPlaces(front: seq<RawKey>, k: RawKey, p: Packet, users: bool)
    requires users ==> k.subkeys == []
    requires if users then IsUser(p.tag) else p.tag == PACKET_PUBLICSUBKEY
    ensures Turn(front + [k], p) == Accepted(front + [WithList(k, users, ListOf(k, users) + [RawSigned(p, [])])])
  {
    Prefix(front, k);
  }

  lemma SignedLast(list: seq<RawSigned>, s: RawSigned)
    ensures AddSigsLast(list + [RawSigned(s.packet, [])], s.sigs) == list + [s]
  {
    Prefix(list, RawSigned(s.packet, []));
    assert [] + s.sigs == s.sigs;
  }

  /** User ids or subkeys with their signatures. */
  lemma {:induction false} ParseList(front: seq<RawKey>, k: RawKey, list: seq<RawSigned>, users: bool)
    requires WellTaggedList(list, users) && k.subkeys == [] && (users ==> k.uids == [])
    ensures Parse(front + [k], FlattenSigned(list)) == Accepted(front + [WithList(k, users, list)])
    decreases |list|
  {
    if list != [] {
      var init, s := list[..|list| - 1], list[|list| - 1];
      ParseList(front, k, init, users);
      ParseSigned(front, WithList(k, users, init), s, users);
      ParseOn(front + [k], FlattenSigned(init), front + [WithList(k, users, init)], [s.packet] + s.sigs,
              front + [WithList(WithList(k, users, init), users, init + [s])]);
      assert init + [s] == list;
    }
  }

  lemma ParseKey(front: seq<RawKey>, k: RawKey)
    requires WellTagged(k)
    ensures Parse(front, Flatten(k)) == Accepted(front + [k])
  {
    var k1 := RawKey(k.primary, k.revoked, k.sigs, [], []);
    ParseDirect(front, k.primary, k.sigs);
    ParseList(front, k1, k.uids, true);
    ParseConcat(front, [k.primary] + k.sigs, FlattenSigned(k.uids));
    ParseList(front, k1.(uids := k.uids), k.subkeys, false);
    ParseConcat(front, [k.primary] + k.sigs + FlattenSigned(k.uids), FlattenSigned(k.subkeys));
  }

  /** Parsing what was flattened rebuilds the keys, revocation flags included. */
  lemma {:induction false} ParseAfterFlatten(keys: seq<RawKey>)
    requires forall i | 0 <= i < |keys| :: WellTagged(keys[i])
    ensures Parse([], FlattenAll(keys)) == Accepted(keys)
  {
    if keys != [] {
      var front, k := keys[..|keys| - 1], keys[|keys| - 1];
      ParseAfterFlatten(front);
      ParseConcat([], FlattenAll(front), Flatten(k));
      ParseKey(front, k);
      assert front + [k] == keys;
    }
  }

  // ------------------------------------------------ what is accepted, and what comes of it

  lemma AnyRevocationSnoc(sigs: seq<Packet>, p: Packet)
    ensures AnyRevocation(sigs + [p]) == (AnyRevocation(sigs) || IsKeyRevocation(p))
  {
    var all := sigs + [p];
    assert all[|sigs|] == p && forall i | 0 <= i < |sigs| :: all[i] == sigs[i];
  }

  lemma AddSigWellTagged(k: RawKey, p: Packet)
    requires WellTagged(k) && p.tag == PACKET_SIGNATURE
    ensures WellTagged(AddSig(k, p))
  {
    AnyRevocationSnoc(k.sigs, p);
  }

  predicate AllWellTagged(keys: seq<RawKey>) {
    forall i | 0 <= i < |keys| :: WellTagged(keys[i])
  }

  lemma TurnWellTagged(keys: seq<RawKey>, p: Packet)
    requires AllWellTagged(keys) && Turn(keys, p).Accepted?
    ensures AllWellTagged(Turn(keys, p).keys)
  {
    if p.tag == PACKET_SIGNATURE {
      AddSigWellTagged(keys[|keys| - 1], p);
    }
  }

  /** Whatever is accepted becomes well-tagged keys, with the flag set exactly for revoked ones. */
  lemma {:induction false} ParsedWellTagged(keys: seq<RawKey>, ps: seq<Packet>)
    requires AllWellTagged(keys) && Parse(keys, ps).Accepted?
    ensures AllWellTagged(Parse(keys, ps).keys)
    decreases |ps|
  {
    if ps != [] {
      TurnWellTagged(keys, ps[0]);
      ParsedWellTagged(Turn(keys, ps[0]).keys, ps[1..]);
    }
  }

  /** How far into a key the packets have come. */
  datatype Place = Outside | InKey | InSubkeys

  function PlaceOf(keys: seq<RawKey>): (p: Place) {
    if keys == [] then Outside else if keys[|keys| - 1].subkeys == [] then InKey else InSubkeys
  }

  /** The order of packets that is asked for: a key first, and no user id after a subkey. */
  predicate Ordered(at: Place, ps: seq<Packet>)
    decreases |ps|
  {
    if ps == [] then true
    else if ps[0].tag == PACKET_PUBLICKEY then Ordered(InKey, ps[1..])
    else if !Relevant(ps[0]) then Ordered(at, ps[1..])
    else if ps[0].tag == PACKET_PUBLICSUBKEY then at != Outside && Ordered(InSubkeys, ps[1..])
    else (if IsUser(ps[0].tag) then at == InKey else at != Outside) && Ordered(at, ps[1..])
  }

  /** Packets are accepted exactly when they are in order. */
  lemma {:induction false} AcceptedIff(keys: seq<RawKey>, ps: seq<Packet>)
    ensures Parse(keys, ps).Accepted? <==> Ordered(PlaceOf(keys), ps)
    decreases |ps|
  {
    if ps != [] && Turn(keys, ps[0]).Accepted? {
      var more := Turn(keys, ps[0]).keys;
      AcceptedIff(more, ps[1..]);
      if ps[0].tag == PACKET_PUBLICKEY {
        Prefix(keys, RawKey(ps[0], false, [], [], []));
      } else if Relevant(ps[0]) {
        Prefix(keys[..|keys| - 1], more[|keys| - 1]);
      }
    }
  }

  // ------------------------------------------------------------------ the loops

  /** parse_keys, adding to a list of keys that may hold some already. */
  method ParseKeys(ps: seq<Packet>, before: seq<RawKey>) returns (ok: bool, keys: seq<RawKey>, count: nat)
    ensures ok == Parse(before, ps).Accepted?
    ensures ok ==> keys == Parse(before, ps).keys && count == |keys| - |before|
  {
    var todo := ps;
    keys, count := before, 0;
    while todo != []
      invariant Parse(keys, todo) == Parse(before, ps) && count == |keys| - |before|
      decreases |todo|
    {
      var p := todo[0];
      if p.tag == PACKET_SIGNATURE {
        if keys == [] {
          return false, keys, count;
        }
        keys := WithLast(keys, AddSig(keys[|keys| - 1], p));
      } else if p.tag == PACKET_PUBLICKEY {
        keys, count := keys + [RawKey(p, false, [], [], [])], count + 1;
      } else if IsUser(p.tag) {
        if keys == [] || keys[|keys| - 1].subkeys != [] {
          return false, keys, count;
        }
        var k := keys[|keys| - 1];
        keys := WithLast(keys, k.(uids := k.uids + [RawSigned(p, [])]));
      } else if p.tag == PACKET_PUBLICSUBKEY {
        if keys == [] {
          return false, keys, count;
        }
        var k := keys[|keys| - 1];
        keys := WithLast(keys, k.(subkeys := k.subkeys + [RawSigned(p, [])]));
      }
      todo := todo[1..];
    }
    ok := true;
  }

  /** The loop over user ids or subkeys in flatten_publickey. */
  method FlattenList(list: seq<RawSigned>) returns (ps: seq<Packet>)
    ensures ps == FlattenSigned(list)
  {
    ps := [];
    for i := 0 to |list|
      invariant ps == FlattenSigned(list[..i])
    {
      ps := ps + ([list[i].packet] + list[i].sigs);
      assert list[..i + 1][..i] == list[..i];
    }
    assert list[..|list|] == list;
  }

  /** flatten_publickey. */
  method FlattenKeys(keys: seq<RawKey>) returns (ps: seq<Packet>)
    ensures ps == FlattenAll(keys)
  {
    ps := [];
    for i := 0 to |keys|
      invariant ps == FlattenAll(keys[..i])
    {
      var k := keys[i];
      var uids := FlattenList(k.uids);
      var subkeys := FlattenList(k.subkeys);
      ps := ps + ([k.primary] + k.sigs + uids + subkeys);
      assert keys[..i + 1][..i] == keys[..i];
    }
    assert keys[..|keys|] == keys;
  }
}
