/** Keys out of one server and into another: flattened, written, armored, and all the way back. */
module Transfer {
  import opened Packets
  import KeyGrammar
  import PacketStream
  import Armor

  /** The packets that lie in these places. */
  ghost predicate ReadAs(d: seq<byte>, spans: seq<PacketStream.Span>, ps: seq<Packet>) {
    |spans| == |ps| && PacketStream.Hold(d, spans, ps, 0)
  }

  lemma ReadAsUnique(d: seq<byte>, spans: seq<PacketStream.Span>, ps: seq<Packet>, qs: seq<Packet>)
    requires ReadAs(d, spans, ps) && ReadAs(d, spans, qs)
    ensures ps == qs
  {
    forall i | 0 <= i < |ps| ensures ps[i] == qs[i] {
      assert PacketStream.HoldAt(d, spans, ps, 0, i) && PacketStream.HoldAt(d, spans, qs, 0, i);
    }
  }

  /**
   Whatever keys are sent out in armor, the receiver's header scanner stops at the data, its decoder
   gives the octets of the packet stream, its reader the packets, and its parser the same keys.
   */
  lemma KeysComeBack(keys: seq<KeyGrammar.RawKey>, read: seq<Packet>)
    requires KeyGrammar.AllWellTagged(keys) && PacketStream.AllReadable(KeyGrammar.FlattenAll(keys))
    ensures var d := PacketStream.BytesOf(KeyGrammar.FlattenAll(keys));
            var found := Armor.Scan(Armor.Armored(d), Armor.Hunt(1, 0));
            var r := PacketStream.ScanFrom(d, |d|, 0, 0, 0);
            && found.DataAt? && Armor.Feed(found.rest, Armor.Fresh, 0) == Armor.Fed(d, false)
            && r.status == PacketStream.Fine
            && (ReadAs(d, r.Packets(), read) <==> read == KeyGrammar.FlattenAll(keys))
            && (ReadAs(d, r.Packets(), read) ==> KeyGrammar.Parse([], read) == KeyGrammar.Accepted(keys))
  {
    var ps := KeyGrammar.FlattenAll(keys);
    var d := PacketStream.BytesOf(ps);
    Armor.ArmorRoundTrip(d);
    var k, offs := PacketStream.CutStreamReads(ps, |d|);
    if k < |ps| {
      PacketStream.Increasing(d, offs, ps, k + 1);
    }
    var r := PacketStream.ScanFrom(d, |d|, 0, 0, 0);
    assert ReadAs(d, r.Packets(), ps);
    if ReadAs(d, r.Packets(), read) {
      ReadAsUnique(d, r.Packets(), ps, read);
    }
    KeyGrammar.ParseAfterFlatten(keys);
  }

  // ------------------------------------------------------- a limit on the keys read

  function KeyCount(ps: seq<Packet>): (n: nat) {
    if ps == [] then 0 else KeyCount(ps[..|ps| - 1]) + PacketStream.Keys(ps[|ps| - 1].tag)
  }

  lemma {:induction false} KeyCountConcat(a: seq<Packet>, b: seq<Packet>)
    ensures KeyCount(a + b) == KeyCount(a) + KeyCount(b)
  {
    if b == [] {
      assert a + b == a;
    } else {
      KeyCountConcat(a, b[..|b| - 1]);
      assert (a + b)[..|a + b| - 1] == a + b[..|b| - 1];
    }
  }

  lemma {:induction false} SigsCount(sigs: seq<Packet>)
    requires KeyGrammar.AllSigs(sigs)
    ensures KeyCount(sigs) == 0
  {
    if sigs != [] {
      SigsCount(sigs[..|sigs| - 1]);
    }
  }

  lemma OneCount(p: Packet)
    ensures KeyCount([p]) == PacketStream.Keys(p.tag)
  {
    assert [p][..0] == [];
  }

  lemma {:induction false} SignedCount(list: seq<KeyGrammar.RawSigned>, users: bool)
    requires KeyGrammar.WellTaggedList(list, users)
    ensures KeyCount(KeyGrammar.FlattenSigned(list)) == 0
  {
    if list != [] {
      var init, s := list[..|list| - 1], list[|list| - 1];
      SignedCount(init, users);
      SigsCount(s.sigs);
      OneCount(s.packet);
      KeyCountConcat([s.packet], s.sigs);
      KeyCountConcat(KeyGrammar.FlattenSigned(init), [s.packet] + s.sigs);
    }
  }

  lemma FlattenCount(k: KeyGrammar.RawKey)
    requires KeyGrammar.WellTagged(k)
    ensures KeyCount(KeyGrammar.Flatten(k)) == 1
  {
    var direct, uids := [k.primary] + k.sigs, KeyGrammar.FlattenSigned(k.uids);
    OneCount(k.primary);
    SigsCount(k.sigs);
    SignedCount(k.uids, true);
    SignedCount(k.subkeys, false);
    KeyCountConcat([k.primary], k.sigs);
    KeyCountConcat(direct, uids);
    KeyCountConcat(direct + uids, KeyGrammar.FlattenSigned(k.subkeys));
  }

  lemma {:induction false} FlattenAllCount(keys: seq<KeyGrammar.RawKey>)
    requires KeyGrammar.AllWellTagged(keys)
    ensures KeyCount(KeyGrammar.FlattenAll(keys)) == |keys|
  {
    if keys != [] {
      var init, k := keys[..|keys| - 1], keys[|keys| - 1];
      FlattenAllCount(init);
      FlattenCount(k);
      KeyCountConcat(KeyGrammar.FlattenAll(init), KeyGrammar.Flatten(k));
    }
  }

  /** Reading goes past packets that hold fewer keys than are wanted. */
  lemma {:induction false} ReadsPast(ps: seq<Packet>, k: nat, wanted: nat)
    requires k <= |ps| && KeyCount(ps[..k]) < wanted
    ensures PacketStream.UpToKey(ps, 0, wanted) == PacketStream.UpToKey(ps, k, wanted - KeyCount(ps[..k]))
  {
    if k == 0 {
      assert ps[..0] == [];
    } else {
      assert ps[..k][..k - 1] == ps[..k - 1];
      ReadsPast(ps, k - 1, wanted);
    }
  }

  lemma {:induction false} FlattenPrefix(keys: seq<KeyGrammar.RawKey>, m: nat)
    requires m <= |keys|
    ensures KeyGrammar.FlattenAll(keys[..m]) <= KeyGrammar.FlattenAll(keys)
  {
    if m == |keys| {
      assert keys[..m] == keys;
    } else {
      FlattenPrefix(keys[..|keys| - 1], m);
      assert keys[..|keys| - 1][..m] == keys[..m];
    }
  }

  /** A key of which only the first packet is there. */
  function Stub(k: KeyGrammar.RawKey): (r: KeyGrammar.RawKey) { KeyGrammar.RawKey(k.primary, false, [], [], []) }

  /** The keys that come of reading at most `max`. */
  function LimitedTo(keys: seq<KeyGrammar.RawKey>, max: nat): (r: seq<KeyGrammar.RawKey>)
    requires max > 0
  {
    if |keys| < max then keys else keys[..max - 1] + [Stub(keys[max - 1])]
  }

  /** The packets read are those of these keys. */
  lemma LimitedPackets(keys: seq<KeyGrammar.RawKey>, max: nat)
    requires KeyGrammar.AllWellTagged(keys) && max > 0
    ensures var ps := KeyGrammar.FlattenAll(keys);
            KeyGrammar.FlattenAll(LimitedTo(keys, max)) == ps[..PacketStream.UpToKey(ps, 0, max)]
  {
    var ps := KeyGrammar.FlattenAll(keys);
    if |keys| < max {
      FlattenAllCount(keys);
      assert ps[..|ps|] == ps;
      ReadsPast(ps, |ps|, max);
    } else {
      var init, k := keys[..max - 1], keys[max - 1];
      var front := KeyGrammar.FlattenAll(init);
      FlattenAllCount(init);
      StubPrefix(keys, max);
      ReadsPast(ps, |front|, max);
      assert PacketStream.UpToKey(ps, |front|, 1) == PacketStream.UpToKey(ps, |front| + 1, 0) == |front| + 1;
    }
  }

  /** The first packet of key `max` and those of the keys before it come first. */
  lemma StubPrefix(keys: seq<KeyGrammar.RawKey>, max: nat)
    requires 0 < max <= |keys|
    ensures var ps, front := KeyGrammar.FlattenAll(keys), KeyGrammar.FlattenAll(keys[..max - 1]);
            && |front| < |ps| && ps[..|front|] == front && ps[|front|] == keys[max - 1].primary
            && KeyGrammar.FlattenAll(keys[..max - 1] + [Stub(keys[max - 1])]) == ps[..|front| + 1]
  {
    var init, k := keys[..max - 1], keys[max - 1];
    var front := KeyGrammar.FlattenAll(init);
    assert keys[..max] == init + [k];
    KeyGrammar.FlattenAllSnoc(init, k);
    KeyGrammar.FlattenAllSnoc(init, Stub(k));
    FlattenPrefix(keys, max);
    StubFlat(k);
    assert KeyGrammar.Flatten(k)[0] == k.primary;
    FirstOf(KeyGrammar.FlattenAll(keys), front, KeyGrammar.Flatten(k));
  }

  lemma FirstOf(ps: seq<Packet>, front: seq<Packet>, flat: seq<Packet>)
    requires front + flat <= ps && flat != []
    ensures ps[..|front|] == front && ps[|front|] == flat[0] && ps[..|front| + 1] == front + [flat[0]]
  {
    assert ps[|front|] == (front + flat)[|front|];
  }

  lemma StubFlat(k: KeyGrammar.RawKey)
    ensures KeyGrammar.Flatten(Stub(k)) == [k.primary]
  {
  }

  lemma LimitedSame(keys: seq<KeyGrammar.RawKey>, max: nat)
    requires KeyGrammar.AllWellTagged(keys) && max > 0
    ensures KeyGrammar.AllWellTagged(LimitedTo(keys, max))
    ensures LimitedTo(keys, max) == (if |keys| < max then keys else keys[..max]) <==>
            |keys| < max || (keys[max - 1].sigs == [] && keys[max - 1].uids == [] && keys[max - 1].subkeys == [])
  {
    if |keys| >= max {
      assert keys[..max] == keys[..max - 1] + [keys[max - 1]];
      assert LimitedTo(keys, max)[max - 1] == Stub(keys[max - 1]);
    }
  }

  lemma ReadPrefix(d: seq<byte>, spans: seq<PacketStream.Span>, ps: seq<Packet>, k: nat)
    requires k == |spans| <= |ps| && PacketStream.Hold(d, spans, ps, 0)
    ensures ReadAs(d, spans, ps[..k])
  {
    var read := ps[..k];
    forall j | 0 <= j < |spans| ensures PacketStream.HoldAt(d, spans, read, 0, j) {
      assert PacketStream.HoldAt(d, spans, ps, 0, j) && read[j] == ps[j];
    }
  }

  /**
   Reading at most `max` keys gives the last of them without signatures, user ids and subkeys, and
   so no longer revoked. The keys are those that were sent exactly when there are fewer of them
   than asked for, or when the last one had nothing but its first packet.
   */
  lemma LimitedKeys(keys: seq<KeyGrammar.RawKey>, max: nat)
    requires KeyGrammar.AllWellTagged(keys) && PacketStream.AllReadable(KeyGrammar.FlattenAll(keys)) && max > 0
    ensures var d := PacketStream.BytesOf(KeyGrammar.FlattenAll(keys));
            var r := PacketStream.ScanFrom(d, |d|, 0, 0, max);
            var read := KeyGrammar.FlattenAll(LimitedTo(keys, max));
            && r.status == PacketStream.Fine && ReadAs(d, r.Packets(), read)
            && KeyGrammar.Parse([], read) == KeyGrammar.Accepted(LimitedTo(keys, max))
    ensures LimitedTo(keys, max) == (if |keys| < max then keys else keys[..max]) <==>
            |keys| < max || (keys[max - 1].sigs == [] && keys[max - 1].uids == [] && keys[max - 1].subkeys == [])
  {
    var ps := KeyGrammar.FlattenAll(keys);
    var d, k := PacketStream.BytesOf(ps), PacketStream.UpToKey(ps, 0, max);
    PacketStream.LimitedRead(ps, max);
    ReadPrefix(d, PacketStream.ScanFrom(d, |d|, 0, 0, max).spans, ps, k);
    LimitedPackets(keys, max);
    LimitedSame(keys, max);
    KeyGrammar.ParseAfterFlatten(LimitedTo(keys, max));
  }
}
