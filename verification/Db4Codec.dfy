/** What db4_store_key writes for a key is what db4_fetch_key_int reads: the codec the tables rely on. */
module Db4Codec {
  import opened Packets
  import opened KeyGrammar
  import PacketStream
  import Transfer
  import opened Db4Index

  /** The packets that lie in these places. */
  function PacketsAt(d: seq<byte>, spans: seq<PacketStream.Span>): (ps: seq<Packet>)
    ensures |ps| == |spans|
  {
    if spans == [] then []
    else
      var s := spans[0];
      [if s.start + s.len <= |d| then PacketStream.PacketOf(d, s) else Packet(0, false, [])] + PacketsAt(d, spans[1..])
  }

  /** read_openpgp_stream, then parse_keys. */
  function Decode(d: seq<byte>): (r: Fetched) {
    match Parse([], PacketsAt(d, PacketStream.ScanFrom(d, |d|, 0, 0, 0).Packets()))
    case Refused => Missing
    case Accepted(keys) => if keys == [] then Missing else Found(keys[0])
  }

  /** A key the codec is good for: every packet in its place, and readable. */
  predicate Storable(k: RawKey) {
    WellTagged(k) && PacketStream.AllReadable(Flatten(k))
  }

  /** flatten_publickey, then write_openpgp_stream. */
  function Encode(k: RawKey): (d: seq<byte>) {
    if Storable(k) then PacketStream.BytesOf(Flatten(k)) else []
  }

  lemma {:induction false} PacketsAtIndex(d: seq<byte>, spans: seq<PacketStream.Span>, i: nat)
    requires i < |spans| && spans[i].start + spans[i].len <= |d|
    ensures PacketsAt(d, spans)[i] == PacketStream.PacketOf(d, spans[i])
  {
    if i > 0 {
      PacketsAtIndex(d, spans[1..], i - 1);
    }
  }

  lemma ReadBack(d: seq<byte>, spans: seq<PacketStream.Span>, ps: seq<Packet>)
    requires Transfer.ReadAs(d, spans, ps)
    ensures PacketsAt(d, spans) == ps
  {
    var read := PacketsAt(d, spans);
    forall i | 0 <= i < |ps| ensures read[i] == ps[i] {
      assert PacketStream.HoldAt(d, spans, ps, 0, i);
      PacketsAtIndex(d, spans, i);
    }
  }

  lemma FlattenOne(k: RawKey)
    ensures FlattenAll([k]) == Flatten(k)
  {
    assert [k][..0] == [];
    assert FlattenAll([]) + Flatten(k) == Flatten(k);
  }

  lemma FetchUndoesStore(k: RawKey)
    requires Storable(k)
    ensures Decode(Encode(k)) == Found(k)
  {
    FlattenOne(k);
    var ps := Flatten(k);
    var d := Encode(k);
    Transfer.KeysComeBack([k], ps);
    ReadBack(d, PacketStream.ScanFrom(d, |d|, 0, 0, 0).Packets(), ps);
  }

  /** Any schema that uses this codec is sound, whatever it derives from keys. */
  lemma CodecSound(s: Schema)
    requires forall k {:trigger s.encode(k)} :: s.encode(k) == Encode(k)
    requires forall d {:trigger s.decode(d)} :: s.decode(d) == Decode(d)
    requires forall k {:trigger s.good(k)} :: s.good(k) ==> Storable(k)
    ensures Sound(s)
  {
    forall k | s.good(k) ensures s.decode(s.encode(k)) == Found(k) {
      FetchUndoesStore(k);
    }
  }
}
