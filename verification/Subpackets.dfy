/**
 Signature subpackets (section 5.2.3.1 of RFC 4880). Three functions walk them by hand: decodekey.c
 for issuer and creation time, aged.c for the key expiry and cleankey.c for the primary flag. All
 three are proved to read what one decoder, `Raws`, gives, and the decoder to undo the encoding.
 */
module Subpackets {
  import opened Packets
  import opened Octets

  const SIGSUB_CREATION := 2
  const SIGSUB_KEYEXPIRY := 9
  const SIGSUB_REVOCATION_KEY := 12
  const SIGSUB_ISSUER := 16
  const SIGSUB_PRIMARYUID := 25
  const SIGSUB_ISSUER_FINGER := 33
  const MAX_FINGERPRINT_LEN := 32

  // ------------------------------------------------------------------ decoding

  /** A decoded subpacket: its type octet, critical bit included, and its body. */
  datatype Raw = Raw(kind: byte, body: seq<byte>)

  /** A subpacket in place: its type octet is at `start`, and it is `len` octets with its body. */
  datatype Span = Span(start: nat, len: nat)

  datatype Found = Bad | Good(span: Span)

  function Fits(start: nat, len: nat, n: nat): (r: Found) {
    if len == 0 || start + len > n then Bad else Good(Span(start, len))
  }

  /** The subpacket whose length starts at `o`, in an area that ends at `n`. */
  function SpanAt(d: seq<byte>, n: nat, o: nat): (r: Found)
    requires o + 2 < n <= |d|
    ensures r.Good? ==> o < r.span.start && r.span.len >= 1 && r.span.start + r.span.len <= n
  {
    if d[o] < 192 then Fits(o + 1, d[o], n)
    else if d[o] < 255 then Fits(o + 2, (d[o] as int - 192) * 256 + d[o + 1] as int + 192, n)
    else if o + 5 > n then Bad
    else Fits(o + 5, Read32(d, o + 1), n)
  }

  predicate Inside(d: seq<byte>, s: Span) {
    1 <= s.len && s.start + s.len <= |d|
  }

  function RawAt(d: seq<byte>, s: Span): (r: Raw)
    requires Inside(d, s)
  {
    Raw(d[s.start], d[s.start + 1..s.start + s.len])
  }

  /** The subpackets up to the end of the area or the first malformed one; `ok` if none is malformed. */
  datatype Walk = Walk(spans: seq<Span>, ok: bool) {
    function After(s: Span): (w: Walk) { Walk([s] + spans, ok) }
  }

  function Decode(d: seq<byte>, n: nat, o: nat): (w: Walk)
    requires n <= |d|
    ensures forall i | 0 <= i < |w.spans| :: Inside(d, w.spans[i])
    decreases n - o
  {
    if o + 2 >= n then Walk([], true)
    else match SpanAt(d, n, o)
      case Bad => Walk([], false)
      case Good(s) => Decode(d, n, s.start + s.len).After(s)
  }

  // ------------------------------------------------------------------ encoding

  /** The three ways section 5.2.3.1 has of writing a length. */
  datatype Form = One | Two | Five

  predicate Applies(form: Form, len: nat) {
    match form
    case One => len < 192
    case Two => 192 <= len < 16320
    case Five => len < 0x1_0000_0000
  }

  function LengthOctets(form: Form, len: nat): (r: seq<byte>)
    requires Applies(form, len)
  {
    match form
    case One => [len]
    case Two => [(len - 192) / 256 + 192, (len - 192) % 256]
    case Five => [255, len / 256 / 256 / 256, len / 256 / 256 % 256, len / 256 % 256, len % 256]
  }

  /** A subpacket as it is written out: the octets of its length, then type and body. */
  datatype Sub = Sub(form: Form, raw: Raw) {
    predicate Valid() {
      Applies(form, 1 + |raw.body|)
    }

    function Length(): (r: seq<byte>)
      requires Valid()
      ensures |r| >= 1
    {
      LengthOctets(form, 1 + |raw.body|)
    }

    function Bytes(): (r: seq<byte>)
      requires Valid()
      ensures |r| == |Length()| + 1 + |raw.body|
    {
      Length() + ([raw.kind] + raw.body)
    }
  }

  predicate AllValid(subs: seq<Sub>) {
    subs == [] || (subs[0].Valid() && AllValid(subs[1..]))
  }

  function BytesOf(subs: seq<Sub>): (r: seq<byte>)
    requires AllValid(subs)
  {
    if subs == [] then [] else subs[0].Bytes() + BytesOf(subs[1..])
  }

  /** The loops run while more than two octets are left. */
  predicate Looked(subs: seq<Sub>)
    requires AllValid(subs)
  {
    |subs| > 1 || (|subs| == 1 && |subs[0].Bytes()| > 2)
  }

  /** What the walkers get to see of a list: not a last subpacket of two octets, which has no body. */
  function Seen(subs: seq<Sub>): (r: seq<Raw>)
    requires AllValid(subs)
  {
    if Looked(subs) then [subs[0].raw] + Seen(subs[1..]) else []
  }

  /** The spans hold these subpackets. */
  ghost predicate Hold(d: seq<byte>, spans: seq<Span>, raws: seq<Raw>) {
    |spans| == |raws| && forall i | 0 <= i < |spans| :: HoldAt(d, spans, raws, i)
  }

  ghost predicate HoldAt(d: seq<byte>, spans: seq<Span>, raws: seq<Raw>, i: nat)
    requires i < |spans| == |raws|
  {
    Inside(d, spans[i]) && RawAt(d, spans[i]) == raws[i]
  }

  // --------------------------------------------------- decoding undoes encoding

  /** Length octets are read back as the length they were made from, whatever follows. */
  lemma LengthReadBack(d: seq<byte>, n: nat, o: nat, form: Form, len: nat, l: seq<byte>)
    requires Applies(form, len) && l == LengthOctets(form, len) && 1 <= len
    requires o + |l| + len <= n <= |d| && o + 2 < n && d[o..o + |l|] == l
    ensures SpanAt(d, n, o) == Good(Span(o + |l|, len))
  {
    SliceAt(d, o, l, 0);
    match form
    case One =>
    case Two => SliceAt(d, o, l, 1);
    case Five =>
      SliceAt(d, o, l, 1);
      SliceAt(d, o, l, 2);
      SliceAt(d, o, l, 3);
      SliceAt(d, o, l, 4);
      Split32(len);
  }

  lemma SpanOfWritten(d: seq<byte>, n: nat, o: nat, s: Sub)
    requires s.Valid() && o + |s.Bytes()| <= n <= |d| && o + 2 < n && d[o..o + |s.Bytes()|] == s.Bytes()
    ensures SpanAt(d, n, o) == Good(Span(o + |s.Length()|, 1 + |s.raw.body|))
    ensures RawAt(d, Span(o + |s.Length()|, 1 + |s.raw.body|)) == s.raw
  {
    var l, b := s.Length(), s.Bytes();
    Cut(d, o, o + |b|, l, [s.raw.kind] + s.raw.body);
    LengthReadBack(d, n, o, s.form, 1 + |s.raw.body|, l);
    Cut(d, o + |l|, o + |b|, [s.raw.kind], s.raw.body);
    SliceAt(d, o + |l|, [s.raw.kind], 0);
  }

  lemma LookedSize(subs: seq<Sub>)
    requires AllValid(subs)
    ensures Looked(subs) <==> |BytesOf(subs)| > 2
  {
    if |subs| > 1 {
      assert BytesOf(subs[1..]) == subs[1..][0].Bytes() + BytesOf(subs[1..][1..]);
    }
  }

  lemma WalkStep(d: seq<byte>, n: nat, o: nat, s: Span)
    requires o + 2 < n <= |d| && SpanAt(d, n, o) == Good(s)
    ensures Decode(d, n, o) == Decode(d, n, s.start + s.len).After(s)
  {
  }

  lemma WalkStop(d: seq<byte>, n: nat, o: nat)
    requires n <= |d| && (o + 2 >= n || SpanAt(d, n, o) == Bad)
    ensures Decode(d, n, o) == Walk([], o + 2 >= n)
  {
  }

  lemma HoldCons(d: seq<byte>, s: Span, spans: seq<Span>, raws: seq<Raw>)
    requires Inside(d, s) && Hold(d, spans, raws)
    ensures Hold(d, [s] + spans, [RawAt(d, s)] + raws)
  {
    forall i | 0 <= i <= |spans| ensures HoldAt(d, [s] + spans, [RawAt(d, s)] + raws, i) {
      if i > 0 {
        assert HoldAt(d, spans, raws, i - 1);
      }
    }
  }

  ghost predicate Written(d: seq<byte>, n: nat, o: nat, subs: seq<Sub>) {
    AllValid(subs) && o <= n <= |d| && d[o..n] == BytesOf(subs)
  }

  ghost predicate Recovers(d: seq<byte>, n: nat, o: nat, subs: seq<Sub>)
    requires AllValid(subs) && n <= |d|
  {
    Decode(d, n, o).ok && Hold(d, Decode(d, n, o).spans, Seen(subs))
  }

  lemma WrittenRest(d: seq<byte>, n: nat, o: nat, subs: seq<Sub>)
    requires Written(d, n, o, subs) && Looked(subs)
    ensures Written(d, n, o + |subs[0].Bytes()|, subs[1..])
  {
    Cut(d, o, n, subs[0].Bytes(), BytesOf(subs[1..]));
  }

  /** Where the first subpacket lies. */
  lemma FirstWritten(d: seq<byte>, n: nat, o: nat, subs: seq<Sub>) returns (s: Span)
    requires Written(d, n, o, subs) && Looked(subs)
    ensures o + 2 < n && SpanAt(d, n, o) == Good(s) && Inside(d, s) && RawAt(d, s) == subs[0].raw
    ensures s.start + s.len == o + |subs[0].Bytes()|
  {
    s := Span(o + |subs[0].Length()|, 1 + |subs[0].raw.body|);
    LookedSize(subs);
    Cut(d, o, n, subs[0].Bytes(), BytesOf(subs[1..]));
    SpanOfWritten(d, n, o, subs[0]);
  }

  lemma DecodeCons(d: seq<byte>, n: nat, o: nat, s: Span, raws: seq<Raw>)
    requires o + 2 < n <= |d| && SpanAt(d, n, o) == Good(s) && Inside(d, s)
    requires Decode(d, n, s.start + s.len).ok && Hold(d, Decode(d, n, s.start + s.len).spans, raws)
    ensures Decode(d, n, o).ok && Hold(d, Decode(d, n, o).spans, [RawAt(d, s)] + raws)
  {
    WalkStep(d, n, o, s);
    HoldCons(d, s, Decode(d, n, s.start + s.len).spans, raws);
  }

  lemma RecoverStep(d: seq<byte>, n: nat, o: nat, subs: seq<Sub>)
    requires Written(d, n, o, subs) && Looked(subs) && Recovers(d, n, o + |subs[0].Bytes()|, subs[1..])
    ensures Recovers(d, n, o, subs)
  {
    var s := FirstWritten(d, n, o, subs);
    DecodeCons(d, n, o, s, Seen(subs[1..]));
  }

  /**
   Walking a written list, in whatever forms its lengths are written, finds every subpacket with
   its type and body. The one exception is a last subpacket of two octets in all: the loops stop
   before it.
   */
  lemma {:induction false} WalkFindsAll(d: seq<byte>, n: nat, o: nat, subs: seq<Sub>)
    requires Written(d, n, o, subs)
    ensures Recovers(d, n, o, subs)
    decreases |subs|
  {
    if Looked(subs) {
      WrittenRest(d, n, o, subs);
      WalkFindsAll(d, n, o + |subs[0].Bytes()|, subs[1..]);
      RecoverStep(d, n, o, subs);
    } else {
      LookedSize(subs);
      WalkStop(d, n, o);
    }
  }

  // ------------------------------------------------------- the three walkers

  /** The hashed area of a signature's `data[4..]`: its two count octets are included. */
  function AreaEnd(d: seq<byte>): (n: nat)
    requires |d| >= 2
    ensures 2 <= n
  {
    d[0] as int * 256 + d[1] as int + 2
  }

  /** How aged.c and cleankey.c read a subpacket length. */
  method ReadLength(d: seq<byte>, n: nat, o: nat) returns (ok: bool, offset: nat, len: nat)
    requires o + 2 < n <= |d|
    ensures SpanAt(d, n, o) == if ok then Good(Span(offset, len)) else Bad
  {
    len, offset := d[o], o + 1;
    if 191 < len < 255 {
      len, offset := (len - 192) * 256 + d[offset] + 192, offset + 1;
    } else if len == 255 {
      if offset + 4 > n {
        return false, offset, len;
      }
      len, offset := Read32(d, offset), offset + 4;
    }
    ok := len != 0 && len <= n - offset;
  }

  /**
   How decodekey.c reads it, with a guard one octet stricter. It gives the same result on every
   input: a subpacket that ends with its length octets is refused either way.
   */
  method ReadLengthStrict(d: seq<byte>, n: nat, o: nat) returns (ok: bool, offset: nat, len: nat)
    requires o + 2 < n <= |d|
    ensures SpanAt(d, n, o) == if ok then Good(Span(offset, len)) else Bad
  {
    len, offset := d[o], o + 1;
    if 191 < len < 255 {
      len, offset := (len - 192) * 256 + d[offset] + 192, offset + 1;
    } else if len == 255 {
      if offset + 5 > n {
        return false, offset, len;
      }
      var b0: int, b1: int, b2: int, b3: int := d[offset], d[offset + 1], d[offset + 2], d[offset + 3];
      len := ((b0 * 256 + b1) * 256 + b2) * 256 + b3;
      offset := offset + 4;
    }
    ok := len != 0 && len <= n - offset;
  }

  /** A type octet without its critical bit. */
  function LowBits(b: byte): (t: nat) {
    if b < 128 then b else b - 128
  }

  predicate AllInside(d: seq<byte>, spans: seq<Span>) {
    forall i | 0 <= i < |spans| :: Inside(d, spans[i])
  }

  predicate IsExpiry(d: seq<byte>, s: Span)
    requires Inside(d, s)
  {
    LowBits(d[s.start]) == SIGSUB_KEYEXPIRY && s.len >= 5
  }

  /** The value of the first key expiry subpacket, 0 without one. */
  function FirstExpiry(d: seq<byte>, spans: seq<Span>): (v: nat)
    requires AllInside(d, spans)
  {
    if spans == [] then 0
    else if IsExpiry(d, spans[0]) then Read32(d, spans[0].start + 1)
    else FirstExpiry(d, spans[1..])
  }

  /** What the rest of the area, from `o` on, says of a key expiry. */
  function ExpiryFrom(d: seq<byte>, n: nat, o: nat): (v: nat)
    requires n <= |d|
  {
    FirstExpiry(d, Decode(d, n, o).spans)
  }

  lemma ExpiryStep(d: seq<byte>, n: nat, o: nat, s: Span)
    requires o + 2 < n <= |d| && SpanAt(d, n, o) == Good(s)
    ensures ExpiryFrom(d, n, o) == if IsExpiry(d, s) then Read32(d, s.start + 1) else ExpiryFrom(d, n, s.start + s.len)
  {
    var w := Decode(d, n, s.start + s.len);
    WalkStep(d, n, o, s);
    assert w.After(s).spans[1..] == w.spans;
  }

  /** The loop of find_keyexpiry_in_sig over a hashed area. */
  method ScanForExpiry(d: seq<byte>, n: nat) returns (v: nat)
    requires 2 <= n <= |d|
    ensures v == ExpiryFrom(d, n, 2)
  {
    var o := 2;
    while o + 2 < n
      invariant 2 <= o <= n
      invariant ExpiryFrom(d, n, 2) == ExpiryFrom(d, n, o)
    {
      var ok, start, len := ReadLength(d, n, o);
      if !ok {
        WalkStop(d, n, o);
        return 0;
      }
      ExpiryStep(d, n, o, Span(start, len));
      if LowBits(d[start]) == SIGSUB_KEYEXPIRY && len >= 5 {
        return Read32(d, start + 1);
      }
      o := start + len;
    }
    WalkStop(d, n, o);
    return 0;
  }

  /** The first six octets are there, version 4 or 5, and the hashed area fits. */
  predicate HasArea(sig: seq<byte>) {
    |sig| >= 6 && (sig[0] == 4 || sig[0] == 5) && AreaEnd(sig[4..]) <= |sig| - 4
  }

  function HashedSpans(sig: seq<byte>): (r: seq<Span>)
    requires HasArea(sig)
    ensures AllInside(sig[4..], r)
  {
    Decode(sig[4..], AreaEnd(sig[4..]), 2).spans
  }

  function KeyExpiryOf(sig: seq<byte>): (v: nat) {
    if HasArea(sig) then FirstExpiry(sig[4..], HashedSpans(sig)) else 0
  }

  /** find_keyexpiry_in_sig. */
  method FindKeyExpiry(sig: seq<byte>) returns (v: nat)
    ensures v == KeyExpiryOf(sig)
  {
    if |sig| < 6 || (sig[0] != 4 && sig[0] != 5) {
      return 0;
    }
    var d := sig[4..];
    var n := AreaEnd(d);
    if n > |d| {
      return 0;
    }
    v := ScanForExpiry(d, n);
  }

  predicate FlagsPrimary(d: seq<byte>, s: Span)
    requires Inside(d, s)
  {
    LowBits(d[s.start]) == SIGSUB_PRIMARYUID && s.len >= 2 && d[s.start + 1] != 0
  }

  predicate AnyPrimary(d: seq<byte>, spans: seq<Span>)
    requires AllInside(d, spans)
  {
    exists i | 0 <= i < |spans| :: FlagsPrimary(d, spans[i])
  }

  /** A certification (0x10 to 0x13) whose hashed area carries a non-zero primary flag. */
  predicate MarksPrimary(sig: seq<byte>) {
    HasArea(sig) && 0x10 <= sig[1] <= 0x13 && AnyPrimary(sig[4..], HashedSpans(sig))
  }

  /** Whether the rest of the area, from `o` on, carries the flag. */
  predicate PrimaryFrom(d: seq<byte>, n: nat, o: nat)
    requires n <= |d|
  {
    AnyPrimary(d, Decode(d, n, o).spans)
  }

  lemma PrimaryStep(d: seq<byte>, n: nat, o: nat, s: Span)
    requires o + 2 < n <= |d| && SpanAt(d, n, o) == Good(s)
    ensures PrimaryFrom(d, n, o) == (FlagsPrimary(d, s) || PrimaryFrom(d, n, s.start + s.len))
  {
    WalkStep(d, n, o, s);
    AnyPrimaryStep(d, s, Decode(d, n, s.start + s.len));
  }

  lemma AnyPrimaryStep(d: seq<byte>, s: Span, w: Walk)
    requires Inside(d, s) && AllInside(d, w.spans)
    ensures AllInside(d, w.After(s).spans)
    ensures AnyPrimary(d, w.After(s).spans) == (FlagsPrimary(d, s) || AnyPrimary(d, w.spans))
  {
    var all := w.After(s).spans;
    assert FlagsPrimary(d, s) ==> FlagsPrimary(d, all[0]);
    forall i | 0 <= i < |w.spans| && FlagsPrimary(d, w.spans[i]) ensures AnyPrimary(d, all) {
      assert FlagsPrimary(d, all[i + 1]);
    }
    assert forall i | 1 <= i < |all| :: all[i] == w.spans[i - 1];
  }

  /** The inner loop of signedpacket_is_primary. */
  method HasPrimaryFlag(d: seq<byte>, n: nat) returns (yes: bool)
    requires 2 <= n <= |d|
    ensures yes == PrimaryFrom(d, n, 2)
  {
    var o := 2;
    while o + 2 < n
      invariant 2 <= o <= n
      invariant PrimaryFrom(d, n, 2) == PrimaryFrom(d, n, o)
    {
      var ok, start, len := ReadLength(d, n, o);
      if !ok {
        WalkStop(d, n, o);
        return false;
      }
      PrimaryStep(d, n, o, Span(start, len));
      if LowBits(d[start]) == SIGSUB_PRIMARYUID && len >= 2 && d[start + 1] != 0 {
        return true;
      }
      o := start + len;
    }
    WalkStop(d, n, o);
    return false;
  }

  /** signedpacket_is_primary: some certification on the packet marks it. */
  method IsPrimary(sigs: seq<seq<byte>>) returns (yes: bool)
    ensures yes <==> exists i | 0 <= i < |sigs| :: MarksPrimary(sigs[i])
  {
    for i := 0 to |sigs|
      invariant forall j | 0 <= j < i :: !MarksPrimary(sigs[j])
    {
      var s := sigs[i];
      if |s| < 6 || (s[0] != 4 && s[0] != 5) || s[1] < 0x10 || s[1] > 0x13 {
        continue;
      }
      var d := s[4..];
      var n := AreaEnd(d);
      if n > |d| {
        continue;
      }
      var primary := HasPrimaryFlag(d, n);
      if primary {
        assert MarksPrimary(sigs[i]);
        return true;
      }
    }
    return false;
  }

  datatype Status = Fine | Invalid | Unsupported

  /** What parse_subpackets leaves in its out-parameters, and what it returns. */
  datatype Outcome = Outcome(status: Status, issuer: nat, created: nat)

  predicate KnownType(t: nat) {
    2 <= t <= SIGSUB_REVOCATION_KEY || SIGSUB_ISSUER <= t <= SIGSUB_ISSUER_FINGER
  }

  function Read64(d: seq<byte>, o: nat): (r: nat)
    requires o + 8 <= |d|
  {
    Read32(d, o) * 0x1_0000_0000 + Read32(d, o + 4)
  }

  /** The key id for an issuer fingerprint subpacket: one version octet, then the fingerprint. */
  function FingerprintId(d: seq<byte>, s: Span): (id: nat)
    requires Inside(d, s) && s.len >= 2
  {
    if s.len == 22 then Read64(d, s.start + 14) else if s.len == 34 then Read64(d, s.start + 2) else 0xFFFF_FFFF_FFFF_FFFF
  }

  /** What one subpacket says about issuer and creation time. */
  function Note(d: seq<byte>, s: Span, t: Outcome): (u: Outcome)
    requires Inside(d, s)
  {
    var kind := LowBits(d[s.start]);
    if kind == SIGSUB_CREATION then
      if s.len < 5 then t.(status := Invalid) else t.(created := Read32(d, s.start + s.len - 4))
    else if kind == SIGSUB_ISSUER then
      if s.len < 9 then t.(status := Invalid) else t.(issuer := Read64(d, s.start + s.len - 8))
    else if kind == SIGSUB_ISSUER_FINGER then
      if 2 <= s.len <= 2 + MAX_FINGERPRINT_LEN then t.(issuer := FingerprintId(d, s)) else t
    else if !KnownType(kind) && d[s.start] >= 128 then t.(status := Unsupported)
    else t
  }

  /** The subpackets in order, up to the first that is refused; then the end of a malformed area. */
  function NoteAll(d: seq<byte>, w: Walk, t: Outcome): (u: Outcome)
    requires AllInside(d, w.spans)
    decreases |w.spans|
  {
    if t.status != Fine then t
    else if w.spans == [] then if w.ok then t else t.(status := Invalid)
    else NoteAll(d, Walk(w.spans[1..], w.ok), Note(d, w.spans[0], t))
  }

  /** What the area from `o` on adds. */
  function NotesFrom(d: seq<byte>, n: nat, o: nat, t: Outcome): (u: Outcome)
    requires n <= |d|
  {
    NoteAll(d, Decode(d, n, o), t)
  }

  lemma NoteStep(d: seq<byte>, n: nat, o: nat, s: Span, t: Outcome)
    requires o + 2 < n <= |d| && SpanAt(d, n, o) == Good(s) && t.status == Fine
    ensures NotesFrom(d, n, o, t) == NotesFrom(d, n, s.start + s.len, Note(d, s, t))
  {
    var w := Decode(d, n, s.start + s.len);
    WalkStep(d, n, o, s);
    assert w.After(s).spans[1..] == w.spans;
  }

  lemma NoteStop(d: seq<byte>, n: nat, o: nat, t: Outcome)
    requires n <= |d| && (o + 2 >= n || SpanAt(d, n, o) == Bad) && t.status == Fine
    ensures NotesFrom(d, n, o, t) == if o + 2 >= n then t else t.(status := Invalid)
  {
    WalkStop(d, n, o);
  }

  lemma NoteRefused(d: seq<byte>, n: nat, o: nat, t: Outcome)
    requires n <= |d| && t.status != Fine
    ensures NotesFrom(d, n, o, t) == t
  {
  }

  predicate HasCount(d: seq<byte>) {
    |d| >= 4 && AreaEnd(d) <= |d|
  }

  function Parsed(d: seq<byte>, t: Outcome): (u: Outcome) {
    if !HasCount(d) then t.(status := Invalid) else NotesFrom(d, AreaEnd(d), 2, t)
  }

  /** One turn of parse_subpackets: the switch over the type. */
  method NoteOne(d: seq<byte>, start: nat, len: nat, t: Outcome) returns (u: Outcome)
    requires 1 <= len < 0x1_0000_0000 && start + len <= |d|
    ensures u == Note(d, Span(start, len), t)
  {
    u := t;
    var kind := LowBits(d[start]);
    if kind == SIGSUB_CREATION {
      if len < 5 {
        return u.(status := Invalid);
      }
      u := u.(created := Read32(d, start + len - 4));
    } else if kind == SIGSUB_ISSUER {
      if len < 9 {
        return u.(status := Invalid);
      }
      u := u.(issuer := Read64(d, start + len - 8));
    } else if kind == SIGSUB_ISSUER_FINGER {
      // the subtraction is unsigned: a length of 1 wraps to far above the limit
      if (len - 2) % 0x1_0000_0000 <= MAX_FINGERPRINT_LEN {
        u := u.(issuer := FingerprintId(d, Span(start, len)));
      }
    } else if !KnownType(kind) && d[start] >= 128 {
      u := u.(status := Unsupported);
    }
  }

  /** parse_subpackets. */
  method ParseSubpackets(d: seq<byte>, t: Outcome) returns (u: Outcome, parsed: nat)
    requires t.status == Fine
    ensures u == Parsed(d, t)
    ensures HasCount(d) ==> parsed == AreaEnd(d)
  {
    u, parsed := t, 0;
    if |d| < 4 {
      return u.(status := Invalid), 0;
    }
    var n := AreaEnd(d);
    if |d| < n {
      return u.(status := Invalid), 0;
    }
    parsed := n;
    u := NoteLoop(d, n, t);
  }

  /** Its loop. */
  method NoteLoop(d: seq<byte>, n: nat, t: Outcome) returns (u: Outcome)
    requires 2 <= n <= |d| && t.status == Fine
    ensures u == NotesFrom(d, n, 2, t)
  {
    u := t;
    var o := 2;
    while o + 2 < n
      invariant 2 <= o <= n && u.status == Fine
      invariant NotesFrom(d, n, 2, t) == NotesFrom(d, n, o, u)
    {
      var ok, start, len := ReadLengthStrict(d, n, o);
      if !ok {
        NoteStop(d, n, o, u);
        return u.(status := Invalid);
      }
      NoteStep(d, n, o, Span(start, len), u);
      u := NoteOne(d, start, len, u);
      if u.status != Fine {
        NoteRefused(d, n, start + len, u);
        return;
      }
      o := start + len;
    }
    NoteStop(d, n, o, u);
  }
}
