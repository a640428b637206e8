/**
 Reading and writing packet streams (parsekey.c, section 4.2 of RFC 4880). The octets up to `n` of a
 sequence stand for a stream that ends there, so that cutting a stream short is reading it up to a
 smaller `n`.
 */
module PacketStream {
  import opened Sequences
  import opened Packets
  import opened Octets

  const PACKET_PKSESSIONKEY := 1
  const PACKET_SYMSESSIONKEY := 3
  const PACKET_ONEPASSSIG := 4
  const PACKET_SECRETKEY := 5
  const PACKET_ENCRYPTED_MDC := 18

  datatype Status = Fine | InvalidPacket | IoError | UnsupportedFeature

  // ------------------------------------------------------------------- reading

  /** A packet in place. */
  datatype Span = Span(tag: nat, newformat: bool, start: nat, len: nat)

  /** What the octets at a packet boundary turn out to be. */
  datatype Head = NotPacket | Broken(status: Status) | Head(span: Span)

  function NewHead(d: seq<byte>, n: nat, o: nat, tag: nat): (h: Head)
    requires o < n <= |d|
    ensures h.Head? ==> h.span.start > o
  {
    if o + 1 >= n then Broken(InvalidPacket)
    else if d[o + 1] < 192 then Head(Span(tag, true, o + 2, d[o + 1]))
    else if d[o + 1] < 224 then
      if o + 2 >= n then Broken(IoError)
      else Head(Span(tag, true, o + 3, (d[o + 1] as int - 192) * 256 + d[o + 2] as int + 192))
    else if d[o + 1] < 255 then Broken(UnsupportedFeature)
    else if o + 5 >= n then Broken(InvalidPacket)
    else Head(Span(tag, true, o + 6, Read32(d, o + 2)))
  }

  function OldHead(d: seq<byte>, n: nat, o: nat, tag: nat, kind: nat): (h: Head)
    requires o < n <= |d|
    ensures h.Head? ==> h.span.start > o
  {
    if kind == 0 then
      if o + 1 >= n then Broken(InvalidPacket) else Head(Span(tag, false, o + 2, d[o + 1]))
    else if kind == 1 then
      if o + 2 >= n then Broken(InvalidPacket)
      else Head(Span(tag, false, o + 3, d[o + 1] as int * 256 + d[o + 2] as int))
    else if kind == 2 then
      if o + 4 >= n then Broken(InvalidPacket) else Head(Span(tag, false, o + 5, Read32(d, o + 1)))
    else Broken(UnsupportedFeature)
  }

  function HeadAt(d: seq<byte>, n: nat, o: nat): (h: Head)
    requires o < n <= |d|
    ensures h.Head? ==> h.span.start > o
  {
    if d[o] < 128 then NotPacket
    else if d[o] >= 192 then NewHead(d, n, o, d[o] - 192)
    else OldHead(d, n, o, (d[o] - 128) / 4, d[o] % 4)
  }

  /** The version checks; an empty body has no version and does not pass. */
  predicate SaneVersion(tag: nat, version: nat) {
    if tag == PACKET_ENCRYPTED_MDC then version == 1
    else if tag == PACKET_PKSESSIONKEY || tag == PACKET_ONEPASSSIG then version == 3
    else if tag == PACKET_SYMSESSIONKEY then version == 4
    else if tag == PACKET_SIGNATURE || tag == PACKET_SECRETKEY || tag == PACKET_PUBLICKEY then version >= 2
    else true
  }

  predicate Sane(d: seq<byte>, s: Span)
    requires s.start + s.len <= |d|
  {
    SaneVersion(s.tag, if s.len == 0 then 0 else d[s.start])
  }

  /** Packets read, and how reading ended; `spoilt` when a non-packet octet ended it. */
  datatype Scan = Scan(spans: seq<Span>, status: Status, spoilt: bool) {
    function After(s: Span): (r: Scan) { Scan([s] + spans, status, spoilt) }

    function Behind(front: seq<Span>): (r: Scan) { Scan(front + spans, status, spoilt) }

    /** What is handed out: a non-packet octet takes the packet before it with it. */
    function Packets(): (r: seq<Span>) {
      if spoilt && spans != [] then spans[..|spans| - 1] else spans
    }
  }

  /** Reading from `o` on, with `keys` public keys met before and at most `max` wanted (0: any number). */
  function ScanFrom(d: seq<byte>, n: nat, o: nat, keys: nat, max: nat): (r: Scan)
    requires n <= |d|
    decreases n - o
  {
    if o >= n || (max != 0 && keys >= max) then Scan([], Fine, false)
    else match HeadAt(d, n, o)
      case NotPacket => Scan([], InvalidPacket, true)
      case Broken(status) => Scan([], status, false)
      case Head(s) =>
        if s.start + s.len > n then Scan([], IoError, false)
        else if !Sane(d, s) then Scan([], InvalidPacket, false)
        else ScanFrom(d, n, s.start + s.len, keys + (if s.tag == PACKET_PUBLICKEY then 1 else 0), max).After(s)
  }

  // ------------------------------------------------------------------- writing

  /** The tag fits into the first octet. */
  predicate TagFits(p: Packet) { p.tag < if p.newformat then 64 else 16 }

  /** A body too long for the new format, which the writer refuses. */
  predicate TooLong(p: Packet) { p.newformat && |p.data| >= 0xFFFF_FFFF }

  /** What the header can express. */
  predicate Writable(p: Packet) {
    TagFits(p) && !TooLong(p) && |p.data| < 0x1_0000_0000
  }

  /** The header as written; an old-format length of 2^32 or more loses its upper part. */
  function Header(p: Packet): (h: seq<byte>)
    requires TagFits(p) && !TooLong(p)
    ensures |h| >= 2
  {
    var len := |p.data|;
    if p.newformat then
      if len < 192 then [192 + p.tag, len]
      else if len < 8383 then [192 + p.tag, (len - 192) / 256 + 192, (len - 192) % 256]
      else [192 + p.tag, 255, len / 256 / 256 / 256, len / 256 / 256 % 256, len / 256 % 256, len % 256]
    else
      if len < 256 then [128 + p.tag * 4, len]
      else if len < 0x1_0000 then [128 + p.tag * 4 + 1, len / 256, len % 256]
      else [128 + p.tag * 4 + 2, len / 256 / 256 / 256 % 256, len / 256 / 256 % 256, len / 256 % 256, len % 256]
  }

  function Encoded(p: Packet): (r: seq<byte>)
    requires TagFits(p) && !TooLong(p)
    ensures |r| == |Header(p)| + |p.data|
  {
    Header(p) + p.data
  }

  /** A packet the reader takes back. */
  predicate Readable(p: Packet) {
    Writable(p) && SaneVersion(p.tag, if p.data == [] then 0 else p.data[0])
  }

  predicate AllReadable(ps: seq<Packet>) {
    ps == [] || (Readable(ps[0]) && AllReadable(ps[1..]))
  }

  function BytesOf(ps: seq<Packet>): (r: seq<byte>)
    requires AllReadable(ps)
  {
    if ps == [] then [] else Encoded(ps[0]) + BytesOf(ps[1..])
  }

  // ------------------------------------------------------------- the round trip

  lemma HeadReadBack(d: seq<byte>, n: nat, o: nat, p: Packet)
    requires Writable(p) && o + |Header(p)| <= n <= |d| && d[o..o + |Header(p)|] == Header(p)
    ensures HeadAt(d, n, o) == Head(Span(p.tag, p.newformat, o + |Header(p)|, |p.data|))
  {
    var h := Header(p);
    SliceAt(d, o, h, 0);
    if p.newformat {
      NewReadBack(d, n, o, p);
    } else {
      OldReadBack(d, n, o, p);
    }
  }

  lemma NewReadBack(d: seq<byte>, n: nat, o: nat, p: Packet)
    requires Writable(p) && p.newformat && o + |Header(p)| <= n <= |d| && d[o..o + |Header(p)|] == Header(p)
    ensures NewHead(d, n, o, p.tag) == Head(Span(p.tag, true, o + |Header(p)|, |p.data|))
  {
    var h := Header(p);
    SliceAt(d, o, h, 1);
    if |h| > 2 {
      SliceAt(d, o, h, 2);
      if |h| > 3 {
        SliceAt(d, o, h, 3);
        SliceAt(d, o, h, 4);
        SliceAt(d, o, h, 5);
        Split32(|p.data|);
      }
    }
  }

  lemma OldReadBack(d: seq<byte>, n: nat, o: nat, p: Packet)
    requires Writable(p) && !p.newformat && o + |Header(p)| <= n <= |d| && d[o..o + |Header(p)|] == Header(p)
    ensures OldHead(d, n, o, p.tag, Header(p)[0] % 4) == Head(Span(p.tag, false, o + |Header(p)|, |p.data|))
  {
    var h := Header(p);
    SliceAt(d, o, h, 1);
    if |h| > 2 {
      SliceAt(d, o, h, 2);
      if |h| > 3 {
        SliceAt(d, o, h, 3);
        SliceAt(d, o, h, 4);
        Split32(|p.data|);
      }
    }
  }

  /** A stream cut inside a header is refused. */
  lemma HeadCut(d: seq<byte>, n: nat, o: nat, p: Packet)
    requires Writable(p) && o < n < o + |Header(p)| <= |d| && d[o..o + |Header(p)|] == Header(p)
    ensures HeadAt(d, n, o).Broken? && HeadAt(d, n, o).status != Fine
  {
    var h := Header(p);
    SliceAt(d, o, h, 0);
    SliceAt(d, o, h, 1);
  }

  ghost predicate Matches(d: seq<byte>, o: nat, x: seq<byte>) {
    o + |x| <= |d| && d[o..o + |x|] == x
  }

  /** The packet is written from `o` up to `next`. */
  ghost predicate PacketHere(d: seq<byte>, o: nat, next: nat, p: Packet) {
    && Readable(p) && next == o + |Encoded(p)| <= |d|
    && Matches(d, o, Header(p)) && Matches(d, o + |Header(p)|, p.data)
  }

  /** Packet `i` is written from `offs[i]` up to `offs[i + 1]`. */
  ghost predicate PacketAt(d: seq<byte>, offs: seq<nat>, ps: seq<Packet>, i: nat)
    requires i < |ps| < |offs|
  {
    PacketHere(d, offs[i], offs[i + 1], ps[i])
  }

  ghost predicate Laid(d: seq<byte>, offs: seq<nat>, ps: seq<Packet>) {
    && |offs| == |ps| + 1 && offs[|ps|] <= |d|
    && forall i {:trigger PacketAt(d, offs, ps, i)} | 0 <= i < |ps| :: PacketAt(d, offs, ps, i)
  }

  lemma CutThree(d: seq<byte>, o: nat, end: nat, h: seq<byte>, data: seq<byte>, rest: seq<byte>)
    requires o <= end <= |d| && d[o..end] == (h + data) + rest
    ensures o + |h| + |data| <= end && d[o..o + |h|] == h && d[o + |h|..o + |h| + |data|] == data
    ensures d[o + |h| + |data|..end] == rest
  {
    Cut(d, o, end, h + data, rest);
    Cut(d, o, o + |h| + |data|, h, data);
  }

  lemma LayFirst(d: seq<byte>, o: nat, end: nat, h: seq<byte>, data: seq<byte>, rest: seq<byte>)
    requires o <= end <= |d| && d[o..end] == (h + data) + rest
    ensures o + |h| + |data| <= end && d[o + |h| + |data|..end] == rest
    ensures Matches(d, o, h) && Matches(d, o + |h|, data)
  {
    CutThree(d, o, end, h, data, rest);
  }

  lemma LayPacket(d: seq<byte>, o: nat, end: nat, p: Packet, rest: seq<byte>) returns (next: nat)
    requires Readable(p) && o <= end <= |d| && d[o..end] == Encoded(p) + rest
    ensures o < next <= end && d[next..end] == rest && PacketHere(d, o, next, p)
  {
    next := o + |Encoded(p)|;
    LayFirst(d, o, end, Header(p), p.data, rest);
  }

  /** Where the packets of a written stream lie. */
  lemma {:induction false} Lay(d: seq<byte>, o: nat, end: nat, ps: seq<Packet>) returns (offs: seq<nat>)
    requires AllReadable(ps) && o <= end <= |d| && d[o..end] == BytesOf(ps)
    ensures Laid(d, offs, ps) && offs[0] == o && offs[|ps|] == end
    decreases |ps|
  {
    if ps == [] {
      offs := [o];
    } else {
      var next := LayPacket(d, o, end, ps[0], BytesOf(ps[1..]));
      var rest := Lay(d, next, end, ps[1..]);
      LaidCons(d, o, rest, ps);
      offs := [o] + rest;
    }
  }

  lemma LaidCons(d: seq<byte>, o: nat, rest: seq<nat>, ps: seq<Packet>)
    requires ps != [] && Laid(d, rest, ps[1..]) && PacketHere(d, o, rest[0], ps[0])
    ensures Laid(d, [o] + rest, ps)
  {
    var offs: seq<nat> := [o] + rest;
    forall i | 0 <= i < |ps| ensures PacketAt(d, offs, ps, i) {
      if i > 0 {
        assert PacketAt(d, rest, ps[1..], i - 1);
        assert ps[1..][i - 1] == ps[i] && rest[i - 1] == offs[i] && rest[i] == offs[i + 1];
      }
    }
  }

  lemma FirstSane(d: seq<byte>, o: nat, p: Packet)
    requires Readable(p) && o + |p.data| <= |d| && d[o..o + |p.data|] == p.data
    ensures Sane(d, Span(p.tag, p.newformat, o, |p.data|))
  {
    if p.data != [] {
      SliceAt(d, o, p.data, 0);
    }
  }

  function PacketOf(d: seq<byte>, s: Span): (p: Packet)
    requires s.start + s.len <= |d|
  {
    Packet(s.tag, s.newformat, d[s.start..s.start + s.len])
  }

  lemma OffsetsGrow(d: seq<byte>, offs: seq<nat>, ps: seq<Packet>, i: nat)
    requires Laid(d, offs, ps) && i < |ps|
    ensures offs[i] < offs[i + 1] <= |d|
  {
    assert PacketAt(d, offs, ps, i);
  }

  /** A packet that lies wholly before `n` is found, with its content. */
  lemma FindPacket(d: seq<byte>, offs: seq<nat>, ps: seq<Packet>, i: nat, n: nat) returns (s: Span)
    requires Laid(d, offs, ps) && i < |ps| && offs[i] < offs[i + 1] <= n <= |d|
    ensures s.start + s.len == offs[i + 1] && PacketOf(d, s) == ps[i]
    ensures HeadAt(d, n, offs[i]) == Head(s) && Sane(d, s)
  {
    assert PacketAt(d, offs, ps, i);
    var p, o := ps[i], offs[i];
    s := Span(p.tag, p.newformat, o + |Header(p)|, |p.data|);
    HeadReadBack(d, n, o, p);
    FirstSane(d, o + |Header(p)|, p);
  }

  /** A packet that is cut by the end of the stream is refused. */
  lemma CutPacket(d: seq<byte>, offs: seq<nat>, ps: seq<Packet>, i: nat, n: nat)
    requires Laid(d, offs, ps) && i < |ps| && offs[i] < n < offs[i + 1] <= |d|
    ensures !HeadAt(d, n, offs[i]).NotPacket? && Trouble(d, n, offs[i]) != Fine
  {
    assert PacketAt(d, offs, ps, i);
    var p, o := ps[i], offs[i];
    if n < o + |Header(p)| {
      HeadCut(d, n, o, p);
    } else {
      HeadReadBack(d, n, o, p);
    }
  }

  // ----------------------------------------------------------- steps of a scan

  function Keys(tag: nat): (k: nat) { if tag == PACKET_PUBLICKEY then 1 else 0 }

  lemma ScanGood(d: seq<byte>, n: nat, o: nat, keys: nat, max: nat, s: Span)
    requires o < n <= |d| && (max == 0 || keys < max) && HeadAt(d, n, o) == Head(s)
    requires s.start + s.len <= n && Sane(d, s)
    ensures ScanFrom(d, n, o, keys, max) == ScanFrom(d, n, s.start + s.len, keys + Keys(s.tag), max).After(s)
  {
  }

  /** Why reading stops at `o`, if it does. */
  function Trouble(d: seq<byte>, n: nat, o: nat): (r: Status)
    requires o < n <= |d|
  {
    match HeadAt(d, n, o)
    case NotPacket => InvalidPacket
    case Broken(status) => status
    case Head(s) => if s.start + s.len > n then IoError else if !Sane(d, s) then InvalidPacket else Fine
  }

  lemma ScanBad(d: seq<byte>, n: nat, o: nat, keys: nat, max: nat)
    requires o < n <= |d| && (max == 0 || keys < max)
    requires HeadAt(d, n, o).Head? ==> Trouble(d, n, o) != Fine
    ensures ScanFrom(d, n, o, keys, max) == Scan([], Trouble(d, n, o), HeadAt(d, n, o).NotPacket?)
  {
  }

  ghost predicate IsScanner(f: (nat, nat) -> Scan, d: seq<byte>, n: nat, max: nat)
    requires n <= |d|
  {
    forall o: nat, keys: nat {:trigger ScanFrom(d, n, o, keys, max)} :: f(o, keys) == ScanFrom(d, n, o, keys, max)
  }

  /** The scan over a packet that is there. */
  lemma TurnFound(f: (nat, nat) -> Scan, d: seq<byte>, offs: seq<nat>, ps: seq<Packet>, i: nat, n: nat, keys: nat, max: nat)
    returns (s: Span)
    requires n <= |d| && IsScanner(f, d, n, max) && (max == 0 || keys < max)
    requires Laid(d, offs, ps) && i < |ps| && offs[i] < offs[i + 1] <= n
    ensures s.start + s.len <= |d| && PacketOf(d, s) == ps[i]
    ensures f(offs[i], keys) == f(offs[i + 1], keys + Keys(ps[i].tag)).After(s)
  {
    s := FindPacket(d, offs, ps, i, n);
    ScanGood(d, n, offs[i], keys, max, s);
  }

  /** The scan at a packet that is cut off. */
  lemma TurnCut(f: (nat, nat) -> Scan, d: seq<byte>, offs: seq<nat>, ps: seq<Packet>, i: nat, n: nat, keys: nat)
    requires n <= |d| && IsScanner(f, d, n, 0)
    requires Laid(d, offs, ps) && i < |ps| && offs[i] < n < offs[i + 1] <= |d|
    ensures f(offs[i], keys).spans == [] && !f(offs[i], keys).spoilt && f(offs[i], keys).status != Fine
  {
    CutPacket(d, offs, ps, i, n);
    ScanBad(d, n, offs[i], keys, 0);
  }

  lemma TurnEnd(f: (nat, nat) -> Scan, d: seq<byte>, n: nat, o: nat, keys: nat, max: nat)
    requires n <= |d| && (o >= n || (max != 0 && keys >= max)) && IsScanner(f, d, n, max)
    ensures f(o, keys) == Scan([], Fine, false)
  {
    assert ScanFrom(d, n, o, keys, max) == Scan([], Fine, false);
  }

  // ------------------------------------------------------------- the round trip

  ghost predicate HoldAt(d: seq<byte>, spans: seq<Span>, ps: seq<Packet>, i: nat, j: nat)
    requires j < |spans| && i + |spans| <= |ps|
  {
    spans[j].start + spans[j].len <= |d| && PacketOf(d, spans[j]) == ps[i + j]
  }

  /** The spans hold the packets from `i` on. */
  ghost predicate Hold(d: seq<byte>, spans: seq<Span>, ps: seq<Packet>, i: nat) {
    i + |spans| <= |ps| && forall j | 0 <= j < |spans| :: HoldAt(d, spans, ps, i, j)
  }

  lemma HoldCons(d: seq<byte>, s: Span, spans: seq<Span>, ps: seq<Packet>, i: nat)
    requires Hold(d, spans, ps, i + 1) && s.start + s.len <= |d| && i < |ps| && PacketOf(d, s) == ps[i]
    ensures Hold(d, [s] + spans, ps, i)
  {
    forall j | 0 <= j <= |spans| ensures HoldAt(d, [s] + spans, ps, i, j) {
      if j > 0 {
        assert HoldAt(d, spans, ps, i + 1, j - 1);
      }
    }
  }

  /** The scan gives packets `i` to `k`, and no error exactly if `fine`. */
  ghost predicate Gives(r: Scan, d: seq<byte>, ps: seq<Packet>, i: nat, k: nat, fine: bool) {
    i <= k && |r.spans| == k - i && Hold(d, r.spans, ps, i) && (r.spoilt ==> !fine) && (r.status == Fine <==> fine)
  }

  lemma GivesCons(r: Scan, s: Span, d: seq<byte>, ps: seq<Packet>, i: nat, k: nat, fine: bool)
    requires Gives(r, d, ps, i + 1, k, fine) && s.start + s.len <= |d| && i < |ps| && PacketOf(d, s) == ps[i]
    ensures Gives(r.After(s), d, ps, i, k, fine)
  {
    HoldCons(d, s, r.spans, ps, i);
  }

  lemma {:induction false} CutReads(f: (nat, nat) -> Scan, d: seq<byte>, offs: seq<nat>, ps: seq<Packet>, n: nat, i: nat, keys: nat)
    returns (k: nat)
    requires n <= |d| && IsScanner(f, d, n, 0) && Laid(d, offs, ps) && i <= |ps| && offs[i] <= n <= offs[|ps|]
    ensures i <= k <= |ps| && offs[k] <= n && (k < |ps| ==> n < offs[k + 1])
    ensures Gives(f(offs[i], keys), d, ps, i, k, n == offs[k]) && !f(offs[i], keys).spoilt
    decreases |ps| - i
  {
    k := i;
    if i < |ps| {
      OffsetsGrow(d, offs, ps, i);
    }
    if n == offs[i] {
      TurnEnd(f, d, n, offs[i], keys, 0);
    } else if i < |ps| && n < offs[i + 1] {
      TurnCut(f, d, offs, ps, i, n, keys);
    } else if i < |ps| {
      var s := TurnFound(f, d, offs, ps, i, n, keys, 0);
      k := CutReads(f, d, offs, ps, n, i + 1, keys + Keys(ps[i].tag));
      GivesCons(f(offs[i + 1], keys + Keys(ps[i].tag)), s, d, ps, i, k, n == offs[k]);
    }
  }

  /**
   Whatever packets were written, of either format and any length, and wherever the stream is cut:
   the reader returns exactly the packets that lie wholly before the cut, and reports an error
   exactly when the cut is not on a packet boundary.
   */
  lemma CutStreamReads(ps: seq<Packet>, n: nat) returns (k: nat, offs: seq<nat>)
    requires AllReadable(ps) && n <= |BytesOf(ps)|
    ensures var d := BytesOf(ps);
            && Laid(d, offs, ps) && offs[0] == 0 && offs[|ps|] == |d|
            && k <= |ps| && offs[k] <= n && (k < |ps| ==> n < offs[k + 1])
            && Gives(ScanFrom(d, n, 0, 0, 0), d, ps, 0, k, n == offs[k]) && !ScanFrom(d, n, 0, 0, 0).spoilt
  {
    var d := BytesOf(ps);
    assert d[0..|d|] == d;
    offs := Lay(d, 0, |d|, ps);
    k := CutReads(Scanner(d, n, 0), d, offs, ps, n, 0, 0);
  }

  function Scanner(d: seq<byte>, n: nat, max: nat): (f: (nat, nat) -> Scan)
    requires n <= |d|
  {
    (o: nat, keys: nat) => if n <= |d| then ScanFrom(d, n, o, keys, max) else Scan([], Fine, false)
  }

  lemma {:induction false} Increasing(d: seq<byte>, offs: seq<nat>, ps: seq<Packet>, i: nat)
    requires Laid(d, offs, ps) && i <= |ps|
    ensures offs[i] <= offs[|ps|]
    decreases |ps| - i
  {
    if i < |ps| {
      OffsetsGrow(d, offs, ps, i);
      Increasing(d, offs, ps, i + 1);
    }
  }

  // ---------------------------------------------------- other octets behind a stream

  lemma BehindCons(r: Scan, s: Span, spans: seq<Span>)
    ensures r.Behind(spans).After(s) == r.Behind([s] + spans)
  {
  }

  /** Whatever comes behind it, a written stream is scanned first. */
  lemma {:induction false} ScanThrough(f: (nat, nat) -> Scan, d: seq<byte>, offs: seq<nat>, ps: seq<Packet>, i: nat, keys: nat)
    returns (spans: seq<Span>, met: nat)
    requires Laid(d, offs, ps) && IsScanner(f, d, |d|, 0) && i <= |ps|
    ensures |spans| == |ps| - i && Hold(d, spans, ps, i) && f(offs[i], keys) == f(offs[|ps|], met).Behind(spans)
    decreases |ps| - i
  {
    spans, met := [], keys;
    if i < |ps| {
      OffsetsGrow(d, offs, ps, i);
      var s := TurnFound(f, d, offs, ps, i, |d|, keys, 0);
      spans, met := ScanThrough(f, d, offs, ps, i + 1, keys + Keys(ps[i].tag));
      HoldCons(d, s, spans, ps, i);
      BehindCons(f(offs[|ps|], met), s, spans);
      spans := [s] + spans;
    }
  }

  /** A scan that finds nothing is spoilt exactly by an octet that starts no packet. */
  lemma SpoiltIff(d: seq<byte>, o: nat, keys: nat)
    requires o <= |d|
    ensures var r := ScanFrom(d, |d|, o, keys, 0); r.spoilt && r.spans == [] <==> o < |d| && d[o] < 128
  {
    if o < |d| && !(HeadAt(d, |d|, o).Head? && Trouble(d, |d|, o) == Fine) {
      ScanBad(d, |d|, o, keys, 0);
    }
  }

  lemma HoldFront(d: seq<byte>, spans: seq<Span>, ps: seq<Packet>, k: nat)
    requires Hold(d, spans, ps, 0) && k <= |spans|
    ensures Hold(d, spans[..k], ps, 0)
  {
    forall j | 0 <= j < k ensures HoldAt(d, spans[..k], ps, 0, j) {
      assert HoldAt(d, spans, ps, 0, j);
    }
  }

  /** The packets handed out begin with the first `k` of `ps`. */
  ghost predicate BeginsWith(d: seq<byte>, spans: seq<Span>, ps: seq<Packet>, k: nat) {
    k <= |spans| && Hold(d, spans[..k], ps, 0)
  }

  /** What is handed out of a scan that went through the packets and on. */
  lemma HandedOut(t: Scan, spans: seq<Span>, d: seq<byte>, ps: seq<Packet>)
    requires |spans| == |ps| && Hold(d, spans, ps, 0)
    ensures var out := t.Behind(spans).Packets();
            && (t.spoilt && t.spans == [] && ps != [] ==> |out| == |ps| - 1 && Hold(d, out, ps, 0))
            && (!(t.spoilt && t.spans == [] && ps != []) ==> BeginsWith(d, out, ps, |ps|))
  {
    var all := spans + t.spans;
    if t.spoilt && t.spans == [] {
      assert all == spans;
      if ps != [] {
        HoldFront(d, spans, ps, |ps| - 1);
      } else {
        assert t.Behind(spans).Packets()[..0] == spans;
      }
    } else {
      assert t.Behind(spans).Packets()[..|ps|] == spans;
    }
  }

  /**
   A written stream followed by any octets: all its packets are handed out exactly when nothing
   follows or the next octet starts a packet; otherwise the last good packet is thrown away.
   */
  lemma FollowedIff(ps: seq<Packet>, tail: seq<byte>)
    requires AllReadable(ps)
    ensures var d := BytesOf(ps) + tail;
            var out := ScanFrom(d, |d|, 0, 0, 0).Packets();
            && (BeginsWith(d, out, ps, |ps|) <==> ps == [] || tail == [] || tail[0] >= 128)
            && (!BeginsWith(d, out, ps, |ps|) ==> |out| == |ps| - 1 && Hold(d, out, ps, 0))
  {
    var d, end := BytesOf(ps) + tail, |BytesOf(ps)|;
    assert d[0..end] == BytesOf(ps) && (tail != [] ==> d[end] == tail[0]);
    var offs := Lay(d, 0, end, ps);
    var f := Scanner(d, |d|, 0);
    var spans, met := ScanThrough(f, d, offs, ps, 0, 0);
    SpoiltIff(d, end, met);
    HandedOut(f(end, met), spans, d, ps);
    assert f(0, 0) == ScanFrom(d, |d|, 0, 0, 0);
  }

  lemma ExampleScan(d: seq<byte>, n: nat)
    requires 3 <= n <= |d| && d[0] == 180 && d[1] == 1
    ensures ScanFrom(d, n, 0, 0, 0) == ScanFrom(d, n, 3, 0, 0).After(Span(PACKET_UID, false, 2, 1))
  {
    var s := Span(PACKET_UID, false, 2, 1);
    assert HeadAt(d, n, 0) == Head(s) && Sane(d, s);
    ScanGood(d, n, 0, 0, 0, s);
  }

  lemma ExampleBytes()
    ensures var ps := [Packet(PACKET_UID, false, [65])]; AllReadable(ps) && BytesOf(ps) == [180, 1, 65]
  {
    var p := Packet(PACKET_UID, false, [65]);
    assert [p][1..] == [] && Encoded(p) == [180, 1, 65];
    assert BytesOf([p]) == Encoded(p) + BytesOf([]);
  }

  /** A user id with a line feed behind it: nothing is handed out. */
  lemma FollowedExample()
    ensures var ps := [Packet(PACKET_UID, false, [65])];
            && AllReadable(ps) && BytesOf(ps) == [180, 1, 65]
            && ScanFrom([180, 1, 65], 3, 0, 0, 0).Packets() == [Span(PACKET_UID, false, 2, 1)]
            && ScanFrom([180, 1, 65, 10], 4, 0, 0, 0).Packets() == []
  {
    ExampleBytes();
    ExampleScan([180, 1, 65], 3);
    ExampleScan([180, 1, 65, 10], 4);
    ScanBad([180, 1, 65, 10], 4, 3, 0, 0);
  }

  // ------------------------------------------------------- a limit on the keys read

  /** How far reading gets with room for `wanted` more keys: right behind the last one's first packet. */
  function UpToKey(ps: seq<Packet>, i: nat, wanted: nat): (k: nat)
    requires i <= |ps|
    ensures i <= k <= |ps|
    decreases |ps| - i
  {
    if i == |ps| || wanted == 0 then i else UpToKey(ps, i + 1, wanted - Keys(ps[i].tag))
  }

  lemma {:induction false} LimitedReads(f: (nat, nat) -> Scan, d: seq<byte>, offs: seq<nat>, ps: seq<Packet>, i: nat, keys: nat, max: nat)
    requires Laid(d, offs, ps) && IsScanner(f, d, offs[|ps|], max) && i <= |ps| && keys <= max && 0 < max
    ensures Gives(f(offs[i], keys), d, ps, i, UpToKey(ps, i, max - keys), true)
    decreases |ps| - i
  {
    var n := offs[|ps|];
    if i < |ps| && keys < max {
      OffsetsGrow(d, offs, ps, i);
      Increasing(d, offs, ps, i + 1);
      var s := TurnFound(f, d, offs, ps, i, n, keys, max);
      LimitedReads(f, d, offs, ps, i + 1, keys + Keys(ps[i].tag), max);
      GivesCons(f(offs[i + 1], keys + Keys(ps[i].tag)), s, d, ps, i, UpToKey(ps, i, max - keys), true);
    } else {
      TurnEnd(f, d, n, offs[i], keys, max);
    }
  }

  /** Where the packets of the next `wanted` keys end: before the key after them, or with the stream. */
  function EndOfKeys(ps: seq<Packet>, i: nat, wanted: nat): (k: nat)
    requires i <= |ps|
    ensures i <= k <= |ps|
    decreases |ps| - i
  {
    if i == |ps| || (wanted == 0 && ps[i].tag == PACKET_PUBLICKEY) then i
    else EndOfKeys(ps, i + 1, if ps[i].tag == PACKET_PUBLICKEY then wanted - 1 else wanted)
  }

  lemma {:induction false} WholeIff(ps: seq<Packet>, i: nat, wanted: nat)
    requires i <= |ps|
    ensures var k := UpToKey(ps, i, wanted);
            k == EndOfKeys(ps, i, wanted) <==> k == |ps| || ps[k].tag == PACKET_PUBLICKEY
    decreases |ps| - i
  {
    if i < |ps| && wanted > 0 {
      WholeIff(ps, i + 1, wanted - Keys(ps[i].tag));
    }
  }

  /**
   A limit counts keys but stops right behind the first packet of the last one. The keys asked for
   are read whole exactly when the stream ends there or the next packet is another key.
   */
  lemma LimitedRead(ps: seq<Packet>, max: nat)
    requires AllReadable(ps) && max > 0
    ensures var d, k := BytesOf(ps), UpToKey(ps, 0, max);
            && Gives(ScanFrom(d, |d|, 0, 0, max), d, ps, 0, k, true)
            && (k == EndOfKeys(ps, 0, max) <==> k == |ps| || ps[k].tag == PACKET_PUBLICKEY)
  {
    var d := BytesOf(ps);
    assert d[0..|d|] == d;
    var offs := Lay(d, 0, |d|, ps);
    LimitedReads(Scanner(d, |d|, max), d, offs, ps, 0, 0, max);
    WholeIff(ps, 0, max);
  }

  /** One key asked for, and it comes without its user id. */
  lemma LimitedExample()
    ensures var ps := [Packet(PACKET_PUBLICKEY, false, [4]), Packet(PACKET_UID, false, [65])];
            && AllReadable(ps) && BytesOf(ps) == [152, 1, 4, 180, 1, 65] && EndOfKeys(ps, 0, 1) == 2
            && ScanFrom([152, 1, 4, 180, 1, 65], 6, 0, 0, 1) == Scan([Span(PACKET_PUBLICKEY, false, 2, 1)], Fine, false)
  {
    var ps := [Packet(PACKET_PUBLICKEY, false, [4]), Packet(PACKET_UID, false, [65])];
    var d: seq<byte> := [152, 1, 4, 180, 1, 65];
    assert ps[1..] == [ps[1]] && ps[1..][1..] == [];
    assert BytesOf(ps[1..]) == [180, 1, 65] && BytesOf(ps) == Encoded(ps[0]) + BytesOf(ps[1..]);
    assert EndOfKeys(ps, 1, 0) == EndOfKeys(ps, 2, 0) == 2;
    assert ScanFrom(d, 6, 3, 1, 1) == Scan([], Fine, false);
    assert Sane(d, Span(PACKET_PUBLICKEY, false, 2, 1));
  }

  // ------------------------------------------------------------------ the loops

  lemma GoodTurn(f: (nat, nat) -> Scan, d: seq<byte>, n: nat, o: nat, keys: nat, max: nat, s: Span, front: seq<Span>)
    requires o < n <= |d| && (max == 0 || keys < max) && HeadAt(d, n, o) == Head(s)
    requires s.start + s.len <= n && Sane(d, s) && IsScanner(f, d, n, max)
    ensures f(o, keys).Behind(front) == f(s.start + s.len, keys + Keys(s.tag)).Behind(front + [s])
  {
    ScanGood(d, n, o, keys, max, s);
    ConcatAssoc(front, [s], f(s.start + s.len, keys + Keys(s.tag)).spans);
  }

  lemma BadTurn(f: (nat, nat) -> Scan, d: seq<byte>, n: nat, o: nat, keys: nat, max: nat)
    requires o < n <= |d| && (max == 0 || keys < max) && IsScanner(f, d, n, max)
    requires HeadAt(d, n, o).Head? ==> Trouble(d, n, o) != Fine
    ensures f(o, keys) == Scan([], Trouble(d, n, o), HeadAt(d, n, o).NotPacket?)
  {
    ScanBad(d, n, o, keys, max);
  }

  method ReadLoop(d: seq<byte>, n: nat, max: nat, ghost f: (nat, nat) -> Scan) returns (status: Status, packets: seq<Span>)
    requires n <= |d| && IsScanner(f, d, n, max)
    ensures status == f(0, 0).status && packets == f(0, 0).Packets()
  {
    var o: nat, keys: nat := 0, 0;
    packets := [];
    while (max == 0 || keys < max) && o < n
      invariant o <= n && f(0, 0) == f(o, keys).Behind(packets)
      decreases n - o
    {
      match HeadAt(d, n, o)
      case NotPacket =>
        BadTurn(f, d, n, o, keys, max);
        if packets != [] {
          packets := packets[..|packets| - 1];
        }
        return InvalidPacket, packets;
      case Broken(bad) =>
        BadTurn(f, d, n, o, keys, max);
        return bad, packets;
      case Head(s) =>
        if s.start + s.len > n {
          BadTurn(f, d, n, o, keys, max);
          return IoError, packets;
        }
        if !Sane(d, s) {
          BadTurn(f, d, n, o, keys, max);
          return InvalidPacket, packets;
        }
        GoodTurn(f, d, n, o, keys, max, s, packets);
        o, keys, packets := s.start + s.len, keys + Keys(s.tag), packets + [s];
    }
    TurnEnd(f, d, n, o, keys, max);
    status := Fine;
  }

  /** read_openpgp_stream. */
  method ReadStream(d: seq<byte>, n: nat, max: nat) returns (status: Status, packets: seq<Span>)
    requires n <= |d|
    ensures status == ScanFrom(d, n, 0, 0, max).status && packets == ScanFrom(d, n, 0, 0, max).Packets()
  {
    status, packets := ReadLoop(d, n, max, Scanner(d, n, max));
  }

  predicate AllTagsFit(ps: seq<Packet>) {
    forall i | 0 <= i < |ps| :: TagFits(ps[i])
  }

  datatype Output = Output(bytes: seq<byte>, status: Status) {
    function Behind(front: seq<byte>): (r: Output) { Output(front + bytes, status) }
  }

  /** What write_openpgp_stream puts out: it gives up behind the first octet of a packet that is too long. */
  function Written(ps: seq<Packet>): (r: Output)
    requires AllTagsFit(ps)
  {
    if ps == [] then Output([], Fine)
    else if TooLong(ps[0]) then Output([192 + ps[0].tag], UnsupportedFeature)
    else Written(ps[1..]).Behind(Encoded(ps[0]))
  }

  lemma {:induction false} WrittenFineIff(ps: seq<Packet>)
    requires AllTagsFit(ps)
    ensures Written(ps).status == Fine <==> forall i | 0 <= i < |ps| :: !TooLong(ps[i])
  {
    if ps != [] {
      WrittenFineIff(ps[1..]);
      assert ps == [ps[0]] + ps[1..];
    }
  }

  /** What the reader takes back is written in full. */
  lemma {:induction false} WrittenWhole(ps: seq<Packet>)
    requires AllReadable(ps)
    ensures AllTagsFit(ps) && Written(ps) == Output(BytesOf(ps), Fine)
  {
    if ps != [] {
      WrittenWhole(ps[1..]);
    }
  }

  lemma WrittenStep(ps: seq<Packet>, front: seq<byte>)
    requires ps != [] && AllTagsFit(ps) && !TooLong(ps[0])
    ensures Written(ps).Behind(front) == Written(ps[1..]).Behind(front + Encoded(ps[0]))
  {
    ConcatAssoc(front, Encoded(ps[0]), Written(ps[1..]).bytes);
  }

  /** write_openpgp_stream. */
  method WriteStream(ps: seq<Packet>) returns (out: seq<byte>, status: Status)
    requires AllTagsFit(ps)
    ensures Output(out, status) == Written(ps)
  {
    out := [];
    var todo := ps;
    while todo != []
      invariant AllTagsFit(todo) && Written(todo).Behind(out) == Written(ps)
      decreases |todo|
    {
      var p := todo[0];
      if p.newformat && |p.data| >= 0xFFFF_FFFF {
        out := out + [0x80 + 0x40 + p.tag];
        return out, UnsupportedFeature;
      }
      WrittenStep(todo, out);
      var packet := WritePacket(p);
      out, todo := out + packet, todo[1..];
    }
    status := Fine;
  }

  method WritePacket(p: Packet) returns (out: seq<byte>)
    requires TagFits(p) && !TooLong(p)
    ensures out == Encoded(p)
  {
    out := WriteHeader(p);
    out := out + p.data;
  }

  /** The header octets, one after the other. */
  method WriteHeader(p: Packet) returns (out: seq<byte>)
    requires TagFits(p) && !TooLong(p)
    ensures out == Header(p)
  {
    var len := |p.data|;
    if p.newformat {
      out := [0x80 + 0x40 + p.tag];
      if len < 192 {
        out := out + [len];
      } else if 191 < len < 8383 {
        out := out + [(len - 192) % 0x1_0000 / 256 + 192];
        out := out + [(len - 192) % 256];
      } else {
        out := out + [255] + [len / 256 / 256 / 256] + [len / 256 / 256 % 256] + [len / 256 % 256] + [len % 256];
      }
    } else if len < 256 {
      out := [0x80 + p.tag * 4] + [len];
    } else if len < 0x1_0000 {
      out := [0x80 + p.tag * 4 + 1] + [len / 256] + [len % 256];
    } else {
      out := [0x80 + p.tag * 4 + 2] + [len / 256 / 256 / 256 % 256] + [len / 256 / 256 % 256] + [len / 256 % 256] + [len % 256];
    }
  }
}