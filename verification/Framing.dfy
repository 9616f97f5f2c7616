/** World-channel framing: headers of two directions, the running header cipher, and readers that take
    the bytes from a socket in whatever pieces the network delivers. */
module Framing {
  import opened Bytes
  import opened Arc4

  datatype Packet = Packet(opcode: nat, body: seq<byte>)

  /** No cipher, or a running one. */
  type Cipher = c: Option<State> | c.None? || |c.value.s| == 256 witness None

  function Cover(c: Cipher, data: seq<byte>): (out: seq<byte>)
    ensures |out| == |data|
  {
    if c.None? then data else Crypt(c.value, data)
  }

  function After(c: Cipher, n: nat): (r: Cipher)
    ensures r.Some? <==> c.Some?
  {
    if c.None? then None else Some(Advance(c.value, n))
  }

  lemma AfterAdd(c: Cipher, m: nat, n: nat)
    ensures After(c, m + n) == After(After(c, m), n)
  {
    if c.Some? {
      AdvanceAdd(c.value, m, n);
    }
  }

  lemma CoverConcat(c: Cipher, a: seq<byte>, b: seq<byte>)
    ensures Cover(c, a + b) == Cover(c, a) + Cover(After(c, |a|), b)
  {
    if c.Some? {
      CryptConcat(c.value, a, b);
    }
  }

  lemma CoverTwice(c: Cipher, data: seq<byte>)
    ensures Cover(c, Cover(c, data)) == data
  {
    if c.Some? {
      CryptTwice(c.value, data);
    }
  }

  // ---- printing ----------------------------------------------------------------

  /** Server to client: two or three size bytes, most significant first, then two opcode bytes. */
  function HeaderS2C(p: Packet): (h: seq<byte>)
    ensures |h| == if |p.body| + 2 > 0x7FFF then 5 else 4
  {
    var size := |p.body| + 2;
    var op: seq<byte> := [p.opcode % 0x100, (p.opcode / 0x100) % 0x100];
    if size > 0x7FFF then
      var top := (size / 0x10000) % 0x100;
      [if top < 0x80 then top + 0x80 else top, (size / 0x100) % 0x100, size % 0x100] + op
    else [(size / 0x100) % 0x100, size % 0x100] + op
  }

  /** Client to server: two size bytes, most significant first, then four opcode bytes. */
  function HeaderC2S(p: Packet): (h: seq<byte>)
    ensures |h| == 6
  {
    var size := |p.body| + 4;
    [(size / 0x100) % 0x100, size % 0x100] + ToLE(p.opcode, 4)
  }

  /** The fields a server-to-client header can carry. */
  predicate FitsS2C(p: Packet) {
    p.opcode < 0x10000 && |p.body| <= 0x7FFFFD
  }

  /** The fields a client-to-server header can carry; struct.pack refuses any other. */
  predicate FitsC2S(p: Packet) {
    p.opcode < 0x1_0000_0000 && |p.body| <= 65531
  }

  datatype Direction = ToClient | ToServer

  function Header(d: Direction, p: Packet): (h: seq<byte>)
    ensures 4 <= |h| <= 6 && (d.ToServer? ==> |h| == 6)
  {
    if d.ToClient? then HeaderS2C(p) else HeaderC2S(p)
  }

  predicate Fits(d: Direction, p: Packet) {
    if d.ToClient? then FitsS2C(p) else FitsC2S(p)
  }

  /** Only the header is encrypted. */
  function Frame(d: Direction, c: Cipher, p: Packet): seq<byte> {
    Cover(c, Header(d, p)) + p.body
  }

  function FrameAll(d: Direction, c: Cipher, ps: seq<Packet>): seq<byte>
    decreases |ps|
  {
    if ps == [] then []
    else Frame(d, c, ps[0]) + FrameAll(d, After(c, |Header(d, ps[0])|), ps[1..])
  }

  function AfterAll(d: Direction, c: Cipher, ps: seq<Packet>): Cipher
    decreases |ps|
  {
    if ps == [] then c else AfterAll(d, After(c, |Header(d, ps[0])|), ps[1..])
  }

  // ---- parsing -----------------------------------------------------------------

  /** One read: a packet with the remaining bytes and cipher, the end of the stream, or a size that
      cannot be one. */
  datatype Read = Got(p: Packet, rest: seq<byte>, c: Cipher) | Closed | Implausible

  function Body(opcode: nat, blen: int, limit: nat, s: seq<byte>, c: Cipher): Read {
    if blen < 0 || blen > limit then Implausible
    else if |s| < blen then Closed
    else Got(Packet(opcode, s[..blen]), s[blen..], c)
  }

  function Word(lo: byte, hi: byte): nat {
    (lo as int) + 0x100 * (hi as int)
  }

  function LongSize(b0: byte, hi: byte, lo: byte): int {
    ((b0 as int) % 0x80) * 0x10000 + Word(lo, hi)
  }

  /** The first byte is decrypted alone: its top bit says how many more belong to the header. */
  function ReadS2C(c: Cipher, s: seq<byte>): Read {
    if |s| < 1 then Closed
    else
      var b0 := Cover(c, s[..1])[0];
      var c1 := After(c, 1);
      if b0 >= 0x80 then
        if |s| < 5 then Closed
        else
          var h := Cover(c1, s[1..5]);
          Body(Word(h[2], h[3]), LongSize(b0, h[0], h[1]) - 2, 0x800000, s[5..], After(c1, 4))
      else
        if |s| < 4 then Closed
        else
          var h := Cover(c1, s[1..4]);
          Body(Word(h[1], h[2]), Word(h[0], b0) - 2, 0x800000, s[4..], After(c1, 3))
  }

  function ReadC2S(c: Cipher, s: seq<byte>): Read {
    if |s| < 6 then Closed
    else
      var h := Cover(c, s[..6]);
      Body(FromLE(h[2..6]), Word(h[1], h[0]) - 4, 0x10000, s[6..], After(c, 6))
  }

  function ReadOne(d: Direction, c: Cipher, s: seq<byte>): (r: Read)
    ensures r.Got? ==> |r.rest| < |s|
  {
    if d.ToClient? then ReadS2C(c, s) else ReadC2S(c, s)
  }

  /** Everything a stream yields up to its end or its first implausible header. */
  datatype Stream = Stream(packets: seq<Packet>, end: Read, c: Cipher)

  function ReadAll(d: Direction, c: Cipher, s: seq<byte>): Stream
    decreases |s|
  {
    var r := ReadOne(d, c, s);
    if r.Got? then
      var t := ReadAll(d, r.c, r.rest);
      t.(packets := [r.p] + t.packets)
    else Stream([], r, c)
  }

  // ---- reading what was framed -----------------------------------------------------

  /** What the size and opcode bytes of a header say: all of it when the packet fits, the size modulo 2^23
      and the opcode modulo 2^16 otherwise. */
  lemma LongHeaderSays(p: Packet)
    requires |p.body| + 2 > 0x7FFF
    ensures var h := HeaderS2C(p);
            && h[0] >= 0x80
            && LongSize(h[0], h[1], h[2]) == (|p.body| + 2) % 0x800000
            && Word(h[3], h[4]) == p.opcode % 0x10000
  {
    var size := |p.body| + 2;
    var h := HeaderS2C(p);
    LowWord(size);
    LowWord(p.opcode);
    LowSeven(size / 0x10000);
    TopSeven(size);
    assert (h[0] as int) % 0x80 == ((size / 0x10000) % 0x100) % 0x80;
  }

  lemma LowSeven(q: nat)
    ensures (q % 0x100) % 0x80 == q % 0x80
  {
    ModUnique(q, 0x80, 2 * (q / 0x100) + (q % 0x100) / 0x80, (q % 0x100) % 0x80);
  }

  lemma TopSeven(n: nat)
    ensures n % 0x800000 == ((n / 0x10000) % 0x80) * 0x10000 + n % 0x10000
  {
    var q := n / 0x10000;
    ModUnique(n, 0x800000, q / 0x80, (q % 0x80) * 0x10000 + n % 0x10000);
  }

  lemma ShortHeaderSays(p: Packet)
    requires |p.body| + 2 <= 0x7FFF
    ensures var h := HeaderS2C(p);
            && h[0] < 0x80
            && Word(h[1], h[0]) == |p.body| + 2
            && Word(h[2], h[3]) == p.opcode % 0x10000
  {
    LowWord(|p.body| + 2);
    LowWord(p.opcode);
  }

  lemma LowWord(n: nat)
    ensures (n / 0x100) % 0x100 * 0x100 + n % 0x100 == n % 0x10000
  {}

  /** Reading decrypts the first header byte and then the others, as one decryption would. */
  lemma HeaderDecrypts(c: Cipher, h: seq<byte>, tail: seq<byte>)
    requires |h| >= 1
    ensures var s := Cover(c, h) + tail;
            && Cover(c, s[..1]) == h[..1]
            && Cover(After(c, 1), s[1..|h|]) == h[1..]
            && Cover(c, s[..|h|]) == h
            && s[|h|..] == tail
            && After(After(c, 1), |h| - 1) == After(c, |h|)
  {
    var s := Cover(c, h) + tail;
    assert h == h[..1] + h[1..];
    CoverConcat(c, h[..1], h[1..]);
    assert s[..1] == Cover(c, h[..1]);
    assert s[1..|h|] == Cover(After(c, 1), h[1..]);
    assert s[..|h|] == Cover(c, h);
    CoverTwice(c, h);
    CoverTwice(c, h[..1]);
    CoverTwice(After(c, 1), h[1..]);
    AfterAdd(c, 1, |h| - 1);
  }

  /** The body length a server-to-client header is read back with. */
  function DecodedLength(p: Packet): int {
    if |p.body| + 2 > 0x7FFF then (|p.body| + 2) % 0x800000 - 2 else |p.body|
  }

  lemma LongFrameDecodes(c: Cipher, p: Packet, s: seq<byte>, tail: seq<byte>)
    requires |p.body| + 2 > 0x7FFF && s == Cover(c, HeaderS2C(p)) + tail
    ensures ReadS2C(c, s) == Body(p.opcode % 0x10000, DecodedLength(p), 0x800000, tail, After(c, 5))
  {
    LongHeaderSays(p);
    HeaderDecrypts(c, HeaderS2C(p), tail);
    assert Cover(After(c, 1), s[1..5]) == HeaderS2C(p)[1..];
  }

  lemma ShortFrameDecodes(c: Cipher, p: Packet, s: seq<byte>, tail: seq<byte>)
    requires |p.body| + 2 <= 0x7FFF && s == Cover(c, HeaderS2C(p)) + tail
    ensures ReadS2C(c, s) == Body(p.opcode % 0x10000, DecodedLength(p), 0x800000, tail, After(c, 4))
  {
    ShortHeaderSays(p);
    HeaderDecrypts(c, HeaderS2C(p), tail);
    assert Cover(After(c, 1), s[1..4]) == HeaderS2C(p)[1..];
  }

  /** A server-to-client header is read back modulo the widths of its fields. */
  lemma FrameS2CDecodes(c: Cipher, p: Packet, rest: seq<byte>)
    ensures ReadS2C(c, Frame(ToClient, c, p) + rest)
         == Body(p.opcode % 0x10000, DecodedLength(p), 0x800000, p.body + rest, After(c, |HeaderS2C(p)|))
  {
    var s := Frame(ToClient, c, p) + rest;
    assert s == Cover(c, HeaderS2C(p)) + (p.body + rest);
    if |p.body| + 2 > 0x7FFF {
      LongFrameDecodes(c, p, s, p.body + rest);
    } else {
      ShortFrameDecodes(c, p, s, p.body + rest);
    }
  }

  lemma BodyExact(p: Packet, rest: seq<byte>, c: Cipher)
    ensures Body(p.opcode % 0x10000, DecodedLength(p), 0x800000, p.body + rest, c) == Got(p, rest, c)
            <==> FitsS2C(p)
  {
    if FitsS2C(p) {
      assert Body(p.opcode, |p.body|, 0x800000, p.body + rest, c) == Got(Packet(p.opcode, p.body), rest, c);
    }
  }

  /** The size field is exact precisely for the packets that fit: any other comes back different. */
  lemma FrameS2CExact(c: Cipher, p: Packet, rest: seq<byte>)
    ensures ReadS2C(c, Frame(ToClient, c, p) + rest) == Got(p, rest, After(c, |HeaderS2C(p)|)) <==> FitsS2C(p)
  {
    FrameS2CDecodes(c, p, rest);
    BodyExact(p, rest, After(c, |HeaderS2C(p)|));
  }

  lemma FrameC2SReads(c: Cipher, p: Packet, rest: seq<byte>)
    requires FitsC2S(p)
    ensures ReadC2S(c, Frame(ToServer, c, p) + rest) == Got(p, rest, After(c, 6))
  {
    var h := HeaderC2S(p);
    HeaderC2SSays(p);
    HeaderDecrypts(c, h, p.body + rest);
    assert Frame(ToServer, c, p) + rest == Cover(c, h) + (p.body + rest);
    assert (p.body + rest)[..|p.body|] == p.body;
    assert (p.body + rest)[|p.body|..] == rest;
  }

  lemma HeaderC2SSays(p: Packet)
    requires FitsC2S(p)
    ensures var h := HeaderC2S(p); Word(h[1], h[0]) == |p.body| + 4 && FromLE(h[2..6]) == p.opcode
  {
    assert HeaderC2S(p)[2..6] == ToLE(p.opcode, 4);
    FromLEOfToLE(p.opcode, 4);
  }

  lemma FrameReads(d: Direction, c: Cipher, p: Packet, rest: seq<byte>)
    requires Fits(d, p)
    ensures ReadOne(d, c, Frame(d, c, p) + rest) == Got(p, rest, After(c, |Header(d, p)|))
  {
    if d.ToClient? {
      FrameS2CExact(c, p, rest);
    } else {
      FrameC2SReads(c, p, rest);
    }
  }

  function Prepend(ps: seq<Packet>, t: Stream): Stream {
    t.(packets := ps + t.packets)
  }

  lemma ReadAllStep(d: Direction, c: Cipher, s: seq<byte>, p: Packet, rest: seq<byte>, c': Cipher)
    requires ReadOne(d, c, s) == Got(p, rest, c')
    ensures ReadAll(d, c, s) == Prepend([p], ReadAll(d, c', rest))
  {}

  lemma RoundTripStep(d: Direction, c: Cipher, p: Packet, more: seq<byte>, ps: seq<Packet>, t: Stream)
    requires Fits(d, p)
    requires ReadAll(d, After(c, |Header(d, p)|), more) == Prepend(ps, t)
    ensures ReadAll(d, c, Frame(d, c, p) + more) == Prepend([p] + ps, t)
  {
    hide ReadOne, Frame, Header, After, ReadAll;
    FrameReads(d, c, p, more);
    ReadAllStep(d, c, Frame(d, c, p) + more, p, more, After(c, |Header(d, p)|));
    assert [p] + (ps + t.packets) == [p] + ps + t.packets;
  }

  /** Round trip over whole streams: reading a framed list with an equal cipher gives the list back, leaves
      the ciphers equal, and goes on with whatever follows. */
  lemma {:induction false} StreamRoundTrip(d: Direction, c: Cipher, ps: seq<Packet>, rest: seq<byte>)
    requires forall p :: p in ps ==> Fits(d, p)
    ensures ReadAll(d, c, FrameAll(d, c, ps) + rest) == Prepend(ps, ReadAll(d, AfterAll(d, c, ps), rest))
    decreases |ps|
  {
    hide ReadOne, Frame, Header, After;
    if ps == [] {
      assert FrameAll(d, c, ps) + rest == rest;
      var t := ReadAll(d, c, rest);
      assert [] + t.packets == t.packets;
    } else {
      var c' := After(c, |Header(d, ps[0])|);
      var more := FrameAll(d, c', ps[1..]) + rest;
      StreamRoundTrip(d, c', ps[1..], rest);
      RoundTripStep(d, c, ps[0], more, ps[1..], ReadAll(d, AfterAll(d, c', ps[1..]), rest));
      assert FrameAll(d, c, ps) + rest == Frame(d, c, ps[0]) + more;
      assert [ps[0]] + ps[1..] == ps;
    }
  }

  lemma {:induction false} FrameAllConcat(d: Direction, c: Cipher, a: seq<Packet>, b: seq<Packet>)
    ensures FrameAll(d, c, a + b) == FrameAll(d, c, a) + FrameAll(d, AfterAll(d, c, a), b)
    ensures AfterAll(d, c, a + b) == AfterAll(d, AfterAll(d, c, a), b)
    decreases |a|
  {
    hide Frame, Header, After;
    if a == [] {
      assert a + b == b;
    } else {
      assert (a + b)[1..] == a[1..] + b;
      FrameAllConcat(d, After(c, |Header(d, a[0])|), a[1..], b);
    }
  }

  lemma {:induction false} PlainStaysPlain(d: Direction, ps: seq<Packet>)
    ensures AfterAll(d, None, ps) == None
    decreases |ps|
  {
    if ps != [] {
      PlainStaysPlain(d, ps[1..]);
    }
  }

  /** A plaintext stream grows by one frame a packet. */
  lemma PlainAppend(d: Direction, ps: seq<Packet>, p: Packet)
    ensures FrameAll(d, None, ps + [p]) == FrameAll(d, None, ps) + Frame(d, None, p)
  {
    hide Frame, Header;
    FrameAllConcat(d, None, ps, [p]);
    PlainStaysPlain(d, ps);
    assert [p][1..] == [];
    assert FrameAll(d, None, [p]) == Frame(d, None, p) + [];
    assert FrameAll(d, None, [p]) == Frame(d, None, p);
  }

  /** A plaintext server frame cut short is no packet. */
  lemma CutServerFrame(p: Packet, cut: seq<byte>)
    requires FitsS2C(p) && cut < Frame(ToClient, None, p)
    ensures ReadAll(ToClient, None, cut) == Stream([], Closed, None)
  {
    var h := HeaderS2C(p);
    if |cut| >= 1 {
      assert cut[0] == h[0];
      if |p.body| + 2 > 0x7FFF {
        LongHeaderSays(p);
        CutLong(p, cut);
      } else {
        ShortHeaderSays(p);
        assert ReadS2C(None, cut) == Closed;
      }
    }
  }

  lemma CutLong(p: Packet, cut: seq<byte>)
    requires FitsS2C(p) && |p.body| + 2 > 0x7FFF && 1 <= |cut| && cut < Frame(ToClient, None, p)
    ensures ReadS2C(None, cut) == Closed
  {
    hide HeaderS2C, LongSize, Word;
    LongHeaderSays(p);
    var h := HeaderS2C(p);
    assert cut[0] == h[0] && Cover(None, cut[..1])[0] == h[0];
    if |cut| >= 5 {
      assert cut[1..5] == h[1..5];
      assert Body(Word(h[3], h[4]), LongSize(h[0], h[1], h[2]) - 2, 0x800000, cut[5..], None) == Closed;
    }
  }

}
