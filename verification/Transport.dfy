/** Sockets that deliver their bytes in arbitrary pieces, the packet readers on top of them, and the world
    server's reader that starts in plaintext and latches to encrypted headers. */
module Transport {
  import opened Bytes
  import opened Arc4
  import opened Framing

  /** The stream a peer sends: `incoming` is what has not been received yet, and the empty chunk is its end. */
  class Socket {
    var incoming: seq<byte>

    constructor (bytes: seq<byte>)
      ensures incoming == bytes
    {
      incoming := bytes;
    }

    /** At most n bytes, as few as the network likes, none only at the end of the stream. */
    method Recv(n: nat) returns (chunk: seq<byte>)
      requires n > 0
      modifies this
      ensures |chunk| <= n && chunk + incoming == old(incoming)
      ensures chunk == [] ==> incoming == []
    {
      chunk := [];
      if incoming != [] {
        var k :| 1 <= k <= n && k <= |incoming|;
        chunk, incoming := incoming[..k], incoming[k..];
      }
    }
  }

  /** Exactly n bytes, or nothing when the stream ends first. Which pieces arrived makes no difference. */
  method RecvExact(sock: Socket, n: nat) returns (r: Option<seq<byte>>)
    modifies sock
    ensures n <= |old(sock.incoming)| ==> r == Some(old(sock.incoming)[..n]) && sock.incoming == old(sock.incoming)[n..]
    ensures n > |old(sock.incoming)| ==> r == None && sock.incoming == []
  {
    var buf := [];
    while |buf| < n
      invariant |buf| <= n && buf + sock.incoming == old(sock.incoming)
      decreases n - |buf|
    {
      var chunk := sock.Recv(n - |buf|);
      if chunk == [] {
        return None;
      }
      assert buf + (chunk + sock.incoming) == (buf + chunk) + sock.incoming;
      buf := buf + chunk;
    }
    r := Some(buf);
  }

  ghost function CipherOf(c: Rc4?): Cipher
    requires c != null ==> c.s.Length == 256
    reads c, if c == null then {} else {c.s}
  {
    if c == null then None else Some(c.Value())
  }

  /** Decrypts when there is a cipher. */
  method Uncover(c: Rc4?, data: seq<byte>) returns (out: seq<byte>)
    requires c != null ==> c.s.Length == 256
    modifies c, if c == null then {} else {c.s}
    ensures out == Cover(old(CipherOf(c)), data) && CipherOf(c) == After(old(CipherOf(c)), |data|)
  {
    out := data;
    if c != null {
      out := c.Apply(data);
    }
  }

  /** What a reader returns: a packet, None for a stream that ended, or the error it raises. */
  datatype Received = Received(p: Packet) | Hangup | BadHeader

  function Outcome(r: Read): Received {
    match r
    case Got(p, _, _) => Received(p)
    case Closed => Hangup
    case Implausible => BadHeader
  }

  /** `read_c2s`. */
  method ReadFromClient(sock: Socket, dec: Rc4?) returns (r: Received)
    requires dec != null ==> dec.s.Length == 256
    modifies sock, dec, if dec == null then {} else {dec.s}
    ensures var t := ReadC2S(old(CipherOf(dec)), old(sock.incoming));
            r == Outcome(t) && (t.Got? ==> sock.incoming == t.rest && CipherOf(dec) == t.c)
  {
    ghost var s := sock.incoming;
    var hdr := RecvExact(sock, 6);
    if hdr.None? {
      return Hangup;
    }
    var h := Uncover(dec, hdr.value);
    var blen := Word(h[1], h[0]) - 4;
    if blen < 0 || blen > 0x10000 {
      return BadHeader;
    }
    var body := RecvExact(sock, blen);
    if body.None? {
      return Hangup;
    }
    r := Received(Packet(FromLE(h[2..6]), body.value));
  }

  /** `read_s2c`: the first byte is taken and decrypted alone. */
  method ReadFromServer(sock: Socket, dec: Rc4?) returns (r: Received)
    requires dec != null ==> dec.s.Length == 256
    modifies sock, dec, if dec == null then {} else {dec.s}
    ensures var t := ReadS2C(old(CipherOf(dec)), old(sock.incoming));
            r == Outcome(t) && (t.Got? ==> sock.incoming == t.rest && CipherOf(dec) == t.c)
  {
    hide Cover, After, Word, LongSize;
    ghost var s := sock.incoming;
    var first := RecvExact(sock, 1);
    if first.None? {
      return Hangup;
    }
    var b := Uncover(dec, first.value);
    var b0, more := b[0], if b[0] >= 0x80 then 4 else 3;
    var rest := RecvExact(sock, more);
    if rest.None? {
      return Hangup;
    }
    assert rest.value == s[1..1 + more];
    var h := Uncover(dec, rest.value);
    var size, opcode;
    if b0 >= 0x80 {
      size, opcode := LongSize(b0, h[0], h[1]), Word(h[2], h[3]);
    } else {
      size, opcode := Word(h[0], b0), Word(h[1], h[2]);
    }
    var blen := size - 2;
    if blen < 0 || blen > 0x800000 {
      return BadHeader;
    }
    assert sock.incoming == s[1 + more..];
    var body := RecvExact(sock, blen);
    if body.None? {
      return Hangup;
    }
    r := Received(Packet(opcode, body.value));
  }

  /** The pump from the core: packets until one cannot be read. Whatever pieces the stream came in, they are those
      of the whole stream. */
  method ReadAllFromServer(sock: Socket, dec: Rc4?) returns (ps: seq<Packet>, end: Received)
    requires dec != null ==> dec.s.Length == 256
    modifies sock, dec, if dec == null then {} else {dec.s}
    ensures var t := ReadAll(ToClient, old(CipherOf(dec)), old(sock.incoming));
            ps == t.packets && end == Outcome(t.end)
  {
    hide ReadS2C, CipherOf;
    ghost var whole := ReadAll(ToClient, CipherOf(dec), sock.incoming);
    ps := [];
    while true
      invariant whole == Prepend(ps, ReadAll(ToClient, CipherOf(dec), sock.incoming))
      decreases |sock.incoming|
    {
      ghost var c, s := CipherOf(dec), sock.incoming;
      end := ReadFromServer(sock, dec);
      assert ReadOne(ToClient, c, s) == ReadS2C(c, s);
      if !end.Received? {
        return;
      }
      assert ps + ([end.p] + ReadAll(ToClient, CipherOf(dec), sock.incoming).packets)
          == ps + [end.p] + ReadAll(ToClient, CipherOf(dec), sock.incoming).packets;
      ps := ps + [end.p];
    }
  }

  /** So a server that frames packets with an equal cipher and hangs up is read whole, piece by
      piece: the pump's packets are the server's. */
  lemma FramedStreamIsRead(c: Cipher, ps: seq<Packet>)
    requires forall p :: p in ps ==> FitsS2C(p)
    ensures ReadAll(ToClient, c, FrameAll(ToClient, c, ps)) == Stream(ps, Closed, AfterAll(ToClient, c, ps))
  {
    hide FrameAll, AfterAll;
    var s := FrameAll(ToClient, c, ps);
    StreamRoundTrip(ToClient, c, ps, []);
    assert s + [] == s && ps + [] == ps;
    assert ReadAll(ToClient, AfterAll(ToClient, c, ps), []) == Stream([], Closed, AfterAll(ToClient, c, ps));
  }

  // ---- the world server's reader ---------------------------------------------------

  /** A client header worth believing in plaintext. */
  predicate Plausible(h: seq<byte>)
    requires |h| == 6
  {
    4 <= Word(h[1], h[0]) <= 0x2800 && 0 < FromLE(h[2..6]) < 0x1000
  }

  /** Where the reader stands: encrypted headers once seen stay expected. */
  datatype Latch = Latch(encrypted: bool, dec: Cipher)

  datatype Framed = Head(h: seq<byte>, next: Latch) | Drop

  /** Plaintext first; a header implausible in plaintext but plausible decrypted flips the latch. */
  function FrameHeader(l: Latch, eh: seq<byte>): (r: Framed)
    requires |eh| == 6
    ensures r.Head? ==> |r.h| == 6
  {
    if l.encrypted then Head(Cover(l.dec, eh), l.(dec := After(l.dec, 6)))
    else if Plausible(eh) then Head(eh, l)
    else if l.dec.Some? && Plausible(Cover(l.dec, eh)) then
      Head(Cover(l.dec, eh), Latch(true, After(l.dec, 6)))
    else Drop
  }

  datatype Taken = Took(p: Packet, rest: seq<byte>, next: Latch) | Ended(latch: Latch)

  /** One packet. A size below 4 leaves an empty body. */
  function TakeOne(l: Latch, s: seq<byte>): (r: Taken)
    ensures r.Took? ==> |r.rest| < |s|
  {
    if |s| < 6 || FrameHeader(l, s[..6]).Drop? then Ended(l)
    else
      var f := FrameHeader(l, s[..6]);
      var size := Word(f.h[1], f.h[0]);
      var blen := if size >= 4 then size - 4 else 0;
      if |s| < 6 + blen then Ended(f.next)
      else Took(Packet(FromLE(f.h[2..6]), s[6..6 + blen]), s[6 + blen..], f.next)
  }

  lemma TakeNone(l: Latch, s: seq<byte>)
    requires |s| < 6 || FrameHeader(l, s[..6]).Drop?
    ensures TakeOne(l, s) == Ended(l)
  {}

  lemma TakeBody(l: Latch, s: seq<byte>, h: seq<byte>, next: Latch, blen: nat, rest: seq<byte>)
    requires |s| >= 6 && |h| == 6 && FrameHeader(l, s[..6]) == Head(h, next)
    requires blen == (if Word(h[1], h[0]) >= 4 then Word(h[1], h[0]) - 4 else 0) && rest == s[6..]
    ensures TakeOne(l, s) == if |rest| < blen then Ended(next)
                             else Took(Packet(FromLE(h[2..6]), rest[..blen]), rest[blen..], next)
  {
    hide FrameHeader, Word, FromLE;
    if |rest| >= blen {
      assert rest[..blen] == s[6..6 + blen] && rest[blen..] == s[6 + blen..];
    }
  }

  datatype Served = Served(packets: seq<Packet>, latch: Latch)

  /** Everything the session loop takes from a stream. */
  function Serve(l: Latch, s: seq<byte>): Served
    decreases |s|
  {
    match TakeOne(l, s)
    case Ended(latch) => Served([], latch)
    case Took(p, rest, next) =>
      var t := Serve(next, rest);
      t.(packets := [p] + t.packets)
  }

  lemma ServeTakes(l: Latch, s: seq<byte>)
    ensures match TakeOne(l, s)
            case Ended(latch) => Serve(l, s) == Served([], latch)
            case Took(p, rest, next) =>
              Serve(l, s) == Served([p] + Serve(next, rest).packets, Serve(next, rest).latch)
  {
    hide TakeOne;
  }

  /** What the Ascension client sends: header fields inside the plausible window. */
  predicate Ordinary(p: Packet) {
    0 < p.opcode < 0x1000 && |p.body| <= 0x2800 - 4
  }

  lemma ServeStep(l: Latch, eh: seq<byte>, p: Packet, rest: seq<byte>, next: Latch)
    requires FitsC2S(p) && |eh| == 6
    requires FrameHeader(l, eh) == Head(HeaderC2S(p), next)
    ensures var t := Serve(next, rest);
            Serve(l, eh + p.body + rest) == t.(packets := [p] + t.packets)
  {
    hide FrameHeader, HeaderC2S, Word, FromLE, TakeOne;
    var s := eh + p.body + rest;
    assert s[..6] == eh && s[6..] == p.body + rest;
    HeaderC2SSays(p);
    TakeBody(l, s, HeaderC2S(p), next, |p.body|, p.body + rest);
    assert (p.body + rest)[..|p.body|] == p.body && (p.body + rest)[|p.body|..] == rest;
  }

  lemma PlainHeader(l: Latch, p: Packet)
    requires Ordinary(p) && !l.encrypted
    ensures FrameHeader(l, HeaderC2S(p)) == Head(HeaderC2S(p), l)
  {
    HeaderC2SSays(p);
  }

  lemma SecretHeader(l: Latch, p: Packet)
    requires FitsC2S(p) && l.dec.Some?
    requires l.encrypted || (Ordinary(p) && !Plausible(Cover(l.dec, HeaderC2S(p))))
    ensures FrameHeader(l, Cover(l.dec, HeaderC2S(p))) == Head(HeaderC2S(p), Latch(true, After(l.dec, 6)))
  {
    HeaderC2SSays(p);
    CoverTwice(l.dec, HeaderC2S(p));
  }

  lemma ServeNothing(l: Latch)
    ensures Serve(l, []) == Served([], l)
  {}

  /** The header is mistaken for a plaintext one. */
  predicate Mistaken(dec: Cipher, p: Packet) {
    Plausible(Cover(dec, HeaderC2S(p)))
  }

  /** The first encrypted header is believed when deciphered and not before. Once it is, none is judged. */
  predicate Switches(l: Latch, ps: seq<Packet>) {
    l.encrypted || ps == [] || (Ordinary(ps[0]) && !Mistaken(l.dec, ps[0]))
  }

  lemma {:induction false} ServeSecret(l: Latch, ps: seq<Packet>)
    requires l.dec.Some? && Switches(l, ps)
    requires forall p :: p in ps ==> FitsC2S(p)
    ensures Serve(l, FrameAll(ToServer, l.dec, ps))
         == Served(ps, Latch(l.encrypted || ps != [], AfterAll(ToServer, l.dec, ps)))
    decreases |ps|
  {
    hide FrameHeader, Plausible, HeaderC2S, Serve, Cover, After;
    if ps == [] {
      ServeNothing(l);
    } else {
      var next := Latch(true, After(l.dec, 6));
      var eh, rest := Cover(l.dec, HeaderC2S(ps[0])), FrameAll(ToServer, next.dec, ps[1..]);
      SecretHeader(l, ps[0]);
      ServeSecret(next, ps[1..]);
      ServeStep(l, eh, ps[0], rest, next);
      assert FrameAll(ToServer, l.dec, ps) == eh + ps[0].body + rest;
      assert [ps[0]] + ps[1..] == ps;
    }
  }

  lemma FramePlain(ps: seq<Packet>)
    ensures FrameAll(ToServer, None, ps)
         == if ps == [] then [] else HeaderC2S(ps[0]) + ps[0].body + FrameAll(ToServer, None, ps[1..])
  {}

  /** Plaintext packets come first, whatever follows them. */
  lemma {:induction false} ServePlain(l: Latch, ps: seq<Packet>, tail: seq<byte>)
    requires !l.encrypted && forall p :: p in ps ==> Ordinary(p)
    ensures var t := Serve(l, tail);
            Serve(l, FrameAll(ToServer, None, ps) + tail) == t.(packets := ps + t.packets)
    decreases |ps|
  {
    hide FrameHeader, Plausible, HeaderC2S, Serve, FrameAll;
    var t := Serve(l, tail);
    FramePlain(ps);
    if ps == [] {
      assert [] + tail == tail && [] + t.packets == t.packets;
    } else {
      var p, rest := ps[0], FrameAll(ToServer, None, ps[1..]) + tail;
      PlainHeader(l, p);
      ServePlain(l, ps[1..], tail);
      ServeStep(l, HeaderC2S(p), p, rest, l);
      assert FrameAll(ToServer, None, ps) + tail == HeaderC2S(p) + p.body + rest;
      assert [p] + (ps[1..] + t.packets) == ps + t.packets;
    }
  }

  /** A cipher whose next six keystream bytes are zero. */
  ghost predicate Mute(c: Cipher) {
    forall x: seq<byte> | |x| == 6 :: Cover(c, x) == x
  }

  /** Such a cipher never flips the latch: a header implausible in plaintext is as implausible deciphered. */
  lemma {:induction false} MuteNeverFlips(l: Latch, s: seq<byte>)
    requires !l.encrypted && Mute(l.dec)
    ensures Serve(l, s).latch == l
    decreases |s|
  {
    hide Plausible, Cover;
    var t := TakeOne(l, s);
    if |s| >= 6 {
      assert Cover(l.dec, s[..6]) == s[..6];
    }
    if t.Took? {
      MuteNeverFlips(l, t.rest);
    }
  }

  /** A covered header read as it stands, when it differs from the header it covers, gives another packet. */
  lemma MistakenHeaderMisleads(l: Latch, p: Packet, eh: seq<byte>, rest: seq<byte>)
    requires !l.encrypted && FitsC2S(p) && |eh| == 6 && Plausible(eh) && eh != HeaderC2S(p)
    ensures var t := TakeOne(l, eh + p.body + rest); t.Took? ==> t.p != p
  {
    hide FromLE, ToLE;
    var h, s := HeaderC2S(p), eh + p.body + rest;
    assert s[..6] == eh;
    HeaderC2SSays(p);
    if eh[2..6] != h[2..6] {
      ToLEOfFromLE(eh[2..6]);
      ToLEOfFromLE(h[2..6]);
      assert FromLE(eh[2..6]) != p.opcode;
    } else {
      SameWords(eh, h);
    }
  }

  lemma SameWords(a: seq<byte>, b: seq<byte>)
    requires |a| == |b| == 6 && a != b && a[2..6] == b[2..6]
    ensures Word(a[1], a[0]) != Word(b[1], b[0])
  {
    forall k | 2 <= k < 6 ensures a[k] == b[k] {
      assert a[2..6][k - 2] == b[2..6][k - 2];
    }
  }

  lemma OrdinaryIsPlausible(p: Packet)
    requires FitsC2S(p)
    ensures Plausible(HeaderC2S(p)) <==> Ordinary(p)
  {
    HeaderC2SSays(p);
  }

  /** A client whose first encrypted header is not believed, or believed too soon, is not read back: that packet is
      dropped or comes out wrong, or the keystream is mute and the latch never learns of the switch. */
  lemma MistakenGoesWrong(l: Latch, ps: seq<Packet>)
    requires l.dec.Some? && !Switches(l, ps) && FitsC2S(ps[0])
    ensures Serve(l, FrameAll(ToServer, l.dec, ps)) != Served(ps, Latch(true, AfterAll(ToServer, l.dec, ps)))
  {
    hide FrameHeader, Plausible, HeaderC2S, Cover, After, AfterAll, TakeOne, Ordinary, FitsC2S;
    var p := ps[0];
    var h := HeaderC2S(p);
    var eh, rest := Cover(l.dec, h), FrameAll(ToServer, After(l.dec, 6), ps[1..]);
    var s := FrameAll(ToServer, l.dec, ps);
    assert s == eh + p.body + rest;
    OrdinaryIsPlausible(p);
    if eh == h {
      MuteCipher(l.dec, h);
      MuteNeverFlips(l, s);
    } else {
      if Plausible(eh) {
        MistakenHeaderMisleads(l, p, eh, rest);
      } else {
        DroppedHeader(l, p, eh, s);
      }
      var t := TakeOne(l, s);
      if t.Took? {
        assert Serve(l, s).packets[0] == t.p;
      } else {
        assert Serve(l, s).packets == [];
      }
    }
  }

  lemma DroppedHeader(l: Latch, p: Packet, eh: seq<byte>, s: seq<byte>)
    requires !l.encrypted && eh == Cover(l.dec, HeaderC2S(p)) && eh <= s && !Plausible(eh)
    requires !Plausible(HeaderC2S(p))
    ensures TakeOne(l, s) == Ended(l)
  {
    hide Plausible, HeaderC2S, Cover, TakeOne;
    CoverTwice(l.dec, HeaderC2S(p));
    assert s[..6] == eh;
    TakeNone(l, s);
  }

  lemma MuteCipher(c: Cipher, h: seq<byte>)
    requires c.Some? && |h| == 6 && Cover(c, h) == h
    ensures Mute(c)
  {
    forall x: seq<byte> | |x| == 6 ensures Cover(c, x) == x {
      CryptFixed(c.value, h, x);
    }
  }

  /** A client that sends plaintext headers and then switches to encrypted ones is read without loss, with the
      latch where it switched and the decrypter six bytes further per encrypted packet, exactly if the first
      encrypted header passes for one deciphered and not before. The later ones may be anything that has a frame. */
  lemma LatchReadsSwitch(dec: Cipher, plain: seq<Packet>, secret: seq<Packet>)
    requires dec.Some? && (forall p :: p in plain ==> Ordinary(p)) && forall p :: p in secret ==> FitsC2S(p)
    ensures Serve(Latch(false, dec), FrameAll(ToServer, None, plain) + FrameAll(ToServer, dec, secret))
              == Served(plain + secret, Latch(secret != [], AfterAll(ToServer, dec, secret)))
            <==> secret == [] || (Ordinary(secret[0]) && !Mistaken(dec, secret[0]))
  {
    hide Serve, FrameAll, AfterAll, Mistaken, Ordinary, FitsC2S;
    var l, tail := Latch(false, dec), FrameAll(ToServer, dec, secret);
    ServePlain(l, plain, tail);
    if Switches(l, secret) {
      ServeSecret(l, secret);
    } else {
      MistakenGoesWrong(l, secret);
      var t := Serve(l, tail);
      assert plain + t.packets == plain + secret ==> t.packets == secret by {
        assert (plain + t.packets)[|plain|..] == t.packets && (plain + secret)[|plain|..] == secret;
      }
    }
  }

  // ---- a cipher that is mistaken -----------------------------------------------------------------

  /** A permutation that, from i = 0 and j = 20, gives six zero keystream bytes: 0 stays in place 0, and each step
      adds a pair of entries that make 256. */
  function MutedTable(): (s: seq<byte>)
    ensures |s| == 256
  {
    seq(256, k requires 0 <= k < 256 => MutedAt(k))
  }

  function MutedAt(k: int): byte
    requires 0 <= k < 256
  {
    if 1 <= k <= 6 then k + 10
    else if 11 <= k <= 16 then k - 10
    else if k == 31 then 245 else if k == 245 then 31
    else if k == 43 then 244 else if k == 244 then 43
    else if k == 56 then 243 else if k == 243 then 56
    else if k == 70 then 242 else if k == 242 then 70
    else if k == 85 then 241 else if k == 241 then 85
    else if k == 101 then 240 else if k == 240 then 101
    else k
  }

  /** Where the second index goes. */
  const Stops: seq<byte> := [20, 31, 43, 56, 70, 85, 101]

  lemma StopsSpread(k: nat)
    requires k < 6
    ensures Stops[k + 1] == Plus(Stops[k], k + 11) > 6 && forall m :: k + 1 < m <= 6 ==> Stops[k + 1] < Stops[m]
  {}

  /** The pairs still to come after k steps. */
  predicate Paired(s: seq<byte>, k: nat) {
    |s| == 256 && s[0] == 0 && forall m :: k < m <= 6 ==> s[m] == m + 10 && s[Stops[m]] == 246 - m
  }

  /** One silent step: the two entries added make 256, and entry 0 is untouched. */
  lemma SilentStep(st: State, k: nat)
    requires k < 6 && Paired(st.s, k) && st.i == k && st.j == Stops[k]
    ensures var n := Next(st); KeyByte(n) == 0 && Paired(n.s, k + 1) && n.i == k + 1 && n.j == Stops[k + 1]
  {
    StopsSpread(k);
    var i, j := k + 1, Stops[k + 1];
    assert st.s[i] == k + 11 && st.s[j] == 245 - k;
    assert Next(st) == State(st.s[i := 245 - k][j := k + 11], i, j);
  }

  lemma {:induction false} SilentFrom(st: State, k: nat, x: seq<byte>)
    requires k <= 6 && Paired(st.s, k) && st.i == k && st.j == Stops[k] && |x| == 6 - k
    ensures Crypt(st, x) == x
    decreases |x|
  {
    hide Next, KeyByte;
    if x != [] {
      SilentStep(st, k);
      SilentFrom(Next(st), k + 1, x[1..]);
      CryptSilent(st, x, x[1..]);
    }
  }

  lemma CryptSilent(st: State, x: seq<byte>, rest: seq<byte>)
    requires |st.s| == 256 && x != [] && rest == x[1..] && KeyByte(Next(st)) == 0 && Crypt(Next(st), rest) == rest
    ensures Crypt(st, x) == x
  {
    hide Next, KeyByte;
    assert Pow2(8) == 256;
    XorBitsZero(x[0], 8);
  }

  lemma MutedCrypt(x: seq<byte>)
    requires |x| == 6
    ensures Crypt(State(MutedTable(), 0, 20), x) == x
  {
    hide Crypt;
    SilentFrom(State(MutedTable(), 0, 20), 0, x);
  }

  /** So there is a cipher, a permutation and two indices, under which every ordinary packet is mistaken. */
  lemma MutedIsMistaken(p: Packet)
    requires Ordinary(p)
    ensures var st := State(MutedTable(), 0, 20);
            Permutation(st.s) && Mistaken(Some(st), p)
  {
    MutedCrypt(HeaderC2S(p));
    HeaderC2SSays(p);
  }

  /** The session loop's reading half. `pending` holds bytes received but not consumed; a receive may time
      out any number of times before it delivers, until the session has been silent for too long. */
  class ClientReader {
    const conn: Socket
    const dec: Rc4?
    var pending: seq<byte>
    var encrypted: bool
    var patience: nat

    ghost predicate Valid()
      reads this, dec
    {
      dec != null ==> dec.s.Length == 256
    }

    ghost function Input(): seq<byte>
      reads this, conn
    {
      pending + conn.incoming
    }

    ghost function State(): Latch
      requires Valid()
      reads this, dec, if dec == null then {} else {dec.s}
    {
      Latch(encrypted, CipherOf(dec))
    }

    constructor (conn: Socket, dec: Rc4?, first: seq<byte>, patience: nat)
      requires dec != null ==> dec.s.Length == 256
      ensures this.conn == conn && this.dec == dec && Valid()
      ensures pending == first && !encrypted
    {
      this.conn, this.dec, pending, encrypted, this.patience := conn, dec, first, false, patience;
    }

    /** `_recv`: a partial read survives timeouts in `pending`. */
    method Recv(n: nat) returns (r: Option<seq<byte>>, silent: bool)
      modifies this`pending, this`patience, conn
      ensures silent ==> r == None
      ensures !silent && n <= |old(Input())| ==> r == Some(old(Input())[..n]) && Input() == old(Input())[n..]
      ensures !silent && n > |old(Input())| ==> r == None
      ensures r == None ==> Input() == old(Input())
    {
      silent := false;
      while |pending| < n
        invariant Input() == old(Input())
        decreases patience, n - |pending|
        modifies this`pending, this`patience, conn
      {
        if * {
          if patience == 0 {
            return None, true;
          }
          patience := patience - 1;
        } else {
          var chunk := conn.Recv(n - |pending|);
          if chunk == [] {
            return None, false;
          }
          assert pending + (chunk + conn.incoming) == (pending + chunk) + conn.incoming;
          pending := pending + chunk;
        }
      }
      assert pending[n..] + conn.incoming == old(Input())[n..];
      assert pending[..n] == old(Input())[..n];
      r, pending := Some(pending[..n]), pending[n..];
    }

    /** One header: plaintext first, then a trial decryption on a copy before the real one advances. */
    method TakeHeader(eh: seq<byte>) returns (r: Option<seq<byte>>)
      requires Valid() && |eh| == 6
      modifies this`encrypted, dec, if dec == null then {} else {dec.s}
      ensures Valid()
      ensures match FrameHeader(old(State()), eh)
              case Head(h, next) => r == Some(h) && State() == next
              case Drop => r == None && State() == old(State())
    {
      hide Plausible, Crypt, Advance;
      if encrypted {
        var h := Uncover(dec, eh);
        return Some(h);
      }
      if Plausible(eh) {
        return Some(eh);
      }
      if dec == null {
        return None;
      }
      var trial := new Rc4.Copy(dec);
      var probe := trial.Apply(eh);
      if !Plausible(probe) {
        return None;
      }
      encrypted := true;
      var h := dec.Apply(eh);
      r := Some(h);
    }

    method ReadOne() returns (p: Option<Packet>, silent: bool)
      requires Valid()
      modifies this`pending, this`patience, this`encrypted, conn, dec, if dec == null then {} else {dec.s}
      ensures Valid() && (silent ==> p == None)
      ensures !silent ==> match TakeOne(old(State()), old(Input()))
                          case Took(q, rest, next) => p == Some(q) && Input() == rest && State() == next
                          case Ended(latch) => p == None && State() == latch
    {
      hide TakeOne, FrameHeader, FromLE, Word, CipherOf;
      ghost var l, s := State(), Input();
      var eh;
      eh, silent := Recv(6);
      if eh.None? {
        if !silent {
          TakeNone(l, s);
        }
        return None, silent;
      }
      var h := TakeHeader(eh.value);
      if h.None? {
        TakeNone(l, s);
        return None, false;
      }
      var size := Word(h.value[1], h.value[0]);
      var blen := if size >= 4 then size - 4 else 0;
      TakeBody(l, s, h.value, State(), blen, Input());
      var body;
      body, silent := Recv(blen);
      if body.None? {
        return None, silent;
      }
      p := Some(Packet(FromLE(h.value[2..6]), body.value));
    }

    /** The loop: packets until the stream ends, an unframable header, or a silent session. */
    method ServeAll() returns (ps: seq<Packet>, silent: bool)
      requires Valid()
      modifies this`pending, this`patience, this`encrypted, conn, dec, if dec == null then {} else {dec.s}
      ensures !silent ==> Served(ps, State()) == Serve(old(State()), old(Input()))
      ensures ps <= Serve(old(State()), old(Input())).packets
    {
      hide TakeOne, Serve, CipherOf;
      ps := [];
      ghost var whole := Serve(State(), Input());
      while true
        invariant Valid()
        invariant whole.latch == Serve(State(), Input()).latch
        invariant whole.packets == ps + Serve(State(), Input()).packets
        decreases |Input()|
      {
        ghost var l, s := State(), Input();
        ServeTakes(l, s);
        var p;
        p, silent := ReadOne();
        if p.None? {
          return;
        }
        assert ps + ([p.value] + Serve(State(), Input()).packets)
            == ps + [p.value] + Serve(State(), Input()).packets;
        ps := ps + [p.value];
      }
    }
  }
}
