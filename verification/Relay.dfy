/** The client-to-core half of the bridge: plaintext packets in, encrypted packets out, Ascension's own
    opcodes held back and creation requests rewritten. */
module Relay {
  import opened Bytes
  import opened Arc4
  import opened Framing
  import opened Transport
  import C = Creations

  const FIRST_CUSTOM_OPCODE: nat := 0x521
  const CMSG_CHAR_CREATE: nat := 0x036

  /** The packets the core is to see. */
  function Forwarded(cfg: C.Config, ps: seq<Packet>): seq<Packet>
    decreases |ps|
  {
    if ps == [] then []
    else if ps[0].opcode >= FIRST_CUSTOM_OPCODE then Forwarded(cfg, ps[1..])
    else [Translated(cfg, ps[0])] + Forwarded(cfg, ps[1..])
  }

  function Translated(cfg: C.Config, p: Packet): Packet {
    if p.opcode == CMSG_CHAR_CREATE then p.(body := C.FixBody(cfg, p.body)) else p
  }

  lemma {:induction false} ForwardedConcat(cfg: C.Config, a: seq<Packet>, b: seq<Packet>)
    ensures Forwarded(cfg, a + b) == Forwarded(cfg, a) + Forwarded(cfg, b)
    decreases |a|
  {
    if a == [] {
      assert a + b == b;
    } else {
      assert (a + b)[1..] == a[1..] + b;
      ForwardedConcat(cfg, a[1..], b);
    }
  }

  /** A packet that arrived in a client frame fits a core frame, rewritten or not. */
  lemma {:induction false} ReceivedFits(s: seq<byte>)
    ensures forall p :: p in ReadAll(ToServer, None, s).packets ==> FitsC2S(p)
    decreases |s|
  {
    var r := ReadOne(ToServer, None, s);
    if r.Got? {
      ReceivedFits(r.rest);
      assert Pow256(4) == 0x1_0000_0000;
      ToLEOfFromLE(s[2..6]);
      assert s[..6][2..6] == s[2..6];
    }
  }

  lemma {:induction false} ForwardedFits(cfg: C.Config, ps: seq<Packet>)
    requires forall p :: p in ps ==> FitsC2S(p)
    ensures forall p :: p in Forwarded(cfg, ps) ==> FitsC2S(p) && p.opcode < FIRST_CUSTOM_OPCODE
    decreases |ps|
  {
    if ps != [] {
      var p := ps[0];
      assert p in ps && FitsC2S(p);
      assert FitsC2S(Packet(p.opcode, C.FixBody(cfg, p.body)));
      ForwardedFits(cfg, ps[1..]);
    }
  }

  /** The outgoing keystream advances six bytes a packet. */
  lemma {:induction false} SixBytesEach(c: Cipher, ps: seq<Packet>)
    ensures AfterAll(ToServer, c, ps) == After(c, 6 * |ps|)
    decreases |ps|
  {
    hide After, Header;
    if ps == [] {
      AfterNone(c);
    } else {
      SixBytesEach(After(c, 6), ps[1..]);
      AfterAdd(c, 6, 6 * |ps[1..]|);
      assert 6 * |ps| == 6 + 6 * |ps[1..]|;
    }
  }

  lemma AfterNone(c: Cipher)
    ensures After(c, 0) == c
  {
  }

  lemma NothingYet(cfg: C.Config, c: Cipher)
    ensures Forwarded(cfg, []) == [] && FrameAll(ToServer, c, []) == [] && After(c, 6 * 0) == c
  {
    AfterNone(c);
  }

  /** With `done` taken and `more` to come, the frames sent so far are those of a prefix of the whole. */
  lemma Account(cfg: C.Config, done: seq<Packet>, more: seq<Packet>)
    ensures var n, all := |Forwarded(cfg, done)|, Forwarded(cfg, done + more);
            && n <= |all| && all[..n] == Forwarded(cfg, done)
            && (more == [] ==> n == |all|)
  {
    ForwardedConcat(cfg, done, more);
  }

  /** One more packet in adds nothing or one frame out. */
  lemma AccountNext(cfg: C.Config, c: Cipher, done: seq<Packet>, p: Packet, more: seq<Packet>)
    ensures var n, all, sofar := |Forwarded(cfg, done)|, Forwarded(cfg, done + ([p] + more)), Forwarded(cfg, done);
            if p.opcode >= FIRST_CUSTOM_OPCODE then Forwarded(cfg, done + [p]) == sofar
            else
              && n < |all| && all[n] == Translated(cfg, p)
              && |Forwarded(cfg, done + [p])| == n + 1
              && FrameAll(ToServer, c, Forwarded(cfg, done + [p]))
                 == FrameAll(ToServer, c, sofar) + Frame(ToServer, After(c, 6 * n), Translated(cfg, p))
  {
    hide Frame, After, Header, Translated;
    var q, sofar := Translated(cfg, p), Forwarded(cfg, done);
    ForwardedConcat(cfg, done, [p] + more);
    ForwardedConcat(cfg, done, [p]);
    assert ([p] + more)[1..] == more && [p][1..] == [];
    if p.opcode < FIRST_CUSTOM_OPCODE {
      assert Forwarded(cfg, [p]) == [q] + [];
      SixBytesEach(c, sofar);
      FrameAllConcat(ToServer, c, sofar, [q]);
      var c' := After(c, 6 * |sofar|);
      assert [q][1..] == [];
      assert FrameAll(ToServer, c', [q]) == Frame(ToServer, c', q) + [];
      assert Forwarded(cfg, done + [p]) == sofar + [q];
      assert FrameAll(ToServer, c', [q]) == Frame(ToServer, c', q);
    }
  }

  /** A frame cut short by a dying connection is no packet. */
  lemma CutFrameIsNoPacket(c: Cipher, p: Packet, cut: seq<byte>)
    requires FitsC2S(p) && cut < Frame(ToServer, c, p)
    ensures ReadAll(ToServer, c, cut) == Stream([], Closed, c)
  {
    if |cut| >= 6 {
      HeaderC2SSays(p);
      assert cut[..6] == Cover(c, HeaderC2S(p));
      CoverTwice(c, HeaderC2S(p));
    }
  }

  /** What the core decrypts is what was forwarded: with an equal cipher state it reads exactly the client's
      packets below the custom range, in order, changed only where a creation is rewritten; and of a stream
      that dies after n whole packets, exactly the first n. */
  lemma CoreDecrypts(cfg: C.Config, c: Cipher, client: seq<byte>, n: nat, cut: seq<byte>)
    requires var all := Forwarded(cfg, ReadAll(ToServer, None, client).packets);
             && n <= |all|
             && (cut == [] || (n < |all| && cut < Frame(ToServer, After(c, 6 * n), all[n])))
    ensures var all := Forwarded(cfg, ReadAll(ToServer, None, client).packets);
            ReadAll(ToServer, c, FrameAll(ToServer, c, all[..n]) + cut) == Stream(all[..n], Closed, After(c, 6 * n))
  {
    var ps := ReadAll(ToServer, None, client).packets;
    var all := Forwarded(cfg, ps);
    ReceivedFits(client);
    ForwardedFits(cfg, ps);
    StreamRoundTrip(ToServer, c, all[..n], cut);
    SixBytesEach(c, all[..n]);
    if cut == [] {
      assert ReadAll(ToServer, After(c, 6 * n), cut) == Stream([], Closed, After(c, 6 * n));
    } else {
      CutFrameIsNoPacket(After(c, 6 * n), all[n], cut);
    }
    assert all[..n] + [] == all[..n];
  }

  /** The pump's side of a bridged session. `toCore` is what has been written to the core's socket. */
  class Pump {
    const client: Socket
    const c2s: Rc4
    const session: C.Session
    var toCore: seq<byte>

    constructor (client: Socket, c2s: Rc4, session: C.Session)
      ensures this.client == client && this.c2s == c2s && this.session == session && toCore == []
    {
      this.client, this.c2s, this.session, toCore := client, c2s, session, [];
    }

    /** `core.sendall`: on an error some proper prefix has gone out. */
    method Send(frame: seq<byte>) returns (ok: bool)
      modifies this`toCore
      ensures ok ==> toCore == old(toCore) + frame
      ensures !ok ==> exists cut :: cut < frame && toCore == old(toCore) + cut
    {
      ok := true;
      var n: nat := |frame|;
      if * {
        n :| 0 <= n <= |frame|;
        ok := n == |frame|;
      }
      assert frame[..|frame|] == frame;
      toCore := toCore + frame[..n];
    }

    /** One packet below the custom range, rewritten if it is a creation. */
    method Forward(p: Packet) returns (ok: bool, ghost cut: seq<byte>)
      requires c2s.s.Length == 256
      modifies this`toCore, c2s, c2s.s, session
      ensures var frame := Frame(ToServer, Some(old(c2s.Value())), Translated(session.cfg, p));
              && (ok ==> toCore == old(toCore) + frame && cut == [])
              && (!ok ==> cut < frame && toCore == old(toCore) + cut)
      ensures Some(c2s.Value()) == After(Some(old(c2s.Value())), 6)
    {
      var q := p;
      if p.opcode == CMSG_CHAR_CREATE {
        var fixed := session.FixCharCreate(p.body);
        q := p.(body := fixed);
      }
      var h := c2s.Apply(HeaderC2S(q));
      ok := Send(h + q.body);
      cut := [];
      if !ok {
        cut :| cut < h + q.body && toCore == old(toCore) + cut;
      }
    }

    method ReadPacket() returns (r: Received)
      modifies client
      ensures !r.Received? ==> ReadAll(ToServer, None, old(client.incoming)).packets == []
      ensures r.Received? ==>
                && |client.incoming| < |old(client.incoming)|
                && ReadAll(ToServer, None, old(client.incoming)).packets
                   == [r.p] + ReadAll(ToServer, None, client.incoming).packets
    {
      r := ReadFromClient(client, null);
    }

    /** Runs until the client is gone or unreadable, the core refuses a write, or the session is closed by
        the other thread. `n` packets have been written whole. */
    method ClientToCore() returns (stopped: bool, ghost n: nat, ghost cut: seq<byte>)
      requires c2s.s.Length == 256 && toCore == []
      modifies this`toCore, client, c2s, c2s.s, session
      ensures var all := Forwarded(session.cfg, ReadAll(ToServer, None, old(client.incoming)).packets);
              var c := Some(old(c2s.Value()));
              && n <= |all|
              && toCore == FrameAll(ToServer, c, all[..n]) + cut
              && (cut == [] || (n < |all| && cut < Frame(ToServer, After(c, 6 * n), all[n])))
              && (!stopped ==> n == |all| && cut == [])
    {
      hide Frame, ReadOne, ReadAll, After, Translated, FrameAll, Forwarded;
      ghost var cfg := session.cfg;
      ghost var whole := ReadAll(ToServer, None, client.incoming).packets;
      ghost var c: Cipher := Some(c2s.Value());
      ghost var done := [];
      n, cut, stopped := 0, [], false;
      NothingYet(cfg, c);
      while true
        invariant c2s.s.Length == 256
        invariant whole == done + ReadAll(ToServer, None, client.incoming).packets
        invariant n == |Forwarded(cfg, done)| && cut == []
        invariant toCore == FrameAll(ToServer, c, Forwarded(cfg, done))
        invariant Some(c2s.Value()) == After(c, 6 * n)
        decreases |client.incoming|
      {
        Account(cfg, done, ReadAll(ToServer, None, client.incoming).packets);
        assert toCore == toCore + [];
        if * {
          stopped := true;
          break;
        }
        var r := ReadPacket();
        if !r.Received? {
          break;
        }
        AccountNext(cfg, c, done, r.p, ReadAll(ToServer, None, client.incoming).packets);
        if r.p.opcode < FIRST_CUSTOM_OPCODE {
          var ok;
          ok, cut := Forward(r.p);
          if !ok {
            stopped := true;
            break;
          }
          AfterAdd(c, 6 * n, 6);
          n := n + 1;
        }
        done := done + [r.p];
      }
    }
  }
}
