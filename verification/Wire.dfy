/** What the adapter reads and sends, octet by octet (OpenFlow 1.0.0, sections 5.1 and 5.3 to 5.5). */
module Wire {
  import opened Wrappers
  import opened Bytes
  import opened Framing
  import opened Handshake

  /** The length field of a header is its third and fourth octet, the higher one first. */
  lemma LengthOctets(b: seq<Byte>)
    requires |b| >= 8
    ensures Declared(b) == 256 * (b[2] as nat) + b[3] as nat
    ensures IsFrame(b) <==> |b| == if Declared(b) < 8 then 8 else Declared(b)
  {
  }

  /** A message of the controller without a body is its header: version 1, eight octets, xid 0. */
  lemma BareOctets(kind: Byte)
    ensures Bare(kind) == [1, kind, 0, 8, 0, 0, 0, 0]
    ensures TypeOf(Bare(kind)) == kind && VersionOf(Bare(kind)) == 1 && Declared(Bare(kind)) == 8
  {
  }

  /** A new connection is sent a HELLO and has no switch. */
  lemma FreshOctets()
    ensures FRESH.sent == [[1, 0, 0, 8, 0, 0, 0, 0]] && FRESH.inbox == None && FRESH.log == [] && FRESH.prefix == []
  {
  }

  /** The length of a FEATURES_REPLY leaves whole ports behind its 32 octets, in 16 bits, in the known versions. */
  predicate WholePorts(f: Frame) {
    var ports := (256 * (f[2] as int) + f[3] as int - 32) % 0x1_0000;
    (f[0] == 1 ==> ports % 48 == 0) && (f[0] == 2 ==> ports % 64 == 0)
  }

  /** What each message does to the connection's replies. */
  lemma SentOctets(p: Peer, f: Frame, made: bool)
    ensures var sent := Handle(p, f, made).sent;
      if f[1] == 0 && p.inbox.None? then sent == p.sent + [[1, 5, 0, 8, 0, 0, 0, 0]]
      else if f[1] == 2 then sent == p.sent + [([f[0], 3] + f[2..])[..256 * (f[2] as nat) + f[3] as nat]]
      else sent == p.sent
  {
    if f[1] == 2 { assert f[1 := 3] == [f[0], 3] + f[2..]; }
  }

  /** What it does to the connection's switch and what that is handed. */
  lemma InboxOctets(p: Peer, f: Frame, made: bool)
    ensures var inbox := Handle(p, f, made).inbox;
      match p.inbox
      case None => inbox == (if f[1] == 6 && made && WholePorts(f) then Some([]) else None)
      case Some(m) =>
        inbox == Some(if f[1] == 8 || f[1] == 11 || (f[1] == 10 && (f[0] == 1 || f[0] == 2)) then m + [f] else m)
  {
  }

  /** A HELLO is answered with a FEATURES_REQUEST. */
  lemma HelloExchange(o: Outcomes)
    ensures var hello: Frame := [1, 0, 0, 8, 0, 0, 0, 0];
      HandleAll(FRESH, [hello], o).sent == [[1, 0, 0, 8, 0, 0, 0, 0], [1, 5, 0, 8, 0, 0, 0, 0]]
  {
    var hello: Frame := [1, 0, 0, 8, 0, 0, 0, 0];
    var fs := [hello];
    assert fs[1..] == [];
    SentOctets(FRESH, hello, o(0));
    assert HandleAll(FRESH, fs, o) == Handle(FRESH, hello, o(0));
  }

  /** An ECHO_REQUEST of type 2 comes back as type 3, with xid and payload. */
  lemma EchoExchange(p: Peer, made: bool)
    ensures var echo: Frame := [1, 2, 0, 10, 0, 0, 0, 7, 65, 66];
      Handle(p, echo, made).sent == p.sent + [[1, 3, 0, 10, 0, 0, 0, 7, 65, 66]]
  {
    var echo: Frame := [1, 2, 0, 10, 0, 0, 0, 7, 65, 66];
    SentOctets(p, echo, made);
    assert ([1, 3] + echo[2..])[..10] == [1, 3, 0, 10, 0, 0, 0, 7, 65, 66];
  }

  /** A FEATURES_REPLY of version 1 with one port of 48 octets introduces a switch; one octet more and it does not. */
  lemma FeaturesExchange(p: Peer, f: Frame, g: Frame)
    requires p.inbox.None? && |f| == 80 && f[..4] == [1, 6, 0, 80] && |g| == 81 && g[..4] == [1, 6, 0, 81]
    ensures Handle(p, f, true).inbox == Some([]) && Handle(p, g, true).inbox == None
    ensures Handle(p, f, false).inbox == None
  {
    assert f[0] == f[..4][0] && f[1] == f[..4][1] && f[2] == f[..4][2] && f[3] == f[..4][3];
    assert g[0] == g[..4][0] && g[1] == g[..4][1] && g[2] == g[..4][2] && g[3] == g[..4][3];
    InboxOctets(p, f, true);
    InboxOctets(p, f, false);
    InboxOctets(p, g, true);
  }

  /** Two messages and the start of a third, as they arrive. */
  lemma StreamOctets()
    ensures var hello: seq<Byte> := [1, 0, 0, 8, 0, 0, 0, 0]; var echo: seq<Byte> := [1, 2, 0, 9, 0, 0, 0, 1, 65];
      Split(hello + echo + [1, 5]) == ([hello, echo], [1, 5])
  {
    var hello: seq<Byte> := [1, 0, 0, 8, 0, 0, 0, 0];
    var echo: seq<Byte> := [1, 2, 0, 9, 0, 0, 0, 1, 65];
    var b := hello + echo + [1, 5];
    var c, rest: seq<Byte> := b[8..], [1, 5];
    assert b[..8] == hello && c[..9] == echo && c[9..] == rest;
    assert SizeOf(b) == 8 && SizeOf(c) == 9 && Split(rest) == ([], rest);
    assert Split(c) == ([echo] + [], rest) && [echo] + [] == [echo];
    assert b[8..] == c && Split(b) == ([hello] + Split(c).0, rest);
    assert [hello] + [echo] == [hello, echo];
  }
}
