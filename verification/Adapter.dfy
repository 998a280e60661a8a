/**
 * The OpenFlow adapter on its own objects: a buffer and a cursor per connection, and the map of
 * switches. Each method is proved to make the step Connections defines.
 */
module Adapter {
  import opened Wrappers
  import opened Bytes
  import opened Framing
  import opened Handshake
  import opened Connections

  const YOF_BUF_LEN: nat := 4096

  /** om::net::StreamConnection: what was written to the socket. */
  class StreamConnection {
    var sent: seq<seq<Byte>>

    constructor ()
      ensures sent == []
    {
      sent := [];
    }

    method Send(bytes: seq<Byte>)
      modifies this
      ensures sent == old(sent) + [bytes]
    {
      sent := sent + [bytes];
    }
  }

  /** A switch and the messages handed to it. */
  class OFSwitch {
    const cxn: StreamConnection
    var inbox: seq<Frame>

    constructor (cxn: StreamConnection)
      ensures this.cxn == cxn && inbox == []
    {
      this.cxn := cxn;
      inbox := [];
    }

    /** read_switch_config, handle_packet_in, handle_flow_removed */
    method Accept(f: Frame)
      modifies this
      ensures inbox == old(inbox) + [f]
    {
      inbox := inbox + [f];
    }
  }

  /** The two maps agree except at c. */
  ghost predicate SameElsewhere(was: map<StreamConnection, OFSwitch?>, now: map<StreamConnection, OFSwitch?>,
                                c: StreamConnection)
  {
    && (forall d {:trigger was[d]} {:trigger d in now} :: d in was && d != c ==> d in now && now[d] == was[d])
    && (forall d {:trigger now[d]} {:trigger d in was} :: d in now && d != c ==> d in was && now[d] == was[d])
  }

  /** What was sent on c and handed to its switch sw is as p says. */
  ghost predicate Holds(c: StreamConnection, sw: OFSwitch?, p: Peer)
    reads c, sw
  {
    && c.sent == p.sent
    && match p.inbox
       case None => sw == null
       case Some(inbox) => sw != null && sw.cxn == c && sw.inbox == inbox
  }

  class OFNetwork {
    var switches: map<StreamConnection, OFSwitch?>
    ghost var created: nat
    ghost var deleted: nat

    constructor ()
      ensures switches == map[] && created == 0 && deleted == 0
    {
      switches := map[];
      created, deleted := 0, 0;
    }

    /** The switch of a connection; a null entry counts as none. */
    function SwitchOf(c: StreamConnection): (sw: OFSwitch?)
      reads this
    {
      if c in switches then switches[c] else null
    }

    /** switches[c], which enters a null pointer for a connection not yet in the map. */
    method Index(c: StreamConnection) returns (sw: OFSwitch?)
      modifies this`switches
      ensures sw == old(SwitchOf(c)) && switches == old(switches)[c := sw]
    {
      if c !in switches {
        switches := switches[c := null];
      }
      sw := switches[c];
    }

    method NewConnection(c: StreamConnection)
      modifies c
      ensures c.sent == old(c.sent) + [Bare(HELLO)]
    {
      c.Send(Bare(HELLO));
    }

    method ClosedConnection(c: StreamConnection)
      modifies this
      ensures SwitchOf(c) == null && SameElsewhere(old(switches), switches, c)
      ensures created == old(created) && deleted == old(deleted) + (if old(SwitchOf(c)) != null then 1 else 0)
    {
      var sw := Index(c);
      if sw != null {
        switches := switches - {c};
        deleted := deleted + 1;
      }
    }

    /** handle_message on the header at the start of buf. An echo overwrites the type in place. */
    method HandleMessage(c: StreamConnection, buf: array<Byte>, ghost f: Frame, made: bool, ghost p: Peer)
      requires Holds(c, SwitchOf(c), p) && |f| <= buf.Length && buf[..|f|] == f
      modifies this, c, SwitchOf(c), buf
      ensures Holds(c, SwitchOf(c), Handle(p, f, made)) && SameElsewhere(old(switches), switches, c)
      ensures SwitchOf(c) == old(SwitchOf(c)) || fresh(SwitchOf(c))
      ensures deleted == old(deleted)
      ensures created == old(created) + (if p.inbox.None? && Handle(p, f, made).inbox.Some? then 1 else 0)
    {
      var sw := Index(c);
      var kind, version, len := buf[1], buf[0], 256 * (buf[2] as nat) + buf[3] as nat;
      assert kind == TypeOf(f) && version == VersionOf(f) && len == Declared(f);
      if kind == HELLO {
        if sw == null {
          c.Send(Bare(FEATURES_REQUEST));
        }
      } else if kind == ERROR {
      } else if kind == ECHO_REQUEST {
        buf[1] := ECHO_REPLY;
        assert buf[..|f|] == f[1 := ECHO_REPLY];
        assert buf[..len] == buf[..|f|][..len];
        c.Send(buf[..len]);
      } else if kind == FEATURES_REPLY {
        if sw == null {
          var ports := (len - 32) % 0x1_0000;
          if made && (version == VERSION_1_0 ==> ports % 48 == 0) && (version == VERSION_1_1 ==> ports % 64 == 0) {
            sw := new OFSwitch(c);
            created := created + 1;
            switches := switches[c := sw];
          }
        }
      } else if sw != null {
        var size := if len < HEADER then HEADER else len;
        assert buf[..size] == f;
        if kind == GET_CONFIG_REPLY || kind == FLOW_REMOVED {
          sw.Accept(buf[..size]);
        } else if kind == PACKET_IN && (version == VERSION_1_0 || version == VERSION_1_1) {
          sw.Accept(buf[..size]);
        }
      }
    }
  }

  /** Only live connections have buffers, which are not shared, and switches. */
  ghost predicate Apart(bufs: map<StreamConnection, array?<Byte>>, switches: map<StreamConnection, OFSwitch?>,
                        live: set<StreamConnection>)
  {
    && (forall c {:trigger bufs[c]} :: c in bufs && bufs[c] != null ==> c in live)
    && (forall c {:trigger switches[c]} :: c in switches && switches[c] != null ==> c in live)
    && (forall c, d {:trigger bufs[c], bufs[d]} ::
          c in bufs && d in bufs && c != d && bufs[c] != null ==> bufs[c] != bufs[d])
  }

  lemma ApartOpened(bufs: map<StreamConnection, array?<Byte>>, switches: map<StreamConnection, OFSwitch?>,
                    live: set<StreamConnection>, c: StreamConnection, buf: array<Byte>)
    requires Apart(bufs, switches, live) && forall d :: d in bufs ==> bufs[d] != buf
    ensures Apart(bufs[c := buf], switches, live + {c})
  {
  }

  /** c's buffer, sent bytes and switch are those of p. */
  ghost predicate Tied(c: StreamConnection, buf: array?<Byte>, cur: nat, sw: OFSwitch?, p: Peer)
    reads c, buf, sw
  {
    buf != null && buf.Length == YOF_BUF_LEN && cur <= YOF_BUF_LEN && buf[..cur] == p.prefix && Holds(c, sw, p)
  }

  lemma OpenedStep(w: World<StreamConnection>, c: StreamConnection, o: StreamConnection -> Outcomes)
      returns (t: World<StreamConnection>)
    requires Sound(w) && c !in w.peers
    ensures t == Step(w, Opened(c), o) && Sound(t)
    ensures t.peers == w.peers[c := FRESH] && t.created == w.created && t.deleted == w.deleted
  {
    t := Step(w, Opened(c), o);
    StepSound(w, Opened(c), o);
  }

  lemma ClosedStep(w: World<StreamConnection>, c: StreamConnection, o: StreamConnection -> Outcomes)
      returns (t: World<StreamConnection>)
    requires Sound(w) && c in w.peers
    ensures t == Step(w, Closed(c), o) && Sound(t)
    ensures t.peers == w.peers - {c} && t.created == w.created
    ensures t.deleted == w.deleted + (if w.peers[c].inbox.Some? then 1 else 0)
  {
    t := Step(w, Closed(c), o);
    StepSound(w, Closed(c), o);
  }

  lemma ReceivedStep(w: World<StreamConnection>, c: StreamConnection, p: Peer, more: seq<Byte>,
                     o: StreamConnection -> Outcomes)
      returns (t: World<StreamConnection>)
    requires Sound(w) && c in w.peers && p == w.peers[c] && 0 < |more| <= Want(p.prefix)
    ensures Partial(p.prefix) && t == Step(w, Received(c, more), o) && Sound(t)
    ensures t.peers == w.peers[c := Take(p, more, o(c))] && t.deleted == w.deleted
    ensures t.created == w.created + (if p.inbox.None? && Take(p, more, o(c)).inbox.Some? then 1 else 0)
  {
    t := Step(w, Received(c, more), o);
    StepSound(w, Received(c, more), o);
    PeerStepSound(Some(p), Received(c, more), o(c));
  }

  /** A call of receive_data dispatches nothing, or exactly one message and empties the buffer. */
  lemma TakeCases(p: Peer, more: seq<Byte>, o: Outcomes)
    requires Partial(p.prefix) && 0 < |more| <= Want(p.prefix)
    ensures var b := p.prefix + more;
      if Partial(b) then Take(p, more, o) == p.(prefix := b)
      else IsFrame(b) && Take(p, more, o) == Handle(p.(prefix := []), b, o(|p.log|))
  {
    ReceiveSplits(p.prefix, more);
    var b := p.prefix + more;
    if |p.prefix| >= HEADER { assert Declared(b) == Declared(p.prefix); }
    if !Partial(b) {
      var q, fs: seq<Frame> := p.(prefix := []), [b];
      assert fs[1..] == [];
      assert HandleAll(q, fs, o) == Handle(q, b, o(|p.log|));
    }
  }

  /** The connections, buffers and switches of live connections. */
  ghost function Held(bufs: map<StreamConnection, array?<Byte>>, switches: map<StreamConnection, OFSwitch?>,
                      live: set<StreamConnection>): set<object>
  {
    live + (set c | c in bufs && bufs[c] != null :: bufs[c] as object)
         + (set c | c in switches && switches[c] != null :: switches[c] as object)
  }

  /** Only a switch made for c can be held now and not before. */
  lemma HeldGrows(bufs: map<StreamConnection, array?<Byte>>, was: map<StreamConnection, OFSwitch?>,
                  now: map<StreamConnection, OFSwitch?>, live: set<StreamConnection>, c: StreamConnection, x: object)
    requires SameElsewhere(was, now, c) && x in Held(bufs, now, live)
    ensures x in Held(bufs, was, live) || (c in now && now[c] == x)
  {
  }

  /** A new connection adds itself and its buffer. */
  lemma HeldOpened(bufs: map<StreamConnection, array?<Byte>>, switches: map<StreamConnection, OFSwitch?>,
                   live: set<StreamConnection>, c: StreamConnection, buf: array<Byte>)
    ensures Held(bufs[c := buf], switches, live + {c}) <= Held(bufs, switches, live) + {c, buf}
  {
  }

  /** A null pointer adds nothing. */
  lemma HeldNull(bufs: map<StreamConnection, array?<Byte>>, switches: map<StreamConnection, OFSwitch?>,
                 live: set<StreamConnection>, c: StreamConnection)
    requires c !in bufs
    ensures Held(bufs[c := null], switches, live) == Held(bufs, switches, live)
  {
    var more := bufs[c := null];
    forall d | d in bufs
      ensures d in more && more[d] == bufs[d]
    {
    }
    assert (set d | d in more && more[d] != null :: more[d] as object)
        == (set d | d in bufs && bufs[d] != null :: bufs[d] as object);
  }

  /** Forgetting c holds on to nothing new. */
  lemma HeldShrinks(bufs: map<StreamConnection, array?<Byte>>, was: map<StreamConnection, OFSwitch?>,
                    now: map<StreamConnection, OFSwitch?>, live: set<StreamConnection>, c: StreamConnection)
    requires SameElsewhere(was, now, c) && (c in now ==> now[c] == null)
    ensures Held(bufs - {c}, now, live - {c}) <= Held(bufs, was, live)
  {
    forall x | x in Held(bufs - {c}, now, live - {c})
      ensures x in Held(bufs, was, live)
    {
      if x in Held(bufs, now, live) { HeldGrows(bufs, was, now, live, c, x); }
    }
  }

  class YancOFAdapter {
    var bufs: map<StreamConnection, array?<Byte>>
    /** Cursors, as offsets into the buffers. */
    var curs: map<StreamConnection, nat>
    const net: OFNetwork
    ghost var w: World<StreamConnection>

    function BufferOf(c: StreamConnection): array?<Byte>
      reads this
    {
      if c in bufs then bufs[c] else null
    }

    /** Everything a call may change besides the adapter and its map of switches. */
    ghost function Objects(): set<object>
      reads this, net
    {
      Held(bufs, net.switches, w.peers.Keys)
    }

    ghost predicate Valid()
      reads this, net, Objects()
    {
      && (forall c {:trigger c in w.peers} :: c in w.peers ==>
            c in bufs && c in curs && Tied(c, bufs[c], curs[c], net.SwitchOf(c), w.peers[c]))
      && Apart(bufs, net.switches, w.peers.Keys) && Sound(w) && net.created == w.created && net.deleted == w.deleted
    }

    lemma Owned(c: StreamConnection)
      requires Valid() && c in w.peers
      ensures c in Objects() && BufferOf(c) != null && BufferOf(c) in Objects()
      ensures net.SwitchOf(c) != null ==> net.SwitchOf(c) in Objects()
      ensures c in curs && curs[c] == |w.peers[c].prefix| && Partial(w.peers[c].prefix)
    {
      assert Tied(c, bufs[c], curs[c], net.SwitchOf(c), w.peers[c]);
    }

    constructor ()
      ensures Valid() && w == World(map[], 0, 0) && fresh(net)
    {
      bufs, curs := map[], map[];
      net := new OFNetwork();
      w := World(map[], 0, 0);
    }

    /** The other connections are as before; c is now as q says. */
    method Settle(c: StreamConnection, cur: nat, ghost q: Peer, ghost next: World<StreamConnection>)
      requires forall d {:trigger d in w.peers} :: d in w.peers && d != c ==>
        d in bufs && d in curs && Tied(d, bufs[d], curs[d], net.SwitchOf(d), w.peers[d])
      requires c in bufs && Tied(c, bufs[c], cur, net.SwitchOf(c), q)
      requires Apart(bufs, net.switches, next.peers.Keys) && Sound(next) && next.peers == w.peers[c := q]
      requires net.created == next.created && net.deleted == next.deleted
      modifies this`curs, this`w
      ensures Valid() && w == next && Objects() == Held(bufs, net.switches, next.peers.Keys)
    {
      curs := curs[c := cur];
      w := next;
    }

    /** Give a new connection, which was sent a HELLO, its buffer. */
    method Install(c: StreamConnection, buf: array<Byte>, ghost o: StreamConnection -> Outcomes)
      requires Valid() && c !in w.peers && c !in bufs && c !in net.switches && c.sent == [Bare(HELLO)]
      requires buf.Length == YOF_BUF_LEN && forall d :: d in bufs ==> bufs[d] != buf
      modifies this`bufs, this`curs, this`w
      ensures Valid() && w == Step(old(w), Opened(c), o)
      ensures Objects() <= old(Objects()) + {c, buf}
    {
      ghost var next := OpenedStep(w, c, o);
      ApartOpened(bufs, net.switches, w.peers.Keys, c, buf);
      HeldOpened(bufs, net.switches, w.peers.Keys, c, buf);
      bufs := bufs[c := buf];
      forall d | d in w.peers && d != c
        ensures d in bufs && d in curs && Tied(d, bufs[d], curs[d], net.SwitchOf(d), w.peers[d])
      {
        assert old(Tied(d, bufs[d], curs[d], net.SwitchOf(d), w.peers[d]));
      }
      assert next.peers.Keys == w.peers.Keys + {c};
      Settle(c, 0, FRESH, next);
    }

    /** new_switch: accept hands out a new connection. */
    method NewSwitch(ghost o: StreamConnection -> Outcomes) returns (c: StreamConnection)
      requires Valid()
      modifies this
      ensures Valid() && fresh(c) && Possible(old(w), Opened(c)) && w == Step(old(w), Opened(c), o)
      ensures forall x {:trigger x in Objects()} :: x in Objects() ==> x in old(Objects()) || fresh(x)
    {
      c := new StreamConnection();
      var buf := new Byte[YOF_BUF_LEN];
      assert c !in w.peers && c !in bufs && c !in net.switches;
      net.NewConnection(c);
      Install(c, buf, o);
    }

    /** free(bufs[c]), bufs.erase(c), curs.erase(c) */
    method Forget(c: StreamConnection, ghost next: World<StreamConnection>)
      requires forall d {:trigger d in w.peers} :: d in w.peers && d != c ==>
        d in bufs && d in curs && Tied(d, bufs[d], curs[d], net.SwitchOf(d), w.peers[d])
      requires Apart(bufs, net.switches, w.peers.Keys) && net.SwitchOf(c) == null
      requires next.peers == w.peers - {c} && Sound(next) && net.created == next.created && net.deleted == next.deleted
      modifies this`bufs, this`curs, this`w
      ensures Valid() && w == next && Objects() == Held(old(bufs) - {c}, net.switches, next.peers.Keys)
    {
      bufs := bufs - {c};
      curs := curs - {c};
      w := next;
    }

    /** The end of a connection: recv returned less than one byte. */
    method Close(c: StreamConnection, ghost o: StreamConnection -> Outcomes)
      requires Valid() && c in w.peers
      modifies this, net
      ensures Valid() && w == Step(old(w), Closed(c), o) && Objects() <= old(Objects())
    {
      ghost var next := ClosedStep(w, c, o);
      ghost var switches := net.switches;
      net.ClosedConnection(c);
      HeldShrinks(bufs, switches, net.switches, w.peers.Keys, c);
      assert next.peers.Keys == w.peers.Keys - {c};
      forall d | d in w.peers && d != c
        ensures d in bufs && d in curs && Tied(d, bufs[d], curs[d], net.SwitchOf(d), w.peers[d])
      {
        assert old(Tied(d, bufs[d], curs[d], net.SwitchOf(d), w.peers[d]));
      }
      Forget(c, next);
    }

    /** The length field of the header at the start of a buffer. */
    function HeaderLength(buf: array<Byte>): (len: nat)
      requires buf.Length >= HEADER
      reads buf
      ensures len == Declared(buf[..HEADER])
    {
      256 * (buf[2] as nat) + buf[3] as nat
    }

    /** receive_data once recv has stored more at the cursor; remaining is what it was asked for. */
    method Dispatch(c: StreamConnection, buf: array<Byte>, cur: nat, more: seq<Byte>, remaining: nat, made: bool,
                    ghost p: Peer, ghost o: Outcomes) returns (cur': nat)
      requires buf.Length == YOF_BUF_LEN && cur + |more| <= YOF_BUF_LEN
      requires buf[..cur] == p.prefix && Partial(p.prefix) && 0 < |more| <= remaining == Want(p.prefix)
      requires Holds(c, net.SwitchOf(c), p) && made == o(|p.log|)
      modifies net, c, buf, net.SwitchOf(c)
      ensures cur' <= YOF_BUF_LEN && buf[..cur'] == Take(p, more, o).prefix
      ensures Holds(c, net.SwitchOf(c), Take(p, more, o))
      ensures SameElsewhere(old(net.switches), net.switches, c)
      ensures net.SwitchOf(c) == old(net.SwitchOf(c)) || fresh(net.SwitchOf(c))
      ensures net.deleted == old(net.deleted)
      ensures net.created == old(net.created) + (if p.inbox.None? && Take(p, more, o).inbox.Some? then 1 else 0)
    {
      ghost var b := p.prefix + more;
      TakeCases(p, more, o);
      forall i | 0 <= i < |more| { buf[cur + i] := more[i]; }
      cur' := cur + |more|;
      assert buf[..cur'] == b;
      if remaining - |more| > 0 {
        return;
      }
      assert Declared(buf[..HEADER]) == Declared(b);
      if cur' < HeaderLength(buf) {
        return;
      }
      net.HandleMessage(c, buf, b, made, p.(prefix := []));
      cur' := 0;
    }

    /** The rest of receive_data: store the cursor. */
    method Advance(c: StreamConnection, buf: array<Byte>, cur: nat, more: seq<Byte>, remaining: nat, made: bool,
                   ghost p: Peer, ghost o: Outcomes, ghost next: World<StreamConnection>)
      requires Valid() && c in w.peers && p == w.peers[c] && buf == BufferOf(c) && cur == curs[c]
      requires cur + |more| <= YOF_BUF_LEN && Partial(p.prefix) && 0 < |more| <= remaining == Want(p.prefix)
      requires made == o(|p.log|)
      requires next.peers == w.peers[c := Take(p, more, o)] && next.deleted == w.deleted && Sound(next)
      requires next.created == w.created + (if p.inbox.None? && Take(p, more, o).inbox.Some? then 1 else 0)
      modifies this, net, c, buf, net.SwitchOf(c)
      ensures Valid() && w == next
      ensures forall x {:trigger x in Objects()} :: x in Objects() ==> x in old(Objects()) || fresh(x)
    {
      ghost var switches, live := net.switches, w.peers.Keys;
      var cur' := Dispatch(c, buf, cur, more, remaining, made, p, o);
      forall x | x in Held(bufs, net.switches, live)
        ensures x in Held(bufs, switches, live) || fresh(x)
      {
        HeldGrows(bufs, switches, net.switches, live, c, x);
      }
      forall d | d in w.peers && d != c
        ensures d in bufs && d in curs && Tied(d, bufs[d], curs[d], net.SwitchOf(d), w.peers[d])
      {
        assert old(Tied(d, bufs[d], curs[d], net.SwitchOf(d), w.peers[d]));
        assert bufs[d] != buf && net.SwitchOf(d) == old(net.SwitchOf(d));
      }
      Settle(c, cur', Take(p, more, o), next);
    }

    /** bufs[c] and curs[c], which enter null pointers for a connection that is not live. */
    method Index(c: StreamConnection) returns (buf: array?<Byte>, cur: nat)
      requires Valid()
      modifies this`bufs, this`curs
      ensures Valid() && w == old(w) && Objects() == old(Objects())
      ensures buf == BufferOf(c) == old(BufferOf(c)) && (buf != null <==> c in w.peers)
      ensures c in curs && cur == curs[c]
    {
      if c !in bufs {
        HeldNull(bufs, net.switches, w.peers.Keys, c);
        bufs := bufs[c := null];
      }
      if c !in curs { curs := curs[c := 0]; }
      buf, cur := bufs[c], curs[c];
    }

    /** receive_data on a live connection, once recv has delivered something. */
    method ReceiveMore(c: StreamConnection, buf: array<Byte>, cur: nat, more: seq<Byte>, made: bool,
                       ghost o: StreamConnection -> Outcomes)
      requires Valid() && c in w.peers && buf == BufferOf(c) && cur == curs[c]
      requires 0 < |more| <= Want(w.peers[c].prefix) && made == o(c)(|w.peers[c].log|)
      requires |w.peers[c].prefix| + Want(w.peers[c].prefix) <= YOF_BUF_LEN
      modifies this, net, c, buf, net.SwitchOf(c)
      ensures Valid() && w == Step(old(w), Received(c, more), o)
      ensures forall x {:trigger x in Objects()} :: x in Objects() ==> x in old(Objects()) || fresh(x)
    {
      ghost var p := w.peers[c];
      var remaining := if cur < HEADER then HEADER - cur
                       else if cur < HeaderLength(buf) then HeaderLength(buf) - cur
                       else 0;
      assert cur >= HEADER ==> buf[..HEADER] == buf[..cur][..HEADER];
      ghost var next := ReceivedStep(w, c, p, more, o);
      Advance(c, buf, cur, more, remaining, made, p, o(c), next);
    }

    /**
     * receive_data. more is what recv delivers, empty for an error or the end of the stream; made
     * says whether a directory can be made. recv is asked for no more than the buffer has left.
     */
    method ReceiveData(c: StreamConnection, more: seq<Byte>, made: bool, ghost o: StreamConnection -> Outcomes)
      requires Valid()
      requires c in w.peers ==>
        && |more| <= Want(w.peers[c].prefix) && (more != [] ==> made == o(c)(|w.peers[c].log|))
        && |w.peers[c].prefix| + Want(w.peers[c].prefix) <= YOF_BUF_LEN
      modifies this, net, c, BufferOf(c), net.SwitchOf(c)
      ensures Valid()
      ensures w == if c !in old(w).peers then old(w)
                   else Step(old(w), if more == [] then Closed(c) else Received(c, more), o)
      ensures forall x {:trigger x in Objects()} :: x in Objects() ==> x in old(Objects()) || fresh(x)
    {
      var buf, cur := Index(c);
      if buf == null {
        return;
      }
      if more == [] {
        Close(c, o);
      } else {
        ReceiveMore(c, buf, cur, more, made, o);
      }
    }
  }
}
