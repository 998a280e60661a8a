/** All connections of the adapter together: events on them, in any interleaving. */
module Connections {
  import opened Wrappers
  import opened Bytes
  import opened Framing
  import opened Handshake

  /** created and deleted count OFSwitch objects. */
  datatype World<C> = World(peers: map<C, Peer>, created: nat, deleted: nat)

  /** A connection is accepted, recv delivers bytes on it, or recv reports its end. */
  datatype Event<C> = Opened(c: C) | Received(c: C, more: seq<Byte>) | Closed(c: C)

  function Lookup<C>(w: World<C>, c: C): Option<Peer> {
    if c in w.peers then Some(w.peers[c]) else None
  }

  /** What recv and accept can do: deliver at most what was asked for; hand out a new connection. */
  predicate PossibleOn(p: Option<Peer>, ev: Event) {
    match ev
    case Opened(_) => p.None?
    case Received(_, more) => p.Some? && Partial(p.value.prefix) && 0 < |more| <= Want(p.value.prefix)
    case Closed(_) => p.Some?
  }

  /** The event seen from its own connection. */
  function PeerStep(p: Option<Peer>, ev: Event, o: Outcomes): Option<Peer>
    requires PossibleOn(p, ev)
  {
    match ev
    case Opened(_) => Some(FRESH)
    case Received(_, more) => Some(Take(p.value, more, o))
    case Closed(_) => None
  }

  predicate HasSwitch(p: Option<Peer>) { p.Some? && p.value.inbox.Some? }

  predicate Possible<C(==)>(w: World<C>, ev: Event<C>) {
    PossibleOn(Lookup(w, ev.c), ev)
  }

  /** new_switch and receive_data: the connection's peer, and switches made and deleted on the way. */
  function Step<C>(w: World<C>, ev: Event<C>, o: C -> Outcomes): World<C>
    requires Possible(w, ev)
  {
    var p := Lookup(w, ev.c);
    var q := PeerStep(p, ev, o(ev.c));
    World(if q.Some? then w.peers[ev.c := q.value] else w.peers - {ev.c},
          w.created + (if HasSwitch(q) && !HasSwitch(p) then 1 else 0),
          w.deleted + (if HasSwitch(p) && !HasSwitch(q) then 1 else 0))
  }

  // ---------------------------------------------------------------- runs

  predicate PossibleRun<C(==)>(w: World<C>, evs: seq<Event<C>>, o: C -> Outcomes)
    decreases |evs|
  {
    evs == [] || (Possible(w, evs[0]) && PossibleRun(Step(w, evs[0], o), evs[1..], o))
  }

  function Run<C>(w: World<C>, evs: seq<Event<C>>, o: C -> Outcomes): World<C>
    requires PossibleRun(w, evs, o)
    decreases |evs|
  {
    if evs == [] then w else Run(Step(w, evs[0], o), evs[1..], o)
  }

  /** The connections that own a switch. */
  function Owners<C>(w: World<C>): set<C> {
    set c | c in w.peers && w.peers[c].inbox.Some?
  }

  /** Every connection waits for more bytes; switches created and not deleted are those owned. */
  predicate Sound<C>(w: World<C>) {
    && (forall c :: c in w.peers ==> Partial(w.peers[c].prefix))
    && w.created == w.deleted + |Owners(w)|
  }

  /** On its own connection an event leaves an incomplete message buffered and keeps the switch until the end. */
  lemma PeerStepSound(p: Option<Peer>, ev: Event, o: Outcomes)
    requires PossibleOn(p, ev)
    ensures PeerStep(p, ev, o).Some? ==> Partial(PeerStep(p, ev, o).value.prefix)
    ensures HasSwitch(p) && !ev.Closed? ==> HasSwitch(PeerStep(p, ev, o))
  {
    if ev.Received? {
      var (fs, rest) := Receive(p.value.prefix, ev.more);
      TakePrefix(p.value, ev.more, o);
      if p.value.inbox.Some? {
        SplitSound(p.value.prefix + ev.more);
        ReceiveSplits(p.value.prefix, ev.more);
        HandleKnown(p.value.(prefix := rest), fs, o);
      }
    }
  }

  lemma OwnersStep<C>(w: World<C>, ev: Event<C>, o: C -> Outcomes)
    requires Possible(w, ev)
    ensures ev.c in Owners(w) <==> HasSwitch(Lookup(w, ev.c))
    ensures Owners(Step(w, ev, o)) ==
      if HasSwitch(Lookup(Step(w, ev, o), ev.c)) then Owners(w) + {ev.c} else Owners(w) - {ev.c}
  {
  }

  /** One event keeps the count; a switch goes only with its connection. */
  lemma StepSound<C>(w: World<C>, ev: Event<C>, o: C -> Outcomes)
    requires Sound(w) && Possible(w, ev)
    ensures Sound(Step(w, ev, o)) && Owners(Step(w, ev, o)) - {ev.c} == Owners(w) - {ev.c}
    ensures ev.c in Owners(w) && !ev.Closed? ==> ev.c in Owners(Step(w, ev, o))
  {
    PeerStepSound(Lookup(w, ev.c), ev, o(ev.c));
    OwnersStep(w, ev, o);
  }

  /** Over every run, switches created minus deleted are the switches of the live connections, one each at most. */
  lemma {:induction false} RunSound<C>(w: World<C>, evs: seq<Event<C>>, o: C -> Outcomes)
    requires Sound(w) && PossibleRun(w, evs, o)
    ensures Sound(Run(w, evs, o))
    decreases |evs|
  {
    if evs != [] {
      StepSound(w, evs[0], o);
      RunSound(Step(w, evs[0], o), evs[1..], o);
    }
  }

  // ---------------------------------------------------------------- isolation

  function EventsOf<C(==)>(evs: seq<Event<C>>, c: C): seq<Event<C>> {
    if evs == [] then [] else (if evs[0].c == c then [evs[0]] else []) + EventsOf(evs[1..], c)
  }

  predicate PossiblePeerRun(p: Option<Peer>, evs: seq<Event>, o: Outcomes)
    decreases |evs|
  {
    evs == [] || (PossibleOn(p, evs[0]) && PossiblePeerRun(PeerStep(p, evs[0], o), evs[1..], o))
  }

  function PeerRun(p: Option<Peer>, evs: seq<Event>, o: Outcomes): Option<Peer>
    requires PossiblePeerRun(p, evs, o)
    decreases |evs|
  {
    if evs == [] then p else PeerRun(PeerStep(p, evs[0], o), evs[1..], o)
  }

  /** A connection's buffer and switch depend on its own events only, however the others are interleaved. */
  lemma {:induction false} Isolated<C>(w: World<C>, evs: seq<Event<C>>, o: C -> Outcomes, c: C)
    requires PossibleRun(w, evs, o)
    ensures PossiblePeerRun(Lookup(w, c), EventsOf(evs, c), o(c))
    ensures Lookup(Run(w, evs, o), c) == PeerRun(Lookup(w, c), EventsOf(evs, c), o(c))
    decreases |evs|
  {
    if evs != [] {
      var t := Step(w, evs[0], o);
      Isolated(t, evs[1..], o, c);
      if evs[0].c == c {
        assert EventsOf(evs, c)[0] == evs[0] && EventsOf(evs, c)[1..] == EventsOf(evs[1..], c);
      } else {
        assert Lookup(t, c) == Lookup(w, c);
        assert EventsOf(evs, c) == EventsOf(evs[1..], c);
      }
    }
  }

  /** The events of a connection that is opened and not closed. */
  function Session<C>(c: C, chunks: seq<seq<Byte>>): seq<Event<C>> {
    if chunks == [] then [] else [Received(c, chunks[0])] + Session(c, chunks[1..])
  }

  lemma {:induction false} SessionPeer<C>(c: C, p: Peer, chunks: seq<seq<Byte>>, o: Outcomes)
    requires Partial(p.prefix) && PossiblePeerRun(Some(p), Session(c, chunks), o)
    ensures Delivery(p.prefix, chunks) && PeerRun(Some(p), Session(c, chunks), o) == Some(TakeAll(p, chunks, o))
    decreases |chunks|
  {
    if chunks != [] {
      var s := Session(c, chunks);
      assert s[0] == Received(c, chunks[0]) && s[1..] == Session(c, chunks[1..]);
      TakePrefix(p, chunks[0], o);
      SessionPeer(c, Take(p, chunks[0], o), chunks[1..], o);
    }
  }

  /**
   * In any run, a live connection whose bytes so far are b has dispatched exactly the messages of b,
   * buffers exactly the rest, and has the switch and the replies those messages amount to.
   */
  lemma LiveConnection<C>(w: World<C>, evs: seq<Event<C>>, o: C -> Outcomes, c: C, chunks: seq<seq<Byte>>)
    requires PossibleRun(w, evs, o) && c !in w.peers && EventsOf(evs, c) == [Opened(c)] + Session(c, chunks)
    ensures var (fs, rest) := Split(Concat(chunks));
      && Frames(fs) && c in Run(w, evs, o).peers
      && Run(w, evs, o).peers[c] == HandleAll(FRESH, fs, o(c)).(prefix := rest)
  {
    Isolated(w, evs, o, c);
    var mine := EventsOf(evs, c);
    assert mine[0] == Opened(c) && mine[1..] == Session(c, chunks);
    SessionPeer(c, FRESH, chunks, o(c));
    TakeAllSplits(FRESH, chunks, o(c));
    FeedSplits([], chunks);
    assert [] + Concat(chunks) == Concat(chunks);
  }

  // ---------------------------------------------------------------- streams that fit the buffers

  /** The bytes delivered on a live connection before it ends. */
  function Incoming<C(==)>(evs: seq<Event<C>>, c: C): seq<Byte> {
    if evs == [] then []
    else if evs[0].c != c then Incoming(evs[1..], c)
    else match evs[0]
      case Received(_, more) => more + Incoming(evs[1..], c)
      case _ => []
  }

  /** No connection opened in the run declares a message of more than n bytes. */
  predicate Fits<C(==)>(evs: seq<Event<C>>, n: nat) {
    evs == [] || ((evs[0].Opened? ==> Declares(Incoming(evs[1..], evs[0].c), n)) && Fits(evs[1..], n))
  }

  /** Nor does a connection that is live already. */
  ghost predicate FitsLive<C>(w: World<C>, evs: seq<Event<C>>, n: nat) {
    forall c {:trigger c in w.peers} :: c in w.peers ==> Declares(w.peers[c].prefix + Incoming(evs, c), n)
  }

  /** No call of recv, now or at any later point of the run, asks for more than n bytes leave room for. */
  ghost predicate WithinRun<C>(w: World<C>, evs: seq<Event<C>>, o: C -> Outcomes, n: nat)
    requires PossibleRun(w, evs, o)
    decreases |evs|
  {
    && (forall c {:trigger c in w.peers} :: c in w.peers ==> |w.peers[c].prefix| + Want(w.peers[c].prefix) <= n)
    && (evs == [] || WithinRun(Step(w, evs[0], o), evs[1..], o, n))
  }

  /** What fits one connection is decided by its next event and what comes after. */
  lemma FitsOnward<C>(w: World<C>, evs: seq<Event<C>>, o: C -> Outcomes, n: nat, d: C)
    requires Sound(w) && evs != [] && Possible(w, evs[0]) && n >= HEADER && d in w.peers
    ensures var t := Step(w, evs[0], o);
      Declares(w.peers[d].prefix + Incoming(evs, d), n) <==>
        && |w.peers[d].prefix| + Want(w.peers[d].prefix) <= n
        && (d in t.peers ==> Declares(t.peers[d].prefix + Incoming(evs[1..], d), n))
  {
    var ev, p := evs[0], w.peers[d].prefix;
    if d == ev.c && ev.Received? {
      TakePrefix(w.peers[d], ev.more, o(d));
      DeclaresOnward(p, ev.more, Incoming(evs[1..], d), n);
    } else if d == ev.c {
      assert p + [] == p;
    } else if Declares(p + Incoming(evs, d), n) {
      DeclaresNow(p, Incoming(evs, d), n);
    }
  }

  lemma FitsOpened<C>(w: World<C>, evs: seq<Event<C>>, o: C -> Outcomes, n: nat)
    requires evs != [] && evs[0].Opened? && Possible(w, evs[0])
    ensures var t, c := Step(w, evs[0], o), evs[0].c;
      c in t.peers && t.peers[c].prefix + Incoming(evs[1..], c) == Incoming(evs[1..], c)
  {
    assert [] + Incoming(evs[1..], evs[0].c) == Incoming(evs[1..], evs[0].c);
  }

  /** In such a run the next call of recv asks for no more than the buffer has left, and so on from there. */
  lemma FitsStep<C>(w: World<C>, evs: seq<Event<C>>, o: C -> Outcomes, n: nat)
    requires Sound(w) && evs != [] && Possible(w, evs[0]) && FitsLive(w, evs, n) && Fits(evs, n) && n >= HEADER
    ensures FitsLive(Step(w, evs[0], o), evs[1..], n)
    ensures forall c {:trigger c in w.peers} :: c in w.peers ==> |w.peers[c].prefix| + Want(w.peers[c].prefix) <= n
  {
    var t := Step(w, evs[0], o);
    forall d | d in w.peers
      ensures |w.peers[d].prefix| + Want(w.peers[d].prefix) <= n
    {
      FitsOnward(w, evs, o, n, d);
    }
    forall d | d in t.peers
      ensures Declares(t.peers[d].prefix + Incoming(evs[1..], d), n)
    {
      if d in w.peers { FitsOnward(w, evs, o, n, d); } else { FitsOpened(w, evs, o, n); }
    }
  }

  /** Conversely, a run whose calls all ask for no more than that is one whose messages fit. */
  lemma FitsStepBack<C>(w: World<C>, evs: seq<Event<C>>, o: C -> Outcomes, n: nat)
    requires Sound(w) && evs != [] && Possible(w, evs[0]) && n >= HEADER
    requires forall c {:trigger c in w.peers} :: c in w.peers ==> |w.peers[c].prefix| + Want(w.peers[c].prefix) <= n
    requires FitsLive(Step(w, evs[0], o), evs[1..], n) && Fits(evs[1..], n)
    ensures FitsLive(w, evs, n) && Fits(evs, n)
  {
    if evs[0].Opened? { FitsOpened(w, evs, o, n); }
    forall d | d in w.peers
      ensures Declares(w.peers[d].prefix + Incoming(evs, d), n)
    {
      FitsOnward(w, evs, o, n, d);
    }
  }

  /**
   * Over every run, recv is never asked to write beyond n bytes if and only if no connection, while
   * it is open, declares a message of more than n bytes.
   */
  lemma {:induction false} WithinRunIff<C>(w: World<C>, evs: seq<Event<C>>, o: C -> Outcomes, n: nat)
    requires Sound(w) && PossibleRun(w, evs, o) && n >= HEADER
    ensures WithinRun(w, evs, o, n) <==> FitsLive(w, evs, n) && Fits(evs, n)
    decreases |evs|
  {
    if evs == [] {
      forall c | c in w.peers
        ensures Declares(w.peers[c].prefix + Incoming(evs, c), n)
           <==> |w.peers[c].prefix| + Want(w.peers[c].prefix) <= n
      {
        assert w.peers[c].prefix + [] == w.peers[c].prefix;
      }
    } else {
      StepSound(w, evs[0], o);
      WithinRunIff(Step(w, evs[0], o), evs[1..], o, n);
      if FitsLive(w, evs, n) && Fits(evs, n) { FitsStep(w, evs, o, n); }
      if WithinRun(w, evs, o, n) { FitsStepBack(w, evs, o, n); }
    }
  }
}
