/** The adapter serving a whole run of events on its connections. */
module Listening {
  import opened Bytes
  import opened Framing
  import opened Handshake
  import opened Connections
  import opened Adapter

  /** The adapter before the first connection; connections have numbers in the abstract world. */
  const EMPTY: World<nat> := World(map[], 0, 0)

  /** w is v with each number replaced by its own connection object. */
  ghost predicate Mirrors(w: World<StreamConnection>, v: World<nat>, conns: map<nat, StreamConnection>) {
    && w.created == v.created && w.deleted == v.deleted && v.peers.Keys <= conns.Keys
    && (forall i {:trigger conns[i]} :: i in v.peers ==>
          conns[i] in w.peers && w.peers[conns[i]] == v.peers[i])
    && (forall i, j {:trigger conns[i], conns[j]} :: i in v.peers && j in v.peers && i != j ==> conns[i] != conns[j])
    && (forall c {:trigger c in w.peers} :: c in w.peers ==> exists i :: i in v.peers && conns[i] == c)
  }

  lemma MirrorsOpened(w: World<StreamConnection>, v: World<nat>, conns: map<nat, StreamConnection>, o: nat -> Outcomes,
                      i: nat, c: StreamConnection, u: StreamConnection -> Outcomes)
    requires Mirrors(w, v, conns) && i !in v.peers && c !in w.peers
    ensures Mirrors(Step(w, Opened(c), u), Step(v, Opened(i), o), conns[i := c])
  {
    var t, s := Step(w, Opened(c), u), Step(v, Opened(i), o);
    forall d | d in t.peers
      ensures exists k :: k in s.peers && k in conns[i := c] && conns[i := c][k] == d
    {
      if d == c {
        assert i in s.peers && conns[i := c][i] == d;
      } else {
        var k :| k in v.peers && conns[k] == d;
        assert k in s.peers && conns[i := c][k] == d;
      }
    }
  }

  lemma MirrorsReceived(w: World<StreamConnection>, v: World<nat>, conns: map<nat, StreamConnection>,
                        o: nat -> Outcomes, i: nat, more: seq<Byte>, u: StreamConnection -> Outcomes)
    requires Mirrors(w, v, conns) && Possible(v, Received(i, more)) && u(conns[i]) == o(i)
    ensures Possible(w, Received(conns[i], more))
    ensures Mirrors(Step(w, Received(conns[i], more), u), Step(v, Received(i, more), o), conns)
  {
    var t, s := Step(w, Received(conns[i], more), u), Step(v, Received(i, more), o);
    assert t.peers.Keys == w.peers.Keys && s.peers.Keys == v.peers.Keys;
  }

  lemma MirrorsClosed(w: World<StreamConnection>, v: World<nat>, conns: map<nat, StreamConnection>, o: nat -> Outcomes,
                      i: nat, u: StreamConnection -> Outcomes)
    requires Mirrors(w, v, conns) && i in v.peers
    ensures Mirrors(Step(w, Closed(conns[i]), u), Step(v, Closed(i), o), conns)
  {
    var t, s := Step(w, Closed(conns[i]), u), Step(v, Closed(i), o);
    forall d | d in t.peers
      ensures exists k :: k in s.peers && conns[k] == d
    {
      var k :| k in v.peers && conns[k] == d;
      assert k in s.peers;
    }
  }

  /** The buffer is empty after a call exactly when the call dispatched a message. */
  lemma EmptyIff(p: Peer, more: seq<Byte>, o: Outcomes)
    requires Partial(p.prefix) && 0 < |more| <= Want(p.prefix)
    ensures var q := Take(p, more, o);
      |q.log| == |p.log| + (if q.prefix == [] then 1 else 0)
  {
    TakeCases(p, more, o);
  }

  /** counts has the number of messages each live connection has dispatched. */
  ghost predicate Counted(v: World<nat>, counts: map<nat, nat>) {
    forall i {:trigger i in v.peers} :: i in v.peers ==> i in counts && counts[i] == |v.peers[i].log|
  }

  method ServeOpened(a: YancOFAdapter, i: nat, o: nat -> Outcomes, conns: map<nat, StreamConnection>,
                     ghost v: World<nat>)
      returns (conns': map<nat, StreamConnection>)
    requires a.Valid() && Mirrors(a.w, v, conns) && i !in v.peers
    modifies a
    ensures a.Valid() && Mirrors(a.w, Step(v, Opened(i), o), conns')
    ensures forall x {:trigger x in a.Objects()} :: x in a.Objects() ==> x in old(a.Objects()) || fresh(x)
  {
    ghost var u, w := _ => o(i), a.w;
    var c := a.NewSwitch(u);
    MirrorsOpened(w, v, conns, o, i, c, u);
    conns' := conns[i := c];
  }

  /** sent says whether the call dispatched a message. */
  method ServeReceived(a: YancOFAdapter, i: nat, more: seq<Byte>, o: nat -> Outcomes, conns: map<nat, StreamConnection>,
                       made: bool, ghost v: World<nat>) returns (sent: bool)
    requires a.Valid() && Mirrors(a.w, v, conns) && Possible(v, Received(i, more)) && made == o(i)(|v.peers[i].log|)
    requires |v.peers[i].prefix| + Want(v.peers[i].prefix) <= YOF_BUF_LEN
    modifies a, a.net, a.Objects()
    ensures a.Valid() && Mirrors(a.w, Step(v, Received(i, more), o), conns)
    ensures |Step(v, Received(i, more), o).peers[i].log| == |v.peers[i].log| + (if sent then 1 else 0)
    ensures forall x {:trigger x in a.Objects()} :: x in a.Objects() ==> x in old(a.Objects()) || fresh(x)
  {
    ghost var u := _ => o(i);
    MirrorsReceived(a.w, v, conns, o, i, more, u);
    EmptyIff(v.peers[i], more, o(i));
    a.Owned(conns[i]);
    a.ReceiveData(conns[i], more, made, u);
    a.Owned(conns[i]);
    sent := a.curs[conns[i]] == 0;
  }

  method ServeClosed(a: YancOFAdapter, i: nat, o: nat -> Outcomes, conns: map<nat, StreamConnection>,
                     ghost v: World<nat>)
    requires a.Valid() && Mirrors(a.w, v, conns) && i in v.peers
    requires |v.peers[i].prefix| + Want(v.peers[i].prefix) <= YOF_BUF_LEN
    modifies a, a.net, a.Objects()
    ensures a.Valid() && Mirrors(a.w, Step(v, Closed(i), o), conns)
    ensures forall x {:trigger x in a.Objects()} :: x in a.Objects() ==> x in old(a.Objects()) || fresh(x)
  {
    ghost var u := _ => o(i);
    MirrorsClosed(a.w, v, conns, o, i, u);
    a.Owned(conns[i]);
    a.ReceiveData(conns[i], [], false, u);
  }

  /** An event changes the count of its own connection only. */
  lemma CountedStep(v: World<nat>, ev: Event<nat>, o: nat -> Outcomes, counts: map<nat, nat>, n: nat)
    requires Counted(v, counts) && Possible(v, ev)
    requires ev.c in Step(v, ev, o).peers ==> n == |Step(v, ev, o).peers[ev.c].log|
    ensures Counted(Step(v, ev, o), counts[ev.c := n])
  {
    var t := Step(v, ev, o);
    assert forall i :: i in t.peers && i != ev.c ==> i in v.peers && t.peers[i] == v.peers[i];
  }

  /** One event on the adapter's objects. */
  method Serve(a: YancOFAdapter, ev: Event<nat>, o: nat -> Outcomes, conns: map<nat, StreamConnection>,
               counts: map<nat, nat>, ghost v: World<nat>)
      returns (conns': map<nat, StreamConnection>, counts': map<nat, nat>)
    requires a.Valid() && Mirrors(a.w, v, conns) && Counted(v, counts) && Possible(v, ev)
    requires ev.c in v.peers ==> |v.peers[ev.c].prefix| + Want(v.peers[ev.c].prefix) <= YOF_BUF_LEN
    modifies a, a.net, a.Objects()
    ensures a.Valid() && Mirrors(a.w, Step(v, ev, o), conns') && Counted(Step(v, ev, o), counts')
    ensures forall x {:trigger x in a.Objects()} :: x in a.Objects() ==> x in old(a.Objects()) || fresh(x)
  {
    conns' := conns;
    var n := 0;
    match ev {
      case Opened(i) =>
        conns' := ServeOpened(a, i, o, conns, v);
      case Received(i, more) =>
        var sent := ServeReceived(a, i, more, o, conns, o(i)(counts[i]), v);
        n := counts[i] + if sent then 1 else 0;
      case Closed(i) =>
        ServeClosed(a, i, o, conns, v);
    }
    CountedStep(v, ev, o, counts, n);
    counts' := counts[ev.c := n];
  }

  /** The rest of a run that ends in goal, on streams that fit the buffers. */
  ghost predicate Ahead(v: World<nat>, evs: seq<Event<nat>>, o: nat -> Outcomes, goal: World<nat>) {
    && Sound(v) && PossibleRun(v, evs, o) && Run(v, evs, o) == goal
    && Fits(evs, YOF_BUF_LEN) && FitsLive(v, evs, YOF_BUF_LEN)
  }

  lemma Onward(v: World<nat>, evs: seq<Event<nat>>, k: nat, o: nat -> Outcomes, goal: World<nat>)
    requires k < |evs| && Ahead(v, evs[k..], o, goal)
    ensures Possible(v, evs[k]) && Ahead(Step(v, evs[k], o), evs[k + 1..], o, goal)
    ensures evs[k].c in v.peers ==> |v.peers[evs[k].c].prefix| + Want(v.peers[evs[k].c].prefix) <= YOF_BUF_LEN
  {
    assert evs[k..][0] == evs[k] && evs[k..][1..] == evs[k + 1..];
    FitsStep(v, evs[k..], o, YOF_BUF_LEN);
    StepSound(v, evs[k], o);
  }

  /**
   * From start on, any possible run of events on connections that declare no message longer than
   * their buffers leaves the adapter's objects in the world of the abstract run.
   */
  method Listen(evs: seq<Event<nat>>, o: nat -> Outcomes) returns (a: YancOFAdapter, conns: map<nat, StreamConnection>)
    requires PossibleRun(EMPTY, evs, o) && Fits(evs, 4096)
    ensures a.Valid() && Mirrors(a.w, Run(EMPTY, evs, o), conns)
  {
    a := new YancOFAdapter();
    var counts: map<nat, nat> := map[];
    conns := map[];
    var k := 0;
    ghost var v, goal := EMPTY, Run(EMPTY, evs, o);
    assert evs[0..] == evs;
    while k < |evs|
      invariant k <= |evs| && a.Valid() && fresh(a) && fresh(a.net)
      invariant forall x {:trigger x in a.Objects()} :: x in a.Objects() ==> fresh(x)
      invariant Mirrors(a.w, v, conns) && Counted(v, counts) && Ahead(v, evs[k..], o, goal)
    {
      Onward(v, evs, k, o, goal);
      conns, counts := Serve(a, evs[k], o, conns, counts, v);
      v := Step(v, evs[k], o);
      k := k + 1;
    }
  }
}
