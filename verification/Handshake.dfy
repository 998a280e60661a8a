/** One connection of the OpenFlow adapter: its bytes, its switch, and what it is sent (of_network.cc). */
module Handshake {
  import opened Wrappers
  import opened Bytes
  import opened Framing

  // OpenFlow 1.0.0, section 5.1: enum ofp_type
  const HELLO: Byte := 0
  const ERROR: Byte := 1
  const ECHO_REQUEST: Byte := 2
  const ECHO_REPLY: Byte := 3
  const FEATURES_REQUEST: Byte := 5
  const FEATURES_REPLY: Byte := 6
  const GET_CONFIG_REPLY: Byte := 8
  const PACKET_IN: Byte := 10
  const FLOW_REMOVED: Byte := 11
  const VERSION_1_0: Byte := 1
  const VERSION_1_1: Byte := 2
  /** A whole message. */
  type Frame = f: seq<Byte> | IsFrame(f) witness [1, 0, 0, 8, 0, 0, 0, 0]

  function VersionOf(f: Frame): Byte { f[0] }

  function TypeOf(f: Frame): Byte { f[1] }

  /** A message of the controller without a body: version 1.0, xid 0. */
  function Bare(kind: Byte): Frame { [VERSION_1_0, kind, 0, 8, 0, 0, 0, 0] }

  /** The request with its type overwritten, as many bytes as it declares. */
  function Echo(f: Frame): seq<Byte> { f[1 := ECHO_REPLY][..Declared(f)] }

  /** The uint16_t the OFSwitch constructor computes for the bytes behind struct ofp_switch_features. */
  function PortBytes(f: Frame): nat { (Declared(f) - 32) % 0x1_0000 }

  /**
   * new OFSwitch(..) does not throw: its directory could be made, and the ports of the two known
   * versions fill the message (48 bytes each in 1.0, 64 in 1.1). Other versions pass, as in the code.
   */
  predicate Accepts(f: Frame, made: bool) {
    made &&
    if VersionOf(f) == VERSION_1_0 then PortBytes(f) % 48 == 0
    else if VersionOf(f) == VERSION_1_1 then PortBytes(f) % 64 == 0
    else true
  }

  /** A message that makes a connection without a switch get one. */
  predicate Introduces(f: Frame, made: bool) {
    TypeOf(f) == FEATURES_REPLY && Accepts(f, made)
  }

  /**
   * prefix: the bytes buffered; log: the messages dispatched; inbox: of the connection's switch, if it
   * has one, the messages handed to it; sent: what was written to the connection.
   */
  datatype Peer = Peer(prefix: seq<Byte>, log: seq<Frame>, inbox: Option<seq<Frame>>, sent: seq<seq<Byte>>)

  /** new_switch with new_connection: an empty buffer and a HELLO. */
  const FRESH: Peer := Peer([], [], None, [Bare(HELLO)])

  /** handle_message; made says whether a switch's directory could be made. */
  function Handle(p: Peer, f: Frame, made: bool): Peer {
    var q := p.(log := p.log + [f]);
    var kind := TypeOf(f);
    if kind == HELLO then
      if p.inbox.None? then q.(sent := p.sent + [Bare(FEATURES_REQUEST)]) else q
    else if kind == ERROR then q
    else if kind == ECHO_REQUEST then q.(sent := p.sent + [Echo(f)])
    else if kind == FEATURES_REPLY then
      if p.inbox.None? && Accepts(f, made) then q.(inbox := Some([])) else q
    else if p.inbox.None? then q
    else if kind == GET_CONFIG_REPLY || kind == FLOW_REMOVED then q.(inbox := Some(p.inbox.value + [f]))
    else if kind == PACKET_IN && (VersionOf(f) == VERSION_1_0 || VersionOf(f) == VERSION_1_1)
    then q.(inbox := Some(p.inbox.value + [f]))
    else q
  }

  /** Whether the directory for the switch announced by the i-th message of the connection can be made. */
  type Outcomes = nat -> bool

  function HandleAll(p: Peer, fs: seq<Frame>, o: Outcomes): Peer
    decreases |fs|
  {
    if fs == [] then p else HandleAll(Handle(p, fs[0], o(|p.log|)), fs[1..], o)
  }

  /** receive_data when recv delivered more. */
  function Take(p: Peer, more: seq<Byte>, o: Outcomes): Peer
    requires Partial(p.prefix) && |more| <= Want(p.prefix)
  {
    ReceiveSplits(p.prefix, more);
    SplitSound(p.prefix + more);
    var (fs, rest) := Receive(p.prefix, more);
    HandleAll(p.(prefix := rest), fs, o)
  }

  // ---------------------------------------------------------------- what a connection's messages amount to

  /** Where the first accepted FEATURES_REPLY from the i-th message on is; |log| if there is none. */
  function Introduced(log: seq<Frame>, o: Outcomes, i: nat): (k: nat)
    requires i <= |log|
    ensures i <= k <= |log|
    ensures k < |log| ==> Introduces(log[k], o(k))
    ensures forall j {:trigger log[j]} :: i <= j < k ==> !Introduces(log[j], o(j))
    decreases |log| - i
  {
    if i == |log| || Introduces(log[i], o(i)) then i
    else Introduced(log, o, i + 1)
  }

  /** Messages meant for a switch. */
  predicate Directed(f: Frame) {
    TypeOf(f) == GET_CONFIG_REPLY || TypeOf(f) == FLOW_REMOVED ||
    (TypeOf(f) == PACKET_IN && (VersionOf(f) == VERSION_1_0 || VersionOf(f) == VERSION_1_1))
  }

  function DirectedOf(fs: seq<Frame>): (r: seq<Frame>)
    ensures forall i :: 0 <= i < |r| ==> Directed(r[i])
  {
    if fs == [] then [] else (if Directed(fs[0]) then [fs[0]] else []) + DirectedOf(fs[1..])
  }

  /** Replies to a stretch of messages during which the switch stays known or unknown. */
  function Answers(fs: seq<Frame>, known: bool): seq<seq<Byte>> {
    if fs == [] then []
    else
      (if TypeOf(fs[0]) == HELLO && !known then [Bare(FEATURES_REQUEST)]
       else if TypeOf(fs[0]) == ECHO_REQUEST then [Echo(fs[0])]
       else []) + Answers(fs[1..], known)
  }

  lemma {:induction false} HandleKnown(p: Peer, fs: seq<Frame>, o: Outcomes)
    requires p.inbox.Some?
    ensures HandleAll(p, fs, o)
         == Peer(p.prefix, p.log + fs, Some(p.inbox.value + DirectedOf(fs)), p.sent + Answers(fs, true))
    decreases |fs|
  {
    if fs == [] {
      assert p.log + fs == p.log && p.inbox.value + [] == p.inbox.value && p.sent + [] == p.sent;
    } else {
      var q := Handle(p, fs[0], o(|p.log|));
      HandleKnown(q, fs[1..], o);
      assert q.log + fs[1..] == p.log + fs;
      assert q.inbox.value + DirectedOf(fs[1..]) == p.inbox.value + DirectedOf(fs);
      assert q.sent + Answers(fs[1..], true) == p.sent + Answers(fs, true);
    }
  }

  /** None of the messages, the first of which is the i-th of its connection, introduces a switch. */
  predicate Anonymous(fs: seq<Frame>, o: Outcomes, i: nat)
    decreases |fs|
  {
    fs == [] || (!Introduces(fs[0], o(i)) && Anonymous(fs[1..], o, i + 1))
  }

  lemma {:induction false} AnonymousBetween(log: seq<Frame>, o: Outcomes, i: nat, k: nat)
    requires i <= k <= |log| && forall j {:trigger log[j]} :: i <= j < k ==> !Introduces(log[j], o(j))
    ensures Anonymous(log[i..k], o, i)
    decreases k - i
  {
    if i < k {
      AnonymousBetween(log, o, i + 1, k);
      assert log[i..k][0] == log[i] && log[i..k][1..] == log[i + 1..k];
    }
  }

  lemma {:induction false} HandleUnknown(p: Peer, fs: seq<Frame>, o: Outcomes)
    requires p.inbox.None? && Anonymous(fs, o, |p.log|)
    ensures HandleAll(p, fs, o) == Peer(p.prefix, p.log + fs, None, p.sent + Answers(fs, false))
    decreases |fs|
  {
    if fs == [] {
      assert p.log + fs == p.log && p.sent + [] == p.sent;
    } else {
      var q := Handle(p, fs[0], o(|p.log|));
      assert q.inbox.None? && |q.log| == |p.log| + 1;
      HandleUnknown(q, fs[1..], o);
      assert q.log + fs[1..] == p.log + fs;
      assert q.sent + Answers(fs[1..], false) == p.sent + Answers(fs, false);
    }
  }

  lemma {:induction false} HandleSplit(p: Peer, a: seq<Frame>, b: seq<Frame>, o: Outcomes)
    ensures HandleAll(p, a + b, o) == HandleAll(HandleAll(p, a, o), b, o)
    decreases |a|
  {
    if a == [] {
      assert a + b == b;
    } else {
      assert (a + b)[0] == a[0] && (a + b)[1..] == a[1..] + b;
      HandleSplit(Handle(p, a[0], o(|p.log|)), a[1..], b, o);
    }
  }

  lemma SplitAround<T>(s: seq<T>, k: nat)
    requires k < |s|
    ensures s == s[..k] + ([s[k]] + s[k + 1..])
  {
  }

  lemma NoneAccepted(fs: seq<Frame>, o: Outcomes)
    requires Anonymous(fs, o, 0)
    ensures HandleAll(FRESH, fs, o) == Peer([], fs, None, [Bare(HELLO)] + Answers(fs, false))
  {
    HandleUnknown(FRESH, fs, o);
    assert [] + fs == fs;
  }

  lemma Accepting(p: Peer, f: Frame, b: seq<Frame>, o: Outcomes)
    requires p.inbox.None? && Introduces(f, o(|p.log|))
    ensures HandleAll(p, [f] + b, o)
         == Peer(p.prefix, p.log + ([f] + b), Some(DirectedOf(b)), p.sent + Answers(b, true))
  {
    var q := Handle(p, f, o(|p.log|));
    assert q == p.(log := p.log + [f], inbox := Some([]));
    assert ([f] + b)[0] == f && ([f] + b)[1..] == b;
    HandleKnown(q, b, o);
    Regroup(p.log, [f], b);
    assert [] + DirectedOf(b) == DirectedOf(b);
  }

  lemma AcceptedAt(a: seq<Frame>, f: Frame, b: seq<Frame>, o: Outcomes)
    requires Anonymous(a, o, 0) && Introduces(f, o(|a|))
    ensures HandleAll(FRESH, a + ([f] + b), o)
         == Peer([], a + ([f] + b), Some(DirectedOf(b)), [Bare(HELLO)] + (Answers(a, false) + Answers(b, true)))
  {
    HandleUnknown(FRESH, a, o);
    HandleSplit(FRESH, a, [f] + b, o);
    Accepting(HandleAll(FRESH, a, o), f, b, o);
    assert [] + a == a;
    Regroup([Bare(HELLO)], Answers(a, false), Answers(b, true));
  }

  /**
   * A connection's messages, in order, determine everything: it has a switch exactly when one of them
   * was an accepted FEATURES_REPLY, its switch is handed exactly the switch-directed messages after
   * the first such one, and it is sent a HELLO, a FEATURES_REQUEST for each HELLO before that, and the
   * echo of each ECHO_REQUEST.
   */
  lemma Lifecycle(fs: seq<Frame>, o: Outcomes)
    ensures var p, k := HandleAll(FRESH, fs, o), Introduced(fs, o, 0);
      && p.log == fs && p.prefix == []
      && p.inbox == (if k == |fs| then None else Some(DirectedOf(fs[k + 1..])))
      && p.sent == [Bare(HELLO)] +
           (if k == |fs| then Answers(fs, false) else Answers(fs[..k], false) + Answers(fs[k + 1..], true))
  {
    var k := Introduced(fs, o, 0);
    AnonymousBetween(fs, o, 0, k);
    assert fs[0..k] == fs[..k];
    if k == |fs| {
      assert fs[..k] == fs;
      NoneAccepted(fs, o);
    } else {
      SplitAround(fs, k);
      AcceptedAt(fs[..k], fs[k], fs[k + 1..], o);
    }
  }

  // ---------------------------------------------------------------- byte streams

  lemma {:induction false} HandlePrefix(p: Peer, fs: seq<Frame>, o: Outcomes)
    ensures HandleAll(p, fs, o).prefix == p.prefix
    decreases |fs|
  {
    if fs != [] { HandlePrefix(Handle(p, fs[0], o(|p.log|)), fs[1..], o); }
  }

  lemma TakePrefix(p: Peer, more: seq<Byte>, o: Outcomes)
    requires Partial(p.prefix) && |more| <= Want(p.prefix)
    ensures Take(p, more, o).prefix == Receive(p.prefix, more).1 && Partial(Take(p, more, o).prefix)
  {
    ReceiveSplits(p.prefix, more);
    SplitSound(p.prefix + more);
    HandlePrefix(p.(prefix := Receive(p.prefix, more).1), Receive(p.prefix, more).0, o);
  }

  /** A connection while pieces of its stream arrive. */
  function TakeAll(p: Peer, chunks: seq<seq<Byte>>, o: Outcomes): Peer
    requires Partial(p.prefix) && Delivery(p.prefix, chunks)
    decreases |chunks|
  {
    if chunks == [] then p
    else
      TakePrefix(p, chunks[0], o);
      TakeAll(Take(p, chunks[0], o), chunks[1..], o)
  }

  lemma {:induction false} HandleRebuffered(p: Peer, fs: seq<Frame>, o: Outcomes, b: seq<Byte>)
    ensures HandleAll(p.(prefix := b), fs, o) == HandleAll(p, fs, o).(prefix := b)
    decreases |fs|
  {
    if fs != [] { HandleRebuffered(Handle(p, fs[0], o(|p.log|)), fs[1..], o, b); }
  }

  /** The pieces do not matter: the connection ends up as if the reference parser had cut its bytes. */
  lemma {:induction false} TakeAllSplits(p: Peer, chunks: seq<seq<Byte>>, o: Outcomes)
    requires Partial(p.prefix) && Delivery(p.prefix, chunks)
    ensures Frames(Feed(p.prefix, chunks).0)
    ensures TakeAll(p, chunks, o) == HandleAll(p, Feed(p.prefix, chunks).0, o).(prefix := Feed(p.prefix, chunks).1)
    decreases |chunks|
  {
    if chunks != [] {
      var (now, kept) := Receive(p.prefix, chunks[0]);
      ReceiveSplits(p.prefix, chunks[0]);
      SplitSound(p.prefix + chunks[0]);
      TakePrefix(p, chunks[0], o);
      var q := Take(p, chunks[0], o);
      TakeAllSplits(q, chunks[1..], o);
      var (later, rest) := Feed(kept, chunks[1..]);
      HandleSplit(p, now, later, o);
      HandleRebuffered(p, now, o, kept);
      HandleRebuffered(HandleAll(p, now, o), later, o, kept);
    }
  }

  /** Two ways of cutting the same bytes into pieces leave the connection and its switch in the same state. */
  lemma PeerFragmentationIndependent(chunks: seq<seq<Byte>>, others: seq<seq<Byte>>, o: Outcomes)
    requires Delivery([], chunks) && Delivery([], others) && Concat(chunks) == Concat(others)
    ensures TakeAll(FRESH, chunks, o) == TakeAll(FRESH, others, o)
  {
    TakeAllSplits(FRESH, chunks, o);
    TakeAllSplits(FRESH, others, o);
    FragmentationIndependent(chunks, others);
  }

  // ---------------------------------------------------------------- echo

  /** A well-formed request comes back with its version, length, xid and payload unchanged. */
  lemma EchoUnmodified(f: Frame)
    requires Declared(f) >= HEADER && TypeOf(f) == ECHO_REQUEST
    ensures IsFrame(Echo(f)) && TypeOf(Echo(f)) == ECHO_REPLY && Echo(f)[0] == f[0] && Echo(f)[2..] == f[2..]
  {
    assert Declared(f[1 := ECHO_REPLY]) == Declared(f);
    assert f[1 := ECHO_REPLY][..|f|] == f[1 := ECHO_REPLY];
  }
}
