/** The OpenFlow message boundaries in a byte stream, as receive_data of yanc_of_adapter.cc finds them. */
module Framing {
  import opened Bytes

  /** sizeof(struct ofp_header): version, type, length, xid (OpenFlow 1.0.0, section 5.1). */
  const HEADER: nat := 8

  /** The length field of a header, in network byte order. */
  function Declared(b: seq<Byte>): (n: nat)
    requires |b| >= HEADER
    ensures n < 0x1_0000
  {
    256 * (b[2] as nat) + b[3] as nat
  }

  /** Bytes of the message starting with b: a header is always read whole. */
  function SizeOf(b: seq<Byte>): (n: nat)
    requires |b| >= HEADER
    ensures n >= HEADER
  {
    if Declared(b) < HEADER then HEADER else Declared(b)
  }

  /** b is a beginning of a message, but not all of it. */
  predicate Partial(b: seq<Byte>) {
    |b| < HEADER || |b| < Declared(b)
  }

  /** b is exactly one message. */
  predicate IsFrame(b: seq<Byte>) {
    |b| >= HEADER && |b| == SizeOf(b)
  }

  /** Reference parser: the messages at the front of b, and the bytes left over. */
  function Split(b: seq<Byte>): (r: (seq<seq<Byte>>, seq<Byte>))
    decreases |b|
  {
    if |b| < HEADER || |b| < SizeOf(b) then ([], b)
    else
      var r := Split(b[SizeOf(b)..]);
      ([b[..SizeOf(b)]] + r.0, r.1)
  }

  predicate Frames(fs: seq<seq<Byte>>) {
    forall i :: 0 <= i < |fs| ==> IsFrame(fs[i])
  }

  function Concat(fs: seq<seq<Byte>>): seq<Byte> {
    if fs == [] then [] else fs[0] + Concat(fs[1..])
  }

  /** A message in front is split off. */
  lemma SplitFrame(f: seq<Byte>, b: seq<Byte>)
    requires IsFrame(f)
    ensures Split(f + b) == ([f] + Split(b).0, Split(b).1)
  {
    var w := f + b;
    assert w[..|f|] == f && w[|f|..] == b;
    assert Declared(w) == Declared(f);
  }

  /** Nothing is lost or added, every piece is one whole message, and what is left is none yet. */
  lemma {:induction false} SplitSound(b: seq<Byte>)
    ensures Frames(Split(b).0) && Partial(Split(b).1) && Concat(Split(b).0) + Split(b).1 == b
    decreases |b|
  {
    if |b| >= HEADER && |b| >= SizeOf(b) {
      var n := SizeOf(b);
      SplitSound(b[n..]);
      assert b == b[..n] + b[n..];
      assert Split(b).0[1..] == Split(b[n..]).0;
    }
  }

  /** There is no other way to cut b into whole messages and an incomplete one. */
  lemma {:induction false} SplitUnique(fs: seq<seq<Byte>>, rest: seq<Byte>)
    requires Frames(fs) && Partial(rest)
    ensures Split(Concat(fs) + rest) == (fs, rest)
  {
    if fs == [] {
      assert Concat(fs) + rest == rest;
    } else {
      SplitUnique(fs[1..], rest);
      assert Concat(fs) + rest == fs[0] + (Concat(fs[1..]) + rest);
      SplitFrame(fs[0], Concat(fs[1..]) + rest);
      assert [fs[0]] + fs[1..] == fs;
    }
  }

  lemma {:induction false} ConcatJoin(a: seq<seq<Byte>>, b: seq<seq<Byte>>)
    ensures Concat(a + b) == Concat(a) + Concat(b)
  {
    if a == [] {
      assert a + b == b;
    } else {
      ConcatJoin(a[1..], b);
      assert (a + b)[1..] == a[1..] + b;
    }
  }

  lemma Reassociate(b: seq<Byte>, x: seq<Byte>, rest: seq<Byte>, more: seq<Byte>, y: seq<Byte>, rest': seq<Byte>)
    requires b == x + rest && rest + more == y + rest'
    ensures b + more == (x + y) + rest'
  {
    assert (x + rest) + more == x + (rest + more);
    assert x + (y + rest') == (x + y) + rest';
  }

  /** Parsing can stop anywhere and go on later from what was left. */
  lemma SplitMore(b: seq<Byte>, more: seq<Byte>)
    ensures var (fs, rest) := Split(b); var (gs, rest') := Split(rest + more);
      Split(b + more) == (fs + gs, rest')
  {
    var (fs, rest) := Split(b);
    var (gs, rest') := Split(rest + more);
    SplitSound(b);
    SplitSound(rest + more);
    ConcatJoin(fs, gs);
    Reassociate(b, Concat(fs), rest, more, Concat(gs), rest');
    SplitUnique(fs + gs, rest');
  }

  // ---------------------------------------------------------------- one call of receive_data

  /** How many bytes receive_data asks recv for, given the bytes buffered. */
  function Want(b: seq<Byte>): nat {
    if |b| < HEADER then HEADER - |b|
    else if |b| < Declared(b) then Declared(b) - |b|
    else 0
  }

  /** What it dispatches (at most one message) and keeps when recv delivers more. */
  function Receive(b: seq<Byte>, more: seq<Byte>): (r: (seq<seq<Byte>>, seq<Byte>)) {
    var c := b + more;
    if |more| < Want(b) || |c| < HEADER || |c| < Declared(c) then ([], c) else ([c], [])
  }

  /**
   * One call agrees with the reference parser on the bytes so far: it waits for exactly what
   * completes a header or a message, so it never reads into the next one.
   */
  lemma ReceiveSplits(b: seq<Byte>, more: seq<Byte>)
    requires Partial(b) && |more| <= Want(b)
    ensures Want(b) > 0 && Receive(b, more) == Split(b + more) && Partial(Receive(b, more).1)
  {
    var c := b + more;
    SplitSound(c);
    if |b| >= HEADER {
      assert Declared(c) == Declared(b);
    }
    if |more| == Want(b) && |c| >= Declared(c) {
      assert IsFrame(c) && c + [] == c && [c] + [] == [c];
      SplitFrame(c, []);
    }
  }

  /** recv always has something to ask for, and less is missing after every byte of a message's body. */
  lemma Progress(b: seq<Byte>, more: seq<Byte>)
    requires Partial(b) && 0 < |more| <= Want(b)
    ensures Receive(b, more).0 == [] ==>
      |b| < |Receive(b, more).1| && (|b| >= HEADER ==> Want(Receive(b, more).1) == Want(b) - |more|)
  {
    if |b| >= HEADER { assert Declared(b + more) == Declared(b); }
  }

  // ---------------------------------------------------------------- whole streams

  /** The pieces fit what each call asks for. */
  ghost predicate Delivery(b: seq<Byte>, chunks: seq<seq<Byte>>)
    decreases |chunks|
  {
    chunks == [] ||
      (0 < |chunks[0]| <= Want(b) && Delivery(Receive(b, chunks[0]).1, chunks[1..]))
  }

  /** All messages dispatched while the pieces arrive, and the bytes buffered afterwards. */
  function Feed(b: seq<Byte>, chunks: seq<seq<Byte>>): (r: (seq<seq<Byte>>, seq<Byte>))
    decreases |chunks|
  {
    if chunks == [] then ([], b)
    else
      var (now, kept) := Receive(b, chunks[0]);
      var (later, rest) := Feed(kept, chunks[1..]);
      (now + later, rest)
  }

  lemma SplitOnward(b: seq<Byte>, first: seq<Byte>, tail: seq<Byte>)
    ensures var (now, kept) := Split(b + first); var (later, rest) := Split(kept + tail);
      Split(b + (first + tail)) == (now + later, rest)
  {
    SplitMore(b + first, tail);
    assert b + (first + tail) == (b + first) + tail;
  }

  /** Whatever the pieces, the messages dispatched and the bytes kept are those of the reference parser. */
  lemma {:induction false} FeedSplits(b: seq<Byte>, chunks: seq<seq<Byte>>)
    requires Partial(b) && Delivery(b, chunks)
    ensures Feed(b, chunks) == Split(b + Concat(chunks)) && Partial(Feed(b, chunks).1)
    decreases |chunks|
  {
    if chunks == [] {
      assert b + Concat(chunks) == b;
      SplitSound(b);
      SplitUnique([], b);
      assert Concat([]) + b == b;
    } else {
      ReceiveSplits(b, chunks[0]);
      FeedSplits(Receive(b, chunks[0]).1, chunks[1..]);
      SplitOnward(b, chunks[0], Concat(chunks[1..]));
    }
  }

  /** From a new connection on: dispatched messages followed by the buffered bytes are the bytes received. */
  lemma FeedConserves(chunks: seq<seq<Byte>>)
    requires Delivery([], chunks)
    ensures var (fs, rest) := Feed([], chunks);
      Frames(fs) && Partial(rest) && Concat(fs) + rest == Concat(chunks)
  {
    FeedSplits([], chunks);
    assert [] + Concat(chunks) == Concat(chunks);
    SplitSound(Concat(chunks));
  }

  /** Two ways of cutting the same bytes into pieces dispatch the same messages and keep the same bytes. */
  lemma FragmentationIndependent(chunks: seq<seq<Byte>>, others: seq<seq<Byte>>)
    requires Delivery([], chunks) && Delivery([], others) && Concat(chunks) == Concat(others)
    ensures Feed([], chunks) == Feed([], others)
  {
    FeedSplits([], chunks);
    FeedSplits([], others);
  }

  /** No stream is stuck: the longest possible message fits in 65535 bytes. */
  lemma SomethingArrives(chunks: seq<seq<Byte>>)
    requires Delivery([], chunks) && |Concat(chunks)| >= 0xFFFF
    ensures Feed([], chunks).0 != []
  {
    FeedConserves(chunks);
    FeedSplits([], chunks);
    assert [] + Concat(chunks) == Concat(chunks);
  }

  // ---------------------------------------------------------------- the buffer's size

  /** Every header in the stream declares at most n bytes. */
  predicate Declares(b: seq<Byte>, n: nat)
    decreases |b|
  {
    |b| < HEADER || (Declared(b) <= n && (|b| >= SizeOf(b) ==> Declares(b[SizeOf(b)..], n)))
  }

  /** Every call, and the one after the last piece, asks for no more than n bytes leave room for. */
  ghost predicate Within(b: seq<Byte>, chunks: seq<seq<Byte>>, n: nat)
    decreases |chunks|
  {
    |b| + Want(b) <= n && (chunks == [] || Within(Receive(b, chunks[0]).1, chunks[1..], n))
  }

  /** The bytes already buffered decide what the call asks for. */
  lemma DeclaresNow(b: seq<Byte>, more: seq<Byte>, n: nat)
    requires Partial(b) && n >= HEADER && Declares(b + more, n)
    ensures |b| + Want(b) <= n
  {
    if |b| >= HEADER { assert Declared(b + more) == Declared(b); }
  }

  /** Taking a message off, or buffering more of it, leaves the headers to come. */
  lemma DeclaresOnward(b: seq<Byte>, more: seq<Byte>, tail: seq<Byte>, n: nat)
    requires Partial(b) && 0 < |more| <= Want(b) && n >= HEADER
    ensures Declares(b + (more + tail), n) <==> |b| + Want(b) <= n && Declares(Receive(b, more).1 + tail, n)
  {
    var c := b + more;
    var all := b + (more + tail);
    assert all == c + tail;
    if |b| >= HEADER { assert Declared(c) == Declared(b); }
    if Receive(b, more).0 == [] {
      if Declares(all, n) { DeclaresNow(b, more + tail, n); }
    } else {
      assert Declared(all) == Declared(c) && all[|c|..] == tail && [] + tail == tail;
    }
  }

  /**
   * However the stream is cut, recv is never asked to write beyond n bytes if and only if no header
   * in it declares more.
   */
  lemma {:induction false} StaysInBuffer(b: seq<Byte>, chunks: seq<seq<Byte>>, n: nat)
    requires Partial(b) && Delivery(b, chunks) && n >= HEADER
    ensures Within(b, chunks, n) <==> Declares(b + Concat(chunks), n)
    decreases |chunks|
  {
    if chunks == [] {
      assert b + Concat(chunks) == b;
    } else {
      ReceiveSplits(b, chunks[0]);
      StaysInBuffer(Receive(b, chunks[0]).1, chunks[1..], n);
      DeclaresOnward(b, chunks[0], Concat(chunks[1..]), n);
    }
  }

  /** A header that declares more than n bytes makes the next call ask for more than there is room. */
  lemma HeaderOverflows(h: seq<Byte>, n: nat)
    requires |h| == HEADER && Declared(h) > n >= HEADER
    ensures Delivery([], [h]) && Feed([], [h]) == ([], h) && |h| + Want(h) == Declared(h) && !Within([], [h], n)
  {
    assert [] + h == h && [h][1..] == [];
    assert Receive([], h) == ([], h) && Feed(h, []) == ([], h);
    assert Feed([], [h]).0 == [] + [];
    assert Concat([h]) == h + Concat([]) == h;
    StaysInBuffer([], [h], n);
  }

  /** The smallest such message for a buffer of 4096 bytes: a HELLO that declares 4097. */
  lemma OversizedHello()
    ensures var h: seq<Byte> := [1, 0, 0x10, 0x01, 0, 0, 0, 0];
      Declared(h) == 4097 && Delivery([], [h]) && !Within([], [h], 4096)
  {
    HeaderOverflows([1, 0, 0x10, 0x01, 0, 0, 0, 0], 4096);
  }
}
