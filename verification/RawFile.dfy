/** Raw attributes (_set_raw and _get_raw of types.c): writes and reads at offsets. */
module RawFile {
  import opened Wrappers
  import opened Bytes

  /** One write: bytes stored from an offset on. */
  datatype Write = Write(at: nat, bytes: seq<Byte>)
  {
    function End(): nat { at + |bytes| }

    predicate Covers(i: nat) { at <= i < End() }
  }

  function SizeOf(ws: seq<Write>): nat {
    if ws == [] then 0
    else
      var w, n := ws[|ws| - 1], SizeOf(ws[..|ws| - 1]);
      if w.End() > n then w.End() else n
  }

  /** The byte the last write covering i put there. Bytes no write covered are whatever realloc left. */
  function ByteAt(ws: seq<Write>, i: nat): Option<Byte> {
    if ws == [] then None
    else
      var w := ws[|ws| - 1];
      if w.Covers(i) then Some(w.bytes[i - w.at]) else ByteAt(ws[..|ws| - 1], i)
  }

  /** content is one way the file can look after the writes. */
  predicate Shows(content: seq<Byte>, ws: seq<Write>) {
    && |content| == SizeOf(ws)
    && forall i {:trigger ByteAt(ws, i)} ::
         0 <= i < |content| && ByteAt(ws, i).Some? ==> content[i] == ByteAt(ws, i).value
  }

  lemma Appended(ws: seq<Write>, w: Write, i: nat)
    ensures SizeOf(ws + [w]) == if w.End() > SizeOf(ws) then w.End() else SizeOf(ws)
    ensures ByteAt(ws + [w], i) == if w.Covers(i) then Some(w.bytes[i - w.at]) else ByteAt(ws, i)
  {
    assert (ws + [w])[..|ws|] == ws;
  }

  lemma {:induction false} OnlyWithin(ws: seq<Write>, i: nat)
    ensures ByteAt(ws, i).Some? ==> i < SizeOf(ws)
  {
    if ws != [] { OnlyWithin(ws[..|ws| - 1], i); }
  }

  /** What memcpy writes over a grown content shows one more write. */
  lemma ShowsMore(content: seq<Byte>, ws: seq<Write>, w: Write, grown: seq<Byte>, now: seq<Byte>)
    requires Shows(content, ws) && content <= grown && |grown| == SizeOf(ws + [w])
    requires |now| == |grown| && w.End() <= |now|
    requires forall i :: 0 <= i < |now| ==> now[i] == if w.Covers(i) then w.bytes[i - w.at] else grown[i]
    ensures Shows(now, ws + [w])
  {
    forall i {:trigger ByteAt(ws + [w], i)} | 0 <= i < |now| && ByteAt(ws + [w], i).Some?
      ensures now[i] == ByteAt(ws + [w], i).value
    {
      Appended(ws, w, i);
      if !w.Covers(i) {
        OnlyWithin(ws, i);
        assert content[i] == grown[i];
      }
    }
  }

  /** The file's size is the furthest any write reached, and some write reached it. */
  lemma {:induction false} SizeIsMaximum(ws: seq<Write>)
    ensures forall k :: 0 <= k < |ws| ==> ws[k].at + |ws[k].bytes| <= SizeOf(ws)
    ensures if ws == [] then SizeOf(ws) == 0 else exists k :: 0 <= k < |ws| && ws[k].at + |ws[k].bytes| == SizeOf(ws)
  {
    if ws != [] {
      var rest, w := ws[..|ws| - 1], ws[|ws| - 1];
      SizeIsMaximum(rest);
      if w.End() > SizeOf(rest) || rest == [] {
        assert ws[|ws| - 1].End() == SizeOf(ws);
      } else {
        var k :| 0 <= k < |rest| && rest[k].End() == SizeOf(rest);
        assert ws[k].End() == SizeOf(ws);
      }
    }
  }

  /** A byte some write covered is the one the last such write put there. */
  lemma {:induction false} LastWriteWins(ws: seq<Write>, k: nat, i: nat)
    requires k < |ws| && ws[k].at <= i < ws[k].at + |ws[k].bytes|
    requires forall j :: k < j < |ws| ==> !(ws[j].at <= i < ws[j].at + |ws[j].bytes|)
    ensures ByteAt(ws, i) == Some(ws[k].bytes[i - ws[k].at])
    decreases |ws|
  {
    if k < |ws| - 1 { LastWriteWins(ws[..|ws| - 1], k, i); }
  }

  // ---------------------------------------------------------------- the entry

  /** Bytes read, or -ERANGE. */
  datatype Read = Got(bytes: seq<Byte>) | OutOfRange

  /** What _get_raw returns for a content. */
  function ReadAt(content: seq<Byte>, bufsiz: nat, o: nat): Read {
    if content == [] then Got([])
    else if o >= |content| then OutOfRange
    else if |content| - o > bufsiz then Got(content[o..o + bufsiz])
    else Got(content[o..])
  }

  /** Behind the end of a content there is an error; from the end of nothing there is nothing to read. */
  lemma ReadAtIff(content: seq<Byte>, bufsiz: nat, o: nat)
    ensures ReadAt(content, bufsiz, o) == OutOfRange <==> content != [] && o >= |content|
    ensures forall bytes :: (ReadAt(content, bufsiz, o) == Got(bytes) <==>
      (content == [] && bytes == []) ||
      (o < |content| && |bytes| == (if bufsiz < |content| - o then bufsiz else |content| - o)
       && forall i :: 0 <= i < |bytes| ==> bytes[i] == content[o + i]))
  {
  }

  function Sum(sizes: seq<nat>): nat {
    if sizes == [] then 0 else sizes[0] + Sum(sizes[1..])
  }

  /** What a client collects that reads block after block from o on. */
  function Blocks(content: seq<Byte>, o: nat, sizes: seq<nat>): seq<Byte>
    decreases |sizes|
  {
    if sizes == [] then []
    else match ReadAt(content, sizes[0], o)
      case OutOfRange => []
      case Got(bytes) => bytes + Blocks(content, o + sizes[0], sizes[1..])
  }

  lemma {:induction false} NothingBeyond(content: seq<Byte>, o: nat, sizes: seq<nat>)
    requires o >= |content|
    ensures Blocks(content, o, sizes) == []
    decreases |sizes|
  {
    if sizes != [] { NothingBeyond(content, o + sizes[0], sizes[1..]); }
  }

  /** Consecutive blocks of any sizes give the content up to where they end. */
  lemma {:induction false} BlocksCover(content: seq<Byte>, o: nat, sizes: seq<nat>)
    requires o <= |content|
    ensures Blocks(content, o, sizes) == if o + Sum(sizes) < |content| then content[o..o + Sum(sizes)] else content[o..]
    decreases |sizes|
  {
    if sizes != [] && o < |content| {
      if o + sizes[0] <= |content| {
        BlocksCover(content, o + sizes[0], sizes[1..]);
      } else {
        NothingBeyond(content, o + sizes[0], sizes[1..]);
      }
    } else if sizes != [] {
      NothingBeyond(content, o + sizes[0], sizes[1..]);
    }
  }

  class RawEntry {
    var data: array?<Byte>
    var size: nat
    ghost var writes: seq<Write>

    function Content(): seq<Byte>
      reads this, data
    {
      if data == null then [] else data[..]
    }

    ghost predicate Valid()
      reads this, data
    {
      && (if data == null then size == 0 else 0 < size == data.Length)
      && Shows(Content(), writes)
    }

    constructor ()
      ensures Valid() && writes == []
    {
      data, size, writes := null, 0, [];
    }

    /** realloc(data, n) for a larger n: the new bytes are arbitrary. */
    method Grow(n: nat)
      requires (if data == null then size == 0 else size == data.Length) && size < n
      modifies this`data, this`size
      ensures data != null && fresh(data) && data.Length == size == n && old(Content()) <= Content()
    {
      var more := new Byte[n];
      if data != null {
        forall i | 0 <= i < data.Length { more[i] := data[i]; }
      }
      data, size := more, n;
    }

    /** _set_raw */
    method Set(bytes: seq<Byte>, o: nat) returns (taken: nat)
      requires Valid()
      modifies this, data
      ensures Valid() && writes == old(writes) + [Write(o, bytes)] && taken == |bytes|
      ensures data == old(data) || fresh(data)
    {
      ghost var content, w := Content(), Write(o, bytes);
      if o + |bytes| > size {
        Grow(o + |bytes|);
      }
      ghost var grown := Content();
      Appended(writes, w, 0);
      if data != null {
        forall i | 0 <= i < |bytes| { data[o + i] := bytes[i]; }
      }
      ShowsMore(content, writes, w, grown, Content());
      writes := writes + [w];
      taken := |bytes|;
    }

    /** _get_raw */
    method Get(bufsiz: nat, o: nat) returns (r: Read)
      requires Valid()
      ensures r == ReadAt(Content(), bufsiz, o)
    {
      if data == null {
        return Got([]);
      }
      if o >= size {
        return OutOfRange;
      }
      var len := size - o;
      if len > bufsiz {
        len := bufsiz;
      }
      return Got(data[o..o + len]);
    }
  }
}
