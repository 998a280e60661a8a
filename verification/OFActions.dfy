/** OFActions::fill (of_actions.cc): from a line of words to an action list in a buffer. */
module OFActions {
  import opened Wrappers
  import opened Text
  import opened Bytes
  import opened ActionList

  // ---------------------------------------------------------------- words

  function Skip(s: string): (k: nat)
    ensures k <= |s| && (k < |s| ==> !IsSpace(s[k]))
  {
    if s == [] || !IsSpace(s[0]) then 0 else 1 + Skip(s[1..])
  }

  function WordLen(s: string): (k: nat)
    ensures k <= |s| && (s != [] && !IsSpace(s[0]) ==> k > 0)
  {
    if s == [] || IsSpace(s[0]) then 0 else 1 + WordLen(s[1..])
  }

  /** What repeated extraction from a stringstream yields. */
  function Words(s: string): seq<string>
    decreases |s|
  {
    var t := s[Skip(s)..];
    if t == [] then [] else [t[..WordLen(t)]] + Words(t[WordLen(t)..])
  }

  // ---------------------------------------------------------------- what each word stands for

  /** The attribute files next to the line of actions. */
  datatype Fields = Fields(output: nat, outputMaxLen: nat, vlan: nat, vlanPcp: nat, dlSrc: nat, dlDst: nat,
                           nwSrc: nat, nwDst: nat, nwTos: nat, tpSrc: nat, tpDst: nat)
  {
    predicate Valid() {
      && U16(output) && U16(outputMaxLen) && U16(vlan) && U8(vlanPcp) && U48(dlSrc) && U48(dlDst)
      && U32(nwSrc) && U32(nwDst) && U8(nwTos) && U16(tpSrc) && U16(tpDst)
    }
  }

  /** htons on a little-endian host, as a number. */
  function Swapped(n: nat): nat
    requires U16(n)
  {
    n % 256 * 256 + n / 256
  }

  /** The words the code compares with, in its order. */
  const WORDS: seq<string> :=
    ["output", "vlan", "vlan_pcp", "strip_vlan", "dl_src", "dl_dst", "nw_src", "nw_dst", "nw_tos", "tp_src", "tp_dst"]

  /** The first of the words from the i-th on that is w; |WORDS| if none is. */
  function FindWord(w: string, i: nat): (k: nat)
    requires i <= |WORDS|
    ensures i <= k <= |WORDS| && (k < |WORDS| ==> WORDS[k] == w) && (forall j :: i <= j < k ==> WORDS[j] != w)
    decreases |WORDS| - i
  {
    if i == |WORDS| || WORDS[i] == w then i else FindWord(w, i + 1)
  }

  /** The action written for a word, with the given priority for vlan_pcp. */
  function ActionWith(w: string, f: Fields, pcp: nat): Option<Action> {
    match FindWord(w, 0)
    case 0 => Some(Output(f.output, f.outputMaxLen))
    case 1 => Some(VlanVid(f.vlan))
    case 2 => Some(VlanPcp(pcp))
    case 3 => Some(StripVlan)
    case 4 => Some(DlSrc(f.dlSrc))
    case 5 => Some(DlDst(f.dlDst))
    case 6 => Some(NwSrc(f.nwSrc))
    case 7 => Some(NwDst(f.nwDst))
    case 8 => Some(NwTos(f.nwTos))
    case 9 => Some(TpSrc(f.tpSrc))
    case 10 => Some(TpDst(f.tpDst))
    case _ => None
  }

  lemma PriorityWord(w: string)
    ensures FindWord(w, 0) == 2 <==> w == "vlan_pcp"
  {
    assert WORDS[0] == "output" && WORDS[1] == "vlan" && WORDS[2] == "vlan_pcp";
    assert |WORDS[0]| == 6 && |WORDS[1]| == 4 && |WORDS[2]| == 8;
    var k := FindWord("vlan_pcp", 0);
    assert k != 0 && k != 1;
  }

  function ActionsWith(ws: seq<string>, f: Fields, pcp: nat): seq<Action> {
    if ws == [] then []
    else match ActionWith(ws[0], f, pcp)
      case None => ActionsWith(ws[1..], f, pcp)
      case Some(a) => [a] + ActionsWith(ws[1..], f, pcp)
  }

  /** The actions the line asks for. */
  function Asked(line: string, f: Fields): seq<Action> {
    ActionsWith(Words(line), f, f.vlanPcp)
  }

  /** The actions fill writes: the byte vlan_pcp gets the low half of an htons. */
  function Written(line: string, f: Fields): seq<Action>
    requires f.Valid()
  {
    ActionsWith(Words(line), f, Swapped(f.vlanPcp) % 256)
  }

  lemma {:induction false} WrittenSized(ws: seq<string>, f: Fields, pcp: nat, i: nat)
    requires f.Valid() && U8(pcp) && i < |ActionsWith(ws, f, pcp)|
    ensures Sized(ActionsWith(ws, f, pcp)[i])
  {
    match ActionWith(ws[0], f, pcp)
    case None => WrittenSized(ws[1..], f, pcp, i);
    case Some(a) => if i > 0 { WrittenSized(ws[1..], f, pcp, i - 1); }
  }

  lemma {:induction false} SamePriority(ws: seq<string>, f: Fields, pcp: nat, other: nat)
    ensures Total(ActionsWith(ws, f, pcp)) == Total(ActionsWith(ws, f, other))
    ensures ActionsWith(ws, f, pcp) == ActionsWith(ws, f, other) <==> "vlan_pcp" !in ws || pcp == other
  {
    if ws != [] {
      SamePriority(ws[1..], f, pcp, other);
      PriorityWord(ws[0]);
      var a, b := ActionsWith(ws[1..], f, pcp), ActionsWith(ws[1..], f, other);
      assert "vlan_pcp" in ws <==> ws[0] == "vlan_pcp" || "vlan_pcp" in ws[1..];
      if ActionWith(ws[0], f, pcp).Some? {
        var x, y := ActionWith(ws[0], f, pcp).value, ActionWith(ws[0], f, other).value;
        assert ([x] + a)[1..] == a && ([y] + b)[1..] == b && ([x] + a)[0] == x && ([y] + b)[0] == y;
      }
    }
  }

  // ---------------------------------------------------------------- fill

  /** b with bytes stored at at. */
  function Over(b: seq<Byte>, at: nat, bytes: seq<Byte>): (r: seq<Byte>)
    requires at + |bytes| <= |b|
    ensures |r| == |b|
  {
    b[..at] + bytes + b[at + |bytes|..]
  }

  lemma OverTwice(b: seq<Byte>, at: nat, x: seq<Byte>, y: seq<Byte>)
    requires at + |x| + |y| <= |b|
    ensures Over(Over(b, at, x), at + |x|, y) == Over(b, at, x + y)
  {
    assert Over(b, at, x)[..at + |x|] == b[..at] + x;
    assert Over(b, at, x)[at + |x| + |y|..] == b[at + |x + y|..];
  }

  lemma Padded(b: seq<Byte>, at: nat, x: seq<Byte>, n: nat)
    requires |x| <= n && at + n <= |b|
    ensures Over(b, at, x) == Over(b, at, x + b[at..at + n][|x|..])
  {
  }

  /** Storing an action's fields stores its struct, padding as it was. */
  lemma OverAction(b: seq<Byte>, at: nat, a: Action)
    requires at + Size(a) <= |b|
    ensures Over(b, at, Be16(Code(a)) + Be16(Size(a)) + Body(a)) == Over(b, at, Put(a, b[at..at + Size(a)]))
  {
    Padded(b, at, Be16(Code(a)) + Be16(Size(a)) + Body(a), Size(a));
  }

  /** Store the bytes of some fields. */
  method Store(buf: array<Byte>, at: nat, bytes: seq<Byte>)
    requires at + |bytes| <= buf.Length
    modifies buf
    ensures buf[..] == Over(old(buf[..]), at, bytes)
  {
    forall i | 0 <= i < |bytes| { buf[at + i] := bytes[i]; }
    assert old(buf[..])[..at] == old(buf[..at]);
  }

  /** The fill_* writers: type, length and fields; padding stays as it was. */
  method FillAction(a: Action, buf: array<Byte>, cur: nat)
    requires cur + Size(a) <= buf.Length
    modifies buf
    ensures buf[..] == Over(old(buf[..]), cur, Put(a, old(buf[..])[cur..cur + Size(a)]))
  {
    ghost var was, x, y, z := buf[..], Be16(Code(a)), Be16(Size(a)), Body(a);
    Store(buf, cur, Be16(Code(a)));
    Store(buf, cur + 2, Be16(Size(a)));
    Store(buf, cur + 4, Body(a));
    OverTwice(was, cur, x, y);
    OverTwice(was, cur, x + y, z);
    OverAction(was, cur, a);
  }

  /** A buffer of which acts are still to be stored behind cur. */
  ghost predicate ToStore(b: seq<Byte>, cur: nat, acts: seq<Action>, goal: seq<Byte>) {
    cur + Total(acts) <= |b| && b[..cur] + PutAll(acts, b[cur..]) == goal
  }

  lemma StoreStart(b: seq<Byte>, acts: seq<Action>)
    requires Total(acts) <= |b|
    ensures ToStore(b, 0, acts, PutAll(acts, b))
  {
    assert b[0..] == b && b[..0] + PutAll(acts, b) == PutAll(acts, b);
  }

  lemma StoreEnd(b: seq<Byte>, cur: nat, goal: seq<Byte>)
    requires ToStore(b, cur, [], goal)
    ensures b == goal
  {
    assert b[..cur] + b[cur..] == b;
  }

  lemma OverAt(b: seq<Byte>, cur: nat, first: seq<Byte>, rest: seq<Byte>)
    requires |first| >= 4 && cur + |first| <= |b|
    ensures var c, n := Over(b, cur, first), cur + |first|;
      && c[..n] + rest == b[..cur] + (first + rest) && c[n..] == b[n..]
      && c[cur + 2] == first[2] && c[cur + 3] == first[3]
  {
    assert Over(b, cur, first)[..cur + |first|] == b[..cur] + first;
  }

  lemma SliceAt(b: seq<Byte>, cur: nat, n: nat)
    requires cur + n <= |b|
    ensures b[cur..][..n] == b[cur..cur + n] && b[cur..][n..] == b[cur + n..]
  {
  }

  lemma PutLength(a: Action, was: seq<Byte>)
    requires |was| == Size(a)
    ensures 256 * (Put(a, was)[2] as nat) + Put(a, was)[3] as nat == Size(a)
  {
  }

  lemma Stored(b: seq<Byte>, cur: nat, acts: seq<Action>, goal: seq<Byte>)
    requires acts != [] && ToStore(b, cur, acts, goal)
    ensures var n := Size(acts[0]);
      && cur + n <= |b|
      && var c := Over(b, cur, Put(acts[0], b[cur..cur + n]));
         ToStore(c, cur + n, acts[1..], goal) && 256 * (c[cur + 2] as nat) + c[cur + 3] as nat == n
  {
    var n := Size(acts[0]);
    var was := b[cur..cur + n];
    SliceAt(b, cur, n);
    PutLength(acts[0], was);
    OverAt(b, cur, Put(acts[0], was), PutAll(acts[1..], b[cur + n..]));
  }

  /** What is still to be written after the first word. */
  ghost predicate After(acts: seq<Action>, first: Option<Action>, rest: seq<Action>) {
    match first
    case None => acts == rest
    case Some(a) => acts != [] && acts[0] == a && Sized(a) && acts[1..] == rest
  }

  lemma HeadAction(ws: seq<string>, f: Fields, pcp: nat)
    requires f.Valid() && U8(pcp) && ws != []
    ensures After(ActionsWith(ws, f, pcp), ActionWith(ws[0], f, pcp), ActionsWith(ws[1..], f, pcp))
  {
  }

  lemma NextWord(rest: string)
    ensures var word := rest[Skip(rest)..]; var n := WordLen(word);
      if word == [] then Words(rest) == []
      else n > 0 && Words(rest) != [] && Words(rest)[0] == word[..n] && Words(rest)[1..] == Words(word[n..])
  {
  }

  /** Store one action and move on by the length in its header. */
  method FillNext(a: Action, buf: array<Byte>, cur: nat, ghost todo: seq<Action>, ghost goal: seq<Byte>)
      returns (cur': nat)
    requires todo != [] && todo[0] == a && Sized(a) && ToStore(buf[..], cur, todo, goal)
    modifies buf
    ensures ToStore(buf[..], cur', todo[1..], goal) && cur' == cur + Size(a)
  {
    Stored(buf[..], cur, todo, goal);
    FillAction(a, buf, cur);
    cur' := cur + 256 * (buf[cur + 2] as nat) + buf[cur + 3] as nat;
  }

  /** Its loop over the words. */
  method FillWords(f: Fields, line: string, buf: array<Byte>, pcp: nat) returns (cur: nat)
    requires f.Valid() && U8(pcp) && Total(ActionsWith(Words(line), f, pcp)) <= buf.Length
    modifies buf
    ensures buf[..] == PutAll(ActionsWith(Words(line), f, pcp), old(buf[..]))
    ensures cur == Total(ActionsWith(Words(line), f, pcp))
  {
    var rest := line;
    cur := 0;
    ghost var todo := ActionsWith(Words(line), f, pcp);
    ghost var goal, total := PutAll(todo, buf[..]), Total(todo);
    StoreStart(buf[..], todo);
    while true
      invariant todo == ActionsWith(Words(rest), f, pcp) && cur + Total(todo) == total
      invariant ToStore(buf[..], cur, todo, goal)
      decreases |rest|
    {
      NextWord(rest);
      ghost var ws := Words(rest);
      var word := rest[Skip(rest)..];
      if word == [] {
        break;
      }
      HeadAction(ws, f, pcp);
      var n := WordLen(word);
      rest := word[n..];
      var action := ActionWith(word[..n], f, pcp);
      if action.Some? {
        cur := FillNext(action.value, buf, cur, todo, goal);
        todo := todo[1..];
      }
    }
    StoreEnd(buf[..], cur, goal);
  }

  /** fill: returns the length of the list as a uint16_t. */
  method Fill(f: Fields, line: string, buf: array<Byte>) returns (length: nat)
    requires f.Valid() && Total(Written(line, f)) <= buf.Length
    modifies buf
    ensures buf[..] == PutAll(Written(line, f), old(buf[..]))
    ensures length == Total(Written(line, f)) % 0x1_0000
  {
    var cur := FillWords(f, line, buf, Swapped(f.vlanPcp) % 256);
    length := cur % 0x1_0000;
  }

  // ---------------------------------------------------------------- what a switch reads

  lemma {:induction false} PutAllTail(acts: seq<Action>, was: seq<Byte>)
    requires Total(acts) <= |was|
    ensures PutAll(acts, was) == PutAll(acts, was[..Total(acts)]) + was[Total(acts)..]
    decreases |acts|
  {
    if acts == [] {
      assert was[..0] + was[0..] == was;
    } else {
      var n, k := Size(acts[0]), Total(acts);
      PutAllTail(acts[1..], was[n..]);
      assert was[n..][..k - n] == was[..k][n..] && was[n..][k - n..] == was[k..] && was[..k][..n] == was[..n];
      Regroup(Put(acts[0], was[..n]), PutAll(acts[1..], was[..k][n..]), was[k..]);
    }
  }

  lemma WalkPrefix(acts: seq<Action>, was: seq<Byte>)
    requires Total(acts) <= |was| && forall i :: 0 <= i < |acts| ==> Sized(acts[i])
    ensures var n, b := Total(acts), PutAll(acts, was); Walk(b[..n]) == Some(acts) && b[n..] == was[n..]
  {
    var n := Total(acts);
    PutAllTail(acts, was);
    WalkPutAll(acts, was[..n]);
    var x, y := PutAll(acts, was[..n]), was[n..];
    assert (x + y)[..n] == x && (x + y)[n..] == y;
  }

  /**
   * Walking the buffer by the headers' lengths recovers exactly the written actions, in order, with
   * their fields; the bytes behind the list are untouched.
   */
  lemma FillWalks(f: Fields, line: string, was: seq<Byte>)
    requires f.Valid() && Total(Written(line, f)) <= |was|
    ensures var n, b := Total(Written(line, f)), PutAll(Written(line, f), was);
      Walk(b[..n]) == Some(Written(line, f)) && b[n..] == was[n..] && n % 8 == 0
  {
    forall i | 0 <= i < |Written(line, f)|
      ensures Sized(Written(line, f)[i])
    {
      WrittenSized(Words(line), f, Swapped(f.vlanPcp) % 256, i);
    }
    WalkPrefix(Written(line, f), was);
  }

  /** The returned length is a multiple of 8, even where 16 bits cut it short. */
  lemma LengthAligned(acts: seq<Action>)
    ensures Total(acts) % 0x1_0000 % 8 == 0
  {
    var n := Total(acts);
    assert n == n / 0x1_0000 * 0x1_0000 + n % 0x1_0000;
  }

  lemma SwappedByte(v: nat)
    requires U8(v)
    ensures Swapped(v) % 256 == 0
  {
  }

  /** What is read back is what the line asks for exactly when it sets no VLAN priority other than 0. */
  lemma AskedIsWrittenIff(f: Fields, line: string)
    requires f.Valid()
    ensures Written(line, f) == Asked(line, f) <==> "vlan_pcp" !in Words(line) || f.vlanPcp == 0
    ensures Total(Written(line, f)) == Total(Asked(line, f))
  {
    SwappedByte(f.vlanPcp);
    SamePriority(Words(line), f, 0, f.vlanPcp);
  }

  lemma {:induction false} OneWord(w: string)
    requires w != [] && forall i :: 0 <= i < |w| ==> !IsSpace(w[i])
    ensures WordLen(w) == |w|
  {
    if |w| > 1 { OneWord(w[1..]); }
  }

  lemma PriorityAlone(f: Fields, pcp: nat)
    ensures ActionsWith(["vlan_pcp"], f, pcp) == [VlanPcp(pcp)]
  {
    PriorityWord("vlan_pcp");
    var ws := ["vlan_pcp"];
    assert ws[1..] == [] && ActionWith(ws[0], f, pcp) == Some(VlanPcp(pcp));
    assert ActionsWith(ws[1..], f, pcp) == [];
  }

  /** For one: the line vlan_pcp with the priority 3 writes the priority 0. */
  lemma PriorityLost(f: Fields)
    requires f.Valid() && f.vlanPcp == 3
    ensures Asked("vlan_pcp", f) == [VlanPcp(3)] && Written("vlan_pcp", f) == [VlanPcp(0)]
  {
    var w := "vlan_pcp";
    OneWord(w);
    assert w[0..] == w && w[..|w|] == w && Words(w[|w|..]) == [];
    assert Words(w) == [w];
    PriorityAlone(f, 3);
    PriorityAlone(f, 0);
    SwappedByte(3);
  }
}
