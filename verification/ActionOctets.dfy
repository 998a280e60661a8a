/** The octets OFActions::fill stores for each word, and for lines of several words. */
module ActionOctets {
  import opened Wrappers
  import opened Text
  import opened Bytes
  import opened ActionList
  import opened OFActions

  // ---------------------------------------------------------------- words

  /** isspace in the C locale takes space, tab, newline, vertical tab, form feed and return. */
  lemma SpaceIff(c: char)
    ensures IsSpace(c) <==> c in {' ', '\t', '\n', '\U{B}', '\U{C}', '\r'}
  {
  }

  lemma {:induction false} SkipMore(a: string, b: string)
    requires Skip(a) < |a|
    ensures Skip(a + b) == Skip(a)
  {
    if IsSpace(a[0]) {
      assert (a + b)[1..] == a[1..] + b;
      SkipMore(a[1..], b);
    }
  }

  lemma {:induction false} SkipAll(a: string, b: string)
    requires Skip(a) == |a|
    ensures Skip(a + b) == |a| + Skip(b)
  {
    if a == [] {
      assert a + b == b;
    } else {
      assert (a + b)[1..] == a[1..] + b;
      SkipAll(a[1..], b);
    }
  }

  lemma {:induction false} WordLenMore(a: string, sp: char, b: string)
    requires IsSpace(sp)
    ensures WordLen(a + [sp] + b) == WordLen(a)
  {
    if a == [] {
      assert a + [sp] + b == [sp] + b;
    } else if !IsSpace(a[0]) {
      assert (a + [sp] + b)[1..] == a[1..] + [sp] + b;
      WordLenMore(a[1..], sp, b);
    }
  }

  lemma {:induction false} SpacesFirst(b: string, k: nat)
    requires k <= |b| && forall i :: 0 <= i < k ==> IsSpace(b[i])
    ensures Words(b[k..]) == Words(b)
    decreases k
  {
    if k > 0 {
      assert b[1..][k - 1..] == b[k..];
      SpacesFirst(b[1..], k - 1);
      assert b[Skip(b)..] == b[1..][Skip(b[1..])..];
    } else {
      assert b[0..] == b;
    }
  }

  lemma {:induction false} SkipsSpaces(a: string)
    ensures forall i :: 0 <= i < Skip(a) ==> IsSpace(a[i])
  {
    if a != [] && IsSpace(a[0]) {
      SkipsSpaces(a[1..]);
      assert forall i :: 1 <= i < Skip(a) ==> a[i] == a[1..][i - 1];
    }
  }

  lemma BlankJoin(a: string, sp: char, b: string)
    requires IsSpace(sp) && Skip(a) == |a|
    ensures Words(a) == [] && Words(a + [sp] + b) == Words(b)
  {
    var k, all := |a|, a + [sp] + b;
    SkipsSpaces(a);
    assert forall i :: 0 <= i < k + 1 ==> IsSpace(all[i]);
    SpacesFirst(all, k + 1);
    assert all[k + 1..] == b && a[k..] == [];
  }

  lemma WordFirst(a: string, sp: char, b: string)
    requires IsSpace(sp) && Skip(a) < |a|
    ensures var t := a[Skip(a)..]; var n := WordLen(t);
      Words(a + [sp] + b) == [t[..n]] + Words(t[n..] + [sp] + b)
  {
    var k, all := Skip(a), a + [sp] + b;
    assert all == a + ([sp] + b);
    SkipMore(a, [sp] + b);
    var t := a[k..];
    var u := t + [sp] + b;
    assert all[k..] == u;
    WordLenMore(t, sp, b);
    var n := WordLen(t);
    assert u[..n] == t[..n] && u[n..] == t[n..] + [sp] + b;
  }

  lemma FirstWord(a: string) returns (w: string, rest: string)
    requires Skip(a) < |a|
    ensures w == a[Skip(a)..][..WordLen(a[Skip(a)..])] && rest == a[Skip(a)..][WordLen(a[Skip(a)..])..]
    ensures |rest| < |a| && Words(a) == [w] + Words(rest)
  {
    var t := a[Skip(a)..];
    w, rest := t[..WordLen(t)], t[WordLen(t)..];
  }

  lemma Regrouped(w: string, x: seq<string>, y: seq<string>)
    ensures ([w] + x) + y == [w] + (x + y)
  {
  }

  /** Text after white space adds its words. */
  lemma {:induction false} WordsJoin(a: string, sp: char, b: string)
    requires IsSpace(sp)
    ensures Words(a + [sp] + b) == Words(a) + Words(b)
    decreases |a|
  {
    var k := Skip(a);
    if k == |a| {
      BlankJoin(a, sp, b);
    } else {
      var w, rest := FirstWord(a);
      WordsJoin(rest, sp, b);
      WordFirst(a, sp, b);
      Regrouped(w, Words(rest), Words(b));
    }
  }

  lemma WordItself(w: string)
    requires w != [] && forall i :: 0 <= i < |w| ==> !IsSpace(w[i])
    ensures Words(w) == [w]
  {
    OneWord(w);
    assert w[0..] == w && w[..|w|] == w && Words(w[|w|..]) == [];
  }

  // ---------------------------------------------------------------- what one word stores

  lemma WordsDiffer(i: nat, j: nat)
    requires i < j < |WORDS|
    ensures WORDS[i] != WORDS[j]
  {
    assert |WORDS[0]| == 6 && |WORDS[1]| == 4 && |WORDS[2]| == 8 && |WORDS[3]| == 10;
    assert WORDS[4][0] == 'd' && WORDS[5][0] == 'd' && WORDS[4][3] == 's' && WORDS[5][3] == 'd';
    assert WORDS[6][0] == 'n' && WORDS[7][0] == 'n' && WORDS[8][0] == 'n';
    assert WORDS[6][3] == 's' && WORDS[7][3] == 'd' && WORDS[8][3] == 't';
    assert WORDS[9][0] == 't' && WORDS[10][0] == 't' && WORDS[9][3] == 's' && WORDS[10][3] == 'd';
    assert WORDS[0][0] == 'o';
  }

  lemma WordIndex(k: nat)
    requires k < |WORDS|
    ensures FindWord(WORDS[k], 0) == k
  {
    var m := FindWord(WORDS[k], 0);
    if m < k { WordsDiffer(m, k); }
  }

  /** A word alone that stands for an action. */
  ghost predicate Means(w: string, a: Action, f: Fields)
    requires f.Valid()
  {
    w != [] && (forall i :: 0 <= i < |w| ==> !IsSpace(w[i])) && ActionWith(w, f, Swapped(f.vlanPcp) % 256) == Some(a)
  }

  lemma WrittenAlone(w: string, a: Action, f: Fields)
    requires f.Valid() && Means(w, a, f)
    ensures Written(w, f) == [a]
  {
    var pcp := Swapped(f.vlanPcp) % 256;
    WordItself(w);
    var ws := [w];
    assert ws[1..] == [] && ActionsWith(ws[1..], f, pcp) == [];
    assert ActionsWith(ws, f, pcp) == [a] + [] == [a];
  }

  lemma TypeLength(a: Action)
    ensures Size(a) < 256 && Be16(Code(a)) + Be16(Size(a)) == [0, Code(a), 0, Size(a)]
  {
  }

  lemma PutOver(a: Action, was: seq<Byte>)
    requires |was| >= Size(a) && Size(a) < 256
    ensures Put(a, was[..Size(a)]) + was[Size(a)..] == [0, Code(a), 0, Size(a)] + Body(a) + was[4 + |Body(a)|..]
  {
    var n, k := Size(a), 4 + |Body(a)|;
    TypeLength(a);
    assert was[..n][k..] + was[n..] == was[k..];
  }

  /** It is stored over the front of what was there: type, length, fields; the rest stays. */
  lemma StoredAlone(a: Action, was: seq<Byte>)
    requires |was| >= 16
    ensures Size(a) < 256 && Total([a]) == Size(a)
    ensures PutAll([a], was) == [0, Code(a), 0, Size(a)] + Body(a) + was[4 + |Body(a)|..]
  {
    var acts := [a];
    assert acts[1..] == [] && Total(acts[1..]) == 0;
    assert PutAll(acts[1..], was[Size(a)..]) == was[Size(a)..];
    PutOver(a, was);
  }

  /** fill on the line stores these octets over the front of any buffer with room, and leaves the rest. */
  ghost predicate Stores(line: string, f: Fields, octets: seq<Byte>)
    requires f.Valid()
  {
    forall was: seq<Byte> :: |was| >= 16 ==>
      && Total(Written(line, f)) <= |was| && |octets| <= |was|
      && PutAll(Written(line, f), was) == octets + was[|octets|..]
  }

  lemma MeansStores(w: string, a: Action, f: Fields, body: seq<Byte>)
    requires f.Valid() && Means(w, a, f) && Body(a) == body
    ensures Size(a) < 256 && Stores(w, f, [0, Code(a), 0, Size(a)] + body)
  {
    TypeLength(a);
    WrittenAlone(w, a, f);
    forall was: seq<Byte> | |was| >= 16
      ensures Total([a]) <= |was| && PutAll([a], was) == [0, Code(a), 0, Size(a)] + body + was[4 + |body|..]
    {
      StoredAlone(a, was);
    }
  }

  lemma OutputOctets(f: Fields)
    requires f.Valid()
    ensures Stores("output", f, [0, 0, 0, 8] + (Be16(f.output) + Be16(f.outputMaxLen)))
  {
    WordIndex(0);
    MeansStores("output", Output(f.output, f.outputMaxLen), f, Be16(f.output) + Be16(f.outputMaxLen));
  }

  lemma VlanOctets(f: Fields)
    requires f.Valid()
    ensures Stores("vlan", f, [0, 1, 0, 8] + Be16(f.vlan))
  {
    WordIndex(1);
    MeansStores("vlan", VlanVid(f.vlan), f, Be16(f.vlan));
  }

  lemma VlanPcpOctets(f: Fields)
    requires f.Valid()
    ensures Stores("vlan_pcp", f, [0, 2, 0, 8] + [0])
  {
    WordIndex(2);
    SwappedByte(f.vlanPcp);
    MeansStores("vlan_pcp", VlanPcp(0), f, [0]);
  }

  lemma StripVlanOctets(f: Fields)
    requires f.Valid()
    ensures Stores("strip_vlan", f, [0, 3, 0, 8])
  {
    WordIndex(3);
    MeansStores("strip_vlan", StripVlan, f, []);
    assert [0, 3, 0, 8] + [] == [0, 3, 0, 8];
  }

  lemma DlSrcOctets(f: Fields)
    requires f.Valid()
    ensures Stores("dl_src", f, [0, 4, 0, 16] + Be48(f.dlSrc))
  {
    WordIndex(4);
    MeansStores("dl_src", DlSrc(f.dlSrc), f, Be48(f.dlSrc));
  }

  lemma DlDstOctets(f: Fields)
    requires f.Valid()
    ensures Stores("dl_dst", f, [0, 5, 0, 16] + Be48(f.dlDst))
  {
    WordIndex(5);
    MeansStores("dl_dst", DlDst(f.dlDst), f, Be48(f.dlDst));
  }

  lemma NwSrcOctets(f: Fields)
    requires f.Valid()
    ensures Stores("nw_src", f, [0, 6, 0, 8] + Be32(f.nwSrc))
  {
    WordIndex(6);
    MeansStores("nw_src", NwSrc(f.nwSrc), f, Be32(f.nwSrc));
  }

  lemma NwDstOctets(f: Fields)
    requires f.Valid()
    ensures Stores("nw_dst", f, [0, 7, 0, 8] + Be32(f.nwDst))
  {
    WordIndex(7);
    MeansStores("nw_dst", NwDst(f.nwDst), f, Be32(f.nwDst));
  }

  lemma NwTosOctets(f: Fields)
    requires f.Valid()
    ensures Stores("nw_tos", f, [0, 8, 0, 8] + [f.nwTos])
  {
    WordIndex(8);
    assert [f.nwTos % 256] == [f.nwTos];
    MeansStores("nw_tos", NwTos(f.nwTos), f, [f.nwTos]);
  }

  lemma TpSrcOctets(f: Fields)
    requires f.Valid()
    ensures Stores("tp_src", f, [0, 9, 0, 8] + Be16(f.tpSrc))
  {
    WordIndex(9);
    MeansStores("tp_src", TpSrc(f.tpSrc), f, Be16(f.tpSrc));
  }

  lemma TpDstOctets(f: Fields)
    requires f.Valid()
    ensures Stores("tp_dst", f, [0, 10, 0, 8] + Be16(f.tpDst))
  {
    WordIndex(10);
    MeansStores("tp_dst", TpDst(f.tpDst), f, Be16(f.tpDst));
  }

  /** The type, the length and the fields each word stores; the priority of vlan_pcp is stored as 0. */
  lemma WordOctets(f: Fields)
    requires f.Valid()
    ensures Stores("output", f, [0, 0, 0, 8] + (Be16(f.output) + Be16(f.outputMaxLen)))
    ensures Stores("vlan", f, [0, 1, 0, 8] + Be16(f.vlan))
    ensures Stores("vlan_pcp", f, [0, 2, 0, 8] + [0])
    ensures Stores("strip_vlan", f, [0, 3, 0, 8])
    ensures Stores("dl_src", f, [0, 4, 0, 16] + Be48(f.dlSrc))
    ensures Stores("dl_dst", f, [0, 5, 0, 16] + Be48(f.dlDst))
    ensures Stores("nw_src", f, [0, 6, 0, 8] + Be32(f.nwSrc))
    ensures Stores("nw_dst", f, [0, 7, 0, 8] + Be32(f.nwDst))
    ensures Stores("nw_tos", f, [0, 8, 0, 8] + [f.nwTos])
    ensures Stores("tp_src", f, [0, 9, 0, 8] + Be16(f.tpSrc))
    ensures Stores("tp_dst", f, [0, 10, 0, 8] + Be16(f.tpDst))
  {
    OutputOctets(f);
    VlanOctets(f);
    VlanPcpOctets(f);
    StripVlanOctets(f);
    DlSrcOctets(f);
    DlDstOctets(f);
    NwSrcOctets(f);
    NwDstOctets(f);
    NwTosOctets(f);
    TpSrcOctets(f);
    TpDstOctets(f);
  }

  lemma UnknownWord(w: string, f: Fields, pcp: nat)
    requires w !in WORDS
    ensures ActionWith(w, f, pcp) == None
  {
    var k := FindWord(w, 0);
    assert |WORDS| == 11;
  }

  lemma UnknownAlone(w: string, f: Fields, pcp: nat)
    requires ActionWith(w, f, pcp) == None
    ensures ActionsWith([w], f, pcp) == []
  {
    var ws := [w];
    assert ws[1..] == [] && ActionsWith(ws[1..], f, pcp) == [];
  }

  /** Any other word stores nothing. */
  lemma OtherWord(w: string, f: Fields)
    requires f.Valid() && w != [] && (forall i :: 0 <= i < |w| ==> !IsSpace(w[i])) && w !in WORDS
    ensures Written(w, f) == []
  {
    WordItself(w);
    UnknownWord(w, f, Swapped(f.vlanPcp) % 256);
    UnknownAlone(w, f, Swapped(f.vlanPcp) % 256);
  }

  // ---------------------------------------------------------------- whole lines

  lemma {:induction false} ActionsJoin(a: seq<string>, b: seq<string>, f: Fields, pcp: nat)
    ensures ActionsWith(a + b, f, pcp) == ActionsWith(a, f, pcp) + ActionsWith(b, f, pcp)
  {
    if a == [] {
      assert a + b == b;
    } else {
      assert (a + b)[0] == a[0] && (a + b)[1..] == a[1..] + b;
      ActionsJoin(a[1..], b, f, pcp);
    }
  }

  /** A line of more words stores what its parts store, in order. */
  lemma LineJoin(a: string, sp: char, b: string, f: Fields)
    requires f.Valid() && IsSpace(sp)
    ensures Written(a + [sp] + b, f) == Written(a, f) + Written(b, f)
  {
    WordsJoin(a, sp, b);
    ActionsJoin(Words(a), Words(b), f, Swapped(f.vlanPcp) % 256);
  }

  lemma SliceTwice(was: seq<Byte>, n: nat, k: nat)
    requires n <= k <= |was|
    ensures was[..k][..n] == was[..n] && was[..k][n..] == was[n..][..k - n] && was[n..][k - n..] == was[k..]
  {
  }

  lemma TailJoined(a: seq<Action>, b: seq<Action>)
    requires a != []
    ensures (a + b)[0] == a[0] && (a + b)[1..] == a[1..] + b && Total(a) == Size(a[0]) + Total(a[1..])
    ensures Total(a + b) == Size(a[0]) + Total(a[1..] + b)
  {
    assert (a + b)[1..] == a[1..] + b;
  }

  lemma {:induction false} TotalJoin(a: seq<Action>, b: seq<Action>)
    ensures Total(a + b) == Total(a) + Total(b)
  {
    if a == [] {
      assert a + b == b;
    } else {
      TailJoined(a, b);
      TotalJoin(a[1..], b);
    }
  }

  lemma PutFirst(a: seq<Action>, was: seq<Byte>)
    requires a != [] && Total(a) <= |was|
    ensures Size(a[0]) + Total(a[1..]) == Total(a)
    ensures PutAll(a, was) == Put(a[0], was[..Size(a[0])]) + PutAll(a[1..], was[Size(a[0])..])
  {
  }

  lemma {:induction false} PutAllJoin(a: seq<Action>, b: seq<Action>, was: seq<Byte>)
    requires Total(a) + Total(b) <= |was|
    ensures Total(a + b) == Total(a) + Total(b)
    ensures PutAll(a + b, was) == PutAll(a, was[..Total(a)]) + PutAll(b, was[Total(a)..])
    decreases |a|
  {
    TotalJoin(a, b);
    if a == [] {
      assert a + b == b && was[..0] == [] && was[0..] == was;
    } else {
      var n, k := Size(a[0]), Total(a);
      TailJoined(a, b);
      PutFirst(a + b, was);
      PutAllJoin(a[1..], b, was[n..]);
      SliceTwice(was, n, k);
      PutFirst(a, was[..k]);
      var x, y, z := Put(a[0], was[..n]), PutAll(a[1..], was[n..][..k - n]), PutAll(b, was[k..]);
      assert PutAll(a, was[..k]) == x + y && PutAll((a + b)[1..], was[n..]) == y + z;
      assert PutAll(a + b, was) == x + (y + z);
      Regroup(x, y, z);
    }
  }
}
