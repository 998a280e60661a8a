/** OpenFlow 1.0 action lists (OpenFlow 1.0.0, section 5.2.4): their bytes, and reading them back. */
module ActionList {
  import opened Wrappers
  import opened Bytes

  // ---------------------------------------------------------------- actions

  datatype Action =
    | Output(port: nat, maxLen: nat)
    | VlanVid(vid: nat)
    | VlanPcp(pcp: nat)
    | StripVlan
    | DlSrc(dl: nat)
    | DlDst(dl: nat)
    | NwSrc(nw: nat)
    | NwDst(nw: nat)
    | NwTos(tos: nat)
    | TpSrc(tp: nat)
    | TpDst(tp: nat)

  /** The fields fit their widths. */
  predicate Sized(a: Action) {
    match a
    case Output(port, maxLen) => U16(port) && U16(maxLen)
    case VlanVid(v) => U16(v)
    case VlanPcp(v) => U8(v)
    case StripVlan => true
    case DlSrc(v) => U48(v)
    case DlDst(v) => U48(v)
    case NwSrc(v) => U32(v)
    case NwDst(v) => U32(v)
    case NwTos(v) => U8(v)
    case TpSrc(v) => U16(v)
    case TpDst(v) => U16(v)
  }

  /** enum ofp_action_type */
  function Code(a: Action): (c: nat)
    ensures c < 11
  {
    match a
    case Output(_, _) => 0
    case VlanVid(_) => 1
    case VlanPcp(_) => 2
    case StripVlan => 3
    case DlSrc(_) => 4
    case DlDst(_) => 5
    case NwSrc(_) => 6
    case NwDst(_) => 7
    case NwTos(_) => 8
    case TpSrc(_) => 9
    case TpDst(_) => 10
  }

  /** The fields behind type and length; the padding after them is not written. */
  function Body(a: Action): (b: seq<Byte>)
    ensures |b| <= 6
  {
    match a
    case Output(port, maxLen) => Be16(port) + Be16(maxLen)
    case VlanVid(v) => Be16(v)
    case VlanPcp(v) => [v % 256]
    case StripVlan => []
    case DlSrc(v) => Be48(v)
    case DlDst(v) => Be48(v)
    case NwSrc(v) => Be32(v)
    case NwDst(v) => Be32(v)
    case NwTos(v) => [v % 256]
    case TpSrc(v) => Be16(v)
    case TpDst(v) => Be16(v)
  }

  /** sizeof of the action's struct */
  function Size(a: Action): (n: nat)
    ensures n % 8 == 0 && n >= 8 && 4 + |Body(a)| <= n
  {
    if a.DlSrc? || a.DlDst? then 16 else 8
  }

  /** The bytes a struct gets when its fields are stored over was. */
  function Put(a: Action, was: seq<Byte>): (r: seq<Byte>)
    requires |was| == Size(a)
    ensures |r| == Size(a)
  {
    Be16(Code(a)) + Be16(Size(a)) + Body(a) + was[4 + |Body(a)|..]
  }

  function Total(acts: seq<Action>): (n: nat)
    ensures n % 8 == 0
  {
    if acts == [] then 0 else Size(acts[0]) + Total(acts[1..])
  }

  /** The whole list stored over the start of was. */
  function PutAll(acts: seq<Action>, was: seq<Byte>): (r: seq<Byte>)
    requires Total(acts) <= |was|
    ensures |r| == |was|
  {
    if acts == [] then was
    else
      var n := Size(acts[0]);
      Put(acts[0], was[..n]) + PutAll(acts[1..], was[n..])
  }

  // ---------------------------------------------------------------- reading

  function ReadAction(code: nat, b: seq<Byte>): Option<Action>
    requires |b| >= 8
  {
    match code
    case 0 => Some(Output(FromBe(b[4..6]), FromBe(b[6..8])))
    case 1 => Some(VlanVid(FromBe(b[4..6])))
    case 2 => Some(VlanPcp(b[4] as nat))
    case 3 => Some(StripVlan)
    case 4 => if |b| < 10 then None else Some(DlSrc(FromBe(b[4..10])))
    case 5 => if |b| < 10 then None else Some(DlDst(FromBe(b[4..10])))
    case 6 => Some(NwSrc(FromBe(b[4..8])))
    case 7 => Some(NwDst(FromBe(b[4..8])))
    case 8 => Some(NwTos(b[4] as nat))
    case 9 => Some(TpSrc(FromBe(b[4..6])))
    case 10 => Some(TpDst(FromBe(b[4..6])))
    case _ => None
  }

  /** Walk a list by the length in each header, as a switch does. */
  function Walk(b: seq<Byte>): Option<seq<Action>>
    decreases |b|
  {
    if b == [] then Some([])
    else if |b| < 8 then None
    else
      var len := FromBe(b[2..4]);
      if len < 8 || len > |b| then None
      else match ReadAction(FromBe(b[..2]), b[..len])
        case None => None
        case Some(a) => match Walk(b[len..])
          case None => None
          case Some(rest) => Some([a] + rest)
  }

  lemma BodyAt(a: Action, was: seq<Byte>)
    requires |was| == Size(a)
    ensures var b := Put(a, was);
      b[..2] == Be16(Code(a)) && b[2..4] == Be16(Size(a)) && b[4..4 + |Body(a)|] == Body(a)
  {
  }

  lemma ReadBody(a: Action, b: seq<Byte>)
    requires Sized(a) && |b| == Size(a) && b[4..4 + |Body(a)|] == Body(a)
    ensures ReadAction(Code(a), b) == Some(a)
  {
    var body := b[4..4 + |Body(a)|];
    match a
    case Output(port, maxLen) =>
      assert b[4..6] == body[..2] && b[6..8] == body[2..4];
      Be16Trip(port);
      Be16Trip(maxLen);
    case VlanVid(v) => Be16Trip(v);
    case VlanPcp(v) => assert b[4] == body[0];
    case StripVlan =>
    case DlSrc(v) => Be48Trip(v);
    case DlDst(v) => Be48Trip(v);
    case NwSrc(v) => Be32Trip(v);
    case NwDst(v) => Be32Trip(v);
    case NwTos(v) => assert b[4] == body[0];
    case TpSrc(v) => Be16Trip(v);
    case TpDst(v) => Be16Trip(v);
  }

  lemma ReadPut(a: Action, was: seq<Byte>)
    requires Sized(a) && |was| == Size(a)
    ensures var b := Put(a, was);
      && FromBe(b[..2]) == Code(a) && FromBe(b[2..4]) == Size(a)
      && ReadAction(Code(a), b) == Some(a)
  {
    var b := Put(a, was);
    BodyAt(a, was);
    Be16Trip(Code(a));
    Be16Trip(Size(a));
    ReadBody(a, b);
  }

  lemma WalkOne(a: Action, first: seq<Byte>, rest: seq<Byte>, acts: seq<Action>)
    requires |first| >= 8 && FromBe(first[..2]) == Code(a) && FromBe(first[2..4]) == |first|
    requires ReadAction(Code(a), first) == Some(a) && Walk(rest) == Some(acts)
    ensures Walk(first + rest) == Some([a] + acts)
  {
    var b := first + rest;
    assert b[..2] == first[..2] && b[2..4] == first[2..4] && b[..|first|] == first && b[|first|..] == rest;
  }

  /** Walking what was stored, over whatever bytes, gives the actions back, in order, with their fields. */
  lemma {:induction false} WalkPutAll(acts: seq<Action>, was: seq<Byte>)
    requires forall i :: 0 <= i < |acts| ==> Sized(acts[i])
    requires Total(acts) == |was|
    ensures Walk(PutAll(acts, was)) == Some(acts)
    decreases |acts|
  {
    if acts != [] {
      var n := Size(acts[0]);
      var rest := PutAll(acts[1..], was[n..]);
      WalkPutAll(acts[1..], was[n..]);
      ReadPut(acts[0], was[..n]);
      WalkOne(acts[0], Put(acts[0], was[..n]), rest, acts[1..]);
      assert [acts[0]] + acts[1..] == acts;
    }
  }
}
