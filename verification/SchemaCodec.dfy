/** The packed form of a schema (fs/libschema.c): a preorder sequence of records. */
module SchemaCodec {
  import opened Wrappers
  import opened Schemas
  import opened Bytes

  /** sizeof(PackedSchema): type, number of children, number of next siblings. */
  const HEADER: nat := 12
  /** schema_len counts in a uint32_t. */
  const WORD: nat := 0x1_0000_0000

  function KindOf(c: nat): Option<Kind> {
    var kinds := [U8, U16, U32, U64, I8, I16, I32, I64, Str, Raw, Link, Mac, Ip32, Object, Subdir, Compound];
    if c < |kinds| then Some(kinds[c]) else None
  }

  /** enum schema_type */
  function Code(k: Kind): (c: nat)
    ensures c < 16 && KindOf(c) == Some(k)
  {
    match k
    case U8 => 0 case U16 => 1 case U32 => 2 case U64 => 3
    case I8 => 4 case I16 => 5 case I32 => 6 case I64 => 7
    case Str => 8 case Raw => 9 case Link => 10 case Mac => 11 case Ip32 => 12
    case Object => 13 case Subdir => 14 case Compound => 15
  }

  // ---------------------------------------------------------------- packing

  /** schema_len, with its uint32_t counter. */
  function Count(f: Forest): (n: nat)
    ensures n < WORD && (Len(f) < WORD ==> n == Len(f))
  {
    Len(f) % WORD
  }

  function Fields(kind: Kind, children: nat, next: nat, name: string): (r: seq<Byte>)
    ensures |r| == HEADER + |name| + 1
  {
    Le32(Code(kind)) + Le32(children) + Le32(next) + OfString(name) + [0]
  }

  /** The record of one node. */
  function Record(f: Template): (r: seq<Byte>)
    ensures |r| == HEADER + |f.name| + 1
  {
    Fields(f.kind, Count(f.children), Count(f.next), f.name)
  }

  function Pack(f: Forest): seq<Byte> {
    if f.Nil? then []
    else Record(f) + (if IsDir(f.kind) then Pack(f.children) else []) + Pack(f.next)
  }

  /** Types are numbered as in fs/schema.h. */
  lemma KindCodes()
    ensures [Code(U8), Code(U16), Code(U32), Code(U64), Code(I8), Code(I16), Code(I32), Code(I64), Code(Str), Code(Raw),
             Code(Link), Code(Mac), Code(Ip32), Code(Object), Code(Subdir), Code(Compound)]
         == [0, 1, 2, 3, 4, 5, 6, 7, 8, 9, 10, 11, 12, 13, 14, 15]
  {
  }

  /** A record: type, number of children, number of later siblings, each in four octets, and the name with a NUL. */
  lemma RecordOctets(f: Template)
    requires Len(f.children) < 0x1_0000_0000 && Len(f.next) < 0x1_0000_0000
    ensures var r := Record(f);
      && |r| == 13 + |f.name| && r[..12] == Le32(Code(f.kind)) + Le32(Len(f.children)) + Le32(Len(f.next))
      && r[12..12 + |f.name|] == OfString(f.name) && r[12 + |f.name|] == 0
  {
  }

  /** For one: a SUBDIR called d with one file called a in it. */
  lemma PackedOctets()
    ensures Pack(Node("d", Subdir, Node("a", U16, Nil, Nil), Nil))
         == [14, 0, 0, 0, 1, 0, 0, 0, 0, 0, 0, 0, 100, 0] + [1, 0, 0, 0, 0, 0, 0, 0, 0, 0, 0, 0, 97, 0]
  {
    var a := Node("a", U16, Nil, Nil);
    assert Len(a) == 1 && Len(Nil) == 0 && OfString("a") == [97] && OfString("d") == [100];
    assert Le32(14) == [14, 0, 0, 0] && Le32(1) == [1, 0, 0, 0] && Le32(0) == [0, 0, 0, 0];
    assert Record(a) == [1, 0, 0, 0, 0, 0, 0, 0, 0, 0, 0, 0, 97, 0];
    assert Pack(a) == Record(a) + [] + [];
  }

  // ---------------------------------------------------------------- unpacking

  /** strlen: bytes before the first NUL. */
  function StrLen(b: seq<Byte>): (k: nat)
    ensures k <= |b| && 0 !in b[..k] && (k < |b| ==> b[k] == 0)
  {
    if b == [] || b[0] == 0 then 0 else 1 + StrLen(b[1..])
  }

  lemma {:induction false} StrLenAt(b: seq<Byte>, k: nat)
    requires k < |b| && 0 !in b[..k] && b[k] == 0
    ensures StrLen(b) == k
  {
    if k > 0 {
      assert b[0] == b[..k][0];
      assert b[1..][..k - 1] == b[..k][1..];
      StrLenAt(b[1..], k - 1);
    }
  }

  datatype Head = Head(kind: Kind, children: nat, next: nat, name: string, size: nat)

  /** The record at the front of b; None where the code would read past the buffer or into an unknown type. */
  function ReadHead(b: seq<Byte>): (r: Option<Head>)
    ensures r.Some? ==> HEADER < r.value.size <= |b|
  {
    if |b| <= HEADER then None
    else
      var k := StrLen(b[HEADER..]);
      match KindOf(FromLe32(b[..4]))
      case None => None
      case Some(kind) =>
        if HEADER + k >= |b| then None
        else Some(Head(kind, FromLe32(b[4..8]), FromLe32(b[8..12]), ToString(b[HEADER..HEADER + k]), HEADER + k + 1))
  }

  /** One node with its descendants and next siblings, and the bytes behind them. */
  function Unpack(b: seq<Byte>): (r: Option<(Forest, seq<Byte>)>)
    ensures r.Some? ==> r.value.0.Node? && |r.value.1| < |b|
    decreases |b|, 1
  {
    match ReadHead(b)
    case None => None
    case Some(h) =>
      match UnpackSome(if IsDir(h.kind) then h.children else 0, b[h.size..])
      case None => None
      case Some((children, after)) =>
        if !IsDir(h.kind) && h.children != 0 then None
        else match UnpackSome(h.next, after)
          case None => None
          case Some((next, rest)) => Some((Node(h.name, h.kind, children, next), rest))
  }

  /** Nothing for a count of zero, else a chain. */
  function UnpackSome(count: nat, b: seq<Byte>): (r: Option<(Forest, seq<Byte>)>)
    ensures r.Some? ==> |r.value.1| <= |b|
    decreases |b|, 2
  {
    if count == 0 then Some((Nil, b)) else Unpack(b)
  }

  // ---------------------------------------------------------------- round trip

  /** Names are C strings and chains can be counted in 32 bits. */
  ghost predicate Storable(f: Forest) {
    f.Node? ==>
      && Narrow(f.name) && '\0' !in f.name && Len(f) <= 0x1_0000_0000 && Len(f.children) < 0x1_0000_0000
      && Storable(f.children) && Storable(f.next)
  }

  lemma RecordSlices(a: seq<Byte>, b: seq<Byte>, c: seq<Byte>, name: seq<Byte>, rest: seq<Byte>)
    requires |a| == 4 && |b| == 4 && |c| == 4
    ensures var w := a + b + c + name + [0] + rest; var k := HEADER + |name|;
      w[..4] == a && w[4..8] == b && w[8..12] == c && k < |w| && w[HEADER..k] == name && w[k] == 0
  {
  }

  /** The fields at the front of w are those of h. */
  lemma ReadFields(w: seq<Byte>, h: Head, code: nat, k: nat)
    requires HEADER + k < |w| && h.size == HEADER + k + 1
    requires FromLe32(w[..4]) == code && KindOf(code) == Some(h.kind)
    requires FromLe32(w[4..8]) == h.children && FromLe32(w[8..12]) == h.next
    requires 0 !in w[HEADER..HEADER + k] && w[HEADER + k] == 0 && ToString(w[HEADER..HEADER + k]) == h.name
    ensures ReadHead(w) == Some(h)
  {
    assert w[HEADER..][..k] == w[HEADER..HEADER + k] && w[HEADER..][k] == w[HEADER + k];
    StrLenAt(w[HEADER..], k);
  }

  lemma ReadParts(a: seq<Byte>, b: seq<Byte>, c: seq<Byte>, name: seq<Byte>, rest: seq<Byte>, h: Head)
    requires |a| == 4 && |b| == 4 && |c| == 4 && h.size == HEADER + |name| + 1
    requires KindOf(FromLe32(a)) == Some(h.kind) && FromLe32(b) == h.children && FromLe32(c) == h.next
    requires 0 !in name && ToString(name) == h.name
    ensures ReadHead(a + b + c + name + [0] + rest) == Some(h)
  {
    RecordSlices(a, b, c, name, rest);
    ReadFields(a + b + c + name + [0] + rest, h, FromLe32(a), |name|);
  }

  lemma Le32Of(n: nat) returns (b: seq<Byte>)
    requires n < 0x1_0000_0000
    ensures |b| == 4 && b == Le32(n) && FromLe32(b) == n
  {
    Le32Trip(n);
    b := Le32(n);
  }

  lemma NameHasNoNul(s: string)
    requires Narrow(s) && '\0' !in s
    ensures 0 !in OfString(s)
  {
    forall i | 0 <= i < |s|
      ensures OfString(s)[i] != 0
    {
      assert s[i] in s;
      assert s[i] as int != 0;
    }
  }

  lemma ReadFieldsBack(kind: Kind, children: nat, next: nat, name: string, rest: seq<Byte>)
    requires children < WORD && next < WORD && Narrow(name) && '\0' !in name
    ensures ReadHead(Fields(kind, children, next, name) + rest)
         == Some(Head(kind, children, next, name, HEADER + |name| + 1))
  {
    NameHasNoNul(name);
    StringTrip(name);
    var a := Le32Of(Code(kind));
    var b := Le32Of(children);
    var c := Le32Of(next);
    ReadParts(a, b, c, OfString(name), rest, Head(kind, children, next, name, HEADER + |name| + 1));
  }

  lemma ReadRecord(f: Template, rest: seq<Byte>)
    requires Storable(f)
    ensures ReadHead(Record(f) + rest) == Some(Head(f.kind, Len(f.children), Len(f.next), f.name, |Record(f)|))
  {
    ReadFieldsBack(f.kind, Count(f.children), Count(f.next), f.name, rest);
  }

  lemma RegroupParts(a: seq<Byte>, b: seq<Byte>, c: seq<Byte>, d: seq<Byte>)
    ensures (a + b + c) + d == a + (b + (c + d)) && (a + (b + (c + d)))[|a|..] == b + (c + d)
    ensures [] + d == d && [] + (c + d) == c + d
  {
  }

  /** A node is rebuilt when its record, its children and its siblings are. */
  lemma UnpackParts(f: Template, b: seq<Byte>, tail: seq<Byte>, after: seq<Byte>, rest: seq<Byte>)
    requires ReadHead(b) == Some(Head(f.kind, Len(f.children), Len(f.next), f.name, |Record(f)|))
    requires b[|Record(f)|..] == tail
    requires IsDir(f.kind) || f.children.Nil?
    requires if f.children.Nil? then tail == after else Unpack(tail) == Some((f.children, after))
    requires if f.next.Nil? then after == rest else Unpack(after) == Some((f.next, rest))
    ensures Unpack(b) == Some((f, rest))
  {
  }

  /**
   * Unpacking the packed bytes, followed by anything, rebuilds names, types, order and nesting and
   * stops exactly at what follows.
   */
  lemma {:induction false} RoundTrip(f: Forest, rest: seq<Byte>)
    requires f.Node? && Storable(f) && LeavesBare(f)
    ensures Unpack(Pack(f) + rest) == Some((f, rest))
    decreases f
  {
    var below, after := if IsDir(f.kind) then Pack(f.children) else [], Pack(f.next);
    RegroupParts(Record(f), below, after, rest);
    ReadRecord(f, below + (after + rest));
    if IsDir(f.kind) && f.children.Node? {
      RoundTrip(f.children, after + rest);
    }
    if f.next.Node? {
      RoundTrip(f.next, rest);
    }
    UnpackParts(f, Pack(f) + rest, below + (after + rest), after + rest, rest);
  }

  /** Whatever is unpacked has children under directories only. */
  lemma {:induction false} UnpackBare(b: seq<Byte>)
    requires Unpack(b).Some?
    ensures LeavesBare(Unpack(b).value.0)
    decreases |b|
  {
    var h := ReadHead(b).value;
    var below := UnpackSome(if IsDir(h.kind) then h.children else 0, b[h.size..]).value;
    if IsDir(h.kind) && h.children != 0 { UnpackBare(b[h.size..]); }
    if h.next != 0 { UnpackBare(below.1); }
  }

  /** A storable forest survives the trip exactly when no leaf has children. */
  lemma RoundTripIff(f: Forest, rest: seq<Byte>)
    requires f.Node? && Storable(f)
    ensures Unpack(Pack(f) + rest) == Some((f, rest)) <==> LeavesBare(f)
  {
    if LeavesBare(f) {
      RoundTrip(f, rest);
    } else if Unpack(Pack(f) + rest) == Some((f, rest)) {
      UnpackBare(Pack(f) + rest);
    }
  }

  /** No two schemas have packed forms of which one starts the other. */
  lemma PackPrefixFree(f: Forest, g: Forest, r: seq<Byte>, t: seq<Byte>)
    requires f.Node? && Storable(f) && LeavesBare(f) && g.Node? && Storable(g) && LeavesBare(g)
    requires Pack(f) + r == Pack(g) + t
    ensures f == g && r == t
  {
    RoundTrip(f, r);
    RoundTrip(g, t);
  }
}
