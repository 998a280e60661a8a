/** libschema.c on its own structures: Schema objects linked by pointers, and a growing buffer. */
module LibSchema {
  import opened Wrappers
  import opened Schemas
  import opened Bytes
  import opened SchemaCodec

  /** struct Schema */
  class Schema {
    var name: string
    var kind: Kind
    var parent: Schema?
    var children: Schema?
    var next: Schema?

    constructor (name: string, kind: Kind, parent: Schema?)
      ensures this.name == name && this.kind == kind && this.parent == parent && children == null && next == null
    {
      this.name := name;
      this.kind := kind;
      this.parent := parent;
      this.children := null;
      this.next := null;
    }
  }

  /** The objects of a schema, arranged like the forest. */
  datatype Nodes = NoNode | At(node: Schema, children: Nodes, next: Nodes)

  ghost function All(ns: Nodes): set<Schema> {
    match ns
    case NoNode => {}
    case At(o, c, n) => {o} + All(c) + All(n)
  }

  /** The objects from head on spell the forest f. */
  ghost predicate Spells(f: Forest, ns: Nodes, head: Schema?)
    reads All(ns)
    decreases ns
  {
    match ns
    case NoNode => f.Nil? && head == null
    case At(o, c, n) =>
      && f.Node? && head == o && o.name == f.name && o.kind == f.kind
      && Spells(f.children, c, o.children) && Spells(f.next, n, o.next)
  }

  /** They spell f, and each one's parent pointer leads to the object it is a child of. */
  ghost predicate Built(f: Forest, ns: Nodes, head: Schema?, parent: Schema?)
    reads All(ns)
    decreases ns
  {
    match ns
    case NoNode => f.Nil? && head == null
    case At(o, c, n) =>
      && f.Node? && head == o && o.parent == parent && o.name == f.name && o.kind == f.kind
      && Built(f.children, c, o.children, o) && Built(f.next, n, o.next, parent)
  }

  lemma {:induction false} BuiltSpells(f: Forest, ns: Nodes, head: Schema?, parent: Schema?)
    requires Built(f, ns, head, parent)
    ensures Spells(f, ns, head)
    decreases ns
  {
    match ns
    case NoNode =>
    case At(o, c, n) =>
      BuiltSpells(f.children, c, o.children, o);
      BuiltSpells(f.next, n, o.next, parent);
  }

  /** No object is used twice. */
  ghost predicate Separate(ns: Nodes) {
    match ns
    case NoNode => true
    case At(o, c, n) => o !in All(c) && o !in All(n) && All(c) !! All(n) && Separate(c) && Separate(n)
  }

  /** schema_len: a uint32_t counter. */
  method SchemaLen(schema: Schema?, ghost f: Forest, ghost ns: Nodes) returns (len: nat)
    requires Spells(f, ns, schema)
    ensures len == Count(f)
  {
    len := 0;
    var cur := schema;
    ghost var g, gs, k := f, ns, 0;
    while cur != null
      invariant Spells(g, gs, cur) && k + Len(g) == Len(f) && len == k % WORD
      decreases gs
    {
      len := (len + 1) % WORD;
      cur := cur.next;
      g, gs, k := g.next, gs.next, k + 1;
    }
  }

  // ---------------------------------------------------------------- pack

  const BUFSIZ: nat := 8192

  /** The buffer of schema_pack: data up to cur is written. Growing it moves it. */
  class Buffer {
    var data: array<Byte>
    var cur: nat

    ghost predicate Valid()
      reads this
    {
      cur <= data.Length
    }

    ghost function Contents(): seq<Byte>
      reads this, data
      requires Valid()
    {
      data[..cur]
    }

    constructor ()
      ensures Valid() && fresh(data) && Contents() == [] && data.Length == BUFSIZ
    {
      data := new Byte[BUFSIZ];
      cur := 0;
    }

    /** The realloc of _pack. */
    method Reserve(n: nat)
      requires Valid()
      modifies this
      ensures Valid() && Contents() == old(Contents()) && n <= data.Length - cur
      ensures data == old(data) || (fresh(data) && cur + n > old(data.Length))
    {
      if data.Length - cur < n {
        var more := new Byte[data.Length + n + BUFSIZ];
        forall i | 0 <= i < data.Length { more[i] := data[i]; }
        assert more[..cur] == data[..cur];
        data := more;
      }
    }

    method Put(bytes: seq<Byte>)
      requires Valid() && |bytes| <= data.Length - cur
      modifies this`cur, data
      ensures Valid() && Contents() == old(Contents()) + bytes
    {
      forall i | 0 <= i < |bytes| { data[cur + i] := bytes[i]; }
      cur := cur + |bytes|;
      assert data[..cur] == old(data[..cur]) + bytes;
    }
  }

  lemma PackStep(whole: seq<Byte>, before: seq<Byte>, record: seq<Byte>, below: seq<Byte>,
                 after: seq<Byte>, now: seq<Byte>)
    requires before + (record + below + after) == whole && now == before + record + below
    ensures now + after == whole
  {
  }

  /** _pack, on a buffer that keeps its place when it grows. It moves exactly when the packed form does not fit. */
  method PackInto(schema: Schema?, buf: Buffer, ghost f: Forest, ghost ns: Nodes, ghost all: set<Schema>)
    requires Spells(f, ns, schema) && All(ns) <= all && buf.Valid()
    modifies buf, buf.data
    ensures buf.Valid() && buf.Contents() == old(buf.Contents()) + Pack(f)
    ensures buf.data == old(buf.data) || (fresh(buf.data) && buf.cur > old(buf.data.Length))
    decreases f, 1
  {
    var cur := schema;
    ghost var g, gs, start := f, ns, buf.Contents();
    while cur != null
      invariant buf.Valid() && (buf.data == old(buf.data) || (fresh(buf.data) && buf.cur > old(buf.data.Length)))
      invariant Spells(g, gs, cur) && All(gs) <= all && (g == f || g < f)
      invariant buf.Contents() + Pack(g) == start + Pack(f)
      decreases g
    {
      ghost var before := buf.Contents();
      PackNode(cur, buf, g, gs, all);
      PackStep(start + Pack(f), before, Record(g),
               if IsDir(g.kind) then Pack(g.children) else [], Pack(g.next), buf.Contents());
      cur := cur.next;
      g, gs := g.next, gs.next;
    }
  }

  /** One turn of its loop: the record of a node, then its children. */
  method PackNode(schema: Schema, buf: Buffer, ghost f: Template, ghost ns: Nodes, ghost all: set<Schema>)
    requires Spells(f, ns, schema) && All(ns) <= all && buf.Valid()
    modifies buf, buf.data
    ensures buf.Valid()
    ensures buf.Contents() == old(buf.Contents()) + Record(f) + (if IsDir(f.kind) then Pack(f.children) else [])
    ensures buf.data == old(buf.data) || (fresh(buf.data) && buf.cur > old(buf.data.Length))
    decreases f, 0
  {
    var children := SchemaLen(schema.children, f.children, ns.children);
    var next := SchemaLen(schema.next, f.next, ns.next);
    buf.Reserve(HEADER + |schema.name| + 1);
    buf.Put(Fields(schema.kind, children, next, schema.name));
    if schema.kind == Object || schema.kind == Subdir {
      PackInto(schema.children, buf, f.children, ns.children, all);
    }
  }

  /** schema_pack; end is *r_end, the end of the buffer and not of what was written. */
  method SchemaPack(schema: Schema?, ghost f: Forest, ghost ns: Nodes, ghost all: set<Schema>)
      returns (buf: Buffer, end: nat)
    requires Spells(f, ns, schema) && All(ns) <= all
    ensures buf.Valid() && buf.Contents() == Pack(f) && end == buf.data.Length >= |Pack(f)|
    ensures end == BUFSIZ <==> |Pack(f)| <= BUFSIZ
  {
    buf := new Buffer();
    PackInto(schema, buf, f, ns, all);
    end := buf.data.Length;
  }

  // ---------------------------------------------------------------- unpack

  /** The record, the children and the siblings of the node at the front of b. */
  lemma UnpackPieces(b: seq<Byte>) returns (h: Head, below: (Forest, seq<Byte>), next: (Forest, seq<Byte>))
    requires Unpack(b).Some?
    ensures ReadHead(b) == Some(h) && (IsDir(h.kind) || h.children == 0)
    ensures UnpackSome(h.children, b[h.size..]) == Some(below) && UnpackSome(h.next, below.1) == Some(next)
    ensures Unpack(b) == Some((Node(h.name, h.kind, below.0, next.0), next.1))
  {
    h := ReadHead(b).value;
    below := UnpackSome(h.children, b[h.size..]).value;
    next := UnpackSome(h.next, below.1).value;
  }

  /** Give a node its children and its siblings. */
  method Attach(o: Schema, children: Schema?, next: Schema?, ghost fc: Forest, ghost c: Nodes, ghost call: set<Schema>,
                ghost fn: Forest, ghost n: Nodes, ghost nall: set<Schema>)
    requires Built(fc, c, children, o) && Built(fn, n, next, o.parent)
    requires All(c) == call && All(n) == nall && o !in call && o !in nall
    requires Separate(c) && Separate(n) && call !! nall
    modifies o`children, o`next
    ensures Separate(At(o, c, n)) && All(At(o, c, n)) == {o} + call + nall
    ensures Built(Node(o.name, o.kind, fc, fn), At(o, c, n), o, o.parent)
  {
    o.children := children;
    o.next := next;
  }

  /** _unpack: build the objects of a chain from the bytes *packed points to; count zero stands for no chain. */
  method UnpackFrom(count: nat, packed: seq<Byte>, parent: Schema?)
      returns (schema: Schema?, rest: seq<Byte>, ghost f: Forest, ghost ns: Nodes, ghost all: set<Schema>)
    requires UnpackSome(count, packed).Some?
    ensures UnpackSome(count, packed) == Some((f, rest))
    ensures Built(f, ns, schema, parent) && Separate(ns) && All(ns) == all && fresh(all)
    decreases |packed|, count, 0
  {
    if count == 0 {
      return null, packed, Nil, NoNode, {};
    }
    ghost var hd, below, after := UnpackPieces(packed);
    var h := ReadHead(packed).value;
    ghost var c, call, fc;
    var o := new Schema(h.name, h.kind, parent);
    var isDir := h.kind == Object || h.kind == Subdir;
    var children;
    children, rest, fc, c, call := UnpackFrom(if isDir then h.children else 0, packed[h.size..], o);
    rest, f, ns, all := UnpackRest(o, children, h.next, rest, fc, c, call);
    schema := o;
  }

  /** The siblings of a node whose children are there, and its links to both. */
  method UnpackRest(o: Schema, children: Schema?, count: nat, packed: seq<Byte>,
                    ghost fc: Forest, ghost c: Nodes, ghost call: set<Schema>)
      returns (rest: seq<Byte>, ghost f: Forest, ghost ns: Nodes, ghost all: set<Schema>)
    requires UnpackSome(count, packed).Some?
    requires Built(fc, c, children, o) && Separate(c) && All(c) == call && o !in call
    modifies o`children, o`next
    ensures f.Node? && UnpackSome(count, packed) == Some((f.next, rest)) && f == Node(o.name, o.kind, fc, f.next)
    ensures Built(f, ns, o, o.parent) && Separate(ns) && All(ns) == all && fresh(all - {o} - call)
    decreases |packed|, count, 1
  {
    ghost var n, nall, fn;
    var next;
    next, rest, fn, n, nall := UnpackFrom(count, packed, o.parent);
    all := {o} + call + nall;
    Attach(o, children, next, fc, c, call, fn, n, nall);
    f, ns := Node(o.name, o.kind, fc, fn), At(o, c, n);
  }

  /** schema_unpack */
  method SchemaUnpack(buf: seq<Byte>) returns (schema: Schema?, ghost ns: Nodes)
    requires Unpack(buf).Some?
    ensures Built(Unpack(buf).value.0, ns, schema, null) && Separate(ns) && fresh(All(ns))
  {
    ghost var all, f;
    var rest;
    schema, rest, f, ns, all := UnpackFrom(1, buf, null);
  }

  /** Packing and unpacking copies a schema: new objects, the same forest, correct parents. */
  method Copied(schema: Schema, ghost f: Forest, ghost ns: Nodes, ghost all: set<Schema>)
      returns (copy: Schema?, ghost cs: Nodes)
    requires Spells(f, ns, schema) && All(ns) <= all && Storable(f) && LeavesBare(f)
    ensures Built(f, cs, copy, null) && Spells(f, cs, copy) && Separate(cs) && fresh(All(cs))
  {
    var buf, end := SchemaPack(schema, f, ns, all);
    RoundTrip(f, []);
    assert Pack(f) + [] == Pack(f);
    copy, cs := SchemaUnpack(buf.data[..buf.cur]);
    BuiltSpells(f, cs, copy, null);
  }
}
