/** SchemaEnt objects linked by parent, next and children, and what _fill builds of them. */
module Ents {
  import opened Schemas
  import N = Namespace
  import G = Grafting
  import R = Relinking

  /** The fields of a SchemaEnt, read at one moment. */
  datatype Cell = Cell(name: string, schema: Template, parent: Ent?, next: Ent?, children: Ent?,
                       hidden: bool, value: N.Value)

  /** struct SchemaEnt, without ownership, mode, size and times. */
  class Ent {
    var name: string
    var schema: Template
    var parent: Ent?
    var next: Ent?
    var children: Ent?
    var hidden: bool
    var value: N.Value

    constructor (schema: Template, parent: Ent?)
      ensures Read() == Cell(schema.name, schema, parent, null, null, '*' in schema.name, N.Empty)
    {
      this.name := schema.name;
      this.schema := schema;
      this.parent := parent;
      this.next := null;
      this.children := null;
      this.hidden := '*' in schema.name;
      this.value := N.Empty;
    }

    ghost function Read(): Cell
      reads this
    {
      Cell(name, schema, parent, next, children, hidden, value)
    }
  }

  /** What the objects of r hold now. */
  ghost function Snap(r: set<Ent>): map<Ent, Cell>
    reads r
  {
    map o | o in r :: o.Read()
  }

  /** o->next = v, seen among the objects r. */
  method StoreNext(o: Ent, v: Ent?, ghost r: set<Ent>)
    requires o in r
    modifies o`next
    ensures Snap(r) == old(Snap(r))[o := old(Snap(r))[o].(next := v)]
  {
    o.next := v;
  }

  /** o->children = v, seen among the objects r. */
  method StoreChildren(o: Ent, v: Ent?, ghost r: set<Ent>)
    requires o in r
    modifies o`children
    ensures Snap(r) == old(Snap(r))[o := old(Snap(r))[o].(children := v)]
  {
    o.children := v;
  }

  /** o->hidden and o->value, seen among the objects r. */
  method StoreAttributes(o: Ent, hidden: bool, value: N.Value, ghost r: set<Ent>)
    requires o in r
    modifies o`hidden, o`value
    ensures Snap(r) == old(Snap(r))[o := old(Snap(r))[o].(hidden := hidden, value := value)]
  {
    o.hidden := hidden;
    o.value := value;
  }

  /** The stores by which _rename links an entry in front of another directory's children. */
  method Relink(ent: Ent, dir: Ent, name: string, ghost r: set<Ent>)
    requires ent in r && dir in r && ent != dir
    modifies ent, dir
    ensures var cs := old(Snap(r));
      Snap(r) == cs[ent := cs[ent].(name := name, parent := dir, next := cs[dir].children)]
                   [dir := cs[dir].(children := ent)]
  {
    ent.name := name;
    ent.parent := dir;
    ent.next := dir.children;
    dir.children := ent;
  }

  /** The stores by which a filled instance goes in front of dir's children. */
  method Enter(ent: Ent, dir: Ent, name: string, hidden: bool, ghost r: set<Ent>)
    requires ent in r && dir in r && ent != dir
    modifies ent, dir
    ensures var cs := old(Snap(r));
      Snap(r) == cs[ent := cs[ent].(name := name, hidden := hidden, next := cs[dir].children)]
                   [dir := cs[dir].(children := ent)]
  {
    ent.name := name;
    ent.hidden := hidden;
    ent.next := dir.children;
    dir.children := ent;
  }

  // ---------------------------------------------------------------- what the pointers represent

  /** The objects behind the numbers of a state; ids is the inverse of obj. */
  datatype Store = Store(obj: map<nat, Ent>, ids: map<Ent, nat>)

  ghost predicate Numbered(st: Store) {
    && (forall n {:trigger st.obj[n]} :: n in st.obj ==> st.obj[n] in st.ids && st.ids[st.obj[n]] == n)
    && (forall e {:trigger st.ids[e]} :: e in st.ids ==> st.ids[e] in st.obj && st.obj[st.ids[e]] == e)
  }

  /** Following next from head visits the objects of the chain and stops; all have the given parent. */
  ghost predicate ChainRep(cs: map<Ent, Cell>, st: Store, chain: seq<nat>, head: Ent?, parent: Ent?) {
    if chain == [] then head == null
    else
      && chain[0] in st.obj && head == st.obj[chain[0]] && st.obj[chain[0]] in cs
      && cs[st.obj[chain[0]]].parent == parent
      && ChainRep(cs, st, chain[1..], cs[st.obj[chain[0]]].next, parent)
  }

  /** The object of n carries the entry's attributes and its chain of children. */
  ghost predicate NodeRep(cs: map<Ent, Cell>, st: Store, m: map<nat, N.Entry>, n: nat)
    requires n in st.obj && n in m
  {
    st.obj[n] in cs && var c := cs[st.obj[n]];
    && c.name == m[n].name && c.schema == m[n].schema && c.hidden == m[n].hidden && c.value == m[n].value
    && ChainRep(cs, st, m[n].kids, c.children, st.obj[n])
  }

  ghost predicate Rep(cs: map<Ent, Cell>, st: Store, m: map<nat, N.Entry>) {
    && st.obj.Keys == m.Keys && Numbered(st)
    && forall n {:trigger NodeRep(cs, st, m, n)} :: n in m ==> NodeRep(cs, st, m, n)
  }

  /** A chain is represented alike wherever its members are the same objects with the same links. */
  lemma {:induction false} ChainKept(cs: map<Ent, Cell>, st: Store, cs': map<Ent, Cell>, st': Store,
                                     chain: seq<nat>, head: Ent?, parent: Ent?)
    requires ChainRep(cs, st, chain, head, parent)
    requires forall i :: 0 <= i < |chain| && chain[i] in st.obj && st.obj[chain[i]] in cs ==>
      && chain[i] in st'.obj && st'.obj[chain[i]] == st.obj[chain[i]] && st.obj[chain[i]] in cs'
      && cs'[st.obj[chain[i]]].next == cs[st.obj[chain[i]]].next
      && cs'[st.obj[chain[i]]].parent == cs[st.obj[chain[i]]].parent
    ensures ChainRep(cs', st', chain, head, parent)
  {
    if chain != [] { ChainKept(cs, st, cs', st', chain[1..], cs[st.obj[chain[0]]].next, parent); }
  }

  ghost predicate Extends(st: Store, st': Store) {
    forall k {:trigger st'.obj[k]} {:trigger st.obj[k]} :: k in st.obj ==> k in st'.obj && st'.obj[k] == st.obj[k]
  }

  lemma {:induction false} ChainExtend(cs: map<Ent, Cell>, st: Store, st': Store,
                                       chain: seq<nat>, head: Ent?, parent: Ent?)
    requires ChainRep(cs, st, chain, head, parent) && Extends(st, st')
    ensures ChainRep(cs, st', chain, head, parent)
  {
    if chain != [] { ChainExtend(cs, st, st', chain[1..], cs[st.obj[chain[0]]].next, parent); }
  }

  lemma NodeExtend(cs: map<Ent, Cell>, st: Store, m: map<nat, N.Entry>, st': Store, m': map<nat, N.Entry>, n: nat)
    requires n in st.obj && n in m && NodeRep(cs, st, m, n)
    requires n in m' && m'[n] == m[n] && Extends(st, st')
    ensures NodeRep(cs, st', m', n)
  {
    ChainExtend(cs, st, st', m[n].kids, cs[st.obj[n]].children, st.obj[n]);
  }

  /** The members of a represented chain, and the links between them. */
  lemma {:induction false} ChainLinks(cs: map<Ent, Cell>, st: Store, chain: seq<nat>, head: Ent?, parent: Ent?, i: nat)
    requires ChainRep(cs, st, chain, head, parent) && i < |chain|
    ensures head != null && chain[i] in st.obj && st.obj[chain[i]] in cs && cs[st.obj[chain[i]]].parent == parent
    ensures chain[0] in st.obj && st.obj[chain[0]] == head && ChainRep(cs, st, chain[i..], st.obj[chain[i]], parent)
    ensures ChainRep(cs, st, chain[i + 1..], cs[st.obj[chain[i]]].next, parent)
  {
    if i > 0 {
      ChainLinks(cs, st, chain[1..], cs[st.obj[chain[0]]].next, parent, i - 1);
      assert chain[1..][i - 1..] == chain[i..] && chain[1..][i..] == chain[i + 1..];
    } else {
      assert chain[0..] == chain;
    }
  }

  /** Each object of the chain is followed by the next. */
  ghost predicate InRow(cs: map<Ent, Cell>, st: Store, chain: seq<nat>) {
    forall i :: 0 <= i < |chain| ==>
      && chain[i] in st.obj && st.obj[chain[i]] in cs
      && st.obj[chain[i]] in st.ids && st.ids[st.obj[chain[i]]] == chain[i]
      && (i + 1 < |chain| ==> chain[i + 1] in st.obj && cs[st.obj[chain[i]]].next == st.obj[chain[i + 1]])
  }

  lemma {:induction false} ChainInRow(cs: map<Ent, Cell>, st: Store, chain: seq<nat>, head: Ent?, parent: Ent?)
    requires Numbered(st) && ChainRep(cs, st, chain, head, parent)
    ensures InRow(cs, st, chain) && (chain != [] ==> chain[0] in st.obj && head == st.obj[chain[0]])
  {
    if chain != [] {
      var rest := chain[1..];
      assert chain == [chain[0]] + rest;
      ChainInRow(cs, st, rest, cs[head].next, parent);
      forall i | 0 < i < |chain|
        ensures chain[i] == rest[i - 1]
      {
      }
    }
  }

  /** The objects of a chain up to its i-th. */
  lemma RowOf(cs: map<Ent, Cell>, st: Store, chain: seq<nat>, i: nat) returns (row: seq<Ent>)
    requires InRow(cs, st, chain) && N.NoDup(chain) && i < |chain|
    ensures |row| == i + 1 && forall j :: 0 <= j <= i ==>
      row[j] in st.ids && chain[j] in st.obj && row[j] == st.obj[chain[j]] && st.ids[row[j]] == chain[j]
    ensures forall j :: 0 <= j < i ==> row[j] in cs && cs[row[j]].next == row[j + 1] && row[j] != row[i]
  {
    row := seq(i + 1, j requires 0 <= j <= i => st.obj[chain[j]]);
    forall j | 0 <= j < i
      ensures row[j] in cs && cs[row[j]].next == row[j + 1] && row[j] != row[i]
    {
      assert st.ids[row[j]] == chain[j] && chain[j] != chain[i];
    }
  }

  // ---------------------------------------------------------------- _fill

  /** The objects of an instantiated chain, arranged like its schema. */
  datatype Objects = NoObject | Obj(ent: Ent, children: Objects, next: Objects)

  ghost function All(os: Objects): set<Ent> {
    match os
    case NoObject => {}
    case Obj(ent, c, n) => {ent} + All(c) + All(n)
  }

  ghost predicate Separate(os: Objects) {
    match os
    case NoObject => true
    case Obj(ent, c, n) => ent !in All(c) && ent !in All(n) && All(c) !! All(n) && Separate(c) && Separate(n)
  }

  /** The objects carry what _fill writes for the chain f below parent. */
  ghost predicate Built(f: Forest, os: Objects, head: Ent?, parent: Ent?)
    reads All(os)
    decreases os
  {
    match os
    case NoObject => f.Nil? && head == null
    case Obj(ent, c, n) =>
      && f.Node? && head == ent && ent.parent == parent
      && ent.name == f.name && ent.schema == f && ent.value == N.Empty
      && ent.hidden == ('*' in f.name || f.kind == Link)
      && Built(Visible(f), c, ent.children, ent)
      && Built(f.next, n, ent.next, parent)
  }

  /** Give a new object its siblings and its children. */
  method Attach(ent: Ent, schema: Template, parent: Ent?, children: Ent?, next: Ent?,
                ghost c: Objects, ghost n: Objects, ghost call: set<Ent>, ghost nall: set<Ent>)
    requires ent.Read()
          == Cell(schema.name, schema, parent, null, null, '*' in schema.name || schema.kind == Link, N.Empty)
    requires Built(Visible(schema), c, children, ent) && Built(schema.next, n, next, parent)
    requires All(c) == call && All(n) == nall && ent !in call && ent !in nall && call !! nall
    requires Separate(c) && Separate(n)
    modifies ent`children, ent`next
    ensures var os := Obj(ent, c, n);
      Built(schema, os, ent, parent) && Separate(os) && All(os) == {ent} + call + nall
  {
    ent.next := next;
    ent.children := children;
  }

  /** _fill: instantiate a sibling chain below parent, `next` before `children`. */
  method Fill(schema: Forest, parent: Ent?) returns (head: Ent?, ghost os: Objects, ghost all: set<Ent>)
    ensures Built(schema, os, head, parent) && Separate(os) && All(os) == all && fresh(all)
    decreases schema
  {
    if schema.Nil? {
      return null, NoObject, {};
    }
    var ent := new Ent(schema, parent);
    ghost var n, c, nall, call := NoObject, NoObject, {}, {};
    var next, children := null, null;
    next, n, nall := Fill(schema.next, parent);
    if schema.kind == Subdir {
      children, c, call := Fill(schema.children, ent);
    } else if schema.kind == Link {
      ent.hidden := true;
    }
    all := {ent} + call + nall;
    assert fresh(all);
    Attach(ent, schema, parent, children, next, c, n, call, nall);
    head, os := ent, Obj(ent, c, n);
  }

  // ---------------------------------------------------------------- numbering the new objects

  ghost function Join(a: Store, lo: nat, ent: Ent, b: Store): Store {
    Store(a.obj[lo := ent] + b.obj, a.ids[ent := lo] + b.ids)
  }

  lemma JoinNumbered(a: Store, lo: nat, ent: Ent, b: Store)
    requires Numbered(a) && Numbered(b) && lo !in a.obj && lo !in b.obj && a.obj.Keys !! b.obj.Keys
    requires ent !in a.ids && ent !in b.ids && a.ids.Keys !! b.ids.Keys
    ensures Numbered(Join(a, lo, ent, b)) && Extends(a, Join(a, lo, ent, b)) && Extends(b, Join(a, lo, ent, b))
  {
  }

  lemma JoinKeys(a: Store, lo: nat, ent: Ent, b: Store)
    ensures Join(a, lo, ent, b).ids.Keys == b.ids.Keys + {ent} + a.ids.Keys
  {
  }

  /** st represents the entries m; head is the first object of their top chain. */
  ghost predicate Filled(cs: map<Ent, Cell>, st: Store, m: map<nat, N.Entry>, roots: seq<nat>,
                         head: Ent?, parent: Ent?)
  {
    Rep(cs, st, m) && ChainRep(cs, st, roots, head, parent)
  }

  /** The cell is that of the entry e under parent. */
  ghost predicate Carries(c: Cell, e: N.Entry, parent: Ent?) {
    c.name == e.name && c.schema == e.schema && c.value == e.value && c.hidden == e.hidden && c.parent == parent
  }

  /** An object for the entry e at lo joins what represents its children's instances and other entries. */
  lemma JoinRep(cs: map<Ent, Cell>, lo: nat, e: N.Entry, ent: Ent, parent: Ent?, b: map<nat, N.Entry>, cst: Store,
                x: map<nat, N.Entry>, nst: Store)
    requires ent in cs && Carries(cs[ent], e, parent)
    requires lo !in b && lo !in x && b.Keys !! x.Keys
    requires ent !in cst.ids && ent !in nst.ids && cst.ids.Keys !! nst.ids.Keys
    requires Filled(cs, cst, b, e.kids, cs[ent].children, ent) && Rep(cs, nst, x)
    ensures Rep(cs, Join(cst, lo, ent, nst), b[lo := e] + x)
  {
    var st, f := Join(cst, lo, ent, nst), b[lo := e] + x;
    JoinNumbered(cst, lo, ent, nst);
    ChainExtend(cs, cst, st, e.kids, cs[ent].children, ent);
    forall n | n in f
      ensures NodeRep(cs, st, f, n)
    {
      if n in x {
        assert NodeRep(cs, nst, x, n);
        NodeExtend(cs, nst, x, st, f, n);
      } else if n != lo {
        assert NodeRep(cs, cst, b, n);
        NodeExtend(cs, cst, b, st, f, n);
      }
    }
  }

  lemma JoinFilled(cs: map<Ent, Cell>, lo: nat, e: N.Entry, ent: Ent, parent: Ent?, b: map<nat, N.Entry>, cst: Store,
                   x: map<nat, N.Entry>, roots: seq<nat>, nst: Store)
    requires ent in cs && Carries(cs[ent], e, parent)
    requires lo !in b && lo !in x && b.Keys !! x.Keys
    requires ent !in cst.ids && ent !in nst.ids && cst.ids.Keys !! nst.ids.Keys
    requires Filled(cs, cst, b, e.kids, cs[ent].children, ent) && Filled(cs, nst, x, roots, cs[ent].next, parent)
    ensures Filled(cs, Join(cst, lo, ent, nst), b[lo := e] + x, [lo] + roots, ent, parent)
  {
    JoinRep(cs, lo, e, ent, parent, b, cst, x, nst);
    JoinNumbered(cst, lo, ent, nst);
    ChainExtend(cs, nst, Join(cst, lo, ent, nst), roots, cs[ent].next, parent);
    assert ([lo] + roots)[1..] == roots;
  }

  lemma FillParts(t: Template, p: nat, lo: nat, b: map<nat, N.Entry>, x: map<nat, N.Entry>, ids: seq<nat>)
    requires b == N.FillChain(Visible(t), lo, lo + 1) && ids == N.Roots(Visible(t), lo + 1)
    requires x == N.FillChain(t.next, p, lo + N.SizeOne(t))
    ensures lo !in b && lo !in x && b.Keys !! x.Keys
    ensures N.FillOne(t, p, lo) == b[lo := N.NewEntry(t, p, ids)]
    ensures N.FillChain(t, p, lo) == b[lo := N.NewEntry(t, p, ids)] + x
    ensures N.Roots(t, lo) == [lo] + N.Roots(t.next, lo + N.SizeOne(t))
  {
    G.FillChainForested(t.next, p, lo + N.SizeOne(t));
    G.FillChainForested(Visible(t), lo, lo + 1);
  }

  /** The object of a node joins the instances of its children and of its next siblings. */
  lemma JoinNode(cs: map<Ent, Cell>, t: Template, ent: Ent, parent: Ent?, p: nat, lo: nat, cst: Store, nst: Store)
    requires ent in cs && Carries(cs[ent], N.NewEntry(t, p, []), parent)
    requires Filled(cs, cst, N.FillChain(Visible(t), lo, lo + 1), N.Roots(Visible(t), lo + 1), cs[ent].children, ent)
    requires Filled(cs, nst, N.FillChain(t.next, p, lo + N.SizeOne(t)), N.Roots(t.next, lo + N.SizeOne(t)),
                    cs[ent].next, parent)
    requires ent !in cst.ids && ent !in nst.ids && cst.ids.Keys !! nst.ids.Keys
    ensures Filled(cs, Join(cst, lo, ent, nst), N.FillChain(t, p, lo), N.Roots(t, lo), ent, parent)
  {
    var b, x := N.FillChain(Visible(t), lo, lo + 1), N.FillChain(t.next, p, lo + N.SizeOne(t));
    var ids := N.Roots(Visible(t), lo + 1);
    FillParts(t, p, lo, b, x, ids);
    JoinFilled(cs, lo, N.NewEntry(t, p, ids), ent, parent, b, cst, x, N.Roots(t.next, lo + N.SizeOne(t)), nst);
  }

  /** What _fill builds represents the instance, its entries numbered from lo on. */
  lemma {:induction false} NumberBuilt(r: set<Ent>, f: Forest, os: Objects, head: Ent?, parent: Ent?, p: nat, lo: nat)
      returns (st: Store)
    requires Built(f, os, head, parent) && Separate(os) && All(os) <= r
    ensures Filled(Snap(r), st, N.FillChain(f, p, lo), N.Roots(f, lo), head, parent) && st.ids.Keys == All(os)
    decreases os
  {
    match os
    case NoObject => st := Store(map[], map[]);
    case Obj(ent, c, n) =>
      var cst := NumberBuilt(r, Visible(f), c, ent.children, ent, lo, lo + 1);
      var nst := NumberBuilt(r, f.next, n, ent.next, parent, p, lo + N.SizeOne(f));
      var cs := Snap(r);
      assert ent in cs && Carries(cs[ent], N.NewEntry(f, p, []), parent);
      assert ent !in cst.ids && ent !in nst.ids && cst.ids.Keys !! nst.ids.Keys;
      JoinNode(cs, f, ent, parent, p, lo, cst, nst);
      JoinKeys(cst, lo, ent, nst);
      st := Join(cst, lo, ent, nst);
  }

  // ---------------------------------------------------------------- changes in place

  /** Changing hidden and value of one entry. */
  lemma AttributesSet(cs: map<Ent, Cell>, st: Store, m: map<nat, N.Entry>, n: nat, hidden: bool, value: N.Value)
    requires Rep(cs, st, m) && n in m
    ensures st.obj[n] in cs
    ensures Rep(cs[st.obj[n] := cs[st.obj[n]].(hidden := hidden, value := value)], st,
                m[n := m[n].(hidden := hidden, value := value)])
  {
    assert NodeRep(cs, st, m, n);
    var cs' := cs[st.obj[n] := cs[st.obj[n]].(hidden := hidden, value := value)];
    var m' := m[n := m[n].(hidden := hidden, value := value)];
    forall x | x in m'
      ensures NodeRep(cs', st, m', x)
    {
      assert NodeRep(cs, st, m, x);
      ChainKept(cs, st, cs', st, m[x].kids, cs[st.obj[x]].children, st.obj[x]);
    }
  }

  ghost predicate SameBut(cs: map<Ent, Cell>, cs': map<Ent, Cell>, dir: Ent) {
    && dir in cs && dir in cs' && cs'[dir] == cs[dir].(children := cs'[dir].children)
    && forall o {:trigger cs'[o]} {:trigger cs[o]} :: o in cs && o != dir ==> o in cs' && cs'[o] == cs[o]
  }

  lemma GraftOldNode(cs: map<Ent, Cell>, cs': map<Ent, Cell>, st: Store, st': Store,
                     s: N.State, p: nat, ent: Ent, m: map<nat, N.Entry>, n: nat)
    requires N.Shape(s) && Rep(cs, st, s.ents) && p in s.ents && n in s.ents && n in m
    requires m[n] == s.ents[n].(kids := if n == p then [s.nextId] + s.ents[p].kids else s.ents[n].kids)
    requires SameBut(cs, cs', st.obj[p]) && Extends(st, st') && s.nextId in st'.obj && st'.obj[s.nextId] == ent
    requires ent in cs' && cs'[ent].parent == st.obj[p] && cs'[ent].next == cs[st.obj[p]].children
    requires cs'[st.obj[p]].children == ent
    ensures n in st'.obj && NodeRep(cs', st', m, n)
  {
    var kids := s.ents[n].kids;
    assert NodeRep(cs, st, s.ents, n);
    ChainKept(cs, st, cs', st', kids, cs[st.obj[n]].children, st.obj[n]);
    if n == p {
      assert ([s.nextId] + kids)[1..] == kids;
    } else {
      assert st.ids[st.obj[n]] == n && st.ids[st.obj[p]] == p;
    }
  }

  /** The entries m: those of b, a new one e at lo, and the old ones with p's chain longer by one. */
  ghost predicate Attached(s: N.State, p: nat, b: map<nat, N.Entry>, e: N.Entry, m: map<nat, N.Entry>)
    requires p in s.ents
  {
    && (forall n {:trigger n in m} :: n in m <==> n in b || n == s.nextId || n in s.ents)
    && s.nextId in m && m[s.nextId] == e
    && (forall n {:trigger m[n]} {:trigger b[n]} :: n in b ==> n in m && m[n] == b[n])
    && (forall n {:trigger m[n]} {:trigger s.ents[n]} :: n in s.ents ==>
          n in m && m[n] == s.ents[n].(kids := if n == p then [s.nextId] + s.ents[p].kids else s.ents[n].kids))
  }

  lemma AttachedNode(cs: map<Ent, Cell>, st: Store, s: N.State, p: nat, ent: Ent, cst: Store,
                     b: map<nat, N.Entry>, e: N.Entry, m: map<nat, N.Entry>, st': Store, n: nat)
    requires p in s.ents && Attached(s, p, b, e, m) && (n == s.nextId || n in b)
    requires ent in cs && Carries(cs[ent], e, cs[ent].parent) && Filled(cs, cst, b, e.kids, cs[ent].children, ent)
    requires s.nextId in st'.obj && st'.obj[s.nextId] == ent && Extends(cst, st')
    ensures n in st'.obj && NodeRep(cs, st', m, n)
  {
    if n == s.nextId {
      ChainExtend(cs, cst, st', e.kids, cs[ent].children, ent);
    }
    if n in b {
      assert NodeRep(cs, cst, b, n);
      NodeExtend(cs, cst, b, st', m, n);
    }
  }

  lemma AttachedStore(st: Store, s: N.State, p: nat, ent: Ent, cst: Store, b: map<nat, N.Entry>,
                      e: N.Entry, m: map<nat, N.Entry>)
    requires p in s.ents && Attached(s, p, b, e, m) && Numbered(st) && Numbered(cst)
    requires st.obj.Keys == s.ents.Keys && cst.obj.Keys == b.Keys
    requires ent !in cst.ids && ent !in st.ids && cst.ids.Keys !! st.ids.Keys
    requires s.nextId !in b && s.nextId !in s.ents && b.Keys !! s.ents.Keys
    ensures var st' := Join(cst, s.nextId, ent, st);
      && Numbered(st') && Extends(cst, st') && Extends(st, st')
      && s.nextId in st'.obj && st'.obj[s.nextId] == ent && st'.obj.Keys == m.Keys
  {
    JoinNumbered(cst, s.nextId, ent, st);
  }

  lemma AttachedRep(cs: map<Ent, Cell>, cs': map<Ent, Cell>, st: Store, s: N.State, p: nat, ent: Ent, cst: Store,
                    b: map<nat, N.Entry>, e: N.Entry, m: map<nat, N.Entry>)
    requires N.Shape(s) && Rep(cs, st, s.ents) && p in s.ents
    requires SameBut(cs, cs', st.obj[p]) && ent in cs' && cs'[st.obj[p]].children == ent
    requires Carries(cs'[ent], e, st.obj[p]) && cs'[ent].next == cs[st.obj[p]].children
    requires Filled(cs', cst, b, e.kids, cs'[ent].children, ent)
    requires ent !in cst.ids && ent !in st.ids && cst.ids.Keys !! st.ids.Keys
    requires s.nextId !in b && s.nextId !in s.ents && b.Keys !! s.ents.Keys && Attached(s, p, b, e, m)
    ensures Rep(cs', Join(cst, s.nextId, ent, st), m)
  {
    var st' := Join(cst, s.nextId, ent, st);
    AttachedStore(st, s, p, ent, cst, b, e, m);
    forall n | n in m
      ensures NodeRep(cs', st', m, n)
    {
      if n == s.nextId || n in b {
        AttachedNode(cs', st, s, p, ent, cst, b, e, m, st', n);
      } else {
        GraftOldNode(cs, cs', st, st', s, p, ent, m, n);
      }
    }
  }

  lemma AttachedMerge(s: N.State, p: nat, b: map<nat, N.Entry>, e: N.Entry)
    requires p in s.ents && s.nextId !in b && s.nextId !in s.ents && b.Keys !! s.ents.Keys
    ensures Attached(s, p, b, e, s.ents[p := s.ents[p].(kids := [s.nextId] + s.ents[p].kids)] + b[s.nextId := e])
  {
  }

  lemma BelowKeys(s: N.State, t: Template, b: map<nat, N.Entry>)
    requires N.Shape(s) && b == N.FillChain(Visible(t), s.nextId, s.nextId + 1)
    ensures s.nextId !in s.ents && b.Keys !! s.ents.Keys
  {
    G.FillChainForested(Visible(t), s.nextId, s.nextId + 1);
  }

  /** A grafted state consists of the instance and the old entries. */
  lemma GraftAttached(s: N.State, p: nat, t: Template, name: string, hidden: bool, b: map<nat, N.Entry>, ids: seq<nat>)
    requires N.Shape(s) && p in s.ents
    requires b == N.FillChain(Visible(t), s.nextId, s.nextId + 1) && ids == N.Roots(Visible(t), s.nextId + 1)
    ensures s.nextId !in b && s.nextId !in s.ents && b.Keys !! s.ents.Keys
    ensures Attached(s, p, b, N.Entry(name, t, hidden, N.Empty, p, ids), N.Graft(s, p, t, name, hidden).ents)
  {
    var lo, e := s.nextId, N.Entry(name, t, hidden, N.Empty, p, ids);
    FillParts(t, p, lo, b, N.FillChain(t.next, p, lo + N.SizeOne(t)), ids);
    BelowKeys(s, t, b);
    AttachedMerge(s, p, b, e);
    var f := N.FillOne(t, p, lo);
    assert f[lo := f[lo].(name := name, hidden := hidden)] == b[lo := e];
  }

  /** Linking a new instance in front of the children of p. */
  lemma GraftRep(cs: map<Ent, Cell>, cs': map<Ent, Cell>, st: Store, s: N.State, p: nat, t: Template,
                 name: string, hidden: bool, ent: Ent, cst: Store)
    requires N.Shape(s) && Rep(cs, st, s.ents) && p in s.ents
    requires SameBut(cs, cs', st.obj[p]) && ent in cs' && cs'[st.obj[p]].children == ent
    requires cs'[ent] == Cell(name, t, st.obj[p], cs[st.obj[p]].children, cs'[ent].children, hidden, N.Empty)
    requires Filled(cs', cst, N.FillChain(Visible(t), s.nextId, s.nextId + 1), N.Roots(Visible(t), s.nextId + 1),
                    cs'[ent].children, ent)
    requires ent !in cst.ids && ent !in st.ids && cst.ids.Keys !! st.ids.Keys
    ensures Rep(cs', Join(cst, s.nextId, ent, st), N.Graft(s, p, t, name, hidden).ents)
  {
    var b, ids := N.FillChain(Visible(t), s.nextId, s.nextId + 1), N.Roots(Visible(t), s.nextId + 1);
    GraftAttached(s, p, t, name, hidden, b, ids);
    AttachedRep(cs, cs', st, s, p, ent, cst, b, N.Entry(name, t, hidden, N.Empty, p, ids),
                N.Graft(s, p, t, name, hidden).ents);
  }

  // ---------------------------------------------------------------- unlinking

  /** Making the predecessor of e skip it takes e off the chain. */
  lemma {:induction false} ChainCut(cs: map<Ent, Cell>, cs': map<Ent, Cell>, st: Store, chain: seq<nat>,
                                    head: Ent?, parent: Ent?, e: nat, k: nat)
    requires Numbered(st) && ChainRep(cs, st, chain, head, parent) && N.NoDup(chain)
    requires k + 1 < |chain| && chain[k + 1] == e && e in st.obj && st.obj[e] in cs
    requires chain[k] in st.obj && st.obj[chain[k]] in cs
    requires cs' == cs[st.obj[chain[k]] := cs[st.obj[chain[k]]].(next := cs[st.obj[e]].next)]
    ensures ChainRep(cs', st, N.Without(chain, e), head, parent)
    decreases k
  {
    var rest := chain[1..];
    assert chain == [chain[0]] + rest && N.NoDup(rest);
    assert chain[0] != e;
    assert N.Without(chain, e) == [chain[0]] + N.Without(rest, e);
    assert ([chain[0]] + N.Without(rest, e))[1..] == N.Without(rest, e);
    if k == 0 {
      assert N.Without(rest, e) == rest[1..];
      forall i | 0 <= i < |rest[1..]|
        ensures rest[1..][i] != chain[0]
      {
        assert rest[1..][i] == chain[i + 2];
      }
      ChainKept(cs, st, cs', st, rest[1..], cs[st.obj[e]].next, parent);
    } else {
      assert rest[k - 1] == chain[k] && rest[k] == e;
      ChainCut(cs, cs', st, rest, cs[st.obj[chain[0]]].next, parent, e, k - 1);
      assert st.ids[st.obj[chain[0]]] == chain[0] && st.ids[st.obj[chain[k]]] == chain[k];
    }
  }

  /** The objects after e left its chain: its parent or its predecessor skips it, nothing else changed. */
  ghost predicate Skips(cs: map<Ent, Cell>, cs': map<Ent, Cell>, st: Store, s: N.State, e: nat)
    requires N.Shape(s) && Rep(cs, st, s.ents) && e in s.ents && e != N.ROOT
  {
    var ent, o := st.obj[e], s.ents[e].par;
    var dir, kids := st.obj[o], s.ents[o].kids;
    assert NodeRep(cs, st, s.ents, e) && NodeRep(cs, st, s.ents, o);
    if cs[dir].children == ent then cs' == cs[dir := cs[dir].(children := cs[ent].next)]
    else exists k :: 0 <= k && k + 1 < |kids| && kids[k + 1] == e && kids[k] in st.obj && st.obj[kids[k]] in cs
                  && cs' == cs[st.obj[kids[k]] := cs[st.obj[kids[k]]].(next := cs[ent].next)]
  }

  lemma UnlinkHead(cs: map<Ent, Cell>, cs': map<Ent, Cell>, st: Store, s: N.State, e: nat, n: nat)
    requires N.Shape(s) && Rep(cs, st, s.ents) && e in s.ents && e != N.ROOT && n in s.ents
    requires st.obj[s.ents[e].par] in cs && cs[st.obj[s.ents[e].par]].children == st.obj[e] && st.obj[e] in cs
    requires cs' == cs[st.obj[s.ents[e].par] := cs[st.obj[s.ents[e].par]].(children := cs[st.obj[e]].next)]
    ensures n in st.obj && n in N.Unlink(s.ents, e) && NodeRep(cs', st, N.Unlink(s.ents, e), n)
  {
    var ent, o := st.obj[e], s.ents[e].par;
    var kids := s.ents[n].kids;
    assert NodeRep(cs, st, s.ents, e) && NodeRep(cs, st, s.ents, o) && NodeRep(cs, st, s.ents, n);
    assert N.Chain(s.ents, kids, n);
    assert st.ids[st.obj[n]] == n && st.ids[st.obj[o]] == o && st.ids[ent] == e;
    if n == o {
      assert kids[0] == e;
      assert e !in kids[1..];
    }
    ChainKept(cs, st, cs', st, if n == o then kids[1..] else kids,
              if n == o then cs[ent].next else cs[st.obj[n]].children, st.obj[n]);
  }

  lemma UnlinkLater(cs: map<Ent, Cell>, cs': map<Ent, Cell>, st: Store, s: N.State, e: nat, k: nat, n: nat)
    requires N.Shape(s) && Rep(cs, st, s.ents) && e in s.ents && e != N.ROOT && n in s.ents
    requires var kids := s.ents[s.ents[e].par].kids;
      && k + 1 < |kids| && kids[k + 1] == e && kids[k] in st.obj && st.obj[kids[k]] in cs && st.obj[e] in cs
      && cs' == cs[st.obj[kids[k]] := cs[st.obj[kids[k]]].(next := cs[st.obj[e]].next)]
    ensures n in st.obj && n in N.Unlink(s.ents, e) && NodeRep(cs', st, N.Unlink(s.ents, e), n)
  {
    var o := s.ents[e].par;
    var prev := s.ents[o].kids[k];
    assert NodeRep(cs, st, s.ents, n);
    assert N.Chain(s.ents, s.ents[n].kids, n) && N.Chain(s.ents, s.ents[o].kids, o);
    assert st.ids[st.obj[n]] == n && st.ids[st.obj[prev]] == prev;
    if n == o {
      ChainCut(cs, cs', st, s.ents[n].kids, cs[st.obj[n]].children, st.obj[n], e, k);
    } else {
      ChainKept(cs, st, cs', st, s.ents[n].kids, cs[st.obj[n]].children, st.obj[n]);
    }
  }

  lemma UnlinkHeadRep(cs: map<Ent, Cell>, cs': map<Ent, Cell>, st: Store, s: N.State, e: nat)
    requires N.Shape(s) && Rep(cs, st, s.ents) && e in s.ents && e != N.ROOT
    requires st.obj[s.ents[e].par] in cs && cs[st.obj[s.ents[e].par]].children == st.obj[e] && st.obj[e] in cs
    requires cs' == cs[st.obj[s.ents[e].par] := cs[st.obj[s.ents[e].par]].(children := cs[st.obj[e]].next)]
    ensures Rep(cs', st, N.Unlink(s.ents, e))
  {
    forall n | n in s.ents
      ensures NodeRep(cs', st, N.Unlink(s.ents, e), n)
    {
      UnlinkHead(cs, cs', st, s, e, n);
    }
  }

  lemma UnlinkLaterRep(cs: map<Ent, Cell>, cs': map<Ent, Cell>, st: Store, s: N.State, e: nat, k: nat)
    requires N.Shape(s) && Rep(cs, st, s.ents) && e in s.ents && e != N.ROOT
    requires var kids := s.ents[s.ents[e].par].kids;
      && k + 1 < |kids| && kids[k + 1] == e && kids[k] in st.obj && st.obj[kids[k]] in cs && st.obj[e] in cs
      && cs' == cs[st.obj[kids[k]] := cs[st.obj[kids[k]]].(next := cs[st.obj[e]].next)]
    ensures Rep(cs', st, N.Unlink(s.ents, e))
  {
    forall n | n in s.ents
      ensures NodeRep(cs', st, N.Unlink(s.ents, e), n)
    {
      UnlinkLater(cs, cs', st, s, e, k, n);
    }
  }

  /** Skipping the object of e in its parent or its predecessor takes e off the chain. */
  lemma UnlinkRep(cs: map<Ent, Cell>, cs': map<Ent, Cell>, st: Store, s: N.State, e: nat)
    requires N.Shape(s) && Rep(cs, st, s.ents) && e in s.ents && e != N.ROOT && Skips(cs, cs', st, s, e)
    ensures Rep(cs', st, N.Unlink(s.ents, e))
  {
    var ent, o := st.obj[e], s.ents[e].par;
    var kids := s.ents[o].kids;
    assert NodeRep(cs, st, s.ents, e) && NodeRep(cs, st, s.ents, o);
    if cs[st.obj[o]].children == ent {
      UnlinkHeadRep(cs, cs', st, s, e);
    } else {
      var k :| 0 <= k && k + 1 < |kids| && kids[k + 1] == e && kids[k] in st.obj && st.obj[kids[k]] in cs
        && cs' == cs[st.obj[kids[k]] := cs[st.obj[kids[k]]].(next := cs[ent].next)];
      UnlinkLaterRep(cs, cs', st, s, e, k);
    }
  }

  lemma MoveNode(cs: map<Ent, Cell>, cs': map<Ent, Cell>, st: Store, s: N.State, e: nat, p: nat, name: string, n: nat)
    requires N.Shape(s) && e in s.ents && e != N.ROOT && p in s.ents && p != e && n in s.ents
    requires Rep(cs, st, N.Unlink(s.ents, e)) && st.obj[e] in cs && st.obj[p] in cs
    requires cs' == cs[st.obj[e] := cs[st.obj[e]].(name := name, parent := st.obj[p], next := cs[st.obj[p]].children)]
                      [st.obj[p] := cs[st.obj[p]].(children := st.obj[e])]
    ensures n in N.Move(s, e, p, name).ents && NodeRep(cs', st, N.Move(s, e, p, name).ents, n)
  {
    var u := N.Unlink(s.ents, e);
    R.MoveEntry(s, e, p, name, n);
    R.UnlinkChain(s, e, n);
    assert NodeRep(cs, st, u, n);
    assert st.ids[st.obj[n]] == n && st.ids[st.obj[e]] == e && st.ids[st.obj[p]] == p;
    var kids := u[n].kids;
    forall i | 0 <= i < |kids| && kids[i] in st.obj
      ensures st.obj[kids[i]] != st.obj[e]
    {
      assert kids[i] in kids && st.ids[st.obj[kids[i]]] == kids[i];
    }
    ChainKept(cs, st, cs', st, kids, cs[st.obj[n]].children, st.obj[n]);
    if n == p { assert ([e] + kids)[1..] == kids; }
  }

  /** Relinking an unlinked entry in front of the children of p under a new name. */
  lemma MoveRep(cs: map<Ent, Cell>, cs': map<Ent, Cell>, st: Store, s: N.State, e: nat, p: nat, name: string)
    requires N.Shape(s) && e in s.ents && e != N.ROOT && p in s.ents && p != e
    requires Rep(cs, st, N.Unlink(s.ents, e)) && st.obj[e] in cs && st.obj[p] in cs
    requires cs' == cs[st.obj[e] := cs[st.obj[e]].(name := name, parent := st.obj[p], next := cs[st.obj[p]].children)]
                      [st.obj[p] := cs[st.obj[p]].(children := st.obj[e])]
    ensures Rep(cs', st, N.Move(s, e, p, name).ents)
  {
    var m := N.Move(s, e, p, name).ents;
    forall n | n in m
      ensures NodeRep(cs', st, m, n)
    {
      MoveNode(cs, cs', st, s, e, p, name, n);
    }
  }

  // ---------------------------------------------------------------- cutting

  /** The store without the objects of e's subtree. */
  ghost function Cutoff(st: Store, s: N.State, e: nat): Store
    requires N.Tree(s) && e in s.ents && e != N.ROOT
  {
    var keep := N.Cut(s, e).ents;
    Store(map n | n in st.obj && n in keep :: st.obj[n], map o | o in st.ids && st.ids[o] in keep :: st.ids[o])
  }

  lemma CutNode(cs: map<Ent, Cell>, cs': map<Ent, Cell>, st: Store, s: N.State, e: nat, n: nat)
    requires N.Tree(s) && e in s.ents && e != N.ROOT && Rep(cs, st, N.Unlink(s.ents, e)) && n in N.Cut(s, e).ents
    requires forall o {:trigger cs[o]} :: o in Cutoff(st, s, e).ids && o in cs ==> o in cs' && cs'[o] == cs[o]
    ensures n in Cutoff(st, s, e).obj && NodeRep(cs', Cutoff(st, s, e), N.Cut(s, e).ents, n)
  {
    var st', m, u := Cutoff(st, s, e), N.Cut(s, e).ents, N.Unlink(s.ents, e);
    R.CutShape(s, e);
    assert NodeRep(cs, st, u, n);
    var kids := m[n].kids;
    assert m[n] == u[n] && N.Chain(m, kids, n);
    assert st.ids[st.obj[n]] == n;
    forall i | 0 <= i < |kids|
      ensures kids[i] in st'.obj && st'.obj[kids[i]] in st'.ids
    {
      assert st.ids[st.obj[kids[i]]] == kids[i];
    }
    ChainKept(cs, st, cs', st', kids, cs[st.obj[n]].children, st.obj[n]);
  }

  lemma CutNumbered(st: Store, s: N.State, e: nat)
    requires N.Tree(s) && e in s.ents && e != N.ROOT && Numbered(st) && st.obj.Keys == s.ents.Keys
    ensures Numbered(Cutoff(st, s, e)) && Cutoff(st, s, e).obj.Keys == N.Cut(s, e).ents.Keys
  {
  }

  /** The rest of the tree is still represented once e's subtree is dropped. */
  lemma CutRep(cs: map<Ent, Cell>, cs': map<Ent, Cell>, st: Store, s: N.State, e: nat)
    requires N.Tree(s) && e in s.ents && e != N.ROOT && Rep(cs, st, N.Unlink(s.ents, e))
    requires forall o {:trigger cs[o]} :: o in Cutoff(st, s, e).ids && o in cs ==> o in cs' && cs'[o] == cs[o]
    ensures Rep(cs', Cutoff(st, s, e), N.Cut(s, e).ents)
  {
    CutNumbered(st, s, e);
    forall n | n in N.Cut(s, e).ents
      ensures NodeRep(cs', Cutoff(st, s, e), N.Cut(s, e).ents, n)
    {
      CutNode(cs, cs', st, s, e, n);
    }
  }

  // ---------------------------------------------------------------- linking a new instance

  /** The new object ent, the instances below it, and dir's chain starting with ent; r otherwise as before. */
  ghost predicate Linked(cs: map<Ent, Cell>, cs': map<Ent, Cell>, cst: Store, dir: Ent, ent: Ent, t: Template,
                         name: string, hidden: bool, lo: nat)
  {
    && SameBut(cs, cs', dir) && ent in cs' && cs'[dir].children == ent
    && cs'[ent] == Cell(name, t, dir, cs[dir].children, cs'[ent].children, hidden, N.Empty)
    && Filled(cs', cst, N.FillChain(Visible(t), lo, lo + 1), N.Roots(Visible(t), lo + 1), cs'[ent].children, ent)
  }

  /** Fill a template below dir: its object, and what is below it. */
  method FillBelow(t: Template, dir: Ent) returns (ent: Ent, ghost os: Objects)
    ensures fresh(ent) && fresh(All(os)) && ent !in All(os) && Separate(os)
    ensures Built(Visible(t), os, ent.children, ent)
    ensures ent.schema == t && ent.parent == dir && ent.value == N.Empty
  {
    ghost var whole, all;
    ent, whole, all := Fill(t, dir);
    os := whole.children;
  }

  /**
   * Fill a template below dir and link it in front of dir's children. _fill also instantiates the
   * template's next siblings; overwriting next drops them, unreachable, as in the source.
   */
  method LinkNew(dir: Ent, t: Template, name: string, hidden: bool, ghost r: set<Ent>, ghost lo: nat)
      returns (ent: Ent, ghost cst: Store)
    requires dir in r
    modifies dir
    ensures fresh(cst.ids.Keys) && fresh(ent) && ent !in cst.ids
    ensures Linked(old(Snap(r)), Snap(r + {ent} + cst.ids.Keys), cst, dir, ent, t, name, hidden, lo)
  {
    ghost var os;
    ent, os := FillBelow(t, dir);
    ghost var all := r + {ent} + All(os);
    ghost var was := Snap(all);
    Enter(ent, dir, name, hidden, all);
    assert Snap(all)[ent].children == was[ent].children == ent.children;
    cst := NumberBuilt(all, Visible(t), os, ent.children, ent, lo, lo + 1);
  }
}
