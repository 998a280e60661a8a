/** A freshly filled tree mirrors its schema. */
module Instantiation {
  import opened Wrappers
  import opened Text
  import opened Schemas
  import opened Namespace
  import opened Grafting
  import opened Lookup

  ghost predicate Instances(m: map<nat, Entry>, ids: seq<nat>, f: Forest) {
    |ids| == Len(f) && forall k :: 0 <= k < |ids| ==> ids[k] in m && m[ids[k]].schema == Nth(f, k)
  }

  /** Entry n carries its node's name, and its chain instantiates the node's visible children in order. */
  ghost predicate Instance(m: map<nat, Entry>, n: nat) {
    n in m && var e := m[n];
    && e.name == e.schema.name
    && e.hidden == ('*' in e.schema.name || e.schema.kind == Link)
    && Instances(m, e.kids, Visible(e.schema))
  }

  ghost predicate AllInstances(m: map<nat, Entry>) {
    forall n {:trigger Instance(m, n)} :: n in m ==> Instance(m, n)
  }

  lemma TopInstance(f: map<nat, Entry>, id: nat, e: Entry)
    requires id !in f && AllInstances(f)
    requires e == NewEntry(e.schema, e.par, e.kids) && Instances(f, e.kids, Visible(e.schema))
    ensures AllInstances(f[id := e])
  {
    var m := f[id := e];
    forall n | n in m
      ensures Instance(m, n)
    {
      if n != id { assert Instance(f, n); }
    }
  }

  /** An instantiated chain is the instance of its first node and those of the others. */
  lemma FillSplit(f: Template, p: nat, lo: nat) returns (a: map<nat, Entry>, b: map<nat, Entry>, ids: seq<nat>)
    ensures a == FillOne(f, p, lo) && b == FillChain(f.next, p, lo + SizeOne(f))
    ensures ids == Roots(f.next, lo + SizeOne(f)) && a.Keys !! b.Keys
    ensures FillChain(f, p, lo) == a + b && Roots(f, lo) == [lo] + ids
  {
    a, b, ids := FillOne(f, p, lo), FillChain(f.next, p, lo + SizeOne(f)), Roots(f.next, lo + SizeOne(f));
    FillOneForested(f, p, lo);
    FillChainForested(f.next, p, lo + SizeOne(f));
  }

  lemma ConsInstances(a: map<nat, Entry>, b: map<nat, Entry>, id: nat, ids: seq<nat>, f: Template)
    requires a.Keys !! b.Keys && id in a && a[id].schema == f && Instances(b, ids, f.next)
    ensures Instances(a + b, [id] + ids, f)
  {
    var all := [id] + ids;
    forall k | 0 <= k < |all|
      ensures all[k] in a + b && (a + b)[all[k]].schema == Nth(f, k)
    {
      if k > 0 {
        assert all[k] == ids[k - 1];
        assert ids[k - 1] in b && b[ids[k - 1]].schema == Nth(f.next, k - 1);
      }
    }
  }

  lemma UnionInstance(a: map<nat, Entry>, b: map<nat, Entry>)
    requires a.Keys !! b.Keys
    requires AllInstances(a) && AllInstances(b)
    ensures AllInstances(a + b)
  {
    forall n | n in a + b
      ensures Instance(a + b, n)
    {
      if n in b {
        assert Instance(b, n);
      } else {
        assert Instance(a, n);
      }
    }
  }

  lemma JoinInstances(a: map<nat, Entry>, b: map<nat, Entry>, id: nat, ids: seq<nat>, f: Template)
    requires a.Keys !! b.Keys && id in a && a[id].schema == f && Instances(b, ids, f.next)
    requires AllInstances(a) && AllInstances(b)
    ensures Instances(a + b, [id] + ids, f) && AllInstances(a + b)
  {
    UnionInstance(a, b);
    ConsInstances(a, b, id, ids, f);
  }

  lemma {:induction false} FillOneInstance(t: Template, p: nat, id: nat)
    ensures var m := FillOne(t, p, id); id in m && m[id].schema == t && AllInstances(m)
    decreases t, 0
  {
    var m := FillOne(t, p, id);
    if t.kind == Subdir {
      FillChainInstance(t.children, id, id + 1);
      FillChainForested(t.children, id, id + 1);
      TopInstance(FillChain(t.children, id, id + 1), id, NewEntry(t, p, Roots(t.children, id + 1)));
    }
  }

  lemma {:induction false} FillChainInstance(f: Forest, p: nat, lo: nat)
    ensures var m := FillChain(f, p, lo); Instances(m, Roots(f, lo), f) && AllInstances(m)
    decreases f, 1
  {
    if f.Node? {
      FillOneInstance(f, p, lo);
      FillChainInstance(f.next, p, lo + SizeOne(f));
      var a, b, ids := FillSplit(f, p, lo);
      JoinInstances(a, b, lo, ids, f);
    }
  }

  /** Every entry of a freshly mounted filesystem is an instance of its schema node. */
  lemma InitialInstance(t: Template)
    ensures Initial(t).ents[ROOT].schema == t
    ensures AllInstances(Initial(t).ents)
  {
    if t.kind == Subdir {
      FillChainInstance(t.children, ROOT, 1);
      FillChainForested(t.children, ROOT, 1);
      TopInstance(FillChain(t.children, ROOT, 1), ROOT, NewEntry(t, ROOT, Roots(t.children, 1)));
    }
  }

  // ---------------------------------------------------------------- instantiation commutes with lookup

  lemma {:induction false} FindInstance(s: State, ids: seq<nat>, f: Forest, c: string)
    requires AllInstances(s.ents)
    requires Instances(s.ents, ids, f)
    ensures forall i :: 0 <= i < |ids| ==> ids[i] in s.ents
    ensures match FindNode(f, c)
      case None => FindName(s, ids, c) == None
      case Some(u) => FindName(s, ids, c).Some? && s.ents[FindName(s, ids, c).value].schema == u
  {
    if f.Node? {
      assert Nth(f, 0) == f && Instance(s.ents, ids[0]);
      forall k | 0 <= k < |ids| - 1
        ensures ids[1..][k] in s.ents && s.ents[ids[1..][k]].schema == Nth(f.next, k)
      {
        assert ids[1..][k] == ids[k + 1] && Nth(f, k + 1) == Nth(f.next, k);
      }
      FindInstance(s, ids[1..], f.next, c);
    }
  }

  lemma {:induction false} BareNode(f: Forest, c: string)
    requires LeavesBare(f)
    ensures FindNode(f, c).Some? ==> LeavesBare(FindNode(f, c).value)
  {
    if f.Node? { BareNode(f.next, c); }
  }

  /** One step from an instance finds an entry exactly when its schema has the name and is no OBJECT. */
  lemma StepInstance(s: State, n: nat, c: string)
    requires Shape(s) && n in s.ents && c != ".." && LeavesBare(s.ents[n].schema) && AllInstances(s.ents)
    ensures var t := s.ents[n].schema;
      match SchemaStep(t, c)
      case None => Step(s, n, c) == None
      case Some(u) =>
        if c != "." && t.kind == Object then Step(s, n, c) == None
        else Step(s, n, c).Some? && s.ents[Step(s, n, c).value].schema == u && LeavesBare(u)
  {
    var t := s.ents[n].schema;
    assert Instance(s.ents, n);
    FindInstance(s, s.ents[n].kids, Visible(t), c);
    BareNode(t.children, c);
  }

  /** The walk from an instance finds an entry exactly when its schema has the path above all OBJECTs. */
  lemma {:induction false} ResolveInstance(s: State, n: nat, q: seq<string>)
    requires Shape(s) && n in s.ents && Plain(q) && LeavesBare(s.ents[n].schema)
    requires AllInstances(s.ents)
    ensures var t := s.ents[n].schema;
      if SchemaResolve(t, q).Some? && !BelowObject(t, q)
      then Resolve(s, n, q).Some? && s.ents[Resolve(s, n, q).value].schema == SchemaResolve(t, q).value
      else Resolve(s, n, q) == None
    decreases |q|
  {
    if q != [] {
      StepInstance(s, n, q[0]);
      if Step(s, n, q[0]).Some? {
        ResolveInstance(s, Step(s, n, q[0]).value, q[1..]);
      }
    }
  }

  /**
   * On a freshly mounted filesystem a ".."-free path finds an entry exactly when schema_search finds a
   * node for it without passing below an OBJECT, and then the entry's schema is that node.
   */
  lemma MountMirrorsSchema(t: Template, path: string)
    requires LeavesBare(t) && path != [] && Plain(Tokens(path, '/'))
    ensures Shape(Initial(t))
    ensures var q := Tokens(path, '/');
      if SchemaResolve(t, q).Some? && !BelowObject(t, q)
      then Search(Initial(t), ROOT, path).Some?
        && Initial(t).ents[Search(Initial(t), ROOT, path).value].schema == SchemaResolve(t, q).value
      else Search(Initial(t), ROOT, path) == None
  {
    InitialTree(t);
    InitialInstance(t);
    ResolveInstance(Initial(t), ROOT, Tokens(path, '/'));
    if path[0] != '/' { SpanPositive(path); }
  }
}
