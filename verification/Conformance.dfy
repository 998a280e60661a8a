/** Entries stay instances of their schema, in runs without rename. */
module Conformance {
  import opened Text
  import opened Schemas
  import opened Namespace
  import opened Grafting
  import opened Relinking
  import opened Creating
  import opened Instantiation
  import opened Operations
  import opened Neatness
  import opened Runs

  /** A directory with the template p may hold an entry with the template t. */
  ghost predicate Admits(p: Template, t: Template) {
    if p.kind == Subdir then OnChain(t, p.children)
    else p.kind == Object && t.kind == Subdir && t.children == p.children
  }

  ghost predicate ConformsAt(s: State, n: nat)
    requires Shape(s) && n in s.ents
  {
    n != ROOT ==> Admits(s.ents[s.ents[n].par].schema, s.ents[n].schema)
  }

  /** Every entry's template is admitted by its parent's. */
  ghost predicate Conforms(s: State) {
    Shape(s) && forall n {:trigger ConformsAt(s, n)} :: n in s.ents ==> ConformsAt(s, n)
  }

  /** In particular only directories have children. */
  lemma ConformsDirsOnly(s: State)
    requires Conforms(s)
    ensures DirsOnly(s)
  {
    forall n | n in s.ents && s.ents[n].kids != []
      ensures IsDir(s.ents[n].schema.kind)
    {
      assert Chain(s.ents, s.ents[n].kids, n);
      assert ConformsAt(s, s.ents[n].kids[0]);
    }
  }

  lemma InstanceConforms(s: State, n: nat)
    requires Shape(s) && n in s.ents && n != ROOT
    requires Instances(s.ents, s.ents[s.ents[n].par].kids, Visible(s.ents[s.ents[n].par].schema))
    ensures ConformsAt(s, n)
  {
    var ids, v := s.ents[s.ents[n].par].kids, Visible(s.ents[s.ents[n].par].schema);
    var k :| 0 <= k < |ids| && ids[k] == n;
    assert Nth(v, k) == s.ents[n].schema;
  }

  lemma InitialConforms(t: Template)
    ensures Conforms(Initial(t))
  {
    var s := Initial(t);
    InitialTree(t);
    InitialInstance(t);
    forall n | n in s.ents
      ensures ConformsAt(s, n)
    {
      if n != ROOT {
        assert Instance(s.ents, n) && Instance(s.ents, s.ents[n].par);
        InstanceConforms(s, n);
      }
    }
  }

  /** Below the top a graft is a plain instance of its template. */
  lemma GraftInside(s: State, p: nat, t: Template, c: string, hidden: bool, n: nat)
    requires Shape(s) && p in s.ents && s.nextId < n < s.nextId + SizeOne(t)
    ensures var g := Graft(s, p, t, c, hidden).ents;
      && n in g && g[n].par in g
      && Instances(g, g[g[n].par].kids, Visible(g[g[n].par].schema))
  {
    var f := FillOne(t, p, s.nextId);
    FillOneForested(t, p, s.nextId);
    FillOneInstance(t, p, s.nextId);
    assert Instance(f, n);
    assert f[n].par in f;
    assert Instance(f, f[n].par);
    GraftTop(s, p, t, c, hidden);
  }

  /** Grafting an admitted template keeps conformance. */
  lemma GraftConforms(s: State, p: nat, t: Template, c: string, hidden: bool)
    requires Conforms(s) && p in s.ents && Admits(s.ents[p].schema, t)
    ensures Conforms(Graft(s, p, t, c, hidden))
  {
    var g := Graft(s, p, t, c, hidden);
    GraftShape(s, p, t, c, hidden);
    forall n | n in g.ents
      ensures ConformsAt(g, n)
    {
      GraftDomain(s, p, t, c, hidden, n);
      GraftEntry(s, p, t, c, hidden, p);
      if n in s.ents {
        assert ConformsAt(s, n);
        GraftEntry(s, p, t, c, hidden, n);
        if n != ROOT { GraftEntry(s, p, t, c, hidden, s.ents[n].par); }
      } else if n != s.nextId {
        GraftInside(s, p, t, c, hidden, n);
        InstanceConforms(g, n);
      }
    }
  }

  lemma MakeStepConforms(s: State, n: nat, c: string)
    requires Conforms(s) && n in s.ents
    ensures Conforms(MakeStep(s, n, c).0)
  {
    if c != "." && c != ".." && Probe(s, s.ents[n].kids, c).Pattern? {
      var x := Probe(s, s.ents[n].kids, c).id;
      assert Chain(s.ents, s.ents[n].kids, n);
      assert ConformsAt(s, x);
      GraftConforms(s, n, s.ents[x].schema, c, false);
    }
  }

  lemma {:induction false} MakeWalkConforms(s: State, n: nat, q: seq<string>)
    requires Conforms(s) && n in s.ents
    ensures Conforms(MakeWalk(s, n, q).0)
    decreases |q|
  {
    if q != [] {
      MakeStepShape(s, n, q[0]);
      MakeStepConforms(s, n, q[0]);
      var (t, m) := MakeStep(s, n, q[0]);
      if m.Some? { MakeWalkConforms(t, m.value, q[1..]); }
    }
  }

  lemma MakeConforms(s: State, path: string)
    requires Conforms(s)
    ensures Conforms(Make(s, ROOT, path).0)
  {
    MakeWalkConforms(s, ROOT, Tokens(path, '/'));
  }

  lemma SetConforms(s: State, n: nat, e: Entry)
    requires Tree(s) && Conforms(s) && n in s.ents
    requires e == s.ents[n].(hidden := e.hidden, value := e.value)
    ensures Conforms(s.(ents := s.ents[n := e]))
  {
    var t := s.(ents := s.ents[n := e]);
    SetTree(s, n, e);
    forall x | x in t.ents
      ensures ConformsAt(t, x)
    {
      assert ConformsAt(s, x);
    }
  }

  lemma CutConforms(s: State, e: nat)
    requires Tree(s) && Conforms(s) && e in s.ents && e != ROOT
    ensures Conforms(Cut(s, e))
  {
    var t := Cut(s, e);
    CutShape(s, e);
    forall x | x in t.ents
      ensures ConformsAt(t, x)
    {
      assert ConformsAt(s, x);
    }
  }

  lemma MkdirConforms(s: State, path: string)
    requires Conforms(s)
    ensures Conforms(Mkdir(s, path).0)
  {
    if Mkdir(s, path).1.Done? {
      var d := Search(s, ROOT, DirName(path)).value;
      var t := MkdirTemplate(s.ents[d].schema, BaseName(path));
      GraftConforms(s, d, t, t.name, NewEntry(t, d, []).hidden);
    }
  }

  /** Every operation but rename keeps every template admitted, whatever names it is given. */
  lemma ApplyConforms(s: State, op: Op, setter: Setter)
    requires Tree(s) && Conforms(s) && Legal(s, op) && !op.OpRename?
    ensures Conforms(Apply(s, op, setter))
  {
    match op
    case OpMkdir(path) => MkdirConforms(s, path);
    case OpRmdir(path) => if Rmdir(s, path).1.Done? { CutConforms(s, Search(s, ROOT, path).value); }
    case OpCreate(path) =>
      MakeTree(s, path);
      MakeConforms(s, path);
      var (t, r) := Make(s, ROOT, path);
      if r.Some? { SetConforms(t, r.value, t.ents[r.value].(hidden := false)); }
    case OpSymlink(target, path) =>
      MakeTree(s, path);
      MakeConforms(s, path);
      var (t, r) := Make(s, ROOT, path);
      if r.Some? { SetConforms(t, r.value, t.ents[r.value].(hidden := false, value := Target(target))); }
    case OpUnlink(path) =>
      var r := Search(s, ROOT, path);
      if r.Some? { SetConforms(s, r.value, s.ents[r.value].(hidden := true, value := Empty)); }
    case OpRename(_, _) =>
    case OpWrite(path, data) =>
      var r := Search(s, ROOT, path);
      if r.Some? {
        var e := s.ents[r.value];
        SetConforms(s, r.value, e.(value := setter(e.schema.kind, e.value, data)));
      }
  }

  lemma MovedConforms(s: State, e: nat, p: nat, name: string)
    requires Conforms(s) && e in s.ents && e != ROOT && p in s.ents && p != e
    ensures Shape(Move(s, e, p, name)) && e in Move(s, e, p, name).ents
    ensures ConformsAt(Move(s, e, p, name), e) <==> Admits(s.ents[p].schema, s.ents[e].schema)
  {
    MoveShape(s, e, p, name);
    MoveEntry(s, e, p, name, e);
    MoveEntry(s, e, p, name, p);
  }

  lemma UnmovedConforms(s: State, e: nat, p: nat, name: string, x: nat)
    requires Conforms(s) && e in s.ents && e != ROOT && p in s.ents && p != e && x in s.ents && x != e
    ensures Shape(Move(s, e, p, name)) && x in Move(s, e, p, name).ents && ConformsAt(Move(s, e, p, name), x)
  {
    assert ConformsAt(s, x);
    MoveShape(s, e, p, name);
    MoveEntry(s, e, p, name, x);
    if x != ROOT { MoveEntry(s, e, p, name, s.ents[x].par); }
  }

  /** A rename keeps it exactly when the new parent admits the entry's template. */
  lemma MoveConformsIff(s: State, e: nat, p: nat, name: string)
    requires Conforms(s) && e in s.ents && e != ROOT && p in s.ents && p != e
    ensures Conforms(Move(s, e, p, name)) <==> Admits(s.ents[p].schema, s.ents[e].schema)
  {
    var t := Move(s, e, p, name);
    MovedConforms(s, e, p, name);
    assert t.ents.Keys == s.ents.Keys;
    forall x | x in s.ents && x != e
      ensures ConformsAt(t, x)
    {
      UnmovedConforms(s, e, p, name, x);
    }
  }

  lemma {:induction false} RunConforms(s: State, ops: seq<Op>, setter: Setter)
    requires Tree(s) && Conforms(s) && LegalRun(s, ops, setter)
    requires forall i :: 0 <= i < |ops| ==> !ops[i].OpRename?
    ensures Conforms(Run(s, ops, setter))
    decreases |ops|
  {
    if ops != [] {
      ApplyTree(s, ops[0], setter);
      ApplyConforms(s, ops[0], setter);
      RunConforms(Apply(s, ops[0], setter), ops[1..], setter);
    }
  }

  /** Every run without rename of a mounted filesystem conforms to its schema. */
  lemma MountedRunConforms(t: Template, ops: seq<Op>, setter: Setter)
    requires Tree(Initial(t)) && LegalRun(Initial(t), ops, setter)
    requires forall i :: 0 <= i < |ops| ==> !ops[i].OpRename?
    ensures Conforms(Run(Initial(t), ops, setter)) && DirsOnly(Run(Initial(t), ops, setter))
  {
    InitialConforms(t);
    RunConforms(Initial(t), ops, setter);
    ConformsDirsOnly(Run(Initial(t), ops, setter));
  }
}
