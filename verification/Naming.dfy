/** Entries keep names their schema allows, in runs without rename. */
module Naming {
  import opened Text
  import opened Schemas
  import opened Globs
  import opened Namespace
  import opened Grafting
  import opened Relinking
  import opened Creating
  import opened Operations
  import opened Neatness
  import opened Runs

  /** Names with no special character but stars, which is all that schema.l lets through. */
  ghost predicate StarryForest(f: Forest) {
    f.Node? ==> Starry(f.name) && StarryForest(f.children) && StarryForest(f.next)
  }

  ghost predicate StarryTemplate(t: Template) { Starry(t.name) && StarryForest(t.children) }

  /** The entry has its template's name or one that the name as a pattern matches. */
  ghost predicate NamedAt(e: Entry) {
    StarryTemplate(e.schema) && Unquoted(e.name) && Takes(e.schema.name, e.name)
  }

  ghost predicate AllNamed(m: map<nat, Entry>) {
    forall n {:trigger NamedAt(m[n])} :: n in m ==> NamedAt(m[n])
  }

  lemma {:induction false} FillOneNamed(t: Template, p: nat, id: nat)
    requires StarryTemplate(t)
    ensures AllNamed(FillOne(t, p, id))
    decreases t, 0
  {
    var m := FillOne(t, p, id);
    if t.kind == Subdir { FillChainNamed(t.children, id, id + 1); }
    forall n | n in m
      ensures NamedAt(m[n])
    {
      if n != id { assert NamedAt(FillChain(t.children, id, id + 1)[n]); }
    }
  }

  lemma {:induction false} FillChainNamed(f: Forest, p: nat, lo: nat)
    requires StarryForest(f)
    ensures AllNamed(FillChain(f, p, lo))
    decreases f, 1
  {
    if f.Node? {
      var a, b := FillOne(f, p, lo), FillChain(f.next, p, lo + SizeOne(f));
      FillOneNamed(f, p, lo);
      FillChainNamed(f.next, p, lo + SizeOne(f));
      forall n | n in a + b
        ensures NamedAt((a + b)[n])
      {
        if n in b { assert NamedAt(b[n]); } else { assert NamedAt(a[n]); }
      }
    }
  }

  lemma GraftNamedAt(s: State, p: nat, t: Template, c: string, hidden: bool, n: nat)
    requires Shape(s) && AllNamed(s.ents) && p in s.ents && StarryTemplate(t)
    requires n in Graft(s, p, t, c, hidden).ents && n != s.nextId
    ensures NamedAt(Graft(s, p, t, c, hidden).ents[n])
  {
    GraftDomain(s, p, t, c, hidden, n);
    if n in s.ents {
      assert NamedAt(s.ents[n]);
      GraftEntry(s, p, t, c, hidden, n);
    } else {
      var f := FillOne(t, p, s.nextId);
      FillOneNamed(t, p, s.nextId);
      FillOneForested(t, p, s.nextId);
      AttachedEntry(s, p, f, SizeOne(t), c, hidden, n);
      assert NamedAt(f[n]);
    }
  }

  /** A new instance keeps it exactly when its name is one the template allows. */
  lemma GraftNamedIff(s: State, p: nat, t: Template, c: string, hidden: bool)
    requires Shape(s) && AllNamed(s.ents) && p in s.ents && StarryTemplate(t)
    ensures AllNamed(Graft(s, p, t, c, hidden).ents) <==> Unquoted(c) && Takes(t.name, c)
  {
    var g := Graft(s, p, t, c, hidden).ents;
    GraftEntry(s, p, t, c, hidden, p);
    assert NamedAt(g[s.nextId]) <==> Unquoted(c) && Takes(t.name, c);
    forall n | n in g && n != s.nextId
      ensures NamedAt(g[n])
    {
      GraftNamedAt(s, p, t, c, hidden, n);
    }
  }

  lemma MakeStepNamed(s: State, n: nat, c: string)
    requires Shape(s) && AllNamed(s.ents) && n in s.ents && Unquoted(c)
    ensures AllNamed(MakeStep(s, n, c).0.ents)
  {
    if Creates(s, n, c) {
      var x := s.ents[Probe(s, s.ents[n].kids, c).id];
      assert NamedAt(x);
      if x.schema.name != x.name { Transitive(x.schema.name, x.name, c); }
      GraftNamedIff(s, n, x.schema, c, false);
    }
  }

  predicate UnquotedWalk(q: seq<string>) {
    forall i :: 0 <= i < |q| ==> Unquoted(q[i])
  }

  lemma {:induction false} MakeWalkNamed(s: State, n: nat, q: seq<string>)
    requires Shape(s) && AllNamed(s.ents) && n in s.ents && UnquotedWalk(q)
    ensures AllNamed(MakeWalk(s, n, q).0.ents)
    decreases |q|
  {
    if q != [] {
      MakeStepShape(s, n, q[0]);
      MakeStepNamed(s, n, q[0]);
      var (t, m) := MakeStep(s, n, q[0]);
      if m.Some? { MakeWalkNamed(t, m.value, q[1..]); }
    }
  }

  lemma SetNamed(m: map<nat, Entry>, n: nat, e: Entry)
    requires AllNamed(m) && n in m && e.schema == m[n].schema && e.name == m[n].name
    ensures AllNamed(m[n := e])
  {
    forall x | x in m
      ensures NamedAt(m[n := e][x])
    {
      assert NamedAt(m[x]);
    }
  }

  lemma CutNamed(s: State, e: nat)
    requires Tree(s) && AllNamed(s.ents) && e in s.ents && e != ROOT
    ensures AllNamed(Cut(s, e).ents)
  {
    var m := Cut(s, e).ents;
    forall n | n in m
      ensures NamedAt(m[n])
    {
      assert NamedAt(s.ents[n]);
      UnlinkChain(s, e, n);
    }
  }

  lemma MkdirTemplateStarry(o: Template, name: string)
    requires StarryTemplate(o) && Starry(name)
    ensures StarryTemplate(MkdirTemplate(o, name)) && MkdirTemplate(o, name).name == name && Unquoted(name)
  {
  }

  lemma MkdirNamed(s: State, path: string)
    requires Shape(s) && AllNamed(s.ents) && Starry(BaseName(path))
    ensures AllNamed(Mkdir(s, path).0.ents)
  {
    if Mkdir(s, path).1.Done? {
      var d := Search(s, ROOT, DirName(path)).value;
      assert NamedAt(s.ents[d]);
      var t := MkdirTemplate(s.ents[d].schema, BaseName(path));
      MkdirTemplateStarry(s.ents[d].schema, BaseName(path));
      GraftNamedIff(s, d, t, t.name, NewEntry(t, d, []).hidden);
    }
  }

  /** Directories are made with starry names, and no path of create and symlink has brackets or backslashes. */
  predicate Gentle(op: Op) {
    match op
    case OpMkdir(path) => Starry(BaseName(path))
    case OpCreate(path) => UnquotedWalk(Tokens(path, '/'))
    case OpSymlink(_, path) => UnquotedWalk(Tokens(path, '/'))
    case OpRename(_, _) => false
    case _ => true
  }

  lemma ApplyNamed(s: State, op: Op, setter: Setter)
    requires Tree(s) && AllNamed(s.ents) && Legal(s, op) && Gentle(op)
    ensures AllNamed(Apply(s, op, setter).ents)
  {
    match op
    case OpMkdir(path) => MkdirNamed(s, path);
    case OpRmdir(path) => if Rmdir(s, path).1.Done? { CutNamed(s, Search(s, ROOT, path).value); }
    case OpCreate(path) =>
      MakeWalkNamed(s, ROOT, Tokens(path, '/'));
      var (t, r) := Make(s, ROOT, path);
      if r.Some? { SetNamed(t.ents, r.value, t.ents[r.value].(hidden := false)); }
    case OpSymlink(target, path) =>
      MakeWalkNamed(s, ROOT, Tokens(path, '/'));
      var (t, r) := Make(s, ROOT, path);
      if r.Some? { SetNamed(t.ents, r.value, t.ents[r.value].(hidden := false, value := Target(target))); }
    case OpUnlink(path) =>
      var r := Search(s, ROOT, path);
      if r.Some? { SetNamed(s.ents, r.value, s.ents[r.value].(hidden := true, value := Empty)); }
    case OpWrite(path, data) =>
      var r := Search(s, ROOT, path);
      if r.Some? {
        var e := s.ents[r.value];
        SetNamed(s.ents, r.value, e.(value := setter(e.schema.kind, e.value, data)));
      }
  }

  /** A rename keeps it exactly when the moved entry's own template allows the new name. */
  lemma MoveNamedIff(s: State, e: nat, p: nat, name: string)
    requires Shape(s) && AllNamed(s.ents) && e in s.ents && e != ROOT && p in s.ents && p != e
    ensures AllNamed(Move(s, e, p, name).ents) <==> Unquoted(name) && Takes(s.ents[e].schema.name, name)
  {
    var m := Move(s, e, p, name).ents;
    assert NamedAt(s.ents[e]);
    MoveEntry(s, e, p, name, e);
    assert NamedAt(m[e]) <==> Unquoted(name) && Takes(s.ents[e].schema.name, name);
    forall n | n in m && n != e
      ensures NamedAt(m[n])
    {
      assert NamedAt(s.ents[n]);
      MoveEntry(s, e, p, name, n);
    }
  }

  lemma {:induction false} RunNamed(s: State, ops: seq<Op>, setter: Setter)
    requires Tree(s) && AllNamed(s.ents) && LegalRun(s, ops, setter)
    requires forall i :: 0 <= i < |ops| ==> Gentle(ops[i])
    ensures AllNamed(Run(s, ops, setter).ents)
    decreases |ops|
  {
    if ops != [] {
      ApplyTree(s, ops[0], setter);
      ApplyNamed(s, ops[0], setter);
      RunNamed(Apply(s, ops[0], setter), ops[1..], setter);
    }
  }

  /** Every such run of a mounted filesystem leaves all names as the schema allows them. */
  lemma MountedRunNamed(t: Template, ops: seq<Op>, setter: Setter)
    requires StarryTemplate(t) && Tree(Initial(t)) && LegalRun(Initial(t), ops, setter)
    requires forall i :: 0 <= i < |ops| ==> Gentle(ops[i])
    ensures AllNamed(Run(Initial(t), ops, setter).ents)
  {
    FillOneNamed(t, ROOT, ROOT);
    RunNamed(Initial(t), ops, setter);
  }
}
