/** Instantiated templates are trees, and grafting one onto a tree gives a tree. */
module Grafting {
  import opened Schemas
  import opened Namespace

  /** The chain ids below p: ascending numbers of lo..hi, all with parent p. */
  ghost predicate Ascending(f: map<nat, Entry>, ids: seq<nat>, p: nat, lo: nat, hi: nat) {
    && (forall i :: 0 <= i < |ids| ==> lo <= ids[i] < hi && ids[i] in f && f[ids[i]].par == p)
    && (forall i, j :: 0 <= i < j < |ids| ==> ids[i] < ids[j])
  }

  /** Entries numbered lo..hi whose top chain is ids, to be hung under p. */
  ghost predicate Forested(f: map<nat, Entry>, ids: seq<nat>, p: nat, lo: nat, hi: nat) {
    && (forall n {:trigger n in f} :: n in f <==> lo <= n < hi)
    && Ascending(f, ids, p, lo, hi)
    && (forall n {:trigger f[n].kids} :: n in f ==> Ascending(f, f[n].kids, n, n + 1, hi))
    && (forall n {:trigger f[n].par} :: n in f ==> n in ids || (f[n].par in f && n in f[f[n].par].kids))
  }

  lemma ForestedTop(f: map<nat, Entry>, p: nat, id: nat, hi: nat, e: Entry)
    requires id < hi && Forested(f, e.kids, id, id + 1, hi) && e.par == p
    ensures Forested(f[id := e], [id], p, id, hi)
  {
    var g := f[id := e];
    forall n {:trigger g[n].kids} | n in g
      ensures Ascending(g, g[n].kids, n, n + 1, hi)
    {
      if n != id { assert Ascending(f, f[n].kids, n, n + 1, hi); }
    }
    forall n {:trigger g[n].par} | n in g
      ensures n in [id] || (g[n].par in g && n in g[g[n].par].kids)
    {
      if n != id { assert n in e.kids || (f[n].par in f && n in f[f[n].par].kids); }
    }
  }

  lemma ForestedUnion(a: map<nat, Entry>, x: seq<nat>, b: map<nat, Entry>, y: seq<nat>,
                      p: nat, lo: nat, mid: nat, hi: nat)
    requires lo <= mid <= hi
    requires Forested(a, x, p, lo, mid) && Forested(b, y, p, mid, hi)
    ensures Forested(a + b, x + y, p, lo, hi)
  {
    var f := a + b;
    forall n {:trigger f[n].kids} | n in f
      ensures Ascending(f, f[n].kids, n, n + 1, hi)
    {
      if n in b {
        assert Ascending(b, b[n].kids, n, n + 1, hi);
      } else {
        assert Ascending(a, a[n].kids, n, n + 1, mid);
      }
    }
    forall n {:trigger f[n].par} | n in f
      ensures n in x + y || (f[n].par in f && n in f[f[n].par].kids)
    {
      if n in b {
        assert n in y || (b[n].par in b && n in b[b[n].par].kids);
      } else {
        assert n in x || (a[n].par in a && n in a[a[n].par].kids);
      }
    }
  }

  lemma {:induction false} FillOneForested(t: Template, p: nat, id: nat)
    ensures Forested(FillOne(t, p, id), [id], p, id, id + SizeOne(t))
    decreases t, 0
  {
    if t.kind == Subdir {
      FillChainForested(t.children, id, id + 1);
      ForestedTop(FillChain(t.children, id, id + 1), p, id, id + SizeOne(t), NewEntry(t, p, Roots(t.children, id + 1)));
    }
  }

  lemma {:induction false} FillChainForested(c: Forest, p: nat, lo: nat)
    ensures Forested(FillChain(c, p, lo), Roots(c, lo), p, lo, lo + Size(c))
    decreases c, 1
  {
    if c.Node? {
      var mid := lo + SizeOne(c);
      FillOneForested(c, p, lo);
      FillChainForested(c.next, p, mid);
      ForestedUnion(FillOne(c, p, lo), [lo], FillChain(c.next, p, mid), Roots(c.next, mid), p, lo, mid, lo + Size(c));
    }
  }

  lemma AttachOldChain(s: State, p: nat, f: map<nat, Entry>, size: nat, name: string, hidden: bool, n: nat)
    requires Shape(s) && p in s.ents && n in s.ents
    requires size > 0 && Forested(f, [s.nextId], p, s.nextId, s.nextId + size)
    ensures var m := Attach(s, p, f, size, name, hidden).ents; n in m && Chain(m, m[n].kids, n)
  {
    assert Chain(s.ents, s.ents[n].kids, n);
  }

  lemma AttachNewChain(s: State, p: nat, f: map<nat, Entry>, size: nat, name: string, hidden: bool, n: nat)
    requires Shape(s) && p in s.ents && n in f
    requires size > 0 && Forested(f, [s.nextId], p, s.nextId, s.nextId + size)
    ensures var m := Attach(s, p, f, size, name, hidden).ents; n in m && Chain(m, m[n].kids, n)
  {
    assert Ascending(f, f[n].kids, n, n + 1, s.nextId + size);
  }

  lemma AttachParents(s: State, p: nat, f: map<nat, Entry>, size: nat, name: string, hidden: bool, n: nat)
    requires Shape(s) && p in s.ents
    requires size > 0 && Forested(f, [s.nextId], p, s.nextId, s.nextId + size)
    requires (n in s.ents || n in f) && n != ROOT
    ensures var m := Attach(s, p, f, size, name, hidden).ents; m[n].par in m && n in m[m[n].par].kids
  {
    if n in f {
      assert n == s.nextId || (f[n].par in f && n in f[f[n].par].kids);
    } else {
      assert s.ents[n].par in s.ents && n in s.ents[s.ents[n].par].kids;
    }
  }

  lemma AttachShape(s: State, p: nat, f: map<nat, Entry>, size: nat, name: string, hidden: bool)
    requires Shape(s) && p in s.ents
    requires size > 0 && Forested(f, [s.nextId], p, s.nextId, s.nextId + size)
    ensures Shape(Attach(s, p, f, size, name, hidden))
  {
    var m := Attach(s, p, f, size, name, hidden).ents;
    forall n {:trigger m[n].kids} | n in m
      ensures Chain(m, m[n].kids, n)
    {
      if n in f {
        AttachNewChain(s, p, f, size, name, hidden, n);
      } else {
        AttachOldChain(s, p, f, size, name, hidden, n);
      }
    }
    forall n {:trigger m[n].par} | n in m && n != ROOT
      ensures m[n].par in m && n in m[m[n].par].kids
    {
      AttachParents(s, p, f, size, name, hidden, n);
    }
  }

  lemma AttachLevels(s: State, p: nat, f: map<nat, Entry>, size: nat, name: string, hidden: bool,
                     lv: map<nat, nat>, b: nat) returns (lv': map<nat, nat>)
    requires Shape(s) && Leveled(s, lv, b) && p in s.ents
    requires size > 0 && Forested(f, [s.nextId], p, s.nextId, s.nextId + size)
    ensures Leveled(Attach(s, p, f, size, name, hidden), lv', b + 1 + size)
  {
    var id := s.nextId;
    var s' := Attach(s, p, f, size, name, hidden);
    lv' := map n | n in s'.ents :: if n in s.ents then lv[n] else lv[p] + 1 + (n - id);
    forall n {:trigger s'.ents[n].par} | n in s'.ents && n != ROOT
      ensures s'.ents[n].par in s'.ents && lv'[s'.ents[n].par] < lv'[n]
    {
      if n in f && n != id {
        assert f[n].par in f && n in f[f[n].par].kids;
        assert Ascending(f, f[f[n].par].kids, f[n].par, f[n].par + 1, id + size);
      }
    }
  }

  lemma GraftShape(s: State, p: nat, t: Template, name: string, hidden: bool)
    requires Shape(s) && p in s.ents
    ensures Shape(Graft(s, p, t, name, hidden))
  {
    FillOneForested(t, p, s.nextId);
    AttachShape(s, p, FillOne(t, p, s.nextId), SizeOne(t), name, hidden);
  }

  /** Grafting an instance of any template onto a tree gives a tree. */
  lemma GraftTree(s: State, p: nat, t: Template, name: string, hidden: bool)
    requires Tree(s) && p in s.ents
    ensures Tree(Graft(s, p, t, name, hidden))
  {
    GraftShape(s, p, t, name, hidden);
    FillOneForested(t, p, s.nextId);
    var (lv, b) := LevelsOf(s);
    var lv' := AttachLevels(s, p, FillOne(t, p, s.nextId), SizeOne(t), name, hidden, lv, b);
  }

  lemma RootedTree(f: map<nat, Entry>, size: nat, e: Entry)
    requires size > 0 && Forested(f, e.kids, ROOT, 1, size) && e.par == ROOT
    ensures Tree(State(f[ROOT := e], size))
  {
    var s := State(f[ROOT := e], size);
    forall n {:trigger s.ents[n].kids} | n in s.ents
      ensures Chain(s.ents, s.ents[n].kids, n)
    {
      if n != ROOT { assert Ascending(f, f[n].kids, n, n + 1, size); }
    }
    forall n {:trigger s.ents[n].par} | n in s.ents && n != ROOT
      ensures s.ents[n].par in s.ents && n in s.ents[s.ents[n].par].kids && s.ents[n].par < n
    {
      assert n in e.kids || (f[n].par in f && n in f[f[n].par].kids);
      if n !in e.kids { assert Ascending(f, f[f[n].par].kids, f[n].par, f[n].par + 1, size); }
    }
    assert Leveled(s, map n | n in s.ents :: n, size);
  }

  /** The freshly mounted filesystem is a tree. */
  lemma InitialTree(t: Template)
    ensures Tree(Initial(t))
  {
    var s := Initial(t);
    var size := SizeOne(t);
    if t.kind == Subdir {
      FillChainForested(t.children, ROOT, 1);
      RootedTree(FillChain(t.children, ROOT, 1), size, NewEntry(t, ROOT, Roots(t.children, 1)));
    } else {
      assert Leveled(s, map[ROOT := 0], 0);
    }
  }
}
