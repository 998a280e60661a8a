/** Sibling names over runs: distinct, and never shadowed by a pattern. */
module Neatness {
  import opened Wrappers
  import opened Schemas
  import opened Globs
  import opened Namespace
  import opened Grafting
  import opened Relinking
  import opened Lookup
  import opened Renaming
  import opened Creating
  import opened Instantiation
  import opened Operations

  /** Templates with ordinary names and, on each chain, no name before one it equals or matches. */
  ghost predicate TidyForest(f: Forest) {
    f.Node? ==>
      && Ordinary(f.name)
      && (forall k: nat :: k < Len(f.next) ==> !Takes(f.name, Nth(f.next, k).name))
      && TidyForest(f.children) && TidyForest(f.next)
  }

  ghost predicate Tidied(m: map<nat, Entry>) {
    forall n {:trigger n in m} :: n in m ==> TidyForest(m[n].schema.children)
  }

  ghost predicate NeatAt(s: State, n: nat)
    requires Shape(s) && n in s.ents
  {
    assert Chain(s.ents, s.ents[n].kids, n);
    && NoShadowChain(s, s.ents[n].kids)
    && (n != ROOT ==> Ordinary(s.ents[n].name))
    && TidyForest(s.ents[n].schema.children)
  }

  /** No pattern precedes a sibling it matches; names are ordinary; the same holds of all templates in use. */
  ghost predicate Neat(s: State) {
    Shape(s) && forall n {:trigger NeatAt(s, n)} :: n in s.ents ==> NeatAt(s, n)
  }

  lemma NoShadowDistinct(s: State, ids: seq<nat>)
    requires (forall i :: 0 <= i < |ids| ==> ids[i] in s.ents) && NoShadowChain(s, ids)
    ensures DistinctNames(s, ids)
  {
  }

  /** A neat filesystem has distinct sibling names and no shadowing pattern. */
  lemma NeatNames(s: State)
    requires Neat(s)
    ensures NoShadow(s) && OrdinaryNames(s) && Unique(s)
  {
    forall n {:trigger s.ents[n].kids} | n in s.ents
      ensures NoShadowChain(s, s.ents[n].kids)
    {
      assert NeatAt(s, n);
    }
    forall n | n in s.ents && n != ROOT
      ensures Ordinary(s.ents[n].name)
    {
      assert NeatAt(s, n);
    }
    forall n {:trigger s.ents[n].kids} | n in s.ents
      ensures DistinctNames(s, s.ents[n].kids)
    {
      assert NeatAt(s, n);
      NoShadowDistinct(s, s.ents[n].kids);
    }
  }

  // ---------------------------------------------------------------- fragments

  lemma {:induction false} FillOneTidied(t: Template, p: nat, id: nat)
    requires TidyForest(t.children)
    ensures Tidied(FillOne(t, p, id))
    decreases t, 0
  {
    if t.kind == Subdir { FillChainTidied(t.children, id, id + 1); }
  }

  lemma {:induction false} FillChainTidied(f: Forest, p: nat, lo: nat)
    requires TidyForest(f)
    ensures Tidied(FillChain(f, p, lo))
    decreases f, 1
  {
    if f.Node? {
      FillOneTidied(f, p, lo);
      FillChainTidied(f.next, p, lo + SizeOne(f));
    }
  }

  lemma {:induction false} TidyNth(f: Forest, i: nat, j: nat)
    requires TidyForest(f) && i < j < Len(f)
    ensures !Takes(Nth(f, i).name, Nth(f, j).name)
  {
    if i > 0 { TidyNth(f.next, i - 1, j - 1); }
  }

  lemma {:induction false} TidyNames(f: Forest, i: nat)
    requires TidyForest(f) && i < Len(f)
    ensures Ordinary(Nth(f, i).name)
  {
    if i > 0 { TidyNames(f.next, i - 1); }
  }

  /** The chain below an instantiated entry is as tidy as its template. */
  lemma InstanceChain(s: State, n: nat)
    requires Instance(s.ents, n) && TidyForest(s.ents[n].schema.children)
    requires forall i :: 0 <= i < |s.ents[n].kids| ==> Instance(s.ents, s.ents[n].kids[i])
    ensures NoShadowChain(s, s.ents[n].kids)
    ensures forall i :: 0 <= i < |s.ents[n].kids| ==> Ordinary(s.ents[s.ents[n].kids[i]].name)
  {
    var v, ids := Visible(s.ents[n].schema), s.ents[n].kids;
    forall i | 0 <= i < |ids|
      ensures s.ents[ids[i]].name == Nth(v, i).name && Ordinary(s.ents[ids[i]].name)
    {
      assert Instance(s.ents, ids[i]);
      TidyNames(v, i);
    }
    forall i, j | 0 <= i < j < |ids|
      ensures !Takes(s.ents[ids[i]].name, s.ents[ids[j]].name)
    {
      TidyNth(v, i, j);
    }
  }

  lemma InitialNeatAt(t: Template, n: nat)
    requires Shape(Initial(t)) && n in Initial(t).ents
    requires AllInstances(Initial(t).ents) && Tidied(Initial(t).ents)
    ensures NeatAt(Initial(t), n)
  {
    var s := Initial(t);
    assert Chain(s.ents, s.ents[n].kids, n);
    InstanceChain(s, n);
    if n != ROOT {
      var p := s.ents[n].par;
      assert Chain(s.ents, s.ents[p].kids, p);
      InstanceChain(s, p);
      assert n in s.ents[p].kids;
    }
  }

  /** A filesystem mounted from a tidy schema is neat. */
  lemma InitialNeat(t: Template)
    requires TidyForest(t.children)
    ensures Neat(Initial(t))
  {
    var s := Initial(t);
    InitialTree(t);
    InitialInstance(t);
    FillOneTidied(t, ROOT, ROOT);
    forall n | n in s.ents
      ensures NeatAt(s, n)
    {
      InitialNeatAt(t, n);
    }
  }

  // ---------------------------------------------------------------- each change keeps neatness

  /** The entries a graft adds, seen in the grafted state. */
  lemma FragmentParent(f: map<nat, Entry>, p: nat, lo: nat, hi: nat, n: nat)
    requires Forested(f, [lo], p, lo, hi) && lo < n < hi
    ensures n in f && lo <= f[n].par < n
  {
    assert f[n].par in f && n in f[f[n].par].kids;
    assert Ascending(f, f[f[n].par].kids, f[n].par, f[n].par + 1, hi);
  }

  lemma InstanceCopied(f: map<nat, Entry>, g: map<nat, Entry>, n: nat)
    requires Instance(f, n) && n in g && g[n] == f[n]
    requires forall i {:trigger f[n].kids[i]} :: 0 <= i < |f[n].kids| ==>
      f[n].kids[i] in g && f[n].kids[i] in f && g[f[n].kids[i]].schema == f[f[n].kids[i]].schema
    ensures Instance(g, n)
  {
  }

  /** In the grafted state the entries below a fragment's top are those of the fragment. */
  lemma AttachedEntry(s: State, p: nat, f: map<nat, Entry>, size: nat, c: string, hidden: bool, n: nat)
    requires p in s.ents && s.nextId in f && n in f
    ensures var g := Attach(s, p, f, size, c, hidden).ents;
      n in g && g[n].schema == f[n].schema && (n != s.nextId ==> g[n] == f[n])
  {
  }

  lemma FragmentKids(f: map<nat, Entry>, p: nat, lo: nat, hi: nat, n: nat, i: nat)
    requires Forested(f, [lo], p, lo, hi) && lo <= n < hi && n in f && i < |f[n].kids|
    ensures f[n].kids[i] in f
  {
    assert Ascending(f, f[n].kids, n, n + 1, hi);
  }

  lemma AttachFragment(s: State, p: nat, f: map<nat, Entry>, size: nat, c: string, hidden: bool, n: nat)
    requires p in s.ents && s.nextId < n < s.nextId + size
    requires Forested(f, [s.nextId], p, s.nextId, s.nextId + size) && Instance(f, n)
    ensures var g := Attach(s, p, f, size, c, hidden).ents;
      n in g && g[n] == f[n] && Instance(g, n)
  {
    AttachedEntry(s, p, f, size, c, hidden, n);
    forall i | 0 <= i < |f[n].kids|
      ensures f[n].kids[i] in f && f[n].kids[i] in Attach(s, p, f, size, c, hidden).ents
      ensures Attach(s, p, f, size, c, hidden).ents[f[n].kids[i]].schema == f[f[n].kids[i]].schema
    {
      FragmentKids(f, p, s.nextId, s.nextId + size, n, i);
      AttachedEntry(s, p, f, size, c, hidden, f[n].kids[i]);
    }
    InstanceCopied(f, Attach(s, p, f, size, c, hidden).ents, n);
  }

  /** A fragment of instances of tidy templates, numbered from lo on. */
  ghost predicate Fragment(f: map<nat, Entry>, p: nat, lo: nat, size: nat) {
    Forested(f, [lo], p, lo, lo + size) && AllInstances(f) && Tidied(f)
  }

  lemma TidyFragment(t: Template, p: nat, lo: nat)
    requires TidyForest(t.children)
    ensures Fragment(FillOne(t, p, lo), p, lo, SizeOne(t))
  {
    FillOneForested(t, p, lo);
    FillOneInstance(t, p, lo);
    FillOneTidied(t, p, lo);
  }

  lemma AttachTidied(s: State, p: nat, f: map<nat, Entry>, size: nat, c: string, hidden: bool, n: nat)
    requires p in s.ents && s.nextId < n < s.nextId + size && Fragment(f, p, s.nextId, size)
    ensures var g := Attach(s, p, f, size, c, hidden).ents;
      n in g && Instance(g, n) && TidyForest(g[n].schema.children) && s.nextId <= g[n].par < n
  {
    FragmentParent(f, p, s.nextId, s.nextId + size, n);
    AttachFragment(s, p, f, size, c, hidden, n);
  }

  lemma GraftFragment(s: State, p: nat, t: Template, c: string, hidden: bool, n: nat)
    requires p in s.ents && n != s.nextId && p < s.nextId
    requires s.nextId < n < s.nextId + SizeOne(t) && TidyForest(t.children)
    ensures var g := Graft(s, p, t, c, hidden).ents;
      && n in g && Instance(g, n) && TidyForest(g[n].schema.children)
      && s.nextId <= g[n].par < n
  {
    TidyFragment(t, p, s.nextId);
    AttachTidied(s, p, FillOne(t, p, s.nextId), SizeOne(t), c, hidden, n);
  }

  lemma GraftTop(s: State, p: nat, t: Template, c: string, hidden: bool)
    requires p in s.ents && p < s.nextId
    ensures var g := Graft(s, p, t, c, hidden).ents;
      && s.nextId in g && g[s.nextId].name == c && g[s.nextId].schema == t && g[s.nextId].par == p
      && Instances(g, g[s.nextId].kids, Visible(t))
      && forall i :: 0 <= i < |g[s.nextId].kids| ==> s.nextId < g[s.nextId].kids[i] < s.nextId + SizeOne(t)
  {
    var f := FillOne(t, p, s.nextId);
    FillOneForested(t, p, s.nextId);
    FillOneInstance(t, p, s.nextId);
    assert Instance(f, s.nextId);
    assert Ascending(f, f[s.nextId].kids, s.nextId, s.nextId + 1, s.nextId + SizeOne(t));
  }

  lemma GraftDomain(s: State, p: nat, t: Template, c: string, hidden: bool, n: nat)
    requires p in s.ents
    ensures n in Graft(s, p, t, c, hidden).ents <==> n in s.ents || s.nextId <= n < s.nextId + SizeOne(t)
  {
    FillOneForested(t, p, s.nextId);
  }

  /** A new entry's chain is as tidy as the template it instantiates. */
  lemma NewChainNeat(g: State, ids: seq<nat>, v: Forest)
    requires Instances(g.ents, ids, v) && TidyForest(v)
    requires forall i :: 0 <= i < |ids| ==> Instance(g.ents, ids[i])
    ensures forall i :: 0 <= i < |ids| ==> ids[i] in g.ents && Ordinary(g.ents[ids[i]].name)
    ensures NoShadowChain(g, ids)
  {
    forall i | 0 <= i < |ids|
      ensures g.ents[ids[i]].name == Nth(v, i).name && Ordinary(g.ents[ids[i]].name)
    {
      assert Instance(g.ents, ids[i]);
      TidyNames(v, i);
    }
    forall i, j | 0 <= i < j < |ids|
      ensures !Takes(g.ents[ids[i]].name, g.ents[ids[j]].name)
    {
      TidyNth(v, i, j);
    }
  }

  lemma GraftKid(s: State, p: nat, t: Template, c: string, hidden: bool, n: nat, i: nat)
    requires Shape(s) && p in s.ents
    requires s.nextId <= n < s.nextId + SizeOne(t)
    requires n in Graft(s, p, t, c, hidden).ents && i < |Graft(s, p, t, c, hidden).ents[n].kids|
    ensures s.nextId < Graft(s, p, t, c, hidden).ents[n].kids[i] < s.nextId + SizeOne(t)
  {
    var f := FillOne(t, p, s.nextId);
    FillOneForested(t, p, s.nextId);
    assert Ascending(f, f[n].kids, n, n + 1, s.nextId + SizeOne(t));
  }

  /** What a graft makes of the chain of any entry it adds. */
  lemma GraftNewChain(s: State, p: nat, t: Template, c: string, hidden: bool, n: nat)
    requires Shape(s) && p in s.ents && TidyForest(t.children)
    requires s.nextId <= n < s.nextId + SizeOne(t)
    ensures var g := Graft(s, p, t, c, hidden);
      && n in g.ents && TidyForest(g.ents[n].schema.children)
      && (forall i :: 0 <= i < |g.ents[n].kids| ==>
            g.ents[n].kids[i] in g.ents && Ordinary(g.ents[g.ents[n].kids[i]].name))
      && NoShadowChain(g, g.ents[n].kids)
  {
    var g := Graft(s, p, t, c, hidden);
    GraftTop(s, p, t, c, hidden);
    if n != s.nextId { GraftFragment(s, p, t, c, hidden, n); }
    var ids := g.ents[n].kids;
    forall i | 0 <= i < |ids|
      ensures Instance(g.ents, ids[i])
    {
      GraftKid(s, p, t, c, hidden, n, i);
      GraftFragment(s, p, t, c, hidden, ids[i]);
    }
    NewChainNeat(g, ids, Visible(g.ents[n].schema));
  }

  lemma GraftTidied(s: State, p: nat, t: Template, c: string, hidden: bool)
    requires Shape(s) && Tidied(s.ents) && p in s.ents && TidyForest(t.children)
    ensures Tidied(Graft(s, p, t, c, hidden).ents)
  {
    var g := Graft(s, p, t, c, hidden).ents;
    forall n | n in g
      ensures TidyForest(g[n].schema.children)
    {
      GraftDomain(s, p, t, c, hidden, n);
      if n in s.ents {
        GraftEntry(s, p, t, c, hidden, n);
      } else {
        GraftNewChain(s, p, t, c, hidden, n);
      }
    }
  }

  lemma GraftNeatNew(s: State, p: nat, t: Template, c: string, hidden: bool, n: nat)
    requires Shape(s) && p in s.ents && TidyForest(t.children) && Ordinary(c)
    requires s.nextId <= n < s.nextId + SizeOne(t)
    ensures Shape(Graft(s, p, t, c, hidden)) && n in Graft(s, p, t, c, hidden).ents
    ensures NeatAt(Graft(s, p, t, c, hidden), n)
  {
    var g := Graft(s, p, t, c, hidden);
    GraftShape(s, p, t, c, hidden);
    GraftNewChain(s, p, t, c, hidden, n);
    GraftTop(s, p, t, c, hidden);
    if n != s.nextId {
      GraftFragment(s, p, t, c, hidden, n);
      var q := g.ents[n].par;
      GraftNewChain(s, p, t, c, hidden, q);
      assert n in g.ents[q].kids;
    }
  }

  lemma FrontNoShadow(s: State, x: nat, ids: seq<nat>)
    requires x in s.ents && (forall i :: 0 <= i < |ids| ==> ids[i] in s.ents) && NoShadowChain(s, ids)
    ensures NoShadowChain(s, [x] + ids) <==> HidesNone(s, ids, s.ents[x].name)
  {
    var all := [x] + ids;
    if NoShadowChain(s, all) {
      forall i | 0 <= i < |ids|
        ensures !Takes(s.ents[x].name, s.ents[ids[i]].name)
      {
        assert all[0] == x && all[i + 1] == ids[i];
      }
    }
  }

  lemma HidesNoneSame(s: State, t: State, ids: seq<nat>, c: string)
    requires forall i :: 0 <= i < |ids| ==>
      ids[i] in s.ents && ids[i] in t.ents && s.ents[ids[i]].name == t.ents[ids[i]].name
    ensures HidesNone(t, ids, c) <==> HidesNone(s, ids, c)
  {
    if HidesNone(s, ids, c) {
      forall i | 0 <= i < |ids|
        ensures !Takes(c, t.ents[ids[i]].name)
      {
        assert !Takes(c, s.ents[ids[i]].name);
      }
    } else {
      var i :| 0 <= i < |ids| && Takes(c, s.ents[ids[i]].name);
      assert Takes(c, t.ents[ids[i]].name);
    }
  }

  lemma GraftNeatOld(s: State, p: nat, t: Template, c: string, hidden: bool, n: nat)
    requires Shape(s) && n in s.ents && NeatAt(s, n) && p in s.ents
    ensures Shape(Graft(s, p, t, c, hidden)) && n in Graft(s, p, t, c, hidden).ents
    ensures NeatAt(Graft(s, p, t, c, hidden), n) <==> n != p || HidesNone(s, s.ents[p].kids, c)
    ensures n == p ==>
      (NoShadowChain(Graft(s, p, t, c, hidden), Graft(s, p, t, c, hidden).ents[p].kids)
       <==> HidesNone(s, s.ents[p].kids, c))
  {
    var g := Graft(s, p, t, c, hidden);
    GraftEntry(s, p, t, c, hidden, n);
    GraftNames(s, p, t, c, hidden, n);
    var ids, prev := g.ents[n].kids, s.ents[n].kids;
    assert Chain(s.ents, prev, n) && Chain(g.ents, ids, n);
    if n == p {
      GraftEntry(s, p, t, c, hidden, p);
      HidesNoneSame(s, g, prev, c);
      FrontNoShadow(g, s.nextId, prev);
    }
  }

  /** Prepending an instance of a tidy template keeps neatness exactly when its name hides no sibling. */
  lemma GraftNeatIff(s: State, p: nat, t: Template, c: string, hidden: bool)
    requires Neat(s) && p in s.ents && TidyForest(t.children) && Ordinary(c)
    ensures Neat(Graft(s, p, t, c, hidden)) <==> HidesNone(s, s.ents[p].kids, c)
  {
    var g := Graft(s, p, t, c, hidden);
    GraftShape(s, p, t, c, hidden);
    assert NeatAt(s, p);
    GraftNeatOld(s, p, t, c, hidden, p);
    if HidesNone(s, s.ents[p].kids, c) {
      forall n | n in g.ents
        ensures NeatAt(g, n)
      {
        GraftDomain(s, p, t, c, hidden, n);
        if n in s.ents {
          assert NeatAt(s, n);
          GraftNeatOld(s, p, t, c, hidden, n);
        } else {
          GraftNeatNew(s, p, t, c, hidden, n);
        }
      }
    }
  }

  /** A name without special characters hides none but its own like. */
  lemma LiteralHidesNone(s: State, ids: seq<nat>, c: string)
    requires (forall i :: 0 <= i < |ids| ==> ids[i] in s.ents) && WithoutSpecial(c)
    ensures HidesNone(s, ids, c) <==> FindName(s, ids, c) == None
  {
    forall i | 0 <= i < |ids|
      ensures Takes(c, s.ents[ids[i]].name) <==> s.ents[ids[i]].name == c
    {
      Literal(c, s.ents[ids[i]].name);
    }
  }

  lemma {:induction false} WithoutNoShadow(s: State, ids: seq<nat>, e: nat)
    requires (forall i :: 0 <= i < |ids| ==> ids[i] in s.ents) && NoShadowChain(s, ids)
    ensures forall i :: 0 <= i < |Without(ids, e)| ==> Without(ids, e)[i] in s.ents
    ensures NoShadowChain(s, Without(ids, e))
  {
    if ids != [] && ids[0] != e {
      WithoutNoShadow(s, ids[1..], e);
      WithoutSubset(ids[1..], e);
      var w := Without(ids[1..], e);
      forall j | 0 <= j < |w|
        ensures w[j] in s.ents && !Takes(s.ents[ids[0]].name, s.ents[w[j]].name)
      {
        assert w[j] in w;
        var k :| 0 <= k < |ids[1..]| && ids[1..][k] == w[j];
        assert ids[k + 1] == w[j];
      }
    }
  }

  /** Under its new name the moved entry hides no other child of p. */
  ghost predicate MovedHidesNone(s: State, e: nat, p: nat, name: string)
    requires p in s.ents
  {
    forall x {:trigger x in s.ents[p].kids} :: x in s.ents[p].kids && x != e && x in s.ents ==>
      !Takes(name, s.ents[x].name)
  }

  lemma MovedHides(s: State, e: nat, p: nat, name: string, u: seq<nat>)
    requires Shape(s) && e in s.ents && e != ROOT && p in s.ents && u == Unlink(s.ents, e)[p].kids
    ensures forall i :: 0 <= i < |u| ==> u[i] in s.ents
    ensures HidesNone(s, u, name) <==> MovedHidesNone(s, e, p, name)
  {
    UnlinkChain(s, e, p);
    assert Chain(s.ents, s.ents[p].kids, p);
    forall i | 0 <= i < |u|
      ensures u[i] in s.ents && u[i] in s.ents[p].kids && u[i] != e
    {
      assert u[i] in u;
    }
    if HidesNone(s, u, name) {
      forall x | x in s.ents[p].kids && x != e && x in s.ents
        ensures !Takes(name, s.ents[x].name)
      {
        assert x in u;
      }
    }
  }

  lemma MoveNeatAt(s: State, e: nat, p: nat, name: string, n: nat)
    requires Shape(s) && n in s.ents && NeatAt(s, n) && Movable(s, e, p, name)
    ensures Shape(Move(s, e, p, name)) && n in Move(s, e, p, name).ents
    ensures NeatAt(Move(s, e, p, name), n) <==> n != p || MovedHidesNone(s, e, p, name)
  {
    var s' := Move(s, e, p, name);
    MoveShape(s, e, p, name);
    var u, prev := Unlink(s.ents, e)[n].kids, s.ents[n].kids;
    UnlinkChain(s, e, n);
    assert Chain(s.ents, prev, n) && Chain(s'.ents, s'.ents[n].kids, n);
    WithoutNoShadow(s, prev, e);
    MoveEntry(s, e, p, name, n);
    MoveEntry(s, e, p, name, e);
    assert u == Without(prev, e) || u == prev;
    forall i | 0 <= i < |u|
      ensures u[i] in s.ents && u[i] in s'.ents && s'.ents[u[i]].name == s.ents[u[i]].name
    {
      assert u[i] in u;
      MoveEntry(s, e, p, name, u[i]);
    }
    assert NoShadowChain(s', u);
    if n == p {
      MovedHides(s, e, p, name, u);
      HidesNoneSame(s, s', u, name);
      FrontNoShadow(s', e, u);
    }
  }

  /** So does a move, exactly when the new name hides none of the other children there. */
  lemma MoveNeatIff(s: State, e: nat, p: nat, name: string)
    requires Neat(s) && Movable(s, e, p, name)
    ensures Neat(Move(s, e, p, name)) <==> MovedHidesNone(s, e, p, name)
  {
    MoveShape(s, e, p, name);
    assert NeatAt(s, p);
    MoveNeatAt(s, e, p, name, p);
    if MovedHidesNone(s, e, p, name) {
      forall n | n in s.ents
        ensures NeatAt(Move(s, e, p, name), n)
      {
        assert NeatAt(s, n);
        MoveNeatAt(s, e, p, name, n);
      }
    }
  }

  lemma CutNeatAt(s: State, e: nat, n: nat)
    requires Tree(s) && e in s.ents && e != ROOT && n in s.ents && NeatAt(s, n)
    requires Shape(Cut(s, e)) && n in Cut(s, e).ents
    ensures NeatAt(Cut(s, e), n)
  {
    var s' := Cut(s, e);
    var ids, prev := s'.ents[n].kids, s.ents[n].kids;
    assert Chain(s.ents, prev, n) && Chain(s'.ents, ids, n);
    WithoutNoShadow(s, prev, e);
    assert ids == Without(prev, e) || ids == prev;
    forall i | 0 <= i < |ids|
      ensures ids[i] in s'.ents && s'.ents[ids[i]].name == s.ents[ids[i]].name
    {
    }
  }

  lemma CutNeat(s: State, e: nat)
    requires Tree(s) && Neat(s) && e in s.ents && e != ROOT
    ensures Neat(Cut(s, e))
  {
    var s' := Cut(s, e);
    CutShape(s, e);
    forall n | n in s'.ents
      ensures NeatAt(s', n)
    {
      assert NeatAt(s, n);
      CutNeatAt(s, e, n);
    }
  }

  lemma SetNeat(s: State, n: nat, e: Entry)
    requires Tree(s) && Neat(s) && n in s.ents
    requires e == s.ents[n].(hidden := e.hidden, value := e.value)
    ensures Neat(s.(ents := s.ents[n := e]))
  {
    var t := s.(ents := s.ents[n := e]);
    SetTree(s, n, e);
    forall x | x in t.ents
      ensures NeatAt(t, x)
    {
      assert NeatAt(s, x);
      assert Chain(s.ents, s.ents[x].kids, x);
    }
  }

  lemma SetNeatIff(s: State, n: nat, e: Entry)
    requires Tree(s) && n in s.ents && e == s.ents[n].(hidden := e.hidden, value := e.value)
    ensures Neat(s.(ents := s.ents[n := e])) <==> Neat(s)
  {
    if Neat(s) { SetNeat(s, n, e); }
    var t := s.(ents := s.ents[n := e]);
    if Neat(t) {
      SetTree(s, n, e);
      SetNeat(t, n, s.ents[n]);
      assert t.ents[n := s.ents[n]] == s.ents;
    }
  }
}
