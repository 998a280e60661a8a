/** Moving and cutting subtrees keeps the tree a tree. */
module Relinking {
  import opened Namespace

  lemma NoDupCons(x: nat, ids: seq<nat>)
    requires NoDup(ids) && x !in ids
    ensures NoDup([x] + ids)
  {
  }

  /** Unlinking a chain member leaves exactly the others, in their order. */
  lemma {:induction false} WithoutMembers(ids: seq<nat>, e: nat)
    requires NoDup(ids)
    ensures NoDup(Without(ids, e))
    ensures forall x {:trigger x in Without(ids, e)} {:trigger x in ids} :: x in Without(ids, e) <==> x in ids && x != e
  {
    if ids != [] {
      var rest := ids[1..];
      assert ids == [ids[0]] + rest;
      assert NoDup(rest);
      assert ids[0] !in rest;
      if ids[0] != e {
        WithoutMembers(rest, e);
        NoDupCons(ids[0], Without(rest, e));
      }
    }
  }

  // ---------------------------------------------------------------- ancestry

  lemma {:induction false} UnderRoot(s: State, n: nat)
    requires Tree(s) && n in s.ents
    ensures Under(s, n, ROOT)
    decreases Level(s, n)
  {
    if n != ROOT { UnderRoot(s, s.ents[n].par); }
  }

  lemma {:induction false} UnderTransitive(s: State, a: nat, b: nat, c: nat)
    requires Tree(s) && a in s.ents && b in s.ents
    requires Under(s, a, b) && Under(s, b, c)
    ensures Under(s, a, c)
    decreases Level(s, a)
  {
    if a != b { UnderTransitive(s, s.ents[a].par, b, c); }
  }

  /** A subtree lies strictly deeper than its top. */
  lemma {:induction false} UnderDeeper(s: State, n: nat, top: nat)
    requires Tree(s) && n in s.ents && top in s.ents && Under(s, n, top)
    ensures n == top || Level(s, top) < Level(s, n)
    decreases Level(s, n)
  {
    if n != top { UnderDeeper(s, s.ents[n].par, top); }
  }

  /** Of two subtrees holding a common entry, one contains the other. */
  lemma {:induction false} UnderComparable(s: State, n: nat, a: nat, b: nat)
    requires Tree(s) && n in s.ents && a in s.ents && b in s.ents
    requires Under(s, n, a) && Under(s, n, b)
    ensures Under(s, a, b) || Under(s, b, a)
    decreases Level(s, n)
  {
    if n != a && n != b { UnderComparable(s, s.ents[n].par, a, b); }
  }

  /** Climbing `parent` pointers k times. */
  function Climb(s: State, n: nat, k: nat): nat
    requires Shape(s) && n in s.ents
    decreases k
  {
    if k == 0 then n else Climb(s, s.ents[n].par, k - 1)
  }

  /** In a tree every entry reaches the one root through `parent`. */
  lemma {:induction false} ClimbsToRoot(s: State, n: nat)
    requires Tree(s) && n in s.ents
    ensures exists k: nat :: Climb(s, n, k) == ROOT
    decreases Level(s, n)
  {
    if n == ROOT {
      assert Climb(s, n, 0) == ROOT;
    } else {
      ClimbsToRoot(s, s.ents[n].par);
      var k: nat :| Climb(s, s.ents[n].par, k) == ROOT;
      assert Climb(s, n, k + 1) == ROOT;
    }
  }

  // ---------------------------------------------------------------- moving

  lemma UnlinkChain(s: State, e: nat, n: nat)
    requires Shape(s) && e in s.ents && e != ROOT && n in s.ents
    ensures var m := Unlink(s.ents, e);
      && n in m && NoDup(m[n].kids) && m[n] == s.ents[n].(kids := m[n].kids)
      && forall x {:trigger x in m[n].kids} :: x in m[n].kids <==> x in s.ents[n].kids && x != e
  {
    assert Chain(s.ents, s.ents[n].kids, n);
    WithoutMembers(s.ents[n].kids, e);
    if n != s.ents[e].par {
      assert e !in s.ents[n].kids;
    }
  }

  /** What a move does to each entry. */
  lemma MoveEntry(s: State, e: nat, p: nat, name: string, n: nat)
    requires Shape(s) && e in s.ents && e != ROOT && p in s.ents && p != e && n in s.ents
    ensures var m := Move(s, e, p, name).ents; var u := Unlink(s.ents, e)[n].kids;
      && n in m && m[n].kids == (if n == p then [e] + u else u)
      && m[n] == s.ents[n].(kids := m[n].kids, name := if n == e then name else s.ents[n].name,
                            par := if n == e then p else s.ents[n].par)
  {
  }

  lemma MoveChains(s: State, e: nat, p: nat, name: string, n: nat)
    requires Shape(s) && e in s.ents && e != ROOT && p in s.ents && p != e && n in s.ents
    ensures var m := Move(s, e, p, name).ents; n in m && Chain(m, m[n].kids, n)
  {
    UnlinkChain(s, e, n);
    assert Chain(s.ents, s.ents[n].kids, n);
    var u := Unlink(s.ents, e);
    var m := Move(s, e, p, name).ents;
    var ids := m[n].kids;
    assert ids == if n == p then [e] + u[n].kids else u[n].kids;
    NoDupCons(e, u[n].kids);
    forall i | 0 <= i < |ids|
      ensures ids[i] in m && ids[i] != ROOT && m[ids[i]].par == n
    {
      assert ids[i] == e || ids[i] in u[n].kids;
    }
  }

  lemma MoveParents(s: State, e: nat, p: nat, name: string, n: nat)
    requires Shape(s) && e in s.ents && e != ROOT && p in s.ents && p != e && n in s.ents && n != ROOT
    ensures var m := Move(s, e, p, name).ents; n in m && m[n].par in m && n in m[m[n].par].kids
  {
    if n == e {
      assert Move(s, e, p, name).ents[p].kids[0] == e;
    } else {
      UnlinkChain(s, e, s.ents[n].par);
    }
  }

  lemma MoveShape(s: State, e: nat, p: nat, name: string)
    requires Shape(s) && e in s.ents && e != ROOT && p in s.ents && p != e
    ensures Shape(Move(s, e, p, name))
  {
    var m := Move(s, e, p, name).ents;
    forall n {:trigger m[n].kids} | n in m
      ensures Chain(m, m[n].kids, n)
    {
      MoveChains(s, e, p, name, n);
    }
    forall n {:trigger m[n].par} | n in m && n != ROOT
      ensures m[n].par in m && n in m[m[n].par].kids
    {
      MoveParents(s, e, p, name, n);
    }
  }

  /** sub, closed under parent and child except at its top e, sinks below p. */
  lemma MoveLevels(s: State, e: nat, p: nat, name: string, lv: map<nat, nat>, b: nat, sub: set<nat>)
      returns (lv': map<nat, nat>)
    requires Shape(s) && Leveled(s, lv, b)
    requires e in s.ents && e != ROOT && e in sub && p in s.ents && p !in sub
    requires forall n {:trigger s.ents[n].par} ::
      n in s.ents && n != ROOT && n != e ==> (n in sub <==> s.ents[n].par in sub)
    ensures Leveled(Move(s, e, p, name), lv', b + b + 1)
  {
    var m := Move(s, e, p, name).ents;
    lv' := map n | n in s.ents :: if n in sub then lv[n] + lv[p] + 1 else lv[n];
    forall n {:trigger m[n].par} | n in m && n != ROOT
      ensures m[n].par in m && lv'[m[n].par] < lv'[n]
    {
      assert m[n].par == if n == e then p else s.ents[n].par;
    }
  }

  /** A move outside the moved subtree gives a tree again. */
  lemma MoveTree(s: State, e: nat, p: nat, name: string)
    requires Tree(s) && e in s.ents && e != ROOT && p in s.ents && !Under(s, p, e)
    ensures Tree(Move(s, e, p, name))
  {
    MoveShape(s, e, p, name);
    var (lv, b) := LevelsOf(s);
    var sub := set n | n in s.ents && Under(s, n, e);
    var lv' := MoveLevels(s, e, p, name, lv, b, sub);
  }

  lemma {:induction false} CycleStays(s: State, e: nat, p: nat, name: string, n: nat)
    requires Tree(s) && e in s.ents && e != ROOT && p in s.ents && n in s.ents && Under(s, n, e)
    requires Tree(Move(s, e, p, name))
    ensures Under(Move(s, e, p, name), n, e)
    decreases Level(s, n)
  {
    if n != e { CycleStays(s, e, p, name, s.ents[n].par); }
  }

  /** A move under the entry itself, which the kernel refuses, would not: the parents would form a cycle. */
  lemma MoveIntoItself(s: State, e: nat, p: nat, name: string)
    requires Tree(s) && e in s.ents && e != ROOT && p in s.ents && Under(s, p, e)
    ensures !Tree(Move(s, e, p, name))
  {
    var s' := Move(s, e, p, name);
    if Tree(s') {
      CycleStays(s, e, p, name, p);
      assert s'.ents[e].par == p;
      UnderDeeper(s', p, e);
    }
  }

  // ---------------------------------------------------------------- cutting

  lemma CutShape(s: State, e: nat)
    requires Tree(s) && e in s.ents && e != ROOT
    ensures Shape(Cut(s, e))
  {
    var m := Cut(s, e).ents;
    forall n {:trigger m[n].kids} | n in m
      ensures Chain(m, m[n].kids, n)
    {
      UnlinkChain(s, e, n);
      assert Chain(s.ents, s.ents[n].kids, n);
      var ids := Unlink(s.ents, e)[n].kids;
      forall i | 0 <= i < |ids|
        ensures ids[i] in m && ids[i] != ROOT && m[ids[i]].par == n
      {
        assert ids[i] in ids;
        assert !Under(s, ids[i], e);
      }
    }
    forall n {:trigger m[n].par} | n in m && n != ROOT
      ensures m[n].par in m && n in m[m[n].par].kids
    {
      UnlinkChain(s, e, s.ents[n].par);
    }
  }

  lemma CutTree(s: State, e: nat)
    requires Tree(s) && e in s.ents && e != ROOT
    ensures Tree(Cut(s, e))
  {
    CutShape(s, e);
    var (lv, b) := LevelsOf(s);
    assert Leveled(Cut(s, e), lv, b);
  }
}
