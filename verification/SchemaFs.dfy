/**
 * schemafs.c on its own pointers: entries are relinked and changed in place. Each method is proved
 * to do to the abstract state what the function of the same name in Operations does.
 */
module SchemaFs {
  import opened Wrappers
  import opened Text
  import opened Schemas
  import opened Globs
  import opened Ents
  import N = Namespace
  import G = Grafting
  import R = Relinking
  import O = Operations
  import F = Freeing

  /** freed lists the objects of ids. */
  ghost predicate Names(st: Store, freed: seq<Ent>, ids: seq<nat>) {
    |freed| == |ids| && forall i :: 0 <= i < |ids| ==> ids[i] in st.obj && freed[i] == st.obj[ids[i]]
  }

  /** All objects of e's subtree carry their entries and chains. */
  ghost predicate SubtreeRep(cs: map<Ent, Cell>, st: Store, s: N.State, e: nat)
    requires N.Tree(s) && e in s.ents
  {
    forall n {:trigger N.Under(s, n, e)} ::
      n in s.ents && N.Under(s, n, e) ==> n in st.obj && NodeRep(cs, st, s.ents, n)
  }

  lemma ReadyToFree(cs: map<Ent, Cell>, st: Store, s: N.State, e: nat)
    requires N.Tree(s) && e in s.ents && e != N.ROOT && Rep(cs, st, N.Unlink(s.ents, e))
    ensures st.obj[e] in cs
    ensures var cs' := cs[st.obj[e] := cs[st.obj[e]].(next := null)];
      SubtreeRep(cs', st, s, e) && ChainRep(cs', st, [e], st.obj[e], cs[st.obj[e]].parent)
  {
    var u := N.Unlink(s.ents, e);
    assert NodeRep(cs, st, u, e);
    var cs' := cs[st.obj[e] := cs[st.obj[e]].(next := null)];
    forall n | n in s.ents && N.Under(s, n, e)
      ensures n in st.obj && NodeRep(cs', st, s.ents, n)
    {
      assert NodeRep(cs, st, u, n);
      R.UnlinkChain(s, e, n);
      if n == s.ents[e].par { R.UnderDeeper(s, n, e); }
      var kids := s.ents[n].kids;
      assert N.Chain(s.ents, kids, n);
      forall i | 0 <= i < |kids| && kids[i] in st.obj
        ensures st.obj[kids[i]] != st.obj[e]
      {
        assert st.ids[st.obj[kids[i]]] == kids[i] && st.ids[st.obj[e]] == e;
      }
      ChainKept(cs, st, cs', st, kids, cs[st.obj[n]].children, st.obj[n]);
    }
  }

  lemma NamesJoin(st: Store, a: seq<Ent>, b: seq<Ent>, x: seq<nat>, y: seq<nat>)
    requires Names(st, a, x) && Names(st, b, y)
    ensures Names(st, a + b, x + y)
  {
  }

  /** schemafs_free: the rest of the sibling chain, then the children of a directory, then the entry. */
  method Free(ent: Ent, ghost chain: seq<nat>, ghost st: Store, ghost s: N.State, ghost e: nat,
              ghost parent: Ent?, ghost room: nat)
      returns (freed: seq<Ent>)
    requires N.Tree(s) && e in s.ents && SubtreeRep(Snap(st.ids.Keys), st, s, e)
    requires forall i :: 0 <= i < |chain| ==>
      chain[i] in s.ents && N.Under(s, chain[i], e) && F.Room(s, chain[i]) < room
    requires ChainRep(Snap(st.ids.Keys), st, chain, ent, parent)
    ensures Names(st, freed, F.FreeSeq(s, chain))
    decreases room, |chain|, 1
  {
    freed := [];
    if ent.next != null {
      freed := Free(ent.next, chain[1..], st, s, e, parent, room);
    } else {
      assert chain[1..] == [];
    }
    var own := FreeOne(ent, chain[0], st, s, e, room, |chain|);
    NamesJoin(st, freed, own, F.FreeSeq(s, chain[1..]), F.FreeEntry(s, chain[0]));
    freed := freed + own;
  }

  /** The children of a directory, then the entry. */
  method FreeOne(ent: Ent, ghost c: nat, ghost st: Store, ghost s: N.State, ghost e: nat, ghost room: nat, ghost n: nat)
      returns (freed: seq<Ent>)
    requires N.Tree(s) && e in s.ents && SubtreeRep(Snap(st.ids.Keys), st, s, e)
    requires c in s.ents && N.Under(s, c, e) && F.Room(s, c) < room && c in st.obj && ent == st.obj[c] && ent in st.ids
    ensures Names(st, freed, F.FreeEntry(s, c))
    decreases room, n, 0
  {
    freed := [];
    if IsDir(ent.schema.kind) {
      ghost var kids := s.ents[c].kids;
      F.FreeKidsIsSeq(s, c, 0);
      assert kids[0..] == kids;
      if ent.children != null {
        forall i | 0 <= i < |kids|
          ensures kids[i] in s.ents && N.Under(s, kids[i], e) && F.Room(s, kids[i]) < F.Room(s, c)
        {
          F.KidRoom(s, c, i);
        }
        freed := Free(ent.children, kids, st, s, e, ent, F.Room(s, c));
      }
    }
    freed := freed + [ent];
  }

  /** The call of schemafs_free in _rmdir: the entry's next is cleared first. */
  method FreeAll(ent: Ent, ghost st: Store, ghost s: N.State, ghost e: nat, ghost keep: set<Ent>)
      returns (freed: seq<Ent>)
    requires N.Tree(s) && e in s.ents && e != N.ROOT && Rep(Snap(st.ids.Keys), st, N.Unlink(s.ents, e))
    requires st.obj[e] == ent && ent in st.ids && ent !in keep
    modifies ent`next
    ensures Names(st, freed, F.FreeEntry(s, e)) && Snap(keep) == old(Snap(keep))
  {
    ghost var was := Snap(st.ids.Keys);
    StoreNext(ent, null, st.ids.Keys);
    ReadyToFree(was, st, s, e);
    assert F.FreeSeq(s, [e]) == F.FreeEntry(s, e);
    freed := Free(ent, [e], st, s, e, ent.parent, F.Room(s, e) + 1);
  }

  /** The objects cs, reachable from root, represent the tree s. */
  ghost predicate Represents(cs: map<Ent, Cell>, st: Store, s: N.State, root: Ent) {
    match st
    case Store(obj, _) =>
      && N.Tree(s) && Rep(cs, st, s.ents)
      && obj[N.ROOT] == root && root in cs && cs[root].parent == null
  }

  /** The store and the state once e's subtree is dropped. */
  lemma Dropped(cs: map<Ent, Cell>, cs': map<Ent, Cell>, st: Store, s: N.State, root: Ent, e: nat)
      returns (st': Store, s': N.State)
    requires N.Tree(s) && e in s.ents && e != N.ROOT && Rep(cs, st, N.Unlink(s.ents, e))
    requires st.obj[N.ROOT] == root && root in cs && cs[root].parent == null
    requires forall o {:trigger cs[o]} :: o in Cutoff(st, s, e).ids && o in cs ==> o in cs' && cs'[o] == cs[o]
    ensures s' == N.Cut(s, e) && st' == Cutoff(st, s, e) && Represents(cs', st', s', root)
  {
    st', s' := Cutoff(st, s, e), N.Cut(s, e);
    CutRep(cs, cs', st, s, e);
    R.CutTree(s, e);
    assert NodeRep(cs', st', s'.ents, N.ROOT);
  }

  /** The objects and the state after an unlinked entry was linked elsewhere. */
  lemma Moved(cs: map<Ent, Cell>, st: Store, s: N.State, root: Ent, e: nat, p: nat, name: string)
      returns (cs': map<Ent, Cell>, s': N.State)
    requires N.Tree(s) && e in s.ents && e != N.ROOT && p in s.ents && !N.Under(s, p, e)
    requires Rep(cs, st, N.Unlink(s.ents, e)) && st.obj[N.ROOT] == root && root in cs && cs[root].parent == null
    ensures st.obj[e] in cs && st.obj[p] in cs
    ensures cs' == cs[st.obj[e] := cs[st.obj[e]].(name := name, parent := st.obj[p], next := cs[st.obj[p]].children)]
                     [st.obj[p] := cs[st.obj[p]].(children := st.obj[e])]
    ensures s' == N.Move(s, e, p, name) && Represents(cs', st, s', root)
  {
    assert NodeRep(cs, st, N.Unlink(s.ents, e), e) && NodeRep(cs, st, N.Unlink(s.ents, e), p);
    assert st.ids[st.obj[e]] == e && st.ids[st.obj[p]] == p && st.ids[root] == N.ROOT;
    cs' := cs[st.obj[e] := cs[st.obj[e]].(name := name, parent := st.obj[p], next := cs[st.obj[p]].children)]
             [st.obj[p] := cs[st.obj[p]].(children := st.obj[e])];
    s' := N.Move(s, e, p, name);
    MoveRep(cs, cs', st, s, e, p, name);
    R.MoveTree(s, e, p, name);
  }

  lemma SkippedFirst(cs: map<Ent, Cell>, st: Store, s: N.State, e: nat, o: nat) returns (cs': map<Ent, Cell>)
    requires N.Shape(s) && Rep(cs, st, s.ents) && e in s.ents && e != N.ROOT && o == s.ents[e].par && o in st.obj
    requires st.obj[o] in cs && st.obj[e] in cs && cs[st.obj[o]].children == st.obj[e]
    ensures cs' == cs[st.obj[o] := cs[st.obj[o]].(children := cs[st.obj[e]].next)]
    ensures Rep(cs', st, N.Unlink(s.ents, e))
  {
    cs' := cs[st.obj[o] := cs[st.obj[o]].(children := cs[st.obj[e]].next)];
    UnlinkRep(cs, cs', st, s, e);
  }

  lemma SkippedLater(cs: map<Ent, Cell>, st: Store, s: N.State, e: nat, o: nat, k: nat) returns (cs': map<Ent, Cell>)
    requires N.Shape(s) && Rep(cs, st, s.ents) && e in s.ents && e != N.ROOT && o == s.ents[e].par && o in st.obj
    requires st.obj[o] in cs && st.obj[e] in cs && cs[st.obj[o]].children != st.obj[e]
    requires var kids := s.ents[o].kids;
      k + 1 < |kids| && kids[k + 1] == e && kids[k] in st.obj && st.obj[kids[k]] in cs
    ensures cs' == cs[st.obj[s.ents[o].kids[k]] := cs[st.obj[s.ents[o].kids[k]]].(next := cs[st.obj[e]].next)]
    ensures Rep(cs', st, N.Unlink(s.ents, e))
  {
    cs' := cs[st.obj[s.ents[o].kids[k]] := cs[st.obj[s.ents[o].kids[k]]].(next := cs[st.obj[e]].next)];
    UnlinkRep(cs, cs', st, s, e);
  }

  /** The store after a new instance was linked: the old objects under their numbers, and new ones. */
  lemma GraftedStore(s: N.State, t: Template, st: Store, ent: Ent, cst: Store) returns (st': Store)
    requires N.Shape(s) && Numbered(st) && st.obj.Keys == s.ents.Keys
    requires Numbered(cst) && cst.obj.Keys == N.FillChain(Visible(t), s.nextId, s.nextId + 1).Keys
    requires ent !in cst.ids && ent !in st.ids && cst.ids.Keys !! st.ids.Keys
    ensures st' == Join(cst, s.nextId, ent, st)
    ensures Extends(st, st') && st'.ids.Keys == st.ids.Keys + {ent} + cst.ids.Keys
    ensures s.nextId in st'.obj && st'.obj[s.nextId] == ent
  {
    st' := Join(cst, s.nextId, ent, st);
    BelowKeys(s, t, N.FillChain(Visible(t), s.nextId, s.nextId + 1));
    G.FillChainForested(Visible(t), s.nextId, s.nextId + 1);
    JoinNumbered(cst, s.nextId, ent, st);
    JoinKeys(cst, s.nextId, ent, st);
  }

  /** The store and the state after a new instance was linked. */
  lemma Grafted(cs: map<Ent, Cell>, cs': map<Ent, Cell>, st: Store, s: N.State, root: Ent, p: nat, t: Template,
                name: string, hidden: bool, ent: Ent, cst: Store) returns (st': Store, s': N.State)
    requires Represents(cs, st, s, root) && p in s.ents
    requires Linked(cs, cs', cst, st.obj[p], ent, t, name, hidden, s.nextId)
    requires ent !in cst.ids && ent !in st.ids && cst.ids.Keys !! st.ids.Keys
    ensures s' == N.Graft(s, p, t, name, hidden) && Represents(cs', st', s', root)
    ensures st'.ids.Keys == st.ids.Keys + {ent} + cst.ids.Keys
    ensures s.nextId in st'.obj && st'.obj[s.nextId] == ent
  {
    st' := GraftedStore(s, t, st, ent, cst);
    s' := N.Graft(s, p, t, name, hidden);
    GraftRep(cs, cs', st, s, p, t, name, hidden, ent, cst);
    G.GraftTree(s, p, t, name, hidden);
  }

  /** Instantiate a template in front of dir's children. */
  method InstantiateIn(dir: Ent, t: Template, name: string, hidden: bool,
                       ghost st: Store, ghost s: N.State, ghost root: Ent, ghost p: nat)
      returns (ent: Ent, ghost now: map<Ent, Cell>, ghost st': Store, ghost s': N.State)
    requires Represents(Snap(st.ids.Keys), st, s, root) && p in s.ents && st.obj[p] == dir
    modifies dir
    ensures s' == N.Graft(s, p, t, name, hidden)
    ensures now == Snap(st'.ids.Keys) && Represents(now, st', s', root)
    ensures s.nextId in st'.obj && ent == st'.obj[s.nextId] && fresh(st'.ids.Keys - st.ids.Keys)
  {
    ghost var was := Snap(st.ids.Keys);
    ghost var cst;
    ent, cst := LinkNew(dir, t, name, hidden, st.ids.Keys, s.nextId);
    ghost var all := st.ids.Keys + {ent} + cst.ids.Keys;
    assert fresh(all - st.ids.Keys) by { assert all - st.ids.Keys == {ent} + cst.ids.Keys; }
    now := Snap(all);
    st', s' := Grafted(was, now, st, s, root, p, t, name, hidden, ent, cst);
    assert st'.ids.Keys == all;
  }

  /** The objects and the state after one entry's attributes changed. */
  lemma AttributesChanged(cs: map<Ent, Cell>, st: Store, s: N.State, root: Ent, n: nat, hidden: bool, value: N.Value)
      returns (cs': map<Ent, Cell>, s': N.State)
    requires Represents(cs, st, s, root) && n in s.ents
    ensures st.obj[n] in cs && cs' == cs[st.obj[n] := cs[st.obj[n]].(hidden := hidden, value := value)]
    ensures s' == s.(ents := s.ents[n := s.ents[n].(hidden := hidden, value := value)])
    ensures Represents(cs', st, s', root)
  {
    AttributesSet(cs, st, s.ents, n, hidden, value);
    O.SetTree(s, n, s.ents[n].(hidden := hidden, value := value));
    cs' := cs[st.obj[n] := cs[st.obj[n]].(hidden := hidden, value := value)];
    s' := s.(ents := s.ents[n := s.ents[n].(hidden := hidden, value := value)]);
  }

  /** Each object's next is the one after it. */
  ghost predicate Linear(row: seq<Ent>)
    reads row
  {
    forall j :: 0 <= j < |row| - 1 ==> row[j].next == row[j + 1]
  }

  /** The loop of _rename and _rmdir that looks for the object whose next is ent. */
  method InFront(ent: Ent, first: Ent, ghost row: seq<Ent>) returns (cur: Ent)
    requires |row| > 1 && row[0] == first && row[|row| - 1] == ent && Linear(row)
    requires forall j :: 0 <= j < |row| - 1 ==> row[j] != ent
    ensures cur == row[|row| - 2]
  {
    cur := first;
    ghost var k := 0;
    while cur.next != ent
      invariant k + 1 < |row| && cur == row[k] && cur.next == row[k + 1]
      decreases |row| - k
    {
      cur := cur.next;
      k := k + 1;
    }
  }

  /** What _fill builds of the parsed schema represents the initial state. */
  lemma Mounted(cs: map<Ent, Cell>, st: Store, schema: Template, head: Ent?)
    requires schema.next.Nil?
    requires Filled(cs, st, N.FillChain(schema, N.ROOT, N.ROOT), N.Roots(schema, N.ROOT), head, null)
    ensures head != null && Represents(cs, st, N.Initial(schema), head)
  {
    G.InitialTree(schema);
    assert N.FillChain(schema, N.ROOT, N.ROOT) == N.Initial(schema).ents;
    assert N.Roots(schema, N.ROOT)[0] == N.ROOT;
  }

  class Mount {
    /** fuse_get_context()->private_data */
    const root: Ent
    ghost var s: N.State
    ghost var st: Store

    /** What the objects of the tree hold now. */
    ghost function Cells(): map<Ent, Cell>
      reads this, st.ids.Keys
    {
      Snap(st.ids.Keys)
    }

    /** The objects reachable from root represent the tree s. */
    ghost predicate Valid()
      reads this, st.ids.Keys
    {
      Represents(Cells(), st, s, root)
    }

    /** _init: the parsed schema is one root node without siblings. */
    constructor (schema: Template)
      requires schema.next.Nil?
      ensures Valid() && s == N.Initial(schema) && fresh(st.ids.Keys)
    {
      var head, os, all := Fill(schema, null);
      ghost var store := NumberBuilt(all, schema, os, head, null, N.ROOT, N.ROOT);
      root := head;
      s := N.Initial(schema);
      st := store;
      Mounted(Snap(all), store, schema, head);
      new;
    }

    /** The object of an entry, null for none. */
    ghost function Ref(o: Option<nat>): Ent?
      reads this
    {
      if o.Some? && o.value in st.obj then st.obj[o.value] else null
    }

    lemma NodeAt(ent: Ent) returns (n: nat)
      requires Valid() && ent in st.ids
      ensures n == st.ids[ent] && n in s.ents && st.obj[n] == ent && NodeRep(Cells(), st, s.ents, n)
      ensures ent.name == s.ents[n].name && ent.schema == s.ents[n].schema && ent.hidden == s.ents[n].hidden
      ensures ChainRep(Cells(), st, s.ents[n].kids, ent.children, ent)
      ensures if n == N.ROOT then ent == root && ent.parent == null
              else s.ents[n].par in s.ents && ent.parent == st.obj[s.ents[n].par] && ent.parent in st.ids
    {
      n := st.ids[ent];
      assert NodeRep(Cells(), st, s.ents, n);
      if n != N.ROOT {
        var p := s.ents[n].par;
        assert NodeRep(Cells(), st, s.ents, p);
        var i :| 0 <= i < |s.ents[p].kids| && s.ents[p].kids[i] == n;
        ChainLinks(Cells(), st, s.ents[p].kids, st.obj[p].children, st.obj[p], i);
      }
    }

    /** The walk along a sibling chain for a name. */
    method FindChild(dir: Ent, tok: string) returns (r: Ent?)
      requires Valid() && dir in st.ids
      ensures forall i :: 0 <= i < |s.ents[st.ids[dir]].kids| ==> s.ents[st.ids[dir]].kids[i] in s.ents
      ensures r == Ref(N.FindName(s, s.ents[st.ids[dir]].kids, tok))
    {
      ghost var n := NodeAt(dir);
      ghost var kids := s.ents[n].kids;
      assert N.Chain(s.ents, kids, n);
      ghost var k := 0;
      r := dir.children;
      assert kids[0..] == kids;
      while r != null
        invariant k <= |kids| && ChainRep(Cells(), st, kids[k..], r, dir)
        invariant N.FindName(s, kids[k..], tok) == N.FindName(s, kids, tok)
        decreases |kids| - k
      {
        ghost var c := kids[k];
        assert kids[k..][0] == c && kids[k..][1..] == kids[k + 1..];
        assert NodeRep(Cells(), st, s.ents, c);
        if r.name == tok {
          return;
        }
        r := r.next;
        k := k + 1;
      }
    }

    /** One turn of the loop in schemafs_search. */
    method StepTo(ent: Ent, tok: string) returns (r: Ent?)
      requires Valid() && ent in st.ids
      ensures st.ids[ent] in s.ents
      ensures r == Ref(N.Step(s, st.ids[ent], tok))
    {
      ghost var n := NodeAt(ent);
      r := ent;
      if tok == ".." {
        if ent.parent != null {
          r := ent.parent;
        }
      } else if tok != "." {
        r := FindChild(ent, tok);
      }
    }

    /** The climb to the root for a path without a leading slash. */
    method Climb(start: Ent) returns (r: Ent)
      requires Valid() && start in st.ids
      ensures r == root
    {
      r := start;
      ghost var n := NodeAt(start);
      while r.parent != null
        invariant r in st.ids && n == st.ids[r] && n in s.ents
        decreases N.Level(s, n)
      {
        ghost var m := NodeAt(r);
        r := r.parent;
        n := s.ents[m].par;
      }
      n := NodeAt(r);
    }

    /** schemafs_search */
    method Search(start: Ent, path: string) returns (r: Ent?)
      requires Valid() && start in st.ids
      ensures st.ids[start] in s.ents
      ensures r == Ref(N.Search(s, st.ids[start], path))
    {
      var toks := Tokens(path, '/');
      ghost var n := st.ids[start];
      if toks == [] && (path == [] || path[0] != '/') {
        return null;
      }
      r := start;
      if path[0] != '/' {
        r := Climb(start);
        n := N.ROOT;
      }
      ghost var goal := N.Resolve(s, n, toks);
      var i := 0;
      assert toks[0..] == toks;
      while i < |toks|
        invariant i <= |toks| && r in st.ids && n == st.ids[r] && n in s.ents
        invariant N.Resolve(s, n, toks[i..]) == goal
      {
        assert toks[i..][0] == toks[i] && toks[i..][1..] == toks[i + 1..];
        r := StepTo(r, toks[i]);
        if r == null {
          return;
        }
        n := st.ids[r];
        i := i + 1;
      }
    }

    /** Take note of the state the objects now represent. */
    ghost method Become(next: Store, t: N.State)
      requires Represents(Snap(next.ids.Keys), next, t, root)
      modifies this`s, this`st
      ensures Valid() && s == t && st == next
    {
      ghost var cells := Snap(next.ids.Keys);
      st, s := next, t;
      assert Cells() == cells;
    }

    // -------------------------------------------------------------- instantiating

    /** Instantiate a template in front of dir's children. */
    method Instantiate(dir: Ent, t: Template, name: string, hidden: bool, ghost p: nat) returns (ent: Ent)
      requires Valid() && p in s.ents && st.obj[p] == dir
      modifies this, dir
      ensures Valid() && s == N.Graft(old(s), p, t, name, hidden)
      ensures old(s).nextId in st.obj && ent == st.obj[old(s).nextId]
      ensures forall o {:trigger o in st.ids} :: o in st.ids ==> o in old(st.ids) || fresh(o)
    {
      ghost var now, next, u;
      ent, now, next, u := InstantiateIn(dir, t, name, hidden, st, s, root, p);
      Become(next, u);
    }

    // -------------------------------------------------------------- find or create

    /** The scan of schemafs_fnmatch along a sibling chain: by name, else as a pattern. */
    method Scan(dir: Ent, tok: string, ghost n: nat) returns (hit: Ent?, exact: bool)
      requires Valid() && n in s.ents && st.obj[n] == dir
      ensures forall i :: 0 <= i < |s.ents[n].kids| ==> s.ents[n].kids[i] in s.ents
      ensures match N.Probe(s, s.ents[n].kids, tok)
        case Miss => hit == null
        case Found(x) => hit == Ref(Some(x)) && hit in st.ids && exact
        case Pattern(x) => hit == Ref(Some(x)) && hit in st.ids && !exact
    {
      ghost var m := NodeAt(dir);
      ghost var kids := s.ents[n].kids;
      assert N.Chain(s.ents, kids, n);
      ghost var k := 0;
      hit, exact := dir.children, false;
      assert kids[0..] == kids;
      while hit != null
        invariant k <= |kids| && ChainRep(Cells(), st, kids[k..], hit, dir)
        invariant N.Probe(s, kids[k..], tok) == N.Probe(s, kids, tok)
        decreases |kids| - k
      {
        assert kids[k..][0] == kids[k] && kids[k..][1..] == kids[k + 1..];
        assert NodeRep(Cells(), st, s.ents, kids[k]);
        if hit.name == tok {
          exact := true;
          return;
        }
        if FnMatch(hit.name, tok) {
          return;
        }
        hit := hit.next;
        k := k + 1;
      }
    }

    /** One turn of the loop in schemafs_fnmatch. */
    method MakeStepTo(ent: Ent, tok: string, ghost n: nat) returns (r: Ent?)
      requires Valid() && n in s.ents && st.obj[n] == ent
      modifies this, ent
      ensures Valid() && s == N.MakeStep(old(s), n, tok).0
      ensures r == Ref(N.MakeStep(old(s), n, tok).1)
      ensures forall o {:trigger o in st.ids} :: o in st.ids ==> o in old(st.ids) || fresh(o)
    {
      ghost var m := NodeAt(ent);
      r := ent;
      if tok == ".." {
        if ent.parent != null {
          r := ent.parent;
        }
      } else if tok != "." {
        var exact;
        r, exact := Scan(ent, tok, n);
        if r != null && !exact {
          ghost var x := NodeAt(r);
          r := Instantiate(ent, r.schema, tok, false, n);
        }
      }
    }

    /** Its loop over the components. */
    method MakeFrom(start: Ent, toks: seq<string>, ghost first: nat) returns (r: Ent?)
      requires Valid() && first in s.ents && start == st.obj[first]
      modifies this, st.ids.Keys
      ensures Valid() && s == O.MakeWalk(old(s), first, toks).0
      ensures r == Ref(O.MakeWalk(old(s), first, toks).1)
      ensures forall o {:trigger o in st.ids} :: o in st.ids ==> o in old(st.ids) || fresh(o)
    {
      ghost var n, goal := first, O.MakeWalk(s, first, toks);
      r := start;
      var i := 0;
      assert toks[0..] == toks;
      while i < |toks|
        invariant i <= |toks| && Valid() && n in s.ents && r == st.obj[n]
        invariant O.MakeWalk(s, n, toks[i..]) == goal
        invariant forall o {:trigger o in st.ids} :: o in st.ids ==> o in old(st.ids) || fresh(o)
      {
        ghost var m := O.MakeWalkOnward(s, n, toks, i);
        r := MakeStepTo(r, toks[i], n);
        if r == null {
          return;
        }
        n := m.value;
        i := i + 1;
      }
    }

    /** schemafs_fnmatch with create=1 */
    method Make(start: Ent, path: string) returns (r: Ent?)
      requires Valid() && start in st.ids
      modifies this, st.ids.Keys
      ensures Valid() && old(st.ids)[start] in old(s).ents && s == O.Make(old(s), old(st.ids)[start], path).0
      ensures r == Ref(O.Make(old(s), old(st.ids)[start], path).1)
      ensures forall o {:trigger o in st.ids} :: o in st.ids ==> o in old(st.ids) || fresh(o)
    {
      var toks := Tokens(path, '/');
      ghost var n := NodeAt(start);
      if toks == [] && (path == [] || path[0] != '/') {
        return null;
      }
      r := start;
      if path[0] != '/' {
        r := Climb(start);
        n := N.ROOT;
      }
      r := MakeFrom(r, toks, n);
    }

    // -------------------------------------------------------------- the FUSE operations

    /** _mkdir in a directory where it is allowed. */
    method MkdirIn(ent: Ent, base: string, ghost n: nat) returns (r: O.Outcome)
      requires Valid() && n in s.ents && st.obj[n] == ent
      modifies this, ent
      ensures Valid()
      ensures var t := O.MkdirTemplate(old(s).ents[n].schema, base);
        (s, r) == if N.Search(old(s), n, base).Some? then (old(s), O.Failed(O.EEXIST))
                  else (N.Graft(old(s), n, t, t.name, N.NewEntry(t, n, []).hidden), O.Done)
      ensures forall o {:trigger o in st.ids} :: o in st.ids ==> o in old(st.ids) || fresh(o)
    {
      ghost var m := NodeAt(ent);
      var clash := Search(ent, base);
      if clash != null {
        return O.Failed(O.EEXIST);
      }
      var obj := O.MkdirTemplate(ent.schema, base);
      var made := Instantiate(ent, obj, base, '*' in base, n);
      return O.Done;
    }

    /** _mkdir */
    method Mkdir(path: string) returns (r: O.Outcome)
      requires Valid()
      modifies this, st.ids.Keys
      ensures Valid() && (s, r) == O.Mkdir(old(s), path)
      ensures forall o {:trigger o in st.ids} :: o in st.ids ==> o in old(st.ids) || fresh(o)
    {
      var ent := Search(root, DirName(path));
      if ent == null {
        return O.Failed(O.ENOENT);
      }
      ghost var n := NodeAt(ent);
      if ent.hidden {
        return O.Failed(O.ENOENT);
      } else if ent.schema.kind != Object {
        return O.Failed(O.EPERM);
      }
      r := MkdirIn(ent, BaseName(path), n);
    }

    /** Change hidden and value of an entry in place. */
    method SetAttributes(ent: Ent, hidden: bool, value: N.Value, ghost n: nat)
      requires Valid() && n in s.ents && st.obj[n] == ent
      modifies this, ent
      ensures Valid() && st == old(st)
      ensures s == old(s).(ents := old(s).ents[n := old(s).ents[n].(hidden := hidden, value := value)])
    {
      ghost var next, t := AttributesChanged(Cells(), st, s, root, n, hidden, value);
      StoreAttributes(ent, hidden, value, st.ids.Keys);
      s := t;
    }

    /** _create */
    method Create(path: string) returns (r: O.Outcome)
      requires Valid()
      modifies this, st.ids.Keys
      ensures Valid() && (s, r) == O.Create(old(s), path)
      ensures forall o {:trigger o in st.ids} :: o in st.ids ==> o in old(st.ids) || fresh(o)
    {
      var ent := Make(root, path);
      if ent == null {
        return O.Failed(O.ENOENT);
      }
      ghost var n := NodeAt(ent);
      if ent.schema.kind == Link || IsDir(ent.schema.kind) {
        return O.Failed(O.EPERM);
      }
      SetAttributes(ent, false, ent.value, n);
      return O.Done;
    }

    /** _symlink */
    method Symlink(target: string, path: string) returns (r: O.Outcome)
      requires Valid()
      modifies this, st.ids.Keys
      ensures Valid() && (s, r) == O.Symlink(old(s), target, path)
      ensures forall o {:trigger o in st.ids} :: o in st.ids ==> o in old(st.ids) || fresh(o)
    {
      var ent := Make(root, path);
      if ent == null {
        return O.Failed(O.ENOENT);
      }
      ghost var n := NodeAt(ent);
      if ent.schema.kind != Link {
        return O.Failed(O.EPERM);
      }
      SetAttributes(ent, false, N.Target(target), n);
      return O.Done;
    }

    /** _unlink */
    method Unlink(path: string) returns (r: O.Outcome)
      requires Valid()
      modifies this, st.ids.Keys
      ensures Valid() && (s, r) == O.Unlinked(old(s), path) && st == old(st)
    {
      var ent := Search(root, path);
      if ent == null {
        return O.Failed(O.ENOENT);
      }
      ghost var n := NodeAt(ent);
      if ent.hidden {
        return O.Failed(O.ENOENT);
      } else if ent.schema.kind != Link {
        return O.Failed(O.EPERM);
      }
      SetAttributes(ent, true, N.Empty, n);
      return O.Done;
    }

    /** The write command of a compound file; setter stands for the entry's own set function. */
    method WriteAt(path: string, data: string, setter: O.Setter)
      requires Valid()
      modifies this, st.ids.Keys
      ensures Valid() && s == O.WriteAt(old(s), path, data, setter) && st == old(st)
    {
      var ent := Search(root, path);
      if ent == null {
        return;
      }
      ghost var n := NodeAt(ent);
      if ent.hidden {
        return;
      }
      if O.HasSetter(ent.schema.kind) {
        SetAttributes(ent, ent.hidden, setter(ent.schema.kind, ent.value, data), n);
      }
    }

    // -------------------------------------------------------------- relinking

    /** The objects of the first children of o, up to the i-th. */
    lemma FirstChildren(o: nat, i: nat) returns (row: seq<Ent>)
      requires Valid() && o in s.ents && i < |s.ents[o].kids|
      ensures |row| == i + 1 && o in st.obj && st.obj[o].children == row[0] && Linear(row)
      ensures forall j :: 0 <= j <= i ==>
        row[j] in st.ids && s.ents[o].kids[j] in st.obj && row[j] == st.obj[s.ents[o].kids[j]]
      ensures forall j :: 0 <= j < i ==> row[j] != row[i]
    {
      assert NodeRep(Cells(), st, s.ents, o) && N.Chain(s.ents, s.ents[o].kids, o);
      ChainInRow(Cells(), st, s.ents[o].kids, st.obj[o].children, st.obj[o]);
      row := RowOf(Cells(), st, s.ents[o].kids, i);
    }

    /** The sibling in front of ent, whose parent's chain does not start with ent. */
    method Predecessor(ent: Ent, ghost e: nat, ghost o: nat) returns (cur: Ent, ghost k: nat)
      requires Valid() && e in s.ents && e != N.ROOT && st.obj[e] == ent && o == s.ents[e].par
      requires o in s.ents && st.obj[o].children != ent
      ensures k + 1 < |s.ents[o].kids| && s.ents[o].kids[k + 1] == e
      ensures s.ents[o].kids[k] in st.obj && cur == st.obj[s.ents[o].kids[k]] && cur in st.ids
    {
      ghost var n := NodeAt(ent);
      ghost var i :| 0 <= i < |s.ents[o].kids| && s.ents[o].kids[i] == e;
      ghost var row := FirstChildren(o, i);
      cur := InFront(ent, ent.parent.children, row);
      k := i - 1;
    }

    /** Take ent off the chain of its parent. */
    method TakeOff(ent: Ent, ghost e: nat)
      requires Valid() && e in s.ents && e != N.ROOT && st.obj[e] == ent
      modifies st.ids.Keys`next, st.ids.Keys`children
      ensures Rep(Cells(), st, N.Unlink(s.ents, e))
    {
      ghost var o, next := s.ents[e].par, Cells();
      ghost var n := NodeAt(ent);
      ghost var d := NodeAt(st.obj[o]);
      if ent.parent.children == ent {
        next := SkippedFirst(Cells(), st, s, e, o);
        StoreChildren(ent.parent, ent.next, st.ids.Keys);
      } else {
        ghost var k;
        var cur;
        cur, k := Predecessor(ent, e, o);
        next := SkippedLater(Cells(), st, s, e, o, k);
        StoreNext(cur, ent.next, st.ids.Keys);
      }
    }

    /** Link an entry that was taken off its chain in front of another directory's children. */
    method LinkUnder(ent: Ent, par: Ent, base: string, ghost e: nat, ghost p: nat)
      requires N.Tree(s) && e in s.ents && e != N.ROOT && p in s.ents && !N.Under(s, p, e)
      requires Rep(Cells(), st, N.Unlink(s.ents, e)) && st.obj[N.ROOT] == root && root in st.ids && root.parent == null
      requires st.obj[e] == ent && st.obj[p] == par && ent in st.ids && par in st.ids && ent != par
      modifies this, st.ids.Keys
      ensures Valid() && s == N.Move(old(s), e, p, base) && st == old(st)
    {
      ghost var next, t := Moved(Cells(), st, s, root, e, p, base);
      Relink(ent, par, base, st.ids.Keys);
      Become(st, t);
    }

    /** The stores of _rename: ent leaves its chain and goes in front of par's children. */
    method Relocate(ent: Ent, par: Ent, base: string, ghost e: nat, ghost p: nat)
      requires Valid() && e in s.ents && e != N.ROOT && p in s.ents && !N.Under(s, p, e)
      requires st.obj[e] == ent && st.obj[p] == par
      modifies this, st.ids.Keys
      ensures Valid() && s == N.Move(old(s), e, p, base) && st == old(st)
    {
      TakeOff(ent, e);
      LinkUnder(ent, par, base, e, p);
    }

    /** _rename */
    method Rename(oldpath: string, newpath: string) returns (r: O.Outcome)
      requires Valid() && O.RenameLegal(s, oldpath, newpath)
      modifies this, st.ids.Keys
      ensures Valid() && (s, r) == O.Rename(old(s), oldpath, newpath) && st == old(st)
    {
      var par := Search(root, DirName(newpath));
      if par == null {
        return O.Failed(O.ENOTDIR);
      }
      ghost var p := NodeAt(par);
      if par.hidden {
        return O.Failed(O.ENOTDIR);
      }
      var base := BaseName(newpath);
      var ent := Search(par, base);
      if ent != null {
        return O.Failed(O.EEXIST);
      }
      ent := Search(root, oldpath);
      if ent == null {
        return O.Failed(O.ENOENT);
      }
      ghost var e := NodeAt(ent);
      if ent.hidden {
        return O.Failed(O.ENOENT);
      }
      Relocate(ent, par, base, e, p);
      return O.Done;
    }

    /** Free an entry that was taken off its chain, with everything below it. */
    method Release(ent: Ent, ghost e: nat) returns (freed: seq<Ent>)
      requires N.Tree(s) && e in s.ents && e != N.ROOT && Rep(Cells(), st, N.Unlink(s.ents, e))
      requires st.obj[N.ROOT] == root && root in st.ids && root.parent == null && st.obj[e] == ent && ent in st.ids
      modifies this, ent`next
      ensures Valid() && s == N.Cut(old(s), e) && st == Cutoff(old(st), old(s), e)
      ensures Names(old(st), freed, F.FreeEntry(old(s), e))
    {
      ghost var next, t := Dropped(Cells(), Snap(Cutoff(st, s, e).ids.Keys), st, s, root, e);
      assert ent !in next.ids by { assert st.ids[ent] == e; }
      freed := FreeAll(ent, st, s, e, next.ids.Keys);
      Become(next, t);
    }

    /** Take an entry out of the tree and free it. */
    method Remove(ent: Ent, ghost e: nat) returns (freed: seq<Ent>)
      requires Valid() && e in s.ents && e != N.ROOT && st.obj[e] == ent
      modifies this, st.ids.Keys
      ensures Valid() && s == N.Cut(old(s), e) && st == Cutoff(old(st), old(s), e)
      ensures Names(old(st), freed, F.FreeEntry(old(s), e))
    {
      TakeOff(ent, e);
      freed := Release(ent, e);
    }

    /**
     * _rmdir. Besides its result it returns what schemafs_free released, in order. The caller vouches
     * for a target other than the root, as the kernel does.
     */
    method Rmdir(path: string) returns (r: O.Outcome, freed: seq<Ent>)
      requires Valid() && O.RmdirLegal(s, path)
      modifies this, st.ids.Keys
      ensures Valid() && (s, r) == O.Rmdir(old(s), path)
      ensures forall o {:trigger o in st.ids} :: o in st.ids ==> o in old(st.ids)
      ensures if r == O.Done then Names(old(st), freed, F.FreeEntry(old(s), N.Search(old(s), N.ROOT, path).value))
              else freed == []
    {
      freed := [];
      var ent := Search(root, path);
      if ent == null {
        return O.Failed(O.ENOENT), [];
      }
      ghost var e := NodeAt(ent);
      if ent.hidden {
        return O.Failed(O.ENOENT), [];
      } else if ent.schema.kind != Subdir {
        return O.Failed(O.ENOTDIR), [];
      }
      freed := Remove(ent, e);
      return O.Done, freed;
    }
  }
}
