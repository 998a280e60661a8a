/** Find-or-create through pattern entries: schemafs_fnmatch is sound, idempotent and conservative. */
module Creating {
  import opened Wrappers
  import opened Schemas
  import opened Globs
  import opened Namespace
  import opened Grafting
  import opened Lookup
  import opened Operations

  predicate Dots(c: string) { c == "." || c == ".." }

  /** No component, read as a pattern, matches another one. */
  predicate Apart(q: seq<string>) {
    forall i, j :: 0 <= i < |q| && 0 <= j < |q| && q[i] != q[j] && !Dots(q[i]) && !Dots(q[j]) ==>
      !FnMatch(q[i], q[j])
  }

  predicate WildcardFree(q: seq<string>) {
    forall i :: 0 <= i < |q| ==> WithoutSpecial(q[i])
  }

  lemma WildcardFreeApart(q: seq<string>)
    requires WildcardFree(q)
    ensures Apart(q)
  {
    forall i, j | 0 <= i < |q| && 0 <= j < |q| && q[i] != q[j]
      ensures !FnMatch(q[i], q[j])
    {
      Literal(q[i], q[j]);
    }
  }

  /** t has every entry of s, under the same name and parent. */
  ghost predicate Extends(s: State, t: State) {
    forall x {:trigger x in t.ents} {:trigger t.ents[x]} :: x in s.ents ==>
      x in t.ents && t.ents[x].name == s.ents[x].name && t.ents[x].par == s.ents[x].par
  }

  // ---------------------------------------------------------------- one creation

  lemma FillOneTop(t: Template, p: nat, id: nat)
    ensures id in FillOne(t, p, id) && FillOne(t, p, id)[id].par == p && FillOne(t, p, id)[id].schema == t
  {
  }

  /** A graft changes nothing but the chain of p, which gets the new entry in front. */
  lemma GraftEntry(s: State, p: nat, t: Template, c: string, hidden: bool, n: nat)
    requires Shape(s) && p in s.ents && n in s.ents
    ensures var g := Graft(s, p, t, c, hidden).ents;
      && n in g && g[n] == s.ents[n].(kids := if n == p then [s.nextId] + s.ents[p].kids else s.ents[n].kids)
      && s.nextId in g && g[s.nextId].name == c && g[s.nextId].par == p && g[s.nextId].schema == t
  {
    FillOneForested(t, p, s.nextId);
    FillOneTop(t, p, s.nextId);
  }

  lemma {:induction false} ProbeSame(s: State, t: State, ids: seq<nat>, c: string)
    requires forall i :: 0 <= i < |ids| ==>
      ids[i] in s.ents && ids[i] in t.ents && s.ents[ids[i]].name == t.ents[ids[i]].name
    ensures Probe(t, ids, c) == Probe(s, ids, c)
  {
    if ids != [] { ProbeSame(s, t, ids[1..], c); }
  }

  lemma {:induction false} FoundIsFirst(s: State, ids: seq<nat>, c: string)
    requires forall i :: 0 <= i < |ids| ==> ids[i] in s.ents
    ensures Probe(s, ids, c).Found? ==> FindName(s, ids, c) == Some(Probe(s, ids, c).id)
    ensures Probe(s, ids, c).Miss? ==> FindName(s, ids, c) == None
  {
    if ids != [] {
      FoundIsFirst(s, ids[1..], c);
    }
  }

  lemma GraftNames(s: State, p: nat, t: Template, c: string, hidden: bool, n: nat)
    requires Shape(s) && p in s.ents && n in s.ents
    ensures Shape(Graft(s, p, t, c, hidden)) && Extends(s, Graft(s, p, t, c, hidden))
    ensures var g, ids := Graft(s, p, t, c, hidden), s.ents[n].kids;
      forall i :: 0 <= i < |ids| ==> ids[i] in s.ents && ids[i] in g.ents && g.ents[ids[i]].name == s.ents[ids[i]].name
  {
    GraftShape(s, p, t, c, hidden);
    assert Chain(s.ents, s.ents[n].kids, n);
    forall x | x in s.ents
      ensures x in Graft(s, p, t, c, hidden).ents
      ensures Graft(s, p, t, c, hidden).ents[x].name == s.ents[x].name
      ensures Graft(s, p, t, c, hidden).ents[x].par == s.ents[x].par
    {
      GraftEntry(s, p, t, c, hidden, x);
    }
  }

  /** A new sibling does not disturb the scan for a name it does not take. */
  lemma GraftProbe(s: State, p: nat, t: Template, c: string, hidden: bool, n: nat, d: string)
    requires Shape(s) && p in s.ents && n in s.ents && (n == p ==> !Takes(c, d))
    ensures Shape(Graft(s, p, t, c, hidden)) && n in Graft(s, p, t, c, hidden).ents
    ensures Probe(Graft(s, p, t, c, hidden), Graft(s, p, t, c, hidden).ents[n].kids, d) == Probe(s, s.ents[n].kids, d)
  {
    var g, ids := Graft(s, p, t, c, hidden), s.ents[n].kids;
    GraftNames(s, p, t, c, hidden, n);
    GraftEntry(s, p, t, c, hidden, n);
    ProbeSame(s, g, ids, d);
    if n == p {
      assert g.ents[n].kids[1..] == ids;
    }
  }

  lemma GraftFind(s: State, p: nat, t: Template, c: string, hidden: bool, n: nat, d: string)
    requires Shape(s) && p in s.ents && n in s.ents
    ensures Shape(Graft(s, p, t, c, hidden)) && n in Graft(s, p, t, c, hidden).ents
    ensures FindName(Graft(s, p, t, c, hidden), Graft(s, p, t, c, hidden).ents[n].kids, d)
         == if n == p && c == d then Some(s.nextId) else FindName(s, s.ents[n].kids, d)
  {
    var g, ids := Graft(s, p, t, c, hidden), s.ents[n].kids;
    GraftNames(s, p, t, c, hidden, n);
    GraftEntry(s, p, t, c, hidden, n);
    FindNameSame(s, g, ids, d);
    if n == p {
      assert g.ents[n].kids[1..] == ids;
    }
  }

  // ---------------------------------------------------------------- sound and idempotent

  /** What the scan finds by name it still finds after a creation that does not match it. */
  lemma MakeStepStable(s: State, n: nat, c: string, k: nat, d: string)
    requires Shape(s) && n in s.ents && k in s.ents && (c != d && !Dots(c) ==> !FnMatch(c, d))
    requires Probe(s, s.ents[k].kids, d).Found?
    ensures var t := MakeStep(s, n, c).0;
      Shape(t) && Extends(s, t) && k in t.ents && Probe(t, t.ents[k].kids, d) == Probe(s, s.ents[k].kids, d)
  {
    if c != ".." && c != "." {
      match Probe(s, s.ents[n].kids, c)
      case Pattern(x) =>
        GraftNames(s, n, s.ents[x].schema, c, false, k);
        GraftProbe(s, n, s.ents[x].schema, c, false, k, d);
      case Found(_) =>
      case Miss =>
    }
  }

  lemma MakeStepExtends(s: State, n: nat, c: string)
    requires Shape(s) && n in s.ents
    ensures Shape(MakeStep(s, n, c).0) && Extends(s, MakeStep(s, n, c).0)
  {
    match Probe(s, s.ents[n].kids, c)
    case Pattern(x) => GraftNames(s, n, s.ents[x].schema, c, false, n);
    case Found(_) =>
    case Miss =>
  }

  lemma {:induction false} MakeWalkExtends(s: State, n: nat, q: seq<string>)
    requires Shape(s) && n in s.ents
    ensures Extends(s, MakeWalk(s, n, q).0)
    decreases |q|
  {
    if q != [] {
      MakeStepExtends(s, n, q[0]);
      var (t, m) := MakeStep(s, n, q[0]);
      if m.Some? {
        MakeStepShape(s, n, q[0]);
        MakeWalkExtends(t, m.value, q[1..]);
      }
    }
  }

  lemma {:induction false} MakeWalkStable(s: State, n: nat, q: seq<string>, k: nat, d: string)
    requires Shape(s) && n in s.ents && k in s.ents
    requires forall i :: 0 <= i < |q| && q[i] != d && !Dots(q[i]) ==> !FnMatch(q[i], d)
    requires Probe(s, s.ents[k].kids, d).Found?
    ensures var t := MakeWalk(s, n, q).0; k in t.ents && Probe(t, t.ents[k].kids, d) == Probe(s, s.ents[k].kids, d)
    decreases |q|
  {
    if q != [] {
      MakeStepShape(s, n, q[0]);
      MakeStepStable(s, n, q[0], k, d);
      var (t, m) := MakeStep(s, n, q[0]);
      if m.Some? { MakeWalkStable(t, m.value, q[1..], k, d); }
    }
  }

  /** After a step that succeeded, the scan finds by name the entry it went to. */
  lemma MakeStepFinds(s: State, n: nat, c: string)
    requires Shape(s) && n in s.ents && c != ".." && c != "." && MakeStep(s, n, c).1.Some?
    ensures var (t, m) := MakeStep(s, n, c);
      Shape(t) && n in t.ents && m.value in t.ents && Probe(t, t.ents[n].kids, c) == Found(m.value)
  {
    MakeStepShape(s, n, c);
    match Probe(s, s.ents[n].kids, c)
    case Pattern(x) => GraftEntry(s, n, s.ents[x].schema, c, false, n);
    case Found(_) =>
    case Miss =>
  }

  /**
   * After a creation that returned an entry, the plain lookup finds that entry, and creating
   * again returns it too and changes nothing, when no component is a pattern for another.
   */
  lemma {:induction false} MakeSoundIdempotent(s: State, n: nat, q: seq<string>)
    requires Shape(s) && n in s.ents && Apart(q) && MakeWalk(s, n, q).1.Some?
    ensures var (t, m) := MakeWalk(s, n, q);
      n in t.ents && Resolve(t, n, q) == m && MakeWalk(t, n, q) == (t, m)
    decreases |q|
  {
    if q != [] {
      MakeStepShape(s, n, q[0]);
      var (s1, m1) := MakeStep(s, n, q[0]);
      var x := m1.value;
      var w := q[1..];
      MakeSoundIdempotent(s1, x, w);
      var t := MakeWalk(s1, x, w).0;
      MakeStepExtends(s, n, q[0]);
      MakeWalkExtends(s1, x, w);
      if q[0] != ".." && q[0] != "." {
        MakeStepFinds(s, n, q[0]);
        MakeWalkStable(s1, x, w, n, q[0]);
        FoundIsFirst(t, t.ents[n].kids, q[0]);
      }
      assert MakeStep(t, n, q[0]) == (t, Some(x));
    }
  }

  // ---------------------------------------------------------------- conservative

  /** No entry of the chain stops the scan for the name of a later one. */
  ghost predicate NoShadowChain(s: State, ids: seq<nat>)
    requires forall i :: 0 <= i < |ids| ==> ids[i] in s.ents
  {
    forall i, j :: 0 <= i < j < |ids| ==> !Takes(s.ents[ids[i]].name, s.ents[ids[j]].name)
  }

  /** An entry of the name c in front of the chain stops the scan for none of it. */
  predicate HidesNone(s: State, ids: seq<nat>, c: string)
    requires forall i :: 0 <= i < |ids| ==> ids[i] in s.ents
  {
    forall i :: 0 <= i < |ids| ==> !Takes(c, s.ents[ids[i]].name)
  }

  ghost predicate NoShadow(s: State)
    requires Shape(s)
  {
    forall n {:trigger s.ents[n].kids} :: n in s.ents ==> NoShadowChain(s, s.ents[n].kids)
  }

  /** Where no pattern stands before what it matches, a pattern hit means the name is not there yet. */
  lemma {:induction false} PatternMeansAbsent(s: State, ids: seq<nat>, c: string)
    requires forall i :: 0 <= i < |ids| ==> ids[i] in s.ents
    requires NoShadowChain(s, ids) && Probe(s, ids, c).Pattern?
    ensures FindName(s, ids, c) == None
  {
    if !FnMatch(s.ents[ids[0]].name, c) {
      PatternMeansAbsent(s, ids[1..], c);
    }
  }

  lemma {:induction false} GraftKeepsLookup(s: State, p: nat, t: Template, c: string, hidden: bool,
                                            n: nat, q: seq<string>)
    requires Shape(s) && p in s.ents && FindName(s, s.ents[p].kids, c) == None
    requires n in s.ents && Resolve(s, n, q).Some?
    ensures var g := Graft(s, p, t, c, hidden); Shape(g) && n in g.ents && Resolve(g, n, q) == Resolve(s, n, q)
    decreases |q|
  {
    GraftNames(s, p, t, c, hidden, n);
    if q != [] {
      GraftFind(s, p, t, c, hidden, n, q[0]);
      GraftKeepsLookup(s, p, t, c, hidden, Step(s, n, q[0]).value, q[1..]);
    }
  }

  /** One creation keeps every earlier lookup exactly when the name was not there yet. */
  lemma CreationConservativeIff(s: State, p: nat, t: Template, c: string, hidden: bool)
    requires Shape(s) && p in s.ents && Ordinary(c)
    ensures Shape(Graft(s, p, t, c, hidden))
    ensures (forall n, q :: n in s.ents && Resolve(s, n, q).Some? ==>
               n in Graft(s, p, t, c, hidden).ents && Resolve(Graft(s, p, t, c, hidden), n, q) == Resolve(s, n, q))
       <==> FindName(s, s.ents[p].kids, c) == None
  {
    var g := Graft(s, p, t, c, hidden);
    GraftShape(s, p, t, c, hidden);
    if FindName(s, s.ents[p].kids, c) == None {
      forall n, q | n in s.ents && Resolve(s, n, q).Some?
        ensures n in g.ents && Resolve(g, n, q) == Resolve(s, n, q)
      {
        GraftKeepsLookup(s, p, t, c, hidden, n, q);
      }
    } else {
      GraftFind(s, p, t, c, hidden, p, c);
      assert Resolve(g, p, [c]) == Some(s.nextId);
      assert Resolve(s, p, [c]) == FindName(s, s.ents[p].kids, c);
      assert Resolve(s, p, [c]).Some?;
    }
  }
}
