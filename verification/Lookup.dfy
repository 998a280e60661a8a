/** Path lookup as a fold over components. */
module Lookup {
  import opened Wrappers
  import opened Text
  import opened Namespace
  import opened Relinking

  /** Resolving two component lists one after the other is resolving their concatenation. */
  lemma {:induction false} ResolveAppend(s: State, n: nat, p: seq<string>, q: seq<string>)
    requires Shape(s) && n in s.ents
    ensures Resolve(s, n, p + q) == match Resolve(s, n, p) case None => None case Some(m) => Resolve(s, m, q)
    decreases |p|
  {
    if p == [] {
      assert p + q == q;
    } else {
      assert (p + q)[1..] == p[1..] + q;
      match Step(s, n, p[0])
      case None =>
      case Some(m) => ResolveAppend(s, m, p[1..], q);
    }
  }

  lemma SpanPositive(p: string)
    requires p != [] && p[0] != '/'
    ensures Tokens(p, '/') != []
  {
  }

  lemma SearchJoined(s: State, n: nat, p: string, q: string)
    requires Shape(s) && n in s.ents && p != []
    ensures Search(s, n, p + ['/'] + q)
         == match Search(s, n, p) case None => None case Some(m) => Search(s, m, ['/'] + q)
  {
    TokensJoin(p, q, '/');
    TokensJoin([], q, '/');
    assert [] + ['/'] + q == ['/'] + q;
    ResolveAppend(s, if p[0] != '/' then ROOT else n, Tokens(p, '/'), Tokens(q, '/'));
    if p[0] != '/' {
      SpanPositive(p);
    }
  }

  /**
   * Looking up p, then the slash-led rest q from what it found, is looking up p/q, unless p is empty
   * and so names nothing while /q names something.
   */
  lemma SearchJoin(s: State, n: nat, p: string, q: string)
    requires Shape(s) && n in s.ents
    ensures (Search(s, n, p + ['/'] + q)
             == match Search(s, n, p) case None => None case Some(m) => Search(s, m, ['/'] + q))
       <==> p != [] || Search(s, n, ['/'] + q) == None
  {
    assert [] + ['/'] + q == ['/'] + q;
    if p != [] { SearchJoined(s, n, p, q); }
  }

  /** Without a leading slash the start is ignored: the lookup is the one from the root. */
  lemma SearchRelative(s: State, n: nat, q: string)
    requires Shape(s) && n in s.ents && q != [] && q[0] != '/'
    ensures Search(s, n, q) == Search(s, ROOT, ['/'] + q)
  {
    TokensJoin([], q, '/');
    assert [] + ['/'] + q == ['/'] + q;
    SpanPositive(q);
  }

  function DropDots(q: seq<string>): seq<string> {
    if q == [] then [] else if q[0] == "." then DropDots(q[1..]) else [q[0]] + DropDots(q[1..])
  }

  /** "." components are neutral. */
  lemma {:induction false} DotsNeutral(s: State, n: nat, q: seq<string>)
    requires Shape(s) && n in s.ents
    ensures Resolve(s, n, DropDots(q)) == Resolve(s, n, q)
    decreases |q|
  {
    if q != [] {
      match Step(s, n, q[0])
      case None =>
      case Some(m) =>
        DotsNeutral(s, m, q[1..]);
        if q[0] != "." { assert DropDots(q)[1..] == DropDots(q[1..]); }
    }
  }

  /** ".." climbs one `parent` pointer, and stops at the root. */
  lemma {:induction false} DotDotClimbs(s: State, n: nat, k: nat)
    requires Shape(s) && n in s.ents
    ensures Resolve(s, n, seq(k, _ => "..")) == Some(Climb(s, n, k))
    ensures Climb(s, ROOT, k) == ROOT
    decreases k
  {
    if k > 0 {
      assert seq(k, _ => "..")[1..] == seq(k - 1, _ => "..");
      DotDotClimbs(s, s.ents[n].par, k - 1);
    }
  }

  // ---------------------------------------------------------------- where a walk ends up

  lemma {:induction false} FindNameMember(s: State, n: nat, c: string)
    requires Shape(s) && n in s.ents
    ensures FindName(s, s.ents[n].kids, c).Some? ==>
      var m := FindName(s, s.ents[n].kids, c).value; m != ROOT && s.ents[m].par == n
  {
    assert Chain(s.ents, s.ents[n].kids, n);
  }

  /** A ".."-free walk only goes down. */
  lemma {:induction false} PlainGoesDown(s: State, n: nat, q: seq<string>)
    requires Tree(s) && n in s.ents && Plain(q)
    ensures Resolve(s, n, q).Some? ==> Under(s, Resolve(s, n, q).value, n)
    decreases |q|
  {
    if q != [] && Step(s, n, q[0]).Some? {
      var m := Step(s, n, q[0]).value;
      FindNameMember(s, n, q[0]);
      assert Under(s, m, n);
      PlainGoesDown(s, m, q[1..]);
      if Resolve(s, m, q[1..]).Some? { UnderTransitive(s, Resolve(s, m, q[1..]).value, m, n); }
    }
  }

  // ---------------------------------------------------------------- names and entries

  /** With distinct sibling names an entry is found under its own name. */
  lemma {:induction false} FindOwn(s: State, ids: seq<nat>, k: nat)
    requires k < |ids| && forall i :: 0 <= i < |ids| ==> ids[i] in s.ents
    requires DistinctNames(s, ids)
    ensures FindName(s, ids, s.ents[ids[k]].name) == Some(ids[k])
  {
    if k > 0 {
      assert s.ents[ids[0]].name != s.ents[ids[k]].name;
      assert ids[1..][k - 1] == ids[k];
      FindOwn(s, ids[1..], k - 1);
    }
  }

  lemma FindChild(s: State, c: nat)
    requires Shape(s) && Unique(s) && c in s.ents && c != ROOT
    ensures s.ents[c].par in s.ents
    ensures FindName(s, s.ents[s.ents[c].par].kids, s.ents[c].name) == Some(c)
  {
    var p := s.ents[c].par;
    assert Chain(s.ents, s.ents[p].kids, p);
    assert DistinctNames(s, s.ents[p].kids);
    var k :| 0 <= k < |s.ents[p].kids| && s.ents[p].kids[k] == c;
    FindOwn(s, s.ents[p].kids, k);
  }

  /** The names on the way from the root to n. */
  ghost function PathTo(s: State, n: nat): seq<string>
    requires Tree(s) && n in s.ents
    decreases Level(s, n)
  {
    if n == ROOT then [] else PathTo(s, s.ents[n].par) + [s.ents[n].name]
  }

  /** The last component of a path picks a child of what the rest of the path finds. */
  lemma ResolveLast(s: State, d: seq<string>, c: string, n: nat)
    requires Shape(s) && Unique(s) && n in s.ents && Ordinary(c)
    ensures Resolve(s, ROOT, d + [c]) == Some(n)
       <==> n != ROOT && s.ents[n].name == c && Resolve(s, ROOT, d) == Some(s.ents[n].par)
  {
    ResolveAppend(s, ROOT, d, [c]);
    if Resolve(s, ROOT, d).Some? {
      var p := Resolve(s, ROOT, d).value;
      assert Resolve(s, p, [c]) == FindName(s, s.ents[p].kids, c);
      FindNameMember(s, p, c);
    }
    if n != ROOT { FindChild(s, n); }
  }

  lemma SnocInjective(d: seq<string>, c: string, w: seq<string>, b: string)
    ensures d + [c] == w + [b] <==> d == w && c == b
  {
    if d + [c] == w + [b] {
      assert d == (d + [c])[..|d|] && w == (w + [b])[..|w|];
      assert c == (d + [c])[|d|] && b == (w + [b])[|w|];
    }
  }

  /** With distinct sibling names a path finds an entry exactly when it spells the names on the way to it. */
  lemma {:induction false} PathsAreEntries(s: State, n: nat, q: seq<string>)
    requires Tree(s) && Unique(s) && n in s.ents
    requires forall i :: 0 <= i < |q| ==> Ordinary(q[i])
    ensures Resolve(s, ROOT, q) == Some(n) <==> q == PathTo(s, n)
    decreases Level(s, n)
  {
    if q != [] {
      var d, c := q[..|q| - 1], q[|q| - 1];
      assert q == d + [c];
      ResolveLast(s, d, c, n);
      if n != ROOT {
        PathsAreEntries(s, s.ents[n].par, d);
        SnocInjective(d, c, PathTo(s, s.ents[n].par), s.ents[n].name);
      }
    }
  }

  lemma {:induction false} OrdinaryPath(s: State, n: nat)
    requires Tree(s) && OrdinaryNames(s) && n in s.ents
    ensures forall i :: 0 <= i < |PathTo(s, n)| ==> Ordinary(PathTo(s, n)[i])
    decreases Level(s, n)
  {
    if n != ROOT { OrdinaryPath(s, s.ents[n].par); }
  }

  /** Every entry is found under its own path. */
  lemma OwnPath(s: State, n: nat)
    requires Tree(s) && Unique(s) && OrdinaryNames(s) && n in s.ents
    ensures Resolve(s, ROOT, PathTo(s, n)) == Some(n)
  {
    OrdinaryPath(s, n);
    PathsAreEntries(s, n, PathTo(s, n));
  }

  // ---------------------------------------------------------------- comparing two states

  /** Two states take the same steps all along the walk q from n. */
  ghost predicate SameAlong(s: State, t: State, n: nat, q: seq<string>)
    requires Shape(s) && Shape(t) && n in s.ents && n in t.ents
    decreases |q|
  {
    q == [] || (
      && Step(s, n, q[0]) == Step(t, n, q[0])
      && (Step(s, n, q[0]).Some? ==> SameAlong(s, t, Step(s, n, q[0]).value, q[1..])))
  }

  lemma {:induction false} SameAlongResolve(s: State, t: State, n: nat, q: seq<string>)
    requires Shape(s) && Shape(t) && n in s.ents && n in t.ents && SameAlong(s, t, n, q)
    ensures Resolve(t, n, q) == Resolve(s, n, q)
    decreases |q|
  {
    if q != [] && Step(s, n, q[0]).Some? {
      SameAlongResolve(s, t, Step(s, n, q[0]).value, q[1..]);
    }
  }

  /** A chain whose entries keep their names is searched alike. */
  lemma {:induction false} FindNameSame(s: State, t: State, ids: seq<nat>, c: string)
    requires forall i :: 0 <= i < |ids| ==>
      ids[i] in s.ents && ids[i] in t.ents && s.ents[ids[i]].name == t.ents[ids[i]].name
    ensures FindName(t, ids, c) == FindName(s, ids, c)
  {
    if ids != [] { FindNameSame(s, t, ids[1..], c); }
  }

  /** Names stay distinct where entries keep their names, also behind an entry of another name. */
  lemma DistinctKept(s: State, t: State, ids: seq<nat>, x: nat)
    requires forall i :: 0 <= i < |ids| ==>
      ids[i] in s.ents && ids[i] in t.ents && s.ents[ids[i]].name == t.ents[ids[i]].name
    requires DistinctNames(s, ids)
    ensures DistinctNames(t, ids)
    ensures x in t.ents && (forall i :: 0 <= i < |ids| ==> s.ents[ids[i]].name != t.ents[x].name) ==>
      DistinctNames(t, [x] + ids)
  {
  }

  lemma {:induction false} WithoutSubset(ids: seq<nat>, e: nat)
    ensures forall x {:trigger x in Without(ids, e)} :: x in Without(ids, e) ==> x in ids
  {
    if ids != [] && ids[0] != e { WithoutSubset(ids[1..], e); }
  }

  /** Unlinking an entry that a search does not find does not change the search. */
  lemma {:induction false} FindNameWithout(s: State, ids: seq<nat>, e: nat, c: string)
    requires forall i :: 0 <= i < |ids| ==> ids[i] in s.ents
    requires FindName(s, ids, c) != Some(e)
    ensures forall i :: 0 <= i < |Without(ids, e)| ==> Without(ids, e)[i] in s.ents
    ensures FindName(s, Without(ids, e), c) == FindName(s, ids, c)
  {
    WithoutSubset(ids, e);
    forall i | 0 <= i < |Without(ids, e)|
      ensures Without(ids, e)[i] in s.ents
    {
      assert Without(ids, e)[i] in Without(ids, e);
    }
    if ids != [] && ids[0] != e && s.ents[ids[0]].name != c {
      FindNameWithout(s, ids[1..], e, c);
    }
  }
}
