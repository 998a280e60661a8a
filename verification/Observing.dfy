/** What create, symlink, unlink, write and readlink do to each other, seen by path. */
module Observing {
  import opened Wrappers
  import opened Text
  import opened Schemas
  import opened Namespace
  import opened Lookup
  import opened Creating
  import opened Operations
  import opened Neatness
  import opened Runs
  import opened SchemaFs

  /** What readlink returns: the target, ENOENT, EPERM or EIO. */
  datatype LinkText = Is(target: string) | NoEntry | NoLink | NoTarget

  /** _readlink */
  function Readlink(s: State, path: string): LinkText
    requires Shape(s)
  {
    match Search(s, ROOT, path)
    case None => NoEntry
    case Some(n) =>
      if s.ents[n].hidden then NoEntry
      else if s.ents[n].schema.kind != Link then NoLink
      else if s.ents[n].value.Target? then Is(s.ents[n].value.path)
      else NoTarget
  }

  /** What strncpy leaves in a buffer of n characters: the text, cut or filled up with NULs. */
  function Copied(text: string, n: nat): (b: string)
    ensures |b| == n
  {
    seq(n, i requires 0 <= i => if i < |text| then text[i] else '\0')
  }

  /** The buffer holds the text as a C string exactly when it has room for the NUL. */
  lemma CopiedWholeIff(text: string, n: nat)
    requires '\0' !in text
    ensures '\0' in Copied(text, n) <==> |text| < n
    ensures if |text| < n then Copied(text, n)[..|text|] == text && Copied(text, n)[|text|] == '\0'
            else Copied(text, n) == text[..n]
  {
    var b := Copied(text, n);
    if |text| < n { assert b[|text|] in b; }
  }

  /** _readlink into the caller's buffer, which stays as it is on an error. */
  method ReadlinkAt(m: Mount, path: string, buf: array<char>) returns (r: Outcome)
    requires m.Valid()
    modifies buf
    ensures match Readlink(m.s, path)
      case Is(target) => r == Done && buf[..] == Copied(target, buf.Length)
      case NoEntry => r == Failed(ENOENT) && buf[..] == old(buf[..])
      case NoLink => r == Failed(EPERM) && buf[..] == old(buf[..])
      case NoTarget => r == Failed(EIO) && buf[..] == old(buf[..])
  {
    var ent := m.Search(m.root, path);
    if ent == null {
      return Failed(ENOENT);
    }
    ghost var n := m.NodeAt(ent);
    if ent.hidden {
      return Failed(ENOENT);
    } else if ent.schema.kind != Link {
      return Failed(EPERM);
    }
    match ent.value
    case Target(target) =>
      forall i | 0 <= i < buf.Length { buf[i] := if i < |target| then target[i] else '\0'; }
      return Done;
    case _ => return Failed(EIO);
  }

  // ---------------------------------------------------------------- attributes and lookups

  lemma SetStep(s: State, n: nat, e: Entry, k: nat, c: string)
    requires Tree(s) && n in s.ents && k in s.ents && e == s.ents[n].(hidden := e.hidden, value := e.value)
    ensures var t := s.(ents := s.ents[n := e]); Shape(t) && Step(t, k, c) == Step(s, k, c)
  {
    var t := s.(ents := s.ents[n := e]);
    SetTree(s, n, e);
    assert Chain(s.ents, s.ents[k].kids, k);
    assert t.ents[k].kids == s.ents[k].kids && t.ents[k].par == s.ents[k].par;
    FindNameSame(s, t, s.ents[k].kids, c);
  }

  /** Attributes do not matter to lookups. */
  lemma {:induction false} SetResolve(s: State, n: nat, e: Entry, k: nat, q: seq<string>)
    requires Tree(s) && n in s.ents && k in s.ents && e == s.ents[n].(hidden := e.hidden, value := e.value)
    ensures var t := s.(ents := s.ents[n := e]); Shape(t) && Resolve(t, k, q) == Resolve(s, k, q)
    decreases |q|
  {
    SetTree(s, n, e);
    if q != [] {
      SetStep(s, n, e, k, q[0]);
      if Step(s, k, q[0]).Some? { SetResolve(s, n, e, Step(s, k, q[0]).value, q[1..]); }
    }
  }

  /** Where no pattern precedes what it matches, the scan finds what the plain search finds. */
  lemma {:induction false} ProbeFinds(s: State, ids: seq<nat>, c: string)
    requires forall i :: 0 <= i < |ids| ==> ids[i] in s.ents
    requires NoShadowChain(s, ids) && FindName(s, ids, c).Some?
    ensures Probe(s, ids, c) == Found(FindName(s, ids, c).value)
  {
    if s.ents[ids[0]].name != c {
      var x := FindName(s, ids[1..], c).value;
      var j :| 0 <= j < |ids[1..]| && ids[1..][j] == x;
      assert ids[j + 1] == x;
      ProbeFinds(s, ids[1..], c);
    }
  }

  /** Find-or-create returns what exists and creates nothing. */
  lemma {:induction false} MakeFindsExisting(s: State, n: nat, q: seq<string>)
    requires Neat(s) && n in s.ents && Resolve(s, n, q).Some?
    ensures MakeWalk(s, n, q) == (s, Resolve(s, n, q))
    decreases |q|
  {
    if q != [] {
      assert NeatAt(s, n);
      if q[0] != ".." && q[0] != "." { ProbeFinds(s, s.ents[n].kids, q[0]); }
      MakeFindsExisting(s, Step(s, n, q[0]).value, q[1..]);
    }
  }

  lemma MakeFindsPath(s: State, path: string)
    requires Neat(s) && Search(s, ROOT, path).Some?
    ensures Make(s, ROOT, path) == (s, Search(s, ROOT, path))
  {
    MakeFindsExisting(s, ROOT, Tokens(path, '/'));
  }

  /** The entry find-or-create returned is the one its path finds. */
  lemma MakeThenSearch(s: State, path: string)
    requires Tree(s) && Apart(Tokens(path, '/')) && Make(s, ROOT, path).1.Some?
    ensures var (t, m) := Make(s, ROOT, path); Tree(t) && Search(t, ROOT, path) == m
  {
    MakeTree(s, path);
    MakeSoundIdempotent(s, ROOT, Tokens(path, '/'));
  }

  lemma SetSearch(s: State, n: nat, e: Entry, path: string)
    requires Tree(s) && n in s.ents && e == s.ents[n].(hidden := e.hidden, value := e.value)
    ensures var t := s.(ents := s.ents[n := e]); Tree(t) && Search(t, ROOT, path) == Search(s, ROOT, path)
  {
    SetTree(s, n, e);
    SetResolve(s, n, e, ROOT, Tokens(path, '/'));
  }

  // ---------------------------------------------------------------- one operation after another

  /** A symlink just made reads as its target. */
  lemma SymlinkReadlink(s: State, target: string, path: string)
    requires Tree(s) && Apart(Tokens(path, '/')) && Symlink(s, target, path).1 == Done
    ensures Shape(Symlink(s, target, path).0) && Readlink(Symlink(s, target, path).0, path) == Is(target)
  {
    var (t, m) := Make(s, ROOT, path);
    MakeThenSearch(s, path);
    SetSearch(t, m.value, t.ents[m.value].(hidden := false, value := Target(target)), path);
  }

  /** A file just created is there to be seen. */
  lemma CreateVisible(s: State, path: string)
    requires Tree(s) && Apart(Tokens(path, '/')) && Create(s, path).1 == Done
    ensures var t := Create(s, path).0;
      && Shape(t) && Search(t, ROOT, path).Some?
      && var e := t.ents[Search(t, ROOT, path).value]; !e.hidden && HasSetter(e.schema.kind)
  {
    var (t, m) := Make(s, ROOT, path);
    MakeThenSearch(s, path);
    SetSearch(t, m.value, t.ents[m.value].(hidden := false), path);
  }

  /** An unlinked symlink is gone, and making it again with its target restores the state exactly. */
  lemma UnlinkSymlink(s: State, path: string)
    requires Tree(s) && Neat(s) && Readlink(s, path).Is?
    ensures var (t, r) := Unlinked(s, path);
      && r == Done && Shape(t) && Readlink(t, path) == NoEntry
      && Symlink(t, Readlink(s, path).target, path) == (s, Done)
  {
    var n := Search(s, ROOT, path).value;
    var e := s.ents[n].(hidden := true, value := Empty);
    SetSearch(s, n, e, path);
    SetNeat(s, n, e);
    var t := Unlinked(s, path).0;
    assert t == s.(ents := s.ents[n := e]);
    MakeFindsPath(t, path);
    assert t.ents[n := s.ents[n]] == s.ents;
  }

  lemma MakeOne(s: State, d: nat, c: string)
    requires Shape(s) && d in s.ents
    ensures MakeWalk(s, d, [c]) == MakeStep(s, d, c)
  {
    MakeStepShape(s, d, c);
  }

  lemma {:induction false} MakeAppend(s: State, n: nat, p: seq<string>, q: seq<string>)
    requires Shape(s) && n in s.ents
    ensures var (t, m) := MakeWalk(s, n, p);
      MakeWalk(s, n, p + q) == if m.None? then (t, None) else MakeWalk(t, m.value, q)
    decreases |p|
  {
    if p == [] {
      assert p + q == q;
    } else {
      assert (p + q)[0] == p[0] && (p + q)[1..] == p[1..] + q;
      MakeStepShape(s, n, p[0]);
      var (t, m) := MakeStep(s, n, p[0]);
      if m.Some? { MakeAppend(t, m.value, p[1..], q); }
    }
  }

  lemma MakeBelow(s: State, dirs: seq<string>, d: nat, c: string)
    requires Neat(s) && Resolve(s, ROOT, dirs) == Some(d)
    ensures MakeWalk(s, ROOT, dirs + [c]) == MakeStep(s, d, c)
  {
    MakeFindsExisting(s, ROOT, dirs);
    MakeAppend(s, ROOT, dirs, [c]);
    MakeOne(s, d, c);
  }

  lemma Directory(s: State, path: string, d: nat) returns (dirs: seq<string>)
    requires Shape(s) && Ordinary(BaseName(path)) && Search(s, ROOT, DirName(path)) == Some(d)
    ensures Tokens(path, '/') == dirs + [BaseName(path)] && Resolve(s, ROOT, dirs) == Some(d)
  {
    dirs := LastComponent(path);
    SearchDir(s, path, Tokens(path, '/'));
  }

  /** Find-or-create on a path whose directory exists takes one step there. */
  lemma MakeInDirectory(s: State, path: string, d: nat)
    requires Neat(s) && Ordinary(BaseName(path)) && Search(s, ROOT, DirName(path)) == Some(d) && d in s.ents
    ensures Make(s, ROOT, path) == MakeStep(s, d, BaseName(path))
  {
    var dirs := Directory(s, path, d);
    MakeBelow(s, dirs, d, BaseName(path));
  }

  /** The directory's scan hits a pattern for links. */
  predicate LinkPattern(s: State, path: string, d: nat)
    requires Shape(s)
  {
    && Ordinary(BaseName(path)) && Search(s, ROOT, DirName(path)) == Some(d)
    && var h := Probe(s, s.ents[d].kids, BaseName(path)); h.Pattern? && s.ents[h.id].schema.kind == Link
  }

  lemma NewEntryHidden(s: State, d: nat, x: Template, c: string)
    requires Shape(s) && d in s.ents
    ensures var g := Graft(s, d, x, c, false);
      s.nextId in g.ents && !g.ents[s.nextId].hidden && g.ents[s.nextId].value == Empty && g.ents[s.nextId].schema == x
  {
    GraftEntry(s, d, x, c, false, d);
  }

  lemma MakeAtPattern(s: State, path: string, d: nat)
    requires Neat(s) && LinkPattern(s, path, d)
    ensures Search(s, ROOT, path) == None
    ensures var (t, m) := Make(s, ROOT, path);
      && m == Some(s.nextId) && s.nextId in t.ents && !t.ents[s.nextId].hidden
      && t.ents[s.nextId].value == Empty && t.ents[s.nextId].schema.kind == Link
  {
    var h := Probe(s, s.ents[d].kids, BaseName(path));
    assert NeatAt(s, d);
    PatternMeansAbsent(s, s.ents[d].kids, BaseName(path));
    SearchBreakup(s, path, d);
    MakeInDirectory(s, path, d);
    NewEntryHidden(s, d, s.ents[h.id].schema, BaseName(path));
  }

  /** Creating a file where only a pattern for links matches is refused, yet leaves a link without a target. */
  lemma CreateOnLinkPattern(s: State, path: string, d: nat)
    requires Tree(s) && Neat(s) && Apart(Tokens(path, '/')) && LinkPattern(s, path, d)
    ensures var (t, r) := Create(s, path);
      r == Failed(EPERM) && Shape(t) && Readlink(s, path) == NoEntry && Readlink(t, path) == NoTarget
  {
    MakeAtPattern(s, path, d);
    MakeThenSearch(s, path);
  }

  // ---------------------------------------------------------------- what stays unchanged

  /** n's entry is as before, up to new children. */
  ghost predicate Kept(s: State, t: State, n: nat) {
    n in s.ents ==> n in t.ents && t.ents[n] == s.ents[n].(kids := t.ents[n].kids)
  }

  lemma {:induction false} MakeKeeps(s: State, n: nat, q: seq<string>, k: nat)
    requires Shape(s) && n in s.ents
    ensures Kept(s, MakeWalk(s, n, q).0, k)
    decreases |q|
  {
    if q != [] && k in s.ents {
      MakeStepShape(s, n, q[0]);
      var (t, m) := MakeStep(s, n, q[0]);
      if q[0] != ".." && q[0] != "." && Probe(s, s.ents[n].kids, q[0]).Pattern? {
        GraftEntry(s, n, s.ents[Probe(s, s.ents[n].kids, q[0]).id].schema, q[0], false, k);
      }
      if m.Some? { MakeKeeps(t, m.value, q[1..], k); }
    }
  }

  /** The entry an operation on a path changes, if any. */
  function TargetOf(s: State, op: Op): Option<nat>
    requires Shape(s)
  {
    match op
    case OpCreate(path) => Make(s, ROOT, path).1
    case OpSymlink(_, path) => Make(s, ROOT, path).1
    case OpUnlink(path) => Search(s, ROOT, path)
    case OpWrite(path, _) => Search(s, ROOT, path)
    case _ => None
  }

  /** create, symlink, unlink and write touch no earlier entry but their target; others only gain children. */
  lemma SetKept(s: State, t: State, n: nat, e: Entry, k: nat)
    requires Kept(s, t, k) && k != n
    ensures Kept(s, t.(ents := t.ents[n := e]), k)
  {
  }

  lemma OthersKept(s: State, op: Op, setter: Setter, k: nat)
    requires Tree(s) && Legal(s, op) && (op.OpCreate? || op.OpSymlink? || op.OpUnlink? || op.OpWrite?)
    requires TargetOf(s, op) != Some(k)
    ensures Kept(s, Apply(s, op, setter), k)
  {
    match op
    case OpCreate(path) =>
      MakeKeeps(s, ROOT, Tokens(path, '/'), k);
      var (t, r) := Make(s, ROOT, path);
      if r.Some? { SetKept(s, t, r.value, t.ents[r.value].(hidden := false), k); }
    case OpSymlink(target, path) =>
      MakeKeeps(s, ROOT, Tokens(path, '/'), k);
      var (t, r) := Make(s, ROOT, path);
      if r.Some? { SetKept(s, t, r.value, t.ents[r.value].(hidden := false, value := Target(target)), k); }
    case OpUnlink(path) =>
    case OpWrite(path, _) =>
  }
}
