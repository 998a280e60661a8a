/**
 * The abstract value of the schema filesystem: entries named by numbers, sibling chains as
 * sequences, and every operation of schemafs.c as a function from state to state.
 */
module Namespace {
  import opened Wrappers
  import opened Text
  import opened Schemas
  import opened Globs

  const ROOT: nat := 0

  /** The union in SchemaEnt: nothing yet, a link target, or a file's bytes. */
  datatype Value = Empty | Target(path: string) | Bytes(data: string)

  /** A SchemaEnt; kids lists its `children` chain. The root's parent pointer is NULL, here ROOT itself. */
  datatype Entry = Entry(name: string, schema: Template, hidden: bool, value: Value, par: nat, kids: seq<nat>)

  /** nextId is the next unused number. */
  datatype State = State(ents: map<nat, Entry>, nextId: nat)

  // ---------------------------------------------------------------- well-formed trees

  ghost predicate NoDup(ids: seq<nat>) {
    forall i, j :: 0 <= i < j < |ids| ==> ids[i] != ids[j]
  }

  /** ids is a chain of distinct entries whose parent is p. */
  ghost predicate Chain(m: map<nat, Entry>, ids: seq<nat>, p: nat) {
    NoDup(ids) && forall i :: 0 <= i < |ids| ==> ids[i] in m && ids[i] != ROOT && m[ids[i]].par == p
  }

  /** Sibling chains are disjoint, and each entry's parent owns the chain the entry is on. */
  ghost predicate Shape(s: State) {
    && ROOT in s.ents && s.ents[ROOT].par == ROOT
    && (forall n {:trigger n in s.ents} :: n in s.ents ==> n < s.nextId)
    && (forall n {:trigger s.ents[n].kids} :: n in s.ents ==> Chain(s.ents, s.ents[n].kids, n))
    && (forall n {:trigger s.ents[n].par} :: n in s.ents && n != ROOT ==>
          s.ents[n].par in s.ents && n in s.ents[s.ents[n].par].kids)
  }

  /** lv places every entry strictly below its parent, at most b levels deep. */
  ghost predicate Leveled(s: State, lv: map<nat, nat>, b: nat) {
    && (forall n {:trigger n in s.ents} :: n in s.ents ==> n in lv && lv[n] <= b)
    && (forall n {:trigger s.ents[n].par} :: n in s.ents && n != ROOT ==>
          s.ents[n].par in s.ents && lv[s.ents[n].par] < lv[n])
  }

  ghost predicate Tree(s: State) {
    Shape(s) && exists lv, b :: Leveled(s, lv, b)
  }

  ghost function LevelsOf(s: State): (r: (map<nat, nat>, nat))
    requires Tree(s)
    ensures Leveled(s, r.0, r.1)
  {
    var lv, b :| Leveled(s, lv, b);
    (lv, b)
  }

  ghost function Level(s: State, n: nat): nat
    requires Tree(s) && n in s.ents
  {
    LevelsOf(s).0[n]
  }

  /** n is top or lies in top's subtree. */
  ghost predicate Under(s: State, n: nat, top: nat)
    requires Tree(s) && n in s.ents
    decreases Level(s, n)
  {
    n == top || (n != ROOT && Under(s, s.ents[n].par, top))
  }

  ghost predicate DistinctNames(s: State, ids: seq<nat>)
    requires forall i :: 0 <= i < |ids| ==> ids[i] in s.ents
  {
    forall i, j :: 0 <= i < j < |ids| ==> s.ents[ids[i]].name != s.ents[ids[j]].name
  }

  /** Siblings have different names. */
  ghost predicate Unique(s: State)
    requires Shape(s)
  {
    forall n {:trigger s.ents[n].kids} :: n in s.ents ==> DistinctNames(s, s.ents[n].kids)
  }

  /** Only directories have children. */
  ghost predicate DirsOnly(s: State) {
    forall n :: n in s.ents && s.ents[n].kids != [] ==> IsDir(s.ents[n].schema.kind)
  }

  /** What a lookup can ask for: not empty, not "." or "..", no slash. */
  predicate Ordinary(name: string) {
    name != [] && name != "." && name != ".." && '/' !in name
  }

  ghost predicate OrdinaryNames(s: State) {
    forall n :: n in s.ents && n != ROOT ==> Ordinary(s.ents[n].name)
  }

  // ---------------------------------------------------------------- lookup

  /** First entry of a sibling chain called c. */
  function FindName(s: State, ids: seq<nat>, c: string): (r: Option<nat>)
    requires forall i :: 0 <= i < |ids| ==> ids[i] in s.ents
    ensures r.Some? ==> r.value in ids && s.ents[r.value].name == c
    ensures r.None? ==> forall i :: 0 <= i < |ids| ==> s.ents[ids[i]].name != c
  {
    if ids == [] then None
    else if s.ents[ids[0]].name == c then Some(ids[0])
    else FindName(s, ids[1..], c)
  }

  /** One turn of the loop in schemafs_search. */
  function Step(s: State, n: nat, c: string): (r: Option<nat>)
    requires Shape(s) && n in s.ents
    ensures r.Some? ==> r.value in s.ents
  {
    if c == ".." then Some(s.ents[n].par)
    else if c == "." then Some(n)
    else FindName(s, s.ents[n].kids, c)
  }

  function Resolve(s: State, n: nat, q: seq<string>): (r: Option<nat>)
    requires Shape(s) && n in s.ents
    ensures r.Some? ==> r.value in s.ents
    decreases |q|
  {
    if q == [] then Some(n)
    else match Step(s, n, q[0])
      case None => None
      case Some(m) => Resolve(s, m, q[1..])
  }

  /**
   * schemafs_search. As in the code, a path WITHOUT a leading slash climbs to the root first,
   * one with a leading slash starts at the given entry; only slashes name the start itself.
   */
  function Search(s: State, start: nat, path: string): (r: Option<nat>)
    requires Shape(s) && start in s.ents
    ensures r.Some? ==> r.value in s.ents
  {
    var toks := Tokens(path, '/');
    if toks == [] && (path == [] || path[0] != '/') then None
    else Resolve(s, if path[0] != '/' then ROOT else start, toks)
  }

  /** A path without "..". */
  predicate Plain(q: seq<string>) {
    forall i :: 0 <= i < |q| ==> q[i] != ".."
  }

  // ---------------------------------------------------------------- instantiating templates

  /** Number of entries _fill makes for one node (below an OBJECT it makes none). */
  function SizeOne(t: Template): (k: nat)
    ensures k >= 1
    decreases t, 0
  {
    1 + if t.kind == Subdir then Size(t.children) else 0
  }

  function Size(f: Forest): nat
    decreases f, 1
  {
    if f.Nil? then 0 else SizeOne(f) + Size(f.next)
  }

  /** Numbers of the entries instantiating a sibling chain that is numbered from lo on, in preorder. */
  function Roots(f: Forest, lo: nat): (r: seq<nat>)
    ensures |r| == Len(f)
  {
    if f.Nil? then [] else [lo] + Roots(f.next, lo + SizeOne(f))
  }

  function NewEntry(t: Template, p: nat, kids: seq<nat>): Entry {
    Entry(t.name, t, '*' in t.name || t.kind == Link, Empty, p, kids)
  }

  function FillOne(t: Template, p: nat, id: nat): map<nat, Entry>
    decreases t, 0
  {
    if t.kind == Subdir
    then FillChain(t.children, id, id + 1)[id := NewEntry(t, p, Roots(t.children, id + 1))]
    else map[id := NewEntry(t, p, [])]
  }

  function FillChain(f: Forest, p: nat, lo: nat): map<nat, Entry>
    decreases f, 1
  {
    if f.Nil? then map[] else FillOne(f, p, lo) + FillChain(f.next, p, lo + SizeOne(f))
  }

  /** The state _init builds from the parsed schema. */
  function Initial(t: Template): State {
    State(FillOne(t, ROOT, ROOT), SizeOne(t))
  }

  /** Put the entries f, whose top has the number s.nextId, in front of p's chain under the given name. */
  function Attach(s: State, p: nat, f: map<nat, Entry>, size: nat, name: string, hidden: bool): State
    requires p in s.ents && s.nextId in f
  {
    State(s.ents[p := s.ents[p].(kids := [s.nextId] + s.ents[p].kids)] +
          f[s.nextId := f[s.nextId].(name := name, hidden := hidden)], s.nextId + size)
  }

  /** Instantiate t and put it in front of p's chain under the given name. */
  function Graft(s: State, p: nat, t: Template, name: string, hidden: bool): State
    requires p in s.ents
  {
    Attach(s, p, FillOne(t, p, s.nextId), SizeOne(t), name, hidden)
  }

  // ---------------------------------------------------------------- relinking

  function Without(ids: seq<nat>, e: nat): seq<nat> {
    if ids == [] then [] else if ids[0] == e then ids[1..] else [ids[0]] + Without(ids[1..], e)
  }

  /** Take e off the chain of its parent. */
  function Unlink(m: map<nat, Entry>, e: nat): map<nat, Entry>
    requires e in m && m[e].par in m
  {
    var o := m[e].par;
    m[o := m[o].(kids := Without(m[o].kids, e))]
  }

  /** Take e off its chain, rename it, and put it in front of p's chain. */
  function Move(s: State, e: nat, p: nat, name: string): State
    requires e in s.ents && s.ents[e].par in s.ents && p in s.ents
  {
    var m := Unlink(s.ents, e);
    var k := m[p := m[p].(kids := [e] + m[p].kids)];
    s.(ents := k[e := k[e].(name := name, par := p)])
  }

  /** Take e and everything under it out of the tree. */
  ghost function Cut(s: State, e: nat): State
    requires Tree(s) && e in s.ents && e != ROOT
  {
    var m := Unlink(s.ents, e);
    s.(ents := map n | n in m && !Under(s, n, e) :: m[n])
  }

  // ---------------------------------------------------------------- find or create

  datatype Hit = Miss | Found(id: nat) | Pattern(id: nat)

  /** The scan of schemafs_fnmatch: the first sibling that has the name, or whose name as a pattern matches it. */
  function Probe(s: State, ids: seq<nat>, c: string): (h: Hit)
    requires forall i :: 0 <= i < |ids| ==> ids[i] in s.ents
    ensures !h.Miss? ==> h.id in ids && Takes(s.ents[h.id].name, c)
    ensures h.Found? <==> !h.Miss? && s.ents[h.id].name == c
  {
    if ids == [] then Miss
    else if s.ents[ids[0]].name == c then Found(ids[0])
    else if FnMatch(s.ents[ids[0]].name, c) then Pattern(ids[0])
    else Probe(s, ids[1..], c)
  }

  /** One turn of the loop in schemafs_fnmatch with create=1 (its only use). */
  function MakeStep(s: State, n: nat, c: string): (r: (State, Option<nat>))
    requires Shape(s) && n in s.ents
  {
    if c == ".." then (s, Some(s.ents[n].par))
    else if c == "." then (s, Some(n))
    else match Probe(s, s.ents[n].kids, c)
      case Found(x) => (s, Some(x))
      case Pattern(x) => (Graft(s, n, s.ents[x].schema, c, false), Some(s.nextId))
      case Miss => (s, None)
  }
}
