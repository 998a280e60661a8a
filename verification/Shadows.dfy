/**
 * Inputs on which the code leaves a name twice, makes an entry anew or gives one a name its schema does
 * not allow.
 */
module Shadows {
  import opened Wrappers
  import opened Text
  import opened Schemas
  import opened Globs
  import opened Namespace
  import opened Grafting
  import opened Creating
  import opened Operations
  import opened Instantiation
  import opened Neatness
  import opened Runs
  import opened Duplicates
  import opened Visibility
  import opened Naming
  import Observing

  // ---------------------------------------------------------------- creating an entry once more

  /** A step of find-or-create keeps names distinct unless it creates an entry whose name a later sibling has. */
  lemma MakeStepUniqueIff(s: State, n: nat, c: string)
    requires Shape(s) && Unique(s) && Tidied(s.ents) && n in s.ents
    ensures Shape(MakeStep(s, n, c).0)
    ensures Unique(MakeStep(s, n, c).0) <==> !Creates(s, n, c) || FindName(s, s.ents[n].kids, c) == None
  {
    MakeStepShape(s, n, c);
    if Creates(s, n, c) {
      GraftUniqueIff(s, n, s.ents[Probe(s, s.ents[n].kids, c).id].schema, c, false);
    }
  }

  lemma PatternStep(s: State, n: nat, c: string, x: nat)
    requires Shape(s) && n in s.ents && Ordinary(c) && Probe(s, s.ents[n].kids, c) == Pattern(x)
    ensures x in s.ents && MakeStep(s, n, c) == (Graft(s, n, s.ents[x].schema, c, false), Some(s.nextId))
    ensures var g := MakeStep(s, n, c).0;
      && Shape(g) && Extends(s, g) && s.nextId !in s.ents && n in g.ents
      && g.ents[n].kids == [s.nextId] + s.ents[n].kids && s.nextId in g.ents
      && g.ents[s.nextId].name == c && g.ents[s.nextId].par == n && g.ents[s.nextId].schema == s.ents[x].schema
  {
    GraftNames(s, n, s.ents[x].schema, c, false, n);
    GraftEntry(s, n, s.ents[x].schema, c, false, n);
  }

  // ---------------------------------------------------------------- a name that is a pattern

  /** A visible OBJECT without a template is the root's one child. */
  ghost predicate Ready(s: State, name: string) {
    && Shape(s) && s.ents[ROOT].kids == [1] && 1 in s.ents && s.ents[1].name == name && !s.ents[1].hidden
    && s.ents[1].schema == Node(name, Object, Nil, Nil)
  }

  lemma ReadyMkdir(s: State, name: string, c: string)
    requires Ready(s, name) && Ordinary(name) && Ordinary(c) && name != c
    ensures var path := ['/'] + name + ['/'] + c;
      && Mkdir(s, path) == (Graft(s, 1, Node(c, Subdir, Nil, Nil), c, '*' in c), Done)
      && Search(s, ROOT, path) == FindName(s, s.ents[1].kids, c)
    ensures var t := Mkdir(s, ['/'] + name + ['/'] + c).0;
      && Ready(t, name) && Extends(s, t) && t.ents[1].kids == [s.nextId] + s.ents[1].kids
      && s.nextId in t.ents && t.ents[s.nextId].name == c && t.ents[s.nextId].schema == Node(c, Subdir, Nil, Nil)
  {
    var path := ['/'] + name + ['/'] + c;
    PathOf(name, c);
    SearchTokens(s, ['/'] + name);
    ResolveSingle(s, ROOT, name);
    assert FindName(s, [1], name) == Some(1) && FindName(s, [1], c) == None;
    DuplicateCheck(s, 1, c);
    SearchBreakup(s, path, 1);
    var x := Node(c, Subdir, Nil, Nil);
    GraftNames(s, 1, x, c, '*' in c, 1);
    GraftEntry(s, 1, x, c, '*' in c, 1);
    GraftEntry(s, 1, x, c, '*' in c, ROOT);
  }

  lemma PathTokens(name: string, c: string, f: string)
    requires Ordinary(name) && Ordinary(c) && Ordinary(f)
    ensures Tokens(['/'] + name + ['/'] + c + ['/'] + f, '/') == [name, c, f]
  {
    PathOf(name, c);
    TokensOfWord(c, '/');
    TokensOfWord(f, '/');
    TokensJoin(['/'] + name, c, '/');
    TokensJoin(['/'] + name + ['/'] + c, f, '/');
  }

  /** Find-or-create on a path two levels below the root's child takes two steps there. */
  lemma ReadyMake(s: State, name: string, c: string, f: string)
    requires Ready(s, name) && Ordinary(name) && Ordinary(c) && Ordinary(f) && MakeStep(s, 1, c).1.Some?
    ensures Shape(MakeStep(s, 1, c).0) && MakeStep(s, 1, c).1.value in MakeStep(s, 1, c).0.ents
    ensures Make(s, ROOT, ['/'] + name + ['/'] + c + ['/'] + f)
         == MakeStep(MakeStep(s, 1, c).0, MakeStep(s, 1, c).1.value, f)
  {
    PathTokens(name, c, f);
    var q := [name, c, f];
    assert Probe(s, [1], name) == Found(1);
    assert MakeStep(s, ROOT, name) == (s, Some(1));
    assert q[1..] == [c, f] && [c, f][1..] == [f];
    MakeStepShape(s, 1, c);
    var (t, m) := MakeStep(s, 1, c);
    Observing.MakeOne(t, m.value, f);
    assert MakeWalk(s, 1, [c, f]) == MakeWalk(t, m.value, [f]);
    assert MakeWalk(s, ROOT, q) == MakeWalk(s, 1, [c, f]);
  }

  lemma ReadyMkdirKept(s: State, name: string, c: string)
    requires Ready(s, name) && Unique(s) && Tidied(s.ents) && Ordinary(name) && Ordinary(c) && name != c
    requires FindName(s, s.ents[1].kids, c) == None
    ensures var t := Mkdir(s, ['/'] + name + ['/'] + c).0; Shape(t) && Unique(t) && Tidied(t.ents)
  {
    ReadyMkdir(s, name, c);
    var x := Node(c, Subdir, Nil, Nil);
    GraftTidied(s, 1, x, c, '*' in c);
    GraftUniqueIff(s, 1, x, c, '*' in c);
  }

  /** Two siblings, the first one called c, the second one a. */
  lemma PairScan(t: State, x: nat, y: nat, c: string, a: string)
    requires x in t.ents && y in t.ents && t.ents[x].name == c && t.ents[y].name == a && a != c
    ensures FindName(t, [x, y], a) == Some(y)
    ensures Probe(t, [x, y], a) == if FnMatch(c, a) then Pattern(x) else Found(y)
    ensures NoShadowChain(t, [x, y]) <==> !FnMatch(c, a)
  {
    var ids := [x, y];
    assert ids[1..] == [y];
    assert NoShadowChain(t, ids) <==> !Takes(t.ents[ids[0]].name, t.ents[ids[1]].name);
  }

  /** A directory without children and without templates for any. */
  predicate Empty(e: Entry) { e.schema.kind == Subdir && e.schema.children == Nil && e.kids == [] }

  /** The chain consists of empty directories called names. */
  ghost predicate Directories(m: map<nat, Entry>, ids: seq<nat>, names: seq<string>) {
    && |ids| == |names|
    && forall i :: 0 <= i < |ids| ==> ids[i] in m && m[ids[i]].name == names[i] && Empty(m[ids[i]])
  }

  /** A state whose one OBJECT has the children named names, all of them directories. */
  ghost predicate Holding(s: State, name: string, names: seq<string>) {
    Ready(s, name) && Unique(s) && Tidied(s.ents) && Directories(s.ents, s.ents[1].kids, names)
  }

  lemma NotThere(s: State, ids: seq<nat>, names: seq<string>, c: string)
    requires Directories(s.ents, ids, names) && c !in names
    ensures FindName(s, ids, c) == None
  {
    forall i | 0 <= i < |ids|
      ensures s.ents[ids[i]].name != c
    {
      assert names[i] in names;
    }
  }

  lemma DirectoriesMore(m: map<nat, Entry>, g: map<nat, Entry>, ids: seq<nat>, names: seq<string>, p: nat, x: nat,
                        c: string)
    requires Directories(m, ids, names) && p !in ids && x in g && Empty(g[x]) && g[x].name == c
    requires forall n {:trigger m[n]} :: n in m && n != p ==> n in g && g[n] == m[n]
    ensures Directories(g, [x] + ids, [c] + names)
  {
    var all, more := [c] + names, [x] + ids;
    forall i | 0 <= i < |more|
      ensures more[i] in g && g[more[i]].name == all[i] && Empty(g[more[i]])
    {
      if i > 0 {
        assert more[i] == ids[i - 1] && all[i] == names[i - 1] && more[i] in ids;
        assert m[more[i]].name == names[i - 1];
      }
    }
  }

  lemma NotAmongItsChildren(s: State, name: string)
    requires Ready(s, name)
    ensures 1 !in s.ents[1].kids
  {
    assert Chain(s.ents, s.ents[ROOT].kids, ROOT) && Chain(s.ents, s.ents[1].kids, 1);
    assert s.ents[ROOT].kids[0] == 1;
    forall i | 0 <= i < |s.ents[1].kids|
      ensures s.ents[1].kids[i] != 1
    {
      assert s.ents[s.ents[1].kids[i]].par == 1;
    }
  }

  lemma MadeEmpty(s: State, p: nat, c: string, hidden: bool)
    requires Shape(s) && p in s.ents
    ensures var g := Graft(s, p, Node(c, Subdir, Nil, Nil), c, hidden).ents;
      s.nextId in g && Empty(g[s.nextId]) && g[s.nextId].name == c
  {
    GraftTop(s, p, Node(c, Subdir, Nil, Nil), c, hidden);
  }

  lemma HoldingMore(s: State, name: string, names: seq<string>, c: string) returns (t: State)
    requires Holding(s, name, names) && Ordinary(name) && Ordinary(c) && name != c && c !in names
    ensures var path := ['/'] + name + ['/'] + c;
      Search(s, ROOT, path) == None && Mkdir(s, path) == (t, Done) && Holding(t, name, [c] + names)
  {
    t := Mkdir(s, ['/'] + name + ['/'] + c).0;
    ReadyMkdir(s, name, c);
    NotThere(s, s.ents[1].kids, names, c);
    ReadyMkdirKept(s, name, c);
    forall n | n in s.ents && n != 1
      ensures n in t.ents && t.ents[n] == s.ents[n]
    {
      GraftEntry(s, 1, Node(c, Subdir, Nil, Nil), c, '*' in c, n);
    }
    NotAmongItsChildren(s, name);
    MadeEmpty(s, 1, c, '*' in c);
    DirectoriesMore(s.ents, t.ents, s.ents[1].kids, names, 1, s.nextId, c);
  }

  /** The scan for the older of two directories finds it, or makes another one, empty as well. */
  lemma StepToOlder(t: State, name: string, a: string, c: string) returns (u: State, m: nat)
    requires Holding(t, name, [c, a]) && Ordinary(a) && a != c
    ensures MakeStep(t, 1, a) == (u, Some(m)) && Shape(u) && m in u.ents && Empty(u.ents[m])
    ensures Unique(u) <==> !FnMatch(c, a)
  {
    var ids, names := t.ents[1].kids, [c, a];
    assert ids == [ids[0], ids[1]] && t.ents[ids[0]].name == names[0] && t.ents[ids[1]].name == names[1];
    PairScan(t, ids[0], ids[1], c, a);
    MakeStepUniqueIff(t, 1, a);
    if FnMatch(c, a) {
      PatternStep(t, 1, a, ids[0]);
      GraftTop(t, 1, t.ents[ids[0]].schema, a, false);
    }
    u, m := MakeStep(t, 1, a).0, MakeStep(t, 1, a).1.value;
  }

  /** create of a file in the older of two directories. */
  lemma CreateInOlder(t: State, name: string, a: string, c: string, f: string)
    requires Holding(t, name, [c, a]) && Ordinary(name) && Ordinary(a) && Ordinary(f) && a != c
    ensures var (u, r) := Create(t, ['/'] + name + ['/'] + a + ['/'] + f);
      r == Failed(ENOENT) && Shape(u) && (Unique(u) <==> !FnMatch(c, a))
  {
    var u, m := StepToOlder(t, name, a, c);
    ReadyMake(t, name, a, f);
    assert Probe(u, u.ents[m].kids, f) == Miss;
  }

  lemma FirstHeld(s: State, name: string, a: string) returns (u: State)
    requires Holding(s, name, []) && Ordinary(name) && Ordinary(a) && name != a
    ensures Mkdir(s, ['/'] + name + ['/'] + a) == (u, Done) && Holding(u, name, [a])
  {
    u := HoldingMore(s, name, [], a);
    assert [a] + [] == [a];
  }

  lemma SecondHeld(u: State, name: string, a: string, c: string) returns (t: State)
    requires Holding(u, name, [a]) && Ordinary(name) && Ordinary(c) && name != c && a != c
    ensures Search(u, ROOT, ['/'] + name + ['/'] + c) == None
    ensures Mkdir(u, ['/'] + name + ['/'] + c) == (t, Done) && Holding(t, name, [c, a])
  {
    t := HoldingMore(u, name, [a], c);
    assert [c] + [a] == [c, a];
  }

  /** A directory a is made, and then a directory c. */
  lemma BothMade(s: State, name: string, a: string, c: string) returns (u: State, t: State)
    requires Holding(s, name, []) && Ordinary(name) && Ordinary(a) && Ordinary(c) && name != a && name != c && a != c
    ensures Mkdir(s, ['/'] + name + ['/'] + a) == (u, Done)
    ensures Shape(u) && Search(u, ROOT, ['/'] + name + ['/'] + c) == None
    ensures Mkdir(u, ['/'] + name + ['/'] + c) == (t, Done) && Holding(t, name, [c, a])
  {
    u := FirstHeld(s, name, a);
    t := SecondHeld(u, name, a, c);
  }

  /**
   * Two directories are made under different names. When the later name, read as a pattern, matches the
   * earlier one, create of a file in the earlier directory makes that directory a second time, even
   * though it then fails, and only then.
   */
  lemma ShadowedIff(s: State, name: string, a: string, c: string, f: string)
    requires Holding(s, name, []) && Ordinary(name) && Ordinary(a) && Ordinary(c) && Ordinary(f)
    requires name != a && name != c && a != c
    ensures var first, later := ['/'] + name + ['/'] + a, ['/'] + name + ['/'] + c;
      && Mkdir(s, first).1 == Done && var u := Mkdir(s, first).0;
      && Shape(u) && Search(u, ROOT, later) == None && Mkdir(u, later).1 == Done && var t := Mkdir(u, later).0;
      && Shape(t) && Unique(t) && Shape(Create(t, first + ['/'] + f).0)
      && (Unique(Create(t, first + ['/'] + f).0) <==> !FnMatch(c, a))
  {
    var u, t := BothMade(s, name, a, c);
    CreateInOlder(t, name, a, c, f);
  }

  lemma MountHolding(name: string)
    requires Ordinary(name) && '*' !in name
    ensures Holding(Initial(OneObject(name)), name, [])
  {
    OneObjectMounted(name);
    NeatTidied(Initial(OneObject(name)));
  }

  lemma SomeNames()
    ensures Ordinary("switches") && Ordinary("sx") && Ordinary("s?") && Ordinary("foo") && '*' !in "switches"
    ensures "switches" != "sx" && "switches" != "s?" && "sx" != "s?"
  {
    assert "sx"[1] == 'x' && "s?"[1] == '?' && |"switches"| == 8;
  }

  /** For one: on a mount with an empty OBJECT called switches, mkdir sx, mkdir s?, create sx/foo. */
  lemma MarkShadows()
    ensures var s := Initial(OneObject("switches"));
      var sx, mark := ['/'] + "switches" + ['/'] + "sx", ['/'] + "switches" + ['/'] + "s?";
      && Shape(s) && Mkdir(s, sx).1 == Done && var u := Mkdir(s, sx).0;
      && Shape(u) && Search(u, ROOT, mark) == None && Mkdir(u, mark).1 == Done && var t := Mkdir(u, mark).0;
      && Shape(t) && Unique(t) && Shape(Create(t, sx + ['/'] + "foo").0) && !Unique(Create(t, sx + ['/'] + "foo").0)
  {
    SomeNames();
    MountHolding("switches");
    MarkMatches();
    ShadowedIff(Initial(OneObject("switches")), "switches", "sx", "s?", "foo");
  }

  // ---------------------------------------------------------------- files made from one pattern

  /** A root directory with one file pattern. */
  function OneFile(pattern: string): Template {
    Node("/", Subdir, Node(pattern, Str, Nil, Nil), Nil)
  }

  lemma OneFileMounted(pattern: string)
    ensures var s := Initial(OneFile(pattern));
      && Shape(s) && s.ents[ROOT].kids == [1] && 1 in s.ents && s.ents[1].name == pattern
      && s.ents[1].schema == Node(pattern, Str, Nil, Nil)
  {
    var t := Node(pattern, Str, Nil, Nil);
    InitialTree(OneFile(pattern));
    assert FillChain(t, ROOT, 1) == FillOne(t, ROOT, 1) + FillChain(Nil, ROOT, 2);
    assert FillOne(t, ROOT, 1)[1] == NewEntry(t, ROOT, []);
  }

  lemma ProbePast(s: State, x: nat, ids: seq<nat>, c: string)
    requires x in s.ents && (forall i :: 0 <= i < |ids| ==> ids[i] in s.ents)
    ensures Probe(s, [x] + ids, c) == if s.ents[x].name == c then Found(x)
                                      else if FnMatch(s.ents[x].name, c) then Pattern(x) else Probe(s, ids, c)
  {
    assert ([x] + ids)[1..] == ids;
  }

  /** The root's children are a file called c, made from the pattern, and the pattern itself. */
  ghost predicate OneMade(s: State, pattern: string, c: string, x: nat) {
    && Shape(s) && s.ents[ROOT].kids == [x, 1] && x in s.ents && 1 in s.ents && x != 1 && s.ents[x].par == ROOT
    && s.ents[x].name == c && s.ents[1].name == pattern
    && s.ents[x].schema == s.ents[1].schema == Node(pattern, Str, Nil, Nil)
  }

  lemma FirstFromPattern(pattern: string, c: string) returns (g: State, x: nat)
    requires Ordinary(c) && pattern != c && FnMatch(pattern, c)
    ensures var s := Initial(OneFile(pattern)); Shape(s) && MakeStep(s, ROOT, c) == (g, Some(x))
    ensures OneMade(g, pattern, c, x) && !g.ents[x].hidden
  {
    var s := Initial(OneFile(pattern));
    OneFileMounted(pattern);
    ProbePast(s, 1, [], c);
    PatternStep(s, ROOT, c, 1);
    g, x := MakeStep(s, ROOT, c).0, s.nextId;
    GraftEntry(s, ROOT, s.ents[1].schema, c, false, 1);
  }

  /** A second file, which the first one's name or the pattern matches. */
  lemma NextFromPattern(g: State, pattern: string, c: string, x: nat, d: string) returns (h: State, y: nat)
    requires OneMade(g, pattern, c, x) && Ordinary(d) && pattern != d && c != d
    requires FnMatch(c, d) || FnMatch(pattern, d)
    ensures MakeStep(g, ROOT, d) == (h, Some(y)) && Shape(h) && Extends(g, h)
    ensures y in h.ents && h.ents[y].name == d && h.ents[y].schema.name == pattern && h.ents[ROOT].kids == [y, x, 1]
    ensures !h.ents[y].hidden && h.ents[y].schema.kind == Str
  {
    assert [x, 1] == [x] + [1];
    ProbePast(g, x, [1], d);
    ProbePast(g, 1, [], d);
    PatternStep(g, ROOT, d, if FnMatch(c, d) then x else 1);
    h, y := MakeStep(g, ROOT, d).0, g.nextId;
    assert [y] + [x, 1] == [y, x, 1];
  }

  lemma WalkUpAndOn(s: State, c: string, d: string, g: State, x: nat)
    requires Shape(s) && Shape(g) && MakeStep(s, ROOT, c) == (g, Some(x)) && x in g.ents && g.ents[x].par == ROOT
    ensures MakeWalk(s, ROOT, [c, "..", d]) == MakeStep(g, ROOT, d)
  {
    var q := [c, "..", d];
    assert q[1..] == ["..", d] && ["..", d][1..] == [d] && [d][1..] == [];
    MakeStepShape(g, ROOT, d);
    assert MakeWalk(g, x, ["..", d]) == MakeWalk(g, ROOT, [d]);
  }

  /** Where the first child is called d, which matches c as a pattern, the walk makes a further c. */
  lemma MadeAnew(h: State, c: string, d: string, y: nat, ids: seq<nat>)
    requires Shape(h) && h.ents[ROOT].kids == [y] + ids && y in h.ents && h.ents[y].name == d
    requires Ordinary(c) && c != d && FnMatch(d, c)
    ensures h.nextId in MakeWalk(h, ROOT, [c, "..", d]).0.ents && h.nextId !in h.ents
  {
    assert Chain(h.ents, h.ents[ROOT].kids, ROOT);
    forall i | 0 <= i < |ids|
      ensures ids[i] in h.ents
    {
      assert ids[i] == h.ents[ROOT].kids[i + 1];
    }
    ProbePast(h, y, ids, c);
    PatternStep(h, ROOT, c, y);
    var k := MakeStep(h, ROOT, c).0;
    WalkUpAndOn(h, c, d, k, h.nextId);
    MakeStepExtends(k, ROOT, d);
  }

  lemma ApartUpAndOn(c: string, d: string)
    requires !FnMatch(c, d) && !FnMatch(d, c)
    ensures Apart([c, "..", d])
  {
  }

  /**
   * Find-or-create on c/../d, both from one pattern: doing it again changes nothing unless d, read as a
   * pattern, matches c.
   */
  lemma AgainIff(pattern: string, c: string, d: string)
    requires Ordinary(c) && Ordinary(d) && pattern != c && pattern != d && c != d
    requires FnMatch(pattern, c) && FnMatch(pattern, d) && !FnMatch(c, d)
    ensures var s, q := Initial(OneFile(pattern)), [c, "..", d];
      && Shape(s) && MakeWalk(s, ROOT, q).1.Some?
      && var t := MakeWalk(s, ROOT, q).0; MakeWalk(t, ROOT, q).0 == t <==> !FnMatch(d, c)
  {
    var s, q := Initial(OneFile(pattern)), [c, "..", d];
    var g, x := FirstFromPattern(pattern, c);
    var h, y := NextFromPattern(g, pattern, c, x, d);
    WalkUpAndOn(s, c, d, g, x);
    if FnMatch(d, c) {
      assert [y, x, 1] == [y] + [x, 1];
      MadeAnew(h, c, d, y, [x, 1]);
    } else {
      ApartUpAndOn(c, d);
      MakeSoundIdempotent(s, ROOT, q);
    }
  }

  // ---------------------------------------------------------------- a name the schema does not allow

  lemma RootCreate(s: State, c: string)
    requires Shape(s) && Ordinary(c) && MakeStep(s, ROOT, c).1.Some?
    requires var (t, m) := MakeStep(s, ROOT, c);
      m.value in t.ents && !t.ents[m.value].hidden && HasSetter(t.ents[m.value].schema.kind)
    ensures Create(s, ['/'] + c) == (MakeStep(s, ROOT, c).0, Done)
  {
    TokensOfWord(c, '/');
    TokensJoin([], c, '/');
    assert [] + ['/'] + c == ['/'] + c && [c][1..] == [];
    MakeStepShape(s, ROOT, c);
    var (t, m) := MakeStep(s, ROOT, c);
    var e := t.ents[m.value];
    assert MakeWalk(s, ROOT, [c]) == (t, m) && Make(s, ROOT, ['/'] + c) == (t, m);
    assert e.(hidden := false) == e && t.ents[m.value := e] == t.ents;
  }

  /**
   * create c, which the schema's pattern matches, and then create d, which only the name c matches: the
   * second file has the pattern's template, under a name the pattern does not match.
   */
  lemma Misnamed(pattern: string, c: string, d: string)
    requires Ordinary(c) && Ordinary(d) && pattern != c && pattern != d && c != d
    requires FnMatch(pattern, c) && FnMatch(c, d) && !FnMatch(pattern, d)
    ensures var s := Initial(OneFile(pattern));
      && Shape(s) && Create(s, ['/'] + c).1 == Done && var g := Create(s, ['/'] + c).0;
      && Shape(g) && Create(g, ['/'] + d).1 == Done && var h := Create(g, ['/'] + d).0;
      && Shape(h) && exists y :: y in h.ents && h.ents[y].name == d && h.ents[y].schema.name == pattern
  {
    var s := Initial(OneFile(pattern));
    var g, x := FirstFromPattern(pattern, c);
    RootCreate(s, c);
    var h, y := NextFromPattern(g, pattern, c, x, d);
    RootCreate(g, d);
  }

  /** For one: a schema of files called *], and create [a] and then a. */
  lemma BracketsMisname()
    ensures var s := Initial(OneFile("*]"));
      && Shape(s) && Create(s, ['/'] + "[a]").1 == Done && var g := Create(s, ['/'] + "[a]").0;
      && Shape(g) && Create(g, ['/'] + "a").1 == Done && !AllNamed(Create(g, ['/'] + "a").0.ents)
  {
    BracketsNotTransitive();
    Misnamed("*]", "[a]", "a");
    var h := Create(Create(Initial(OneFile("*]")), ['/'] + "[a]").0, ['/'] + "a").0;
    var y :| y in h.ents && h.ents[y].name == "a" && h.ents[y].schema.name == "*]";
    assert !NamedAt(h.ents[y]);
  }

  // ---------------------------------------------------------------- renaming onto a name

  /** A root with one SUBDIR, in it a file called a and an entry called b. */
  function TwoEntries(dir: string, a: string, b: string, kind: Kind): Template {
    Node("/", Subdir, Node(dir, Subdir, Node(a, Str, Nil, Node(b, kind, Nil, Nil)), Nil), Nil)
  }

  /** s has the SUBDIR d in its root, and in that the file i and the entry j. */
  ghost predicate TwoIn(s: State, dir: string, a: string, b: string, kind: Kind, d: nat, i: nat, j: nat) {
    && Neat(s) && s.ents[ROOT].kids == [d] && d in s.ents && s.ents[d].name == dir && !s.ents[d].hidden
    && s.ents[d].schema.kind == Subdir && s.ents[d].kids == [i, j] && i in s.ents && j in s.ents && i != j
    && s.ents[i].name == a && !s.ents[i].hidden && s.ents[j].name == b && s.ents[j].hidden == (kind == Link)
  }

  lemma TwoTidy(dir: string, a: string, b: string, kind: Kind)
    requires Ordinary(dir) && Ordinary(a) && Ordinary(b) && WithoutSpecial(a) && a != b
    ensures TidyForest(TwoEntries(dir, a, b, kind).children)
  {
    Literal(a, b);
    var second := Node(b, kind, Nil, Nil);
    assert TidyForest(second);
    assert forall k: nat :: k < Len(second) ==> Nth(second, k) == second;
    assert TidyForest(Node(a, Str, Nil, second));
  }

  /** The children of an instance of two nodes. */
  lemma PairInstance(s: State, n: nat, u: Template, v: Template)
    requires Instance(s.ents, n) && Visible(s.ents[n].schema) == u && u.next == v && v.next == Nil
    requires AllInstances(s.ents)
    ensures var ids := s.ents[n].kids;
      && |ids| == 2 && ids[0] in s.ents && ids[1] in s.ents && s.ents[ids[0]].schema == u && s.ents[ids[1]].schema == v
      && Instance(s.ents, ids[0]) && Instance(s.ents, ids[1])
  {
    var ids := s.ents[n].kids;
    assert Len(v.next) == 0 && Len(v) == 1 && Len(u) == 2 && Nth(u, 0) == u && Nth(u, 1) == v;
    assert s.ents[ids[0]].schema == Nth(u, 0) && s.ents[ids[1]].schema == Nth(u, 1);
  }

  lemma SingleInstance(s: State, n: nat, u: Template)
    requires Instance(s.ents, n) && Visible(s.ents[n].schema) == u && u.next == Nil && AllInstances(s.ents)
    ensures var ids := s.ents[n].kids;
      && |ids| == 1 && ids[0] in s.ents && s.ents[ids[0]].schema == u && Instance(s.ents, ids[0])
  {
    var ids := s.ents[n].kids;
    assert Len(u) == 1 && s.ents[ids[0]].schema == Nth(u, 0);
  }

  lemma TwoMounted(dir: string, a: string, b: string, kind: Kind) returns (d: nat, i: nat, j: nat)
    requires Ordinary(dir) && Ordinary(a) && Ordinary(b) && a != b
    requires WithoutSpecial(dir) && WithoutSpecial(a) && WithoutSpecial(b)
    ensures TwoIn(Initial(TwoEntries(dir, a, b, kind)), dir, a, b, kind, d, i, j)
  {
    var t := TwoEntries(dir, a, b, kind);
    var s := Initial(t);
    TwoTidy(dir, a, b, kind);
    InitialNeat(t);
    InitialInstance(t);
    assert Instance(s.ents, ROOT);
    SingleInstance(s, ROOT, t.children);
    d := s.ents[ROOT].kids[0];
    PairInstance(s, d, t.children.children, t.children.children.next);
    i, j := s.ents[d].kids[0], s.ents[d].kids[1];
    assert Chain(s.ents, s.ents[d].kids, d);
    assert forall x :: x in [dir, a, b] ==> '*' !in x;
  }

  lemma TwoSearch(s: State, dir: string, a: string, b: string, kind: Kind, d: nat, i: nat, j: nat)
    requires TwoIn(s, dir, a, b, kind, d, i, j) && Ordinary(dir) && Ordinary(a) && Ordinary(b) && dir != b && a != b
    ensures Search(s, ROOT, ['/'] + dir) == Some(d) && Search(s, d, b) == None
    ensures Search(s, ROOT, ['/'] + dir + ['/'] + a) == Some(i) && Search(s, ROOT, ['/'] + dir + ['/'] + b) == Some(j)
  {
    PathOf(dir, a);
    PathOf(dir, b);
    SearchTokens(s, ['/'] + dir);
    ResolveSingle(s, ROOT, dir);
    assert FindName(s, [d], dir) == Some(d) && FindName(s, [d], b) == None;
    DuplicateCheck(s, d, b);
    SearchBreakup(s, ['/'] + dir + ['/'] + a, d);
    SearchBreakup(s, ['/'] + dir + ['/'] + b, d);
    assert [i, j][1..] == [j];
  }

  /**
   * Renaming one entry of a SUBDIR to the name of the other is let through and leaves the name there
   * twice. Onto a file, which the kernel passes on, both are visible; onto a link without a target,
   * which looks absent, one of them is hidden.
   */
  lemma RenameOnto(dir: string, a: string, b: string, kind: Kind)
    requires Ordinary(dir) && Ordinary(a) && Ordinary(b) && a != b && dir != b
    requires WithoutSpecial(dir) && WithoutSpecial(a) && WithoutSpecial(b)
    ensures var s := Initial(TwoEntries(dir, a, b, kind));
      var from, to := ['/'] + dir + ['/'] + a, ['/'] + dir + ['/'] + b;
      && Tree(s) && Unique(s) && RenameLegal(s, from, to) && Rename(s, from, to).1 == Done
      && (LooksAbsent(s, to) <==> kind == Link)
      && Shape(Rename(s, from, to).0) && !Unique(Rename(s, from, to).0)
      && (VisibleUnique(Rename(s, from, to).0) <==> kind == Link)
  {
    var t := TwoEntries(dir, a, b, kind);
    var s := Initial(t);
    var from, to := ['/'] + dir + ['/'] + a, ['/'] + dir + ['/'] + b;
    InitialTree(t);
    var d, i, j := TwoMounted(dir, a, b, kind);
    NeatNames(s);
    PathOf(dir, b);
    TwoSearch(s, dir, a, b, kind, d, i, j);
    assert Chain(s.ents, s.ents[d].kids, d) && Chain(s.ents, s.ents[ROOT].kids, ROOT);
    assert s.ents[d].kids[0] == i && s.ents[ROOT].kids[0] == d;
    assert !Under(s, d, i);
    RenameUniqueIff(s, from, to);
    UniqueVisible(s);
    RenameVisibleIff(s, from, to);
    assert Shows(s, d, j, b) <==> kind != Link;
  }

  /** For one: /d/a renamed to /d/b, both of them files. */
  lemma RenameOntoFile()
    ensures var s := Initial(TwoEntries("d", "a", "b", U8));
      var from, to := ['/'] + "d" + ['/'] + "a", ['/'] + "d" + ['/'] + "b";
      && Tree(s) && RenameLegal(s, from, to) && Rename(s, from, to).1 == Done
      && Shape(Rename(s, from, to).0) && !Unique(Rename(s, from, to).0)
  {
    RenameOnto("d", "a", "b", U8);
  }
}
