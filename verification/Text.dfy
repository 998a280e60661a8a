/** Strings and path components, as the C library functions the sources rely on see them. */
module Text {

  /** isspace in the C locale */
  predicate IsSpace(c: char) { c == ' ' || '\U{9}' <= c <= '\U{D}' }

  /** Length of the longest prefix of s without the character c. */
  function Span(s: string, c: char): (k: nat)
    ensures k <= |s| && c !in s[..k] && (k < |s| ==> s[k] == c)
  {
    if s == [] || s[0] == c then 0 else 1 + Span(s[1..], c)
  }

  /** The tokens strtok_r delivers: maximal runs free of the delimiter d; empty ones are skipped. */
  function Tokens(s: string, d: char): (r: seq<string>)
    ensures forall i :: 0 <= i < |r| ==> r[i] != [] && d !in r[i]
    decreases |s|
  {
    if s == [] then []
    else if s[0] == d then Tokens(s[1..], d)
    else var k := Span(s, d); [s[..k]] + Tokens(s[k..], d)
  }

  lemma {:induction false} SpanAt(s: string, c: char, k: nat)
    requires k <= |s| && c !in s[..k] && (k < |s| ==> s[k] == c)
    ensures Span(s, c) == k
  {
    if s != [] && s[0] != c {
      assert k > 0;
      assert s[1..][..k - 1] == s[..k][1..];
      SpanAt(s[1..], c, k - 1);
    }
  }

  lemma {:induction false} TokensOfWord(w: string, d: char)
    requires w != [] && d !in w
    ensures Tokens(w, d) == [w]
  {
    assert w[..|w|] == w;
    SpanAt(w, d, |w|);
  }

  /** Joining two strings with a delimiter concatenates their token lists. */
  lemma {:induction false} TokensJoin(p: string, q: string, d: char)
    ensures Tokens(p + [d] + q, d) == Tokens(p, d) + Tokens(q, d)
    decreases |p|
  {
    var w := p + [d] + q;
    if p == [] {
      assert w[1..] == q;
    } else if p[0] == d {
      assert w[1..] == p[1..] + [d] + q;
      TokensJoin(p[1..], q, d);
    } else {
      var k := Span(p, d);
      assert w[..k] == p[..k];
      SpanAt(w, d, k);
      if k == |p| {
        assert w[k..] == [d] + q;
        assert ([d] + q)[1..] == q;
        assert Tokens(p[k..], d) == [];
      } else {
        assert w[k..] == p[k..] + [d] + q;
        TokensJoin(p[k..], q, d);
      }
    }
  }

  // ---------------------------------------------------------------- dirname and basename

  /** Path without its trailing slashes. */
  function TrimSlashes(p: string): (t: string)
    ensures t <= p && (t != [] ==> t[|t| - 1] != '/')
    ensures forall i :: |t| <= i < |p| ==> p[i] == '/'
  {
    if p != [] && p[|p| - 1] == '/' then TrimSlashes(p[..|p| - 1]) else p
  }

  /** Offset just behind the last slash of p, 0 when p has none. */
  function BaseOffset(p: string): (k: nat)
    ensures k <= |p| && '/' !in p[k..] && (k > 0 ==> p[k - 1] == '/')
  {
    if p == [] then 0
    else if p[|p| - 1] == '/' then |p|
    else
      var k := BaseOffset(p[..|p| - 1]);
      assert p[k..] == p[..|p| - 1][k..] + [p[|p| - 1]];
      k
  }

  /** POSIX basename(3), as util.c's breakup_path calls it. */
  function BaseName(path: string): string {
    var t := TrimSlashes(path);
    if path == [] then "."
    else if t == [] then "/"
    else t[BaseOffset(t)..]
  }

  /** POSIX dirname(3). */
  function DirName(path: string): string {
    var t := TrimSlashes(path);
    if path == [] then "."
    else if t == [] then "/"
    else if BaseOffset(t) == 0 then "."
    else
      var d := TrimSlashes(t[..BaseOffset(t)]);
      if d == [] then "/" else d
  }

  lemma SlashBehind(p: string, i: int, j: nat)
    ensures j <= i < |p| && p[i] == '/' ==> '/' in p[j..]
  {
    if j <= i < |p| { assert p[j..][i - j] == p[i]; }
  }

  lemma OffsetAt(p: string, k: nat)
    requires k <= |p| && '/' !in p[k..] && (k > 0 ==> p[k - 1] == '/')
    ensures BaseOffset(p) == k
  {
    var j: int := BaseOffset(p);
    SlashBehind(p, k - 1, j);
    SlashBehind(p, j - 1, k);
  }

  /** As POSIX has it in its examples for basename and dirname. */
  lemma PosixNames()
    ensures BaseName("/usr/lib") == "lib" && DirName("/usr/lib") == "/usr"
    ensures BaseName("/usr/") == "usr" && DirName("/usr/") == "/"
    ensures BaseName("usr") == "usr" && DirName("usr") == "."
    ensures BaseName("/") == "/" && DirName("/") == "/" && BaseName("") == "." && DirName("") == "."
  {
    OffsetAt("/usr/lib", 5);
    OffsetAt("/usr", 1);
    OffsetAt("usr", 0);
    assert "/usr/"[..4] == "/usr" && TrimSlashes("/usr/") == TrimSlashes("/usr") == "/usr";
    assert "/"[..0] == "" && TrimSlashes("/") == TrimSlashes("") == "";
    assert "/usr/lib"[..5] == "/usr/" && "/usr"[..1] == "/";
    assert "/usr/lib"[5..] == "lib" && "/usr"[1..] == "usr" && "usr"[0..] == "usr";
  }

  lemma {:induction false} TokensTrimmed(p: string)
    ensures Tokens(TrimSlashes(p), '/') == Tokens(p, '/')
  {
    if p != [] && p[|p| - 1] == '/' {
      var q := p[..|p| - 1];
      assert p == q + ['/'] + [];
      TokensJoin(q, [], '/');
      TokensTrimmed(q);
    }
  }

  /** A string d + "/" + w, where w is slash-free, has the components of d/ followed by w. */
  lemma TokensCutAt(d: string, w: string)
    requires w != [] && '/' !in w
    ensures Tokens(d + ['/'] + w, '/') == Tokens(d + ['/'], '/') + [w]
  {
    TokensOfWord(w, '/');
    TokensJoin(d, w, '/');
    assert d + ['/'] + [] == d + ['/'];
    TokensJoin(d, [], '/');
  }

  /** Cutting behind the last slash cuts off exactly the last component. */
  lemma TokensCut(t: string)
    requires t != [] && t[|t| - 1] != '/'
    ensures t[BaseOffset(t)..] != []
    ensures Tokens(t, '/') == Tokens(t[..BaseOffset(t)], '/') + [t[BaseOffset(t)..]]
  {
    var k := BaseOffset(t);
    assert k < |t|;
    if k == 0 {
      assert t[0..] == t && t[..0] == [];
      TokensOfWord(t, '/');
    } else {
      assert t[..k] == t[..k - 1] + ['/'];
      assert t == t[..k] + t[k..];
      TokensCutAt(t[..k - 1], t[k..]);
    }
  }

  /** dirname(3) keeps all components but the last one, or is "." when there is only one. */
  lemma DirTokens(path: string)
    requires Tokens(path, '/') != []
    ensures DirName(path) != []
    ensures var t := TrimSlashes(path); var k := BaseOffset(t);
      t != [] && if k == 0 then DirName(path) == "."
                 else Tokens(DirName(path), '/') == Tokens(t[..k], '/') && DirName(path)[0] == path[0]
  {
    var t := TrimSlashes(path);
    TokensTrimmed(path);
    assert t != [];
    var k := BaseOffset(t);
    if k > 0 {
      TokensTrimmed(t[..k]);
      if TrimSlashes(t[..k]) == [] {
        assert t[..k][0] == '/';
        assert Tokens("/", '/') == Tokens([], '/');
      }
    }
  }

  /** Splitting a path that names something cuts off exactly its last component. */
  lemma BreakupPath(path: string, toks: seq<string>)
    requires toks == Tokens(path, '/') && toks != []
    ensures toks[|toks| - 1] == BaseName(path)
    ensures var dirs := toks[..|toks| - 1];
      if DirName(path) == "." then dirs == [] || dirs == ["."]
      else Tokens(DirName(path), '/') == dirs && DirName(path) != [] && DirName(path)[0] == path[0]
  {
    var t := TrimSlashes(path);
    TokensTrimmed(path);
    DirTokens(path);
    TokensCut(t);
    var k := BaseOffset(t);
    var dirs := Tokens(t[..k], '/');
    assert toks == dirs + [BaseName(path)];
    assert toks[..|toks| - 1] == dirs;
    if k == 0 {
      assert t[..k] == [];
    } else if DirName(path) == "." {
      TokensOfWord(".", '/');
    }
  }
}
