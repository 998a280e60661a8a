/** Shell patterns as fnmatch reads them in the C locale (POSIX.1-2008, XCU section 2.13). */
module Globs {
  import opened Wrappers

  /** What one element of a pattern other than `*` matches; a trailing backslash matches nothing. */
  datatype Unit = Any | Is(c: char) | Within(negated: bool, ranges: seq<(char, char)>) | Nothing

  predicate Fits(u: Unit, c: char) {
    match u
    case Any => true
    case Is(d) => c == d
    case Within(negated, ranges) => negated != exists i :: 0 <= i < |ranges| && ranges[i].0 <= c <= ranges[i].1
    case Nothing => false
  }

  /** One character of a bracket expression, a backslash taking the next one as it is. */
  function Quoted(p: string): (r: Option<(char, string)>)
    ensures r.Some? ==> |r.value.1| < |p|
  {
    if p == [] then None
    else if p[0] != '\\' then Some((p[0], p[1..]))
    else if |p| > 1 then Some((p[1], p[2..]))
    else None
  }

  /** The ranges up to the closing bracket, which does not close the expression as its first character. */
  function Ranges(p: string, first: bool): (r: Option<(seq<(char, char)>, string)>)
    ensures r.Some? ==> |r.value.1| < |p|
  {
    if p != [] && p[0] == ']' && !first then Some(([], p[1..]))
    else match Quoted(p)
      case None => None
      case Some((lo, q)) =>
        var range := if |q| > 1 && q[0] == '-' && q[1] != ']' then Quoted(q[1..]) else Some((lo, q));
        if range.None? then None
        else match Ranges(range.value.1, false)
          case None => None
          case Some((more, rest)) => Some(([(lo, range.value.0)] + more, rest))
  }

  /** The first element of a pattern and what follows it. A bracket that is never closed stands for itself. */
  function First(p: string): (r: (Unit, string))
    requires p != []
    ensures |r.1| < |p|
  {
    if p[0] == '?' then (Any, p[1..])
    else if p[0] == '\\' then if |p| > 1 then (Is(p[1]), p[2..]) else (Nothing, [])
    else if p[0] == '[' then
      var negated := |p| > 1 && (p[1] == '!' || p[1] == '^');
      match Ranges(if negated then p[2..] else p[1..], true)
      case None => (Is('['), p[1..])
      case Some((ranges, rest)) => (Within(negated, ranges), rest)
    else (Is(p[0]), p[1..])
  }

  predicate Matches(p: string, t: string)
    decreases |p| + |t|
  {
    if p == [] then t == []
    else if p[0] == '*' then Matches(p[1..], t) || (t != [] && Matches(p, t[1..]))
    else t != [] && Fits(First(p).0, t[0]) && Matches(First(p).1, t[1..])
  }

  /** The pattern asks for a leading period explicitly. */
  predicate Dotted(p: string) {
    p != [] && p[0] != '*' && First(p).0 == Is('.')
  }

  /** fnmatch(p, t, FNM_PATHNAME|FNM_PERIOD) on one component: a leading period is matched only explicitly. */
  predicate FnMatch(p: string, t: string) {
    Matches(p, t) && (t != [] && t[0] == '.' ==> Dotted(p))
  }

  /** The scan of find-or-create stops at an entry named p when it looks for t: the same name, or a match. */
  predicate Takes(p: string, t: string) { p == t || FnMatch(p, t) }

  // ---------------------------------------------------------------- names that stand for themselves

  predicate Special(c: char) { c == '*' || c == '?' || c == '[' || c == '\\' }
  predicate WithoutSpecial(p: string) { forall i :: 0 <= i < |p| ==> !Special(p[i]) }

  /** A pattern with stars and nothing else that is special, as schema.l admits them. */
  predicate Starry(p: string) { forall i :: 0 <= i < |p| && Special(p[i]) ==> p[i] == '*' }

  /** No brackets and no backslashes: every character the pattern matches literally is in its text. */
  predicate Unquoted(p: string) { '[' !in p && '\\' !in p }

  lemma {:induction false} MatchesLiteral(p: string, t: string)
    requires WithoutSpecial(p)
    ensures Matches(p, t) <==> p == t
  {
    if p != [] && t != [] {
      MatchesLiteral(p[1..], t[1..]);
      assert p == [p[0]] + p[1..] && t == [t[0]] + t[1..];
    }
  }

  /** A name without special characters matches itself and nothing else. */
  lemma Literal(p: string, t: string)
    requires WithoutSpecial(p)
    ensures FnMatch(p, t) <==> p == t
  {
    MatchesLiteral(p, t);
  }

  // ---------------------------------------------------------------- names made from patterns, as patterns

  lemma {:induction false} MatchesTransitive(p: string, q: string, t: string)
    requires Starry(p) && Unquoted(q) && Matches(p, q) && Matches(q, t)
    ensures Matches(p, t)
    decreases |p| + |q| + |t|
  {
    if p == [] {
    } else if p[0] == '*' {
      if Matches(p[1..], q) {
        MatchesTransitive(p[1..], q, t);
      } else if q[0] == '*' {
        if Matches(q[1..], t) {
          MatchesTransitive(p, q[1..], t);
        } else {
          MatchesTransitive(p, q, t[1..]);
        }
      } else {
        MatchesTransitive(p, q[1..], t[1..]);
      }
    } else {
      assert !Special(p[0]) && q[0] == p[0];
      MatchesTransitive(p[1..], q[1..], t[1..]);
    }
  }

  /** A name made from a pattern, used as a pattern again, only yields names of the first pattern. */
  lemma Transitive(p: string, q: string, t: string)
    requires Starry(p) && Unquoted(q) && FnMatch(p, q) && FnMatch(q, t)
    ensures FnMatch(p, t)
  {
    MatchesTransitive(p, q, t);
    if t != [] && t[0] == '.' { assert q[0] == '.' && p[0] == '.'; }
  }

  /** Brackets in the name break that. */
  lemma BracketsNotTransitive()
    ensures FnMatch("*]", "[a]") && FnMatch("[a]", "a") && !FnMatch("*]", "a")
  {
    assert "*]"[1..] == "]" && "[a]"[1..] == "a]" && "a]"[1..] == "]" && "]"[1..] == "" && "a"[1..] == "";
    assert Matches("]", "]") && Matches("*]", "]") && Matches("*]", "a]");
    var ranges: seq<(char, char)> := [('a', 'a')];
    assert Ranges("]", false) == Some(([], ""));
    var none: seq<(char, char)> := [];
    assert Quoted("a]") == Some(('a', "]")) && [('a', 'a')] + none == ranges;
    assert Ranges("a]", true) == Some((ranges, ""));
    assert First("[a]") == (Within(false, ranges), "");
    assert ranges[0] == ('a', 'a');
    assert Matches("", "") && !Matches("]", "a") && !Matches("]", "") && !Matches("*]", "");
  }

  /** So do backslashes. */
  lemma BackslashNotTransitive()
    ensures FnMatch("*", "\\.") && FnMatch("\\.", ".") && !FnMatch("*", ".")
  {
    assert "*"[1..] == "" && "\\."[1..] == "." && "\\."[2..] == "" && "."[1..] == "";
    assert Matches("", "") && Matches("*", "") && Matches("*", ".") && Matches("*", "\\.");
    assert First("\\.") == (Is('.'), "");
  }

  lemma MarkMatches()
    ensures FnMatch("s?", "sx")
  {
    assert "s?"[1..] == "?" && "?"[1..] == "" && "sx"[1..] == "x" && "x"[1..] == "";
    assert Matches("", "") && Matches("?", "x");
  }

  /** And so does a pattern that is more than stars. */
  lemma MarkNotTransitive()
    ensures FnMatch("?", "*") && FnMatch("*", "ab") && !FnMatch("?", "ab")
  {
    assert "*"[1..] == "" && "?"[1..] == "" && "ab"[1..] == "b" && "b"[1..] == "";
    assert Matches("", "") && Matches("*", "") && Matches("*", "b") && Matches("*", "ab");
  }
}
