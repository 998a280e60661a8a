/** What each kind of pattern matches, said without the matcher. */
module Patterns {
  import opened Wrappers
  import opened Globs

  // ---------------------------------------------------------------- cutting a text along a pattern

  datatype Element = Star | One(u: Unit)

  /** A pattern as a list of stars and single-character elements. */
  function Elements(p: string): seq<Element>
    decreases |p|
  {
    if p == [] then []
    else if p[0] == '*' then [Star] + Elements(p[1..])
    else [One(First(p).0)] + Elements(First(p).1)
  }

  /** The i-th element takes the piece of t from cuts[i] to cuts[i + 1]: any piece, or one fitting character. */
  ghost predicate Spans(e: Element, t: string, from: nat, to: nat) {
    from <= to <= |t| && match e case Star => true case One(u) => to == from + 1 && Fits(u, t[from])
  }

  /** The cuts divide t into consecutive pieces, one for each element. */
  ghost predicate Cuts(es: seq<Element>, t: string, cuts: seq<nat>) {
    && |cuts| == |es| + 1 && cuts[0] == 0 && cuts[|es|] == |t|
    && forall i :: 0 <= i < |es| ==> Spans(es[i], t, cuts[i], cuts[i + 1])
  }

  ghost predicate CanCut(es: seq<Element>, t: string) {
    exists cuts :: Cuts(es, t, cuts)
  }

  /** Pieces of t[k..], for the elements behind a first one that takes k characters, are pieces of t. */
  lemma CutsCons(e: Element, es: seq<Element>, t: string, k: nat, rest: seq<nat>) returns (cuts: seq<nat>)
    requires k <= |t| && Spans(e, t, 0, k) && Cuts(es, t[k..], rest)
    ensures Cuts([e] + es, t, cuts)
  {
    var shifted := seq(|rest|, i requires 0 <= i < |rest| => rest[i] + k);
    cuts := [0] + shifted;
    var all := [e] + es;
    forall i | 0 <= i < |all|
      ensures Spans(all[i], t, cuts[i], cuts[i + 1])
    {
      if i > 0 {
        assert all[i] == es[i - 1] && cuts[i] == rest[i - 1] + k && cuts[i + 1] == rest[i] + k;
        assert Spans(es[i - 1], t[k..], rest[i - 1], rest[i]);
      }
    }
  }

  lemma {:induction false} CutsOrdered(es: seq<Element>, t: string, cuts: seq<nat>, i: nat)
    requires Cuts(es, t, cuts) && 1 <= i <= |es|
    ensures cuts[1] <= cuts[i] <= |t|
  {
    assert Spans(es[i - 1], t, cuts[i - 1], cuts[i]);
    if i > 1 { CutsOrdered(es, t, cuts, i - 1); }
  }

  lemma CutsTail(es: seq<Element>, t: string, cuts: seq<nat>) returns (rest: seq<nat>)
    requires es != [] && Cuts(es, t, cuts)
    ensures cuts[1] <= |t| && Spans(es[0], t, 0, cuts[1]) && Cuts(es[1..], t[cuts[1]..], rest)
  {
    var k := cuts[1];
    CutsOrdered(es, t, cuts, 1);
    rest := seq(|es|, i requires 0 <= i < |es| => if cuts[i + 1] >= k then cuts[i + 1] - k else 0);
    forall i | 0 <= i < |es| - 1
      ensures Spans(es[1..][i], t[k..], rest[i], rest[i + 1])
    {
      CutsOrdered(es, t, cuts, i + 1);
      CutsOrdered(es, t, cuts, i + 2);
      assert Spans(es[i + 1], t, cuts[i + 1], cuts[i + 2]);
    }
    CutsOrdered(es, t, cuts, |es|);
  }

  /** A leading star takes one more character in front of what it took. */
  lemma StarLonger(es: seq<Element>, t: string, more: seq<nat>) returns (cuts: seq<nat>)
    requires t != [] && Cuts([Star] + es, t[1..], more)
    ensures Cuts([Star] + es, t, cuts)
  {
    var rest := CutsTail([Star] + es, t[1..], more);
    assert t[1..][more[1]..] == t[1 + more[1]..] && ([Star] + es)[1..] == es;
    cuts := CutsCons(Star, es, t, 1 + more[1], rest);
  }

  lemma {:induction false} MatchesCuts(p: string, t: string) returns (cuts: seq<nat>)
    requires Matches(p, t)
    ensures Cuts(Elements(p), t, cuts)
    decreases |p| + |t|
  {
    if p == [] {
      cuts := [0];
    } else if p[0] == '*' {
      if Matches(p[1..], t) {
        var rest := MatchesCuts(p[1..], t);
        assert t[0..] == t;
        cuts := CutsCons(Star, Elements(p[1..]), t, 0, rest);
      } else {
        var more := MatchesCuts(p, t[1..]);
        cuts := StarLonger(Elements(p[1..]), t, more);
      }
    } else {
      var rest := MatchesCuts(First(p).1, t[1..]);
      cuts := CutsCons(One(First(p).0), Elements(First(p).1), t, 1, rest);
    }
  }

  lemma {:induction false} StarSkips(p: string, t: string, k: nat)
    requires p != [] && p[0] == '*' && k <= |t| && Matches(p[1..], t[k..])
    ensures Matches(p, t)
    decreases k
  {
    if k > 0 {
      assert t[1..][k - 1..] == t[k..];
      StarSkips(p, t[1..], k - 1);
    } else {
      assert t[0..] == t;
    }
  }

  lemma {:induction false} CutsMatch(p: string, t: string, cuts: seq<nat>)
    requires Cuts(Elements(p), t, cuts)
    ensures Matches(p, t)
    decreases |p|
  {
    if p != [] {
      var es := Elements(p);
      var rest := CutsTail(es, t, cuts);
      if p[0] == '*' {
        assert es[1..] == Elements(p[1..]);
        CutsMatch(p[1..], t[cuts[1]..], rest);
        StarSkips(p, t, cuts[1]);
      } else {
        assert es[1..] == Elements(First(p).1);
        CutsMatch(First(p).1, t[1..], rest);
      }
    }
  }

  /**
   * A pattern matches a text exactly when the text can be cut into consecutive pieces, one for each
   * element: any piece for a star, one fitting character for anything else.
   */
  lemma MatchesIff(p: string, t: string)
    ensures Matches(p, t) <==> CanCut(Elements(p), t)
  {
    var es := Elements(p);
    if Matches(p, t) {
      var cuts := MatchesCuts(p, t);
      assert Cuts(es, t, cuts);
    }
    if CanCut(es, t) {
      var cuts :| Cuts(es, t, cuts);
      CutsMatch(p, t, cuts);
    }
  }

  /** In a pattern with stars only, every other character stands for itself. */
  lemma {:induction false} StarryElements(p: string)
    requires Starry(p)
    ensures |Elements(p)| == |p|
    ensures forall i :: 0 <= i < |p| ==> Elements(p)[i] == if p[i] == '*' then Star else One(Is(p[i]))
  {
    if p != [] {
      StarryElements(p[1..]);
      assert p[0] != '*' ==> First(p) == (Is(p[0]), p[1..]);
    }
  }

  // ---------------------------------------------------------------- one star

  lemma StarMatchesAll(t: string)
    ensures Matches("*", t)
  {
    assert t[|t|..] == [] && "*"[1..] == [];
    StarSkips("*", t, |t|);
  }

  /** The first character of a pattern stands for itself. */
  lemma LiteralFirst(p: string, q: string, t: string)
    requires p != [] && !Special(p[0])
    ensures Matches(p + q, t) <==> t != [] && t[0] == p[0] && Matches(p[1..] + q, t[1..])
  {
    assert (p + q)[1..] == p[1..] + q;
  }

  lemma {:induction false} LiteralPrefix(a: string, q: string, t: string)
    requires WithoutSpecial(a)
    ensures Matches(a + q, t) <==> a <= t && Matches(q, t[|a|..])
  {
    if a == [] {
      assert a + q == q && t[0..] == t;
    } else {
      LiteralFirst(a, q, t);
      if t != [] {
        LiteralPrefix(a[1..], q, t[1..]);
        assert a <= t <==> t[0] == a[0] && a[1..] <= t[1..];
        if a <= t { assert t[1..][|a| - 1..] == t[|a|..]; }
      }
    }
  }

  lemma {:induction false} StarThen(b: string, t: string)
    requires WithoutSpecial(b)
    ensures Matches("*" + b, t) <==> |t| >= |b| && t[|t| - |b|..] == b
    decreases |t|
  {
    assert ("*" + b)[1..] == b;
    MatchesLiteral(b, t);
    if t != [] {
      StarThen(b, t[1..]);
      if |t| > |b| { assert t[1..][|t| - 1 - |b|..] == t[|t| - |b|..]; }
    }
  }

  /** The text starts with a and ends with b, which do not overlap. */
  predicate Between(a: string, b: string, t: string) {
    |t| >= |a| + |b| && t[..|a|] == a && t[|t| - |b|..] == b
  }

  /** A star stands for whatever is between what is before it and what is behind it. */
  lemma OneStar(a: string, b: string, t: string)
    requires WithoutSpecial(a) && WithoutSpecial(b)
    ensures Matches(a + "*" + b, t) <==> Between(a, b, t)
  {
    assert a + "*" + b == a + ("*" + b);
    LiteralPrefix(a, "*" + b, t);
    if a <= t {
      StarThen(b, t[|a|..]);
      if |t| >= |a| + |b| { assert t[|a|..][|t| - |a| - |b|..] == t[|t| - |b|..]; }
    }
  }

  /** Only a pattern that starts with a period, or a quoted one, matches a name that starts with one. */
  lemma PeriodIff(p: string, t: string)
    requires t != [] && t[0] == '.'
    ensures FnMatch(p, t) <==> Matches(p, t) && ("." <= p || "\\." <= p)
  {
    if p != [] && p[0] == '\\' && |p| > 1 { assert First(p) == (Is(p[1]), p[2..]); }
  }

  /** The names of a schema pattern with one star. */
  lemma StarNames(a: string, b: string, t: string)
    requires WithoutSpecial(a) && WithoutSpecial(b)
    ensures FnMatch(a + "*" + b, t) <==> Between(a, b, t) && ("." <= t ==> "." <= a)
  {
    OneStar(a, b, t);
    var p := a + "*" + b;
    if "." <= t {
      PeriodIff(p, t);
      if a == [] { assert p[0] == '*'; } else { assert p[0] == a[0]; }
    }
  }

  /** For one: output-* takes output-2. */
  lemma OutputTwo()
    ensures FnMatch("output-*", "output-2")
  {
    assert "output-" + "*" + "" == "output-*";
    StarNames("output-", "", "output-2");
  }

  // ---------------------------------------------------------------- the other elements

  /** A question mark stands for any one character. */
  lemma MarkIff(p: string, t: string)
    ensures Matches("?" + p, t) <==> t != [] && Matches(p, t[1..])
  {
    assert ("?" + p)[1..] == p;
  }

  /** A backslash makes the next character stand for itself; at the end it matches nothing. */
  lemma QuotedIff(c: char, p: string, t: string)
    ensures Matches(['\\', c] + p, t) <==> t != [] && t[0] == c && Matches(p, t[1..])
    ensures !Matches("\\", t)
  {
    assert (['\\', c] + p)[2..] == p;
  }

  /** Characters that stand for themselves inside brackets, also as the first one. */
  predicate Member(c: char) { c != ']' && c != '\\' && c != '-' && c != '!' && c != '^' }

  lemma {:induction false} MemberRanges(cs: string, p: string, first: bool) returns (rs: seq<(char, char)>)
    requires (first ==> cs != []) && forall i :: 0 <= i < |cs| ==> Member(cs[i])
    ensures Ranges(cs + [']'] + p, first) == Some((rs, p))
    ensures |rs| == |cs| && forall i :: 0 <= i < |cs| ==> rs[i] == (cs[i], cs[i])
  {
    var q := cs + [']'] + p;
    if cs == [] {
      assert q[0] == ']' && q[1..] == p;
      rs := [];
    } else {
      assert q[0] == cs[0] && q[1..] == cs[1..] + [']'] + p;
      var more := MemberRanges(cs[1..], p, false);
      rs := [(cs[0], cs[0])] + more;
    }
  }

  lemma InRanges(rs: seq<(char, char)>, cs: string, c: char)
    requires |rs| == |cs| && forall i :: 0 <= i < |cs| ==> rs[i] == (cs[i], cs[i])
    ensures Fits(Within(false, rs), c) <==> c in cs
    ensures Fits(Within(true, rs), c) <==> c !in cs
  {
    if c in cs {
      var i :| 0 <= i < |cs| && cs[i] == c;
      assert rs[i].0 <= c <= rs[i].1;
    }
  }

  lemma Behind(o: string, cs: string, x: string, p: string)
    ensures o + cs + x + p == o + (cs + x + p)
  {
  }

  lemma FirstPlain(q: string, p: string, rs: seq<(char, char)>)
    requires q != [] && q[0] != '!' && q[0] != '^' && Ranges(q, true) == Some((rs, p))
    ensures First(['['] + q) == (Within(false, rs), p)
  {
    assert (['['] + q)[1..] == q;
  }

  lemma FirstNegated(c: char, q: string, p: string, rs: seq<(char, char)>)
    requires (c == '!' || c == '^') && Ranges(q, true) == Some((rs, p))
    ensures First(['[', c] + q) == (Within(true, rs), p)
  {
    assert (['[', c] + q)[2..] == q;
  }

  lemma BracketFirst(cs: string, p: string, rs: seq<(char, char)>)
    requires cs != [] && Member(cs[0]) && Ranges(cs + [']'] + p, true) == Some((rs, p))
    ensures First(['['] + cs + [']'] + p) == (Within(false, rs), p)
    ensures First(['[', '!'] + cs + [']'] + p) == (Within(true, rs), p)
    ensures First(['[', '^'] + cs + [']'] + p) == (Within(true, rs), p)
  {
    var q := cs + [']'] + p;
    FirstPlain(q, p, rs);
    FirstNegated('!', q, p, rs);
    FirstNegated('^', q, p, rs);
    Behind(['['], cs, [']'], p);
    Behind(['[', '!'], cs, [']'], p);
    Behind(['[', '^'], cs, [']'], p);
  }

  /** Brackets stand for one of the characters between them, and after ! or ^ for one that is not. */
  lemma BracketIff(cs: string, p: string, t: string)
    requires cs != [] && forall i :: 0 <= i < |cs| ==> Member(cs[i])
    ensures Matches(['['] + cs + [']'] + p, t) <==> t != [] && t[0] in cs && Matches(p, t[1..])
    ensures Matches(['[', '!'] + cs + [']'] + p, t) <==> t != [] && t[0] !in cs && Matches(p, t[1..])
    ensures Matches(['[', '^'] + cs + [']'] + p, t) <==> t != [] && t[0] !in cs && Matches(p, t[1..])
  {
    var rs := MemberRanges(cs, p, true);
    BracketFirst(cs, p, rs);
    if t != [] { InRanges(rs, cs, t[0]); }
  }

  /** A range stands for one character from its first to its last. */
  lemma RangeIff(lo: char, hi: char, p: string, t: string)
    requires Member(lo) && Member(hi)
    ensures Matches(['[', lo, '-', hi, ']'] + p, t) <==> t != [] && lo <= t[0] <= hi && Matches(p, t[1..])
  {
    var q := ['[', lo, '-', hi, ']'] + p;
    assert q[1..] == [lo, '-', hi, ']'] + p;
    var r := q[1..];
    assert r[1..] == ['-', hi, ']'] + p && r[1..][1..] == [hi, ']'] + p && r[1..][1..][1..] == [']'] + p;
    assert ([']'] + p)[1..] == p;
    var none: seq<(char, char)> := [];
    assert Ranges([']'] + p, false) == Some((none, p));
    var rs := [(lo, hi)];
    assert [(lo, hi)] + none == rs;
    assert Ranges(r, true) == Some((rs, p));
    if t != [] { assert rs[0].0 <= t[0] <= rs[0].1 <==> Fits(Within(false, rs), t[0]); }
  }

  lemma ClosingFirst(cs: string, p: string) returns (rs: seq<(char, char)>)
    requires cs != [] && forall i :: 0 <= i < |cs| ==> Member(cs[i])
    ensures Ranges([']'] + cs + [']'] + p, true) == Some((rs, p))
    ensures |rs| == 1 + |cs| && forall i :: 0 <= i < |rs| ==> rs[i] == (([']'] + cs)[i], ([']'] + cs)[i])
  {
    var q := [']'] + cs + [']'] + p;
    var more := MemberRanges(cs, p, false);
    assert q[1..] == cs + [']'] + p && q[1] == cs[0];
    rs := [(']', ']')] + more;
  }

  /** A closing bracket in the first place is a member. */
  lemma ClosingMember(cs: string, p: string, t: string)
    requires cs != [] && forall i :: 0 <= i < |cs| ==> Member(cs[i])
    ensures Matches(['[', ']'] + cs + [']'] + p, t) <==> t != [] && (t[0] == ']' || t[0] in cs) && Matches(p, t[1..])
  {
    var rs := ClosingFirst(cs, p);
    var q := ['[', ']'] + cs + [']'] + p;
    assert q[1..] == [']'] + cs + [']'] + p && First(q) == (Within(false, rs), p);
    if t != [] { InRanges(rs, [']'] + cs, t[0]); }
  }

  lemma {:induction false} DashLast(cs: string, p: string, first: bool) returns (rs: seq<(char, char)>)
    requires (first ==> cs != []) && forall i :: 0 <= i < |cs| ==> Member(cs[i])
    ensures Ranges(cs + ['-', ']'] + p, first) == Some((rs, p))
    ensures |rs| == |cs| + 1 && forall i :: 0 <= i < |rs| ==> rs[i] == ((cs + ['-'])[i], (cs + ['-'])[i])
  {
    var q := cs + ['-', ']'] + p;
    if cs == [] {
      var none: seq<(char, char)> := [];
      var close := [']'] + p;
      assert q[1..] == close && close[1..] == p;
      assert Ranges(close, false) == Some((none, p));
      rs := [('-', '-')];
      assert [('-', '-')] + none == rs;
    } else {
      assert q[0] == cs[0] && q[1..] == cs[1..] + ['-', ']'] + p;
      var more := DashLast(cs[1..], p, false);
      rs := [(cs[0], cs[0])] + more;
    }
  }

  /** So is a dash in the last place. */
  lemma DashMember(cs: string, p: string, t: string)
    requires cs != [] && forall i :: 0 <= i < |cs| ==> Member(cs[i])
    ensures Matches(['['] + cs + ['-', ']'] + p, t) <==> t != [] && (t[0] == '-' || t[0] in cs) && Matches(p, t[1..])
  {
    var rs := DashLast(cs, p, true);
    var q := ['['] + cs + ['-', ']'] + p;
    assert q[1..] == cs + ['-', ']'] + p && q[1] == cs[0] && First(q) == (Within(false, rs), p);
    if t != [] { InRanges(rs, cs + ['-'], t[0]); }
  }

  /** A backslash makes any character a member. */
  lemma QuotedMember(c: char, p: string, t: string)
    ensures Matches(['[', '\\', c, ']'] + p, t) <==> t != [] && t[0] == c && Matches(p, t[1..])
  {
    var q := ['[', '\\', c, ']'] + p;
    var r := ['\\', c, ']'] + p;
    var close := [']'] + p;
    assert q[1..] == r && r[2..] == close && close[1..] == p;
    var none: seq<(char, char)> := [];
    assert Ranges(close, false) == Some((none, p));
    var rs := [(c, c)];
    assert [(c, c)] + none == rs && Ranges(r, true) == Some((rs, p));
    if t != [] { assert rs[0].0 <= t[0] <= rs[0].1 <==> Fits(Within(false, rs), t[0]); }
  }

  lemma {:induction false} NoRanges(cs: string, first: bool)
    requires ']' !in cs && '\\' !in cs
    ensures Ranges(cs, first) == None
    decreases |cs|
  {
    if cs != [] {
      var q := cs[1..];
      if |q| > 1 && q[0] == '-' {
        NoRanges(q[1..][1..], false);
      }
      NoRanges(q, false);
    }
  }

  /** A bracket that is never closed stands for itself. */
  lemma UnclosedIff(cs: string, t: string)
    requires ']' !in cs && '\\' !in cs
    ensures Matches("[" + cs, t) <==> t != [] && t[0] == '[' && Matches(cs, t[1..])
  {
    var p := "[" + cs;
    assert p[1..] == cs;
    NoRanges(cs, true);
    if cs != [] {
      assert p[2..] == cs[1..];
      NoRanges(cs[1..], true);
    }
  }
}
