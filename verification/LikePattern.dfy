/** The substring filter of the usage list: SQL LIKE (section 8.5 of SQL-92) over an escaped pattern. */
module LikePattern {
  import opened Text

  /** SQLite's LIKE with ESCAPE '\': ASCII letters match in either case. */
  predicate Like(p: string, s: string)
    decreases |p| + |s|
  {
    if p == [] then s == []
    else if p[0] == '%' then Like(p[1..], s) || (s != [] && Like(p, s[1..]))
    else if p[0] == '\\' then |p| >= 2 && s != [] && LowerChar(p[1]) == LowerChar(s[0]) && Like(p[2..], s[1..])
    else s != [] && (p[0] == '_' || LowerChar(p[0]) == LowerChar(s[0])) && Like(p[1..], s[1..])
  }

  function EscapeChar(c: char): string {
    if c in {'\\', '%', '_'} then ['\\', c] else [c]
  }

  /** escapeLikePattern: one pass over the text. */
  function Escape(x: string): string {
    if x == [] then []
    else EscapeChar(x[0]) + Escape(x[1..])
  }

  /** s continues with x at position i, up to case. */
  predicate FoundAt(x: string, s: string, i: nat) {
    i + |x| <= |s| && Lower(s[i..i + |x|]) == Lower(x)
  }

  lemma EscapedCharIsLiteral(c: char, q: string, s: string)
    ensures Like(EscapeChar(c) + q, s) <==> s != [] && LowerChar(c) == LowerChar(s[0]) && Like(q, s[1..])
  {
    var p := EscapeChar(c) + q;
    assert p[|EscapeChar(c)|..] == q;
  }

  /** An escaped text stands for itself. */
  lemma {:induction false} EscapedIsLiteral(x: string, rest: string, s: string)
    ensures Like(Escape(x) + rest, s) <==> FoundAt(x, s, 0) && Like(rest, s[|x|..])
  {
    if x == [] {
      assert Escape(x) + rest == rest;
    } else {
      hide Like;
      assert Escape(x) + rest == EscapeChar(x[0]) + (Escape(x[1..]) + rest);
      EscapedCharIsLiteral(x[0], Escape(x[1..]) + rest, s);
      if s != [] {
        EscapedIsLiteral(x[1..], rest, s[1..]);
        FoundAtCons(x, s);
      }
    }
  }

  lemma LowerCons(s: string)
    requires s != []
    ensures Lower(s) == [LowerChar(s[0])] + Lower(s[1..]) && Lower(s)[1..] == Lower(s[1..])
  {
  }

  lemma FoundAtCons(x: string, s: string)
    requires x != [] && s != []
    ensures FoundAt(x, s, 0) <==> LowerChar(x[0]) == LowerChar(s[0]) && FoundAt(x[1..], s[1..], 0)
  {
    if |x| <= |s| {
      var t := s[0..|x|];
      assert t[1..] == s[1..][0..|x| - 1] && t[0] == s[0];
      LowerCons(t);
      LowerCons(x);
    }
  }

  lemma {:induction false} LeadingPercent(q: string, s: string)
    ensures Like("%" + q, s) <==> exists i :: 0 <= i <= |s| && Like(q, s[i..])
    decreases |s|
  {
    assert ("%" + q)[1..] == q && s[0..] == s;
    if s != [] {
      LeadingPercent(q, s[1..]);
      if i :| 0 <= i <= |s| - 1 && Like(q, s[1..][i..]) {
        assert s[i + 1..] == s[1..][i..];
      }
      if i :| 0 <= i <= |s| && Like(q, s[i..]) {
        assert i > 0 ==> s[1..][i - 1..] == s[i..];
      }
    }
  }

  lemma PercentMatchesAll(s: string)
    ensures Like("%", s)
  {
    assert s[|s|..] == [] && Like([], []);
    assert "%" + [] == "%";
    LeadingPercent([], s);
  }

  /** "%" + escape(x) + "%" matches exactly the texts that contain x, whatever characters x has. */
  lemma EscapedSubstring(x: string, s: string)
    ensures Like("%" + (Escape(x) + "%"), s) <==> exists i: nat :: FoundAt(x, s, i)
  {
    LeadingPercent(Escape(x) + "%", s);
    forall i | 0 <= i <= |s| ensures Like(Escape(x) + "%", s[i..]) <==> FoundAt(x, s, i) {
      EscapedIsLiteral(x, "%", s[i..]);
      if FoundAt(x, s[i..], 0) { PercentMatchesAll(s[i..][|x|..]); }
      assert i + |x| <= |s| ==> s[i..][0..|x|] == s[i..i + |x|];
    }
  }

  /** The pattern usageFilterSQL binds for a wanted resource. */
  function ResourcePattern(wanted: string): string {
    "%" + (Escape(Lower(Trim(wanted))) + "%")
  }

  predicate OccursAt(x: string, s: string, i: nat) {
    i + |x| <= |s| && s[i..i + |x|] == x
  }

  ghost predicate Contains(s: string, x: string) {
    exists i: nat :: OccursAt(x, s, i)
  }

  lemma LowerSlice(s: string, i: nat, j: nat)
    requires i <= j <= |s|
    ensures Lower(s)[i..j] == Lower(s[i..j]) && Lower(Lower(s)) == Lower(s)
  {
  }

  /** The request-resource filter keeps exactly the rows whose resource contains the wanted text, ignoring case. */
  lemma ResourceFilterExact(wanted: string, resource: string)
    ensures Like(ResourcePattern(wanted), Lower(resource)) <==> Contains(Lower(resource), Lower(Trim(wanted)))
  {
    var x, s := Lower(Trim(wanted)), Lower(resource);
    EscapedSubstring(x, s);
    forall i: nat ensures FoundAt(x, s, i) <==> OccursAt(x, s, i) {
      if i + |x| <= |s| {
        LowerSlice(resource, i, i + |x|);
        LowerSlice(resource[i..i + |x|], 0, 0);
        LowerSlice(Trim(wanted), 0, 0);
      }
    }
  }
}
