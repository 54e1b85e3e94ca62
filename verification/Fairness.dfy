/** Rotation is fair on every cursor, whatever happens on other cursors in between. */
module Fairness {
  import opened Text
  import opened Routing

  // ---- cursor keys ----

  predicate NulFree(s: string) {
    '\0' !in s
  }

  /** A NUL-terminated part can be split off again. */
  lemma SplitAtNul(p: string, x: string, q: string, y: string)
    requires NulFree(p) && NulFree(q) && p + ("\0" + x) == q + ("\0" + y)
    ensures p == q && x == y
  {
    var s, t := p + ("\0" + x), q + ("\0" + y);
    assert s[|p|] == '\0' && t[|q|] == '\0';
    assert |p| == |q|;
    assert p == s[..|p|] == q && x == s[|p| + 1..] == y;
  }

  lemma {:induction false} ItoaInjective(m: int, n: int)
    requires Itoa(m) == Itoa(n)
    ensures m == n
    decreases if m < 0 then 1 else 0, if m < 0 then -m else m
  {
    ItoaDigits(m);
    ItoaDigits(n);
    if m < 0 && n < 0 {
      assert Itoa(m)[1..] == Itoa(-m) && Itoa(n)[1..] == Itoa(-n);
      ItoaInjective(-m, -n);
    } else if m >= 10 && n >= 10 {
      var s := Itoa(m);
      assert s[..|s| - 1] == Itoa(m / 10) == Itoa(n / 10) && s[|s| - 1] == Digit(m % 10) == Digit(n % 10);
      ItoaInjective(m / 10, n / 10);
    } else if m >= 0 && n >= 0 {
      assert Itoa(m)[|Itoa(m)| - 1] == Digit(m % 10) && Itoa(n)[|Itoa(n)| - 1] == Digit(n % 10);
    }
  }

  lemma {:induction false} ItoaDigits(n: int)
    ensures |Itoa(n)| >= 1 && (Itoa(n)[0] == '-' <==> n < 0) && (n >= 10 ==> |Itoa(n)| >= 2) &&
      (0 <= n < 10 ==> |Itoa(n)| == 1)
    decreases if n < 0 then 1 else 0, if n < 0 then -n else n
  {
    if n < 0 { ItoaDigits(-n); } else if n >= 10 { ItoaDigits(n / 10); }
  }

  /** Provider cursors are separate per key and model. */
  lemma ProviderCursorInjective(keyID: string, model: string, keyID': string, model': string)
    requires NulFree(keyID) && NulFree(keyID') && ProviderCursor(keyID, model) == ProviderCursor(keyID', model')
    ensures keyID == keyID' && model == model'
  {
    var s, t := ProviderCursor(keyID, model), ProviderCursor(keyID', model');
    assert s[9..] == keyID + ("\0" + model) && t[9..] == keyID' + ("\0" + model');
    SplitAtNul(keyID, model, keyID', model');
  }

  /** Account cursors are separate per key, model, provider filter and priority. */
  lemma AuthCursorInjective(keyID: string, model: string, provider: string, priority: int,
                            keyID': string, model': string, provider': string, priority': int)
    requires NulFree(keyID) && NulFree(keyID') && NulFree(model) && NulFree(model') && NulFree(provider) &&
      NulFree(provider')
    requires AuthCursor(keyID, model, provider, priority) == AuthCursor(keyID', model', provider', priority')
    ensures keyID == keyID' && model == model' && provider == provider' && priority == priority'
  {
    var x, x' := provider + ("\0" + Itoa(priority)), provider' + ("\0" + Itoa(priority'));
    var y, y' := model + ("\0" + x), model' + ("\0" + x');
    var s, t := AuthCursor(keyID, model, provider, priority), AuthCursor(keyID', model', provider', priority');
    assert s[5..] == keyID + ("\0" + y) && t[5..] == keyID' + ("\0" + y');
    SplitAtNul(keyID, y, keyID', y');
    SplitAtNul(model, x, model', x');
    SplitAtNul(provider, Itoa(priority), provider', Itoa(priority'));
    ItoaInjective(priority, priority');
  }

  lemma CursorKindsDiffer(keyID: string, model: string, keyID': string, model': string, provider: string, priority: int)
    ensures ProviderCursor(keyID, model) != AuthCursor(keyID', model', provider, priority)
  {
    assert ProviderCursor(keyID, model)[0] == 'p';
    assert AuthCursor(keyID', model', provider, priority)[0] == 'a';
  }

  // ---- rotation over a run ----

  /** The values chosen by the calls of a run that rotate the given cursor. */
  function Chosen(r: Router, es: seq<Event>, cursor: string): seq<string>
    requires AllPossible(es)
    decreases es
  {
    if es == [] then [] else
      var rest := Chosen(Step(r, es[0], true).0, es[1..], cursor);
      if !Sticky(r.sessions, es[0]) && CursorOf(es[0]) == cursor then [NextValue(r.cursors, es[0])] + rest else rest
  }

  /** Every call on the cursor offers the same list. */
  ghost predicate SameList(es: seq<Event>, cursor: string, vs: seq<string>)
    requires AllPossible(es)
  {
    forall i | 0 <= i < |es| && CursorOf(es[i]) == cursor :: Values(es[i]) == vs
  }

  function Cyclic(vs: seq<string>, i: nat): string
    requires vs != []
  {
    vs[i % |vs|]
  }

  /** The list read cyclically from position c on. */
  ghost predicate IsCyclic(chosen: seq<string>, vs: seq<string>, c: nat)
    requires vs != []
  {
    forall i | 0 <= i < |chosen| :: chosen[i] == Cyclic(vs, c + i)
  }

  lemma IsCyclicCons(chosen: seq<string>, vs: seq<string>, c: nat)
    requires vs != [] && IsCyclic(chosen, vs, c + 1)
    ensures IsCyclic([Cyclic(vs, c)] + chosen, vs, c)
  {
    var all := [Cyclic(vs, c)] + chosen;
    forall i | 0 <= i < |all| ensures all[i] == Cyclic(vs, c + i) {
      if i > 0 { assert all[i] == chosen[i - 1] && c + 1 + (i - 1) == c + i; }
    }
  }

  lemma OneIsCyclic(vs: seq<string>, c: nat)
    requires vs != []
    ensures IsCyclic([Cyclic(vs, c)], vs, c) && IsCyclic([], vs, c)
  {
  }

  lemma RotatingStep(r: Router, e: Event)
    requires Possible(e) && !Sticky(r.sessions, e)
    ensures At(Step(r, e, true).0.cursors, CursorOf(e)) == (At(r.cursors, CursorOf(e)) + 1) % TWO64
    ensures NextValue(r.cursors, e) == Cyclic(Values(e), At(r.cursors, CursorOf(e)))
  {
  }

  lemma RestingStep(r: Router, e: Event, cursor: string)
    requires Possible(e) && (Sticky(r.sessions, e) || CursorOf(e) != cursor)
    ensures At(Step(r, e, true).0.cursors, cursor) == At(r.cursors, cursor)
  {
  }

  /** Rotation visits the list cyclically; sticky calls and calls on other cursors do not disturb it. */
  lemma {:induction false} ChosenIsCyclic(r: Router, es: seq<Event>, cursor: string, vs: seq<string>)
    requires AllPossible(es) && SameList(es, cursor, vs) && vs != []
    requires At(r.cursors, cursor) + |Chosen(r, es, cursor)| <= TWO64
    ensures IsCyclic(Chosen(r, es, cursor), vs, At(r.cursors, cursor))
    decreases es
  {
    hide Step, CursorOf, Values, NextValue, Sticky, At, Cyclic, IsCyclic;
    OneIsCyclic(vs, At(r.cursors, cursor));
    if es != [] {
      var e := es[0];
      var r1 := Step(r, e, true).0;
      var rest := Chosen(r1, es[1..], cursor);
      assert SameList(es[1..], cursor, vs);
      if !Sticky(r.sessions, e) && CursorOf(e) == cursor {
        RotatingStep(r, e);
        if rest == [] {
          assert Chosen(r, es, cursor) == [Cyclic(vs, At(r.cursors, cursor))];
        } else {
          ChosenIsCyclic(r1, es[1..], cursor, vs);
          IsCyclicCons(rest, vs, At(r.cursors, cursor));
        }
      } else {
        RestingStep(r, e, cursor);
        ChosenIsCyclic(r1, es[1..], cursor, vs);
      }
    }
  }

  // ---- counting ----

  /** How many of c, c+1, ..., c+k-1 leave remainder j modulo n. */
  function Hits(c: nat, k: nat, n: nat, j: nat): nat
    requires n > 0
  {
    if k == 0 then 0 else Hits(c, k - 1, n, j) + if (c + k - 1) % n == j then 1 else 0
  }

  lemma DivStep(a: int, n: nat)
    requires n > 0
    ensures a / n - (a - 1) / n == if a % n == 0 then 1 else 0
  {
    var q, r := a / n, a % n;
    assert a == q * n + r;
    if r == 0 {
      assert a - 1 == (q - 1) * n + (n - 1);
      DivUnique(a - 1, n, q - 1, n - 1);
    } else {
      DivUnique(a - 1, n, q, r - 1);
    }
  }

  lemma {:induction false} ProductAtLeast(d: nat, n: nat)
    requires d >= 1
    ensures d * n >= n
  {
    if d > 1 { ProductAtLeast(d - 1, n); }
  }

  lemma DivUnique(a: int, n: nat, q: int, r: int)
    requires n > 0 && 0 <= r < n && a == q * n + r
    ensures a / n == q && a % n == r
  {
    var q', r' := a / n, a % n;
    assert a == q' * n + r';
    assert (q - q') * n == r' - r;
    if q > q' {
      ProductAtLeast(q - q', n);
    } else if q < q' {
      ProductAtLeast(q' - q, n);
    }
  }

  lemma ModShift(a: int, n: nat, j: nat)
    requires j < n
    ensures (a - j) % n == 0 <==> a % n == j
  {
    var q, r := a / n, a % n;
    assert a == q * n + r;
    if r >= j { DivUnique(a - j, n, q, r - j); } else { DivUnique(a - j, n, q - 1, r - j + n); }
  }

  lemma {:induction false} HitsClosedForm(c: nat, k: nat, n: nat, j: nat)
    requires j < n
    ensures Hits(c, k, n, j) == (c + k - 1 - j) / n - (c - 1 - j) / n
  {
    if k > 0 {
      HitsClosedForm(c, k - 1, n, j);
      DivStep(c + k - 1 - j, n);
      ModShift(c + k - 1, n, j);
    }
  }

  lemma DivOfSum(a: int, k: nat, n: nat)
    requires n > 0
    ensures k / n <= (a + k) / n - a / n <= (k + n - 1) / n
  {
    var q, r := a / n, a % n;
    var s, t := k / n, k % n;
    assert a == q * n + r && k == s * n + t;
    if r + t < n {
      assert a + k == (q + s) * n + (r + t);
      DivUnique(a + k, n, q + s, r + t);
    } else {
      assert a + k == (q + s + 1) * n + (r + t - n);
      DivUnique(a + k, n, q + s + 1, r + t - n);
    }
    if t == 0 {
      assert k + n - 1 == s * n + (n - 1);
      DivUnique(k + n - 1, n, s, n - 1);
    } else {
      assert k + n - 1 == (s + 1) * n + (t - 1);
      DivUnique(k + n - 1, n, s + 1, t - 1);
    }
  }

  lemma {:induction false} CountIsHits(chosen: seq<string>, vs: seq<string>, c: nat, j: nat)
    requires Distinct(vs) && j < |vs|
    requires IsCyclic(chosen, vs, c)
    ensures multiset(chosen)[vs[j]] == Hits(c, |chosen|, |vs|, j)
  {
    if chosen != [] {
      var k := |chosen| - 1;
      CountIsHits(chosen[..k], vs, c, j);
      assert chosen == chosen[..k] + [chosen[k]];
      var m := (c + k) % |vs|;
      assert chosen[k] == vs[m];
      assert chosen[k] == vs[j] <==> m == j;
    }
  }

  /** The k rotations of a cursor over n distinct values choose each value floor(k/n) or ceil(k/n) times. */
  lemma RotationIsFair(r: Router, es: seq<Event>, cursor: string, vs: seq<string>, v: string)
    requires AllPossible(es) && SameList(es, cursor, vs) && Distinct(vs) && v in vs
    requires At(r.cursors, cursor) + |Chosen(r, es, cursor)| <= TWO64
    ensures var k := |Chosen(r, es, cursor)|;
      k / |vs| <= multiset(Chosen(r, es, cursor))[v] <= (k + |vs| - 1) / |vs|
  {
    hide Step, Chosen, CursorOf, At, Sticky, Values;
    var c := At(r.cursors, cursor);
    ChosenIsCyclic(r, es, cursor, vs);
    CyclicIsFair(Chosen(r, es, cursor), vs, c, v);
  }

  lemma CyclicIsFair(chosen: seq<string>, vs: seq<string>, c: nat, v: string)
    requires Distinct(vs) && v in vs && IsCyclic(chosen, vs, c)
    ensures |chosen| / |vs| <= multiset(chosen)[v] <= (|chosen| + |vs| - 1) / |vs|
  {
    var j :| 0 <= j < |vs| && vs[j] == v;
    CountIsHits(chosen, vs, c, j);
    HitsClosedForm(c, |chosen|, |vs|, j);
    DivOfSum(c - 1 - j, |chosen|, |vs|);
    assert c - 1 - j + |chosen| == c + |chosen| - 1 - j;
  }
}
