/** Runs that reach and pass the quota bound: when it holds exactly, and that it is tight. */
module Overshoot {
  import opened TimeText
  import opened Quota

  // ---- sums of repeated rows ----

  function Copies(c: Charge, n: nat): (r: seq<Charge>)
    ensures |r| == n
  {
    seq(n, _ => c)
  }

  function Times(n: nat, x: real): real {
    n as real * x
  }

  lemma CopiesAppend(c: Charge, n: nat)
    ensures Copies(c, n + 1) == Copies(c, n) + [c]
  {
  }

  lemma SumAppend(ledger: seq<Charge>, c: Charge, w: Window, now: Moment)
    ensures WindowSum(ledger + [c], c.keyID, w, now) == WindowSum(ledger, c.keyID, w, now) + if InWindow(c, w, now)
      then c.usd else 0.0
  {
    assert (ledger + [c])[..|ledger|] == ledger;
  }

  lemma CopiesSplit(ledger: seq<Charge>, c: Charge, n: nat)
    requires n > 0
    ensures ledger + Copies(c, n) == (ledger + Copies(c, n - 1)) + [c]
  {
    CopiesAppend(c, n - 1);
    hide Copies;
  }

  lemma NoCopies(ledger: seq<Charge>, c: Charge)
    ensures ledger + Copies(c, 0) == ledger
  {
  }

  lemma TimesNext(n: nat, x: real)
    requires n > 0
    ensures Times(n, x) == Times(n - 1, x) + x && Times(0, x) == 0.0
  {
    assert n as real == (n - 1) as real + 1.0;
  }

  lemma {:induction false} CopiesSum(ledger: seq<Charge>, c: Charge, n: nat, w: Window, now: Moment)
    ensures WindowSum(ledger + Copies(c, n), c.keyID, w, now) ==
      WindowSum(ledger, c.keyID, w, now) + if InWindow(c, w, now) then Times(n, c.usd) else 0.0
  {
    if n == 0 {
      NoCopies(ledger, c);
    } else {
      hide *;
      CopiesSum(ledger, c, n - 1, w, now);
      CopiesSplit(ledger, c, n);
      TimesNext(n, c.usd);
      SumAppend(ledger + Copies(c, n - 1), c, w, now);
    }
  }

  lemma NoCharges(keyID: string, now: Moment)
    ensures forall w :: WindowSum([], keyID, w, now) == 0.0
  {
  }

  lemma {:induction false} Enough(c: real, x: real) returns (n: nat)
    requires c > 0.0
    ensures n >= 1 && Times(n, c) > x
  {
    if x < 0.0 {
      n := 1;
    } else {
      n := (x / c).Floor + 1;
      assert n as real > x / c;
      Scale(n as real, x / c, c);
    }
  }

  lemma Scale(a: real, b: real, c: real)
    requires a > b && c > 0.0
    ensures a * c > b * c
  {
  }

  lemma TimesLess(i: nat, n: nat, c: real)
    requires i < n && c > 0.0
    ensures Times(i, c) < Times(n, c)
  {
    Scale(n as real, i as real, c);
  }

  lemma TimesOne(c: real)
    ensures Times(1, c) == c && Times(0, c) == 0.0
  {
  }

  /** An amount as equal parts of at most c. */
  lemma Parts(amount: real, c: real) returns (n: nat, part: real)
    requires amount > 0.0 && c > 0.0
    ensures n >= 1 && 0.0 < part <= c && Times(n, part) == amount
  {
    n := Enough(c, amount);
    part := amount / n as real;
    Divided(amount, n as real, c);
  }

  lemma Divided(amount: real, n: real, c: real)
    requires amount > 0.0 && n >= 1.0 && n * c > amount
    ensures 0.0 < amount / n <= c && n * (amount / n) == amount
  {
    var part := amount / n;
    assert n * part == amount;
    if part > c { Scale(part, c, n); }
    if part <= 0.0 { NotPositive(n, part); }
  }

  lemma NotPositive(n: real, x: real)
    requires n >= 1.0 && x <= 0.0
    ensures n * x <= 0.0
  {
  }

  lemma CountsAtOnce(keyID: string, usd: real, now: Moment, w: Window)
    ensures InWindow(Charge(keyID, usd, now), w, now)
  {
    if w != Total { assert Cut(w, now) / SECOND < now / SECOND; }
  }

  // ---- composing runs ----

  lemma {:induction false} RunAppend(s: Setting, m: Meter, xs: seq<Action>, ys: seq<Action>)
    requires IsRun(s, m, xs) && IsRun(s, End(m, xs), ys)
    ensures IsRun(s, m, xs + ys) && End(m, xs + ys) == End(End(m, xs), ys)
    decreases xs
  {
    if xs == [] {
      assert xs + ys == ys;
    } else {
      assert (xs + ys)[1..] == xs[1..] + ys;
      RunAppend(s, Act(m, xs[0]), xs[1..], ys);
    }
  }

  lemma RunCons(s: Setting, m: Meter, a: Action, rest: seq<Action>)
    requires Enabled(s, m, a) && IsRun(s, Act(m, a), rest)
    ensures IsRun(s, m, [a] + rest) && End(m, [a] + rest) == End(Act(m, a), rest)
  {
    assert ([a] + rest)[1..] == rest;
  }

  lemma NoActions(s: Setting, m: Meter)
    ensures IsRun(s, m, []) && End(m, []) == m
  {
  }

  /** Authenticate succeeds with nothing in between: its three queries. */
  function Admit(now: Moment): seq<Action> {
    [Query(FiveHour, now)] + ([Query(Weekly, now)] + ([Query(Total, now)] + []))
  }

  function Admitted(m: Meter, now: Moment): Meter {
    var check := Check(now, |m.ledger|);
    m.(admitted := m.admitted + 1, fiveHour := check, weekly := check, total := check)
  }

  predicate Settled(m: Meter) {
    m.atWeekly == 0 && m.atTotal == 0
  }

  /** All three windows were last checked at that reading. */
  ghost predicate LastAt(m: Meter, a: Moment) {
    forall v :: CheckOf(m, v).clock == a
  }

  lemma AdmitRuns(s: Setting, m: Meter, now: Moment)
    requires Settled(m) && m.admitted < s.k && !Exceeded(m.ledger, s.keyID, s.limits, now)
    ensures IsRun(s, m, Admit(now)) && End(m, Admit(now)) == Admitted(m, now)
  {
    hide WindowSum, IsRun, End, Reached;
    var m1 := Act(m, Query(FiveHour, now));
    var m2 := Act(m1, Query(Weekly, now));
    NoActions(s, Admitted(m, now));
    RunCons(s, m2, Query(Total, now), []);
    RunCons(s, m1, Query(Weekly, now), [Query(Total, now)] + []);
    RunCons(s, m, Query(FiveHour, now), [Query(Weekly, now)] + ([Query(Total, now)] + []));
  }

  /** n requests admitted together. */
  function Admits(now: Moment, n: nat): seq<Action> {
    if n == 0 then [] else Admit(now) + Admits(now, n - 1)
  }

  lemma {:induction false} AdmitMany(s: Setting, m: Meter, now: Moment, n: nat)
    requires Settled(m) && m.admitted + n <= s.k && !Exceeded(m.ledger, s.keyID, s.limits, now)
    ensures var e := End(m, Admits(now, n));
      IsRun(s, m, Admits(now, n)) && e.ledger == m.ledger && e.admitted == m.admitted + n && Settled(e) &&
      (n > 0 || LastAt(m, now) ==> LastAt(e, now))
    decreases n
  {
    hide IsRun, End, Exceeded, Admit;
    if n == 0 {
      NoActions(s, m);
    } else {
      AdmitRuns(s, m, now);
      AdmitMany(s, Admitted(m, now), now, n - 1);
      RunAppend(s, m, Admit(now), Admits(now, n - 1));
    }
  }

  /** n admitted requests booked alike. */
  function Books(c: Charge, n: nat): seq<Action> {
    if n == 0 then [] else [Book(c)] + Books(c, n - 1)
  }

  lemma CopiesFront(ledger: seq<Charge>, c: Charge, n: nat)
    requires n > 0
    ensures ledger + Copies(c, n) == (ledger + [c]) + Copies(c, n - 1)
  {
    assert Copies(c, n) == [c] + Copies(c, n - 1);
  }

  lemma {:induction false} BookMany(s: Setting, m: Meter, c: Charge, n: nat)
    requires m.admitted == n && c.keyID == s.keyID && 0.0 <= c.usd <= s.c
    ensures var e := End(m, Books(c, n));
      IsRun(s, m, Books(c, n)) && e == m.(ledger := m.ledger + Copies(c, n), admitted := 0)
    decreases n
  {
    hide IsRun, End, Copies;
    if n == 0 {
      NoActions(s, m);
      NoCopies(m.ledger, c);
    } else {
      BookMany(s, Act(m, Book(c)), c, n - 1);
      RunCons(s, m, Book(c), Books(c, n - 1));
      CopiesFront(m.ledger, c, n);
    }
  }

  /** k requests admitted together, then booked alike. */
  function Burst(s: Setting, now: Moment, c: Charge): seq<Action> {
    Admits(now, s.k) + Books(c, s.k)
  }

  lemma BurstRuns(s: Setting, m: Meter, now: Moment, c: Charge)
    requires Settled(m) && m.admitted == 0 && c.keyID == s.keyID && 0.0 <= c.usd <= s.c
    requires !Exceeded(m.ledger, s.keyID, s.limits, now)
    ensures var e := End(m, Burst(s, now, c));
      IsRun(s, m, Burst(s, now, c)) && e.ledger == m.ledger + Copies(c, s.k) && e.admitted == 0 && Settled(e) &&
      (s.k > 0 || LastAt(m, now) ==> LastAt(e, now))
  {
    hide IsRun, End, Exceeded, Copies, Admits, Books;
    AdmitMany(s, m, now, s.k);
    var admitted := End(m, Admits(now, s.k));
    BookMany(s, admitted, c, s.k);
    RunAppend(s, m, Admits(now, s.k), Books(c, s.k));
    assert forall v :: CheckOf(End(m, Burst(s, now, c)), v) == CheckOf(admitted, v);
  }

  /** n requests, each booked before the next one is admitted. */
  function Turns(now: Moment, c: Charge, n: nat): seq<Action> {
    if n == 0 then [] else Turns(now, c, n - 1) + (Admit(now) + [Book(c)])
  }

  lemma OneTurn(s: Setting, m: Meter, now: Moment, c: Charge)
    requires Settled(m) && m.admitted == 0 && s.k >= 1 && c.keyID == s.keyID && 0.0 <= c.usd <= s.c
    requires !Exceeded(m.ledger, s.keyID, s.limits, now)
    ensures var e := End(m, Admit(now) + [Book(c)]);
      IsRun(s, m, Admit(now) + [Book(c)]) && e.ledger == m.ledger + [c] && e.admitted == 0 && Settled(e) &&
        LastAt(e, now)
  {
    hide IsRun, End, Exceeded, Admit;
    AdmitRuns(s, m, now);
    var m1 := Admitted(m, now);
    NoActions(s, Act(m1, Book(c)));
    RunCons(s, m1, Book(c), []);
    assert [Book(c)] + [] == [Book(c)];
    RunAppend(s, m, Admit(now), [Book(c)]);
  }

  /** Requests in turn are admitted as long as none of the ledgers on the way reaches a limit. */
  lemma {:induction false} TurnsRun(s: Setting, m: Meter, now: Moment, c: Charge, n: nat)
    requires Settled(m) && m.admitted == 0 && s.k >= 1 && c.keyID == s.keyID && 0.0 <= c.usd <= s.c
    requires forall i: nat | i < n :: !Exceeded(m.ledger + Copies(c, i), s.keyID, s.limits, now)
    ensures var e := End(m, Turns(now, c, n));
      IsRun(s, m, Turns(now, c, n)) && e.ledger == m.ledger + Copies(c, n) && e.admitted == 0 && Settled(e) &&
      (n > 0 || LastAt(m, now) ==> LastAt(e, now))
    decreases n
  {
    hide Exceeded, Copies, IsRun, End, Admit;
    if n == 0 {
      NoActions(s, m);
      NoCopies(m.ledger, c);
    } else {
      TurnsRun(s, m, now, c, n - 1);
      var e := End(m, Turns(now, c, n - 1));
      OneTurn(s, e, now, c);
      CopiesSplit(m.ledger, c, n);
      RunAppend(s, m, Turns(now, c, n - 1), Admit(now) + [Book(c)]);
    }
  }

  lemma FullSlack(s: Setting, m: Meter)
    requires m.admitted == 0
    ensures Slack(s, m) == Times(s.k, s.c)
  {
  }

  /** Nothing is refused while each limited window's sum is below its limit. */
  lemma BelowAll(ledger: seq<Charge>, s: Setting, now: Moment)
    requires forall v | Limited(s, v) :: WindowSum(ledger, s.keyID, v, now) < LimitOf(s.limits, v).usd
    ensures !Exceeded(ledger, s.keyID, s.limits, now)
  {
    hide WindowSum;
    assert Limited(s, FiveHour) ==> WindowSum(ledger, s.keyID, FiveHour, now) < LimitOf(s.limits, FiveHour).usd;
    assert Limited(s, Weekly) ==> WindowSum(ledger, s.keyID, Weekly, now) < LimitOf(s.limits, Weekly).usd;
    assert Limited(s, Total) ==> WindowSum(ledger, s.keyID, Total, now) < LimitOf(s.limits, Total).usd;
  }

  // ---- the bound holds exactly when a limit no larger covers the window ----

  /** Every run that was last checked at a leaves the window's sum at b below limit plus slack. */
  ghost predicate BoundHolds(s: Setting, w: Window, a: Moment, b: Moment)
    requires Limited(s, w)
  {
    forall begin, actions | IsRun(s, Start(begin), actions) && LastAt(End(Start(begin), actions), a) ::
      Obeys(s, w, End(Start(begin), actions), b)
  }

  predicate Obeys(s: Setting, w: Window, m: Meter, b: Moment)
    requires Limited(s, w)
  {
    WindowSum(m.ledger, s.keyID, w, b) < LimitOf(s.limits, w).usd + Slack(s, m)
  }

  /** Some limit, no larger than the window's, counts at a whatever the window counts at b. */
  ghost predicate Covered(s: Setting, w: Window, a: Moment, b: Moment)
    requires Limited(s, w)
  {
    exists v | Limited(s, v) :: LimitOf(s.limits, v).usd <= LimitOf(s.limits, w).usd && Covers(v, w, a, b)
  }

  lemma CoveredObeys(s: Setting, w: Window, a: Moment, b: Moment, begin: Moment, actions: seq<Action>)
    requires s.c >= 0.0 && Limited(s, w) && Covered(s, w, a, b)
    requires IsRun(s, Start(begin), actions) && LastAt(End(Start(begin), actions), a)
    ensures Obeys(s, w, End(Start(begin), actions), b)
  {
    hide IsRun, End, WindowSum, Covers, Room;
    var v :| Limited(s, v) && LimitOf(s.limits, v).usd <= LimitOf(s.limits, w).usd && Covers(v, w, a, b);
    BoundByCover(s, begin, actions, v, w, b);
  }

  /** Without cover, a row at the cut of b is counted by the window at b, and at a only by larger limits. */
  lemma UncoveredRow(s: Setting, w: Window, a: Moment, b: Moment, c: Charge)
    requires Limited(s, w) && !Covered(s, w, a, b) && w != Total && c.createdAt == Cut(w, b)
    ensures InWindow(c, w, b)
    ensures forall v | Limited(s, v) && InWindow(c, v, a) :: LimitOf(s.limits, v).usd > LimitOf(s.limits, w).usd
  {
    TextLeqIsReflexive(Cut(w, b));
    hide TextLeq;
  }

  lemma UncoveredIsPartial(s: Setting, w: Window, a: Moment, b: Moment)
    requires Limited(s, w) && !Covered(s, w, a, b)
    ensures w != Total && !TextLeq(Cut(w, a), Cut(w, b))
  {
    assert !Covers(w, w, a, b);
  }

  /** The i-th of n uncovered parts of the limit passes all checks at a. */
  lemma UncoveredPartsPass(s: Setting, w: Window, a: Moment, b: Moment, c: Charge, n: nat, i: nat)
    requires Limited(s, w) && !Covered(s, w, a, b) && w != Total && c.createdAt == Cut(w, b) && c.keyID == s.keyID
    requires c.usd > 0.0 && i <= n && Times(n, c.usd) == LimitOf(s.limits, w).usd
    ensures !Exceeded([] + Copies(c, i), s.keyID, s.limits, a)
  {
    hide WindowSum, Copies, InWindow, Times, Exceeded, Covered;
    if i < n { TimesLess(i, n, c.usd); }
    UncoveredRow(s, w, a, b, c);
    NoCharges(s.keyID, a);
    forall v | Limited(s, v) ensures WindowSum([] + Copies(c, i), s.keyID, v, a) < LimitOf(s.limits, v).usd {
      CopiesSum([], c, i, v, a);
    }
    BelowAll([] + Copies(c, i), s, a);
  }

  /**
   * Without cover, some run passes the bound: the limit in parts that the checks at a do not count, and k requests
   * more.
   */
  lemma UncoveredFails(s: Setting, w: Window, a: Moment, b: Moment)
    requires Limited(s, w) && !Covered(s, w, a, b) && s.k >= 1 && s.c > 0.0
    ensures !BoundHolds(s, w, a, b)
  {
    UncoveredIsPartial(s, w, a, b);
    hide WindowSum, IsRun, End, Copies, Times, Exceeded, Covered, Turns, Burst, InWindow, Room;
    var n, part := Parts(LimitOf(s.limits, w).usd, s.c);
    var c, d := Charge(s.keyID, part, Cut(w, b)), Charge(s.keyID, s.c, Cut(w, b));
    forall i: nat | i <= n ensures !Exceeded([] + Copies(c, i), s.keyID, s.limits, a) {
      UncoveredPartsPass(s, w, a, b, c, n, i);
    }
    var turns, burst := Turns(a, c, n), Burst(s, a, d);
    TurnsRun(s, Start(a), a, c, n);
    var m := End(Start(a), turns);
    BurstRuns(s, m, a, d);
    RunAppend(s, Start(a), turns, burst);
    UncoveredRow(s, w, a, b, c);
    UncoveredRow(s, w, a, b, d);
    NoCharges(s.keyID, b);
    CopiesSum([], c, n, w, b);
    CopiesSum(m.ledger, d, s.k, w, b);
    FullSlack(s, End(m, burst));
    assert !Obeys(s, w, End(Start(a), turns + burst), b);
  }

  /**
   * For any limits and any two readings, in whatever order: the bound of a window holds at b in every run last
   * checked at a if and only if some limit no larger than its own counted at a whatever the window counts at b.
   */
  lemma BoundExact(s: Setting, w: Window, a: Moment, b: Moment)
    requires Limited(s, w) && s.k >= 1 && s.c > 0.0
    ensures BoundHolds(s, w, a, b) <==>
      exists v | Limited(s, v) ::
        LimitOf(s.limits, v).usd <= LimitOf(s.limits, w).usd &&
          (v == Total || (w != Total && TextLeq(Cut(v, a), Cut(w, b))))
  {
    hide IsRun, End, TextLeq, WindowSum, Room;
    assert Covered(s, w, a, b) <==>
      exists v | Limited(s, v) ::
        LimitOf(s.limits, v).usd <= LimitOf(s.limits, w).usd &&
          (v == Total || (w != Total && TextLeq(Cut(v, a), Cut(w, b))));
    hide Covered, Obeys;
    if Covered(s, w, a, b) {
      forall begin, actions | IsRun(s, Start(begin), actions) && LastAt(End(Start(begin), actions), a)
        ensures Obeys(s, w, End(Start(begin), actions), b)
      {
        CoveredObeys(s, w, a, b, begin, actions);
      }
    } else {
      UncoveredFails(s, w, a, b);
    }
  }

  ghost predicate OnlyLimit(s: Setting, w: Window) {
    Limited(s, w) && forall v | v != w :: !Limited(s, v)
  }

  /** With one limit, exactly when the cut of a compares at or before the cut of b. */
  lemma BoundExactForOneLimit(s: Setting, w: Window, a: Moment, b: Moment)
    requires OnlyLimit(s, w) && s.k >= 1 && s.c > 0.0
    ensures BoundHolds(s, w, a, b) <==> w == Total || TextLeq(Cut(w, a), Cut(w, b))
  {
    BoundExact(s, w, a, b);
    hide BoundHolds, TextLeq;
  }

  /** With one limit, if the cuts compare the wrong way round, runs last checked at a reach any sum at b. */
  lemma NoBoundAtAll(s: Setting, w: Window, a: Moment, b: Moment, x: real) returns (actions: seq<Action>)
    requires OnlyLimit(s, w) && s.k >= 1 && s.c > 0.0 && w != Total && !TextLeq(Cut(w, a), Cut(w, b))
    ensures var m := End(Start(a), actions);
      IsRun(s, Start(a), actions) && LastAt(m, a) && m.admitted == 0 && WindowSum(m.ledger, s.keyID, w, b) > x
  {
    TextLeqIsReflexive(Cut(w, b));
    hide WindowSum, IsRun, End, TextLeq, Copies, Exceeded, Times, Turns;
    var c := Charge(s.keyID, s.c, Cut(w, b));
    var n := Enough(s.c, x);
    NoCharges(s.keyID, a);
    forall i: nat | i < n ensures !Exceeded([] + Copies(c, i), s.keyID, s.limits, a) {
      CopiesSum([], c, i, w, a);
      BelowAll([] + Copies(c, i), s, a);
    }
    TurnsRun(s, Start(a), a, c, n);
    NoCharges(s.keyID, b);
    CopiesSum([], c, n, w, b);
    actions := Turns(a, c, n);
  }

  // ---- readings that do not go back ----

  /** Checks and bookings read the clock in order, from a reading on. */
  ghost predicate InOrder(actions: seq<Action>, from: Instant)
    decreases actions
  {
    actions != [] ==>
      match actions[0]
      case Query(_, now) => from <= now && InOrder(actions[1..], now)
      case Book(charge) => from <= charge.createdAt && InOrder(actions[1..], charge.createdAt)
      case _ => InOrder(actions[1..], from)
  }

  /** Checks and bookings all read the same instant. */
  ghost predicate AllAt(actions: seq<Action>, t: Instant) {
    forall i | 0 <= i < |actions| ::
      (actions[i].Query? ==> actions[i].now == t) && (actions[i].Book? ==> actions[i].charge.createdAt == t)
  }

  lemma {:induction false} InOrderAfter(xs: seq<Action>, t: Instant, ys: seq<Action>, from: Instant)
    requires AllAt(xs, t) && from <= t && InOrder(ys, t)
    ensures InOrder(xs + ys, from)
    decreases xs
  {
    if xs == [] {
      assert xs + ys == ys;
      InOrderEarlier(ys, t, from);
    } else {
      assert (xs + ys)[1..] == xs[1..] + ys && (xs + ys)[0] == xs[0];
      InOrderAfter(xs[1..], t, ys, if xs[0].Query? || xs[0].Book? then t else from);
    }
  }

  lemma {:induction false} InOrderEarlier(ys: seq<Action>, t: Instant, from: Instant)
    requires InOrder(ys, t) && from <= t
    ensures InOrder(ys, from)
    decreases ys
  {
    if ys != [] && !ys[0].Query? && !ys[0].Book? { InOrderEarlier(ys[1..], t, from); }
  }

  lemma AllAtAppend(xs: seq<Action>, ys: seq<Action>, t: Instant)
    requires AllAt(xs, t) && AllAt(ys, t)
    ensures AllAt(xs + ys, t)
  {
  }

  lemma AdmitAt(now: Moment)
    ensures AllAt(Admit(now), now)
  {
  }

  lemma {:induction false} TurnsAt(now: Moment, c: Charge, n: nat)
    requires c.createdAt == now
    ensures AllAt(Turns(now, c, n), now)
  {
    hide Admit;
    if n > 0 {
      TurnsAt(now, c, n - 1);
      AdmitAt(now);
      AllAtAppend(Admit(now), [Book(c)], now);
      AllAtAppend(Turns(now, c, n - 1), Admit(now) + [Book(c)], now);
    }
  }

  lemma {:induction false} AdmitsAt(now: Moment, n: nat)
    ensures AllAt(Admits(now, n), now)
  {
    hide Admit;
    if n > 0 {
      AdmitsAt(now, n - 1);
      AdmitAt(now);
      AllAtAppend(Admit(now), Admits(now, n - 1), now);
    }
  }

  lemma {:induction false} BooksAt(c: Charge, n: nat)
    ensures AllAt(Books(c, n), c.createdAt)
  {
    if n > 0 {
      BooksAt(c, n - 1);
      AllAtAppend([Book(c)], Books(c, n - 1), c.createdAt);
    }
  }

  lemma BurstAt(s: Setting, now: Moment, c: Charge)
    requires c.createdAt == now
    ensures AllAt(Burst(s, now, c), now)
  {
    AdmitsAt(now, s.k);
    BooksAt(c, s.k);
    AllAtAppend(Admits(now, s.k), Books(c, s.k), now);
  }

  /** As BoundHolds, for the runs whose readings do not go back and whose rows carry the clock at their booking. */
  ghost predicate BoundHoldsInOrder(s: Setting, w: Window, a: Moment, b: Moment)
    requires Limited(s, w)
  {
    forall begin: Moment, actions
      | IsRun(s, Start(begin), actions) && LastAt(End(Start(begin), actions), a) && InOrder(actions, begin) ::
      Obeys(s, w, End(Start(begin), actions), b)
  }

  /** No limit of the key is below the window's. */
  ghost predicate Smallest(s: Setting, w: Window) {
    Limited(s, w) && forall v | Limited(s, v) :: LimitOf(s.limits, w).usd <= LimitOf(s.limits, v).usd
  }

  function Min(x: real, y: real): real {
    if x < y then x else y
  }

  /** What lies between the window's limit and a larger one. */
  function Gap(s: Setting, w: Window, v: Window): real
    requires Limited(s, w)
  {
    if Limited(s, v) && LimitOf(s.limits, v).usd > LimitOf(s.limits, w).usd
      then LimitOf(s.limits, v).usd - LimitOf(s.limits, w).usd
      else LimitOf(s.limits, w).usd
  }

  /** A cost no larger than any such gap, the limit, or c. */
  function Small(s: Setting, w: Window): real
    requires Limited(s, w)
  {
    Min(Min(s.c, LimitOf(s.limits, w).usd), Min(Gap(s, w, FiveHour), Min(Gap(s, w, Weekly), Gap(s, w, Total))))
  }

  lemma SmallIsSmall(s: Setting, w: Window, v: Window)
    requires Limited(s, w) && s.c > 0.0
    ensures 0.0 < Small(s, w) <= s.c && Small(s, w) <= LimitOf(s.limits, w).usd && Small(s, w) <= Gap(s, w, v)
  {
  }

  /** After one small uncovered row, parts of the rest of the limit pass the checks at a. */
  lemma RestPasses(s: Setting, w: Window, a: Moment, b: Moment, first: Charge, c: Charge, n: nat, i: nat)
    requires Smallest(s, w) && !Covered(s, w, a, b) && w != Total && s.c > 0.0 && first.createdAt == Cut(w, b)
    requires first.keyID == s.keyID == c.keyID && first.usd == Small(s, w)
    requires c.usd > 0.0 && i <= n && Times(n, c.usd) == LimitOf(s.limits, w).usd - Small(s, w) / 2.0
    ensures !Exceeded([first] + Copies(c, i), s.keyID, s.limits, a)
  {
    assert Limited(s, w) && forall v | Limited(s, v) :: LimitOf(s.limits, w).usd <= LimitOf(s.limits, v).usd;
    hide WindowSum, Copies, InWindow, Times, Exceeded, Covered, Smallest, Small;
    if i < n { TimesLess(i, n, c.usd); }
    TimesLess(0, 1, c.usd);
    TimesOne(c.usd);
    if i > 0 { TimesLess(0, i, c.usd); }
    UncoveredRow(s, w, a, b, first);
    NoCharges(s.keyID, a);
    forall v | Limited(s, v) ensures WindowSum([first] + Copies(c, i), s.keyID, v, a) < LimitOf(s.limits, v).usd {
      CopiesSum([first], c, i, v, a);
      SumAppend([], first, v, a);
      assert [] + [first] == [first];
      SmallIsSmall(s, w, v);
    }
    BelowAll([first] + Copies(c, i), s, a);
  }

  lemma CutIsEarlier(w: Window, a: Moment, b: Moment, c: Charge)
    requires w != Total && !TextLeq(Cut(w, a), Cut(w, b)) && c.createdAt == a
    ensures Cut(w, b) < a && InWindow(c, w, b)
  {
  }

  /**
   * Without cover of the smallest limit, a run in order passes its bound: one small row at the cut of b, the rest of
   * the limit at a, and k requests more.
   */
  lemma UncoveredFailsInOrder(s: Setting, w: Window, a: Moment, b: Moment)
    requires Smallest(s, w) && !Covered(s, w, a, b) && s.k >= 1 && s.c > 0.0 && ZERO_TIME + 2 * WEEK < b
    ensures !BoundHoldsInOrder(s, w, a, b)
  {
    UncoveredIsPartial(s, w, a, b);
    var t: Moment := Cut(w, b);
    SmallIsSmall(s, w, w);
    hide WindowSum, IsRun, End, Times, Covered, Admit, TextLeq, Small, Smallest, Obeys;
    var first := Charge(s.keyID, Small(s, w), t);
    var n, part := Parts(LimitOf(s.limits, w).usd - Small(s, w) / 2.0, s.c);
    var c, d := Charge(s.keyID, part, a), Charge(s.keyID, s.c, a);
    LatePartsRun(s, w, a, b, first, c, d, n);
    CutIsEarlier(w, a, b, c);
    InOrderRun(t, first, a, c, n, s, d);
    LatePartsSum(s, w, a, b, first, c, d, n);
    var e := End(Start(t), LateParts(s, first, a, c, n, d));
    FullSlack(s, e);
    ObeysIs(s, w, e, b);
  }

  lemma ObeysIs(s: Setting, w: Window, m: Meter, b: Moment)
    requires Limited(s, w)
    ensures Obeys(s, w, m, b) <==> WindowSum(m.ledger, s.keyID, w, b) < LimitOf(s.limits, w).usd + Slack(s, m)
  {
  }

  /** The run: one request at the cut of b, n in turn at a, k together at a. */
  function LateParts(s: Setting, first: Charge, a: Moment, c: Charge, n: nat, d: Charge): seq<Action>
    requires ZERO_TIME + WEEK < first.createdAt
  {
    (Admit(first.createdAt) + [Book(first)]) + (Turns(a, c, n) + Burst(s, a, d))
  }

  lemma LatePartsRun(s: Setting, w: Window, a: Moment, b: Moment, first: Charge, c: Charge, d: Charge, n: nat)
    requires Smallest(s, w) && !Covered(s, w, a, b) && w != Total && s.k >= 1 && s.c > 0.0
    requires first.createdAt == Cut(w, b) > ZERO_TIME + WEEK && first.keyID == s.keyID && first.usd == Small(s, w)
    requires c.keyID == d.keyID == s.keyID && 0.0 < c.usd <= s.c && d.usd == s.c
    requires Times(n, c.usd) == LimitOf(s.limits, w).usd - Small(s, w) / 2.0
    ensures var t: Moment := first.createdAt;
      var actions := LateParts(s, first, a, c, n, d);
      var e := End(Start(t), actions);
      IsRun(s, Start(t), actions) && LastAt(e, a) && e.admitted == 0 &&
      e.ledger == ([first] + Copies(c, n)) + Copies(d, s.k)
  {
    assert Limited(s, w);
    SmallIsSmall(s, w, w);
    hide WindowSum, IsRun, End, Copies, Times, Exceeded, Covered, Turns, Burst, Small, Smallest, Admit, LastAt;
    var t: Moment := first.createdAt;
    NoCharges(s.keyID, t);
    BelowAll([], s, t);
    OneTurn(s, Start(t), t, first);
    var one, turns, burst := Admit(t) + [Book(first)], Turns(a, c, n), Burst(s, a, d);
    var m := End(Start(t), one);
    assert m.ledger == [first];
    forall i: nat | i <= n ensures !Exceeded([first] + Copies(c, i), s.keyID, s.limits, a) {
      RestPasses(s, w, a, b, first, c, n, i);
    }
    TurnsRun(s, m, a, c, n);
    BurstRuns(s, End(m, turns), a, d);
    RunAppend(s, m, turns, burst);
    RunAppend(s, Start(t), one, turns + burst);
  }

  lemma LatePartsSum(s: Setting, w: Window, a: Moment, b: Moment, first: Charge, c: Charge, d: Charge, n: nat)
    requires Limited(s, w) && !Covered(s, w, a, b) && w != Total && first.createdAt == Cut(w, b)
    requires first.keyID == c.keyID == d.keyID == s.keyID && c.createdAt == d.createdAt == a && d.usd == s.c
    requires first.usd > 0.0 && Times(n, c.usd) == LimitOf(s.limits, w).usd - first.usd / 2.0
    ensures WindowSum(([first] + Copies(c, n)) + Copies(d, s.k), s.keyID, w, b) > LimitOf(s.limits, w).usd +
      Times(s.k, s.c)
  {
    UncoveredIsPartial(s, w, a, b);
    UncoveredRow(s, w, a, b, first);
    CutIsEarlier(w, a, b, c);
    CutIsEarlier(w, a, b, d);
    hide WindowSum, Copies, Times, Covered, InWindow;
    NoCharges(s.keyID, b);
    SumAppend([], first, w, b);
    assert [] + [first] == [first];
    CopiesSum([first], c, n, w, b);
    CopiesSum([first] + Copies(c, n), d, s.k, w, b);
  }

  lemma InOrderRun(t: Moment, first: Charge, a: Moment, c: Charge, n: nat, s: Setting, d: Charge)
    requires t <= a && first.createdAt == t && c.createdAt == d.createdAt == a
    ensures InOrder((Admit(t) + [Book(first)]) + (Turns(a, c, n) + Burst(s, a, d)), t)
  {
    hide Admit, Turns, Burst;
    AdmitAt(t);
    AllAtAppend(Admit(t), [Book(first)], t);
    TurnsAt(a, c, n);
    BurstAt(s, a, d);
    AllAtAppend(Turns(a, c, n), Burst(s, a, d), a);
    var later := Turns(a, c, n) + Burst(s, a, d);
    assert InOrder([], a);
    InOrderAfter(later, a, [], t);
    assert later + [] == later;
    InOrderAfter(Admit(t) + [Book(first)], t, later, t);
  }

  /**
   * That is so too for the window with the smallest limit when only runs in order are considered, in which every row
   * carries the clock at its booking.
   */
  lemma BoundExactInOrder(s: Setting, w: Window, a: Moment, b: Moment)
    requires Smallest(s, w) && s.k >= 1 && s.c > 0.0 && ZERO_TIME + 2 * WEEK < b
    ensures BoundHoldsInOrder(s, w, a, b) <==> Covered(s, w, a, b)
  {
    hide IsRun, End, Covered, Obeys;
    if Covered(s, w, a, b) {
      forall begin: Moment, actions
        | IsRun(s, Start(begin), actions) && LastAt(End(Start(begin), actions), a) && InOrder(actions, begin)
        ensures Obeys(s, w, End(Start(begin), actions), b)
      {
        CoveredObeys(s, w, a, b, begin, actions);
      }
    } else {
      UncoveredFailsInOrder(s, w, a, b);
    }
  }

  /** With one limit, exactly when the cuts compare in order, as without the order. */
  lemma BoundExactInOrderForOneLimit(s: Setting, w: Window, a: Moment, b: Moment)
    requires OnlyLimit(s, w) && s.k >= 1 && s.c > 0.0 && ZERO_TIME + 2 * WEEK < b
    ensures BoundHoldsInOrder(s, w, a, b) <==> w == Total || TextLeq(Cut(w, a), Cut(w, b))
  {
    BoundExactInOrder(s, w, a, b);
    hide BoundHoldsInOrder, TextLeq;
  }

  // ---- passing the bound with one request at a time ----

  lemma WindowsAtTheTurn(keyID: string, c: real, cut: Instant, half: Moment, admitted: Moment, later: Moment)
    requires cut % SECOND == 0 && cut < half && cut / SECOND == half / SECOND
    requires admitted == cut + FIVE_HOURS && later == half + FIVE_HOURS
    ensures InWindow(Charge(keyID, c, half), FiveHour, half) && !InWindow(Charge(keyID, c, half), FiveHour, admitted)
    ensures InWindow(Charge(keyID, c, admitted), FiveHour, admitted)
    ensures InWindow(Charge(keyID, c, half), FiveHour, later) && InWindow(Charge(keyID, c, admitted), FiveHour, later)
  {
    WholeSecondMisorders(cut, half);
    assert Cut(FiveHour, admitted) == cut && Cut(FiveHour, later) == half;
    assert half / SECOND != admitted / SECOND;
    assert Cut(FiveHour, half) / SECOND < half / SECOND;
  }

  lemma TurnsUnderFiveHourLimit(s: Setting, ledger: seq<Charge>, now: Moment, c: Charge, n: nat)
    requires s.limits == Limits(AtMost(Times(n, c.usd)), Unlimited, Unlimited) && c.usd > 0.0 && c.keyID == s.keyID
    requires WindowSum(ledger, s.keyID, FiveHour, now) == 0.0
    ensures forall i: nat | i < n :: !Exceeded(ledger + Copies(c, i), s.keyID, s.limits, now)
  {
    hide WindowSum, Copies, InWindow, Times;
    forall i: nat | i < n ensures !Exceeded(ledger + Copies(c, i), s.keyID, s.limits, now) {
      CopiesSum(ledger, c, i, FiveHour, now);
      TimesLess(i, n, c.usd);
      TimesLess(0, n, c.usd);
      TimesNext(n, c.usd);
    }
  }

  lemma TurnsInOrder(t: Moment, c: Charge, t': Moment, c': Charge, n: nat)
    requires t <= t' && c.createdAt == t && c'.createdAt == t'
    ensures InOrder(Turns(t, c, n) + Turns(t', c', n), t)
  {
    hide Turns;
    TurnsAt(t, c, n);
    TurnsAt(t', c', n);
    InOrderAfter(Turns(t', c', n), t', [], t);
    assert Turns(t', c', n) + [] == Turns(t', c', n);
    InOrderAfter(Turns(t', c', n), t', [], t');
    InOrderAfter(Turns(t, c, n), t, Turns(t', c', n), t);
  }

  /**
   * The computed five-hour sum can be twice the limit with a clock that never goes back and one request at a time: n
   * requests of cost c use up a limit of n times c; at the turn of a second five hours later their rows are left out
   * and n more are admitted; later in that second all 2 n rows count. From n = 2 on that is past limit plus slack, by
   * n - 1 times c.
   */
  lemma TextWindowCanOvershoot(keyID: string, n: nat, c: real, cut: Instant, half: Moment, admitted: Moment,
        later: Moment)
    requires n >= 1 && c > 0.0 && cut % SECOND == 0 && cut < half && cut / SECOND == half / SECOND
    requires admitted == cut + FIVE_HOURS && later == half + FIVE_HOURS
    ensures var s := Setting(keyID, Limits(AtMost(Times(n, c)), Unlimited, Unlimited), 1, c);
      var actions := Turns(half, Charge(keyID, c, half), n) + Turns(admitted, Charge(keyID, c, admitted), n);
      var m := End(Start(half), actions);
      half <= admitted <= later && IsRun(s, Start(half), actions) && InOrder(actions, half) && m.admitted == 0 &&
      WindowSum(m.ledger, keyID, FiveHour, later) == Times(n, c) + Slack(s, m) + Times(n - 1, c)
  {
    hide WindowSum, IsRun, End, Copies, InWindow, Turns, Times, Exceeded;
    var s := Setting(keyID, Limits(AtMost(Times(n, c)), Unlimited, Unlimited), 1, c);
    var first, second := Charge(keyID, c, half), Charge(keyID, c, admitted);
    WindowsAtTheTurn(keyID, c, cut, half, admitted, later);
    NoCharges(keyID, half);
    NoCharges(keyID, admitted);
    NoCharges(keyID, later);
    TurnsUnderFiveHourLimit(s, [], half, first, n);
    TurnsRun(s, Start(half), half, first, n);
    var m := End(Start(half), Turns(half, first, n));
    assert m.ledger == [] + Copies(first, n);
    CopiesSum([], first, n, FiveHour, admitted);
    CopiesSum([], first, n, FiveHour, later);
    TurnsUnderFiveHourLimit(s, m.ledger, admitted, second, n);
    TurnsRun(s, m, admitted, second, n);
    CopiesSum(m.ledger, second, n, FiveHour, later);
    RunAppend(s, Start(half), Turns(half, first, n), Turns(admitted, second, n));
    TurnsInOrder(half, first, admitted, second, n);
    TimesNext(n, c);
    TimesOne(c);
    var e := End(m, Turns(admitted, second, n));
    assert Slack(s, e) == Times(1, c) by { FullSlack(s, e); }
  }


  // ---- the bound is tight ----

  /**
   * From any settled state that still admits, k requests of cost c can raise every window sum by the full k times c.
   */
  lemma OvershootIsReached(s: Setting, m: Meter, now: Moment) returns (actions: seq<Action>)
    requires Settled(m) && m.admitted == 0 && s.c >= 0.0 && !Exceeded(m.ledger, s.keyID, s.limits, now)
    ensures var e := End(m, actions);
      IsRun(s, m, actions) && e.admitted == 0 && Settled(e) && (s.k > 0 || LastAt(m, now) ==> LastAt(e, now)) &&
      forall w :: WindowSum(e.ledger, s.keyID, w, now) == WindowSum(m.ledger, s.keyID, w, now) + Times(s.k, s.c)
  {
    var c := Charge(s.keyID, s.c, now);
    hide IsRun, End, Exceeded, WindowSum, Copies, InWindow, Times, Burst, LastAt;
    actions := Burst(s, now, c);
    BurstRuns(s, m, now, c);
    forall w
      ensures WindowSum(m.ledger + Copies(c, s.k), s.keyID, w, now) == WindowSum(m.ledger, s.keyID, w, now) +
        Times(s.k, s.c)
    {
      CopiesSum(m.ledger, c, s.k, w, now);
      CountsAtOnce(s.keyID, s.c, now, w);
    }
  }

  /** At one reading, v counts whatever w counts. */
  predicate Wider(v: Window, w: Window) {
    v == w || v == Total || w == FiveHour
  }

  lemma WiderCovers(v: Window, w: Window, now: Moment)
    requires Wider(v, w)
    ensures Covers(v, w, now, now)
  {
    if v == w && w != Total { TextLeqIsReflexive(Cut(w, now)); }
    if v == Weekly && w == FiveHour { assert Cut(v, now) / SECOND < Cut(w, now) / SECOND; }
  }

  /** A time that the windows at least as wide as w count, and no others. */
  function Edge(w: Window, now: Moment): Instant {
    match w
    case FiveHour => now
    case Weekly => now - 6 * HOUR
    case Total => now - 8 * DAY
  }

  lemma EdgeCounts(w: Window, now: Moment, c: Charge, v: Window)
    requires c.createdAt == Edge(w, now)
    ensures InWindow(c, v, now) <==> Wider(v, w)
  {
    if w == FiveHour { CountsAtOnce(c.keyID, c.usd, now, v); }
    if w == Weekly && v == FiveHour { assert Edge(w, now) / SECOND < Cut(v, now) / SECOND; }
    if w == Weekly && v == Weekly { assert Cut(v, now) / SECOND < Edge(w, now) / SECOND; }
    if w == Total && v != Total { assert Edge(w, now) / SECOND < Cut(v, now) / SECOND; }
  }

  /** No window at least as wide has a smaller limit. */
  ghost predicate Binding(s: Setting, w: Window)
    requires Limited(s, w)
  {
    forall v | Limited(s, v) && Wider(v, w) :: LimitOf(s.limits, w).usd <= LimitOf(s.limits, v).usd
  }

  /** The run, last checked at the reading, leaves the sum less than eps under limit plus k times c. */
  ghost predicate Close(s: Setting, w: Window, now: Moment, eps: real, actions: seq<Action>)
    requires Limited(s, w)
  {
    var m := End(Start(now), actions);
    IsRun(s, Start(now), actions) && LastAt(m, now) &&
    WindowSum(m.ledger, s.keyID, w, now) > LimitOf(s.limits, w).usd + Times(s.k, s.c) - eps
  }

  ghost predicate Reaches(s: Setting, w: Window, now: Moment, eps: real)
    requires Limited(s, w)
  {
    exists actions :: Close(s, w, now, eps, actions)
  }

  lemma EdgePartsPass(s: Setting, w: Window, now: Moment, c: Charge, n: nat, i: nat)
    requires Limited(s, w) && Binding(s, w) && c.keyID == s.keyID && c.createdAt == Edge(w, now) && c.usd > 0.0
    requires i <= n && Times(n, c.usd) < LimitOf(s.limits, w).usd
    ensures !Exceeded([] + Copies(c, i), s.keyID, s.limits, now)
  {
    hide WindowSum, Copies, InWindow, Times, Exceeded, Edge, Wider;
    if i < n { TimesLess(i, n, c.usd); }
    NoCharges(s.keyID, now);
    forall v | Limited(s, v) ensures WindowSum([] + Copies(c, i), s.keyID, v, now) < LimitOf(s.limits, v).usd {
      CopiesSum([], c, i, v, now);
      EdgeCounts(w, now, c, v);
    }
    BelowAll([] + Copies(c, i), s, now);
  }

  lemma BindingReaches(s: Setting, w: Window, now: Moment, eps: real)
    requires Limited(s, w) && Binding(s, w) && s.k >= 1 && s.c > 0.0 && eps > 0.0
    ensures Reaches(s, w, now, eps)
  {
    hide IsRun, End, Exceeded, WindowSum, Copies, InWindow, Times, Binding, Turns, Edge, LastAt;
    var limit := LimitOf(s.limits, w).usd;
    var n, part := Parts(limit - Min(eps, limit) / 2.0, s.c);
    var c := Charge(s.keyID, part, Edge(w, now));
    forall i: nat | i <= n ensures !Exceeded([] + Copies(c, i), s.keyID, s.limits, now) {
      EdgePartsPass(s, w, now, c, n, i);
    }
    TurnsRun(s, Start(now), now, c, n);
    var turns := Turns(now, c, n);
    var m := End(Start(now), turns);
    var burst := OvershootIsReached(s, m, now);
    RunAppend(s, Start(now), turns, burst);
    CopiesSum([], c, n, w, now);
    EdgeCounts(w, now, c, w);
    NoCharges(s.keyID, now);
    assert Close(s, w, now, eps, turns + burst);
  }

  /**
   * The bound of a window is tight, in that runs come as close to it as wanted, if and only if no window at least as
   * wide has a smaller limit; otherwise the smaller limit bounds the sum.
   */
  lemma BoundIsTight(s: Setting, w: Window, now: Moment)
    requires Limited(s, w) && s.k >= 1 && s.c > 0.0
    ensures (forall eps :: eps > 0.0 ==> Reaches(s, w, now, eps)) <==> Binding(s, w)
  {
    if Binding(s, w) {
      forall eps | eps > 0.0 ensures Reaches(s, w, now, eps) {
        BindingReaches(s, w, now, eps);
      }
    } else {
      hide IsRun, End, WindowSum, Times, Room, Covers;
      var v :| Limited(s, v) && Wider(v, w) && LimitOf(s.limits, v).usd < LimitOf(s.limits, w).usd;
      var eps := LimitOf(s.limits, w).usd - LimitOf(s.limits, v).usd;
      if Reaches(s, w, now, eps) {
        var actions :| Close(s, w, now, eps, actions);
        WiderCovers(v, w, now);
        BoundByCover(s, now, actions, v, w, now);
        SlackIsAtMost(s, End(Start(now), actions));
        assert false;
      }
    }
  }

  lemma SlackIsAtMost(s: Setting, m: Meter)
    requires s.c >= 0.0
    ensures m.admitted <= s.k ==> Slack(s, m) <= Times(s.k, s.c)
    ensures m.admitted > s.k ==> Slack(s, m) <= 0.0 <= Times(s.k, s.c)
  {
  }
}
