/** Spending limits: requests are admitted on booked cost, so the guarantee is a bound on the overshoot. */
module Quota {
  import opened TimeText

  const FIVE_HOURS: nat := 5 * HOUR
  const WEEK: nat := 7 * DAY

  /** Clock readings late enough for a week before them to be a stored instant. */
  type Moment = t: Instant | ZERO_TIME + WEEK < t witness ZERO_TIME + WEEK + 1

  /** The part of a usage_ledger row that quotas read. */
  datatype Charge = Charge(keyID: string, usd: real, createdAt: Instant)

  datatype Limit = Unlimited | AtMost(usd: real)
  datatype Limits = Limits(fiveHour: Limit, weekly: Limit, total: Limit)
  datatype Window = FiveHour | Weekly | Total

  function LimitOf(l: Limits, w: Window): Limit {
    match w
    case FiveHour => l.fiveHour
    case Weekly => l.weekly
    case Total => l.total
  }

  function Length(w: Window): nat {
    if w == FiveHour then FIVE_HOURS else WEEK
  }

  function Cut(w: Window, now: Moment): Instant {
    now - Length(w)
  }

  /** The row is in the window, as SQL compares created_at with the start of the window. */
  predicate InWindow(c: Charge, w: Window, now: Moment) {
    w == Total || TextLeq(Cut(w, now), c.createdAt)
  }

  /** SUM(usd) of the key's rows in the window. */
  function WindowSum(ledger: seq<Charge>, keyID: string, w: Window, now: Moment): real {
    if ledger == [] then 0.0 else
      var c := ledger[|ledger| - 1];
      WindowSum(ledger[..|ledger| - 1], keyID, w, now) + if c.keyID == keyID && InWindow(c, w, now) then c.usd else 0.0
  }

  /** limitReached */
  predicate Reached(l: Limit, used: real) {
    l.AtMost? && l.usd > 0.0 && used >= l.usd
  }

  /** CheckQuota refuses the request. */
  predicate Exceeded(ledger: seq<Charge>, keyID: string, limits: Limits, now: Moment) {
    Reached(limits.fiveHour, WindowSum(ledger, keyID, FiveHour, now)) ||
    Reached(limits.weekly, WindowSum(ledger, keyID, Weekly, now)) ||
    Reached(limits.total, WindowSum(ledger, keyID, Total, now))
  }

  // ---- the admission protocol of one key ----

  /** A passed check: its clock reading and how many rows its query saw. */
  datatype Check = Check(clock: Moment, seen: nat)

  /**
   * The ledger; the requests in flight, by what they wait for: the weekly sum, the total sum, or (admitted) their
   * booking; and the last check passed for each window.
   */
  datatype Meter = Meter(ledger: seq<Charge>, atWeekly: nat, atTotal: nat, admitted: nat, fiveHour: Check,
    weekly: Check, total: Check)

  datatype Action =
    | Query(window: Window, now: Moment)   // one of the three sums of a request is read and is below its limit
    | Refuse(window: Window)               // a request waiting for that sum leaves
    | Book(charge: Charge)                 // RecordUsage for an admitted request
    | Abandon                              // an admitted request never reports usage
    | Foreign(charge: Charge)              // usage of another key

  /** A key with its limits; at most k requests in flight, counted from their first query on, each costing at most c. */
  datatype Setting = Setting(keyID: string, limits: Limits, k: nat, c: real)

  function InFlight(m: Meter): nat {
    m.atWeekly + m.atTotal + m.admitted
  }

  /**
   * The requests in flight that have passed the check of the window; the windows are read in the order of their names.
   */
  function Passed(m: Meter, w: Window): nat {
    match w
    case FiveHour => InFlight(m)
    case Weekly => m.atTotal + m.admitted
    case Total => m.admitted
  }

  function CheckOf(m: Meter, w: Window): Check {
    match w
    case FiveHour => m.fiveHour
    case Weekly => m.weekly
    case Total => m.total
  }

  function OneLess(n: nat): nat {
    if n == 0 then 0 else n - 1
  }

  /** A request may read the window's sum next: a new one the first, a waiting one the sum it waits for. */
  predicate MayQuery(s: Setting, m: Meter, w: Window) {
    match w
    case FiveHour => InFlight(m) < s.k
    case Weekly => m.atWeekly > 0
    case Total => m.atTotal > 0
  }

  /**
   * Clock readings may come in any order: no lock orders the calls, each reads the clock before it reads the ledger,
   * and its three queries are not one transaction.
   */
  predicate Enabled(s: Setting, m: Meter, a: Action) {
    match a
    case Query(w, now) => MayQuery(s, m, w) && !Reached(LimitOf(s.limits, w), WindowSum(m.ledger, s.keyID, w, now))
    case Refuse(w) => (w == Weekly && m.atWeekly > 0) || (w == Total && m.atTotal > 0)
    case Book(charge) => m.admitted > 0 && charge.keyID == s.keyID && 0.0 <= charge.usd <= s.c
    case Abandon => m.admitted > 0
    case Foreign(charge) => charge.keyID != s.keyID
  }

  function Act(m: Meter, a: Action): Meter {
    match a
    case Query(FiveHour, now) => m.(atWeekly := m.atWeekly + 1, fiveHour := Check(now, |m.ledger|))
    case Query(Weekly, now) =>
      m.(atWeekly := OneLess(m.atWeekly), atTotal := m.atTotal + 1, weekly := Check(now, |m.ledger|))
    case Query(Total, now) =>
      m.(atTotal := OneLess(m.atTotal), admitted := m.admitted + 1, total := Check(now, |m.ledger|))
    case Refuse(w) =>
      m.(atWeekly := if w == Weekly then OneLess(m.atWeekly) else m.atWeekly,
         atTotal := if w == Total then OneLess(m.atTotal) else m.atTotal)
    case Book(charge) => m.(ledger := m.ledger + [charge], admitted := OneLess(m.admitted))
    case Abandon => m.(admitted := OneLess(m.admitted))
    case Foreign(charge) => m.(ledger := m.ledger + [charge])
  }

  /** Nothing booked, nothing in flight. */
  function Start(clock: Moment): Meter {
    Meter([], 0, 0, 0, Check(clock, 0), Check(clock, 0), Check(clock, 0))
  }

  /** A run in which every action is enabled when it happens. */
  ghost predicate IsRun(s: Setting, m: Meter, actions: seq<Action>)
    decreases actions
  {
    actions != [] ==> Enabled(s, m, actions[0]) && IsRun(s, Act(m, actions[0]), actions[1..])
  }

  function End(m: Meter, actions: seq<Action>): Meter
    decreases actions
  {
    if actions == [] then m else End(Act(m, actions[0]), actions[1..])
  }

  // ---- what every run keeps ----

  predicate Limited(s: Setting, w: Window) {
    LimitOf(s.limits, w).AtMost? && LimitOf(s.limits, w).usd > 0.0
  }

  ghost predicate NonNegative(ledger: seq<Charge>, keyID: string) {
    forall i | 0 <= i < |ledger| && ledger[i].keyID == keyID :: ledger[i].usd >= 0.0
  }

  /** What the requests beyond n of the k may cost. */
  function Room(s: Setting, n: nat): real {
    (s.k - n) as real * s.c
  }

  /** Room for the requests that are not admitted yet. */
  function Slack(s: Setting, m: Meter): real {
    Room(s, m.admitted)
  }

  /** All the key's cost in the rows, whatever their time. */
  function Spent(ledger: seq<Charge>, keyID: string): real {
    if ledger == [] then 0.0 else
      var c := ledger[|ledger| - 1];
      Spent(ledger[..|ledger| - 1], keyID) + if c.keyID == keyID then c.usd else 0.0
  }

  /**
   * The rows the window's last check saw were within its limit, and what was booked since fits in the room since given
   * up.
   */
  ghost predicate Kept(s: Setting, m: Meter, w: Window) {
    var check := CheckOf(m, w);
    check.seen <= |m.ledger| && Spent(m.ledger[check.seen..], s.keyID) <= Room(s, Passed(m, w)) &&
    (Limited(s, w) ==> WindowSum(m.ledger[..check.seen], s.keyID, w, check.clock) < LimitOf(s.limits, w).usd)
  }

  ghost predicate Invariant(s: Setting, m: Meter) {
    InFlight(m) <= s.k && s.c >= 0.0 && NonNegative(m.ledger, s.keyID) && forall w :: Kept(s, m, w)
  }

  lemma RoomStep(s: Setting, n: nat)
    requires n < s.k && s.c >= 0.0
    ensures Room(s, n) == Room(s, n + 1) + s.c && Room(s, n + 1) >= 0.0
  {
    assert (s.k - n) as real == (s.k - (n + 1)) as real + 1.0;
  }

  lemma {:induction false} RoomShrinks(s: Setting, n: nat, n': nat)
    requires n <= n' <= s.k && s.c >= 0.0
    ensures 0.0 <= Room(s, n') <= Room(s, n)
    decreases n' - n
  {
    if n < n' {
      RoomStep(s, n);
      RoomShrinks(s, n + 1, n');
    }
  }

  lemma AppendKeepsNonNegative(ledger: seq<Charge>, keyID: string, c: Charge)
    requires NonNegative(ledger, keyID) && (c.keyID == keyID ==> c.usd >= 0.0)
    ensures NonNegative(ledger + [c], keyID)
  {
  }

  lemma AppendedRow(ledger: seq<Charge>, seen: nat, keyID: string, c: Charge)
    requires seen <= |ledger|
    ensures (ledger + [c])[..seen] == ledger[..seen]
    ensures Spent((ledger + [c])[seen..], keyID) == Spent(ledger[seen..], keyID) + if c.keyID == keyID then c.usd
      else 0.0
  {
    assert (ledger + [c])[seen..] == ledger[seen..] + [c];
    assert (ledger[seen..] + [c])[..|ledger| - seen] == ledger[seen..];
  }

  /** A passed check sees all rows. */
  lemma QueryKeeps(s: Setting, m: Meter, w: Window, now: Moment, v: Window)
    requires Invariant(s, m) && Enabled(s, m, Query(w, now))
    ensures Kept(s, Act(m, Query(w, now)), v)
  {
    hide WindowSum, Room;
    assert Kept(s, m, v);
    RoomShrinks(s, Passed(Act(m, Query(w, now)), w), s.k);
    assert m.ledger[..|m.ledger|] == m.ledger && m.ledger[|m.ledger|..] == [];
  }

  /** Requests that leave without a booking make room. */
  lemma LeavingKeeps(s: Setting, m: Meter, a: Action, v: Window)
    requires Invariant(s, m) && Enabled(s, m, a) && (a.Refuse? || a.Abandon?)
    ensures Kept(s, Act(m, a), v)
  {
    hide WindowSum, Room, Spent;
    assert Kept(s, m, v);
    RoomShrinks(s, Passed(Act(m, a), v), Passed(m, v));
  }

  lemma RowKeeps(s: Setting, m: Meter, a: Action, v: Window)
    requires Invariant(s, m) && Enabled(s, m, a) && (a.Book? || a.Foreign?)
    ensures Kept(s, Act(m, a), v)
  {
    hide WindowSum, Room, Spent;
    assert Kept(s, m, v);
    AppendedRow(m.ledger, CheckOf(m, v).seen, s.keyID, a.charge);
    if a.Book? { RoomStep(s, Passed(m, v) - 1); }
  }

  lemma ActKeepsInvariant(s: Setting, m: Meter, a: Action)
    requires Invariant(s, m) && Enabled(s, m, a)
    ensures Invariant(s, Act(m, a))
  {
    hide WindowSum, Kept;
    if a.Book? || a.Foreign? { AppendKeepsNonNegative(m.ledger, s.keyID, a.charge); }
    forall v ensures Kept(s, Act(m, a), v) {
      match a
      case Query(w, now) => QueryKeeps(s, m, w, now, v);
      case Refuse(_) => LeavingKeeps(s, m, a, v);
      case Abandon => LeavingKeeps(s, m, a, v);
      case Book(_) => RowKeeps(s, m, a, v);
      case Foreign(_) => RowKeeps(s, m, a, v);
    }
  }

  lemma {:induction false} RunKeepsInvariant(s: Setting, m: Meter, actions: seq<Action>)
    requires Invariant(s, m) && IsRun(s, m, actions)
    ensures Invariant(s, End(m, actions))
    decreases actions
  {
    if actions != [] {
      hide Invariant, Enabled;
      ActKeepsInvariant(s, m, actions[0]);
      RunKeepsInvariant(s, Act(m, actions[0]), actions[1..]);
    }
  }

  lemma StartKeepsInvariant(s: Setting, clock: Moment)
    requires s.c >= 0.0
    ensures Invariant(s, Start(clock))
  {
    RoomShrinks(s, 0, s.k);
    hide Room;
  }

  // ---- the bound ----

  /** A row of that time is not counted by a check at a, but by one at b. */
  predicate Returns(t: Instant, w: Window, a: Moment, b: Moment) {
    w != Total && !TextLeq(Cut(w, a), t) && TextLeq(Cut(w, b), t)
  }

  /** The key's cost in the rows that return between two readings. */
  function Returned(ledger: seq<Charge>, keyID: string, w: Window, a: Moment, b: Moment): real {
    if ledger == [] then 0.0 else
      var c := ledger[|ledger| - 1];
      Returned(ledger[..|ledger| - 1], keyID, w, a, b) + if c.keyID == keyID && Returns(c.createdAt, w, a, b)
        then c.usd else 0.0
  }

  lemma {:induction false} SumsDiffer(ledger: seq<Charge>, keyID: string, w: Window, a: Moment, b: Moment)
    requires NonNegative(ledger, keyID)
    ensures WindowSum(ledger, keyID, w, b) <= WindowSum(ledger, keyID, w, a) + Returned(ledger, keyID, w, a, b)
    ensures WindowSum(ledger, keyID, w, b) <= Spent(ledger, keyID)
  {
    hide TextLeq;
    if ledger != [] { SumsDiffer(ledger[..|ledger| - 1], keyID, w, a, b); }
  }

  lemma {:induction false} SumSplits(ledger: seq<Charge>, n: nat, keyID: string, w: Window, now: Moment)
    requires n <= |ledger|
    ensures WindowSum(ledger, keyID, w, now) == WindowSum(ledger[..n], keyID, w, now) +
      WindowSum(ledger[n..], keyID, w, now)
    decreases |ledger|
  {
    hide InWindow;
    if n == |ledger| {
      assert ledger[..n] == ledger && ledger[n..] == [];
    } else {
      var front := ledger[..|ledger| - 1];
      SumSplits(front, n, keyID, w, now);
      assert front[..n] == ledger[..n] && front[n..] == ledger[n..][..|ledger| - 1 - n];
    }
  }

  /**
   * What every run gives a reader: the seen rows are within the limit at the check, the later ones within the slack.
   */
  lemma RunIsKept(s: Setting, begin: Moment, actions: seq<Action>, w: Window)
    requires s.c >= 0.0 && IsRun(s, Start(begin), actions)
    ensures var m := End(Start(begin), actions);
      Kept(s, m, w) && NonNegative(m.ledger, s.keyID) && InFlight(m) <= s.k && Room(s, Passed(m, w)) <= Slack(s, m)
  {
    hide Kept, Room, IsRun, End, NonNegative;
    StartKeepsInvariant(s, begin);
    RunKeepsInvariant(s, Start(begin), actions);
    var m := End(Start(begin), actions);
    RoomShrinks(s, m.admitted, Passed(m, w));
  }

  /**
   * Over every run from an empty ledger, with clock readings in any order and bookings between the queries of a
   * request, each computed window sum at any reading stays below its limit, plus the room of the requests that have
   * not passed its check (which is at most the slack), plus what returns between the reading of its last check and
   * this one.
   */
  lemma OvershootBound(s: Setting, begin: Moment, actions: seq<Action>, w: Window, now: Moment)
    requires s.c >= 0.0 && IsRun(s, Start(begin), actions) && Limited(s, w)
    ensures var m := End(Start(begin), actions);
      var check := CheckOf(m, w);
      InFlight(m) <= s.k && check.seen <= |m.ledger| && Room(s, Passed(m, w)) <= Slack(s, m) &&
      WindowSum(m.ledger, s.keyID, w, now) <
        LimitOf(s.limits, w).usd + Room(s, Passed(m, w)) +
          Returned(m.ledger[..check.seen], s.keyID, w, check.clock, now)
  {
    hide WindowSum, Spent, Returned, IsRun, End, Room;
    RunIsKept(s, begin, actions, w);
    var m := End(Start(begin), actions);
    var n := CheckOf(m, w).seen;
    SumSplits(m.ledger, n, s.keyID, w, now);
    SumsDiffer(m.ledger[..n], s.keyID, w, CheckOf(m, w).clock, now);
    SumsDiffer(m.ledger[n..], s.keyID, w, CheckOf(m, w).clock, now);
  }

  /** Whatever w counts at b, v counted at a. */
  predicate Covers(v: Window, w: Window, a: Moment, b: Moment) {
    v == Total || (w != Total && TextLeq(Cut(v, a), Cut(w, b)))
  }

  lemma CoveredRow(c: Charge, v: Window, w: Window, a: Moment, b: Moment)
    requires Covers(v, w, a, b) && InWindow(c, w, b)
    ensures InWindow(c, v, a)
  {
    hide TextLeq;
    if v != Total { TextLeqTransitive(Cut(v, a), Cut(w, b), c.createdAt); }
  }

  lemma {:induction false} CoveredSum(ledger: seq<Charge>, keyID: string, v: Window, w: Window, a: Moment, b: Moment)
    requires NonNegative(ledger, keyID) && Covers(v, w, a, b)
    ensures WindowSum(ledger, keyID, w, b) <= WindowSum(ledger, keyID, v, a)
  {
    hide InWindow, Covers;
    if ledger != [] {
      CoveredSum(ledger[..|ledger| - 1], keyID, v, w, a, b);
      var c := ledger[|ledger| - 1];
      if InWindow(c, w, b) { CoveredRow(c, v, w, a, b); }
    }
  }

  /** A limit bounds the sum of every window, at every reading, that its own last check covers. */
  lemma BoundByCover(s: Setting, begin: Moment, actions: seq<Action>, v: Window, w: Window, now: Moment)
    requires s.c >= 0.0 && IsRun(s, Start(begin), actions) && Limited(s, v)
    requires Covers(v, w, CheckOf(End(Start(begin), actions), v).clock, now)
    ensures var m := End(Start(begin), actions);
      WindowSum(m.ledger, s.keyID, w, now) < LimitOf(s.limits, v).usd + Slack(s, m)
  {
    hide WindowSum, Spent, IsRun, End, Room, Covers;
    RunIsKept(s, begin, actions, v);
    var m := End(Start(begin), actions);
    var check := CheckOf(m, v);
    SumSplits(m.ledger, check.seen, s.keyID, w, now);
    CoveredSum(m.ledger[..check.seen], s.keyID, v, w, check.clock, now);
    SumsDiffer(m.ledger[check.seen..], s.keyID, w, check.clock, now);
  }

  lemma {:induction false} NothingReturned(ledger: seq<Charge>, keyID: string, w: Window, a: Moment, b: Moment)
    requires forall i | 0 <= i < |ledger| && ledger[i].keyID == keyID :: !Returns(ledger[i].createdAt, w, a, b)
    ensures Returned(ledger, keyID, w, a, b) == 0.0
  {
    hide Returns;
    if ledger != [] { NothingReturned(ledger[..|ledger| - 1], keyID, w, a, b); }
  }

  /** Some row can return exactly when the cuts compare the wrong way round as text. */
  lemma ReturnsExactly(w: Window, a: Moment, b: Moment)
    ensures (exists t: Instant :: Returns(t, w, a, b)) <==> w != Total && !TextLeq(Cut(w, a), Cut(w, b))
  {
    hide TextLeq;
    if w != Total {
      TextLeqIsReflexive(Cut(w, b));
      if !TextLeq(Cut(w, a), Cut(w, b)) { assert Returns(Cut(w, b), w, a, b); }
      if t: Instant :| Returns(t, w, a, b) {
        if TextLeq(Cut(w, a), Cut(w, b)) { TextLeqTransitive(Cut(w, a), Cut(w, b), t); }
      }
    }
  }

  lemma TextLeqIsReflexive(a: Instant)
    ensures TextLeq(a, a)
  {
  }

  /**
   * In order, cuts compare the wrong way round only within one second, when the later fraction extends the earlier one.
   */
  lemma CutsMisordered(w: Window, a: Moment, b: Moment)
    requires a <= b && w != Total
    ensures !TextLeq(Cut(w, a), Cut(w, b)) <==>
      a < b && a / SECOND == b / SECOND && FractionDigits(a) <= FractionDigits(b)
  {
    CutOf(a, w);
    CutOf(b, w);
  }

  lemma CutOf(now: Moment, w: Window)
    ensures Cut(w, now) % SECOND == now % SECOND && Cut(w, now) / SECOND == now / SECOND - Length(w) / SECOND
    ensures FractionDigits(Cut(w, now)) == FractionDigits(now)
  {
    PhaseOfCut(now, w);
  }

  /** b is not before a, nor in the second of a with a fraction that extends that of a. */
  predicate ReadAfter(a: Moment, b: Moment) {
    a <= b && !(a < b && a / SECOND == b / SECOND && FractionDigits(a) <= FractionDigits(b))
  }

  /** At a reading after the window's last check in this sense, nothing is added to the slack. */
  lemma BoundInOrder(s: Setting, begin: Moment, actions: seq<Action>, now: Moment)
    requires s.c >= 0.0 && IsRun(s, Start(begin), actions)
    ensures var m := End(Start(begin), actions);
      forall w | Limited(s, w) && ReadAfter(CheckOf(m, w).clock, now) ::
        WindowSum(m.ledger, s.keyID, w, now) < LimitOf(s.limits, w).usd + Slack(s, m)
  {
    hide WindowSum, IsRun, End, FractionDigits, Room, TextLeq;
    var m := End(Start(begin), actions);
    forall w | Limited(s, w) && ReadAfter(CheckOf(m, w).clock, now)
      ensures WindowSum(m.ledger, s.keyID, w, now) < LimitOf(s.limits, w).usd + Slack(s, m)
    {
      if w != Total { CutsMisordered(w, CheckOf(m, w).clock, now); }
      BoundByCover(s, begin, actions, w, w, now);
    }
  }

  /** Nor is anything at a later reading if no row the check saw is misordered with either cut. */
  lemma BoundWithoutMisorder(s: Setting, begin: Moment, actions: seq<Action>, w: Window, now: Moment)
    requires s.c >= 0.0 && IsRun(s, Start(begin), actions) && Limited(s, w)
    requires var m := End(Start(begin), actions);
      var check := CheckOf(m, w);
      check.clock <= now && check.seen <= |m.ledger| &&
      forall i | 0 <= i < check.seen && m.ledger[i].keyID == s.keyID ::
        !Misordered(Cut(w, check.clock), m.ledger[i].createdAt) && !Misordered(Cut(w, now), m.ledger[i].createdAt)
    ensures var m := End(Start(begin), actions);
      WindowSum(m.ledger, s.keyID, w, now) < LimitOf(s.limits, w).usd + Slack(s, m)
  {
    hide WindowSum, Returned, IsRun, End, Misordered, Room;
    OvershootBound(s, begin, actions, w, now);
    var m := End(Start(begin), actions);
    NothingReturned(m.ledger[..CheckOf(m, w).seen], s.keyID, w, CheckOf(m, w).clock, now);
  }

  /** Cost booked with creation times from an instant on. */
  function SumFrom(ledger: seq<Charge>, keyID: string, from: nat): real {
    if ledger == [] then 0.0 else
      var c := ledger[|ledger| - 1];
      SumFrom(ledger[..|ledger| - 1], keyID, from) + if c.keyID == keyID && from <= c.createdAt then c.usd else 0.0
  }

  lemma {:induction false} CostSince(ledger: seq<Charge>, keyID: string, w: Window, clock: Moment, from: nat)
    requires NonNegative(ledger, keyID)
    ensures SumFrom(ledger, keyID, from) <= Spent(ledger, keyID)
    ensures w == Total || Cut(w, clock) / SECOND < from / SECOND ==>
      SumFrom(ledger, keyID, from) <= WindowSum(ledger, keyID, w, clock)
  {
    if ledger != [] {
      CostSince(ledger[..|ledger| - 1], keyID, w, clock, from);
      hide Misordered;
      var t := ledger[|ledger| - 1].createdAt;
      if w != Total && Cut(w, clock) / SECOND < from / SECOND && from <= t {
        assert Cut(w, clock) / SECOND < t / SECOND;
      }
    }
  }

  lemma {:induction false} SumFromSplits(ledger: seq<Charge>, n: nat, keyID: string, from: nat)
    requires n <= |ledger|
    ensures SumFrom(ledger, keyID, from) == SumFrom(ledger[..n], keyID, from) + SumFrom(ledger[n..], keyID, from)
    decreases |ledger|
  {
    if n == |ledger| {
      assert ledger[..n] == ledger && ledger[n..] == [];
    } else {
      var front := ledger[..|ledger| - 1];
      SumFromSplits(front, n, keyID, from);
      assert front[..n] == ledger[..n] && front[n..] == ledger[n..][..|ledger| - 1 - n];
    }
  }

  /**
   * Whatever the texts do, the cost booked since any later second than that of the last check's cut obeys the bound.
   */
  lemma CostBoundBySeconds(s: Setting, begin: Moment, actions: seq<Action>, w: Window, from: nat)
    requires s.c >= 0.0 && IsRun(s, Start(begin), actions) && Limited(s, w)
    requires w == Total || Cut(w, CheckOf(End(Start(begin), actions), w).clock) / SECOND < from / SECOND
    ensures var m := End(Start(begin), actions);
      SumFrom(m.ledger, s.keyID, from) < LimitOf(s.limits, w).usd + Slack(s, m)
  {
    hide WindowSum, Spent, SumFrom, IsRun, End, Room;
    RunIsKept(s, begin, actions, w);
    var m := End(Start(begin), actions);
    var check := CheckOf(m, w);
    SumFromSplits(m.ledger, check.seen, s.keyID, from);
    CostSince(m.ledger[..check.seen], s.keyID, w, check.clock, from);
    CostSince(m.ledger[check.seen..], s.keyID, w, check.clock, from);
  }

  lemma PhaseOfCut(now: nat, w: Window)
    requires Length(w) <= now
    ensures (now - Length(w)) % SECOND == now % SECOND
  {
    var n := now - Length(w);
    var q, r := n / SECOND, n % SECOND;
    assert now == (q + Length(w) / SECOND) * SECOND + r;
  }

  /** The window sum is the sum over the exact window when no row of the key is misordered with the cut. */
  lemma {:induction false} WindowSumExact(ledger: seq<Charge>, keyID: string, w: Window, now: Moment)
    requires w != Total
    requires forall i | 0 <= i < |ledger| && ledger[i].keyID == keyID :: !Misordered(Cut(w, now), ledger[i].createdAt)
    ensures WindowSum(ledger, keyID, w, now) == SumFrom(ledger, keyID, Cut(w, now))
  {
    if ledger != [] { WindowSumExact(ledger[..|ledger| - 1], keyID, w, now); }
  }

  /**
   * With readings in one sub-second phase (whole seconds, say) every reading in order obeys the bound, and sums the
   * exact window of rows in that phase.
   */
  lemma BoundInPhase(s: Setting, begin: Moment, actions: seq<Action>, w: Window, now: Moment)
    requires s.c >= 0.0 && IsRun(s, Start(begin), actions) && Limited(s, w)
    requires var clock := CheckOf(End(Start(begin), actions), w).clock; clock <= now && clock % SECOND == now % SECOND
    ensures var m := End(Start(begin), actions);
      WindowSum(m.ledger, s.keyID, w, now) < LimitOf(s.limits, w).usd + Slack(s, m) &&
      (w != Total && InPhase(m.ledger, s.keyID, now % SECOND) ==>
        WindowSum(m.ledger, s.keyID, w, now) == SumFrom(m.ledger, s.keyID, Cut(w, now)))
  {
    hide WindowSum, SumFrom, IsRun, End, FractionDigits, Room;
    BoundInOrder(s, begin, actions, now);
    var m := End(Start(begin), actions);
    if w != Total && InPhase(m.ledger, s.keyID, now % SECOND) {
      CutOf(now, w);
      WindowSumExact(m.ledger, s.keyID, w, now);
    }
  }

  ghost predicate InPhase(ledger: seq<Charge>, keyID: string, phase: nat) {
    forall i | 0 <= i < |ledger| && ledger[i].keyID == keyID :: ledger[i].createdAt % SECOND == phase
  }
}
