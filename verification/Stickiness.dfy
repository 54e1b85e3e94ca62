/** A session keeps its provider and account over whole runs. */
module Stickiness {
  import opened TimeText
  import opened Tables
  import opened Routing
  import opened Collection

  /** The session's row names the provider and account and was renewed at last. */
  ghost predicate Pinned(r: Router, k: SessionKey, provider: string, authID: string, last: Clock) {
    k in r.sessions && r.sessions[k] == Row(provider, authID, last + TTL)
  }

  /** The call could be answered with the provider and account. */
  ghost predicate Serves(e: Event, provider: string, authID: string) {
    match e
    case Route(_, _, allowed, _, _) => provider in allowed
    case Pick(_, _, _, top, _, _) => exists c :: c in top && c.id == authID && c.provider == provider
  }

  ghost predicate Answers(out: Output, provider: string, authID: string) {
    match out
    case Provider(name) => name == provider
    case Account(c) => c.id == authID && c.provider == provider
  }

  /** A call moves a cursor exactly when the session does not decide it. */
  lemma StickyCallsKeepCursors(r: Router, e: Event, gc: bool)
    requires Possible(e)
    ensures Step(r, e, gc).0.cursors == r.cursors <==> Sticky(r.sessions, e)
    ensures forall key | key != CursorOf(e) :: At(Step(r, e, gc).0.cursors, key) == At(r.cursors, key)
  {
    var key := CursorOf(e);
    if !Sticky(r.sessions, e) { assert Bump(r.cursors, key)[key] != At(r.cursors, key); }
  }

  // ---- one call ----

  /** The call does not delete a row with that expiry. */
  predicate Spares(sessions: Sessions, e: Event, expires: Instant) {
    e.hash == "" || Sticky(sessions, e) || !TextLeq(expires, e.now)
  }

  /** Another session's call leaves the pin alone exactly when it spares it; otherwise the pin is gone. */
  lemma OtherCallKeepsPin(r: Router, e: Event, k: SessionKey, provider: string, authID: string, last: Clock)
    requires Possible(e) && KeyOf(e) != k && Pinned(r, k, provider, authID, last)
    ensures Pinned(Step(r, e, true).0, k, provider, authID, last) <==> Spares(r.sessions, e, last + TTL)
    ensures k !in Step(r, e, true).0.sessions <==> !Spares(r.sessions, e, last + TTL)
  {
    hide TextLeq, CursorOf, At, Bump, Rotate;
  }

  /**
   * A pin that has not expired is lost exactly to another session's call that starts or re-routes its session in the
   * second of the expiry, at a fraction that the expiry's extends.
   */
  lemma PinLostInItsLastSecond(r: Router, e: Event, k: SessionKey, provider: string, authID: string, last: Clock)
    requires Possible(e) && KeyOf(e) != k && Pinned(r, k, provider, authID, last) && e.now < last + TTL
    ensures k !in Step(r, e, true).0.sessions <==>
      e.hash != "" && !Sticky(r.sessions, e) && e.now / SECOND == (last + TTL) / SECOND &&
        FractionDigits(e.now) <= FractionDigits(last + TTL)
  {
    OtherCallKeepsPin(r, e, k, provider, authID, last);
    MisjudgedRow(r.sessions[k], e.now);
  }

  lemma FirstMatchFinds(cs: seq<Candidate>, row: Row, c: Candidate)
    requires c in cs && Matches(c, row)
    ensures FirstMatch(cs, row) < |cs|
  {
    var i :| 0 <= i < |cs| && cs[i] == c;
  }

  /**
   * The session's own call is decided by the pin exactly when the pin is alive and its answer is on offer; it then
   * renews the pin.
   */
  lemma OwnCallIsSticky(r: Router, e: Event, provider: string, authID: string, last: Clock)
    requires Possible(e) && e.hash != "" && provider != "" && Pinned(r, KeyOf(e), provider, authID, last)
    ensures Sticky(r.sessions, e) <==> e.now < last + TTL && Serves(e, provider, authID)
    ensures Sticky(r.sessions, e) ==>
      Answers(Step(r, e, true).1, provider, authID) && Pinned(Step(r, e, true).0, KeyOf(e), provider, authID, e.now)
  {
    var row := r.sessions[KeyOf(e)];
    if e.Pick? && Serves(e, provider, authID) {
      var c :| c in e.top && c.id == authID && c.provider == provider;
      FirstMatchFinds(e.top, row, c);
    }
    if e.Pick? && FirstMatch(e.top, row) < |e.top| {
      assert e.top[FirstMatch(e.top, row)] in e.top;
    }
  }

  // ---- whole runs ----

  ghost predicate Mentions(es: seq<Event>, k: SessionKey) {
    exists i | 0 <= i < |es| :: KeyOf(es[i]) == k
  }

  /**
   * As long as the session has calls to come: its own come before the expiry of the last one and can be served, and the
   * calls of other sessions spare its row. Clock readings may be in any order.
   */
  ghost predicate KeptAlive(r: Router, es: seq<Event>, k: SessionKey, provider: string, authID: string, last: Clock)
    requires AllPossible(es)
    decreases es
  {
    Mentions(es, k) ==>
      var r1 := Step(r, es[0], true).0;
      if KeyOf(es[0]) == k then
        es[0].now < last + TTL && Serves(es[0], provider, authID) &&
          KeptAlive(r1, es[1..], k, provider, authID, es[0].now)
      else Spares(r.sessions, es[0], last + TTL) && KeptAlive(r1, es[1..], k, provider, authID, last)
  }

  /** Every call of the session in the run is decided by a row that names the provider and account. */
  ghost predicate Decided(r: Router, es: seq<Event>, k: SessionKey, provider: string, authID: string)
    requires AllPossible(es)
    decreases es
  {
    es != [] ==>
      (KeyOf(es[0]) == k ==>
        Sticky(r.sessions, es[0]) && r.sessions[k].provider == provider && r.sessions[k].authID == authID) &&
      Decided(Step(r, es[0], true).0, es[1..], k, provider, authID)
  }

  lemma MentionsTail(es: seq<Event>, k: SessionKey)
    requires es != []
    ensures Mentions(es, k) <==> KeyOf(es[0]) == k || Mentions(es[1..], k)
  {
    if i :| 0 <= i < |es| && KeyOf(es[i]) == k {
      assert i > 0 ==> KeyOf(es[1..][i - 1]) == k;
    }
    if i :| 0 <= i < |es[1..]| && KeyOf(es[1..][i]) == k {
      assert KeyOf(es[i + 1]) == k;
    }
  }

  lemma {:induction false} UnmentionedIsDecided(r: Router, es: seq<Event>, k: SessionKey, provider: string,
        authID: string)
    requires AllPossible(es) && !Mentions(es, k)
    ensures Decided(r, es, k, provider, authID)
    decreases es
  {
    if es != [] {
      MentionsTail(es, k);
      UnmentionedIsDecided(Step(r, es[0], true).0, es[1..], k, provider, authID);
    }
  }

  lemma OtherCallKeepsAbsence(r: Router, e: Event, k: SessionKey)
    requires Possible(e) && KeyOf(e) != k && k !in r.sessions
    ensures k !in Step(r, e, true).0.sessions
  {
  }

  /** A session that has lost its row is not decided by a row at its next call. */
  lemma {:induction false} AbsentIsUndecided(r: Router, es: seq<Event>, k: SessionKey, provider: string, authID: string)
    requires AllPossible(es) && Mentions(es, k) && k !in r.sessions
    ensures !Decided(r, es, k, provider, authID)
    decreases es
  {
    MentionsTail(es, k);
    if KeyOf(es[0]) != k {
      OtherCallKeepsAbsence(r, es[0], k);
      AbsentIsUndecided(Step(r, es[0], true).0, es[1..], k, provider, authID);
    }
  }

  /**
   * Over every run, with clock readings in any order, the pin decides all calls of its session if and only if it is
   * kept alive.
   */
  lemma {:induction false} PinDecidesExactly(r: Router, es: seq<Event>, k: SessionKey, provider: string,
        authID: string, last: Clock)
    requires AllPossible(es) && k.hash != "" && provider != "" && Pinned(r, k, provider, authID, last)
    ensures KeptAlive(r, es, k, provider, authID, last) <==> Decided(r, es, k, provider, authID)
    decreases es
  {
    if !Mentions(es, k) {
      UnmentionedIsDecided(r, es, k, provider, authID);
    } else {
      MentionsTail(es, k);
      var e, r1 := es[0], Step(r, es[0], true).0;
      if KeyOf(e) == k {
        OwnCallIsSticky(r, e, provider, authID, last);
        if Sticky(r.sessions, e) {
          PinDecidesExactly(r1, es[1..], k, provider, authID, e.now);
        }
      } else {
        OtherCallKeepsPin(r, e, k, provider, authID, last);
        if Spares(r.sessions, e, last + TTL) {
          PinDecidesExactly(r1, es[1..], k, provider, authID, last);
        } else {
          AbsentIsUndecided(r1, es[1..], k, provider, authID);
        }
      }
    }
  }

  lemma DecidedAnswers(r: Router, e: Event, provider: string, authID: string)
    requires Possible(e) && Sticky(r.sessions, e) && provider != ""
    requires r.sessions[KeyOf(e)].provider == provider && r.sessions[KeyOf(e)].authID == authID
    ensures Answers(Step(r, e, true).1, provider, authID)
  {
  }

  lemma {:induction false} DecidedRunAnswers(r: Router, es: seq<Event>, k: SessionKey, provider: string, authID: string)
    requires AllPossible(es) && provider != "" && Decided(r, es, k, provider, authID)
    ensures forall i | 0 <= i < |es| && KeyOf(es[i]) == k :: Answers(Outputs(r, es, true)[i], provider, authID)
    decreases es
  {
    if es != [] {
      var (r1, out) := Step(r, es[0], true);
      var rest := es[1..];
      if KeyOf(es[0]) == k { DecidedAnswers(r, es[0], provider, authID); }
      DecidedRunAnswers(r1, rest, k, provider, authID);
      hide Step, Answers, Decided;
      forall i | 0 <= i < |es| && KeyOf(es[i]) == k ensures Answers(Outputs(r, es, true)[i], provider, authID) {
        if i > 0 { assert KeyOf(rest[i - 1]) == k && Outputs(r, es, true)[i] == Outputs(r1, rest, true)[i - 1]; }
      }
    }
  }

  /**
   * Whole-run stickiness: a pin kept alive answers every call of its session alike, whatever other calls are
   * interleaved.
   */
  lemma StaysPinned(r: Router, es: seq<Event>, k: SessionKey, provider: string, authID: string, last: Clock)
    requires AllPossible(es) && k.hash != "" && provider != "" && Pinned(r, k, provider, authID, last)
    requires KeptAlive(r, es, k, provider, authID, last)
    ensures forall i | 0 <= i < |es| && KeyOf(es[i]) == k :: Answers(Outputs(r, es, true)[i], provider, authID)
  {
    PinDecidesExactly(r, es, k, provider, authID, last);
    DecidedRunAnswers(r, es, k, provider, authID);
  }

  /** A session call leaves its answer pinned. */
  lemma CallPins(r: Router, e: Event)
    requires Possible(e) && e.hash != ""
    ensures var (r1, out) := Step(r, e, true);
      match out
      case Provider(name) => exists authID :: Pinned(r1, KeyOf(e), name, authID, e.now)
      case Account(c) => Pinned(r1, KeyOf(e), c.provider, c.id, e.now)
  {
    var (r1, out) := Step(r, e, true);
    if Sticky(r.sessions, e) {
      assert r1.sessions[KeyOf(e)] == Saved(e, out, r.sessions[KeyOf(e)].authID);
    } else {
      SavedSurvives(e, out, "");
      assert r1.sessions[KeyOf(e)] == Saved(e, out, "");
    }
    if out.Provider? { assert Pinned(r1, KeyOf(e), out.name, r1.sessions[KeyOf(e)].authID, e.now); }
  }

  /**
   * From the first pick of a session on, its provider and account decide every later route and pick exactly while kept
   * alive.
   */
  lemma SessionStaysWithItsFirstPick(r: Router, e: Event, es: seq<Event>)
    requires e.Pick? && Possible(e) && e.hash != "" && AllPossible(es)
    ensures var (r1, out) := Step(r, e, true);
      var c := out.candidate;
      c.provider != "" ==>
        (KeptAlive(r1, es, KeyOf(e), c.provider, c.id, e.now) <==> Decided(r1, es, KeyOf(e), c.provider, c.id)) &&
        (KeptAlive(r1, es, KeyOf(e), c.provider, c.id, e.now) ==>
          forall i | 0 <= i < |es| && KeyOf(es[i]) == KeyOf(e) :: Answers(Outputs(r1, es, true)[i], c.provider, c.id))
  {
    hide KeptAlive, Decided, Answers;
    var (r1, out) := Step(r, e, true);
    var c := out.candidate;
    CallPins(r, e);
    if c.provider != "" {
      PinDecidesExactly(r1, es, KeyOf(e), c.provider, c.id, e.now);
      if KeptAlive(r1, es, KeyOf(e), c.provider, c.id, e.now) {
        StaysPinned(r1, es, KeyOf(e), c.provider, c.id, e.now);
      }
    }
  }

  // ---- conditions that do not mention the router ----

  /** As KeptAlive, for whatever the other sessions hold: every other session call is taken to delete. */
  ghost predicate Undisturbed(es: seq<Event>, k: SessionKey, provider: string, authID: string, last: Clock)
    decreases es
  {
    Mentions(es, k) ==>
      if KeyOf(es[0]) == k then
        es[0].now < last + TTL && Serves(es[0], provider, authID) &&
          Undisturbed(es[1..], k, provider, authID, es[0].now)
      else (es[0].hash == "" || !TextLeq(last + TTL, es[0].now)) && Undisturbed(es[1..], k, provider, authID, last)
  }

  lemma {:induction false} UndisturbedIsKeptAlive(r: Router, es: seq<Event>, k: SessionKey, provider: string,
        authID: string, last: Clock)
    requires AllPossible(es) && Undisturbed(es, k, provider, authID, last)
    ensures KeptAlive(r, es, k, provider, authID, last)
    decreases es
  {
    if Mentions(es, k) {
      hide Step, Serves, TextLeq, Sticky;
      var r1 := Step(r, es[0], true).0;
      UndisturbedIsKeptAlive(r1, es[1..], k, provider, authID, if KeyOf(es[0]) == k then es[0].now else last);
    }
  }

  /** The session's own calls can be served and come before the expiry of the last one, with a margin. */
  ghost predicate InTime(es: seq<Event>, k: SessionKey, provider: string, authID: string, last: Clock, margin: nat)
    decreases es
  {
    es != [] ==>
      if KeyOf(es[0]) == k then
        es[0].now + margin <= last + TTL && Serves(es[0], provider, authID) &&
          InTime(es[1..], k, provider, authID, es[0].now, margin)
      else InTime(es[1..], k, provider, authID, last, margin)
  }

  lemma {:induction false} NextCallIsSoon(es: seq<Event>, k: SessionKey, provider: string, authID: string, last: Clock,
        margin: nat, from: Clock)
    requires Ordered(es, from) && InTime(es, k, provider, authID, last, margin) && Mentions(es, k)
    ensures es[0].now + margin <= last + TTL
    decreases es
  {
    if KeyOf(es[0]) != k {
      MentionsTail(es, k);
      NextCallIsSoon(es[1..], k, provider, authID, last, margin, es[0].now);
      assert es[0].now <= es[1].now;
    }
  }

  lemma SecondApart(a: nat, b: nat)
    requires a + SECOND <= b
    ensures a / SECOND < b / SECOND
  {
  }

  /**
   * In order, a second to spare at every call of the session is enough; in one sub-second phase, nothing needs to be
   * spared.
   */
  lemma {:induction false} InTimeIsUndisturbed(es: seq<Event>, k: SessionKey, provider: string, authID: string,
        last: Clock, margin: nat, from: Clock)
    requires Ordered(es, from) && InTime(es, k, provider, authID, last, margin)
    requires margin >= SECOND || (margin > 0 && InPhase(es, last % SECOND))
    ensures Undisturbed(es, k, provider, authID, last)
    decreases es
  {
    if Mentions(es, k) {
      NextCallIsSoon(es, k, provider, authID, last, margin, from);
      if margin >= SECOND { SecondApart(es[0].now, last + TTL); }
      HourKeepsPhase(last);
      hide Serves, Mentions, Misordered;
      InTimeIsUndisturbed(es[1..], k, provider, authID, if KeyOf(es[0]) == k then es[0].now
        else last, margin, es[0].now);
    }
  }

  /**
   * With readings in order, a session called at most an hour less one second apart keeps its answer; with whole-second
   * readings (or any one sub-second phase) any gap under the full hour does.
   */
  lemma StaysPinnedInOrder(r: Router, es: seq<Event>, k: SessionKey, provider: string, authID: string, last: Clock,
        margin: nat)
    requires AllPossible(es) && Ordered(es, last) && k.hash != "" && provider != "" &&
      Pinned(r, k, provider, authID, last)
    requires InTime(es, k, provider, authID, last, margin)
    requires margin >= SECOND || (margin > 0 && InPhase(es, last % SECOND))
    ensures forall i | 0 <= i < |es| && KeyOf(es[i]) == k :: Answers(Outputs(r, es, true)[i], provider, authID)
  {
    InTimeIsUndisturbed(es, k, provider, authID, last, margin, last);
    UndisturbedIsKeptAlive(r, es, k, provider, authID, last);
    StaysPinned(r, es, k, provider, authID, last);
  }
}
