/** Deleting expired sessions: when no caller can tell, and the one case in which a caller can. */
module Collection {
  import opened TimeText
  import opened Tables
  import opened Routing

  /** Deletion at now removes no row that a reading from `from` on would still find alive. */
  ghost predicate Harmless(sessions: Sessions, now: Clock, from: Clock) {
    forall k | k in sessions && TextExpired(sessions[k], now) :: !Live(sessions[k], from)
  }

  /** A session the call stores is never deleted by the same call. */
  lemma SavedSurvives(e: Event, out: Output, authID: string)
    ensures !TextExpired(Saved(e, out, authID), e.now)
  {
    assert (e.now + TTL) / SECOND != e.now / SECOND;
  }

  /** No call of the run belongs to the session while the row is alive. */
  ghost predicate Idle(row: Row, k: SessionKey, es: seq<Event>) {
    forall i | 0 <= i < |es| && KeyOf(es[i]) == k :: !Live(row, es[i].now)
  }

  /** a is b without some rows that no call of the run will miss. */
  ghost predicate Thinned(a: Sessions, b: Sessions, es: seq<Event>) {
    (forall k | k in a :: k in b && b[k] == a[k]) &&
    (forall k | k in b && k !in a :: Idle(b[k], k, es))
  }

  lemma IdleLater(row: Row, k: SessionKey, es: seq<Event>)
    requires es != [] && Idle(row, k, es)
    ensures Idle(row, k, es[1..])
  {
    forall i | 0 <= i < |es[1..]| && KeyOf(es[1..][i]) == k ensures !Live(row, es[1..][i].now) {
      assert es[1..][i] == es[i + 1];
    }
  }

  lemma ThinnedLater(a: Sessions, b: Sessions, es: seq<Event>)
    requires es != [] && Thinned(a, b, es)
    ensures Thinned(a, b, es[1..])
  {
    forall k | k in b && k !in a ensures Idle(b[k], k, es[1..]) {
      IdleLater(b[k], k, es);
    }
  }

  lemma ThinnedSave(a: Sessions, b: Sessions, es: seq<Event>, k: SessionKey, row: Row)
    requires Thinned(a, b, es)
    ensures Thinned(a[k := row], b[k := row], es)
  {
    hide Idle;
  }

  lemma ThinnedSticky(a: Sessions, b: Sessions, es: seq<Event>)
    requires es != [] && Thinned(a, b, es)
    ensures Sticky(a, es[0]) == Sticky(b, es[0])
    ensures Sticky(a, es[0]) ==> a[KeyOf(es[0])] == b[KeyOf(es[0])]
  {
    if KeyOf(es[0]) in b && KeyOf(es[0]) !in a {
      assert !Live(b[KeyOf(es[0])], es[0].now);
    }
  }

  /** The other rows the call deletes belong to sessions that no later call finds alive. */
  ghost predicate HarmlessTo(sessions: Sessions, e: Event, later: seq<Event>) {
    forall k | k in sessions && k != KeyOf(e) && TextExpired(sessions[k], e.now) :: Idle(sessions[k], k, later)
  }

  lemma ThinnedCollect(a: Sessions, b: Sessions, e: Event, later: seq<Event>, row: Row)
    requires Thinned(a, b, later) && HarmlessTo(a, e, later) && !TextExpired(row, e.now)
    ensures Thinned(Collect(a[KeyOf(e) := row], e.now), b[KeyOf(e) := row], later)
  {
    hide Idle, TextExpired;
    var c := Collect(a[KeyOf(e) := row], e.now);
    forall j | j in b[KeyOf(e) := row] && j !in c ensures Idle(b[KeyOf(e) := row][j], j, later) {
      if j in a[KeyOf(e) := row] { assert j != KeyOf(e) && TextExpired(a[j], e.now); }
    }
  }

  /** Every deletion of the run is harmless to the rest of the run. */
  ghost predicate HarmlessRun(r: Router, es: seq<Event>)
    requires AllPossible(es)
    decreases es
  {
    es != [] ==>
      (es[0].hash != "" && !Sticky(r.sessions, es[0]) ==> HarmlessTo(r.sessions, es[0], es[1..])) &&
      HarmlessRun(Step(r, es[0], true).0, es[1..])
  }

  ghost predicate Simulates(a: Router, b: Router, es: seq<Event>) {
    a.cursors == b.cursors && Thinned(a.sessions, b.sessions, es)
  }

  lemma ThinnedCollectBoth(a: Sessions, b: Sessions, now: Clock, es: seq<Event>)
    requires Thinned(a, b, es)
    ensures Thinned(Collect(a, now), Collect(b, now), es)
  {
    hide Idle, TextExpired;
  }

  /** The left router deletes if gc says so; the right one may delete too. */
  lemma SimulatesStep(a: Router, b: Router, es: seq<Event>, gc: bool, both: bool)
    requires es != [] && Simulates(a, b, es) && Possible(es[0]) && (both ==> gc)
    requires gc && !both && es[0].hash != "" && !Sticky(a.sessions, es[0]) ==> HarmlessTo(a.sessions, es[0], es[1..])
    ensures Step(a, es[0], gc).1 == Step(b, es[0], both).1
    ensures Simulates(Step(a, es[0], gc).0, Step(b, es[0], both).0, es[1..])
  {
    var e, later := es[0], es[1..];
    ThinnedSticky(a.sessions, b.sessions, es);
    ThinnedLater(a.sessions, b.sessions, es);
    hide Thinned, HarmlessTo, Collect, CursorOf, At, Bump, TextExpired;
    if Sticky(a.sessions, e) {
      var row := Saved(e, StickyOutput(a.sessions, e), a.sessions[KeyOf(e)].authID);
      ThinnedSave(a.sessions, b.sessions, later, KeyOf(e), row);
    } else if e.hash != "" {
      var row := Saved(e, Rotate(a.cursors, e), "");
      ThinnedSave(a.sessions, b.sessions, later, KeyOf(e), row);
      if both {
        ThinnedCollectBoth(a.sessions[KeyOf(e) := row], b.sessions[KeyOf(e) := row], e.now, later);
      } else if gc {
        SavedSurvives(e, Rotate(a.cursors, e), "");
        ThinnedCollect(a.sessions, b.sessions, e, later, row);
      }
    }
  }

  lemma {:induction false} SimulatesRun(a: Router, b: Router, es: seq<Event>, gc: bool, both: bool)
    requires AllPossible(es) && Simulates(a, b, es) && (both ==> gc)
    requires gc && !both ==> HarmlessRun(a, es)
    ensures Outputs(a, es, gc) == Outputs(b, es, both)
    ensures After(a, es, gc).cursors == After(b, es, both).cursors
    decreases es
  {
    if es != [] {
      hide Simulates, HarmlessTo, Step;
      SimulatesStep(a, b, es, gc, both);
      SimulatesRun(Step(a, es[0], gc).0, Step(b, es[0], both).0, es[1..], gc, both);
    }
  }

  /**
   * Over whole runs, with clock readings in any order, a store that deletes answers like one that never deletes, as
   * long as no session is called again at a reading at which the row deleted from it would have been alive.
   */
  lemma CollectionIsUnobservable(r: Router, es: seq<Event>)
    requires AllPossible(es) && HarmlessRun(r, es)
    ensures Outputs(r, es, true) == Outputs(r, es, false)
    ensures After(r, es, true).cursors == After(r, es, false).cursors
  {
    SimulatesRun(r, r, es, true, false);
  }

  // ---- when deletion is harmless ----

  /**
   * A deletion takes a live row exactly when its expiry lies later in the current second and extends the fraction of
   * now.
   */
  lemma MisjudgedRow(row: Row, now: Clock)
    ensures TextExpired(row, now) && Live(row, now) <==>
      now < row.expiresAt && now / SECOND == row.expiresAt / SECOND &&
        FractionDigits(now) <= FractionDigits(row.expiresAt)
  {
  }

  /** Clock readings share one sub-second phase; whole seconds are phase 0. */
  ghost predicate InPhase(es: seq<Event>, phase: nat) {
    forall i | 0 <= i < |es| :: es[i].now % SECOND == phase
  }

  ghost predicate RowsInPhase(sessions: Sessions, phase: nat) {
    forall k | k in sessions :: sessions[k].expiresAt % SECOND == phase
  }

  lemma PhaseIsHarmless(sessions: Sessions, phase: nat, now: Clock)
    requires RowsInPhase(sessions, phase) && now % SECOND == phase
    ensures Harmless(sessions, now, now)
  {
  }

  /** What no reading from now on would find alive, no later call of an ordered run finds alive. */
  lemma HarmlessInOrder(sessions: Sessions, es: seq<Event>)
    requires es != [] && Harmless(sessions, es[0].now, es[0].now) && Ordered(es, es[0].now)
    ensures HarmlessTo(sessions, es[0], es[1..])
  {
  }

  lemma HourKeepsPhase(n: nat)
    ensures (n + TTL) % SECOND == n % SECOND
  {
    var q, r := n / SECOND, n % SECOND;
    assert n + TTL == (q + 3600) * SECOND + r;
  }

  lemma PhaseStep(r: Router, e: Event, phase: nat)
    requires Possible(e) && RowsInPhase(r.sessions, phase) && e.now % SECOND == phase
    ensures RowsInPhase(Step(r, e, true).0.sessions, phase)
  {
    HourKeepsPhase(e.now);
  }

  lemma {:induction false} PhaseRun(r: Router, es: seq<Event>, from: Clock, phase: nat)
    requires AllPossible(es) && Ordered(es, from) && InPhase(es, phase) && RowsInPhase(r.sessions, phase)
    ensures HarmlessRun(r, es)
    decreases es
  {
    if es != [] {
      PhaseIsHarmless(r.sessions, phase, es[0].now);
      HarmlessInOrder(r.sessions, es);
      PhaseStep(r, es[0], phase);
      hide HarmlessTo, Harmless, Step, RowsInPhase;
      PhaseRun(Step(r, es[0], true).0, es[1..], es[0].now, phase);
    }
  }

  /** With readings in order and in one sub-second phase (whole seconds, say) deletion is never observed. */
  lemma CollectionUnobservableInPhase(r: Router, es: seq<Event>, from: Clock, phase: nat)
    requires AllPossible(es) && Ordered(es, from) && InPhase(es, phase) && RowsInPhase(r.sessions, phase)
    ensures Outputs(r, es, true) == Outputs(r, es, false)
    ensures After(r, es, true).cursors == After(r, es, false).cursors
  {
    PhaseRun(r, es, from, phase);
    CollectionIsUnobservable(r, es);
  }

  // ---- and when it is not ----

  /**
   * No run with readings from `from` on, in any order, of a store that deletes (with gc) or never does, tells the
   * routers apart.
   */
  ghost predicate Indistinguishable(a: Router, b: Router, from: Clock, gc: bool) {
    forall es: seq<Event> | AllPossible(es) && NotBefore(es, from) :: Outputs(a, es, gc) == Outputs(b, es, gc)
  }

  /** A continuation that shows whether k is pinned: two equal-priority accounts, the first of them pinned. */
  function Probe(k: SessionKey, row: Row, hash: string, now: Clock): Event {
    Pick(k.keyID, "", "", [Candidate(row.authID, row.provider, 0, map[]),
      Candidate(row.authID + "x", row.provider, 0, map[])], hash, now)
  }

  lemma TurnAdvances(r: Router, k: SessionKey, row: Row, now: Clock, gc: bool)
    ensures var r1 := Step(r, Probe(k, row, "", now), gc).0;
      r1.sessions == r.sessions && r1.cursors == Bump(r.cursors, CursorOf(Probe(k, row, k.hash, now)))
    ensures (At(r.cursors, CursorOf(Probe(k, row, k.hash, now))) + 1) % TWO64 % 2 ==
      (At(r.cursors, CursorOf(Probe(k, row, k.hash, now))) + 1) % 2
  {
  }

  lemma ProbeDistinguishes(a: Router, b: Router, k: SessionKey, now: Clock, gc: bool)
    requires a.cursors == b.cursors && k.hash != "" && k in a.sessions && Live(a.sessions[k], now) && k !in b.sessions
    requires At(a.cursors, CursorOf(Probe(k, a.sessions[k], k.hash, now))) % 2 == 1
    ensures Step(a, Probe(k, a.sessions[k], k.hash, now), gc).1 != Step(b, Probe(k, a.sessions[k], k.hash, now), gc).1
  {
    var row := a.sessions[k];
    var e := Probe(k, row, k.hash, now);
    assert KeyOf(e) == k;
    assert Matches(e.top[0], row);
    assert FirstMatch(e.top, row) == 0;
    assert Step(a, e, gc).1 == Account(e.top[0]);
    assert Step(b, e, gc).1.candidate.id == e.top[1].id;
  }

  lemma LiveDeletionShows(r: Router, c: Router, k: SessionKey, now: Clock, gc: bool) returns (es: seq<Event>)
    requires r.cursors == c.cursors && k.hash != "" && k in r.sessions && Live(r.sessions[k], now) && k !in c.sessions
    ensures AllPossible(es) && NotBefore(es, now) && Outputs(r, es, gc) != Outputs(c, es, gc)
  {
    var row := r.sessions[k];
    var probe, turn := Probe(k, row, k.hash, now), Probe(k, row, "", now);
    if At(r.cursors, CursorOf(probe)) % 2 == 1 {
      es := [probe];
      ProbeDistinguishes(r, c, k, now, gc);
      OneCall(r, probe, gc);
      OneCall(c, probe, gc);
    } else {
      es := [turn, probe];
      TurnedProbeDistinguishes(r, c, k, now, gc);
      TwoCalls(r, turn, probe, gc);
      TwoCalls(c, turn, probe, gc);
    }
  }

  lemma TurnedProbeDistinguishes(r: Router, c: Router, k: SessionKey, now: Clock, gc: bool)
    requires r.cursors == c.cursors && k.hash != "" && k in r.sessions && Live(r.sessions[k], now) && k !in c.sessions
    requires At(r.cursors, CursorOf(Probe(k, r.sessions[k], k.hash, now))) % 2 == 0
    ensures var turn, probe := Probe(k, r.sessions[k], "", now), Probe(k, r.sessions[k], k.hash, now);
      Step(Step(r, turn, gc).0, probe, gc).1 != Step(Step(c, turn, gc).0, probe, gc).1
  {
    TurnAdvances(r, k, r.sessions[k], now, gc);
    TurnAdvances(c, k, r.sessions[k], now, gc);
    var turn := Probe(k, r.sessions[k], "", now);
    ProbeDistinguishes(Step(r, turn, gc).0, Step(c, turn, gc).0, k, now, gc);
  }

  lemma OneCall(r: Router, e: Event, gc: bool)
    requires Possible(e)
    ensures AllPossible([e]) && Outputs(r, [e], gc)[0] == Step(r, e, gc).1
  {
  }

  lemma TwoCalls(r: Router, e: Event, f: Event, gc: bool)
    requires Possible(e) && Possible(f)
    ensures AllPossible([e, f]) && Outputs(r, [e, f], gc)[1] == Step(Step(r, e, gc).0, f, gc).1
  {
    assert [e, f][1..] == [f];
    assert Outputs(Step(r, e, gc).0, [f], gc)[0] == Step(Step(r, e, gc).0, f, gc).1;
  }

  lemma HarmlessIsThin(sessions: Sessions, now: Clock, from: Clock, es: seq<Event>)
    requires Harmless(sessions, now, from) && NotBefore(es, from)
    ensures Thinned(Collect(sessions, now), sessions, es)
  {
    forall k | k in sessions && TextExpired(sessions[k], now) ensures Idle(sessions[k], k, es) {
    }
  }

  /**
   * A deletion at now is invisible to every later run of the store, with or without further deletions, with readings
   * from `from` on if and only if it takes no row that is alive at `from`. With from = now these are the runs of a
   * clock that does not go back; an earlier one admits calls that read the clock before the deleting call did.
   */
  lemma CollectionExact(r: Router, now: Clock, from: Clock, gc: bool)
    requires forall k | k in r.sessions :: k.hash != ""
    ensures Indistinguishable(r, r.(sessions := Collect(r.sessions, now)), from, gc) <==>
      Harmless(r.sessions, now, from)
  {
    var c := r.(sessions := Collect(r.sessions, now));
    if Harmless(r.sessions, now, from) {
      forall es: seq<Event> | AllPossible(es) && NotBefore(es, from) ensures Outputs(r, es, gc) == Outputs(c, es, gc) {
        HarmlessIsThin(r.sessions, now, from, es);
        SimulatesRun(c, r, es, gc, gc);
      }
    } else {
      var k :| k in r.sessions && TextExpired(r.sessions[k], now) && Live(r.sessions[k], from);
      var es := LiveDeletionShows(r, c, k, from, gc);
    }
  }

  /** A deletion at the turn of a second drops every session expiring later in that second too early. */
  lemma CollectionCanBeObserved(r: Router, k: SessionKey, now: Clock, gc: bool)
    requires (forall j | j in r.sessions :: j.hash != "") && k in r.sessions
    requires now % SECOND == 0 && now < r.sessions[k].expiresAt && now / SECOND == r.sessions[k].expiresAt / SECOND
    ensures !Indistinguishable(r, r.(sessions := Collect(r.sessions, now)), now, gc)
  {
    WholeSecondMisorders(now, r.sessions[k].expiresAt);
    CollectionExact(r, now, now, gc);
  }

  /** A call that read the clock before a row expired sees its deletion by a call that read the clock afterwards. */
  lemma LaggingCallObservesCollection(r: Router, k: SessionKey, now: Clock, from: Clock, gc: bool)
    requires (forall j | j in r.sessions :: j.hash != "") && k in r.sessions
    requires from < r.sessions[k].expiresAt && r.sessions[k].expiresAt / SECOND < now / SECOND
    ensures !Indistinguishable(r, r.(sessions := Collect(r.sessions, now)), from, gc)
  {
    CollectionExact(r, now, from, gc);
  }
}
