/** Which calls share a rotation, and what one call answers and leaves behind, in plain terms. */
module Rotation {
  import opened Text
  import opened TimeText
  import opened Tables
  import opened Selection
  import opened Routing
  import opened Fairness

  // ---- whose rotation ----

  lemma {:induction false} ItoaNulFree(n: int)
    ensures NulFree(Itoa(n))
    decreases if n < 0 then 1 else 0, if n < 0 then -n else n
  {
    if n < 0 { ItoaNulFree(-n); } else if n >= 10 { ItoaNulFree(n / 10); }
  }

  lemma NulsAfter(x: string, p: string)
    requires NulFree(p)
    ensures forall i | |x| < i < |x + ("\0" + p)| :: (x + ("\0" + p))[i] != '\0'
  {
    forall i | |x| < i < |x + ("\0" + p)| ensures (x + ("\0" + p))[i] != '\0' {
      assert (x + ("\0" + p))[i] == p[i - |x| - 1];
    }
  }

  /** A part after the last NUL can be split off again. */
  lemma SplitAtLastNul(x: string, p: string, y: string, q: string)
    requires NulFree(p) && NulFree(q) && x + ("\0" + p) == y + ("\0" + q)
    ensures x == y && p == q
  {
    var s, t := x + ("\0" + p), y + ("\0" + q);
    assert s[|x|] == '\0' && t[|y|] == '\0';
    NulsAfter(x, p);
    NulsAfter(y, q);
    assert |x| == |y|;
    assert x == s[..|x|] == y && p == s[|x| + 1..] == q;
  }

  /** What account cursors tell apart: key, priority, and model and provider filter joined by a NUL. */
  lemma AuthCursorExact(keyID: string, model: string, provider: string, priority: int,
        keyID': string, model': string, provider': string, priority': int)
    requires NulFree(keyID) && NulFree(keyID')
    ensures AuthCursor(keyID, model, provider, priority) == AuthCursor(keyID', model', provider', priority') <==>
      keyID == keyID' && priority == priority' && model + ("\0" + provider) == model' + ("\0" + provider')
  {
    var n, n' := Itoa(priority), Itoa(priority');
    var y, y' := model + ("\0" + (provider + ("\0" + n))), model' + ("\0" + (provider' + ("\0" + n')));
    var s, s' := AuthCursor(keyID, model, provider, priority), AuthCursor(keyID', model', provider', priority');
    var a := "auth\0";
    assert s == a + (keyID + ("\0" + y)) && s' == a + (keyID' + ("\0" + y'));
    assert y == (model + ("\0" + provider)) + ("\0" + n) && y' == (model' + ("\0" + provider')) + ("\0" + n');
    hide AuthCursor, Itoa, NulFree;
    if s == s' {
      assert s[|a|..] == keyID + ("\0" + y) && s'[|a|..] == keyID' + ("\0" + y');
      SplitAtNul(keyID, y, keyID', y');
      ItoaNulFree(priority);
      ItoaNulFree(priority');
      SplitAtLastNul(model + ("\0" + provider), n, model' + ("\0" + provider'), n');
      ItoaInjective(priority, priority');
    }
  }

  /**
   * The calls take turns: of the same kind, for the same key and model, and picks also for the same filter and
   * priority.
   */
  predicate SameRotation(e: Event, f: Event)
    requires Possible(e) && Possible(f)
  {
    e.keyID == f.keyID && e.model == f.model && e.Pick? == f.Pick? &&
    (e.Pick? ==> e.provider == f.provider && e.top[0].priority == f.top[0].priority)
  }

  /** Keys are generated, so never hold a NUL; a requested model might. */
  predicate Plain(e: Event) {
    NulFree(e.keyID) && NulFree(e.model)
  }

  /** Two calls move the same cursor exactly when they belong to the same rotation. */
  lemma RotationsExact(e: Event, f: Event)
    requires Possible(e) && Possible(f) && Plain(e) && Plain(f)
    ensures CursorOf(e) == CursorOf(f) <==> SameRotation(e, f)
  {
    hide AuthCursor, ProviderCursor, NulFree;
    match (e, f) {
      case (Route(k, m, _, _, _), Route(k', m', _, _, _)) =>
        if CursorOf(e) == CursorOf(f) { ProviderCursorInjective(k, m, k', m'); }
      case (Route(k, m, _, _, _), Pick(k', m', p', top', _, _)) =>
        CursorKindsDiffer(k, m, k', m', p', top'[0].priority);
      case (Pick(k, m, p, top, _, _), Route(k', m', _, _, _)) =>
        CursorKindsDiffer(k', m', k, m, p, top[0].priority);
      case (Pick(k, m, p, top, _, _), Pick(k', m', p', top', _, _)) =>
        AuthCursorExact(k, m, p, top[0].priority, k', m', p', top'[0].priority);
        if CursorOf(e) == CursorOf(f) { SplitAtNul(m, p, m', p'); }
    }
  }

  /** With a NUL in a model two filters can share a rotation. */
  lemma NulSharesARotation(keyID: string, priority: int)
    ensures AuthCursor(keyID, "m\0x", "y", priority) == AuthCursor(keyID, "m", "x\0y", priority)
  {
    var n := "\0" + Itoa(priority);
    assert "m\0x" + ("\0" + ("y" + n)) == "m" + ("\0" + ("x\0y" + n));
  }

  // ---- calls of other rotations ----

  lemma OtherCursor(r: Router, e: Event, f: Event, gc: bool)
    requires Possible(e) && Possible(f) && Plain(e) && Plain(f) && !SameRotation(e, f)
    ensures At(Step(r, e, gc).0.cursors, CursorOf(f)) == At(r.cursors, CursorOf(f))
  {
    RotationsExact(e, f);
    hide CursorOf, Sticky, StickyOutput, Rotate, Saved, Collect;
  }

  ghost predicate AllPlain(es: seq<Event>) {
    forall i | 0 <= i < |es| :: Plain(es[i])
  }

  /** The calls of f's rotation. */
  function Own(es: seq<Event>, f: Event): (own: seq<Event>)
    requires AllPossible(es) && Possible(f)
    ensures forall e | e in own :: e in es && Possible(e)
    decreases es
  {
    if es == [] then [] else
      assert es[0] in es && forall e | e in es[1..] :: e in es;
      (if SameRotation(es[0], f) then [es[0]] else []) + Own(es[1..], f)
  }

  /** What the calls of f's rotation return in the whole run. */
  function OwnOutputs(r: Router, es: seq<Event>, f: Event, gc: bool): seq<Output>
    requires AllPossible(es) && Possible(f)
    decreases es
  {
    if es == [] then [] else
      (if SameRotation(es[0], f) then [Step(r, es[0], gc).1] else []) +
        OwnOutputs(Step(r, es[0], gc).0, es[1..], f, gc)
  }

  lemma SessionlessStep(r: Router, s: Router, e: Event, gc: bool)
    requires Possible(e) && e.hash == "" && At(r.cursors, CursorOf(e)) == At(s.cursors, CursorOf(e))
    ensures Step(r, e, gc).1 == Step(s, e, gc).1
    ensures At(Step(r, e, gc).0.cursors, CursorOf(e)) == At(Step(s, e, gc).0.cursors, CursorOf(e))
  {
    hide CursorOf, Values, LastWithID;
  }

  /**
   * In every run, the calls of a rotation that name no session return what they return when nobody else calls: calls
   * for another key, model, provider filter or priority change no answer.
   */
  lemma {:induction false} OthersChangeNoAnswer(r: Router, s: Router, es: seq<Event>, f: Event, gc: bool)
    requires AllPossible(es) && AllPlain(es) && Possible(f) && Plain(f)
    requires forall i | 0 <= i < |es| && SameRotation(es[i], f) :: es[i].hash == ""
    requires At(r.cursors, CursorOf(f)) == At(s.cursors, CursorOf(f))
    ensures AllPossible(Own(es, f)) && OwnOutputs(r, es, f, gc) == Outputs(s, Own(es, f), gc)
    decreases |es|
  {
    hide *;
    OwnPossible(es, f);
    OwnSteps(r, es, f, gc);
    if es != [] {
      var e, r1 := es[0], Step(r, es[0], gc).0;
      PlainTail(es);
      OwnPossible(es[1..], f);
      if SameRotation(e, f) {
        RotationsExact(e, f);
        SessionlessStep(r, s, e, gc);
        OthersChangeNoAnswer(r1, Step(s, e, gc).0, es[1..], f, gc);
        OutputsStep(s, e, Own(es[1..], f), gc);
      } else {
        OtherCursor(r, e, f, gc);
        OthersChangeNoAnswer(r1, s, es[1..], f, gc);
      }
    } else {
      NoOutputs(s, gc);
    }
  }

  lemma PlainTail(es: seq<Event>)
    requires AllPlain(es) && es != []
    ensures Plain(es[0]) && AllPlain(es[1..])
  {
    hide Plain;
  }

  lemma OwnSteps(r: Router, es: seq<Event>, f: Event, gc: bool)
    requires AllPossible(es) && Possible(f)
    ensures es == [] ==> Own(es, f) == [] && OwnOutputs(r, es, f, gc) == []
    ensures es != [] ==> Possible(es[0]) && AllPossible(es[1..]) && var r1 := Step(r, es[0], gc).0;
      if SameRotation(es[0], f) then Own(es, f) == [es[0]] + Own(es[1..], f) &&
        OwnOutputs(r, es, f, gc) == [Step(r, es[0], gc).1] + OwnOutputs(r1, es[1..], f, gc)
      else Own(es, f) == Own(es[1..], f) && OwnOutputs(r, es, f, gc) == OwnOutputs(r1, es[1..], f, gc)
  {
    hide Step, SameRotation, Possible;
  }

  lemma OutputsStep(s: Router, e: Event, rest: seq<Event>, gc: bool)
    requires Possible(e) && AllPossible(rest)
    ensures AllPossible([e] + rest) && Outputs(s, [e] + rest, gc) == [Step(s, e, gc).1] +
      Outputs(Step(s, e, gc).0, rest, gc)
  {
    hide Step, Possible;
    assert ([e] + rest)[1..] == rest;
  }

  lemma NoOutputs(s: Router, gc: bool)
    ensures AllPossible([]) && Outputs(s, [], gc) == []
  {
  }

  lemma OwnPossible(es: seq<Event>, f: Event)
    requires AllPossible(es) && Possible(f)
    ensures AllPossible(Own(es, f))
  {
    var own := Own(es, f);
    forall i | 0 <= i < |own| ensures Possible(own[i]) { assert own[i] in own; }
  }

  // ---- one call ----

  /** d is the last candidate of its identifier. */
  ghost predicate LastOfItsID(d: Candidate, cs: seq<Candidate>) {
    exists j :: 0 <= j < |cs| && cs[j] == d && forall k | j < k < |cs| :: cs[k].id != d.id
  }

  lemma LastOfFront(cs: seq<Candidate>, c: Candidate, d: Candidate)
    requires LastOfItsID(d, cs) && c.id != d.id
    ensures LastOfItsID(d, cs + [c])
  {
    var j :| 0 <= j < |cs| && cs[j] == d && forall k | j < k < |cs| :: cs[k].id != d.id;
    assert (cs + [c])[j] == d;
  }

  lemma {:induction false} LastWithIDIsLast(cs: seq<Candidate>, id: string)
    requires exists d :: d in cs && d.id == id
    ensures LastOfItsID(LastWithID(cs, id), cs)
  {
    var n := |cs| - 1;
    if cs[n].id != id {
      assert exists d :: d in cs[..n] && d.id == id by {
        var d :| d in cs && d.id == id;
        assert d in cs[..n];
      }
      LastWithIDIsLast(cs[..n], id);
      assert LastWithID(cs, id) == LastWithID(cs[..n], id);
      assert cs == cs[..n] + [cs[n]];
      hide LastOfItsID;
      LastOfFront(cs[..n], cs[n], LastWithID(cs, id));
    }
  }

  /** How often the rotation has been used, modulo 2^64. */
  function Uses(cursors: Cursors, e: Event): nat
    requires Possible(e)
  {
    if CursorOf(e) in cursors then cursors[CursorOf(e)] else 0
  }

  /**
   * A call no session decides answers with its list at the position of its rotation, of equal identifiers the last, and
   * moves that rotation on by one.
   */
  lemma RotatedCall(r: Router, e: Event, gc: bool)
    requires Possible(e) && !Sticky(r.sessions, e)
    ensures match (e, Step(r, e, gc).1)
      case (Route(_, _, allowed, _, _), Provider(name)) => name == allowed[Uses(r.cursors, e) % |allowed|]
      case (Pick(_, _, _, top, _, _), Account(c)) =>
        c.id == top[Uses(r.cursors, e) % |top|].id && LastOfItsID(c, top)
      case _ => false
    ensures Uses(Step(r, e, gc).0.cursors, e) ==
      if Uses(r.cursors, e) == 18_446_744_073_709_551_615 then 0 else Uses(r.cursors, e) + 1
    ensures forall key | key != CursorOf(e) ::
      (key in Step(r, e, gc).0.cursors <==> key in r.cursors) &&
      (key in r.cursors ==> Step(r, e, gc).0.cursors[key] == r.cursors[key])
  {
    hide *;
    RotatedStep(r, e, gc);
    BumpAdvances(r.cursors, e, Bump(r.cursors, CursorOf(e)));
    if e.Route? { RouteRotates(r.cursors, e); } else { PickRotates(r.cursors, e); }
  }

  lemma BumpAdvances(cursors: Cursors, e: Event, after: Cursors)
    requires Possible(e) && after == Bump(cursors, CursorOf(e))
    ensures Uses(after, e) == if Uses(cursors, e) == 18_446_744_073_709_551_615 then 0 else Uses(cursors, e) + 1
    ensures forall key | key != CursorOf(e) ::
      (key in after <==> key in cursors) && (key in cursors ==> after[key] == cursors[key])
  {
    hide CursorOf;
  }

  lemma RouteRotates(cursors: Cursors, e: Event)
    requires Possible(e) && e.Route?
    ensures e.allowed != [] && Rotate(cursors, e) == Provider(e.allowed[Uses(cursors, e) % |e.allowed|])
  {
    hide CursorOf;
  }

  lemma RotatedStep(r: Router, e: Event, gc: bool)
    requires Possible(e) && !Sticky(r.sessions, e)
    ensures Step(r, e, gc).1 == Rotate(r.cursors, e) && Step(r, e, gc).0.cursors == Bump(r.cursors, CursorOf(e))
  {
    hide CursorOf, Collect, Saved, Rotate, Bump;
  }

  lemma PickRotates(cursors: Cursors, e: Event)
    requires Possible(e) && e.Pick?
    ensures var out := Rotate(cursors, e);
      out.Account? && out.candidate.id == e.top[Uses(cursors, e) % |e.top|].id && LastOfItsID(out.candidate, e.top)
  {
    hide CursorOf, LastOfItsID;
    var d := e.top[Uses(cursors, e) % |e.top|];
    assert d in e.top;
    LastWithIDIsLast(e.top, d.id);
  }

  /** The row decides the call: a candidate on offer carries its account, and its provider unless that is blank. */
  ghost predicate Decides(row: Row, e: Event) {
    match e
    case Route(_, _, allowed, _, _) => row.provider in allowed
    case Pick(_, _, _, top, _, _) =>
      exists c :: c in top && c.id == row.authID && (row.provider == "" || c.provider == row.provider)
  }

  /** What a deciding row answers: its provider, or the first candidate it fits. */
  ghost predicate DecidedAnswer(row: Row, e: Event, out: Output) {
    match (e, out)
    case (Route(_, _, _, _, _), Provider(name)) => name == row.provider
    case (Pick(_, _, _, top, _, _), Account(c)) => exists i :: FirstFit(top, row, i) && top[i] == c
    case _ => false
  }

  ghost predicate FirstFit(top: seq<Candidate>, row: Row, i: int) {
    0 <= i < |top| && Fits(top[i], row) && forall j | 0 <= j < i :: !Fits(top[j], row)
  }

  predicate Fits(c: Candidate, row: Row) {
    c.id == row.authID && (row.provider == "" || c.provider == row.provider)
  }

  /**
   * A session decides a call exactly if it is named, known, expires after the reading and its row fits the offer; the
   * call then answers with the row and moves no rotation.
   */
  lemma StickyExact(r: Router, e: Event, gc: bool)
    requires Possible(e)
    ensures var k := SessionKey(e.keyID, e.hash);
      (Sticky(r.sessions, e) <==>
        e.hash != "" && k in r.sessions && e.now < r.sessions[k].expiresAt && Decides(r.sessions[k], e)) &&
      (Sticky(r.sessions, e) ==>
        DecidedAnswer(r.sessions[k], e, Step(r, e, gc).1) && Step(r, e, gc).0.cursors == r.cursors)
  {
    var k := SessionKey(e.keyID, e.hash);
    if e.Pick? && k in r.sessions {
      var row := r.sessions[k];
      var i := FirstMatch(e.top, row);
      assert forall j | 0 <= j < |e.top| :: Fits(e.top[j], row) == Matches(e.top[j], row);
      if i < |e.top| { assert e.top[i] in e.top && FirstFit(e.top, row, i); }
      if Decides(row, e) {
        var c :| c in e.top && Fits(c, row);
        var j :| 0 <= j < |e.top| && e.top[j] == c;
        assert Matches(e.top[j], row);
      }
    }
  }

  /** A row expiring an hour after the reading is not deleted at that reading. */
  lemma FreshRowStays(now: Clock)
    ensures !TextLeq(now + TTL, now)
  {
    assert now + TTL >= now + SECOND;
  }

  /**
   * A call that names a session leaves its answer in the session's row, expiring an hour after the reading. A route
   * keeps the account of a row that decided it and otherwise forgets it.
   */
  lemma SessionRowAfter(r: Router, e: Event, gc: bool)
    requires Possible(e) && e.hash != ""
    ensures var k, out, after := SessionKey(e.keyID, e.hash), Step(r, e, gc).1, Step(r, e, gc).0.sessions;
      k in after && after[k].expiresAt == e.now + 3_600_000_000_000 &&
      match out
      case Provider(name) =>
        after[k].provider == name && after[k].authID == if Sticky(r.sessions, e) then r.sessions[k].authID else ""
      case Account(c) => after[k].provider == c.provider && after[k].authID == c.id
  {
    FreshRowStays(e.now);
    hide CursorOf, TextLeq, Rotate, Bump;
  }

  /** Without a session a call leaves all sessions as they are. */
  lemma SessionlessKeepsSessions(r: Router, e: Event, gc: bool)
    requires Possible(e) && e.hash == ""
    ensures Step(r, e, gc).0.sessions == r.sessions
  {
  }

  /** The list a pick rotates over is ordered by identifier. */
  lemma TopIsOrdered(cs: seq<Candidate>, i: nat, j: nat)
    requires i < j < |Top(cs)|
    ensures Leq(Top(cs)[i].id, Top(cs)[j].id) && Top(cs)[i].priority == Top(cs)[j].priority
  {
    TopIsMaximal(cs);
    var c, d := Top(cs)[i], Top(cs)[j];
    assert c in Top(cs) && d in Top(cs);
    LessTotal(c.id, d.id);
  }
}
