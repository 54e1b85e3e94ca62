/** The sticky-session router: provider steps and account steps share one session table and one cursor table. */
module Routing {
  import opened Text
  import opened TimeText
  import opened Tables

  /** RoutingSessionTTL */
  const TTL: nat := HOUR

  /** Wall-clock readings whose expiry can be written with a four-digit year. */
  type Clock = t: Instant | ZERO_TIME < t && t + TTL < END witness ZERO_TIME + 1

  const TWO64: nat := 0x1_0000_0000_0000_0000
  type Cursor = c: nat | c < TWO64

  datatype SessionKey = SessionKey(keyID: string, hash: string)

  /**
   * A row of routing_sessions; authID is empty until an account was picked. The table holds the expiry as text,
   * which reads back exactly (TimeText.FormatReadsBack); only its comparison in SQL is the comparison of texts.
   */
  datatype Row = Row(provider: string, authID: string, expiresAt: Instant)
  type Sessions = map<SessionKey, Row>
  type Cursors = map<string, Cursor>

  datatype Router = Router(sessions: Sessions, cursors: Cursors)

  /** One successful call, after authorisation: Route has the sorted allowed providers, Pick the rotation list. */
  datatype Event =
    | Route(keyID: string, model: string, allowed: seq<string>, hash: string, now: Clock)
    | Pick(keyID: string, model: string, provider: string, top: seq<Candidate>, hash: string, now: Clock)

  datatype Output = Provider(name: string) | Account(candidate: Candidate)

  predicate Possible(e: Event) {
    match e
    case Route(_, _, allowed, _, _) => allowed != []
    case Pick(_, _, _, top, _, _) => top != []
  }

  function KeyOf(e: Event): SessionKey {
    SessionKey(e.keyID, e.hash)
  }

  // ---- cursors ----

  function Itoa(n: int): string
    decreases if n < 0 then 1 else 0, if n < 0 then -n else n
  {
    if n < 0 then "-" + Itoa(-n)
    else if n < 10 then [Digit(n)]
    else Itoa(n / 10) + [Digit(n % 10)]
  }

  function ProviderCursor(keyID: string, model: string): string {
    "provider\0" + (keyID + ("\0" + model))
  }

  function AuthCursor(keyID: string, model: string, provider: string, priority: int): string {
    "auth\0" + (keyID + ("\0" + (model + ("\0" + (provider + ("\0" + Itoa(priority)))))))
  }

  function CursorOf(e: Event): string
    requires Possible(e)
  {
    match e
    case Route(keyID, model, _, _, _) => ProviderCursor(keyID, model)
    case Pick(keyID, model, provider, top, _, _) => AuthCursor(keyID, model, provider, top[0].priority)
  }

  function At(cursors: Cursors, key: string): Cursor {
    if key in cursors then cursors[key] else 0
  }

  function Bump(cursors: Cursors, key: string): Cursors {
    cursors[key := (At(cursors, key) + 1) % TWO64]
  }

  /** The values a cursor rotates over: provider names, or account identifiers. */
  function Values(e: Event): (vs: seq<string>)
    requires Possible(e)
    ensures vs != []
  {
    match e
    case Route(_, _, allowed, _, _) => allowed
    case Pick(_, _, _, top, _, _) => seq(|top|, i requires 0 <= i < |top| => top[i].id)
  }

  function NextValue(cursors: Cursors, e: Event): string
    requires Possible(e)
  {
    Values(e)[At(cursors, CursorOf(e)) % |Values(e)|]
  }

  /** Accounts are looked up by identifier after the rotation; of equal identifiers the last one wins. */
  function LastWithID(cs: seq<Candidate>, id: string): (c: Candidate)
    requires exists d :: d in cs && d.id == id
    ensures c in cs && c.id == id
  {
    if cs[|cs| - 1].id == id then cs[|cs| - 1] else LastWithID(cs[..|cs| - 1], id)
  }

  function Rotate(cursors: Cursors, e: Event): Output
    requires Possible(e)
  {
    match e
    case Route(_, _, _, _, _) => Provider(NextValue(cursors, e))
    case Pick(_, _, _, top, _, _) =>
      var i := At(cursors, CursorOf(e)) % |top|;
      assert top[i] in top && top[i].id == NextValue(cursors, e);
      Account(LastWithID(top, NextValue(cursors, e)))
  }

  // ---- sessions ----

  predicate Live(row: Row, now: Clock) {
    row.expiresAt > now
  }

  predicate Matches(c: Candidate, row: Row) {
    c.id == row.authID && (row.provider == "" || c.provider == row.provider)
  }

  /** The first candidate the row pins, if any. */
  function FirstMatch(cs: seq<Candidate>, row: Row): (i: nat)
    ensures i <= |cs| && (i < |cs| ==> Matches(cs[i], row))
    ensures forall j | 0 <= j < i :: !Matches(cs[j], row)
  {
    if cs == [] then 0 else if Matches(cs[0], row) then 0 else 1 + FirstMatch(cs[1..], row)
  }

  /** The session row decides the call. */
  predicate Sticky(sessions: Sessions, e: Event) {
    e.hash != "" && KeyOf(e) in sessions && Live(sessions[KeyOf(e)], e.now) &&
    match e
    case Route(_, _, allowed, _, _) => sessions[KeyOf(e)].provider in allowed
    case Pick(_, _, _, top, _, _) => FirstMatch(top, sessions[KeyOf(e)]) < |top|
  }

  function StickyOutput(sessions: Sessions, e: Event): Output
    requires Sticky(sessions, e)
  {
    var row := sessions[KeyOf(e)];
    match e
    case Route(_, _, _, _, _) => Provider(row.provider)
    case Pick(_, _, _, top, _, _) => Account(top[FirstMatch(top, row)])
  }

  /** saveRoutingSession: what the call stores for its session. */
  function Saved(e: Event, out: Output, authID: string): Row {
    match out
    case Provider(name) => Row(name, authID, e.now + TTL)
    case Account(c) => Row(c.provider, c.id, e.now + TTL)
  }

  /** deleteExpiredRoutingSessions compares the stored text with the text of now. */
  predicate TextExpired(row: Row, now: Clock) {
    TextLeq(row.expiresAt, now)
  }

  function Collect(sessions: Sessions, now: Clock): Sessions {
    map k | k in sessions && !TextExpired(sessions[k], now) :: sessions[k]
  }

  /** One call. With gc a call that starts a session also deletes expired rows, as the store does. */
  function Step(r: Router, e: Event, gc: bool): (Router, Output)
    requires Possible(e)
  {
    if Sticky(r.sessions, e) then
      var out := StickyOutput(r.sessions, e);
      (r.(sessions := r.sessions[KeyOf(e) := Saved(e, out, r.sessions[KeyOf(e)].authID)]), out)
    else
      var out := Rotate(r.cursors, e);
      var cursors := Bump(r.cursors, CursorOf(e));
      if e.hash == "" then (Router(r.sessions, cursors), out)
      else
        var sessions := r.sessions[KeyOf(e) := Saved(e, out, "")];
        (Router(if gc then Collect(sessions, e.now) else sessions, cursors), out)
  }

  ghost predicate AllPossible(es: seq<Event>) {
    forall i | 0 <= i < |es| :: Possible(es[i])
  }

  /**
   * The clock readings do not go back. The routing mutex serialises the calls but not their readings, which are taken
   * before it; so this is a condition on a run, and no theorem about all runs assumes it.
   */
  ghost predicate Ordered(es: seq<Event>, from: Clock) {
    NotBefore(es, from) && forall i, j | 0 <= i < j < |es| :: es[i].now <= es[j].now
  }

  /** No reading is earlier than the given one. */
  ghost predicate NotBefore(es: seq<Event>, from: Clock) {
    forall i | 0 <= i < |es| :: from <= es[i].now
  }

  /** The router after any sequence of calls, by any keys and sessions. */
  function After(r: Router, es: seq<Event>, gc: bool): Router
    requires AllPossible(es)
    decreases es
  {
    if es == [] then r else After(Step(r, es[0], gc).0, es[1..], gc)
  }

  /** What those calls return. */
  function Outputs(r: Router, es: seq<Event>, gc: bool): (outs: seq<Output>)
    requires AllPossible(es)
    ensures |outs| == |es|
    decreases es
  {
    if es == [] then [] else [Step(r, es[0], gc).1] + Outputs(Step(r, es[0], gc).0, es[1..], gc)
  }
}
