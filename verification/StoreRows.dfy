/** The rows of the store's tables, what their text columns mean, and the facts its operations rest on. */
module StoreRows {
  import opened Text
  import opened TimeText
  import opened Tables
  import opened Access
  import opened Migration
  import opened InventorySync
  import opened Billing
  import opened Routing
  import opened Quota

  datatype Error =
    | KeyNotFound | KeyDisabled | QuotaExceeded(window: Window) | NoBindings | NoAllowedTarget
    | MissingPriceRule | DuplicateKey | NoRows | Constraint

  datatype Result<T> = Ok(value: T) | Err(error: Error)

  /** A row of keys, as far as authorisation reads it. */
  datatype Key = Key(hash: string, enabled: bool, limits: Limits)

  /** A requested binding or group member. */
  datatype Reference = Reference(kind: string, target: string)

  /** A row of routing_sessions as stored. */
  datatype StoredSession = StoredSession(provider: string, authID: string, expiresAt: string)

  /** A usage report, and the ledger row made of it. */
  datatype Usage = Usage(keyID: string, authID: string, authIndex: string, provider: string, instanceID: string,
    model: string,
                         detail: Detail, usd: real, createdAt: Instant)
  datatype LedgerRow = LedgerRow(keyID: string, authID: string, authIndex: string, provider: string,
    instanceID: string, model: string,
                                 detail: Detail, usd: real, createdAt: string)

  function LimitsEnabled(l: Limits): bool {
    (l.fiveHour.AtMost? && l.fiveHour.usd > 0.0) || (l.weekly.AtMost? && l.weekly.usd > 0.0) ||
      (l.total.AtMost? && l.total.usd > 0.0)
  }

  /** The references a caller asks for, as rows of the owner: normalised, without blanks. */
  function LinksOf(owner: string, refs: seq<Reference>): set<Link> {
    set r | r in refs && NormalizeKind(r.kind) != "" && Trim(r.target) != "" ::
      Link(owner, NormalizeKind(r.kind), Trim(r.target))
  }

  /** Group members may not be groups. */
  function MembersOf(owner: string, refs: seq<Reference>): set<Link> {
    set l | l in LinksOf(owner, refs) && l.kind != GROUP
  }

  lemma LinksAppend(others: set<Link>, owner: string, refs: seq<Reference>, r: Reference)
    ensures others + LinksOf(owner, refs + [r]) ==
      if NormalizeKind(r.kind) == "" || Trim(r.target) == "" then others + LinksOf(owner, refs)
      else others + LinksOf(owner, refs) + {Link(owner, NormalizeKind(r.kind), Trim(r.target))}
  {
    hide NormalizeKind, Trim;
    var all := refs + [r];
    assert all[|refs|] == r && forall x :: x in all <==> x in refs || x == r;
  }

  lemma MembersAppend(others: set<Link>, owner: string, refs: seq<Reference>, r: Reference)
    ensures others + MembersOf(owner, refs + [r]) ==
      if NormalizeKind(r.kind) == "" || Trim(r.target) == "" || NormalizeKind(r.kind) == GROUP
        then others + MembersOf(owner, refs)
      else others + MembersOf(owner, refs) + {Link(owner, NormalizeKind(r.kind), Trim(r.target))}
  {
    hide NormalizeKind, Trim;
    LinksAppend({}, owner, refs, r);
  }

  /** Rows of the two link tables are stored normalised, for owners that exist. */
  ghost predicate NormalLinks(links: set<Link>, owners: set<string>) {
    forall l | l in links ::
      l.owner in owners && l.kind != "" && l.target != "" && NormalizeKind(l.kind) == l.kind &&
        Trim(l.target) == l.target
  }

  lemma LinksAreNormal(owner: string, refs: seq<Reference>, owners: set<string>)
    requires owner in owners
    ensures NormalLinks(LinksOf(owner, refs), owners) && Flat(MembersOf(owner, refs))
  {
    forall l | l in LinksOf(owner, refs)
      ensures l.owner == owner && l.kind != "" && l.target != "" && NormalizeKind(l.kind) == l.kind &&
        Trim(l.target) == l.target
    {
      var r :| r in refs && NormalizeKind(r.kind) != "" && Trim(r.target) != "" &&
        l == Link(owner, NormalizeKind(r.kind), Trim(r.target));
      NormalizeKindTwice(r.kind);
      TrimTwice(r.target);
    }
  }

  /** Replacing one owner's rows keeps both properties of the link tables. */
  lemma ReplacedLinksAreNormal(links: set<Link>, owner: string, refs: seq<Reference>, owners: set<string>)
    requires NormalLinks(links, owners) && owner in owners
    ensures NormalLinks(WithoutOwner(links, owner) + LinksOf(owner, refs), owners)
    ensures NormalLinks(WithoutOwner(links, owner) + MembersOf(owner, refs), owners)
    ensures Flat(links) ==> Flat(WithoutOwner(links, owner) + MembersOf(owner, refs))
  {
    LinksAreNormal(owner, refs, owners);
  }

  /** The targets of a group's members that have been applied already. */
  ghost function AppliedMembers(members: set<Link>, group: string, todo: set<Link>): set<Target> {
    set m | m in members && m.owner == group && m !in todo && Trim(m.target) != "" ::
      Target(NormalizeKind(m.kind), Trim(m.target))
  }

  lemma SingleTarget(members: set<Link>, kind: string, target: string)
    ensures Trim(target) == "" ==> TargetsOf(members, kind, target) == {}
    ensures Trim(target) != "" && NormalizeKind(kind) != GROUP ==>
      TargetsOf(members, kind, target) == {Target(NormalizeKind(kind), Trim(target))}
  {
  }

  lemma GroupTargets(members: set<Link>, kind: string, target: string)
    requires NormalizeKind(kind) == GROUP && Trim(target) != ""
    ensures AppliedMembers(members, Trim(target), {}) == TargetsOf(members, kind, target)
  {
  }

  lemma ApplyMember(members: set<Link>, group: string, todo: set<Link>, m: Link)
    requires Flat(members) && m in todo && m in members && m.owner == group
    ensures AppliedMembers(members, group, todo - {m}) == AppliedMembers(members, group, todo) +
      TargetsOf(members, m.kind, m.target)
  {
  }

  /** The targets of a key's bindings that have been applied already. */
  ghost function AppliedBindings(bindings: set<Link>, members: set<Link>, keyID: string, todo: set<Link>): set<Target> {
    set b, t | b in bindings && b.owner == keyID && b !in todo && t in TargetsOf(members, b.kind, b.target) :: t
  }

  lemma ApplyBinding(bindings: set<Link>, members: set<Link>, keyID: string, todo: set<Link>, b: Link)
    requires b in todo && b in bindings && b.owner == keyID
    ensures AppliedBindings(bindings, members, keyID, todo - {b}) == AppliedBindings(bindings, members, keyID, todo) +
      TargetsOf(members, b.kind, b.target)
  {
  }

  /** A scope extended by what some targets grant. */
  function Extended(scope: Scope, inv: Inventory, ts: set<Target>): Scope {
    Scope(scope.hasBindings, scope.authIDs + GrantedAuthIDs(inv, ts),
      scope.providerInstanceIDs + GrantedInstances(ts), scope.providers + GrantedProviders(inv, ts))
  }

  lemma ExtendByAuthFile(scope: Scope, inv: Inventory, kind: string, id: string)
    requires kind in {AUTH_ID, AUTH_FILE}
    ensures var k := ItemKey(id, AUTH_FILE);
      Extended(scope, inv, {Target(kind, id)}) ==
        Scope(scope.hasBindings, scope.authIDs + {id}, scope.providerInstanceIDs,
        scope.providers + if k in inv && NormalizeProvider(inv[k].provider) != ""
          then {NormalizeProvider(inv[k].provider)} else {})
  {
    hide NormalizeProvider;
    var ts := {Target(kind, id)};
    assert GrantedAuthIDs(inv, ts) == {id} && GrantedInstances(ts) == {};
  }

  lemma ExtendByInstance(scope: Scope, inv: Inventory, id: string)
    ensures var k := ItemKey(id, PROVIDER_INSTANCE);
      Extended(scope, inv, {Target(PROVIDER_INSTANCE, id)}) == Scope(scope.hasBindings,
        scope.authIDs + (if k in inv && inv[k].authID != "" then {inv[k].authID} else {}), scope.providerInstanceIDs +
          {id},
        scope.providers + if k in inv && NormalizeProvider(inv[k].provider) != ""
          then {NormalizeProvider(inv[k].provider)} else {})
  {
    hide NormalizeProvider;
    var ts := {Target(PROVIDER_INSTANCE, id)};
    assert GrantedInstances(ts) == {id};
  }

  /** Other kinds of targets grant nothing. */
  lemma ExtendByOther(scope: Scope, inv: Inventory, t: Target)
    requires t.kind !in {AUTH_ID, AUTH_FILE, PROVIDER_INSTANCE}
    ensures Extended(scope, inv, {t}) == scope && Extended(scope, inv, {}) == scope
  {
    assert GrantedAuthIDs(inv, {t}) == {} == GrantedAuthIDs(inv, {}) &&
      GrantedInstances({t}) == {} == GrantedInstances({});
    assert GrantedProviders(inv, {t}) == {} == GrantedProviders(inv, {});
  }

  lemma ExtendTwice(scope: Scope, inv: Inventory, ts: set<Target>, us: set<Target>)
    ensures Extended(Extended(scope, inv, ts), inv, us) == Extended(scope, inv, ts + us)
  {
    GrantUnion(inv, scope.hasBindings, ts, us);
  }

  // ---- what the text columns mean ----

  ghost predicate WellTimed(text: string) {
    ParseTime(text) != ZERO_TIME && text == Format(ParseTime(text))
  }

  function RowOf(s: StoredSession): Row {
    Row(s.provider, s.authID, ParseTime(s.expiresAt))
  }

  function SessionsOf(stored: map<SessionKey, StoredSession>): Sessions {
    map k | k in stored :: RowOf(stored[k])
  }

  function ChargeOf(r: LedgerRow): Charge {
    Charge(r.keyID, r.usd, ParseTime(r.createdAt))
  }

  function ChargesOf(rows: seq<LedgerRow>): (cs: seq<Charge>)
    ensures |cs| == |rows|
  {
    seq(|rows|, i requires 0 <= i < |rows| => ChargeOf(rows[i]))
  }

  ghost predicate ValidSessions(sessions: map<SessionKey, StoredSession>, keyIDs: set<string>) {
    forall k | k in sessions :: k.keyID in keyIDs && k.hash != "" && WellTimed(sessions[k].expiresAt)
  }

  ghost predicate ValidLedger(ledger: seq<LedgerRow>, keyIDs: set<string>) {
    forall i | 0 <= i < |ledger| :: ledger[i].keyID in keyIDs && WellTimed(ledger[i].createdAt)
  }

  ghost predicate UniqueHashes(keys: map<string, Key>) {
    forall i, j | i in keys && j in keys && keys[i].hash == keys[j].hash :: i == j
  }

  function OtherRows(ledger: seq<LedgerRow>, keyID: string): seq<LedgerRow> {
    Filter((x: LedgerRow) => x.keyID != keyID, ledger)
  }

  function OtherSessions(sessions: map<SessionKey, StoredSession>, keyID: string): map<SessionKey, StoredSession> {
    map k | k in sessions && k.keyID != keyID :: sessions[k]
  }

  lemma CascadeKeepsValid(keys: map<string, Key>, bindings: set<Link>, sessions: map<SessionKey, StoredSession>,
        keyID: string)
    requires NormalLinks(bindings, keys.Keys) && ValidSessions(sessions, keys.Keys) && UniqueHashes(keys)
    ensures var rest := keys - {keyID};
      NormalLinks(WithoutOwner(bindings, keyID), rest.Keys) &&
        ValidSessions(OtherSessions(sessions, keyID), rest.Keys) &&
      UniqueHashes(rest) && rest.Keys == keys.Keys - {keyID}
  {
    hide WellTimed;
  }

  lemma OtherRowsValid(ledger: seq<LedgerRow>, keyIDs: set<string>, keyID: string)
    requires ValidLedger(ledger, keyIDs)
    ensures ValidLedger(OtherRows(ledger, keyID), keyIDs - {keyID})
  {
    var rows := OtherRows(ledger, keyID);
    forall i | 0 <= i < |rows| ensures rows[i].keyID in keyIDs - {keyID} && WellTimed(rows[i].createdAt) {
      assert rows[i] in rows;
    }
  }

  /** uniqueNonEmpty */
  method UniqueNonEmpty(values: seq<string>) returns (out: seq<string>)
    ensures out == Unique(values)
  {
    var seen: set<string> := {};
    out := [];
    for i := 0 to |values|
      invariant out == Unique(values[..i])
      invariant forall v :: v in seen <==> v in out
    {
      assert values[..i + 1][..i] == values[..i];
      var value := Trim(values[i]);
      if value == "" {
        continue;
      }
      if value in seen {
        continue;
      }
      seen := seen + {value};
      out := out + [value];
    }
    assert values[..|values|] == values;
  }

  lemma UpsertedIs(inv: Inventory, entries: seq<Entry>)
    ensures Upserted(inv, entries) == DeleteShadows(inv + EntryRows(entries), StoredAliases(entries))
  {
  }

  lemma NothingRenamed(links: set<Link>)
    ensures Renamed([], links) == links
  {
    forall l | l in links ensures RenameLink([], l) == l {
    }
  }

  lemma MovedNothing(links: set<Link>, e: Entry)
    ensures Moved(links, links, e, [])
  {
    forall l | l in links ensures MoveLink(e, [], l) == l {
    }
  }

  lemma AliasInstance(normalizeURL: string -> string, e: Entry, alias: string)
    requires Migrates(e) && alias in Aliases(e)
    ensures ProviderInstanceID(normalizeURL, EntryProvider(e), alias, "", "") == InstanceID(e, alias)
  {
    var raw := RawAliases(e);
    var i :| 0 <= i < |raw| && Trim(raw[i]) == alias;
    TrimTwice(raw[i]);
    NormalizeProviderTwice(FirstNonEmpty([e.provider, e.kind]));
  }

  /** Renamed references are normal again, and no group becomes a member. */
  lemma RenamedIsNormal(entries: seq<Entry>, links: set<Link>, owners: set<string>)
    requires NormalLinks(links, owners)
    ensures NormalLinks(Renamed(entries, links), owners) && (Flat(links) ==> Flat(Renamed(entries, links)))
  {
    KindConstants();
    forall l | l in links ensures var m := RenameLink(entries, l);
      m.owner == l.owner && m.kind != "" && m.target != "" && NormalizeKind(m.kind) == m.kind &&
        Trim(m.target) == m.target && (m.kind == l.kind || m.kind == AUTH_ID)
    {
      RenamedTarget(entries, l.target);
    }
  }

  lemma {:induction false} RenamedTarget(entries: seq<Entry>, id: string)
    ensures Rename(entries, id).To? ==>
      Rename(entries, id).authID != "" && Trim(Rename(entries, id).authID) == Rename(entries, id).authID
  {
    if entries != [] {
      TrimTwice(FirstNonEmpty([entries[0].id, entries[0].authIndex, entries[0].name]));
      RenamedTarget(entries[1..], id);
    }
  }

  lemma ListedIsClean(inv: Inventory, ids: set<string>)
    requires CleanRows(inv)
    ensures CleanRows(Listed(inv, ids))
  {
    hide Clean, Trim;
  }

  lemma SyncPhasesAre(inv: Inventory, entries: seq<Entry>)
    ensures SyncPhases(inv, entries) == Listed(DeleteShadows(Upserted(inv, entries), AuthFileNames(inv) +
      EntryAliases(entries)), EntryIDs(entries))
  {
  }

  lemma SyncListsStart()
    ensures Names([]) == EntryIDs([]) == {} == EntryAliases([])
  {
  }

  lemma SyncListsStep(ids: seq<string>, stored: seq<string>, aliases: seq<string>, entries: seq<Entry>, e: Entry)
    requires Names(ids) == EntryIDs(entries) && Names(aliases) == Names(stored) + EntryAliases(entries)
    ensures var id := FirstNonEmpty([e.id, e.authIndex, e.name]);
      Names(if id != "" then ids + [id] else ids) == EntryIDs(entries + [e]) &&
      Names(aliases + RawAliases(e)) == Names(stored) + EntryAliases(entries + [e])
  {
    var id := FirstNonEmpty([e.id, e.authIndex, e.name]);
    EntryIDsAppend(entries, e);
    StoredAliasesAppend(entries, e);
    NamesConcat(aliases, RawAliases(e));
    NamesConcat(ids, [id]);
    NamesOfOne(id);
    hide Names, EntryIDs, EntryAliases, FirstNonEmpty, Trim;
  }

  lemma NamesOfOne(v: string)
    ensures Names([v]) == if Trim(v) == "" then {} else {Trim(v)}
    ensures v == "" ==> Trim(v) == ""
  {
    assert Trim([v][0]) == Trim(v);
    assert Occurs(Trim(v), [v]);
  }

  /** The names of the auth files that are not in todo. */
  ghost function NamesWithout(inv: Inventory, todo: set<ItemKey>): set<string> {
    set k, n | k in inv && k.kind == AUTH_FILE && k !in todo && n in Unique(RowNames(k, inv[k])) :: n
  }

  lemma NamesLeft(inv: Inventory, todo: set<ItemKey>)
    ensures todo == {} ==> NamesWithout(inv, todo) == AuthFileNames(inv)
    ensures todo == (set k | k in inv && k.kind == AUTH_FILE) ==> NamesWithout(inv, todo) == {} == Names([])
  {
  }

  lemma NamesOneMore(inv: Inventory, todo: set<ItemKey>, k: ItemKey)
    requires k in todo && k in inv && k.kind == AUTH_FILE
    ensures NamesWithout(inv, todo - {k}) == NamesWithout(inv, todo) + Names(RowNames(k, inv[k]))
  {
  }

  /** The identifier of an entry, choice by choice. */
  lemma EntryIDSteps(e: Entry)
    ensures EntryID(e) == if Trim(e.id) != "" then Trim(e.id) else if Trim(e.authIndex) != "" then Trim(e.authIndex)
      else Trim(e.name)
  {
    var a, b, c := [e.id, e.authIndex, e.name], [e.authIndex, e.name], [e.name];
    assert a[1..] == b && b[1..] == c && c[1..] == [];
    assert FirstNonEmpty(c) == if Trim(e.name) != "" then e.name else "";
    assert FirstNonEmpty(b) == if Trim(e.authIndex) != "" then e.authIndex else FirstNonEmpty(c);
  }

  /** The best match among the rows that are not in todo. */
  ghost predicate BestOutside(inv: Inventory, todo: set<ItemKey>, authID: string, found: bool, k: ItemKey) {
    (found ==> IsAuthFileFor(inv, k, authID) && k !in todo) &&
    forall j | IsAuthFileFor(inv, j, authID) && j !in todo ::
      found && Rank(k, inv[k], authID) <= Rank(j, inv[j], authID)
  }

  lemma BestOfAll(inv: Inventory, authID: string, found: bool, k: ItemKey)
    requires BestOutside(inv, {}, authID, found, k)
    ensures found <==> HasAuthFile(inv, authID)
    ensures found ==> BestAuthFile(inv, k, authID)
  {
    hide Rank;
  }

  lemma LearnsAuthFile(normalizeURL: string -> string, inv: Inventory, c: Candidate, k: ItemKey)
    requires Teaches(c) && BestAuthFile(inv, k, Trim(c.id))
    ensures Learned(normalizeURL, inv, c, Upsert(inv, k.id, k.kind, inv[k].(provider := NormalizeProvider(c.provider))))
  {
    hide Rank, Upsert;
  }

  // ---- clock readings, quota and sessions in text ----

  /** The zero time stands for the clock. */
  function Reading(now: Instant, clock: Instant): Instant {
    if now == ZERO_TIME then clock else now
  }

  /** Reading a row's time and comparing its text with a cut is comparing instants the text way. */
  lemma RowInWindow(row: LedgerRow, w: Window, now: Moment)
    requires WellTimed(row.createdAt) && w != Total
    ensures Leq(Format(Cut(w, now)), row.createdAt) <==> InWindow(ChargeOf(row), w, now)
  {
    hide Format, ParseTime, TextLeq, Leq;
    TextLeqIsTextOrder(Cut(w, now), ParseTime(row.createdAt));
  }

  lemma NoSum(rows: seq<LedgerRow>, keyID: string, w: Window, now: Moment)
    ensures WindowSum(ChargesOf(rows)[..0], keyID, w, now) == 0.0
  {
  }

  lemma WindowSumStep(rows: seq<LedgerRow>, keyIDs: set<string>, i: nat, keyID: string, w: Window, now: Moment)
    requires i < |rows| && ValidLedger(rows, keyIDs)
    ensures WindowSum(ChargesOf(rows)[..i + 1], keyID, w, now) == WindowSum(ChargesOf(rows)[..i], keyID, w, now) +
      if rows[i].keyID == keyID && (w == Total || Leq(Format(Cut(w, now)), rows[i].createdAt)) then rows[i].usd else 0.0
  {
    hide WellTimed, Format, Leq, ParseTime, Cut;
    if w != Total {
      RowInWindow(rows[i], w, now);
    }
    TotalCountsAll(ChargeOf(rows[i]), now);
    hide InWindow;
    var cs := ChargesOf(rows)[..i + 1];
    assert cs[..i] == ChargesOf(rows)[..i] && cs[i] == ChargeOf(rows[i]);
  }

  lemma ChargesAppend(rows: seq<LedgerRow>, row: LedgerRow)
    ensures ChargesOf(rows + [row]) == ChargesOf(rows) + [ChargeOf(row)]
  {
    hide ChargeOf;
  }

  lemma StoredTime(t: Instant)
    requires t != ZERO_TIME
    ensures WellTimed(Format(t)) && ParseTime(Format(t)) == t
  {
    FormatReadsBack(t);
  }

  lemma LedgerAppend(ledger: seq<LedgerRow>, keyIDs: set<string>, row: LedgerRow)
    requires ValidLedger(ledger, keyIDs) && row.keyID in keyIDs && WellTimed(row.createdAt)
    ensures ValidLedger(ledger + [row], keyIDs)
  {
    hide WellTimed;
  }

  lemma SessionSaved(sessions: map<SessionKey, StoredSession>, keyIDs: set<string>, k: SessionKey, provider: string,
        authID: string, now: Clock)
    requires ValidSessions(sessions, keyIDs) && k.keyID in keyIDs && k.hash != ""
    ensures var after := sessions[k := StoredSession(provider, authID, Format(now + TTL))];
      ValidSessions(after, keyIDs) && SessionsOf(after) == SessionsOf(sessions)[k := Row(provider, authID, now + TTL)]
  {
    hide Format, ParseTime;
    StoredTime(now + TTL);
  }

  /** Deleting by text is collecting by instants compared the text way. */
  lemma SessionsCollected(sessions: map<SessionKey, StoredSession>, keyIDs: set<string>, now: Clock)
    requires ValidSessions(sessions, keyIDs)
    ensures var after := map k | k in sessions && !Leq(sessions[k].expiresAt, Format(now)) :: sessions[k];
      ValidSessions(after, keyIDs) && SessionsOf(after) == Collect(SessionsOf(sessions), now)
  {
    hide Format, ParseTime, Leq, TextLeq;
    forall k | k in sessions ensures Leq(sessions[k].expiresAt, Format(now)) <==> TextExpired(RowOf(sessions[k]), now) {
      TextLeqIsTextOrder(ParseTime(sessions[k].expiresAt), now);
    }
  }

  lemma TotalCountsAll(c: Charge, now: Moment)
    ensures InWindow(c, Total, now)
  {
  }

  /** w is used up and the windows checked before it are not. */
  predicate FirstReached(ledger: seq<Charge>, keyID: string, limits: Limits, now: Moment, w: Window) {
    Reached(LimitOf(limits, w), WindowSum(ledger, keyID, w, now)) &&
    (w != FiveHour ==> !Reached(limits.fiveHour, WindowSum(ledger, keyID, FiveHour, now))) &&
    (w == Total ==> !Reached(limits.weekly, WindowSum(ledger, keyID, Weekly, now)))
  }

  predicate HasID(cs: seq<Candidate>, id: string) {
    exists d | d in cs :: d.id == id
  }

  /** The map of nextCandidate: identifiers of cs to their last candidates. */
  ghost predicate Indexes(byID: map<string, Candidate>, cs: seq<Candidate>) {
    forall id :: (id in byID <==> HasID(cs, id)) && (id in byID ==> byID[id] == LastWithID(cs, id))
  }

  lemma IndexNothing()
    ensures Indexes(map[], [])
  {
  }

  lemma IndexOne(byID: map<string, Candidate>, cs: seq<Candidate>, c: Candidate)
    requires Indexes(byID, cs)
    ensures Indexes(byID[c.id := c], cs + [c])
  {
    var all := cs + [c];
    assert all[..|cs|] == cs && all[|cs|] == c;
    assert forall d :: d in all <==> d in cs || d == c;
  }

  lemma IndexFinds(byID: map<string, Candidate>, cs: seq<Candidate>)
    requires Indexes(byID, cs)
    ensures forall d | d in cs :: d.id in byID && byID[d.id] == LastWithID(cs, d.id)
  {
    forall d | d in cs ensures HasID(cs, d.id) {
    }
  }

  lemma UnionWithNothing<T>(s: set<T>)
    ensures s + {} == s
  {
  }

  /** Only existing keys have bindings. */
  lemma BoundKeysExist(bindings: set<Link>, keyIDs: set<string>, inv: Inventory, members: set<Link>, keyID: string)
    requires NormalLinks(bindings, keyIDs) && ScopeOf(inv, bindings, members, keyID).hasBindings
    ensures keyID in keyIDs
  {
  }

  lemma NoLinks(owner: string)
    ensures LinksOf(owner, []) == {} == MembersOf(owner, [])
  {
  }

  /** The DELETE of deleteAuthFileProviderInstances. */
  function DeleteListed(inv: Inventory, authIDs: seq<string>): Inventory {
    map k | k in inv && !(k.kind == PROVIDER_INSTANCE && inv[k].baseURL == "" && inv[k].authID in authIDs &&
      k.id == inv[k].provider + ":" + inv[k].authID) :: inv[k]
  }

  lemma ShadowsByList(inv: Inventory, aliases: seq<string>)
    ensures DeleteListed(inv, Unique(aliases)) == DeleteShadows(inv, Names(aliases))
    ensures |Unique(aliases)| == 0 ==> DeleteShadows(inv, Names(aliases)) == inv
    ensures CleanRows(inv) ==> CleanRows(DeleteShadows(inv, Names(aliases)))
  {
    hide Unique, Clean, Trim;
  }
}
