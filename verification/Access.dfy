/** What a key's bindings grant. */
module Access {
  import opened Text
  import opened Tables

  /** No group is a member of a group. */
  ghost predicate Flat(members: set<Link>) {
    forall m | m in members :: NormalizeKind(m.kind) != GROUP
  }

  datatype Target = Target(kind: string, id: string)

  /** The targets one binding reaches: itself, or the members of the group it names. */
  function TargetsOf(members: set<Link>, kind: string, target: string): set<Target> {
    if Trim(target) == "" then {}
    else if NormalizeKind(kind) == GROUP then
      set m | m in members && m.owner == Trim(target) && Trim(m.target) != "" ::
        Target(NormalizeKind(m.kind), Trim(m.target))
    else {Target(NormalizeKind(kind), Trim(target))}
  }

  function KeyTargets(bindings: set<Link>, members: set<Link>, keyID: string): set<Target> {
    set b, t | b in bindings && b.owner == keyID && t in TargetsOf(members, b.kind, b.target) :: t
  }

  /** The authorization files named directly, and those behind named provider instances. */
  function GrantedAuthIDs(inv: Inventory, ts: set<Target>): set<string> {
    (set t | t in ts && t.kind in {AUTH_ID, AUTH_FILE} :: t.id) +
    (set t | t in ts && t.kind == PROVIDER_INSTANCE && ItemKey(t.id, PROVIDER_INSTANCE) in inv &&
      inv[ItemKey(t.id, PROVIDER_INSTANCE)].authID != ""
      :: inv[ItemKey(t.id, PROVIDER_INSTANCE)].authID)
  }

  function GrantedInstances(ts: set<Target>): set<string> {
    set t | t in ts && t.kind == PROVIDER_INSTANCE :: t.id
  }

  /** The inventory row a target stands for. */
  function RowKey(t: Target): ItemKey {
    ItemKey(t.id, if t.kind == PROVIDER_INSTANCE then PROVIDER_INSTANCE else AUTH_FILE)
  }

  predicate NamesRow(inv: Inventory, t: Target) {
    t.kind in {AUTH_ID, AUTH_FILE, PROVIDER_INSTANCE} && RowKey(t) in inv &&
      NormalizeProvider(inv[RowKey(t)].provider) != ""
  }

  function GrantedProviders(inv: Inventory, ts: set<Target>): set<string> {
    set t | t in ts && NamesRow(inv, t) :: NormalizeProvider(inv[RowKey(t)].provider)
  }

  function Grant(inv: Inventory, bound: bool, ts: set<Target>): Scope {
    Scope(bound, GrantedAuthIDs(inv, ts), GrantedInstances(ts), GrantedProviders(inv, ts))
  }

  predicate IsBound(bindings: set<Link>, keyID: string) {
    exists b | b in bindings :: b.owner == keyID
  }

  /** The scope of a key as a union over its bindings; it mentions no order. */
  function ScopeOf(inv: Inventory, bindings: set<Link>, members: set<Link>, keyID: string): Scope {
    Grant(inv, IsBound(bindings, keyID), KeyTargets(bindings, members, keyID))
  }

  /** Granting is additive. */
  lemma GrantUnion(inv: Inventory, bound: bool, ts: set<Target>, us: set<Target>)
    ensures Grant(inv, bound, ts + us) == Scope(bound,
      GrantedAuthIDs(inv, ts) + GrantedAuthIDs(inv, us), GrantedInstances(ts) + GrantedInstances(us),
      GrantedProviders(inv, ts) + GrantedProviders(inv, us))
  {
    assert GrantedAuthIDs(inv, ts + us) == GrantedAuthIDs(inv, ts) + GrantedAuthIDs(inv, us);
    assert GrantedInstances(ts + us) == GrantedInstances(ts) + GrantedInstances(us);
    assert GrantedProviders(inv, ts + us) == GrantedProviders(inv, ts) + GrantedProviders(inv, us);
  }

  ghost predicate Within(a: Scope, b: Scope) {
    a.authIDs <= b.authIDs && a.providerInstanceIDs <= b.providerInstanceIDs && a.providers <= b.providers
  }

  lemma GrantMonotone(inv: Inventory, bound: bool, ts: set<Target>, us: set<Target>)
    requires ts <= us
    ensures Within(Grant(inv, bound, ts), Grant(inv, bound, us))
  {
    GrantUnion(inv, bound, ts, us);
    assert ts + us == us;
  }

  /** Deleting a group removes its members but not the bindings to it. */
  function WithoutOwner(links: set<Link>, owner: string): set<Link> {
    set l | l in links && l.owner != owner
  }

  /** What a scope allows grows with the scope. */
  lemma AllowsMonotone(normalizeURL: string -> string, a: Scope, b: Scope, c: Candidate)
    requires Within(a, b) && Allows(normalizeURL, a, c)
    ensures Allows(normalizeURL, b, c)
  {
  }

  /**
   * Deleting a group can only shrink scopes, so it allows no candidate that was not allowed before; and a bound key
   * stays bound: it never falls back to unrestricted routing.
   */
  lemma DeletingAGroupShrinks(normalizeURL: string -> string, inv: Inventory, bindings: set<Link>, members: set<Link>,
        keyID: string, group: string)
    ensures var before, after := ScopeOf(inv, bindings, members, keyID),
      ScopeOf(inv, bindings, WithoutOwner(members, group), keyID);
      Within(after, before) && after.hasBindings == before.hasBindings &&
      forall c :: Allows(normalizeURL, after, c) ==> Allows(normalizeURL, before, c)
  {
    hide Allows, NormalizeKind, Trim;
    var rest := WithoutOwner(members, group);
    forall b | b in bindings ensures TargetsOf(rest, b.kind, b.target) <= TargetsOf(members, b.kind, b.target) {
    }
    assert KeyTargets(bindings, rest, keyID) <= KeyTargets(bindings, members, keyID);
    GrantMonotone(inv, IsBound(bindings, keyID), KeyTargets(bindings, rest, keyID),
      KeyTargets(bindings, members, keyID));
    var before, after := ScopeOf(inv, bindings, members, keyID), ScopeOf(inv, bindings, rest, keyID);
    forall c | Allows(normalizeURL, after, c) ensures Allows(normalizeURL, before, c) {
      AllowsMonotone(normalizeURL, after, before, c);
    }
  }
}
