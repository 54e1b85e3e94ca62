/** What a key may use, read off the rows: bindings, group members and inventory. */
module Grants {
  import opened Text
  import opened Tables
  import opened Access
  import opened Quota
  import opened Routing
  import opened InventorySync
  import opened StoreRows

  /** The key is bound to the target, or to a group one of whose members is the target. */
  ghost predicate Reaches(bindings: set<Link>, members: set<Link>, keyID: string, kind: string, id: string) {
    (kind != "group" && Link(keyID, kind, id) in bindings) ||
    exists g :: Link(keyID, "group", g) in bindings && Link(g, kind, id) in members
  }

  /** The two link tables as the store keeps them. */
  ghost predicate Stored(bindings: set<Link>, members: set<Link>, keyIDs: set<string>, groups: set<string>) {
    NormalLinks(bindings, keyIDs) && NormalLinks(members, groups)
  }

  lemma TargetsExactly(bindings: set<Link>, members: set<Link>, keyIDs: set<string>, groups: set<string>,
        keyID: string, t: Target)
    requires Stored(bindings, members, keyIDs, groups)
    ensures t in KeyTargets(bindings, members, keyID) <==> Reaches(bindings, members, keyID, t.kind, t.id)
  {
    hide NormalizeKind, Trim;
    if t in KeyTargets(bindings, members, keyID) {
      var b :| b in bindings && b.owner == keyID && t in TargetsOf(members, b.kind, b.target);
      assert b == Link(keyID, b.kind, b.target);
      if b.kind == GROUP {
        var m :| m in members && m.owner == b.target && t == Target(m.kind, m.target);
        assert m == Link(b.target, t.kind, t.id);
      }
    }
    if Link(keyID, t.kind, t.id) in bindings && t.kind != GROUP {
      var b := Link(keyID, t.kind, t.id);
      assert t in TargetsOf(members, b.kind, b.target);
    }
    if g :| Link(keyID, GROUP, g) in bindings && Link(g, t.kind, t.id) in members {
      var b, m := Link(keyID, GROUP, g), Link(g, t.kind, t.id);
      assert t == Target(NormalizeKind(m.kind), Trim(m.target));
      assert t in TargetsOf(members, b.kind, b.target);
    }
  }

  /** The row of a provider instance names the account. */
  predicate InstanceOf(inv: Inventory, x: string, authID: string) {
    ItemKey(x, "provider_instance") in inv && inv[ItemKey(x, "provider_instance")].authID == authID
  }

  predicate HasProvider(inv: Inventory, k: ItemKey, provider: string) {
    k in inv && NormalizeProvider(inv[k].provider) == provider
  }

  /** The accounts a scope names: those reached directly, and those behind a reached provider instance. */
  lemma AuthIDsExactly(inv: Inventory, bindings: set<Link>, members: set<Link>, keyIDs: set<string>,
        groups: set<string>, keyID: string, id: string)
    requires Stored(bindings, members, keyIDs, groups)
    ensures id in ScopeOf(inv, bindings, members, keyID).authIDs <==>
      Reaches(bindings, members, keyID, "auth_id", id) || Reaches(bindings, members, keyID, "auth_file", id) ||
      (id != "" && exists x :: Reaches(bindings, members, keyID, "provider_instance", x) && InstanceOf(inv, x, id))
  {
    var ts := KeyTargets(bindings, members, keyID);
    forall t ensures t in ts <==> Reaches(bindings, members, keyID, t.kind, t.id) {
      TargetsExactly(bindings, members, keyIDs, groups, keyID, t);
    }
    hide Reaches, KeyTargets;
    if x :| id != "" && Reaches(bindings, members, keyID, "provider_instance", x) && InstanceOf(inv, x, id) {
      assert Target(PROVIDER_INSTANCE, x) in ts;
    }
    if id in GrantedAuthIDs(inv, ts) && Target(AUTH_ID, id) !in ts && Target(AUTH_FILE, id) !in ts {
      var t :| t in ts && t.kind == PROVIDER_INSTANCE && ItemKey(t.id, PROVIDER_INSTANCE) in inv &&
        id != "" && inv[ItemKey(t.id, PROVIDER_INSTANCE)].authID == id;
      assert InstanceOf(inv, t.id, id);
    }
    assert Target(AUTH_ID, id) in ts <==> Reaches(bindings, members, keyID, "auth_id", id);
    assert Target(AUTH_FILE, id) in ts <==> Reaches(bindings, members, keyID, "auth_file", id);
  }

  /** The provider instances a scope names are the reached ones. */
  lemma InstancesExactly(inv: Inventory, bindings: set<Link>, members: set<Link>, keyIDs: set<string>,
        groups: set<string>, keyID: string, id: string)
    requires Stored(bindings, members, keyIDs, groups)
    ensures id in ScopeOf(inv, bindings, members, keyID).providerInstanceIDs <==>
      Reaches(bindings, members, keyID, "provider_instance", id)
  {
    hide Reaches, KeyTargets;
    TargetsExactly(bindings, members, keyIDs, groups, keyID, Target(PROVIDER_INSTANCE, id));
  }

  /** The providers a key may be routed to: those the inventory gives for a reached account or provider instance. */
  lemma ProvidersExactly(inv: Inventory, bindings: set<Link>, members: set<Link>, keyIDs: set<string>,
        groups: set<string>, keyID: string, p: string)
    requires Stored(bindings, members, keyIDs, groups)
    ensures p in ScopeOf(inv, bindings, members, keyID).providers <==> p != "" && exists id ::
      ((Reaches(bindings, members, keyID, "auth_id", id) || Reaches(bindings, members, keyID, "auth_file", id)) &&
        HasProvider(inv, ItemKey(id, "auth_file"), p)) ||
      (Reaches(bindings, members, keyID, "provider_instance", id) &&
        HasProvider(inv, ItemKey(id, "provider_instance"), p))
  {
    var ts := KeyTargets(bindings, members, keyID);
    forall t ensures t in ts <==> Reaches(bindings, members, keyID, t.kind, t.id) {
      TargetsExactly(bindings, members, keyIDs, groups, keyID, t);
    }
    hide Reaches, KeyTargets, NormalizeProvider;
    if p in GrantedProviders(inv, ts) {
      var t :| t in ts && NamesRow(inv, t) && NormalizeProvider(inv[RowKey(t)].provider) == p;
      assert HasProvider(inv, RowKey(t), p) && Reaches(bindings, members, keyID, t.kind, t.id);
    }
    forall kind, id | p != "" && Reaches(bindings, members, keyID, kind, id) &&
      kind in {"auth_id", "auth_file", "provider_instance"} && HasProvider(inv, RowKey(Target(kind, id)), p)
      ensures p in GrantedProviders(inv, ts)
    {
      assert Target(kind, id) in ts && NamesRow(inv, Target(kind, id));
    }
    forall id ensures RowKey(Target("auth_id", id)) == RowKey(Target("auth_file", id)) == ItemKey(id, "auth_file") &&
      RowKey(Target("provider_instance", id)) == ItemKey(id, "provider_instance") {
    }
  }

  /** A key is bound exactly if it owns a row. */
  lemma BoundExactly(inv: Inventory, bindings: set<Link>, members: set<Link>, keyID: string)
    ensures ScopeOf(inv, bindings, members, keyID).hasBindings <==>
      exists kind, target :: Link(keyID, kind, target) in bindings
  {
    if b :| b in bindings && b.owner == keyID { assert Link(keyID, b.kind, b.target) in bindings; }
  }

  /**
   * A key may use a candidate that names its provider and account exactly if it reaches the account, the provider
   * instance provider:account, or some provider instance whose inventory row names the account.
   */
  lemma MayUseExactly(normalizeURL: string -> string, inv: Inventory, bindings: set<Link>, members: set<Link>,
        keyIDs: set<string>, groups: set<string>, keyID: string, c: Candidate)
    requires Stored(bindings, members, keyIDs, groups) && NormalizeProvider(c.provider) != "" && Trim(c.id) != ""
    ensures Allows(normalizeURL, ScopeOf(inv, bindings, members, keyID), c) <==>
      Reaches(bindings, members, keyID, "auth_id", Trim(c.id)) ||
      Reaches(bindings, members, keyID, "auth_file", Trim(c.id)) ||
      Reaches(bindings, members, keyID, "provider_instance", NormalizeProvider(c.provider) + ":" + Trim(c.id)) ||
      exists x :: Reaches(bindings, members, keyID, "provider_instance", x) && InstanceOf(inv, x, Trim(c.id))
  {
    var a, instance := Trim(c.id), NormalizeProvider(c.provider) + ":" + Trim(c.id);
    TrimTwice(c.id);
    NormalizeProviderTwice(c.provider);
    assert ProviderInstanceID(normalizeURL, NormalizeProvider(c.provider), a, AuthIndexOf(c), BaseURLOf(c)) ==
      instance;
    AuthIDsExactly(inv, bindings, members, keyIDs, groups, keyID, a);
    InstancesExactly(inv, bindings, members, keyIDs, groups, keyID, instance);
    hide Reaches, ScopeOf, Trim, NormalizeProvider, ProviderInstanceID, Stored;
  }

  /** Any candidate is allowed by its account, if it names one, or by the provider instance its fields identify. */
  lemma AllowsExactly(normalizeURL: string -> string, scope: Scope, c: Candidate)
    ensures Allows(normalizeURL, scope, c) <==>
      (Trim(c.id) != "" && Trim(c.id) in scope.authIDs) ||
      ProviderInstanceID(normalizeURL, c.provider, c.id, AuthIndexOf(c), BaseURLOf(c)) in scope.providerInstanceIDs
  {
    NormalizeProviderTwice(c.provider);
    TrimTwice(c.id);
    hide NormalizeProvider, Trim, AuthIndexOf, BaseURLOf, StripColons;
  }

  // ---- writing the rows ----

  /**
   * A requested reference becomes a row exactly if its kind and target are not blank; a group's not if it is a group.
   */
  lemma RowsExactly(owner: string, refs: seq<Reference>, l: Link)
    ensures l in LinksOf(owner, refs) <==>
      l.owner == owner && l.kind != "" && l.target != "" &&
      exists r :: r in refs && NormalizeKind(r.kind) == l.kind && Trim(r.target) == l.target
    ensures l in MembersOf(owner, refs) <==> l in LinksOf(owner, refs) && l.kind != "group"
  {
    hide NormalizeKind, Trim;
  }

  /** Replacing or deleting one owner's rows leaves the scopes of all other keys as they are. */
  lemma OtherKeysUnaffected(inv: Inventory, bindings: set<Link>, members: set<Link>, owner: string,
        refs: seq<Reference>, keyID: string)
    requires keyID != owner
    ensures ScopeOf(inv, WithoutOwner(bindings, owner) + LinksOf(owner, refs), members, keyID) ==
      ScopeOf(inv, bindings, members, keyID)
    ensures ScopeOf(inv, WithoutOwner(bindings, owner), members, keyID) == ScopeOf(inv, bindings, members, keyID)
  {
    hide NormalizeKind, Trim, Grant, TargetsOf;
    SameLinksSameScope(inv, bindings, WithoutOwner(bindings, owner) + LinksOf(owner, refs), members, keyID);
    SameLinksSameScope(inv, bindings, WithoutOwner(bindings, owner), members, keyID);
  }

  lemma SameLinksSameScope(inv: Inventory, bindings: set<Link>, after: set<Link>, members: set<Link>, keyID: string)
    requires forall b: Link | b.owner == keyID :: b in bindings <==> b in after
    ensures ScopeOf(inv, after, members, keyID) == ScopeOf(inv, bindings, members, keyID)
  {
    hide TargetsOf, Grant;
    assert KeyTargets(after, members, keyID) == KeyTargets(bindings, members, keyID);
  }

  /** Replacing a group's members changes only what keys bound to the group reach. */
  lemma OtherGroupsUnaffected(bindings: set<Link>, members: set<Link>, group: string, refs: seq<Reference>,
        keyID: string, kind: string, id: string)
    requires Link(keyID, "group", group) !in bindings
    ensures Reaches(bindings, WithoutOwner(members, group) + MembersOf(group, refs), keyID, kind, id) <==>
      Reaches(bindings, members, keyID, kind, id)
  {
    hide NormalizeKind, Trim;
    var after := WithoutOwner(members, group) + MembersOf(group, refs);
    forall g | Link(keyID, "group", g) in bindings ensures Link(g, kind, id) in after <==>
      Link(g, kind, id) in members {
    }
  }

  // ---- deleting a key ----

  /** Deleting a key leaves the sessions of all others, and none of its own. */
  lemma OtherSessionsStay(sessions: map<SessionKey, StoredSession>, keyID: string, k: SessionKey)
    ensures k in OtherSessions(sessions, keyID) <==> k in sessions && k.keyID != keyID
    ensures k in OtherSessions(sessions, keyID) ==> OtherSessions(sessions, keyID)[k] == sessions[k]
  {
  }

  /** Deleting a key changes no other key's sums, and leaves it none. */
  lemma {:induction false} OtherSumsStay(ledger: seq<LedgerRow>, deleted: string, keyID: string, w: Window, now: Moment)
    ensures WindowSum(ChargesOf(OtherRows(ledger, deleted)), keyID, w, now) ==
      if keyID == deleted then 0.0 else WindowSum(ChargesOf(ledger), keyID, w, now)
  {
    if ledger == [] {
      assert OtherRows(ledger, deleted) == [];
    } else {
      var n := |ledger| - 1;
      var rest, last := OtherRows(ledger[..n], deleted), ledger[n];
      OtherSumsStay(ledger[..n], deleted, keyID, w, now);
      assert OtherRows(ledger, deleted) == if last.keyID != deleted then rest + [last] else rest;
      assert ledger == ledger[..n] + [last];
      ChargesAppend(rest, last);
      ChargesAppend(ledger[..n], last);
      hide OtherRows, ChargesOf, InWindow;
      SumAppend(ChargesOf(rest), ChargeOf(last), keyID, w, now);
      SumAppend(ChargesOf(ledger[..n]), ChargeOf(last), keyID, w, now);
    }
  }

  lemma SumAppend(cs: seq<Charge>, c: Charge, keyID: string, w: Window, now: Moment)
    ensures WindowSum(cs + [c], keyID, w, now) ==
      WindowSum(cs, keyID, w, now) + if c.keyID == keyID && InWindow(c, w, now) then c.usd else 0.0
  {
    hide InWindow;
    assert (cs + [c])[..|cs|] == cs;
  }
}
