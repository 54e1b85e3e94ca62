/** The store: its tables, the in-memory cursors, and the operations on them. */
module Store {
  import opened Text
  import opened TimeText
  import opened Tables
  import opened Selection
  import opened Access
  import opened Migration
  import opened InventorySync
  import opened Billing
  import opened Pricing
  import opened Routing
  import opened Quota
  import opened StoreRows

  class Store {
    var keys: map<string, Key>
    var groups: set<string>
    var bindings: set<Link>
    var members: set<Link>
    var inventory: Inventory
    var prices: PriceTable
    var ledger: seq<LedgerRow>
    var sessions: map<SessionKey, StoredSession>
    var routingCursor: Cursors
    const allowUnpriced: bool
    const normalizeURL: string -> string   // normalizeBaseURL, which relies on net/url
    const hashToken: string -> string      // the token digest

    /** What every operation keeps: the schema's constraints and the normal form of the rows. */
    ghost predicate Valid()
      reads this
    {
      Flat(members) && NormalLinks(members, groups) && NormalLinks(bindings, keys.Keys) && UniqueHashes(keys) &&
      CleanRows(inventory) && ValidSessions(sessions, keys.Keys) && ValidLedger(ledger, keys.Keys)
    }

    constructor (allowUnpriced: bool, normalizeURL: string -> string, hashToken: string -> string)
      ensures Valid()
      ensures keys == map[] && groups == {} && bindings == {} && members == {} && inventory == map[]
      ensures prices == map[] && ledger == [] && sessions == map[] && routingCursor == map[]
    {
      keys, groups, bindings, members, inventory := map[], {}, {}, {}, map[];
      prices, ledger, sessions, routingCursor := map[], [], map[], map[];
      this.allowUnpriced, this.normalizeURL, this.hashToken := allowUnpriced, normalizeURL, hashToken;
    }

    ghost function ScopeFor(keyID: string): Scope
      reads this
    {
      ScopeOf(inventory, bindings, members, keyID)
    }

    // ---- bindings and groups ----

    method ReplaceBindings(keyID: string, refs: seq<Reference>)
      requires NormalLinks(bindings, keys.Keys) && keyID in keys
      modifies `bindings
      ensures NormalLinks(bindings, keys.Keys)
      ensures bindings == WithoutOwner(old(bindings), keyID) + LinksOf(keyID, refs)
    {
      ReplacedLinksAreNormal(bindings, keyID, refs, keys.Keys);
      NoLinks(keyID);
      hide *;
      bindings := WithoutOwner(bindings, keyID);
      ghost var others := bindings;
      TakeEnds(refs);
      UnionWithNothing(others);
      for i := 0 to |refs|
        invariant bindings == others + LinksOf(keyID, refs[..i])
      {
        var kind, target := NormalizeKind(refs[i].kind), Trim(refs[i].target);
        LinksAppend(others, keyID, refs[..i], refs[i]);
        TakeNext(refs, i);
        if kind == "" || target == "" {
          continue;
        }
        bindings := bindings + {Link(keyID, kind, target)};
      }
    }

    method ReplaceGroupMembers(groupID: string, refs: seq<Reference>)
      requires NormalLinks(members, groups) && Flat(members) && groupID in groups
      modifies `members
      ensures NormalLinks(members, groups) && Flat(members)
      ensures members == WithoutOwner(old(members), groupID) + MembersOf(groupID, refs)
    {
      ReplacedLinksAreNormal(members, groupID, refs, groups);
      NoLinks(groupID);
      hide *;
      members := WithoutOwner(members, groupID);
      ghost var others := members;
      TakeEnds(refs);
      UnionWithNothing(others);
      for i := 0 to |refs|
        invariant members == others + MembersOf(groupID, refs[..i])
      {
        var kind, target := NormalizeKind(refs[i].kind), Trim(refs[i].target);
        MembersAppend(others, groupID, refs[..i], refs[i]);
        TakeNext(refs, i);
        if kind == "" || target == "" {
          continue;
        }
        if kind == GROUP {
          continue;
        }
        members := members + {Link(groupID, kind, target)};
      }
    }

    /** CreateKey with a fresh identifier; a digest in use is refused. */
    method CreateKey(id: string, key: Key, refs: seq<Reference>) returns (r: Result<string>)
      requires Valid() && id !in keys
      modifies `keys, `bindings
      ensures Valid()
      ensures r == if exists i | i in old(keys) :: old(keys)[i].hash == key.hash then Err(DuplicateKey) else Ok(id)
      ensures r.Ok? ==> keys == old(keys)[id := key] && bindings == old(bindings) + LinksOf(id, refs)
      ensures r.Err? ==> keys == old(keys) && bindings == old(bindings)
    {
      if exists i | i in keys :: keys[i].hash == key.hash {
        return Err(DuplicateKey);
      }
      keys := keys[id := key];
      ReplaceBindings(id, refs);
      assert WithoutOwner(old(bindings), id) == old(bindings);
      return Ok(id);
    }

    method UpdateKeyBindings(id: string, refs: seq<Reference>) returns (r: Result<string>)
      requires Valid()
      modifies `bindings
      ensures Valid()
      ensures r.Ok? <==> Trim(id) in keys
      ensures bindings == if r.Ok? then WithoutOwner(old(bindings), Trim(id)) + LinksOf(Trim(id), refs)
        else old(bindings)
    {
      var keyID := Trim(id);
      if keyID !in keys {
        return Err(KeyNotFound);
      }
      ReplaceBindings(keyID, refs);
      return Ok(keyID);
    }

    /** Deleting a key cascades to its bindings, its sessions and its ledger rows. */
    method DeleteKey(id: string) returns (r: Result<string>)
      requires Valid()
      modifies `keys, `bindings, `sessions, `ledger
      ensures Valid()
      ensures r.Ok? <==> Trim(id) in old(keys)
      ensures keys == old(keys) - {Trim(id)}
      ensures bindings == if r.Ok? then WithoutOwner(old(bindings), Trim(id)) else old(bindings)
      ensures sessions == if r.Ok? then OtherSessions(old(sessions), Trim(id)) else old(sessions)
      ensures ledger == if r.Ok? then OtherRows(old(ledger), Trim(id)) else old(ledger)
    {
      hide NormalLinks, ValidSessions, ValidLedger, UniqueHashes, CleanRows, Flat, OtherRows, OtherSessions,
        WithoutOwner, Trim;
      var keyID := Trim(id);
      if keyID !in keys {
        assert keys - {keyID} == keys;
        return Err(KeyNotFound);
      }
      CascadeKeepsValid(keys, bindings, sessions, keyID);
      OtherRowsValid(ledger, keys.Keys, keyID);
      keys, bindings, sessions, ledger :=
        keys - {keyID}, WithoutOwner(bindings, keyID), OtherSessions(sessions, keyID), OtherRows(ledger, keyID);
      return Ok(keyID);
    }

    /** CreateGroup under the given identifier, or a generated one if that is blank. */
    method CreateGroup(id: string, generated: string, refs: seq<Reference>) returns (r: Result<string>)
      requires Valid()
      modifies `groups, `members
      ensures Valid()
      ensures var groupID := if Trim(id) == "" then generated else Trim(id);
        (r == if groupID in old(groups) then Err(Constraint) else Ok(groupID)) &&
        groups == old(groups) + {groupID} &&
        members == if r.Ok? then old(members) + MembersOf(groupID, refs) else old(members)
    {
      var groupID := if Trim(id) == "" then generated else Trim(id);
      if groupID in groups {
        return Err(Constraint);
      }
      groups := groups + {groupID};
      ReplaceGroupMembers(groupID, refs);
      assert WithoutOwner(old(members), groupID) == old(members);
      return Ok(groupID);
    }

    method UpdateGroupMembers(id: string, refs: seq<Reference>) returns (r: Result<string>)
      requires Valid()
      modifies `members
      ensures Valid()
      ensures r.Ok? <==> Trim(id) in groups
      ensures members == if r.Ok? then WithoutOwner(old(members), Trim(id)) + MembersOf(Trim(id), refs)
        else old(members)
    {
      var groupID := Trim(id);
      if groupID !in groups {
        return Err(NoRows);
      }
      ReplaceGroupMembers(groupID, refs);
      return Ok(groupID);
    }

    /** Deleting a group cascades to its members; bindings to it stay. */
    method DeleteGroup(id: string) returns (r: Result<string>)
      requires Valid()
      modifies `groups, `members
      ensures Valid()
      ensures r.Ok? <==> Trim(id) in old(groups)
      ensures groups == old(groups) - {Trim(id)} && members == WithoutOwner(old(members), Trim(id))
    {
      var groupID := Trim(id);
      if groupID !in groups {
        assert WithoutOwner(members, groupID) == members;
        return Err(NoRows);
      }
      groups := groups - {groupID};
      members := set l | l in members && l.owner != groupID;
      return Ok(groupID);
    }

    // ---- scope resolution ----

    /** applyTarget: adds what one target grants. The recursion is bounded because no group is nested in a group. */
    method ApplyTarget(scope: Scope, kind: string, target: string) returns (out: Scope)
      requires Flat(members)
      ensures out == Extended(scope, inventory, TargetsOf(members, kind, target))
      decreases if NormalizeKind(kind) == GROUP then 1 else 0, 0
    {
      out := scope;
      var targetKind, targetID := NormalizeKind(kind), Trim(target);
      ExtendByOther(scope, inventory, Target("", ""));
      SingleTarget(members, kind, target);
      hide *;
      if targetID == "" {
        return;
      }
      if targetKind == GROUP {
        out := ApplyMembers(scope, targetID);
        GroupTargets(members, kind, target);
      } else if targetKind == AUTH_ID || targetKind == AUTH_FILE {
        out := ApplyAuthFile(scope, targetKind, targetID);
      } else if targetKind == PROVIDER_INSTANCE {
        out := ApplyInstance(scope, targetID);
      } else {
        ExtendByOther(scope, inventory, Target(targetKind, targetID));
      }
    }

    /** The auth-file case of applyTarget. */
    method ApplyAuthFile(scope: Scope, kind: string, id: string) returns (out: Scope)
      requires kind == AUTH_ID || kind == AUTH_FILE
      ensures out == Extended(scope, inventory, {Target(kind, id)})
    {
      hide *;
      ExtendByAuthFile(scope, inventory, kind, id);
      out := scope.(authIDs := scope.authIDs + {id});
      var k := ItemKey(id, AUTH_FILE);
      if k in inventory && NormalizeProvider(inventory[k].provider) != "" {
        out := out.(providers := out.providers + {NormalizeProvider(inventory[k].provider)});
      }
    }

    /** The provider-instance case of applyTarget. */
    method ApplyInstance(scope: Scope, id: string) returns (out: Scope)
      ensures out == Extended(scope, inventory, {Target(PROVIDER_INSTANCE, id)})
    {
      hide *;
      ExtendByInstance(scope, inventory, id);
      out := scope.(providerInstanceIDs := scope.providerInstanceIDs + {id});
      var k := ItemKey(id, PROVIDER_INSTANCE);
      if k in inventory {
        if inventory[k].authID != "" {
          out := out.(authIDs := out.authIDs + {inventory[k].authID});
        }
        if NormalizeProvider(inventory[k].provider) != "" {
          out := out.(providers := out.providers + {NormalizeProvider(inventory[k].provider)});
        }
      }
    }

    /** The group case of applyTarget, in whatever order the members are listed. */
    method ApplyMembers(scope: Scope, groupID: string) returns (out: Scope)
      requires Flat(members)
      ensures out == Extended(scope, inventory, AppliedMembers(members, groupID, {}))
      decreases 0, 1
    {
      out := scope;
      var todo := set m | m in members && m.owner == groupID;
      assert AppliedMembers(members, groupID, todo) == {};
      while todo != {}
        invariant todo <= (set m | m in members && m.owner == groupID)
        invariant out == Extended(scope, inventory, AppliedMembers(members, groupID, todo))
      {
        var m :| m in todo;
        var next := ApplyTarget(out, m.kind, m.target);
        ApplyMember(members, groupID, todo, m);
        ExtendTwice(scope, inventory, AppliedMembers(members, groupID, todo), TargetsOf(members, m.kind, m.target));
        todo := todo - {m};
        out := next;
      }
    }

    /** ResolveScope: whatever order the bindings come in, the scope is the declared union. */
    method ResolveScope(keyID: string) returns (scope: Scope)
      requires Valid()
      ensures scope == ScopeFor(keyID)
    {
      scope := Scope(false, {}, {}, {});
      var todo := set b | b in bindings && b.owner == keyID;
      assert AppliedBindings(bindings, members, keyID, todo) == {};
      while todo != {}
        invariant todo <= (set b | b in bindings && b.owner == keyID)
        invariant scope.hasBindings <==> exists b | b in bindings :: b.owner == keyID && b !in todo
        invariant scope == Grant(inventory, scope.hasBindings, AppliedBindings(bindings, members, keyID, todo))
      {
        var b :| b in todo;
        scope := scope.(hasBindings := true);
        scope := ApplyTarget(scope, b.kind, b.target);
        ApplyBinding(bindings, members, keyID, todo, b);
        GrantUnion(inventory, true, AppliedBindings(bindings, members, keyID, todo),
          TargetsOf(members, b.kind, b.target));
        todo := todo - {b};
      }
      assert AppliedBindings(bindings, members, keyID, {}) == KeyTargets(bindings, members, keyID);
    }

    // ---- inventory ----

    method UpsertInventoryItem(id: string, kind: string, item: Item)
      requires CleanRows(inventory)
      modifies `inventory
      ensures inventory == Upsert(old(inventory), id, kind, item) && CleanRows(inventory)
    {
      var itemID, itemKind := Trim(id), NormalizeKind(kind);
      UpsertKeepsClean(inventory, id, kind, item);
      if itemKind == "" || itemID == "" {
        return;
      }
      inventory := inventory[ItemKey(itemID, itemKind) := Clean(item)];
    }

    /** deleteAuthFileProviderInstances */
    method DeleteAuthFileProviderInstances(aliases: seq<string>)
      requires CleanRows(inventory)
      modifies `inventory
      ensures inventory == DeleteShadows(old(inventory), Names(aliases)) && CleanRows(inventory)
    {
      hide *;
      ShadowsByList(inventory, aliases);
      var authIDs := UniqueNonEmpty(aliases);
      if |authIDs| == 0 {
        return;
      }
      inventory := DeleteListed(inventory, authIDs);
    }

    method UpsertAuthFiles(entries: seq<Entry>)
      requires CleanRows(inventory)
      modifies `inventory
      ensures inventory == Upserted(old(inventory), entries) && CleanRows(inventory)
    {
      var authAliases: seq<string> := [];
      assert entries[..0] == [] && Names([]) == {} == StoredAliases([]) && EntryRows([]) == map[];
      hide Trim, FirstNonEmpty, NormalizeProvider, Unique, Names, EntryRows, StoredAliases, EntryID, Clean, CleanRows,
        Upsert, Upserted, DeleteShadows;
      for i := 0 to |entries|
        invariant CleanRows(inventory) && inventory == old(inventory) + EntryRows(entries[..i])
        invariant Names(authAliases) == StoredAliases(entries[..i])
      {
        var entry := entries[i];
        assert entries[..i + 1] == entries[..i] + [entry];
        EntryRowsAppend(old(inventory), entries[..i], entry);
        StoredAliasesAppend(entries[..i], entry);
        var id := Trim(entry.id);
        if id == "" {
          id := Trim(entry.authIndex);
        }
        if id == "" {
          id := Trim(entry.name);
        }
        EntryIDSteps(entry);
        if id == "" {
          continue;
        }
        var item := Item(NormalizeProvider(FirstNonEmpty([entry.provider, entry.kind])), id, Trim(entry.authIndex),
          Trim(entry.name),
          Trim(entry.labelText), Trim(entry.email), "");
        EntryRowIsClean(entry);
        UpsertTrimmed(inventory, id, AUTH_FILE, item);
        UpsertInventoryItem(id, AUTH_FILE, item);
        NamesConcat(authAliases, StoredNames(entry));
        StoredNamesAreAliases(entry);
        authAliases := authAliases + ([id, item.authID, item.authIndex, item.name] + if entry.path == "" then []
          else [Base(entry.path)]);
      }
      assert entries[..|entries|] == entries;
      DeleteAuthFileProviderInstances(authAliases);
      UpsertedIs(old(inventory), entries);
    }

    /** migrateAuthFileReferences: per alias, copy the references to the auth file, then drop the old ones. */
    method MigrateAuthFileReferences(entries: seq<Entry>)
      modifies `bindings, `members
      ensures bindings == Renamed(entries, old(bindings)) && members == Renamed(entries, old(members))
    {
      NothingRenamed(bindings);
      NothingRenamed(members);
      assert entries[..0] == [];
      hide Renamed, Migrates, EntryID, EntryProvider, Aliases;
      for i := 0 to |entries|
        invariant bindings == Renamed(entries[..i], old(bindings)) && members == Renamed(entries[..i], old(members))
      {
        var entry := entries[i];
        ghost var b, m := bindings, members;
        MigrateEntry(entry);
        assert entries[..i + 1] == entries[..i] + [entry];
        MoveEntry(entries[..i], entry, old(bindings), bindings);
        MoveEntry(entries[..i], entry, old(members), members);
      }
      assert entries[..|entries|] == entries;
    }

    /** The inner loop of the migration, over the aliases of one entry. */
    method MigrateEntry(entry: Entry)
      modifies `bindings, `members
      ensures if Migrates(entry)
        then Moved(old(bindings), bindings, entry, Aliases(entry)) &&
          Moved(old(members), members, entry, Aliases(entry))
        else bindings == old(bindings) && members == old(members)
    {
      var authID := Trim(FirstNonEmpty([entry.id, entry.authIndex, entry.name]));
      var provider := NormalizeProvider(FirstNonEmpty([entry.provider, entry.kind]));
      if authID == "" || provider == "" {
        return;
      }
      assert authID == EntryID(entry) && provider == EntryProvider(entry) && Migrates(entry);
      var aliases := [entry.id, entry.authIndex, entry.name] + if entry.path == "" then [] else [Base(entry.path)];
      var names := UniqueNonEmpty(aliases);
      assert names == Aliases(entry);
      MoveAliases(entry, authID, provider, names);
    }

    method MoveAliases(entry: Entry, authID: string, provider: string, names: seq<string>)
      requires Migrates(entry) && authID == EntryID(entry) && provider == EntryProvider(entry) &&
        names == Aliases(entry)
      modifies `bindings, `members
      ensures Moved(old(bindings), bindings, entry, names) && Moved(old(members), members, entry, names)
    {
      hide *;
      MovedNothing(bindings, entry);
      MovedNothing(members, entry);
      for j := 0 to |names|
        invariant Moved(old(bindings), bindings, entry, names[..j]) && Moved(old(members), members, entry, names[..j])
      {
        var providerID := ProviderInstanceID(normalizeURL, provider, names[j], "", "");
        AliasInstance(normalizeURL, entry, names[j]);
        MoveOne(old(bindings), bindings, entry, names[..j], names[j]);
        MoveOne(old(members), members, entry, names[..j], names[j]);
        assert names[..j + 1] == names[..j] + [names[j]];
        bindings := Copied(bindings, providerID, authID);
        bindings := Dropped(bindings, providerID);
        members := Copied(members, providerID, authID);
        members := Dropped(members, providerID);
      }
      assert names[..|names|] == names;
    }

    /** SyncAuthFiles: the entries are the host's complete list of auth files. */
    method SyncAuthFiles(entries: seq<Entry>)
      requires Valid()
      modifies `inventory, `bindings, `members
      ensures Valid()
      ensures inventory == Synced(old(inventory), entries)
      ensures bindings == Renamed(entries, old(bindings)) && members == Renamed(entries, old(members))
    {
      hide Names, EntryIDs, EntryAliases, CleanRows, NormalLinks, Flat, ValidSessions, ValidLedger, UniqueHashes,
        Synced, SyncPhases, Upserted, DeleteShadows, Listed, AuthFileNames, Renamed;
      RenamedIsNormal(entries, bindings, keys.Keys);
      RenamedIsNormal(entries, members, groups);
      SyncPhasesAre(inventory, entries);
      PhasesAreSynced(inventory, entries);
      var aliases := CollectAuthFileNames();
      UpsertAuthFiles(entries);
      MigrateAuthFileReferences(entries);
      var currentIDs: seq<string>;
      currentIDs, aliases := ListEntries(entries, aliases);
      DeleteAuthFileProviderInstances(aliases);
      ListedIsClean(inventory, Names(currentIDs));
      DeleteUnlisted(currentIDs);
    }

    /** The middle loop of SyncAuthFiles: the identifiers of the entries, and all their names after the stored ones. */
    method ListEntries(entries: seq<Entry>, stored: seq<string>) returns (currentIDs: seq<string>, aliases: seq<string>)
      ensures Names(currentIDs) == EntryIDs(entries)
      ensures Names(aliases) == Names(stored) + EntryAliases(entries)
    {
      currentIDs, aliases := [], stored;
      SyncListsStart();
      TakeEnds(entries);
      UnionWithNothing(Names(stored));
      hide *;
      for i := 0 to |entries|
        invariant Names(currentIDs) == EntryIDs(entries[..i])
        invariant Names(aliases) == Names(stored) + EntryAliases(entries[..i])
      {
        var entry := entries[i];
        SyncListsStep(currentIDs, stored, aliases, entries[..i], entry);
        TakeNext(entries, i);
        var id := FirstNonEmpty([entry.id, entry.authIndex, entry.name]);
        if id != "" {
          currentIDs := currentIDs + [id];
        }
        aliases := aliases + RawAliases(entry);
      }
    }

    /** The last statement of SyncAuthFiles. */
    method DeleteUnlisted(currentIDs: seq<string>)
      modifies `inventory
      ensures inventory == Listed(old(inventory), Names(currentIDs))
    {
      var ids := UniqueNonEmpty(currentIDs);
      if |ids| == 0 {
        inventory := map k | k in inventory && k.kind != AUTH_FILE :: inventory[k];
      } else {
        inventory := map k | k in inventory && !(k.kind == AUTH_FILE && k.id !in ids) :: inventory[k];
      }
    }

    /** The query at the start of SyncAuthFiles, in whatever order the rows come. */
    method CollectAuthFileNames() returns (aliases: seq<string>)
      ensures Names(aliases) == AuthFileNames(inventory)
    {
      aliases := [];
      var todo := set k | k in inventory && k.kind == AUTH_FILE;
      NamesLeft(inventory, todo);
      while todo != {}
        invariant todo <= (set k | k in inventory && k.kind == AUTH_FILE)
        invariant Names(aliases) == NamesWithout(inventory, todo)
      {
        var k :| k in todo;
        NamesConcat(aliases, RowNames(k, inventory[k]));
        NamesOneMore(inventory, todo, k);
        aliases := aliases + [k.id, inventory[k].authID, inventory[k].authIndex, inventory[k].name];
        todo := todo - {k};
      }
      NamesLeft(inventory, todo);
    }

    /** authFileByCandidate: one best-ranked auth file, whichever the query returns first. */
    method AuthFileByCandidate(authID: string) returns (found: bool, k: ItemKey)
      ensures found <==> HasAuthFile(inventory, authID)
      ensures found ==> BestAuthFile(inventory, k, authID)
    {
      found, k := false, ItemKey("", "");
      var todo := inventory.Keys;
      while todo != {}
        invariant todo <= inventory.Keys
        invariant BestOutside(inventory, todo, authID, found, k)
      {
        var j :| j in todo;
        if j.kind == AUTH_FILE && Rank(j, inventory[j], authID) < 4 &&
          (!found || Rank(j, inventory[j], authID) < Rank(k, inventory[k], authID)) {
          found, k := true, j;
        }
        todo := todo - {j};
      }
      BestOfAll(inventory, authID, found, k);
    }

    /** UpsertProviderCandidates: what the inventory learns from the candidates of one request. */
    method UpsertProviderCandidates(candidates: seq<Candidate>)
      requires CleanRows(inventory)
      modifies `inventory
      ensures LearnedAll(normalizeURL, old(inventory), candidates, inventory) && CleanRows(inventory)
    {
      LearnedNothing(normalizeURL, inventory);
      assert candidates[..0] == [];
      hide LearnedAll, CleanRows;
      for i := 0 to |candidates|
        invariant CleanRows(inventory) && LearnedAll(normalizeURL, old(inventory), candidates[..i], inventory)
      {
        ghost var before := inventory;
        LearnCandidate(candidates[i]);
        LearnedNext(normalizeURL, old(inventory), candidates[..i], before, candidates[i], inventory);
        assert candidates[..i + 1] == candidates[..i] + [candidates[i]];
      }
      assert candidates[..|candidates|] == candidates;
    }

    method LearnCandidate(candidate: Candidate)
      requires CleanRows(inventory)
      modifies `inventory
      ensures Learned(normalizeURL, old(inventory), candidate, inventory) && CleanRows(inventory)
    {
      hide CleanRows, Upsert, HasAuthFile, ProviderInstanceID, NormalizeProvider, Trim, Rank;
      var provider, authID := NormalizeProvider(candidate.provider), Trim(candidate.id);
      if provider == "" || authID == "" {
        return;
      }
      var authIndex, baseURL := AuthIndexOf(candidate), BaseURLOf(candidate);
      var found, k := AuthFileByCandidate(authID);
      if found {
        LearnsAuthFile(normalizeURL, inventory, candidate, k);
        UpsertInventoryItem(k.id, k.kind, inventory[k].(provider := provider));
        return;
      }
      var itemID := ProviderInstanceID(normalizeURL, provider, authID, authIndex, baseURL);
      var item := Item(provider, authID, authIndex, "", "", "", baseURL);
      InstanceKeyIsTrimmed(normalizeURL, candidate);
      var existing := ItemKey(Trim(itemID), PROVIDER_INSTANCE);
      if existing in inventory {
        item := item.(name := inventory[existing].name, labelText := inventory[existing].labelText, email :=
          inventory[existing].email);
        if item.authIndex == "" {
          item := item.(authIndex := inventory[existing].authIndex);
        }
        if item.baseURL == "" {
          item := item.(baseURL := inventory[existing].baseURL);
        }
      }
      UpsertInventoryItem(itemID, PROVIDER_INSTANCE, item);
    }

    // ---- prices ----

    method UpsertPriceRules(rules: seq<Rule>)
      modifies `prices
      ensures prices == Apply(old(prices), rules)
    {
      assert rules[..0] == [];
      for i := 0 to |rules|
        invariant prices == Apply(old(prices), rules[..i])
      {
        assert rules[..i + 1][..i] == rules[..i];
        var provider, model := NormalizeProvider(rules[i].provider), Trim(rules[i].model);
        if provider == "" || model == "" {
          continue;
        }
        prices := prices[PriceKey(provider, model) := rules[i].prices];
      }
      assert rules[..|rules|] == rules;
    }

    method ReplacePriceRules(rules: seq<Rule>)
      modifies `prices
      ensures prices == Apply(map[], rules)
    {
      prices := map[];
      UpsertPriceRules(rules);
    }

    /** PriceRule: the exact rule, then the rule of the official provider. */
    method PriceRule(provider: string, model: string) returns (found: Found)
      ensures found == Lookup(prices, provider, model)
    {
      var p, m := NormalizeProvider(provider), Trim(model);
      NormalizeProviderTwice(provider);
      hide NormalizeProvider, Trim;
      if PriceKey(p, m) in prices {
        return Price(prices[PriceKey(p, m)]);
      }
      var official := Official(NormalizeProvider(p));
      if official == p {
        return Missing;
      }
      if PriceKey(official, m) in prices {
        return Price(prices[PriceKey(official, m)]);
      }
      return Missing;
    }

    /**
     * ValidateBindingsAndPricing: a bound, limited key may only ask for models that some provider of its scope prices.
     */
    method ValidateBindingsAndPricing(keyID: string, limits: Limits, requestedModel: string) returns (accepted: bool)
      requires Valid()
      ensures accepted <==> Admits(prices, ScopeFor(keyID), LimitsEnabled(limits), allowUnpriced, requestedModel)
    {
      var scope := ResolveScope(keyID);
      hide Valid, ScopeOf, Lookup, Trim, LimitsEnabled;
      if !scope.hasBindings {
        return true;
      }
      var model := Trim(requestedModel);
      if model == "" || !LimitsEnabled(limits) || allowUnpriced {
        return true;
      }
      accepted := SomePriced(scope.providers, model);
    }

    /** The loop of ValidateBindingsAndPricing, in whatever order the providers come. */
    method SomePriced(providers: set<string>, model: string) returns (found: bool)
      ensures found <==> exists p | p in providers :: Lookup(prices, p, model).Price?
    {
      hide *;
      var todo := providers;
      while todo != {}
        invariant todo <= providers
        invariant forall p | p in providers && p !in todo :: !Lookup(prices, p, model).Price?
      {
        var provider :| provider in todo;
        var rule := PriceRule(provider, model);
        if rule.Price? {
          return true;
        }
        todo := todo - {provider};
      }
      return false;
    }

    // ---- quota ----

    /** SUM(usd) over the key's rows, from a creation text on. */
    method SumFromText(keyID: string, w: Window, now: Moment) returns (sum: real)
      requires ValidLedger(ledger, keys.Keys)
      ensures sum == WindowSum(ChargesOf(ledger), keyID, w, now)
    {
      NoSum(ledger, keyID, w, now);
      hide *;
      sum := 0.0;
      for i := 0 to |ledger|
        invariant sum == WindowSum(ChargesOf(ledger)[..i], keyID, w, now)
      {
        WindowSumStep(ledger, keys.Keys, i, keyID, w, now);
        if ledger[i].keyID == keyID && (w == Total || Leq(Format(Cut(w, now)), ledger[i].createdAt)) {
          sum := sum + ledger[i].usd;
        }
      }
      assert ChargesOf(ledger)[..|ledger|] == ChargesOf(ledger);
    }

    /** CheckQuota: the first window that is used up, if any. */
    method CheckQuota(keyID: string, limits: Limits, now: Moment) returns (r: Result<string>)
      requires ValidLedger(ledger, keys.Keys)
      ensures r.Ok? <==> !Exceeded(ChargesOf(ledger), keyID, limits, now)
      ensures r.Err? ==> r.error.QuotaExceeded? && FirstReached(ChargesOf(ledger), keyID, limits, now, r.error.window)
    {
      var fiveHour := SumFromText(keyID, FiveHour, now);
      var weekly := SumFromText(keyID, Weekly, now);
      var total := SumFromText(keyID, Total, now);
      hide WindowSum, ChargesOf, ValidLedger;
      if Reached(limits.fiveHour, fiveHour) {
        return Err(QuotaExceeded(FiveHour));
      }
      if Reached(limits.weekly, weekly) {
        return Err(QuotaExceeded(Weekly));
      }
      if Reached(limits.total, total) {
        return Err(QuotaExceeded(Total));
      }
      return Ok(keyID);
    }

    /** The key a presented token belongs to. */
    ghost predicate KeyFor(id: string, token: string)
      reads this
    {
      Trim(token) != "" && id in keys && keys[id].hash == hashToken(Trim(token))
    }

    /** KeyByPresentedToken */
    method KeyByPresentedToken(token: string) returns (r: Result<string>)
      requires Valid()
      ensures r.Ok? ==> KeyFor(r.value, token) && forall id | KeyFor(id, token) :: id == r.value
      ensures r.Err? ==> r.error == KeyNotFound && forall id :: !KeyFor(id, token)
    {
      hide Trim, NormalLinks, Flat, CleanRows, ValidSessions, ValidLedger;
      var presented := Trim(token);
      if presented == "" {
        return Err(KeyNotFound);
      }
      var hash := hashToken(presented);
      if id :| id in keys && keys[id].hash == hash {
        return Ok(id);
      }
      return Err(KeyNotFound);
    }

    /** Why a presented token is refused. */
    ghost predicate Refused(e: Error, token: string, requestedModel: string, now: Moment)
      reads this
    {
      match e
      case KeyNotFound => forall id :: !KeyFor(id, token)
      case KeyDisabled => exists id :: KeyFor(id, token) && !keys[id].enabled
      case QuotaExceeded(w) => exists id ::
        KeyFor(id, token) && keys[id].enabled && FirstReached(ChargesOf(ledger), id, keys[id].limits, now, w)
      case MissingPriceRule => exists id ::
        KeyFor(id, token) && keys[id].enabled && WithinQuota(id, now) && !Priced(id, requestedModel)
      case _ => false
    }

    ghost predicate WithinQuota(id: string, now: Moment)
      requires id in keys
      reads this
    {
      !Exceeded(ChargesOf(ledger), id, keys[id].limits, now)
    }

    ghost predicate Priced(id: string, requestedModel: string)
      requires id in keys
      reads this
    {
      Admits(prices, ScopeFor(id), LimitsEnabled(keys[id].limits), allowUnpriced, requestedModel)
    }

    /** Authenticate: a known, enabled key, within its quota, whose model some provider of its scope prices. */
    method Authenticate(token: string, requestedModel: string, now: Instant, clock: Moment) returns (r: Result<string>)
      requires Valid() && (now == ZERO_TIME || ZERO_TIME + WEEK < now)
      ensures r.Ok? ==>
        KeyFor(r.value, token) && keys[r.value].enabled && WithinQuota(r.value, Reading(now, clock)) &&
          Priced(r.value, requestedModel)
      ensures r.Err? ==> Refused(r.error, token, requestedModel, Reading(now, clock))
    {
      hide Trim, NormalLinks, Flat, CleanRows, ValidSessions, ValidLedger, UniqueHashes, ChargesOf, Exceeded,
        FirstReached, Admits, ScopeOf, LimitsEnabled;
      r := KeyByPresentedToken(token);
      if r.Err? {
        return;
      }
      var id := r.value;
      if !keys[id].enabled {
        return Err(KeyDisabled);
      }
      r := CheckQuota(id, keys[id].limits, Reading(now, clock));
      if r.Err? {
        return;
      }
      var accepted := ValidateBindingsAndPricing(id, keys[id].limits, requestedModel);
      return if accepted then Ok(id) else Err(MissingPriceRule);
    }

    /** RecordUsage: one more ledger row; a key that no longer exists is refused. */
    method RecordUsage(entry: Usage, clock: Moment) returns (r: Result<LedgerRow>)
      requires Valid()
      modifies `ledger
      ensures Valid()
      ensures r.Ok? <==> entry.keyID in keys
      ensures r.Err? ==> ledger == old(ledger)
      ensures r.Ok? ==> ledger == old(ledger) + [r.value]
      ensures r.Ok? ==> var k := ItemKey(Trim(entry.authID), AUTH_FILE);
        r.value.provider == if NormalizeProvider(entry.provider) == "" && entry.authID != "" && k in inventory
          then inventory[k].provider else NormalizeProvider(entry.provider)
      ensures r.Ok? ==> r.value.keyID == entry.keyID && r.value.createdAt == Format(Reading(entry.createdAt, clock))
      ensures r.Ok? ==> r.value.detail == entry.detail.(cacheRead := CacheRead(entry.detail))
      ensures r.Ok? ==>
        r.value.authID == entry.authID && r.value.authIndex == entry.authIndex && r.value.model == entry.model
      ensures r.Ok? ==> r.value.instanceID == if entry.instanceID == "" && r.value.provider != "" && entry.authID != ""
        then ProviderInstanceID(normalizeURL, r.value.provider, entry.authID, entry.authIndex, "") else entry.instanceID
      // without a price rule the reported cost is booked
      ensures r.Ok? && Lookup(prices, r.value.provider, entry.model).Missing? ==> r.value.usd == entry.usd
      // with one the reported cost is ignored, and the row's own counts are charged at the rule's prices
      ensures r.Ok? && Lookup(prices, r.value.provider, entry.model).Price? ==>
        var p, d := Lookup(prices, r.value.provider, entry.model).prices, r.value.detail;
        var billed := if d.input >= d.cacheRead then d.input - d.cacheRead
          else if d.input - d.cacheRead >= -0x8000_0000_0000_0000 then 0
          else d.input - d.cacheRead + 0x1_0000_0000_0000_0000;
        r.value.usd == PerMillion(billed, p.input) + PerMillion(if d.output > 0 then d.output else 0, p.output) +
          PerMillion(d.cacheRead, p.cacheRead)
      ensures r.Ok? ==>
        ChargesOf(ledger) == ChargesOf(old(ledger)) +
          [Charge(entry.keyID, r.value.usd, Reading(entry.createdAt, clock))]
    {
      hide ChargesOf, ValidLedger, ValidSessions, NormalLinks, CleanRows, UniqueHashes, Flat, Trim, NormalizeProvider,
        ProviderInstanceID,
        CalculateUSD, PerMillion, CacheRead, Lookup, WellTimed, Format, ParseTime;
      var createdAt := Reading(entry.createdAt, clock);
      var provider := NormalizeProvider(entry.provider);
      if provider == "" && entry.authID != "" {
        var k := ItemKey(Trim(entry.authID), AUTH_FILE);
        if k in inventory {
          provider := inventory[k].provider;
        }
      }
      var instanceID := entry.instanceID;
      if instanceID == "" && provider != "" && entry.authID != "" {
        instanceID := ProviderInstanceID(normalizeURL, provider, entry.authID, entry.authIndex, "");
      }
      var detail := entry.detail.(cacheRead := CacheRead(entry.detail));
      var rule := PriceRule(provider, entry.model);
      var usd := entry.usd;
      if rule.Price? {
        usd := CalculateUSD(rule.prices, detail);
        NormalizingKeepsCost(rule.prices, entry.detail);
        CostExactly(rule.prices, detail);
      }
      if entry.keyID !in keys {
        return Err(Constraint);
      }
      var row := LedgerRow(entry.keyID, entry.authID, entry.authIndex, provider, instanceID, entry.model, detail, usd,
        Format(createdAt));
      StoredTime(createdAt);
      LedgerAppend(ledger, keys.Keys, row);
      ChargesAppend(ledger, row);
      ledger := ledger + [row];
      return Ok(row);
    }

    // ---- routing ----

    /** The sessions and cursors as the routing protocol sees them. */
    ghost function View(): Router
      reads this
    {
      Router(SessionsOf(sessions), routingCursor)
    }

    method NextRoutingValue(cursorKey: string, values: seq<string>) returns (value: string)
      requires values != []
      modifies `routingCursor
      ensures value == values[At(old(routingCursor), cursorKey) % |values|]
      ensures routingCursor == Bump(old(routingCursor), cursorKey)
    {
      var cursor := if cursorKey in routingCursor then routingCursor[cursorKey] else 0;
      value := values[cursor % |values|];
      routingCursor := routingCursor[cursorKey := (cursor + 1) % TWO64];
    }

    /**
     * nextCandidate rotates over identifiers and maps the chosen one back; a later candidate replaces an earlier one of
     * the same identifier.
     */
    method NextCandidate(keyID: string, model: string, provider: string, priority: int, candidates: seq<Candidate>)
          returns (c: Candidate)
      requires candidates != []
      modifies `routingCursor
      ensures var key := AuthCursor(keyID, model, provider, priority);
        routingCursor == Bump(old(routingCursor), key) &&
        var d := candidates[At(old(routingCursor), key) % |candidates|];
        d in candidates && c == LastWithID(candidates, d.id)
    {
      hide *;
      var ids, byID := IndexByID(candidates);
      var key := AuthCursor(keyID, model, provider, priority);
      var id := NextRoutingValue(key, ids);
      assert candidates[At(old(routingCursor), key) % |candidates|] in candidates;
      c := byID[id];
    }

    /** The loop of nextCandidate. */
    static method IndexByID(candidates: seq<Candidate>) returns (ids: seq<string>, byID: map<string, Candidate>)
      ensures |ids| == |candidates| && forall j | 0 <= j < |ids| :: ids[j] == candidates[j].id
      ensures forall d | d in candidates :: d.id in byID && byID[d.id] == LastWithID(candidates, d.id)
    {
      hide *;
      ids, byID := [], map[];
      TakeEnds(candidates);
      IndexNothing();
      for i := 0 to |candidates|
        invariant |ids| == i && forall j | 0 <= j < i :: ids[j] == candidates[j].id
        invariant Indexes(byID, candidates[..i])
      {
        TakeNext(candidates, i);
        IndexOne(byID, candidates[..i], candidates[i]);
        ids := ids + [candidates[i].id];
        byID := byID[candidates[i].id := candidates[i]];
      }
      IndexFinds(byID, candidates);
    }

    method LoadRoutingSession(k: SessionKey) returns (found: bool, row: Row)
      requires ValidSessions(sessions, keys.Keys)
      ensures found <==> k in SessionsOf(sessions)
      ensures found ==> row == SessionsOf(sessions)[k]
    {
      hide Format, ParseTime;
      found, row := false, Row("", "", ZERO_TIME);
      if k in sessions {
        var parsed := ParseTime(sessions[k].expiresAt);
        if parsed == ZERO_TIME {
          return;
        }
        found, row := true, Row(sessions[k].provider, sessions[k].authID, parsed);
      }
    }

    method SaveRoutingSession(k: SessionKey, provider: string, authID: string, now: Clock)
      requires ValidSessions(sessions, keys.Keys) && k.keyID in keys && k.hash != ""
      modifies `sessions
      ensures ValidSessions(sessions, keys.Keys)
      ensures SessionsOf(sessions) == SessionsOf(old(sessions))[k := Row(provider, authID, now + TTL)]
    {
      hide *;
      SessionSaved(sessions, keys.Keys, k, provider, authID, now);
      sessions := sessions[k := StoredSession(provider, authID, Format(now + TTL))];
    }

    method DeleteExpiredRoutingSessions(now: Clock)
      requires ValidSessions(sessions, keys.Keys)
      modifies `sessions
      ensures ValidSessions(sessions, keys.Keys)
      ensures SessionsOf(sessions) == Collect(SessionsOf(old(sessions)), now)
    {
      hide *;
      SessionsCollected(sessions, keys.Keys, now);
      sessions := map k | k in sessions && !Leq(sessions[k].expiresAt, Format(now)) :: sessions[k];
    }

    /** The locked part of ChooseProviderRouted is the route step of the protocol. */
    method RouteStep(keyID: string, model: string, allowed: seq<string>, hash: string, now: Clock)
          returns (provider: string)
      requires ValidSessions(sessions, keys.Keys) && keyID in keys && allowed != [] && StrictlySorted(allowed)
      modifies `sessions, `routingCursor
      ensures ValidSessions(sessions, keys.Keys)
      ensures (View(), Provider(provider)) == Step(old(View()), Route(keyID, model, allowed, hash, now), true)
    {
      hide ValidSessions, StrictlySorted, SessionsOf, Collect, ProviderCursor, At, Bump, FirstMatch;
      var cursorKey := ProviderCursor(keyID, model);
      if hash == "" {
        provider := NextRoutingValue(cursorKey, allowed);
        return;
      }
      var k := SessionKey(keyID, hash);
      var found, mapped := LoadRoutingSession(k);
      if found && mapped.expiresAt > now {
        var usable := ContainsString(allowed, mapped.provider);
        if usable {
          SaveRoutingSession(k, mapped.provider, mapped.authID, now);
          return mapped.provider;
        }
      }
      provider := NextRoutingValue(cursorKey, allowed);
      SaveRoutingSession(k, provider, "", now);
      DeleteExpiredRoutingSessions(now);
    }

    /** The locked part of PickCandidateRouted, after the selection, is the pick step of the protocol. */
    method PickStep(keyID: string, model: string, provider: string, top: seq<Candidate>, hash: string, now: Clock)
          returns (c: Candidate)
      requires ValidSessions(sessions, keys.Keys) && keyID in keys && top != []
      modifies `sessions, `routingCursor
      ensures ValidSessions(sessions, keys.Keys)
      ensures (View(), Account(c)) == Step(old(View()), Pick(keyID, model, provider, top, hash, now), true)
    {
      hide ValidSessions, SessionsOf, Collect, AuthCursor, At, Bump, FirstMatch, LastWithID;
      if hash == "" {
        c := NextCandidate(keyID, model, provider, top[0].priority, top);
        return;
      }
      var k := SessionKey(keyID, hash);
      var found, mapped := LoadRoutingSession(k);
      if found && mapped.expiresAt > now {
        for i := 0 to |top|
          invariant sessions == old(sessions) && routingCursor == old(routingCursor)
          invariant forall j | 0 <= j < i :: !Matches(top[j], mapped)
        {
          if top[i].id == mapped.authID && (mapped.provider == "" || top[i].provider == mapped.provider) {
            SaveRoutingSession(k, top[i].provider, top[i].id, now);
            return top[i];
          }
        }
      }
      c := NextCandidate(keyID, model, provider, top[0].priority, top);
      SaveRoutingSession(k, c.provider, c.id, now);
      DeleteExpiredRoutingSessions(now);
    }

    // ---- the two routed calls ----

    /** The providers ChooseProviderRouted may use, in whatever order the scope lists them, then sorted. */
    method AllowedList(scope: Scope, limits: Limits, requestedModel: string, available: seq<string>)
          returns (allowed: seq<string>)
      ensures allowed == SortedList(AllowedProviders(prices, scope, LimitsEnabled(limits), allowUnpriced,
        requestedModel, available))
    {
      hide NormalizeProvider, Trim, Lookup, LimitsEnabled;
      ghost var wanted := AllowedProviders(prices, scope, LimitsEnabled(limits), allowUnpriced, requestedModel,
        available);
      var availableSet := AvailableSet(available);
      var names: seq<string> := [];
      var todo := scope.providers;
      while todo != {}
        invariant todo <= scope.providers
        invariant Distinct(names) && forall p :: p in names <==> p in wanted && p !in todo
      {
        var provider :| provider in todo;
        todo := todo - {provider};
        if provider == "" {
          continue;
        }
        if |availableSet| > 0 {
          if provider !in availableSet {
            continue;
          }
        }
        if LimitsEnabled(limits) && !allowUnpriced && Trim(requestedModel) != "" {
          var rule := PriceRule(provider, requestedModel);
          if rule.Missing? {
            continue;
          }
        }
        names := names + [provider];
      }
      allowed := SortStrings(names);
      SortStringsSorted(names);
      SortedListUnique(allowed, wanted);
    }

    /**
     * ChooseProviderRouted: refusals change nothing; otherwise the call is one route step over the sorted allowed
     * providers.
     */
    method ChooseProviderRouted(keyID: string, requestedModel: string, available: seq<string>, sessionHash: string,
          now: Instant, clock: Clock)
      returns (r: Result<string>)
      requires Valid() && (now == ZERO_TIME || (ZERO_TIME < now && now + TTL < END))
      modifies `sessions, `routingCursor
      ensures Valid()
      ensures r.Err? ==> View() == old(View())
      ensures Trim(keyID) !in keys <==> r == Err(KeyNotFound)
      ensures Trim(keyID) in keys ==>
        var scope := ScopeFor(keyID);
        var allowed := AllowedProviders(prices, scope, LimitsEnabled(keys[Trim(keyID)].limits), allowUnpriced,
          requestedModel, available);
        if !scope.hasBindings then r == Err(NoBindings)
        else if allowed == {} then r == Err(NoAllowedTarget)
        else
          r.Ok? && (View(), Provider(r.value)) ==
            Step(old(View()), Route(keyID, Trim(requestedModel), SortedList(allowed), Trim(sessionHash),
              Reading(now, clock)), true)
    {
      hide NormalLinks, Flat, CleanRows, ValidSessions, ValidLedger, UniqueHashes, Trim, ScopeOf, AllowedProviders,
        LimitsEnabled, Step, SessionsOf, StrictlySorted;
      var id := Trim(keyID);
      if id !in keys {
        return Err(KeyNotFound);
      }
      var scope := ResolveScope(keyID);
      if !scope.hasBindings {
        return Err(NoBindings);
      }
      var allowed := AllowedList(scope, keys[id].limits, requestedModel, available);
      if |allowed| == 0 {
        return Err(NoAllowedTarget);
      }
      BoundKeysExist(bindings, keys.Keys, inventory, members, keyID);
      var provider := RouteStep(keyID, Trim(requestedModel), allowed, Trim(sessionHash), Reading(now, clock));
      return Ok(provider);
    }

    /** The candidates a pick rotates over: match, sort, and keep the top priority in place. */
    method TopCandidates(scope: Scope, provider: string, candidates: seq<Candidate>) returns (top: seq<Candidate>)
      ensures top == Top(Eligible(normalizeURL, scope, provider, candidates))
    {
      hide Allows, StableSort, Leading;
      var matched: seq<Candidate> := [];
      assert candidates[..0] == [];
      for i := 0 to |candidates|
        invariant matched == Eligible(normalizeURL, scope, provider, candidates[..i])
      {
        assert candidates[..i + 1][..i] == candidates[..i];
        var candidate := candidates[i];
        if provider != "" && candidate.provider != provider {
          continue;
        }
        if Allows(normalizeURL, scope, candidate) {
          matched := matched + [candidate];
        }
      }
      assert candidates[..|candidates|] == candidates;
      if |matched| == 0 {
        TopIsMaximal(matched);
        return [];
      }
      var sorted := StableSort(matched);
      SameMembers(sorted, matched);
      var slice := new Candidate[|sorted|](i requires 0 <= i < |sorted| => sorted[i]);
      assert slice[..] == sorted;
      var kept := KeepTop(slice);
      top := slice[..kept];
    }

    /**
     * PickCandidateRouted: the scope is resolved before the candidates are learned; refusals leave sessions and cursors
     * alone; otherwise the call is one pick step over the authorised, matching candidates of top priority.
     */
    method PickCandidateRouted(keyID: string, model: string, provider: string, sessionHash: string,
          candidates: seq<Candidate>, now: Instant, clock: Clock)
      returns (r: Result<Candidate>)
      requires Valid() && (now == ZERO_TIME || (ZERO_TIME < now && now + TTL < END))
      modifies `inventory, `sessions, `routingCursor
      ensures Valid()
      ensures r.Err? ==> View() == old(View())
      ensures !old(ScopeFor(keyID)).hasBindings ==> r == Err(NoBindings) && inventory == old(inventory)
      ensures old(ScopeFor(keyID)).hasBindings ==> LearnedAll(normalizeURL, old(inventory), candidates, inventory)
      ensures old(ScopeFor(keyID)).hasBindings ==>
        var top := Top(Eligible(normalizeURL, old(ScopeFor(keyID)), Trim(provider), candidates));
        if top == [] then r == Err(NoAllowedTarget)
        else
          r.Ok? && (View(), Account(r.value)) ==
            Step(old(View()), Pick(keyID, Trim(model), Trim(provider), top, Trim(sessionHash), Reading(now, clock)),
              true)
    {
      hide NormalLinks, Flat, CleanRows, ValidSessions, ValidLedger, UniqueHashes, Trim, ScopeOf, LearnedAll, Top,
        Eligible, Step, SessionsOf;
      var scope := ResolveScope(keyID);
      if !scope.hasBindings {
        return Err(NoBindings);
      }
      BoundKeysExist(bindings, keys.Keys, inventory, members, keyID);
      UpsertProviderCandidates(candidates);
      var top := TopCandidates(scope, Trim(provider), candidates);
      if |top| == 0 {
        return Err(NoAllowedTarget);
      }
      var c := PickStep(keyID, Trim(model), Trim(provider), top, Trim(sessionHash), Reading(now, clock));
      return Ok(c);
    }
  }
}
