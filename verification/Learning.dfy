/** What learning from candidates does to permissions, and what a learning step does that overlaps a synchronisation. */
module Learning {
  import opened Text
  import opened Tables
  import opened Migration
  import opened Access
  import opened InventorySync

  /** Provider-instance rows are named provider:authID with a colon-free provider. */
  ghost predicate WellNamed(inv: Inventory) {
    forall k | k in inv && k.kind == PROVIDER_INSTANCE ::
      ColonFree(inv[k].provider) && inv[k].provider != "" && inv[k].authID != "" &&
        k.id == inv[k].provider + ":" + inv[k].authID
  }

  ghost predicate ColonFreeProviders(cs: seq<Candidate>) {
    forall i | 0 <= i < |cs| :: ColonFree(NormalizeProvider(cs[i].provider))
  }

  /** The candidates learned from and the one asked about agree on the provider of the latter's identifier. */
  ghost predicate SameOwner(cs: seq<Candidate>, c: Candidate) {
    forall i | 0 <= i < |cs| && Teaches(cs[i]) && Trim(cs[i].id) == Trim(c.id) ::
      NormalizeProvider(cs[i].provider) == NormalizeProvider(c.provider)
  }

  /** after keeps every provider-instance row's authID and adds at most the candidate's own row. */
  ghost predicate AddsOwnRow(inv: Inventory, c: Candidate, after: Inventory) {
    (forall k | k in inv && k.kind == PROVIDER_INSTANCE :: k in after && after[k].authID == inv[k].authID) &&
    (forall k | k in after && k.kind == PROVIDER_INSTANCE && k !in inv ::
      Teaches(c) && after[k].authID == Trim(c.id) && k.id == NormalizeProvider(c.provider) + ":" + Trim(c.id))
  }

  lemma OwnRow(inv: Inventory, c: Candidate, k: ItemKey, row: Item)
    requires WellNamed(inv) && ColonFree(NormalizeProvider(c.provider)) && Teaches(c)
    requires k == ItemKey(NormalizeProvider(c.provider) + ":" + Trim(c.id), PROVIDER_INSTANCE)
    requires row.provider == NormalizeProvider(c.provider) && row.authID == Trim(c.id)
    ensures WellNamed(inv[k := row]) && AddsOwnRow(inv, c, inv[k := row])
  {
    hide NormalizeProvider, Trim;
    if k in inv {
      InstanceIDInjective(inv[k].provider, inv[k].authID, NormalizeProvider(c.provider), Trim(c.id));
    }
  }

  lemma LearnedRows(normalizeURL: string -> string, inv: Inventory, c: Candidate, after: Inventory)
    requires CleanRows(inv) && WellNamed(inv) && ColonFree(NormalizeProvider(c.provider)) &&
      Learned(normalizeURL, inv, c, after)
    ensures CleanRows(after) && WellNamed(after) && AddsOwnRow(inv, c, after)
  {
    hide ProviderInstanceID, Rank, Clean, CleanRows, NormalizeProvider, Trim;
    if Teaches(c) && HasAuthFile(inv, Trim(c.id)) {
      var k := LearnedFromAuthFile(normalizeURL, inv, c, after);
    } else if Teaches(c) {
      LearnedInstance(normalizeURL, inv, c, after);
      InstanceKeyOf(normalizeURL, c);
      var k := InstanceKey(normalizeURL, c);
      OwnRow(inv, c, k, after[k]);
      assert after == inv[k := after[k]];
    }
  }

  lemma InstanceOf(normalizeURL: string -> string, c: Candidate)
    requires Teaches(c)
    ensures ProviderInstanceID(normalizeURL, NormalizeProvider(c.provider), Trim(c.id), AuthIndexOf(c), BaseURLOf(c)) ==
      NormalizeProvider(c.provider) + ":" + Trim(c.id)
  {
    InstanceKeyOf(normalizeURL, c);
  }

  // ---- the exact change of one step ----

  /** The candidate's new row is what a bound provider instance was waiting for, and it carries the identifier of c. */
  ghost predicate Opens(normalizeURL: string -> string, inv: Inventory, taught: Candidate, ts: set<Target>,
        c: Candidate) {
    Teaches(taught) && Trim(taught.id) == Trim(c.id) && !HasAuthFile(inv, Trim(taught.id)) &&
    InstanceKey(normalizeURL, taught) !in inv && Target(PROVIDER_INSTANCE, InstanceKey(normalizeURL, taught).id) in ts
  }

  /** Learning never takes an account identifier from a scope. */
  lemma GrantedAccountsGrow(inv: Inventory, c: Candidate, after: Inventory, ts: set<Target>)
    requires AddsOwnRow(inv, c, after)
    ensures GrantedAuthIDs(inv, ts) <= GrantedAuthIDs(after, ts)
  {
    hide NormalizeProvider, Trim, Teaches;
    forall a | a in GrantedAuthIDs(inv, ts) ensures a in GrantedAuthIDs(after, ts) {
      if !(exists t | t in ts :: t.kind in {AUTH_ID, AUTH_FILE} && t.id == a) {
        var t :| t in ts && t.kind == PROVIDER_INSTANCE && ItemKey(t.id, PROVIDER_INSTANCE) in inv &&
          inv[ItemKey(t.id, PROVIDER_INSTANCE)].authID == a && a != "";
        assert after[ItemKey(t.id, PROVIDER_INSTANCE)].authID == a;
      }
    }
  }

  /** The account identifier a step adds to a scope comes from the step's own new row. */
  lemma NewAccountOpens(normalizeURL: string -> string, inv: Inventory, taught: Candidate, after: Inventory,
        ts: set<Target>, c: Candidate)
    requires CleanRows(inv) && WellNamed(inv) && ColonFree(NormalizeProvider(taught.provider)) &&
      Learned(normalizeURL, inv, taught, after)
    ensures Trim(c.id) in GrantedAuthIDs(after, ts) && Trim(c.id) !in GrantedAuthIDs(inv, ts) ==>
      Opens(normalizeURL, inv, taught, ts, c)
    ensures Opens(normalizeURL, inv, taught, ts, c) ==> Trim(c.id) in GrantedAuthIDs(after, ts)
  {
    LearnedRows(normalizeURL, inv, taught, after);
    if Teaches(taught) { InstanceKeyOf(normalizeURL, taught); }
    if Teaches(taught) && HasAuthFile(inv, Trim(taught.id)) {
      var k := LearnedFromAuthFile(normalizeURL, inv, taught, after);
    } else if Teaches(taught) {
      LearnedInstance(normalizeURL, inv, taught, after);
    }
    hide NormalizeProvider, Trim, CleanRows, WellNamed, Learned, HasAuthFile, ProviderInstanceID;
    var id := Trim(c.id);
    if id in GrantedAuthIDs(after, ts) && id !in GrantedAuthIDs(inv, ts) {
      var t :| t in ts && t.kind == PROVIDER_INSTANCE && ItemKey(t.id, PROVIDER_INSTANCE) in after &&
        after[ItemKey(t.id, PROVIDER_INSTANCE)].authID == id && id != "";
      assert ItemKey(t.id, PROVIDER_INSTANCE) !in inv;
      assert t == Target(PROVIDER_INSTANCE, t.id);
    }
    if Opens(normalizeURL, inv, taught, ts, c) {
      var k := InstanceKey(normalizeURL, taught);
      assert Target(PROVIDER_INSTANCE, k.id) in ts && k in after && after[k].authID == id;
    }
  }

  /**
   * One learned candidate lets a key use c if and only if it could before, or the step opens c to one of its targets.
   */
  lemma LearningOneExact(normalizeURL: string -> string, inv: Inventory, taught: Candidate, after: Inventory,
        bound: bool, ts: set<Target>, c: Candidate)
    requires CleanRows(inv) && WellNamed(inv) && ColonFree(NormalizeProvider(taught.provider)) &&
      Learned(normalizeURL, inv, taught, after)
    ensures Allows(normalizeURL, Grant(after, bound, ts), c) <==>
      Allows(normalizeURL, Grant(inv, bound, ts), c) || Opens(normalizeURL, inv, taught, ts, c)
  {
    LearnedRows(normalizeURL, inv, taught, after);
    GrantedAccountsGrow(inv, taught, after, ts);
    NewAccountOpens(normalizeURL, inv, taught, after, ts, c);
    assert Opens(normalizeURL, inv, taught, ts, c) ==> Trim(c.id) != "";
    hide Opens, Learned, LearnedAll, WellNamed, CleanRows, AddsOwnRow, GrantedAuthIDs, GrantedInstances,
      GrantedProviders, Trim, NormalizeProvider, ProviderInstanceID;
  }

  // ---- whole lists ----

  lemma LearnedKeepsAuthFiles(normalizeURL: string -> string, inv: Inventory, c: Candidate, after: Inventory,
        id: string)
    requires CleanRows(inv) && Learned(normalizeURL, inv, c, after)
    ensures HasAuthFile(after, id) <==> HasAuthFile(inv, id)
  {
    if Teaches(c) && HasAuthFile(inv, Trim(c.id)) {
      var k := LearnedFromAuthFile(normalizeURL, inv, c, after);
    } else if Teaches(c) {
      LearnedInstance(normalizeURL, inv, c, after);
    }
    hide CleanRows, Learned, Trim, NormalizeProvider, ProviderInstanceID, HasAuthFile, Rank;
    SameAuthFiles(inv, after, id);
  }

  lemma SameAuthFiles(inv: Inventory, after: Inventory, id: string)
    requires forall j: ItemKey | j.kind == AUTH_FILE ::
      (j in after <==> j in inv) && (j in after ==> RowNames(j, after[j]) == RowNames(j, inv[j]))
    ensures HasAuthFile(after, id) <==> HasAuthFile(inv, id)
  {
    forall j: ItemKey | j.kind == AUTH_FILE ensures IsAuthFileFor(after, j, id) <==> IsAuthFileFor(inv, j, id) {
      if j in after { SameRank(j, after[j], inv[j], id); }
    }
  }

  lemma SameRank(k: ItemKey, x: Item, y: Item, id: string)
    requires RowNames(k, x) == RowNames(k, y)
    ensures Rank(k, x, id) == Rank(k, y, id)
  {
    assert RowNames(k, x)[1] == RowNames(k, y)[1] && RowNames(k, x)[2] == RowNames(k, y)[2] &&
      RowNames(k, x)[3] == RowNames(k, y)[3];
  }

  /** The candidate wrote the instance row itself. */
  ghost predicate Wrote(normalizeURL: string -> string, inv: Inventory, x: Candidate, k: ItemKey) {
    Teaches(x) && k == InstanceKey(normalizeURL, x) && !HasAuthFile(inv, Trim(x.id))
  }

  ghost predicate SomeWrote(normalizeURL: string -> string, inv: Inventory, cs: seq<Candidate>, k: ItemKey) {
    exists i | 0 <= i < |cs| :: Wrote(normalizeURL, inv, cs[i], k)
  }

  lemma SomeWroteSplit(normalizeURL: string -> string, inv: Inventory, cs: seq<Candidate>, k: ItemKey)
    requires cs != []
    ensures SomeWrote(normalizeURL, inv, cs, k) <==>
      SomeWrote(normalizeURL, inv, cs[..|cs| - 1], k) || Wrote(normalizeURL, inv, cs[|cs| - 1], k)
  {
    hide Wrote;
    var n := |cs| - 1;
    if i :| 0 <= i < |cs| && Wrote(normalizeURL, inv, cs[i], k) { assert i < n ==> cs[..n][i] == cs[i]; }
    if i :| 0 <= i < n && Wrote(normalizeURL, inv, cs[..n][i], k) { assert cs[i] == cs[..n][i]; }
  }

  lemma LearnedWrites(normalizeURL: string -> string, inv: Inventory, c: Candidate, after: Inventory, k: ItemKey)
    requires CleanRows(inv) && Learned(normalizeURL, inv, c, after)
    ensures k in after <==> k in inv || Wrote(normalizeURL, inv, c, k)
  {
    if Teaches(c) && HasAuthFile(inv, Trim(c.id)) {
      var j := LearnedFromAuthFile(normalizeURL, inv, c, after);
    } else if Teaches(c) {
      LearnedInstance(normalizeURL, inv, c, after);
    }
  }

  /** After a list: the same auth files, and the rows some candidate of the list wrote. */
  lemma {:induction false} LearnedAllRows(normalizeURL: string -> string, inv: Inventory, cs: seq<Candidate>,
        after: Inventory)
    requires CleanRows(inv) && WellNamed(inv) && ColonFreeProviders(cs) && LearnedAll(normalizeURL, inv, cs, after)
    ensures CleanRows(after) && WellNamed(after)
    ensures forall id :: HasAuthFile(after, id) <==> HasAuthFile(inv, id)
    ensures forall k :: k in after <==> k in inv || SomeWrote(normalizeURL, inv, cs, k)
    decreases cs
  {
    if cs != [] {
      var front, last := cs[..|cs| - 1], cs[|cs| - 1];
      var mid :| LearnedAll(normalizeURL, inv, front, mid) && Learned(normalizeURL, mid, last, after);
      LearnedAllRows(normalizeURL, inv, front, mid);
      LearnedRows(normalizeURL, mid, last, after);
      forall id ensures HasAuthFile(after, id) <==> HasAuthFile(mid, id) {
        LearnedKeepsAuthFiles(normalizeURL, mid, last, after, id);
      }
      forall k ensures k in after <==> k in inv || SomeWrote(normalizeURL, inv, cs, k) {
        LearnedWrites(normalizeURL, mid, last, after, k);
        hide HasAuthFile, Teaches, Trim, InstanceKey, SomeWrote;
        assert Wrote(normalizeURL, mid, last, k) <==> Wrote(normalizeURL, inv, last, k);
        SomeWroteSplit(normalizeURL, inv, cs, k);
      }
    }
  }

  ghost predicate OneOpens(normalizeURL: string -> string, inv: Inventory, cs: seq<Candidate>, ts: set<Target>,
        c: Candidate) {
    exists i | 0 <= i < |cs| :: Opens(normalizeURL, inv, cs[i], ts, c)
  }

  lemma OneOpensSplit(normalizeURL: string -> string, inv: Inventory, cs: seq<Candidate>, ts: set<Target>, c: Candidate)
    requires cs != []
    ensures OneOpens(normalizeURL, inv, cs, ts, c) <==>
      OneOpens(normalizeURL, inv, cs[..|cs| - 1], ts, c) || Opens(normalizeURL, inv, cs[|cs| - 1], ts, c)
  {
    hide Opens;
    var n := |cs| - 1;
    if i :| 0 <= i < |cs| && Opens(normalizeURL, inv, cs[i], ts, c) { assert i < n ==> cs[..n][i] == cs[i]; }
    if i :| 0 <= i < n && Opens(normalizeURL, inv, cs[..n][i], ts, c) { assert cs[i] == cs[..n][i]; }
  }

  /** Colon-free candidates with one instance row have one identifier. */
  lemma SameRowSameID(normalizeURL: string -> string, x: Candidate, y: Candidate)
    requires Teaches(x) && Teaches(y) && ColonFree(NormalizeProvider(x.provider)) &&
      ColonFree(NormalizeProvider(y.provider))
    requires InstanceKey(normalizeURL, x) == InstanceKey(normalizeURL, y)
    ensures Trim(x.id) == Trim(y.id)
  {
    hide NormalizeProvider, Trim, ProviderInstanceID;
    InstanceKeyOf(normalizeURL, x);
    InstanceKeyOf(normalizeURL, y);
    InstanceIDInjective(NormalizeProvider(x.provider), Trim(x.id), NormalizeProvider(y.provider), Trim(y.id));
  }

  /** What the last candidate opens in the learned table, it or an earlier one opens in the first. */
  lemma OpensLater(normalizeURL: string -> string, inv: Inventory, front: seq<Candidate>, mid: Inventory,
        last: Candidate, ts: set<Target>, c: Candidate)
    requires ColonFreeProviders(front) && ColonFree(NormalizeProvider(last.provider))
    requires forall id :: HasAuthFile(mid, id) <==> HasAuthFile(inv, id)
    requires forall k :: k in mid <==> k in inv || SomeWrote(normalizeURL, inv, front, k)
    ensures OneOpens(normalizeURL, inv, front, ts, c) || Opens(normalizeURL, inv, last, ts, c) <==>
      OneOpens(normalizeURL, inv, front, ts, c) || Opens(normalizeURL, mid, last, ts, c)
  {
    hide HasAuthFile, Teaches, NormalizeProvider, Trim, InstanceKey;
    var k := InstanceKey(normalizeURL, last);
    if Opens(normalizeURL, inv, last, ts, c) && k in mid {
      var i :| 0 <= i < |front| && Wrote(normalizeURL, inv, front[i], k);
      SameRowSameID(normalizeURL, front[i], last);
      assert Opens(normalizeURL, inv, front[i], ts, c);
    }
  }

  lemma {:induction false} LearningAllExact(normalizeURL: string -> string, inv: Inventory, cs: seq<Candidate>,
        after: Inventory, bound: bool, ts: set<Target>, c: Candidate)
    requires CleanRows(inv) && WellNamed(inv) && ColonFreeProviders(cs) && LearnedAll(normalizeURL, inv, cs, after)
    ensures Allows(normalizeURL, Grant(after, bound, ts), c) <==>
      Allows(normalizeURL, Grant(inv, bound, ts), c) || OneOpens(normalizeURL, inv, cs, ts, c)
    decreases cs
  {
    if cs != [] {
      var front, last := cs[..|cs| - 1], cs[|cs| - 1];
      var mid :| LearnedAll(normalizeURL, inv, front, mid) && Learned(normalizeURL, mid, last, after);
      assert ColonFreeProviders(front) && ColonFree(NormalizeProvider(last.provider));
      hide Allows, Grant, OneOpens, Opens, CleanRows, WellNamed, ColonFreeProviders, Learned, HasAuthFile, Wrote;
      LearningAllExact(normalizeURL, inv, front, mid, bound, ts, c);
      LearnedAllRows(normalizeURL, inv, front, mid);
      LearningOneExact(normalizeURL, mid, last, after, bound, ts, c);
      OneOpensSplit(normalizeURL, inv, cs, ts, c);
      OpensLater(normalizeURL, inv, front, mid, last, ts, c);
    }
  }

  /**
   * Learning a list of candidates gives a key a candidate it could not use before if and only if some candidate of
   * the list with the same identifier, not an auth file, writes the first row of a provider instance the key is bound
   * to.
   */
  lemma LearningExact(normalizeURL: string -> string, inv: Inventory, cs: seq<Candidate>, after: Inventory,
                      bindings: set<Link>, members: set<Link>, keyID: string, c: Candidate)
    requires CleanRows(inv) && WellNamed(inv) && ColonFreeProviders(cs) && LearnedAll(normalizeURL, inv, cs, after)
    ensures CleanRows(after) && WellNamed(after)
    ensures Allows(normalizeURL, ScopeOf(after, bindings, members, keyID), c) <==>
      Allows(normalizeURL, ScopeOf(inv, bindings, members, keyID), c) ||
        OneOpens(normalizeURL, inv, cs, KeyTargets(bindings, members, keyID), c)
  {
    hide Allows, Grant, OneOpens, CleanRows, WellNamed, ColonFreeProviders, LearnedAll, HasAuthFile, Wrote, KeyTargets;
    LearnedAllRows(normalizeURL, inv, cs, after);
    LearningAllExact(normalizeURL, inv, cs, after, IsBound(bindings, keyID), KeyTargets(bindings, members, keyID), c);
  }

  /** So it changes no key's permissions for a candidate whose identifier has one provider. */
  lemma LearningIsNeutral(normalizeURL: string -> string, inv: Inventory, cs: seq<Candidate>, after: Inventory,
                          bindings: set<Link>, members: set<Link>, keyID: string, c: Candidate)
    requires CleanRows(inv) && WellNamed(inv) && ColonFreeProviders(cs) && SameOwner(cs, c) &&
      LearnedAll(normalizeURL, inv, cs, after)
    ensures CleanRows(after) && WellNamed(after)
    ensures Allows(normalizeURL, ScopeOf(after, bindings, members, keyID), c) <==>
      Allows(normalizeURL, ScopeOf(inv, bindings, members, keyID), c)
  {
    LearningExact(normalizeURL, inv, cs, after, bindings, members, keyID, c);
    var ts := KeyTargets(bindings, members, keyID);
    hide CleanRows, WellNamed, LearnedAll, KeyTargets, HasAuthFile, NormalizeProvider, Trim;
    if OneOpens(normalizeURL, inv, cs, ts, c) {
      var i :| 0 <= i < |cs| && Opens(normalizeURL, inv, cs[i], ts, c);
      SameRowAllowed(normalizeURL, cs[i], c, ts);
    }
  }

  lemma SameRowAllowed(normalizeURL: string -> string, taught: Candidate, c: Candidate, ts: set<Target>)
    requires Teaches(taught) && Trim(taught.id) == Trim(c.id) &&
      NormalizeProvider(taught.provider) == NormalizeProvider(c.provider)
    requires Target(PROVIDER_INSTANCE, InstanceKey(normalizeURL, taught).id) in ts
    ensures ProviderInstanceID(normalizeURL, NormalizeProvider(c.provider), Trim(c.id), AuthIndexOf(c),
      BaseURLOf(c)) in GrantedInstances(ts)
  {
    hide NormalizeProvider, Trim, ProviderInstanceID;
    InstanceOf(normalizeURL, taught);
    InstanceOf(normalizeURL, c);
    assert Target(PROVIDER_INSTANCE, InstanceKey(normalizeURL, taught).id).kind == PROVIDER_INSTANCE;
  }

  /**
   * One provider per identifier is needed: from an empty inventory, learning a candidate lets a key bound to that
   * provider instance, and to nothing else, use another provider's candidate with the same identifier.
   */
  lemma SharedIdentifierWidens(normalizeURL: string -> string, taught: Candidate, c: Candidate, keyID: string)
    requires Teaches(taught) && Teaches(c) && Trim(taught.id) == Trim(c.id)
    requires NormalizeProvider(taught.provider) != NormalizeProvider(c.provider)
    ensures var k := InstanceKey(normalizeURL, taught);
      var bindings := {Link(keyID, PROVIDER_INSTANCE, k.id)};
      var after: Inventory := map[k := Clean(CandidateRow(taught, map[], k))];
      LearnedAll(normalizeURL, map[], [taught], after) &&
      !Allows(normalizeURL, ScopeOf(map[], bindings, {}, keyID), c) &&
        Allows(normalizeURL, ScopeOf(after, bindings, {}, keyID), c)
  {
    hide *;
    var k := InstanceKey(normalizeURL, taught);
    var after: Inventory := map[k := Clean(CandidateRow(taught, map[], k))];
    FirstRow(normalizeURL, taught);
    InstanceKeyOf(normalizeURL, taught);
    LearnedNothing(normalizeURL, map[]);
    LearnedNext(normalizeURL, map[], [], map[], taught, after);
    assert [] + [taught] == [taught];
    ScopeOfOneBinding(map[], keyID, k.id);
    ScopeOfOneBinding(after, keyID, k.id);
    BoundElsewhere(normalizeURL, taught, c);
  }

  lemma FirstRow(normalizeURL: string -> string, taught: Candidate)
    requires Teaches(taught)
    ensures var k := InstanceKey(normalizeURL, taught);
      Learned(normalizeURL, map[], taught, map[k := Clean(CandidateRow(taught, map[], k))])
  {
    hide NormalizeProvider, Trim, Clean, Upsert, ProviderInstanceID;
    var k := InstanceKey(normalizeURL, taught);
    InstanceKeyOf(normalizeURL, taught);
    UpsertTrimmed(map[], k.id, k.kind, CandidateRow(taught, map[], k));
    assert !HasAuthFile(map[], Trim(taught.id));
  }

  lemma ScopeOfOneBinding(inv: Inventory, keyID: string, id: string)
    requires id != "" && Trim(id) == id
    ensures ScopeOf(inv, {Link(keyID, PROVIDER_INSTANCE, id)}, {}, keyID) ==
      Grant(inv, true, {Target(PROVIDER_INSTANCE, id)})
  {
    hide Grant, KeyTargets;
    OneBinding(keyID, id);
    assert Link(keyID, PROVIDER_INSTANCE, id) in {Link(keyID, PROVIDER_INSTANCE, id)};
  }

  lemma BoundElsewhere(normalizeURL: string -> string, taught: Candidate, c: Candidate)
    requires Teaches(taught) && Teaches(c) && Trim(taught.id) == Trim(c.id)
    requires NormalizeProvider(taught.provider) != NormalizeProvider(c.provider)
    ensures var k := InstanceKey(normalizeURL, taught);
      var ts := {Target(PROVIDER_INSTANCE, k.id)};
      !Allows(normalizeURL, Grant(map[], true, ts), c) &&
      Allows(normalizeURL, Grant(map[k := Clean(CandidateRow(taught, map[], k))], true, ts), c)
  {
    hide NormalizeProvider, Trim, Clean;
    var k := InstanceKey(normalizeURL, taught);
    var row := CandidateRow(taught, map[], k);
    InstanceKeyOf(normalizeURL, taught);
    InstanceOf(normalizeURL, c);
    CleanAuthID(row, taught.id);
    hide ProviderInstanceID;
    var p, q := NormalizeProvider(taught.provider), NormalizeProvider(c.provider);
    assert p + ":" + Trim(c.id) != q + ":" + Trim(c.id) by {
      SameSuffix(p, q, ":" + Trim(c.id));
      assert p + ":" + Trim(c.id) == p + (":" + Trim(c.id)) && q + ":" + Trim(c.id) == q + (":" + Trim(c.id));
    }
    var t := Target(PROVIDER_INSTANCE, k.id);
    assert t in {t} && GrantedInstances({t}) == {k.id};
  }

  lemma OneBinding(keyID: string, id: string)
    requires id != "" && Trim(id) == id
    ensures KeyTargets({Link(keyID, PROVIDER_INSTANCE, id)}, {}, keyID) == {Target(PROVIDER_INSTANCE, id)}
  {
    hide NormalizeKind, Trim;
    KindConstants();
    var b := Link(keyID, PROVIDER_INSTANCE, id);
    assert TargetsOf({}, b.kind, b.target) == {Target(PROVIDER_INSTANCE, id)};
    assert b in {b};
  }

  lemma CleanAuthID(item: Item, id: string)
    requires item.authID == Trim(id)
    ensures Clean(item).authID == Trim(id)
  {
    TrimTwice(id);
  }

  lemma SameSuffix(p: string, q: string, s: string)
    requires p != q
    ensures p + s != q + s
  {
    assert (p + s)[..|p|] == p && (q + s)[..|q|] == q;
    assert |p + s| == |p| + |s| && |q + s| == |q| + |s|;
  }

  // ---- providers ----

  ghost predicate Reaches(ts: set<Target>, k: ItemKey) {
    exists t | t in ts :: t.kind in {AUTH_ID, AUTH_FILE, PROVIDER_INSTANCE} && RowKey(t) == k
  }

  lemma RowProviders(inv: Inventory, k: ItemKey, row: Item, ts: set<Target>)
    requires row.provider != "" && NormalizeProvider(row.provider) == row.provider
    ensures GrantedProviders(inv[k := row], ts) == GrantedProviders(inv - {k}, ts) + if Reaches(ts, k)
      then {row.provider} else {}
  {
    hide NormalizeProvider;
    var after := inv[k := row];
    forall p ensures p in GrantedProviders(after, ts) <==>
      p in GrantedProviders(inv - {k}, ts) || (Reaches(ts, k) && p == row.provider) {
      if p in GrantedProviders(after, ts) {
        var t :| t in ts && NamesRow(after, t) && p == NormalizeProvider(after[RowKey(t)].provider);
        if RowKey(t) != k { assert NamesRow(inv - {k}, t); }
      }
      if p in GrantedProviders(inv - {k}, ts) {
        var t :| t in ts && NamesRow(inv - {k}, t) && p == NormalizeProvider((inv - {k})[RowKey(t)].provider);
        assert NamesRow(after, t);
      }
      if Reaches(ts, k) {
        var t :| t in ts && t.kind in {AUTH_ID, AUTH_FILE, PROVIDER_INSTANCE} && RowKey(t) == k;
        assert NamesRow(after, t);
      }
    }
  }

  /**
   * A learned candidate sets the provider of one row: a best-matching auth file, or its own instance; scopes that reach
   * the row follow, others keep their providers.
   */
  lemma LearnedProviders(normalizeURL: string -> string, inv: Inventory, c: Candidate, after: Inventory,
        ts: set<Target>) returns (k: ItemKey)
    requires CleanRows(inv) && Learned(normalizeURL, inv, c, after)
    ensures Teaches(c) && HasAuthFile(inv, Trim(c.id)) ==> k in inv && k.kind == AUTH_FILE
    ensures Teaches(c) && !HasAuthFile(inv, Trim(c.id)) ==> k == InstanceKey(normalizeURL, c)
    ensures GrantedProviders(after, ts) == if !Teaches(c) then GrantedProviders(inv, ts)
      else GrantedProviders(inv - {k}, ts) + if Reaches(ts, k) then {NormalizeProvider(c.provider)} else {}
  {
    k := ItemKey("", "");
    if Teaches(c) {
      NormalizeProviderTwice(c.provider);
      if HasAuthFile(inv, Trim(c.id)) {
        k := LearnedFromAuthFile(normalizeURL, inv, c, after);
      } else {
        LearnedInstance(normalizeURL, inv, c, after);
        k := InstanceKey(normalizeURL, c);
      }
      hide CleanRows, Learned, HasAuthFile, GrantedProviders, InstanceKey;
      assert after == inv[k := after[k]];
      RowProviders(inv, k, after[k], ts);
    }
  }

  // ---- every history ----

  ghost predicate ColonFreeChange(change: Change) {
    match change
    case Learn(cs) => ColonFreeProviders(cs)
    case _ => true
  }

  lemma ChangeKeepsWellNamed(normalizeURL: string -> string, inv: Inventory, change: Change, after: Inventory)
    requires CleanRows(inv) && WellNamed(inv) && ColonFreeChange(change) && Changes(normalizeURL, inv, change, after)
    ensures WellNamed(after)
  {
    match change
    case UpsertFiles(entries) =>
      hide EntryIDs, EntryRow, LastEntry, StoredAliases;
    case SyncFiles(entries) =>
      hide EntryIDs, EntryRow, LastEntry, SyncAliases;
    case Learn(cs) =>
      LearnedAllRows(normalizeURL, inv, cs, after);
  }

  lemma HistoryStepKeepsWellNamed(normalizeURL: string -> string, invs: seq<Inventory>, changes: seq<Change>, i: nat)
    requires IsHistory(normalizeURL, invs, changes) && i < |changes| && ColonFreeChange(changes[i])
    requires CleanRows(invs[i]) && WellNamed(invs[i])
    ensures WellNamed(invs[i + 1])
  {
    hide CleanRows, WellNamed, Changes, ColonFreeChange;
    ChangeKeepsWellNamed(normalizeURL, invs[i], changes[i], invs[i + 1]);
  }

  lemma NoRowsAreWellNamed()
    ensures WellNamed(map[])
  {
  }

  /** In every run from the empty table with colon-free provider names, provider instances are named provider:authID. */
  lemma {:induction false} AlwaysWellNamed(normalizeURL: string -> string, invs: seq<Inventory>, changes: seq<Change>,
        i: nat)
    requires IsHistory(normalizeURL, invs, changes) && invs[0] == map[] && i < |invs|
    requires forall j | 0 <= j < |changes| :: ColonFreeChange(changes[j])
    ensures CleanRows(invs[i]) && WellNamed(invs[i])
  {
    hide CleanRows, WellNamed, Changes, ColonFreeChange, NoShadows;
    NeverShadowed(normalizeURL, invs, changes, i);
    if i == 0 {
      NoRowsAreWellNamed();
    } else {
      AlwaysWellNamed(normalizeURL, invs, changes, i - 1);
      HistoryStepKeepsWellNamed(normalizeURL, invs, changes, i - 1);
    }
  }

  /** At every learning step of every such run, the exact change of permissions holds without further conditions. */
  lemma LearningExactInHistory(normalizeURL: string -> string, invs: seq<Inventory>, changes: seq<Change>, i: nat,
                               bindings: set<Link>, members: set<Link>, keyID: string, c: Candidate)
    requires IsHistory(normalizeURL, invs, changes) && invs[0] == map[] && i < |changes| && changes[i].Learn?
    requires forall j | 0 <= j < |changes| :: ColonFreeChange(changes[j])
    ensures Allows(normalizeURL, ScopeOf(invs[i + 1], bindings, members, keyID), c) <==>
      Allows(normalizeURL, ScopeOf(invs[i], bindings, members, keyID), c) ||
      OneOpens(normalizeURL, invs[i], changes[i].candidates, KeyTargets(bindings, members, keyID), c)
  {
    AlwaysWellNamed(normalizeURL, invs, changes, i);
    assert Changes(normalizeURL, invs[i], changes[i], invs[i + 1]);
    assert ColonFreeChange(changes[i]);
    hide Allows, ScopeOf, OneOpens, CleanRows, WellNamed, ColonFreeProviders, LearnedAll, KeyTargets;
    LearningExact(normalizeURL, invs[i], changes[i].candidates, invs[i + 1], bindings, members, keyID, c);
  }

  // ---- a learning step that overlaps a synchronisation ----

  /** The row of a candidate made from what one table held, written to another. */
  function StaleWrite(normalizeURL: string -> string, read: Inventory, c: Candidate, inv: Inventory): Inventory {
    var k := InstanceKey(normalizeURL, c);
    inv[k := Clean(CandidateRow(c, read, k))]
  }

  lemma StaleRow(normalizeURL: string -> string, read: Inventory, c: Candidate)
    requires Teaches(c)
    ensures var k := InstanceKey(normalizeURL, c);
      var row := Clean(CandidateRow(c, read, k));
      row.authID == Trim(c.id) && k.id == row.provider + ":" + row.authID
  {
    InstanceKeyOf(normalizeURL, c);
    NormalizeProviderTwice(c.provider);
    TrimTwice(c.id);
  }

  /** The auth files that are listed a second time. */
  ghost function ShadowKeys(inv: Inventory): set<ItemKey> {
    set k | k in inv && IsShadow(k, inv[k], AuthFileNames(inv))
  }

  lemma StaleWriteKeepsNames(normalizeURL: string -> string, read: Inventory, c: Candidate, inv: Inventory)
    ensures AuthFileNames(StaleWrite(normalizeURL, read, c, inv)) == AuthFileNames(inv)
  {
    hide Clean, CandidateRow, Unique, ProviderInstanceID;
    var after := StaleWrite(normalizeURL, read, c, inv);
    NamesUnchanged(inv, after);
    NamesKept(inv, after);
  }

  /**
   * A stale write decides its own row and no other: it is a second listing exactly when it has no address and names an
   * auth file.
   */
  lemma StaleWriteShadows(normalizeURL: string -> string, read: Inventory, c: Candidate, inv: Inventory)
    requires Teaches(c)
    ensures var k := InstanceKey(normalizeURL, c);
      ShadowKeys(StaleWrite(normalizeURL, read, c, inv)) == (ShadowKeys(inv) - {k}) +
        if Clean(CandidateRow(c, read, k)).baseURL == "" && Trim(c.id) in AuthFileNames(inv) then {k} else {}
  {
    StaleRow(normalizeURL, read, c);
    StaleWriteKeepsNames(normalizeURL, read, c, inv);
    hide Clean, CandidateRow, Trim, NormalizeProvider, ProviderInstanceID, AuthFileNames;
  }

  /** So writing one into a table without shadows leaves one exactly when it is one. */
  lemma StaleWriteExact(normalizeURL: string -> string, read: Inventory, c: Candidate, inv: Inventory)
    requires Teaches(c) && NoShadows(inv)
    ensures NoShadows(StaleWrite(normalizeURL, read, c, inv)) <==>
      Clean(CandidateRow(c, read, InstanceKey(normalizeURL, c))).baseURL != "" || Trim(c.id) !in AuthFileNames(inv)
  {
    StaleWriteShadows(normalizeURL, read, c, inv);
    hide StaleWrite, AuthFileNames, IsShadow, Clean, CandidateRow, Trim, ProviderInstanceID;
    var after := StaleWrite(normalizeURL, read, c, inv);
    assert NoShadows(inv) <==> ShadowKeys(inv) == {};
    assert NoShadows(after) <==> ShadowKeys(after) == {} by {
      if k :| k in after && IsShadow(k, after[k], AuthFileNames(after)) { assert k in ShadowKeys(after); }
    }
  }

  lemma NamesKept(inv: Inventory, after: Inventory)
    requires forall k | k in inv && k.kind == AUTH_FILE :: k in after && after[k] == inv[k]
    ensures AuthFileNames(inv) <= AuthFileNames(after)
  {
    hide Unique;
    forall n | n in AuthFileNames(inv) ensures n in AuthFileNames(after) {
      var k :| k in inv && k.kind == AUTH_FILE && n in Unique(RowNames(k, inv[k]));
      assert k in after && n in Unique(RowNames(k, after[k]));
    }
  }

  /** What SyncAuthFiles still does after its upserts, with the names it collected before them. */
  function SyncTail(inv: Inventory, entries: seq<Entry>, mid: Inventory): Inventory {
    Listed(DeleteShadows(mid, SyncAliases(inv, entries)), EntryIDs(entries))
  }

  lemma TailRemovesShadows(inv: Inventory, entries: seq<Entry>, mid: Inventory)
    requires forall k | k in mid && k.kind == AUTH_FILE && k.id in EntryIDs(entries) ::
      k in EntryRows(entries) && mid[k] == EntryRows(entries)[k]
    ensures NoShadows(SyncTail(inv, entries, mid))
  {
    var after := SyncTail(inv, entries, mid);
    forall n | n in AuthFileNames(after) ensures n in EntryAliases(entries) {
      var k :| k in after && k.kind == AUTH_FILE && n in Unique(RowNames(k, after[k]));
      RowNamesAreAliases(LastEntry(entries, k.id), n);
    }
    hide AuthFileNames, EntryAliases, EntryIDs;
  }

  /**
   * SyncAuthFiles is not one transaction and does not take the routing mutex. A learning step that found no auth file
   * before the upserts and writes before the last deletion of shadows leaves none; one that writes after it, before
   * or after the unlisted files go, leaves one exactly when its row has no address and the synchronised table has an
   * auth file of that name; and the next synchronisation removes it.
   */
  lemma LearningDuringSync(normalizeURL: string -> string, inv: Inventory, entries: seq<Entry>, c: Candidate)
    requires Teaches(c) && !HasAuthFile(inv, Trim(c.id))
    ensures NoShadows(SyncTail(inv, entries, StaleWrite(normalizeURL, inv, c, Upserted(inv, entries))))
    ensures var late := StaleWrite(normalizeURL, inv, c, Synced(inv, entries));
      late == Listed(StaleWrite(normalizeURL, inv, c,
        DeleteShadows(Upserted(inv, entries), SyncAliases(inv, entries))), EntryIDs(entries)) &&
      (NoShadows(late) <==>
        Clean(CandidateRow(c, inv, InstanceKey(normalizeURL, c))).baseURL != "" ||
          Trim(c.id) !in AuthFileNames(Synced(inv, entries))) &&
      NoShadows(Synced(late, entries))
  {
    EarlyWriteIsCleaned(normalizeURL, inv, entries, c);
    LateWrites(normalizeURL, inv, entries, c);
    SyncRemovesShadows(inv, entries);
    hide NoShadows, AuthFileNames, Synced, Upserted, StaleWrite, Clean, CandidateRow, HasAuthFile, Trim;
    StaleWriteExact(normalizeURL, inv, c, Synced(inv, entries));
    SyncRemovesShadows(StaleWrite(normalizeURL, inv, c, Synced(inv, entries)), entries);
  }

  lemma EarlyWriteIsCleaned(normalizeURL: string -> string, inv: Inventory, entries: seq<Entry>, c: Candidate)
    ensures NoShadows(SyncTail(inv, entries, StaleWrite(normalizeURL, inv, c, Upserted(inv, entries))))
  {
    hide NoShadows, AuthFileNames, EntryIDs, EntryRow, LastEntry, StoredAliases, SyncTail, Clean, CandidateRow;
    TailRemovesShadows(inv, entries, StaleWrite(normalizeURL, inv, c, Upserted(inv, entries)));
  }

  lemma LateWrites(normalizeURL: string -> string, inv: Inventory, entries: seq<Entry>, c: Candidate)
    ensures StaleWrite(normalizeURL, inv, c, Synced(inv, entries)) ==
      Listed(StaleWrite(normalizeURL, inv, c, DeleteShadows(Upserted(inv, entries), SyncAliases(inv, entries))),
        EntryIDs(entries))
  {
    PhasesAreSynced(inv, entries);
    hide Synced, Upserted, DeleteShadows, SyncAliases, EntryIDs, Clean, CandidateRow;
  }

  lemma NamesWithin(inv: Inventory, entries: seq<Entry>, k: ItemKey, provider: string)
    requires k in inv && k.kind == AUTH_FILE
    ensures AuthFileNames(Synced(inv, entries)[k := inv[k].(provider := provider)]) <= SyncAliases(inv, entries)
  {
    hide Unique, EntryIDs, EntryRow, LastEntry, Aliases;
    var late := Synced(inv, entries)[k := inv[k].(provider := provider)];
    NamesAfterSync(inv, entries);
    forall n | n in AuthFileNames(late) ensures n in SyncAliases(inv, entries) {
      var j :| j in late && j.kind == AUTH_FILE && n in Unique(RowNames(j, late[j]));
      if j == k {
        assert RowNames(j, late[j]) == RowNames(k, inv[k]);
      } else {
        assert n in AuthFileNames(Synced(inv, entries));
      }
    }
  }

  function AuthFileIDs(inv: Inventory): set<string> {
    set j: ItemKey | j in inv && j.kind == AUTH_FILE :: j.id
  }

  lemma RestoredIDs(inv: Inventory, k: ItemKey, row: Item)
    requires k.kind == AUTH_FILE
    ensures AuthFileIDs(inv[k := row]) == AuthFileIDs(inv) + {k.id}
  {
    var after := inv[k := row];
    forall id ensures id in AuthFileIDs(after) <==> id in AuthFileIDs(inv) || id == k.id {
      if id == k.id { assert k in after; }
      if id in AuthFileIDs(inv) {
        var j: ItemKey :| j in inv && j.kind == AUTH_FILE && j.id == id;
        assert j in after;
      }
    }
  }

  lemma RestoredNoShadows(inv: Inventory, entries: seq<Entry>, k: ItemKey, provider: string)
    requires k in inv && k.kind == AUTH_FILE
    ensures NoShadows(Synced(inv, entries)[k := inv[k].(provider := provider)])
  {
    var synced := Synced(inv, entries);
    var late := synced[k := inv[k].(provider := provider)];
    NamesWithin(inv, entries, k, provider);
    SyncIsExact(inv, entries);
    hide AuthFileNames, SyncAliases, EntryIDs, EntryRows, Synced;
    forall j: ItemKey | j in late && j.kind == PROVIDER_INSTANCE ensures !IsShadow(j, late[j], AuthFileNames(late)) {
      assert j in synced && late[j] == synced[j];
    }
  }

  lemma EarlyRestoreIsListed(inv: Inventory, entries: seq<Entry>, k: ItemKey, provider: string)
    requires k in inv && k.kind == AUTH_FILE
    ensures AuthFileIDs(SyncTail(inv, entries, Upserted(inv, entries)[k := inv[k].(provider := provider)])) ==
      EntryIDs(entries)
  {
    hide Unique, EntryRow, LastEntry, SyncAliases, StoredAliases;
    var after := SyncTail(inv, entries, Upserted(inv, entries)[k := inv[k].(provider := provider)]);
    forall id ensures id in AuthFileIDs(after) <==> id in EntryIDs(entries) {
      if id in EntryIDs(entries) {
        assert ItemKey(id, AUTH_FILE) in EntryRows(entries);
        assert ItemKey(id, AUTH_FILE) in after;
      }
    }
  }

  lemma EarlyRestoreNoShadows(inv: Inventory, entries: seq<Entry>, k: ItemKey, provider: string)
    requires k in inv && k.kind == AUTH_FILE
    ensures NoShadows(SyncTail(inv, entries, Upserted(inv, entries)[k := inv[k].(provider := provider)]))
  {
    hide Unique, EntryIDs, EntryRow, LastEntry, Aliases, StoredAliases;
    var after := SyncTail(inv, entries, Upserted(inv, entries)[k := inv[k].(provider := provider)]);
    forall n | n in AuthFileNames(after) ensures n in SyncAliases(inv, entries) {
      var j :| j in after && j.kind == AUTH_FILE && n in Unique(RowNames(j, after[j]));
      if j == k {
        assert RowNames(j, after[j]) == RowNames(k, inv[k]);
      } else {
        RowNamesAreAliases(LastEntry(entries, j.id), n);
      }
    }
    hide AuthFileNames, SyncAliases;
  }

  /**
   * If the overlapping step did find an auth file, it makes no second listing either. A write before the unlisted
   * files go leaves exactly the listed auth files; one after that restores the row, and they are the listed ones
   * exactly when that file is still listed.
   */
  lemma AuthFileLearnedDuringSync(inv: Inventory, entries: seq<Entry>, k: ItemKey, provider: string)
    requires k in inv && k.kind == AUTH_FILE
    ensures var row := inv[k].(provider := provider);
      var early, late := SyncTail(inv, entries, Upserted(inv, entries)[k := row]), Synced(inv, entries)[k := row];
      NoShadows(early) && AuthFileIDs(early) == EntryIDs(entries) &&
      NoShadows(late) && (AuthFileIDs(late) == EntryIDs(entries) <==> k.id in EntryIDs(entries))
  {
    hide NoShadows, EntryIDs, Synced, Upserted, SyncTail;
    EarlyRestoreIsListed(inv, entries, k, provider);
    EarlyRestoreNoShadows(inv, entries, k, provider);
    RestoredNoShadows(inv, entries, k, provider);
    RestoredIDs(Synced(inv, entries), k, inv[k].(provider := provider));
    SyncIsExact(inv, entries);
  }

  /** A step that reads after the upserts leaves no second listing, wherever it writes. */
  lemma LearningAfterUpserts(normalizeURL: string -> string, inv: Inventory, entries: seq<Entry>, read: Inventory,
        c: Candidate)
    requires CleanRows(inv) && Teaches(c) && !HasAuthFile(read, Trim(c.id))
    requires read == Upserted(inv, entries) || read == DeleteShadows(Upserted(inv, entries), SyncAliases(inv, entries))
    ensures NoShadows(StaleWrite(normalizeURL, read, c, Synced(inv, entries)))
  {
    UpsertKeepsCleanRows(inv, entries);
    SyncRemovesShadows(inv, entries);
    assert CleanRows(read);
    NamedMeansMatched(read, Trim(c.id));
    SyncedNamesWereThere(inv, entries, read);
    hide NoShadows, AuthFileNames, Synced, Upserted, StaleWrite, Clean, CandidateRow, HasAuthFile, Trim, CleanRows;
    StaleWriteExact(normalizeURL, read, c, Synced(inv, entries));
  }

  lemma SyncedNamesWereThere(inv: Inventory, entries: seq<Entry>, read: Inventory)
    requires read == Upserted(inv, entries) || read == DeleteShadows(Upserted(inv, entries), SyncAliases(inv, entries))
    ensures AuthFileNames(Synced(inv, entries)) <= AuthFileNames(read)
  {
    hide EntryIDs, EntryRow, LastEntry, StoredAliases, SyncAliases, Unique;
    NamesUnchanged(read, Synced(inv, entries));
  }

  // ---- examples of the overlap ----

  lemma PlainNames()
    ensures Trim("a.json") == "a.json" && Trim("") == "" && NormalizeProvider("gemini") == "gemini"
  {
    assert Trimmed("a.json") && Trimmed("gemini");
    TrimIsTrimmed("a.json");
    TrimIsTrimmed("gemini");
    assert forall i | 0 <= i < |"gemini"| :: LowerChar("gemini"[i]) == "gemini"[i];
    assert Lower("gemini") == "gemini";
  }

  lemma EntryIsStored(e: Entry)
    requires EntryID(e) != ""
    ensures EntryID(e) in AuthFileNames(Synced(map[], [e]))
  {
    hide FirstNonEmpty, Trim, NormalizeProvider, EntryID, EntryRow, LastEntry, CleanRows, AuthFileNames, SyncAliases;
    var id, after := EntryID(e), Synced(map[], [e]);
    var k := ItemKey(id, AUTH_FILE);
    EntryIDsAppend([], e);
    assert [] + [e] == [e];
    NoRowsAreClean();
    UpsertKeepsCleanRows(map[], [e]);
    NamedMeansMatched(after, id);
    assert k in EntryRows([e]);
    assert IsAuthFileFor(after, k, id);
  }

  lemma NoRowsAreClean()
    ensures CleanRows(map[])
  {
  }

  /** An account first seen as a candidate while its new auth file is being synchronised: it ends up listed twice. */
  lemma OverlapListsTwice(normalizeURL: string -> string)
    ensures var entry := Entry("a.json", "", "", "gemini", "", "", "", "");
      var c := Candidate("a.json", "gemini", 0, map[]);
      !NoShadows(StaleWrite(normalizeURL, map[], c, Synced(map[], [entry])))
  {
    var entry := Entry("a.json", "", "", "gemini", "", "", "", "");
    var c := Candidate("a.json", "gemini", 0, map[]);
    PlainNames();
    assert EntryID(entry) == "a.json";
    EntryIsStored(entry);
    SyncRemovesShadows(map[], [entry]);
    assert CandidateRow(c, map[], InstanceKey(normalizeURL, c)).baseURL == "";
    hide NoShadows, AuthFileNames, Synced, StaleWrite, EntryID, Trim, NormalizeProvider, ProviderInstanceID;
    StaleWriteExact(normalizeURL, map[], c, Synced(map[], [entry]));
  }

  /** A deleted auth file whose account is picked while the deletion is being synchronised: it stays stored. */
  lemma OverlapRestores(row: Item, provider: string)
    ensures var k := ItemKey("a.json", AUTH_FILE);
      var inv: Inventory := map[k := row];
      AuthFileIDs(Synced(inv, [])[k := row.(provider := provider)]) != EntryIDs([])
  {
    var k := ItemKey("a.json", AUTH_FILE);
    var inv: Inventory := map[k := row];
    assert EntryIDs([]) == {};
    AuthFileLearnedDuringSync(inv, [], k, provider);
  }
}
