/** Keeping the inventory in step with the host: auth-file snapshots and candidates seen in passing. */
module InventorySync {
  import opened Text
  import opened Tables
  import opened Migration

  // ---- rows ----

  /** What UpsertInventoryItem stores of an item. */
  function Clean(item: Item): Item {
    Item(NormalizeProvider(item.provider), Trim(item.authID), Trim(item.authIndex), Trim(item.name),
      Trim(item.labelText), Trim(item.email), Trim(item.baseURL))
  }

  /** Rows only enter the table through UpsertInventoryItem. */
  ghost predicate CleanRows(inv: Inventory) {
    forall k | k in inv :: k.id != "" && Trim(k.id) == k.id && Clean(inv[k]) == inv[k]
  }

  lemma CleanTwice(item: Item)
    ensures Clean(Clean(item)) == Clean(item)
  {
    NormalizeProviderTwice(item.provider);
    TrimIsTrimmed(item.authID); TrimIsTrimmed(Trim(item.authID));
    TrimIsTrimmed(item.authIndex); TrimIsTrimmed(Trim(item.authIndex));
    TrimIsTrimmed(item.name); TrimIsTrimmed(Trim(item.name));
    TrimIsTrimmed(item.labelText); TrimIsTrimmed(Trim(item.labelText));
    TrimIsTrimmed(item.email); TrimIsTrimmed(Trim(item.email));
    TrimIsTrimmed(item.baseURL); TrimIsTrimmed(Trim(item.baseURL));
  }

  /** UpsertInventoryItem */
  function Upsert(inv: Inventory, id: string, kind: string, item: Item): Inventory {
    if Trim(id) == "" || NormalizeKind(kind) == "" then inv
      else inv[ItemKey(Trim(id), NormalizeKind(kind)) := Clean(item)]
  }

  lemma UpsertKeepsClean(inv: Inventory, id: string, kind: string, item: Item)
    requires CleanRows(inv)
    ensures CleanRows(Upsert(inv, id, kind, item))
  {
    CleanTwice(item);
    TrimIsTrimmed(id);
    TrimIsTrimmed(Trim(id));
  }

  // ---- auth files ----

  /** The row UpsertAuthFiles writes for an entry. */
  function EntryRow(e: Entry): Item {
    Item(EntryProvider(e), EntryID(e), Trim(e.authIndex), Trim(e.name), Trim(e.labelText), Trim(e.email), "")
  }

  function EntryKey(e: Entry): ItemKey {
    ItemKey(EntryID(e), AUTH_FILE)
  }

  lemma EntryRowIsClean(e: Entry)
    ensures Clean(EntryRow(e)) == EntryRow(e) && Trim(EntryID(e)) == EntryID(e)
  {
    NormalizeProviderTwice(FirstNonEmpty([e.provider, e.kind]));
    TrimIsTrimmed(FirstNonEmpty([e.id, e.authIndex, e.name])); TrimIsTrimmed(EntryID(e));
    TrimIsTrimmed(e.authIndex); TrimIsTrimmed(Trim(e.authIndex));
    TrimIsTrimmed(e.name); TrimIsTrimmed(Trim(e.name));
    TrimIsTrimmed(e.labelText); TrimIsTrimmed(Trim(e.labelText));
    TrimIsTrimmed(e.email); TrimIsTrimmed(Trim(e.email));
  }

  /** The identifiers of a snapshot. */
  function EntryIDs(entries: seq<Entry>): set<string> {
    set e | e in entries && EntryID(e) != "" :: EntryID(e)
  }

  /** Later entries of a snapshot overwrite earlier ones with the same identifier. */
  function LastEntry(entries: seq<Entry>, id: string): (e: Entry)
    requires id in EntryIDs(entries)
    ensures e in entries && EntryID(e) == id && id != ""
  {
    var n := |entries| - 1;
    if EntryID(entries[n]) == id then entries[n]
    else
      assert id in EntryIDs(entries[..n]) by {
        var e :| e in entries && EntryID(e) == id;
        assert e in entries[..n];
      }
      LastEntry(entries[..n], id)
  }

  /** The auth-file rows of a snapshot. */
  function EntryRows(entries: seq<Entry>): (rows: Inventory)
    ensures forall k :: k in rows <==> k.kind == AUTH_FILE && k.id in EntryIDs(entries)
    ensures forall k | k in rows :: rows[k] == EntryRow(LastEntry(entries, k.id))
  {
    map id | id in EntryIDs(entries) :: ItemKey(id, AUTH_FILE) := EntryRow(LastEntry(entries, id))
  }

  lemma EntryIDsAppend(entries: seq<Entry>, e: Entry)
    ensures EntryIDs(entries + [e]) == EntryIDs(entries) + if EntryID(e) == "" then {} else {EntryID(e)}
  {
    var all := entries + [e];
    assert all[|entries|] == e;
    forall id ensures id in EntryIDs(all) <==> id in EntryIDs(entries) || (id == EntryID(e) && id != "") {
      if id in EntryIDs(entries) {
        var x :| x in entries && EntryID(x) == id;
        assert x in all;
      }
      if id == EntryID(e) { assert e in all; }
    }
  }

  lemma LastEntryAppend(entries: seq<Entry>, e: Entry, id: string)
    requires id in EntryIDs(entries + [e])
    ensures LastEntry(entries + [e], id) == if id == EntryID(e) then e else LastEntry(entries, id)
  {
    EntryIDsAppend(entries, e);
    assert (entries + [e])[..|entries|] == entries;
  }

  lemma AddThenUpdate(inv: Inventory, rows: Inventory, k: ItemKey, item: Item)
    ensures inv + rows[k := item] == (inv + rows)[k := item]
  {
  }

  lemma EntryRowsKeys(entries: seq<Entry>, e: Entry)
    ensures EntryRows(entries + [e]).Keys == EntryRows(entries).Keys + if EntryID(e) == "" then {} else {EntryKey(e)}
  {
    hide EntryIDs, EntryRow, EntryID;
    EntryIDsAppend(entries, e);
    forall k: ItemKey ensures k in EntryRows(entries + [e]) <==>
      k in EntryRows(entries) || (EntryID(e) != "" && k == EntryKey(e)) {
    }
  }

  /** One more entry is one more row. */
  lemma EntryRowsAppend(inv: Inventory, entries: seq<Entry>, e: Entry)
    ensures inv + EntryRows(entries + [e]) ==
      if EntryID(e) == "" then inv + EntryRows(entries) else (inv + EntryRows(entries))[EntryKey(e) := EntryRow(e)]
  {
    hide EntryIDs, EntryRow, EntryID, LastEntry;
    var all, some := EntryRows(entries + [e]), EntryRows(entries);
    EntryRowsKeys(entries, e);
    forall k | k in all ensures all[k] == if k == EntryKey(e) then EntryRow(e) else some[k] {
      LastEntryAppend(entries, e, k.id);
    }
    if EntryID(e) == "" {
      assert all == some;
    } else {
      assert all == some[EntryKey(e) := EntryRow(e)];
      AddThenUpdate(inv, some, EntryKey(e), EntryRow(e));
    }
  }

  // ---- shadows: provider instances that are really auth files ----

  /** A provider-instance row without address, named provider:authID, whose authID is one of the aliases. */
  predicate IsShadow(k: ItemKey, item: Item, aliases: set<string>) {
    k.kind == PROVIDER_INSTANCE && item.baseURL == "" && item.authID in aliases &&
      k.id == item.provider + ":" + item.authID
  }

  /** deleteAuthFileProviderInstances */
  function DeleteShadows(inv: Inventory, aliases: set<string>): Inventory {
    map k | k in inv && !IsShadow(k, inv[k], aliases) :: inv[k]
  }

  function EntryAliases(entries: seq<Entry>): set<string> {
    set e, a | e in entries && a in Aliases(e) :: a
  }

  /** The aliases UpsertAuthFiles collects: those of the entries that have an identifier. */
  function StoredAliases(entries: seq<Entry>): set<string> {
    set e, a | e in entries && EntryID(e) != "" && a in Aliases(e) :: a
  }

  function RowNames(k: ItemKey, item: Item): seq<string> {
    [k.id, item.authID, item.authIndex, item.name]
  }

  /** Every non-empty name of an auth-file row. */
  function AuthFileNames(inv: Inventory): set<string> {
    set k, n | k in inv && k.kind == AUTH_FILE && n in Unique(RowNames(k, inv[k])) :: n
  }

  lemma EntryIDIsAName(e: Entry)
    ensures EntryID(e) == Trim(e.id) || EntryID(e) == Trim(e.authIndex) || EntryID(e) == Trim(e.name)
  {
    var a, b, c := [e.id, e.authIndex, e.name], [e.authIndex, e.name], [e.name];
    assert a[1..] == b && b[1..] == c && c[1..] == [];
    assert FirstNonEmpty([]) == "";
    assert FirstNonEmpty(c) == if Trim(e.name) != "" then e.name else "";
    assert FirstNonEmpty(b) == if Trim(e.authIndex) != "" then e.authIndex else FirstNonEmpty(c);
  }

  lemma RawIsAlias(e: Entry, i: nat)
    requires i < |RawAliases(e)| && Trim(RawAliases(e)[i]) != ""
    ensures Trim(RawAliases(e)[i]) in Aliases(e)
  {
    assert Occurs(Trim(RawAliases(e)[i]), RawAliases(e));
  }

  lemma TrimTwice(s: string)
    ensures Trim(Trim(s)) == Trim(s)
  {
    TrimIsTrimmed(s);
    TrimIsTrimmed(Trim(s));
  }

  /** The names of an entry's row are among the entry's aliases. */
  lemma RowNamesAreAliases(e: Entry, n: string)
    requires EntryID(e) != "" && n in Unique(RowNames(EntryKey(e), EntryRow(e)))
    ensures n in Aliases(e)
  {
    var names := RowNames(EntryKey(e), EntryRow(e));
    assert Occurs(n, names) && n != "";
    EntryIDIsAName(e);
    TrimTwice(FirstNonEmpty([e.id, e.authIndex, e.name]));
    TrimTwice(e.authIndex);
    TrimTwice(e.name);
    assert n == Trim(e.id) || n == Trim(e.authIndex) || n == Trim(e.name);
    assert RawAliases(e)[0] == e.id && RawAliases(e)[1] == e.authIndex && RawAliases(e)[2] == e.name;
    if n == Trim(e.id) { RawIsAlias(e, 0); }
    if n == Trim(e.authIndex) { RawIsAlias(e, 1); }
    if n == Trim(e.name) { RawIsAlias(e, 2); }
  }

  /** An auth file is never listed a second time as a provider instance. */
  ghost predicate NoShadows(inv: Inventory) {
    forall k | k in inv :: !IsShadow(k, inv[k], AuthFileNames(inv))
  }

  // ---- collected alias lists ----

  lemma OccursConcat(v: string, xs: seq<string>, ys: seq<string>)
    ensures Occurs(v, xs + ys) <==> Occurs(v, xs) || Occurs(v, ys)
  {
    var all := xs + ys;
    if Occurs(v, xs) {
      var i :| 0 <= i < |xs| && Trim(xs[i]) == v;
      assert Trim(all[i]) == v;
    }
    if Occurs(v, ys) {
      var i :| 0 <= i < |ys| && Trim(ys[i]) == v;
      assert Trim(all[|xs| + i]) == v;
    }
    if Occurs(v, all) {
      var i :| 0 <= i < |all| && Trim(all[i]) == v;
      assert i < |xs| ==> Trim(xs[i]) == v;
      assert i >= |xs| ==> Trim(ys[i - |xs|]) == v;
    }
  }

  function Names(values: seq<string>): set<string> {
    set v | v in Unique(values)
  }

  lemma NamesConcat(xs: seq<string>, ys: seq<string>)
    ensures Names(xs + ys) == Names(xs) + Names(ys)
  {
    forall v ensures v in Names(xs + ys) <==> v in Names(xs) + Names(ys) {
      OccursConcat(v, xs, ys);
    }
  }

  /** What UpsertAuthFiles appends for an entry it stores. */
  function StoredNames(e: Entry): seq<string> {
    [EntryID(e), EntryID(e), Trim(e.authIndex), Trim(e.name)] + if e.path == "" then [] else [Base(e.path)]
  }

  lemma StoredNamesAreAliases(e: Entry)
    requires EntryID(e) != ""
    ensures Names(StoredNames(e)) == Names(RawAliases(e))
  {
    var tail := if e.path == "" then [] else [Base(e.path)];
    var xs, ys := [EntryID(e), EntryID(e), Trim(e.authIndex), Trim(e.name)], [e.id, e.authIndex, e.name];
    EntryIDIsAName(e);
    BlankIDFalls(e);
    TrimTwice(FirstNonEmpty(ys));
    TrimTwice(e.authIndex);
    TrimTwice(e.name);
    forall v | v != "" ensures Occurs(v, xs) <==> Occurs(v, ys) {
      assert Occurs(v, xs) <==> v == EntryID(e) || v == Trim(e.authIndex) || v == Trim(e.name) by { OccursFour(v, xs); }
      assert Occurs(v, ys) <==>
        v == Trim(e.id) || v == Trim(e.authIndex) || v == Trim(e.name) by { OccursThree(v, ys); }
    }
    assert Names(xs) == Names(ys);
    NamesConcat(xs, tail);
    NamesConcat(ys, tail);
  }

  lemma BlankIDFalls(e: Entry)
    ensures Trim(e.id) != "" ==> EntryID(e) == Trim(e.id)
  {
  }

  lemma OccursThree(v: string, xs: seq<string>)
    requires |xs| == 3
    ensures Occurs(v, xs) <==> v == Trim(xs[0]) || v == Trim(xs[1]) || v == Trim(xs[2])
  {
  }

  lemma OccursFour(v: string, xs: seq<string>)
    requires |xs| == 4
    ensures Occurs(v, xs) <==> v == Trim(xs[0]) || v == Trim(xs[1]) || v == Trim(xs[2]) || v == Trim(xs[3])
  {
  }

  lemma StoredAliasesAppend(entries: seq<Entry>, e: Entry)
    ensures StoredAliases(entries + [e]) == StoredAliases(entries) + if EntryID(e) == "" then {}
      else Names(RawAliases(e))
    ensures EntryAliases(entries + [e]) == EntryAliases(entries) + Names(RawAliases(e))
  {
    hide Unique, EntryID;
    var all := entries + [e];
    assert all[|entries|] == e && forall x :: x in all <==> x in entries || x == e;
    forall a ensures a in StoredAliases(all) <==>
      a in StoredAliases(entries) || (EntryID(e) != "" && a in Names(RawAliases(e))) {
      if a in StoredAliases(entries) {
        var x :| x in entries && EntryID(x) != "" && a in Aliases(x);
        assert x in all;
      }
      if EntryID(e) != "" && a in Names(RawAliases(e)) { assert e in all && a in Aliases(e); }
    }
    forall a ensures a in EntryAliases(all) <==> a in EntryAliases(entries) || a in Names(RawAliases(e)) {
      if a in EntryAliases(entries) {
        var x :| x in entries && a in Aliases(x);
        assert x in all;
      }
      if a in Names(RawAliases(e)) { assert e in all && a in Aliases(e); }
    }
  }

  // ---- UpsertAuthFiles ----

  function Upserted(inv: Inventory, entries: seq<Entry>): Inventory {
    DeleteShadows(inv + EntryRows(entries), StoredAliases(entries))
  }

  lemma NamesAfterUpsert(inv: Inventory, entries: seq<Entry>, n: string)
    requires n in AuthFileNames(Upserted(inv, entries))
    ensures n in AuthFileNames(inv) || n in StoredAliases(entries)
  {
    var after := Upserted(inv, entries);
    var k :| k in after && k.kind == AUTH_FILE && n in Unique(RowNames(k, after[k]));
    if k in EntryRows(entries) {
      RowNamesAreAliases(LastEntry(entries, k.id), n);
    }
  }

  lemma UpsertAuthFilesKeepsNoShadows(inv: Inventory, entries: seq<Entry>)
    requires NoShadows(inv)
    ensures NoShadows(Upserted(inv, entries))
  {
    var after := Upserted(inv, entries);
    forall k | k in after ensures !IsShadow(k, after[k], AuthFileNames(after)) {
      if k.kind == PROVIDER_INSTANCE && after[k].authID in AuthFileNames(after) {
        NamesAfterUpsert(inv, entries, after[k].authID);
      }
    }
  }

  // ---- SyncAuthFiles ----

  /** All names under which an auth file, stored or listed, may have been taken for a provider instance. */
  function SyncAliases(inv: Inventory, entries: seq<Entry>): set<string> {
    AuthFileNames(inv) + EntryAliases(entries)
  }

  /** The inventory after a synchronisation: other rows minus shadows, and exactly the listed auth files. */
  function Synced(inv: Inventory, entries: seq<Entry>): Inventory {
    (map k | k in inv && k.kind != AUTH_FILE && !IsShadow(k, inv[k], SyncAliases(inv, entries)) :: inv[k]) +
      EntryRows(entries)
  }

  /** The last statement of SyncAuthFiles: the auth files that are not listed go. */
  function Listed(inv: Inventory, ids: set<string>): Inventory {
    map k | k in inv && !(k.kind == AUTH_FILE && k.id !in ids) :: inv[k]
  }

  /** SyncAuthFiles phase by phase: upsert, delete shadows of every alias, delete the auth files not listed. */
  function SyncPhases(inv: Inventory, entries: seq<Entry>): Inventory {
    Listed(DeleteShadows(Upserted(inv, entries), SyncAliases(inv, entries)), EntryIDs(entries))
  }

  lemma PhasesCommute(inv: Inventory, rows: Inventory, stored: set<string>, all: set<string>, ids: set<string>)
    requires stored <= all && forall k: ItemKey :: k in rows <==> k.kind == AUTH_FILE && k.id in ids
    ensures Listed(DeleteShadows(DeleteShadows(inv + rows, stored), all), ids) ==
      (map k | k in inv && k.kind != AUTH_FILE && !IsShadow(k, inv[k], all) :: inv[k]) + rows
  {
  }

  lemma PhasesAreSynced(inv: Inventory, entries: seq<Entry>)
    ensures SyncPhases(inv, entries) == Synced(inv, entries)
  {
    assert StoredAliases(entries) <= SyncAliases(inv, entries);
    PhasesCommute(inv, EntryRows(entries), StoredAliases(entries), SyncAliases(inv, entries), EntryIDs(entries));
  }

  /** The stored auth files are exactly the listed ones, and every other row is untouched unless it shadows an alias. */
  lemma SyncIsExact(inv: Inventory, entries: seq<Entry>)
    ensures (set k | k in Synced(inv, entries) && k.kind == AUTH_FILE :: k.id) == EntryIDs(entries)
    ensures forall k: ItemKey | k.kind != AUTH_FILE ::
      (k in Synced(inv, entries) <==> k in inv && !IsShadow(k, inv[k], SyncAliases(inv, entries))) &&
      (k in Synced(inv, entries) ==> Synced(inv, entries)[k] == inv[k])
  {
    var after := Synced(inv, entries);
    forall id ensures id in (set k | k in after && k.kind == AUTH_FILE :: k.id) <==> id in EntryIDs(entries) {
      if id in EntryIDs(entries) { assert ItemKey(id, AUTH_FILE) in after; }
    }
  }

  lemma NamesAfterSync(inv: Inventory, entries: seq<Entry>)
    ensures AuthFileNames(Synced(inv, entries)) <= EntryAliases(entries)
  {
    var after := Synced(inv, entries);
    forall n | n in AuthFileNames(after) ensures n in EntryAliases(entries) {
      var k :| k in after && k.kind == AUTH_FILE && n in Unique(RowNames(k, after[k]));
      RowNamesAreAliases(LastEntry(entries, k.id), n);
    }
  }

  /** A second synchronisation with the same listing changes nothing. */
  lemma SyncIsIdempotent(inv: Inventory, entries: seq<Entry>)
    ensures Synced(Synced(inv, entries), entries) == Synced(inv, entries)
  {
    NamesAfterSync(inv, entries);
    assert SyncAliases(Synced(inv, entries), entries) <= SyncAliases(inv, entries);
    ReplacedTwice(inv, EntryRows(entries), SyncAliases(inv, entries), SyncAliases(Synced(inv, entries), entries));
  }

  lemma ReplacedTwice(inv: Inventory, rows: Inventory, all: set<string>, fewer: set<string>)
    requires fewer <= all && forall k | k in rows :: k.kind == AUTH_FILE
    ensures var once := (map k | k in inv && k.kind != AUTH_FILE && !IsShadow(k, inv[k], all) :: inv[k]) + rows;
      (map k | k in once && k.kind != AUTH_FILE && !IsShadow(k, once[k], fewer) :: once[k]) + rows == once
  {
  }

  /** Synchronising establishes that no auth file is listed twice, whatever the table held before. */
  lemma SyncRemovesShadows(inv: Inventory, entries: seq<Entry>)
    ensures NoShadows(Synced(inv, entries))
  {
    NamesAfterSync(inv, entries);
  }

  // ---- UpsertProviderCandidates ----

  /** How well an auth-file row matches a candidate's identifier; 4 is no match. */
  function Rank(k: ItemKey, item: Item, authID: string): nat {
    if k.id == authID then 0 else if item.authID == authID then 1
    else if item.authIndex == authID then 2 else if item.name == authID then 3 else 4
  }

  predicate IsAuthFileFor(inv: Inventory, k: ItemKey, authID: string) {
    k in inv && k.kind == AUTH_FILE && Rank(k, inv[k], authID) < 4
  }

  /** authFileByCandidate: some best-ranked auth file (SQL leaves ties open). */
  ghost predicate BestAuthFile(inv: Inventory, k: ItemKey, authID: string) {
    IsAuthFileFor(inv, k, authID) && forall j | IsAuthFileFor(inv, j, authID) ::
      Rank(k, inv[k], authID) <= Rank(j, inv[j], authID)
  }

  ghost predicate HasAuthFile(inv: Inventory, authID: string) {
    exists k :: IsAuthFileFor(inv, k, authID)
  }

  /** The provider-instance row a candidate leaves, keeping display fields of an existing row. */
  function CandidateRow(c: Candidate, inv: Inventory, k: ItemKey): Item {
    var authIndex, baseURL := AuthIndexOf(c), BaseURLOf(c);
    if k in inv then
      Item(NormalizeProvider(c.provider), Trim(c.id), if authIndex == "" then inv[k].authIndex else authIndex,
        inv[k].name, inv[k].labelText, inv[k].email, if baseURL == "" then inv[k].baseURL else baseURL)
    else Item(NormalizeProvider(c.provider), Trim(c.id), authIndex, "", "", "", baseURL)
  }

  predicate Teaches(c: Candidate) {
    NormalizeProvider(c.provider) != "" && Trim(c.id) != ""
  }

  function InstanceKey(normalizeURL: string -> string, c: Candidate): ItemKey {
    ItemKey(ProviderInstanceID(normalizeURL, NormalizeProvider(c.provider), Trim(c.id), AuthIndexOf(c), BaseURLOf(c)),
      PROVIDER_INSTANCE)
  }

  /** One iteration of UpsertProviderCandidates. */
  ghost predicate Learned(normalizeURL: string -> string, inv: Inventory, c: Candidate, after: Inventory) {
    if !Teaches(c) then after == inv
    else if HasAuthFile(inv, Trim(c.id)) then
      exists k ::
        BestAuthFile(inv, k, Trim(c.id)) &&
        after == Upsert(inv, k.id, k.kind, inv[k].(provider := NormalizeProvider(c.provider)))
    else
      var k := InstanceKey(normalizeURL, c);
      after == Upsert(inv, k.id, k.kind, CandidateRow(c, inv, k))
  }

  ghost predicate LearnedAll(normalizeURL: string -> string, inv: Inventory, cs: seq<Candidate>, after: Inventory) {
    if cs == [] then after == inv
    else
      var front, last := cs[..|cs| - 1], cs[|cs| - 1];
      exists mid :: LearnedAll(normalizeURL, inv, front, mid) && Learned(normalizeURL, mid, last, after)
  }

  lemma LearnedNothing(normalizeURL: string -> string, inv: Inventory)
    ensures LearnedAll(normalizeURL, inv, [], inv)
  {
  }

  lemma LearnedNext(normalizeURL: string -> string, inv: Inventory, cs: seq<Candidate>, mid: Inventory, c: Candidate,
        after: Inventory)
    requires LearnedAll(normalizeURL, inv, cs, mid) && Learned(normalizeURL, mid, c, after)
    ensures LearnedAll(normalizeURL, inv, cs + [c], after)
  {
    assert (cs + [c])[..|cs|] == cs;
  }

  lemma NamedMeansMatched(inv: Inventory, n: string)
    requires CleanRows(inv)
    ensures n in AuthFileNames(inv) <==> n != "" && HasAuthFile(inv, n)
  {
    if n in AuthFileNames(inv) {
      var k :| k in inv && k.kind == AUTH_FILE && n in Unique(RowNames(k, inv[k]));
      RowNameMatches(inv, k, n);
      assert IsAuthFileFor(inv, k, n);
    }
    if n != "" && HasAuthFile(inv, n) {
      var k :| IsAuthFileFor(inv, k, n);
      RowNameMatches(inv, k, n);
    }
  }

  lemma RowNameMatches(inv: Inventory, k: ItemKey, n: string)
    requires CleanRows(inv) && k in inv
    ensures n in Unique(RowNames(k, inv[k])) <==> n != "" && Rank(k, inv[k], n) < 4
  {
    var names := RowNames(k, inv[k]);
    assert Clean(inv[k]) == inv[k];
    assert Trim(names[0]) == names[0] && Trim(names[1]) == names[1] && Trim(names[2]) == names[2] &&
      Trim(names[3]) == names[3];
    assert Occurs(n, names) <==> n in names;
  }

  lemma NamesUnchanged(inv: Inventory, after: Inventory)
    requires forall k | k in after && k.kind == AUTH_FILE :: k in inv && RowNames(k, after[k]) == RowNames(k, inv[k])
    ensures AuthFileNames(after) <= AuthFileNames(inv)
  {
    forall n | n in AuthFileNames(after) ensures n in AuthFileNames(inv) {
      var k :| k in after && k.kind == AUTH_FILE && n in Unique(RowNames(k, after[k]));
    }
  }

  lemma FewerNamesNoShadows(inv: Inventory, after: Inventory, k: ItemKey)
    requires NoShadows(inv) && AuthFileNames(after) <= AuthFileNames(inv)
    requires forall j | j in after && j != k :: j in inv && after[j] == inv[j]
    requires k in after ==> !IsShadow(k, after[k], AuthFileNames(inv))
    ensures NoShadows(after)
  {
    forall j | j in after ensures !IsShadow(j, after[j], AuthFileNames(after)) {
      assert j != k ==> !IsShadow(j, inv[j], AuthFileNames(inv));
    }
  }

  lemma UpsertTrimmed(inv: Inventory, id: string, kind: string, item: Item)
    requires id != "" && Trim(id) == id && kind in {AUTH_FILE, PROVIDER_INSTANCE}
    ensures Upsert(inv, id, kind, item) == inv[ItemKey(id, kind) := Clean(item)]
  {
    hide NormalizeKind, Trim;
    KindConstants();
  }

  /** A candidate that is an auth file only updates the provider of one matching row. */
  lemma LearnedFromAuthFile(normalizeURL: string -> string, inv: Inventory, c: Candidate, after: Inventory)
        returns (k: ItemKey)
    requires CleanRows(inv) && Learned(normalizeURL, inv, c, after) && Teaches(c) && HasAuthFile(inv, Trim(c.id))
    ensures k in inv && k.kind == AUTH_FILE && after == inv[k := inv[k].(provider := NormalizeProvider(c.provider))] &&
      CleanRows(after)
  {
    hide Upsert, Rank, ProviderInstanceID;
    k :| BestAuthFile(inv, k, Trim(c.id)) &&
      after == Upsert(inv, k.id, k.kind, inv[k].(provider := NormalizeProvider(c.provider)));
    UpsertTrimmed(inv, k.id, k.kind, inv[k].(provider := NormalizeProvider(c.provider)));
    NormalizeProviderTwice(c.provider);
    assert Clean(inv[k]) == inv[k];
  }

  lemma InstanceKeyOf(normalizeURL: string -> string, c: Candidate)
    requires Teaches(c)
    ensures var k := InstanceKey(normalizeURL, c);
      k.id == NormalizeProvider(c.provider) + ":" + Trim(c.id) && Trim(k.id) == k.id && k.id != ""
  {
    NormalizeProviderTwice(c.provider);
    TrimTwice(c.id);
    TrimIsTrimmed(c.id);
    var s := NormalizeProvider(c.provider) + ":" + Trim(c.id);
    assert s[0] == NormalizeProvider(c.provider)[0] && s[|s| - 1] == Trim(c.id)[|Trim(c.id)| - 1];
    TrimIsTrimmed(s);
  }

  lemma InstanceKeyIsTrimmed(normalizeURL: string -> string, c: Candidate)
    requires Teaches(c)
    ensures var k := InstanceKey(normalizeURL, c); k.id != "" && Trim(k.id) == k.id
  {
    InstanceKeyOf(normalizeURL, c);
  }

  /** Any other candidate writes one provider-instance row under its own identifier. */
  lemma LearnedInstance(normalizeURL: string -> string, inv: Inventory, c: Candidate, after: Inventory)
    requires CleanRows(inv) && Learned(normalizeURL, inv, c, after) && Teaches(c) && !HasAuthFile(inv, Trim(c.id))
    ensures var k := InstanceKey(normalizeURL, c);
      after == inv[k := Clean(CandidateRow(c, inv, k))] && CleanRows(after) &&
      after[k].authID == Trim(c.id) && after[k].provider == NormalizeProvider(c.provider)
  {
    hide Upsert, ProviderInstanceID, CleanRows;
    var k := InstanceKey(normalizeURL, c);
    InstanceKeyIsTrimmed(normalizeURL, c);
    UpsertTrimmed(inv, k.id, k.kind, CandidateRow(c, inv, k));
    UpsertKeepsClean(inv, k.id, k.kind, CandidateRow(c, inv, k));
    NormalizeProviderTwice(c.provider);
    TrimTwice(c.id);
  }

  lemma ProviderChangeKeepsNoShadows(inv: Inventory, k: ItemKey, provider: string)
    requires NoShadows(inv) && k in inv && k.kind == AUTH_FILE
    ensures NoShadows(inv[k := inv[k].(provider := provider)])
  {
    hide NoShadows, AuthFileNames;
    var after := inv[k := inv[k].(provider := provider)];
    NamesUnchanged(inv, after);
    FewerNamesNoShadows(inv, after, k);
  }

  lemma NewInstanceKeepsNoShadows(inv: Inventory, k: ItemKey, row: Item)
    requires NoShadows(inv) && k.kind == PROVIDER_INSTANCE && row.authID !in AuthFileNames(inv)
    ensures NoShadows(inv[k := row])
  {
    hide NoShadows, AuthFileNames;
    NamesUnchanged(inv, inv[k := row]);
    FewerNamesNoShadows(inv, inv[k := row], k);
  }

  lemma LearningKeepsNoShadows(normalizeURL: string -> string, inv: Inventory, c: Candidate, after: Inventory)
    requires CleanRows(inv) && NoShadows(inv) && Learned(normalizeURL, inv, c, after)
    ensures CleanRows(after) && NoShadows(after)
  {
    assert Teaches(c) || after == inv;
    hide ProviderInstanceID, Rank, NoShadows, AuthFileNames, CleanRows, Learned, HasAuthFile, Teaches;
    if Teaches(c) && HasAuthFile(inv, Trim(c.id)) {
      var k := LearnedFromAuthFile(normalizeURL, inv, c, after);
      ProviderChangeKeepsNoShadows(inv, k, NormalizeProvider(c.provider));
    } else if Teaches(c) {
      LearnedInstance(normalizeURL, inv, c, after);
      NamedMeansMatched(inv, Trim(c.id));
      var k := InstanceKey(normalizeURL, c);
      NewInstanceKeepsNoShadows(inv, k, after[k]);
    }
  }

  lemma {:induction false} LearningAllKeepsNoShadows(normalizeURL: string -> string, inv: Inventory,
        cs: seq<Candidate>, after: Inventory)
    requires CleanRows(inv) && NoShadows(inv) && LearnedAll(normalizeURL, inv, cs, after)
    ensures CleanRows(after) && NoShadows(after)
    decreases cs
  {
    if cs != [] {
      var front, last := cs[..|cs| - 1], cs[|cs| - 1];
      var mid :| LearnedAll(normalizeURL, inv, front, mid) && Learned(normalizeURL, mid, last, after);
      LearningAllKeepsNoShadows(normalizeURL, inv, front, mid);
      LearningKeepsNoShadows(normalizeURL, mid, last, after);
    }
  }

  lemma UpsertKeepsCleanRows(inv: Inventory, entries: seq<Entry>)
    requires CleanRows(inv)
    ensures CleanRows(inv + EntryRows(entries)) && CleanRows(Upserted(inv, entries)) && CleanRows(Synced(inv, entries))
  {
    forall k | k in EntryRows(entries) ensures k.id != "" && Trim(k.id) == k.id &&
      Clean(EntryRows(entries)[k]) == EntryRows(entries)[k] {
      EntryRowIsClean(LastEntry(entries, k.id));
    }
  }

  // ---- all runs ----

  datatype Change =
    | UpsertFiles(entries: seq<Entry>)
    | SyncFiles(entries: seq<Entry>)
    | Learn(candidates: seq<Candidate>)

  ghost predicate Changes(normalizeURL: string -> string, inv: Inventory, change: Change, after: Inventory) {
    match change
    case UpsertFiles(entries) => after == Upserted(inv, entries)
    case SyncFiles(entries) => after == Synced(inv, entries)
    case Learn(cs) => LearnedAll(normalizeURL, inv, cs, after)
  }

  /** invs is a run: each table arises from the one before by the change at that position. */
  ghost predicate IsHistory(normalizeURL: string -> string, invs: seq<Inventory>, changes: seq<Change>) {
    |invs| == |changes| + 1 && forall i | 0 <= i < |changes| :: Changes(normalizeURL, invs[i], changes[i], invs[i + 1])
  }

  /** In every run from the empty table no auth file is ever listed a second time as a provider instance. */
  lemma {:induction false} NeverShadowed(normalizeURL: string -> string, invs: seq<Inventory>, changes: seq<Change>,
        i: nat)
    requires IsHistory(normalizeURL, invs, changes) && invs[0] == map[] && i < |invs|
    ensures CleanRows(invs[i]) && NoShadows(invs[i])
  {
    if i > 0 {
      NeverShadowed(normalizeURL, invs, changes, i - 1);
      assert Changes(normalizeURL, invs[i - 1], changes[i - 1], invs[i - 1 + 1]);
      ChangeKeepsNoShadows(normalizeURL, invs[i - 1], changes[i - 1], invs[i]);
    }
  }

  lemma ChangeKeepsNoShadows(normalizeURL: string -> string, inv: Inventory, change: Change, after: Inventory)
    requires CleanRows(inv) && NoShadows(inv) && Changes(normalizeURL, inv, change, after)
    ensures CleanRows(after) && NoShadows(after)
  {
    hide CleanRows, NoShadows, Upserted, Synced, LearnedAll;
    match change
    case UpsertFiles(entries) =>
      UpsertAuthFilesKeepsNoShadows(inv, entries);
      UpsertKeepsCleanRows(inv, entries);
    case SyncFiles(entries) =>
      SyncRemovesShadows(inv, entries);
      UpsertKeepsCleanRows(inv, entries);
    case Learn(cs) => LearningAllKeepsNoShadows(normalizeURL, inv, cs, after);
  }
}
