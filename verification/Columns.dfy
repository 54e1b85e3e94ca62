/** Which field of an entry or candidate ends in which column of the inventory. */
module Columns {
  import opened Text
  import opened Tables
  import opened Migration
  import opened InventorySync
  import opened Naming

  /** UpsertInventoryItem writes one row, trimmed and with its provider normalised, or nothing without a full key. */
  lemma StoredItem(inv: Inventory, id: string, kind: string, item: Item)
    ensures Trim(id) == "" || NormalizeKind(kind) == "" ==> Upsert(inv, id, kind, item) == inv
    ensures Trim(id) != "" && NormalizeKind(kind) != "" ==>
      var k, after := ItemKey(Trim(id), NormalizeKind(kind)), Upsert(inv, id, kind, item);
      after.Keys == inv.Keys + {k} && (forall j | j in inv && j != k :: after[j] == inv[j]) &&
      after[k].provider == NormalizeProvider(item.provider) && after[k].authID == Trim(item.authID) &&
      after[k].authIndex == Trim(item.authIndex) && after[k].name == Trim(item.name) &&
      after[k].labelText == Trim(item.labelText) && after[k].email == Trim(item.email) &&
      after[k].baseURL == Trim(item.baseURL)
  {
    hide Trim, NormalizeKind, NormalizeProvider;
  }

  // ---- auth files ----

  /** An entry is stored under its id, else its index, else its name; its provider is its provider, else its kind. */
  lemma EntryNamed(e: Entry)
    ensures EntryID(e) == if Trim(e.id) != "" then Trim(e.id) else if Trim(e.authIndex) != "" then Trim(e.authIndex)
      else Trim(e.name)
    ensures EntryProvider(e) == NormalizeProvider(if Trim(e.provider) != "" then e.provider else e.kind)
  {
    var a, b, c := [e.id, e.authIndex, e.name], [e.authIndex, e.name], [e.name];
    assert a[1..] == b && b[1..] == c && c[1..] == [];
    assert FirstNonEmpty(c) == if Trim(e.name) != "" then e.name else "";
    assert FirstNonEmpty(b) == if Trim(e.authIndex) != "" then e.authIndex else FirstNonEmpty(c);
    var p, q := [e.provider, e.kind], [e.kind];
    assert p[1..] == q && q[1..] == [];
    assert FirstNonEmpty(q) == if Trim(e.kind) != "" then e.kind else "";
    assert Trim("") == "" && Lower("") == "";
    hide Trim;
    if Trim(e.kind) == "" { assert NormalizeProvider("") == NormalizeProvider(e.kind); }
  }

  /** i is the last entry stored under the identifier. */
  ghost predicate LastStored(entries: seq<Entry>, id: string, i: int) {
    0 <= i < |entries| && EntryID(entries[i]) == id && id != "" &&
    forall j | i < j < |entries| :: EntryID(entries[j]) != id
  }

  lemma {:induction false} LastEntryExactly(entries: seq<Entry>, id: string, i: int)
    requires LastStored(entries, id, i)
    ensures id in EntryIDs(entries) && LastEntry(entries, id) == entries[i]
  {
    hide EntryID;
    assert entries[i] in entries;
    var n := |entries| - 1;
    if i < n {
      assert LastStored(entries[..n], id, i);
      LastEntryExactly(entries[..n], id, i);
    }
  }

  /** The columns of the row an entry leaves. */
  predicate EntryColumns(e: Entry, item: Item) {
    item.provider == NormalizeProvider(if Trim(e.provider) != "" then e.provider else e.kind) &&
    item.authID == EntryID(e) && item.authIndex == Trim(e.authIndex) && item.name == Trim(e.name) &&
    item.labelText == Trim(e.labelText) && item.email == Trim(e.email) && item.baseURL == ""
  }

  /**
   * Of the entries with one identifier the last gives the row its columns, in an upsert as in a synchronisation. Other
   * auth files keep their rows in an upsert and lose them in a synchronisation.
   */
  lemma AuthFileRow(inv: Inventory, entries: seq<Entry>, id: string)
    ensures var k := ItemKey(id, "auth_file");
      (forall i | LastStored(entries, id, i) ::
        k in Upserted(inv, entries) && EntryColumns(entries[i], Upserted(inv, entries)[k]) &&
        k in Synced(inv, entries) && EntryColumns(entries[i], Synced(inv, entries)[k])) &&
      ((forall i | 0 <= i < |entries| :: EntryID(entries[i]) != id) || id == "" ==>
        k !in Synced(inv, entries) && (k in Upserted(inv, entries) <==> k in inv) &&
        (k in inv ==> Upserted(inv, entries)[k] == inv[k]))
  {
    var k := ItemKey(id, AUTH_FILE);
    forall i | LastStored(entries, id, i)
      ensures k in EntryRows(entries) && EntryColumns(entries[i], EntryRows(entries)[k])
    {
      LastEntryExactly(entries, id, i);
      EntryNamed(entries[i]);
    }
    hide EntryID, EntryColumns, EntryProvider, StoredAliases, AuthFileNames, EntryAliases, NormalizeProvider, Trim,
      EntryRow, LastStored;
  }

  // ---- candidates ----

  /** Some auth file is stored under the value; has it as its account; as its index; as its name. */
  ghost predicate ById(inv: Inventory, v: string) {
    ItemKey(v, "auth_file") in inv
  }

  ghost predicate ByAccount(inv: Inventory, v: string) {
    exists k :: k in inv && k.kind == "auth_file" && inv[k].authID == v
  }

  ghost predicate ByIndex(inv: Inventory, v: string) {
    exists k :: k in inv && k.kind == "auth_file" && inv[k].authIndex == v
  }

  ghost predicate ByName(inv: Inventory, v: string) {
    exists k :: k in inv && k.kind == "auth_file" && inv[k].name == v
  }

  /** A candidate is an auth file if one goes by its identifier; the stored identifier counts before the columns. */
  lemma BestMatchExactly(inv: Inventory, k: ItemKey, v: string)
    requires BestAuthFile(inv, k, v)
    ensures k in inv && k.kind == "auth_file"
    ensures if ById(inv, v) then k.id == v
      else if ByAccount(inv, v) then inv[k].authID == v
      else if ByIndex(inv, v) then inv[k].authIndex == v
      else inv[k].name == v
  {
    if ById(inv, v) { assert IsAuthFileFor(inv, ItemKey(v, AUTH_FILE), v); }
    if j :| j in inv && j.kind == AUTH_FILE && inv[j].authID == v { assert IsAuthFileFor(inv, j, v); }
    if j :| j in inv && j.kind == AUTH_FILE && inv[j].authIndex == v { assert IsAuthFileFor(inv, j, v); }
  }

  lemma MatchedExactly(inv: Inventory, v: string)
    ensures HasAuthFile(inv, v) <==> ById(inv, v) || ByAccount(inv, v) || ByIndex(inv, v) || ByName(inv, v)
  {
    if ById(inv, v) { assert IsAuthFileFor(inv, ItemKey(v, AUTH_FILE), v); }
    if j :| j in inv && j.kind == AUTH_FILE && (inv[j].authID == v || inv[j].authIndex == v || inv[j].name == v) {
      assert IsAuthFileFor(inv, j, v);
    }
    if j :| IsAuthFileFor(inv, j, v) {
      assert j == ItemKey(j.id, AUTH_FILE);
    }
  }

  /** The value the candidate gives an attribute under the first of its names that is not blank. */
  predicate Given(c: Candidate, names: seq<string>, v: string) {
    if names == [] then v == ""
    else if Says(c, names[0]) then v == Trim(c.attributes[names[0]])
    else Given(c, names[1..], v)
  }

  /** What a row holds: what the candidate gives, else what the row held before. */
  predicate GivenOrKept(c: Candidate, names: seq<string>, v: string, kept: string) {
    if Given(c, names, "") then v == kept else Given(c, names, v)
  }

  const NO_ITEM := Item("", "", "", "", "", "", "")

  /** The columns a candidate leaves in its row, given what the row held. */
  ghost predicate CandidateColumns(c: Candidate, was: Item, item: Item) {
    item.provider == NormalizeProvider(c.provider) && item.authID == Trim(c.id) &&
    GivenOrKept(c, ["auth_index", "index"], item.authIndex, was.authIndex) &&
    GivenOrKept(c, ["base_url", "url", "endpoint"], item.baseURL, was.baseURL) &&
    item.name == was.name && item.labelText == was.labelText && item.email == was.email
  }

  lemma CandidateRowColumns(c: Candidate, inv: Inventory, k: ItemKey)
    requires CleanRows(inv)
    ensures CandidateColumns(c, if k in inv then inv[k] else NO_ITEM, Clean(CandidateRow(c, inv, k)))
  {
    assert k in inv ==> Clean(inv[k]) == inv[k];
    NormalizeProviderTwice(c.provider);
    TrimTwice(c.id);
    assert Trim("") == "";
    AttributesGiven(c);
    hide Trim, NormalizeProvider, AuthIndexOf, BaseURLOf, Given;
    var x, u := AuthIndexOf(c), BaseURLOf(c);
    assert Given(c, ["auth_index", "index"], x) && (Given(c, ["auth_index", "index"], "") <==> x == "");
    assert Given(c, ["base_url", "url", "endpoint"], u) && (Given(c, ["base_url", "url", "endpoint"], "") <==> u == "");
  }

  /**
   * Learning a candidate that is no auth file writes the row provider:account. Index and address are those of its
   * attributes, or kept if it gives none; name, label and email are always kept; and no other row changes.
   */
  lemma LearnedRow(normalizeURL: string -> string, inv: Inventory, c: Candidate, after: Inventory)
    requires CleanRows(inv) && Learned(normalizeURL, inv, c, after)
    requires NormalizeProvider(c.provider) != "" && Trim(c.id) != "" && !HasAuthFile(inv, Trim(c.id))
    ensures var k := ItemKey(NormalizeProvider(c.provider) + ":" + Trim(c.id), "provider_instance");
      after.Keys == inv.Keys + {k} && (forall j | j in inv && j != k :: after[j] == inv[j]) &&
      CandidateColumns(c, if k in inv then inv[k] else NO_ITEM, after[k])
  {
    hide *;
    InstanceKeyIs(normalizeURL, c);
    LearnedInstance(normalizeURL, inv, c, after);
    CandidateRowColumns(c, inv, InstanceKey(normalizeURL, c));
  }

  lemma InstanceKeyIs(normalizeURL: string -> string, c: Candidate)
    requires NormalizeProvider(c.provider) != "" && Trim(c.id) != ""
    ensures Teaches(c) &&
      InstanceKey(normalizeURL, c) == ItemKey(NormalizeProvider(c.provider) + ":" + Trim(c.id), "provider_instance")
  {
    InstanceKeyOf(normalizeURL, c);
    hide Trim, NormalizeProvider, ProviderInstanceID;
  }

  lemma AttributesGiven(c: Candidate)
    ensures forall v :: Given(c, ["auth_index", "index"], v) <==> v == AuthIndexOf(c)
    ensures forall v :: Given(c, ["base_url", "url", "endpoint"], v) <==> v == BaseURLOf(c)
    ensures Trim(AuthIndexOf(c)) == AuthIndexOf(c) && Trim(BaseURLOf(c)) == BaseURLOf(c)
  {
    AttributesExact(c);
    assert Trim("") == "";
    forall s ensures Trim(Trim(s)) == Trim(s) { TrimTwice(s); }
    hide Trim, AuthIndexOf, BaseURLOf;
    var xs, ys := ["auth_index", "index"], ["base_url", "url", "endpoint"];
    assert xs[1..] == ["index"] && ["index"][1..] == [];
    assert ys[1..] == ["url", "endpoint"] && ["url", "endpoint"][1..] == ["endpoint"] && ["endpoint"][1..] == [];
    forall v ensures Given(c, xs, v) <==> v == AuthIndexOf(c) {
      assert Given(c, ["index"], v) <==> v == if Says(c, "index") then Trim(c.attributes["index"]) else "";
    }
    forall v ensures Given(c, ys, v) <==> v == BaseURLOf(c) {
      assert Given(c, ["endpoint"], v) <==> v == if Says(c, "endpoint") then Trim(c.attributes["endpoint"]) else "";
      assert Given(c, ["url", "endpoint"], v) <==>
        if Says(c, "url") then v == Trim(c.attributes["url"]) else Given(c, ["endpoint"], v);
    }
  }

  /** Learning a candidate that is an auth file sets the provider of one best match, and nothing else. */
  lemma LearnedFile(normalizeURL: string -> string, inv: Inventory, c: Candidate, after: Inventory)
        returns (k: ItemKey)
    requires CleanRows(inv) && Learned(normalizeURL, inv, c, after)
    requires NormalizeProvider(c.provider) != "" && Trim(c.id) != "" && HasAuthFile(inv, Trim(c.id))
    ensures BestAuthFile(inv, k, Trim(c.id))
    ensures after == inv[k := inv[k].(provider := NormalizeProvider(c.provider))]
  {
    hide Upsert, Rank, ProviderInstanceID, Trim;
    k :| BestAuthFile(inv, k, Trim(c.id)) &&
      after == Upsert(inv, k.id, k.kind, inv[k].(provider := NormalizeProvider(c.provider)));
    UpsertTrimmed(inv, k.id, k.kind, inv[k].(provider := NormalizeProvider(c.provider)));
    NormalizeProviderTwice(c.provider);
    assert Clean(inv[k]) == inv[k];
  }

  /** A candidate without a provider or an account teaches nothing. */
  lemma LearnedNamelessly(normalizeURL: string -> string, inv: Inventory, c: Candidate, after: Inventory)
    requires Learned(normalizeURL, inv, c, after) && (NormalizeProvider(c.provider) == "" || Trim(c.id) == "")
    ensures after == inv
  {
    hide Trim, NormalizeProvider;
  }

  /** Candidates are learned in the order in which they are listed. */
  lemma LearnedInOrder(normalizeURL: string -> string, inv: Inventory, cs: seq<Candidate>, c: Candidate,
        after: Inventory)
    ensures LearnedAll(normalizeURL, inv, cs + [c], after) <==>
      exists mid :: LearnedAll(normalizeURL, inv, cs, mid) && Learned(normalizeURL, mid, c, after)
    ensures LearnedAll(normalizeURL, inv, [], after) <==> after == inv
  {
    hide Learned;
    assert (cs + [c])[..|cs|] == cs;
  }
}
