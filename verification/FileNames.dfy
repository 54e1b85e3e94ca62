/** References and rows that name an auth file by the last element of its path. */
module FileNames {
  import opened Text
  import opened Tables
  import opened Migration
  import opened InventorySync

  predicate SlashFree(s: string) {
    '/' !in s
  }

  // ---- the last element of a path ----

  lemma StripNothing(p: string)
    requires p != "" && p[|p| - 1] != '/'
    ensures StripTrailingSlashes(p) == p
  {
  }

  lemma {:induction false} LastElementOf(d: string, f: string)
    requires SlashFree(f)
    ensures LastElement(f) == f && LastElement(d + ("/" + f)) == f
  {
    var p := d + ("/" + f);
    if f == "" {
      assert p[|p| - 1] == '/';
    } else {
      var n := |f| - 1;
      LastElementOf(d, f[..n]);
      assert p[..|p| - 1] == d + ("/" + f[..n]) && p[|p| - 1] == f[n];
      assert f == f[..n] + [f[n]];
    }
  }

  /** The file name is found behind any directory, and without one. */
  lemma BaseOfFile(d: string, f: string)
    requires f != "" && SlashFree(f)
    ensures Base(d + ("/" + f)) == f && Base(f) == f
  {
    var p := d + ("/" + f);
    assert p[|p| - 1] == f[|f| - 1];
    StripNothing(p);
    StripNothing(f);
    LastElementOf(d, f);
  }

  /** Slashes at the end of a path do not matter. */
  lemma TrailingSlashIgnored(p: string)
    requires p != ""
    ensures Base(p + "/") == Base(p)
  {
    assert (p + "/")[..|p|] == p;
  }

  lemma {:induction false} LastElementSlashFree(p: string)
    ensures SlashFree(LastElement(p))
  {
    if p != "" && p[|p| - 1] != '/' { LastElementSlashFree(p[..|p| - 1]); }
  }

  /** A base is one element, never a path: only the root keeps its slash, and an empty path is the current directory. */
  lemma BaseIsOneElement(p: string)
    ensures Base(p) == "/" || SlashFree(Base(p))
    ensures Base(p) == "/" <==> p != "" && forall i | 0 <= i < |p| :: p[i] == '/'
    ensures p == "" ==> Base(p) == "."
  {
    StripsToSlashes(p);
    LastElementSlashFree(StripTrailingSlashes(p));
  }

  lemma {:induction false} StripsToSlashes(p: string)
    ensures StripTrailingSlashes(p) == "" <==> forall i | 0 <= i < |p| :: p[i] == '/'
  {
    if p != "" && p[|p| - 1] == '/' {
      var q := p[..|p| - 1];
      StripsToSlashes(q);
      assert forall i | 0 <= i < |q| :: q[i] == p[i];
    }
  }

  /** The path leads to the file: it is its name, or a directory, a slash and its name. */
  ghost predicate LeadsTo(path: string, f: string) {
    f != "" && SlashFree(f) && Trim(f) == f && (path == f || exists d :: path == d + ("/" + f))
  }

  lemma BaseOfPath(path: string, f: string)
    requires LeadsTo(path, f)
    ensures path != "" && Trim(Base(path)) == f
  {
    if path == f {
      BaseOfFile("", f);
    } else {
      var d :| path == d + ("/" + f);
      BaseOfFile(d, f);
    }
  }

  // ---- the names of an entry ----

  /** n is one of the entry's names: a field, or the last element of its path. */
  predicate NameOf(e: Entry, n: string) {
    n != "" && (n == Trim(e.id) || n == Trim(e.authIndex) || n == Trim(e.name) ||
      (e.path != "" && n == Trim(Base(e.path))))
  }

  lemma AliasesExactly(e: Entry, n: string)
    ensures n in Aliases(e) <==> NameOf(e, n)
  {
    hide Trim, Base;
    var head, tail := [e.id, e.authIndex, e.name], if e.path == "" then [] else [Base(e.path)];
    OccursConcat(n, head, tail);
    OccursThree(n, head);
    assert Occurs(n, tail) <==> e.path != "" && n == Trim(Base(e.path)) by {
      if e.path != "" { assert tail[0] == Base(e.path); }
    }
  }

  /** A stored auth file goes by its identifier and by its columns. */
  ghost predicate StoredName(inv: Inventory, n: string) {
    n != "" && exists k :: k in inv && k.kind == "auth_file" && NamesColumn(k, inv[k], n)
  }

  predicate NamesColumn(k: ItemKey, item: Item, n: string) {
    n == Trim(k.id) || n == Trim(item.authID) || n == Trim(item.authIndex) || n == Trim(item.name)
  }

  lemma StoredNamesExactly(inv: Inventory, n: string)
    ensures n in AuthFileNames(inv) <==> StoredName(inv, n)
  {
    hide Trim;
    forall k | k in inv ensures n in Unique(RowNames(k, inv[k])) <==> n != "" && NamesColumn(k, inv[k], n) {
      OccursFour(n, RowNames(k, inv[k]));
    }
    hide Unique, RowNames, NamesColumn;
  }

  ghost predicate ListedName(entries: seq<Entry>, n: string) {
    exists e :: e in entries && NameOf(e, n)
  }

  lemma ListedNamesExactly(entries: seq<Entry>, n: string)
    ensures n in EntryAliases(entries) <==> ListedName(entries, n)
    ensures n in StoredAliases(entries) <==> exists e :: e in entries && EntryID(e) != "" && NameOf(e, n)
  {
    forall e ensures n in Aliases(e) <==> NameOf(e, n) { AliasesExactly(e, n); }
    hide Aliases, NameOf, EntryID;
  }

  // ---- references by file name ----

  /** The entry claims provider:n for each of its names n, provided it has an identifier and a provider. */
  lemma ClaimsExactly(e: Entry, id: string)
    ensures Claims(e, id) <==>
      EntryID(e) != "" && EntryProvider(e) != "" && exists n :: NameOf(e, n) && id == EntryProvider(e) + ":" + n
  {
    forall n ensures n in Aliases(e) <==> NameOf(e, n) { AliasesExactly(e, n); }
    hide Aliases, NameOf, EntryID, EntryProvider;
    if n :| NameOf(e, n) && id == EntryProvider(e) + ":" + n {
      var i :| 0 <= i < |Aliases(e)| && Aliases(e)[i] == n;
    }
  }

  /** i is the first entry that claims the identifier. */
  ghost predicate FirstClaim(entries: seq<Entry>, id: string, i: nat) {
    i < |entries| && Claims(entries[i], id) && forall j | 0 <= j < i :: !Claims(entries[j], id)
  }

  lemma LaterClaim(entries: seq<Entry>, id: string, i: nat)
    requires i > 0 && FirstClaim(entries, id, i)
    ensures !Claims(entries[0], id) && FirstClaim(entries[1..], id, i - 1)
  {
    hide Claims;
    assert forall j | 0 <= j < |entries[1..]| :: entries[1..][j] == entries[j + 1];
  }

  lemma {:induction false} RenameExactly(entries: seq<Entry>, id: string)
    ensures forall i: nat | FirstClaim(entries, id, i) :: Rename(entries, id) == To(EntryID(entries[i]))
    ensures Rename(entries, id) == Keep <==> forall i | 0 <= i < |entries| :: !Claims(entries[i], id)
  {
    hide Claims, EntryID;
    if entries != [] {
      RenameExactly(entries[1..], id);
      forall i: nat | FirstClaim(entries, id, i) ensures Rename(entries, id) == To(EntryID(entries[i])) {
        if i > 0 { LaterClaim(entries, id, i); }
      }
      if !Claims(entries[0], id) {
        assert forall i | 1 <= i < |entries| :: entries[i] == entries[1..][i - 1];
        assert forall i | 0 <= i < |entries[1..]| :: entries[1..][i] == entries[i + 1];
      }
    }
  }

  /** A reference to a claimed provider instance becomes one to the auth file of the first entry that claims it. */
  lemma ReferenceMoves(entries: seq<Entry>, links: set<Link>, owner: string, id: string, i: nat)
    requires Link(owner, "provider_instance", id) in links && FirstClaim(entries, id, i)
    ensures Link(owner, "auth_id", EntryID(entries[i])) in Renamed(entries, links)
    ensures Link(owner, "provider_instance", id) !in Renamed(entries, links)
  {
    hide Claims, EntryID;
    RenameExactly(entries, id);
    var l := Link(owner, "provider_instance", id);
    assert RenameLink(entries, l) == Link(owner, "auth_id", EntryID(entries[i]));
  }

  /** Every other row stays as it is. */
  lemma ReferenceStays(entries: seq<Entry>, links: set<Link>, l: Link)
    requires l in links
    requires l.kind != "provider_instance" || forall i | 0 <= i < |entries| :: !Claims(entries[i], l.target)
    ensures l in Renamed(entries, links)
  {
    hide Claims, EntryID;
    RenameExactly(entries, l.target);
    assert RenameLink(entries, l) == l;
  }

  /** A reference by the file name an entry is stored at moves to the first entry that claims it. */
  lemma FileReferenceMoves(entries: seq<Entry>, links: set<Link>, owner: string, e: Entry, f: string)
        returns (i: nat)
    requires e in entries && LeadsTo(e.path, f) && EntryID(e) != "" && EntryProvider(e) != ""
    requires Link(owner, "provider_instance", EntryProvider(e) + ":" + f) in links
    ensures FirstClaim(entries, EntryProvider(e) + ":" + f, i)
    ensures Link(owner, "auth_id", EntryID(entries[i])) in Renamed(entries, links)
    ensures Link(owner, "provider_instance", EntryProvider(e) + ":" + f) !in Renamed(entries, links)
  {
    var id := EntryProvider(e) + ":" + f;
    BaseOfPath(e.path, f);
    assert NameOf(e, f);
    ClaimsExactly(e, id);
    hide Claims, EntryID, EntryProvider, LeadsTo;
    i := FirstOf(entries, id, e);
    ReferenceMoves(entries, links, owner, id, i);
  }

  lemma {:induction false} FirstOf(entries: seq<Entry>, id: string, e: Entry) returns (i: nat)
    requires e in entries && Claims(e, id)
    ensures FirstClaim(entries, id, i)
  {
    hide Claims;
    if Claims(entries[0], id) {
      i := 0;
    } else {
      assert e in entries[1..];
      i := FirstOf(entries[1..], id, e);
      i := i + 1;
      assert forall j | 1 <= j < i :: entries[j] == entries[1..][j - 1];
    }
  }

  // ---- rows by file name ----

  /** The row is a provider instance without address, named provider:authID. */
  predicate Inferred(k: ItemKey, item: Item) {
    k.kind == "provider_instance" && item.baseURL == "" && k.id == item.provider + ":" + item.authID
  }

  /**
   * A synchronisation keeps a row other than an auth file exactly unless it is inferred and its account is a name of a
   * stored or listed auth file.
   */
  lemma SyncKeepsExactly(inv: Inventory, entries: seq<Entry>, k: ItemKey)
    requires k.kind != "auth_file"
    ensures k in Synced(inv, entries) <==>
      k in inv && !(Inferred(k, inv[k]) && (StoredName(inv, inv[k].authID) || ListedName(entries, inv[k].authID)))
    ensures k in Synced(inv, entries) ==> Synced(inv, entries)[k] == inv[k]
  {
    SyncIsExact(inv, entries);
    if k in inv {
      StoredNamesExactly(inv, inv[k].authID);
      ListedNamesExactly(entries, inv[k].authID);
    }
    hide Synced, StoredName, ListedName, AuthFileNames, EntryAliases;
  }

  /** Upserting alone keeps it exactly unless its account is a name of an entry that has an identifier. */
  lemma UpsertKeepsExactly(inv: Inventory, entries: seq<Entry>, k: ItemKey)
    requires k.kind != "auth_file"
    ensures k in Upserted(inv, entries) <==>
      k in inv && !(Inferred(k, inv[k]) && exists e :: e in entries && EntryID(e) != "" && NameOf(e, inv[k].authID))
    ensures k in Upserted(inv, entries) ==> Upserted(inv, entries)[k] == inv[k]
  {
    if k in inv { ListedNamesExactly(entries, inv[k].authID); }
    hide NameOf, EntryID, StoredAliases, EntryIDs, EntryRow;
  }

  /** No inferred row of an account that is the file name of a listed entry survives. */
  lemma FileInstanceGoes(inv: Inventory, entries: seq<Entry>, e: Entry, f: string, k: ItemKey)
    requires e in entries && LeadsTo(e.path, f) && k in Synced(inv, entries) && k.kind != "auth_file"
    ensures !(Inferred(k, Synced(inv, entries)[k]) && Synced(inv, entries)[k].authID == f)
  {
    BaseOfPath(e.path, f);
    assert NameOf(e, f);
    SyncKeepsExactly(inv, entries, k);
  }
}
