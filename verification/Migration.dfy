/** Renaming references to provider instances that turn out to be auth files. */
module Migration {
  import opened Text
  import opened Tables

  /** filepath.Base on slash-separated paths. */
  function Base(path: string): string {
    if path == "" then "."
    else
      var p := StripTrailingSlashes(path);
      if p == "" then "/" else LastElement(p)
  }

  function StripTrailingSlashes(path: string): string {
    if path != [] && path[|path| - 1] == '/' then StripTrailingSlashes(path[..|path| - 1]) else path
  }

  function LastElement(path: string): string {
    if path == [] || path[|path| - 1] == '/' then [] else LastElement(path[..|path| - 1]) + [path[|path| - 1]]
  }

  /** The identifier an entry is stored under; empty if the entry names nothing. */
  function EntryID(e: Entry): string {
    Trim(FirstNonEmpty([e.id, e.authIndex, e.name]))
  }

  function EntryProvider(e: Entry): string {
    NormalizeProvider(FirstNonEmpty([e.provider, e.kind]))
  }

  /** The names an entry may have been bound under. */
  function RawAliases(e: Entry): seq<string> {
    [e.id, e.authIndex, e.name] + if e.path == "" then [] else [Base(e.path)]
  }

  function Aliases(e: Entry): seq<string> {
    Unique(RawAliases(e))
  }

  /** The provider-instance identifier an alias would have been bound under. */
  function InstanceID(e: Entry, alias: string): string {
    EntryProvider(e) + ":" + alias
  }

  predicate Migrates(e: Entry) {
    EntryID(e) != "" && EntryProvider(e) != ""
  }

  /** The entry claims the identifier: it is provider:alias for one of the entry's aliases. */
  predicate Claims(e: Entry, id: string) {
    Migrates(e) && exists i | 0 <= i < |Aliases(e)| :: id == InstanceID(e, Aliases(e)[i])
  }

  datatype Renaming = Keep | To(authID: string)

  /** The first entry in list order that claims the identifier decides. */
  function Rename(entries: seq<Entry>, id: string): Renaming {
    if entries == [] then Keep
    else if Claims(entries[0], id) then To(EntryID(entries[0]))
    else Rename(entries[1..], id)
  }

  function RenameLink(entries: seq<Entry>, l: Link): Link {
    if l.kind == PROVIDER_INSTANCE && Rename(entries, l.target).To?
      then Link(l.owner, AUTH_ID, Rename(entries, l.target).authID) else l
  }

  /** The migrated table: the image of the old one under the renaming. */
  function Renamed(entries: seq<Entry>, links: set<Link>): set<Link> {
    set l | l in links :: RenameLink(entries, l)
  }

  lemma RenamedIsSettled(entries: seq<Entry>, l: Link)
    ensures RenameLink(entries, RenameLink(entries, l)) == RenameLink(entries, l)
  {
  }

  /** Migrating twice is migrating once. */
  lemma MigrationIsIdempotent(entries: seq<Entry>, links: set<Link>)
    ensures Renamed(entries, Renamed(entries, links)) == Renamed(entries, links)
  {
    var once := Renamed(entries, links);
    forall l ensures l in Renamed(entries, once) <==> l in once {
      if l in once {
        var k :| k in links && RenameLink(entries, k) == l;
        RenamedIsSettled(entries, k);
      }
      if l in Renamed(entries, once) {
        var k :| k in once && RenameLink(entries, k) == l;
        var j :| j in links && RenameLink(entries, j) == k;
        RenamedIsSettled(entries, j);
      }
    }
  }

  function Owners(links: set<Link>): set<string> {
    set l | l in links :: l.owner
  }

  /** No key is unbound and no group emptied, and nobody gains a first binding. */
  lemma MigrationKeepsOwners(entries: seq<Entry>, links: set<Link>)
    ensures Owners(Renamed(entries, links)) == Owners(links)
  {
    forall o ensures o in Owners(Renamed(entries, links)) <==> o in Owners(links) {
      if o in Owners(links) {
        var l :| l in links && l.owner == o;
        assert RenameLink(entries, l) in Renamed(entries, links);
      }
    }
  }

  /** No reference that an entry claims is left as a provider instance. */
  lemma NoClaimedReferenceLeft(entries: seq<Entry>, links: set<Link>, l: Link)
    requires l in Renamed(entries, links) && l.kind == PROVIDER_INSTANCE
    ensures l in links && Rename(entries, l.target) == Keep
  {
  }

  // ---- the two statements the source runs per alias ----

  /** INSERT OR IGNORE ... SELECT: a copy of every row with the old target under the new one. */
  function Copied(links: set<Link>, from: string, authID: string): set<Link> {
    links + set l | l in links && l.kind == PROVIDER_INSTANCE && l.target == from :: Link(l.owner, AUTH_ID, authID)
  }

  /** DELETE of the rows with the old target. */
  function Dropped(links: set<Link>, from: string): set<Link> {
    set l | l in links && !(l.kind == PROVIDER_INSTANCE && l.target == from)
  }

  /** The rows after the aliases of one entry have been moved. */
  ghost predicate Moved(before: set<Link>, after: set<Link>, e: Entry, done: seq<string>) {
    after == set l | l in before :: MoveLink(e, done, l)
  }

  function MoveLink(e: Entry, done: seq<string>, l: Link): Link {
    if l.kind == PROVIDER_INSTANCE && exists i | 0 <= i < |done| :: l.target == InstanceID(e, done[i])
      then Link(l.owner, AUTH_ID, EntryID(e))
      else l
  }

  lemma MoveOne(before: set<Link>, links: set<Link>, e: Entry, done: seq<string>, alias: string)
    requires Moved(before, links, e, done)
    ensures Moved(before, Dropped(Copied(links, InstanceID(e, alias), EntryID(e)), InstanceID(e, alias)), e,
      done + [alias])
  {
    var id := InstanceID(e, alias);
    var after := Dropped(Copied(links, id, EntryID(e)), id);
    var image := set l | l in before :: MoveLink(e, done + [alias], l);
    forall l | l in before
      ensures MoveLink(e, done + [alias], l) ==
        (var m := MoveLink(e, done, l);
         if m.kind == PROVIDER_INSTANCE && m.target == id then Link(m.owner, AUTH_ID, EntryID(e)) else m)
    {
      MoveLinkAppend(e, done, alias, l);
    }
    forall l ensures l in after <==> l in image {
      if l in image {
        var k :| k in before && MoveLink(e, done + [alias], k) == l;
        assert MoveLink(e, done, k) in links;
      }
      if l in after {
        if l in links {
          var k :| k in before && MoveLink(e, done, k) == l;
          assert MoveLink(e, done + [alias], k) == l;
        } else {
          var m :| m in links && m.kind == PROVIDER_INSTANCE && m.target == id &&
            l == Link(m.owner, AUTH_ID, EntryID(e));
          var k :| k in before && MoveLink(e, done, k) == m;
          assert MoveLink(e, done + [alias], k) == l;
        }
      }
    }
  }

  lemma MoveLinkAppend(e: Entry, done: seq<string>, alias: string, l: Link)
    ensures MoveLink(e, done + [alias], l) ==
      (var m := MoveLink(e, done, l);
       if m.kind == PROVIDER_INSTANCE && m.target == InstanceID(e, alias)
         then Link(m.owner, AUTH_ID, EntryID(e))
         else m)
  {
    var all := done + [alias];
    assert (exists i | 0 <= i < |all| :: l.target == InstanceID(e, all[i])) <==>
      (exists i | 0 <= i < |done| :: l.target == InstanceID(e, done[i])) || l.target == InstanceID(e, alias) by {
      if i :| 0 <= i < |done| && l.target == InstanceID(e, done[i]) { assert all[i] == done[i]; }
      assert all[|done|] == alias;
    }
  }

  lemma {:induction false} RenameAppend(entries: seq<Entry>, e: Entry, id: string)
    ensures Rename(entries + [e], id) ==
      if Rename(entries, id).To? then Rename(entries, id) else if Claims(e, id) then To(EntryID(e)) else Keep
  {
    if entries == [] {
      assert ([e])[1..] == [] && entries + [e] == [e];
    } else {
      assert (entries + [e])[1..] == entries[1..] + [e];
      RenameAppend(entries[1..], e, id);
    }
  }

  /** After all aliases of the next entry, the table is the image under the longer list. */
  lemma MoveEntry(entries: seq<Entry>, e: Entry, links: set<Link>, after: set<Link>)
    requires if Migrates(e) then Moved(Renamed(entries, links), after, e, Aliases(e))
      else after == Renamed(entries, links)
    ensures after == Renamed(entries + [e], links)
  {
    forall l | l in links
      ensures RenameLink(entries + [e], l) ==
        if Migrates(e) then MoveLink(e, Aliases(e), RenameLink(entries, l)) else RenameLink(entries, l)
    {
      RenameAppend(entries, e, l.target);
    }
    var image := Renamed(entries + [e], links);
    forall l ensures l in after <==> l in image {
      if l in image {
        var k :| k in links && RenameLink(entries + [e], k) == l;
        assert RenameLink(entries, k) in Renamed(entries, links);
      }
      if l in after {
        if Migrates(e) {
          var m :| m in Renamed(entries, links) && MoveLink(e, Aliases(e), m) == l;
          var k :| k in links && RenameLink(entries, k) == m;
          assert RenameLink(entries + [e], k) == l;
        } else {
          var k :| k in links && RenameLink(entries, k) == l;
          assert RenameLink(entries + [e], k) == l;
        }
      }
    }
  }
}
