/** Rows of the store, the identifiers that tie them together, and what a scope allows. */
module Tables {
  import opened Text

  const GROUP := "group"
  const AUTH_ID := "auth_id"
  const PROVIDER_INSTANCE := "provider_instance"
  const AUTH_FILE := "auth_file"

  /** A row of key_bindings (owner is the key) or of group_members (owner is the group). */
  datatype Link = Link(owner: string, kind: string, target: string)

  /** Primary key and remaining columns of inventory_items. */
  datatype ItemKey = ItemKey(id: string, kind: string)
  datatype Item = Item(provider: string, authID: string, authIndex: string, name: string, labelText: string,
    email: string, baseURL: string)
  type Inventory = map<ItemKey, Item>

  /** An upstream account offered by the host for one request. */
  datatype Candidate = Candidate(id: string, provider: string, priority: int, attributes: map<string, string>)

  /** An auth file as the host lists it. */
  datatype Entry = Entry(id: string, authIndex: string, name: string, kind: string, provider: string,
    labelText: string, email: string, path: string)

  datatype Scope = Scope(hasBindings: bool, authIDs: set<string>, providerInstanceIDs: set<string>,
    providers: set<string>)

  function Dashes(s: string): (r: string)
    ensures |r| == |s|
  {
    seq(|s|, i requires 0 <= i < |s| => if s[i] == '-' then '_' else s[i])
  }

  /** normalizeTargetType */
  function NormalizeKind(v: string): string {
    Dashes(Lower(Trim(v)))
  }

  lemma NormalizeKindTwice(v: string)
    ensures Trimmed(NormalizeKind(v)) && NormalizeKind(NormalizeKind(v)) == NormalizeKind(v)
  {
    TrimIsTrimmed(v);
    var t := Lower(Trim(v));
    LowerIsTrimmed(Trim(v));
    var k := Dashes(t);
    assert Trimmed(k);
    TrimIsTrimmed(k);
    assert forall i | 0 <= i < |k| :: LowerChar(k[i]) == k[i] && k[i] != '-';
    assert Lower(k) == k;
    assert Dashes(k) == k;
  }

  lemma KindConstants()
    ensures NormalizeKind(AUTH_ID) == AUTH_ID && NormalizeKind(AUTH_FILE) == AUTH_FILE
    ensures NormalizeKind(PROVIDER_INSTANCE) == PROVIDER_INSTANCE && NormalizeKind(GROUP) == GROUP
  {
    forall s | s in {AUTH_ID, AUTH_FILE, PROVIDER_INSTANCE, GROUP} ensures NormalizeKind(s) == s {
      assert Trimmed(s);
      TrimIsTrimmed(s);
      assert forall i | 0 <= i < |s| :: LowerChar(s[i]) == s[i] && s[i] != '-';
      assert Lower(s) == s;
      assert Dashes(s) == s;
    }
  }

  function FirstAttr(attrs: map<string, string>, first: string, second: string, third: string): string {
    if first in attrs && Trim(attrs[first]) != "" then Trim(attrs[first])
    else if second in attrs && Trim(attrs[second]) != "" then Trim(attrs[second])
    else if third in attrs then Trim(attrs[third])
    else ""
  }

  /** firstNonEmpty of the access package: the first value that is not blank, untrimmed. */
  function FirstNonEmpty(values: seq<string>): string {
    if values == [] then "" else if Trim(values[0]) != "" then values[0] else FirstNonEmpty(values[1..])
  }

  function StripColons(s: string): string {
    if s != [] && s[0] == ':' then StripColons(s[1..])
    else if s != [] && s[|s| - 1] == ':' then StripColons(s[..|s| - 1])
    else s
  }

  /** ProviderInstanceID; normalizeURL stands for normalizeBaseURL, which relies on net/url. */
  function ProviderInstanceID(normalizeURL: string -> string, provider: string, authID: string, authIndex: string,
        baseURL: string): string {
    var p, a, i, u := NormalizeProvider(provider), Trim(authID), Trim(authIndex), normalizeURL(baseURL);
    if p != "" && a != "" then p + ":" + a
    else if p != "" && i != "" then p + ":idx:" + i
    else if p != "" && u != "" then p + ":url:" + u
    else StripColons(p + ":" + a + ":" + i + ":" + u)
  }

  function AuthIndexOf(c: Candidate): string {
    FirstAttr(c.attributes, "auth_index", "index", "index")
  }

  function BaseURLOf(c: Candidate): string {
    FirstAttr(c.attributes, "base_url", "url", "endpoint")
  }

  /** Scope.AllowsCandidate */
  predicate Allows(normalizeURL: string -> string, scope: Scope, c: Candidate) {
    (Trim(c.id) != "" && Trim(c.id) in scope.authIDs) ||
    ProviderInstanceID(normalizeURL, NormalizeProvider(c.provider), Trim(c.id), AuthIndexOf(c),
      BaseURLOf(c)) in scope.providerInstanceIDs
  }

  predicate ColonFree(s: string) {
    ':' !in s
  }

  /** Colon-free provider names make provider:authID unambiguous. */
  lemma {:induction false} InstanceIDInjective(p: string, a: string, q: string, b: string)
    requires ColonFree(p) && ColonFree(q) && p + ":" + a == q + ":" + b
    ensures p == q && a == b
  {
    var s, t := p + ":" + a, q + ":" + b;
    assert s[|p|] == ':' && t[|q|] == ':';
    assert |p| == |q|;
    assert p == s[..|p|] == q && a == s[|p| + 1..] == b;
  }

  // ---- lists ----

  lemma TakeNext<T>(xs: seq<T>, i: nat)
    requires i < |xs|
    ensures xs[..i + 1] == xs[..i] + [xs[i]]
  {
  }

  lemma TakeEnds<T>(xs: seq<T>)
    ensures xs[..0] == [] && xs[..|xs|] == xs
  {
  }

  /** The elements satisfying f, in order. */
  function Filter<T(!new)>(f: T -> bool, xs: seq<T>): (r: seq<T>)
    ensures forall x :: x in r <==> x in xs && f(x)
    ensures |r| <= |xs|
  {
    if xs == [] then [] else
      var n := |xs| - 1;
      assert xs == xs[..n] + [xs[n]];
      Filter(f, xs[..n]) + if f(xs[n]) then [xs[n]] else []
  }

  /** v is one of the values, up to white space. */
  predicate Occurs(v: string, values: seq<string>) {
    exists i | 0 <= i < |values| :: Trim(values[i]) == v
  }

  /** The trimmed non-empty values, each once, in order of first appearance (uniqueNonEmpty). */
  function Unique(values: seq<string>): (r: seq<string>)
    ensures forall v :: v in r <==> v != "" && Occurs(v, values)
    ensures forall i, j | 0 <= i < j < |r| :: r[i] != r[j]
  {
    if values == [] then [] else
      var n := |values| - 1;
      var front := Unique(values[..n]);
      var v := Trim(values[n]);
      assert forall w :: Occurs(w, values) <==> w == v || Occurs(w, values[..n]) by { OccursLast(values); }
      if v == "" || v in front then front else front + [v]
  }

  lemma OccursLast(values: seq<string>)
    requires values != []
    ensures forall w :: Occurs(w, values) <==> w == Trim(values[|values| - 1]) || Occurs(w, values[..|values| - 1])
  {
    var n := |values| - 1;
    forall w ensures Occurs(w, values) <==> w == Trim(values[n]) || Occurs(w, values[..n]) {
      if Occurs(w, values[..n]) {
        var i :| 0 <= i < n && Trim(values[..n][i]) == w;
        assert Trim(values[i]) == w;
      }
      if Occurs(w, values) {
        var i :| 0 <= i < |values| && Trim(values[i]) == w;
        assert i < n ==> Trim(values[..n][i]) == w;
      }
    }
  }
}
