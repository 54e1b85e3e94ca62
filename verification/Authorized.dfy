/** What a routed call may answer, whether a session or the rotation decides it. */
module Authorized {
  import opened Text
  import opened Tables
  import opened Selection
  import opened Pricing
  import opened Routing

  /** A step answers with a member of its list. */
  lemma AnswerIsListed(r: Router, e: Event, gc: bool)
    requires Possible(e)
    ensures match (e, Step(r, e, gc).1)
      case (Route(_, _, allowed, _, _), Provider(name)) => name in allowed
      case (Pick(_, _, _, top, _, _), Account(c)) => c in top
      case _ => false
  {
    hide Collect, CursorOf, At, Bump, Saved;
    if Sticky(r.sessions, e) {
      if e.Pick? { assert e.top[FirstMatch(e.top, r.sessions[KeyOf(e)])] in e.top; }
    }
  }

  /** A pick is offered exactly the authorised candidates for the provider that no other such candidate outranks. */
  lemma OfferedExactly(normalizeURL: string -> string, scope: Scope, provider: string, cs: seq<Candidate>,
        c: Candidate)
    ensures c in Top(Eligible(normalizeURL, scope, provider, cs)) <==>
      c in cs && Allows(normalizeURL, scope, c) && (provider != "" ==> c.provider == provider) &&
      forall d | d in cs && Allows(normalizeURL, scope, d) && (provider != "" ==> d.provider == provider) ::
        d.priority <= c.priority
  {
    hide Allows, Top;
    TopIsMaximal(Eligible(normalizeURL, scope, provider, cs));
  }

  /**
   * Every successful pick, sticky or rotated, is an authorised candidate for the provider, of maximal priority among
   * those.
   */
  lemma PickIsAuthorised(normalizeURL: string -> string, scope: Scope, cs: seq<Candidate>,
                         r: Router, keyID: string, model: string, provider: string, hash: string, now: Clock)
    requires Top(Eligible(normalizeURL, scope, provider, cs)) != []
    ensures var out := Step(r, Pick(keyID, model, provider, Top(Eligible(normalizeURL, scope, provider, cs)), hash,
      now), true).1;
      out.Account? && out.candidate in cs && Allows(normalizeURL, scope, out.candidate) &&
      (provider != "" ==> out.candidate.provider == provider) &&
      forall d | d in cs && Allows(normalizeURL, scope, d) && (provider != "" ==> d.provider == provider) ::
        d.priority <= out.candidate.priority
  {
    hide Step, Allows, Top;
    var eligible := Eligible(normalizeURL, scope, provider, cs);
    AnswerIsListed(r, Pick(keyID, model, provider, Top(eligible), hash, now), true);
    TopIsMaximal(eligible);
  }

  /**
   * Every provider routed to, sticky or rotated, is granted, available if the host lists any, and priced if the key is
   * limited.
   */
  lemma RouteIsAuthorised(table: PriceTable, scope: Scope, limited: bool, allowUnpriced: bool, model: string,
        available: seq<string>,
                          r: Router, keyID: string, hash: string, now: Clock)
    requires AllowedProviders(table, scope, limited, allowUnpriced, model, available) != {}
    ensures var allowed := SortedList(AllowedProviders(table, scope, limited, allowUnpriced, model, available));
      allowed != [] &&
      var out := Step(r, Route(keyID, Trim(model), allowed, hash, now), true).1;
      out.Provider? && out.name in scope.providers &&
      ((exists v :: v in available && NormalizeProvider(v) != "") ==>
        exists v :: v in available && NormalizeProvider(v) == out.name) &&
      (limited && !allowUnpriced && Trim(model) != "" ==> Lookup(table, out.name, model).Price?)
  {
    hide Step, Lookup, Trim, NormalizeProvider, StrictlySorted;
    var providers := AllowedProviders(table, scope, limited, allowUnpriced, model, available);
    var p :| p in providers;
    assert p in SortedList(providers);
    AnswerIsListed(r, Route(keyID, Trim(model), SortedList(providers), hash, now), true);
    AllowedExactly(table, scope, limited, allowUnpriced, model, available,
      Step(r, Route(keyID, Trim(model), SortedList(providers), hash, now), true).1.name);
  }

  /**
   * With distinct identifiers a pick answers, and leaves sessions and cursors, the same for every order of the
   * candidates.
   */
  lemma PickIsCanonical(normalizeURL: string -> string, scope: Scope, cs: seq<Candidate>, ds: seq<Candidate>,
                        r: Router, keyID: string, model: string, provider: string, hash: string, now: Clock)
    requires DistinctIDs(cs) && multiset(cs) == multiset(ds) && Top(Eligible(normalizeURL, scope, provider, cs)) != []
    ensures Top(Eligible(normalizeURL, scope, provider, ds)) != []
    ensures Step(r, Pick(keyID, model, provider, Top(Eligible(normalizeURL, scope, provider, cs)), hash, now), true) ==
      Step(r, Pick(keyID, model, provider, Top(Eligible(normalizeURL, scope, provider, ds)), hash, now), true)
  {
    hide *;
    SelectionIsCanonical(normalizeURL, scope, provider, cs, ds);
  }
}
