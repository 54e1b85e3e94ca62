/** Price rules: lookup with official fallbacks, and the two places that demand a price. */
module Pricing {
  import opened Text
  import opened Tables
  import opened Billing
  import opened Access

  datatype PriceKey = PriceKey(provider: string, model: string)
  type PriceTable = map<PriceKey, Prices>
  datatype Found = Missing | Price(prices: Prices)

  datatype Rule = Rule(provider: string, model: string, prices: Prices)

  /** officialPriceProvider, on normalised names. */
  function Official(provider: string): string {
    match provider
    case "codex" => "openai"
    case "claude" => "anthropic"
    case "vertex_ai" => "vertex"
    case _ => provider
  }

  function Exact(table: PriceTable, key: PriceKey): Found {
    if key in table then Price(table[key]) else Missing
  }

  /** PriceRule: the provider's own rule, else the rule of its official provider. */
  function Lookup(table: PriceTable, provider: string, model: string): Found {
    var p, m := NormalizeProvider(provider), Trim(model);
    if PriceKey(p, m) in table then Exact(table, PriceKey(p, m))
    else if Official(p) == p then Missing
    else Exact(table, PriceKey(Official(p), m))
  }

  /** upsertPriceRulesTx */
  function Apply(table: PriceTable, rules: seq<Rule>): PriceTable {
    if rules == [] then table else
      var r := rules[|rules| - 1];
      var before := Apply(table, rules[..|rules| - 1]);
      var key := PriceKey(NormalizeProvider(r.provider), Trim(r.model));
      if key.provider == "" || key.model == "" then before else before[key := r.prices]
  }

  // ---- admission against routing ----

  /** ValidateBindingsAndPricing accepts. */
  predicate Admits(table: PriceTable, scope: Scope, limited: bool, allowUnpriced: bool, model: string) {
    !scope.hasBindings || Trim(model) == "" || !limited || allowUnpriced ||
    exists p | p in scope.providers :: Lookup(table, p, Trim(model)).Price?
  }

  function AvailableSet(available: seq<string>): set<string> {
    set v | v in available && NormalizeProvider(v) != "" :: NormalizeProvider(v)
  }

  /** The providers ChooseProviderRouted may route to. */
  function AllowedProviders(table: PriceTable, scope: Scope, limited: bool, allowUnpriced: bool, model: string,
        available: seq<string>): set<string> {
    set p | p in scope.providers && p != "" &&
      (AvailableSet(available) == {} || p in AvailableSet(available)) &&
      (limited && !allowUnpriced && Trim(model) != "" ==> Lookup(table, p, model).Price?)
  }

  /**
   * Routing may choose a provider exactly if the scope names it, some listed value normalises to it if any listed value
   * is not blank, and it is priced where a price is demanded.
   */
  lemma AllowedExactly(table: PriceTable, scope: Scope, limited: bool, allowUnpriced: bool, model: string,
        available: seq<string>, p: string)
    ensures p in SortedList(AllowedProviders(table, scope, limited, allowUnpriced, model, available)) <==>
      p != "" && p in scope.providers &&
      ((exists v :: v in available && NormalizeProvider(v) != "") ==>
        exists v :: v in available && NormalizeProvider(v) == p) &&
      (limited && !allowUnpriced && Trim(model) != "" ==> Lookup(table, p, model).Price?)
  {
    hide NormalizeProvider, Lookup, Trim, StrictlySorted;
    AvailableExactly(available, p);
  }

  lemma AvailableExactly(available: seq<string>, p: string)
    ensures p in AvailableSet(available) <==> p != "" && exists v :: v in available && NormalizeProvider(v) == p
    ensures AvailableSet(available) == {} <==> forall v | v in available :: NormalizeProvider(v) == ""
  {
    hide NormalizeProvider;
    if v :| v in available && NormalizeProvider(v) != "" { assert NormalizeProvider(v) in AvailableSet(available); }
  }

  lemma LookupTrims(table: PriceTable, provider: string, model: string)
    ensures Lookup(table, provider, Trim(model)) == Lookup(table, provider, model)
  {
    TrimIsTrimmed(model);
    TrimIsTrimmed(Trim(model));
  }

  lemma GrantedProvidersAreNamed(inv: Inventory, ts: set<Target>)
    ensures "" !in GrantedProviders(inv, ts)
  {
  }

  /** A limited, bound key passes the price check at admission exactly when unrestricted routing has somewhere to go. */
  lemma AdmissionAgreesWithRouting(table: PriceTable, inv: Inventory, bindings: set<Link>, members: set<Link>,
        keyID: string, model: string, available: seq<string>)
    requires IsBound(bindings, keyID) && Trim(model) != "" && forall v | v in available :: NormalizeProvider(v) == ""
    ensures var scope := ScopeOf(inv, bindings, members, keyID);
      Admits(table, scope, true, false, model) <==> AllowedProviders(table, scope, true, false, model, available) != {}
  {
    var scope := ScopeOf(inv, bindings, members, keyID);
    GrantedProvidersAreNamed(inv, KeyTargets(bindings, members, keyID));
    var allowed := AllowedProviders(table, scope, true, false, model, available);
    if p :| p in scope.providers && Lookup(table, p, Trim(model)).Price? {
      LookupTrims(table, p, model);
      assert p in allowed;
    }
    if p :| p in allowed {
      LookupTrims(table, p, model);
    }
  }
}
