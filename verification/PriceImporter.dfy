/** The importer itself: nested loops over a map, with a set of the pairs already emitted. */
module PriceImporter {
  import opened Text
  import opened Billing
  import opened Pricing
  import opened PriceImport

  /** The text under which an emitted pair is remembered. */
  function PairKey(provider: string, model: string): string {
    provider + ("\0" + model)
  }

  lemma PairKeyInjective(p: string, m: string, q: string, n: string)
    requires p in OFFICIAL && q in OFFICIAL && PairKey(p, m) == PairKey(q, n)
    ensures p == q && m == n
  {
    var s, t := PairKey(p, m), PairKey(q, n);
    assert forall x | x in OFFICIAL :: '\0' !in x;
    assert s[|p|] == '\0' && t[|q|] == '\0';
    assert |p| == |q|;
    assert p == s[..|p|] == q && m == s[|p| + 1..] == n;
  }

  /** seen remembers exactly the pairs emitted for official providers. */
  ghost predicate Remembers(seen: set<string>, rules: seq<Rule>) {
    forall p, m | p in OFFICIAL :: PairKey(p, m) in seen <==> PriceKey(p, m) in Keys(rules)
  }

  function Pairs(ps: seq<string>, ms: seq<string>): set<PriceKey> {
    set p, m | p in ps && m in ms :: PriceKey(p, m)
  }

  /** rules extends base by one rule, at the given prices, for every pair of done that base lacks. */
  ghost predicate Extends(base: seq<Rule>, done: set<PriceKey>, prices: Prices, rules: seq<Rule>) {
    DistinctRules(rules) && Keys(rules) == Keys(base) + done &&
    forall r | r in rules :: if RuleKey(r) in Keys(base) then r in base else r.prices == prices
  }

  lemma ExtendsItself(base: seq<Rule>, prices: Prices)
    requires DistinctRules(base)
    ensures Extends(base, {}, prices, base)
  {
    assert forall r | r in base :: RuleKey(r) in Keys(base);
  }

  lemma RememberOne(seen: set<string>, rules: seq<Rule>, r: Rule)
    requires Remembers(seen, rules) && r.provider in OFFICIAL
    ensures Remembers(seen + {PairKey(r.provider, r.model)}, rules + [r])
  {
    hide PairKey, Keys;
    KeysAppend(rules, r);
    forall p, m | p in OFFICIAL && PairKey(p, m) == PairKey(r.provider, r.model) ensures p == r.provider &&
      m == r.model {
      PairKeyInjective(p, m, r.provider, r.model);
    }
  }

  lemma ExtendByOne(base: seq<Rule>, done: set<PriceKey>, prices: Prices, rules: seq<Rule>, r: Rule)
    requires Extends(base, done, prices, rules) && RuleKey(r) !in Keys(rules) && r.prices == prices
    ensures Extends(base, done + {RuleKey(r)}, prices, rules + [r])
  {
    hide Keys;
    KeysAppend(rules, r);
    assert forall x | x in rules :: RuleKey(x) in Keys(rules) by { MembersHaveKeys(rules); }
    assert forall x :: x in rules + [r] <==> x in rules || x == r;
    assert DistinctRules(rules + [r]);
  }

  lemma MembersHaveKeys(rules: seq<Rule>)
    ensures forall x | x in rules :: RuleKey(x) in Keys(rules)
  {
  }

  lemma ExtendByNone(base: seq<Rule>, done: set<PriceKey>, prices: Prices, rules: seq<Rule>, k: PriceKey)
    requires Extends(base, done, prices, rules) && k in Keys(rules)
    ensures Extends(base, done + {k}, prices, rules)
  {
  }

  /** A whole source entry takes the import from one order to the order with that entry at its end. */
  lemma ImportEntry(source: Source, order: seq<string>, base: seq<Rule>, raw: string, rules: seq<Rule>)
    requires ImportedIn(source, order, base) && raw in source
    requires Extends(base, Offers(raw, source[raw]), PricesOf(source[raw]), rules)
    ensures ImportedIn(source, order + [raw], rules)
  {
    hide Offers, PricesOf, DistinctRules, Offered;
    OfferedAppend(source, order, raw);
    MembersHaveKeys(rules);
    forall r | r in rules ensures RuleKey(r) in Offered(source, order + [raw]) &&
      r.prices == FirstPrices(source, order + [raw], RuleKey(r)) {
      if RuleKey(r) in Keys(base) {
        FirstPricesAppend(source, order, raw, RuleKey(r));
      } else {
        FirstPricesNew(source, order, raw, RuleKey(r));
      }
    }
  }

  lemma PairsOfNone(ps: seq<string>, ms: seq<string>)
    ensures Pairs([], ms) == {} == Pairs(ps, [])
  {
  }

  lemma PairsAppend(ps: seq<string>, p: string, ms: seq<string>, m: string)
    ensures Pairs(ps + [p], ms) == Pairs(ps, ms) + Pairs([p], ms)
    ensures Pairs([p], ms + [m]) == Pairs([p], ms) + {PriceKey(p, m)}
  {
  }

  /** The two inner loops of liteLLMPriceRules. */
  method AddPairs(providers: seq<string>, models: seq<string>, prices: Prices, base: seq<Rule>, known: set<string>)
    returns (rules: seq<Rule>, seen: set<string>)
    requires (forall p | p in providers :: p in OFFICIAL) && DistinctRules(base) && Remembers(known, base)
    ensures Extends(base, Pairs(providers, models), prices, rules) && Remembers(seen, rules)
  {
    hide Extends, Remembers, Pairs, DistinctRules, PairKey, Keys;
    rules, seen := base, known;
    ExtendsItself(base, prices);
    PairsOfNone(providers, models);
    for i := 0 to |providers|
      invariant Extends(base, Pairs(providers[..i], models), prices, rules) && Remembers(seen, rules)
    {
      var provider := providers[i];
      PairsOfNone([provider], models);
      assert models[..0] == [] && Pairs(providers[..i], models) + {} == Pairs(providers[..i], models);
      for j := 0 to |models|
        invariant Extends(base, Pairs(providers[..i], models) + Pairs([provider], models[..j]), prices, rules) &&
          Remembers(seen, rules)
      {
        var model := models[j];
        ghost var done := Pairs(providers[..i], models) + Pairs([provider], models[..j]);
        assert models[..j + 1] == models[..j] + [model];
        PairsAppend(providers[..i], provider, models[..j], model);
        assert Pairs(providers[..i], models) + Pairs([provider], models[..j + 1]) == done + {PriceKey(provider, model)};
        var key := PairKey(provider, model);
        RemembersPair(seen, rules, provider, model);
        if key in seen {
          ExtendByNone(base, done, prices, rules, PriceKey(provider, model));
          continue;
        }
        var rule := Rule(provider, model, prices);
        RememberOne(seen, rules, rule);
        ExtendByOne(base, done, prices, rules, rule);
        seen := seen + {key};
        rules := rules + [rule];
      }
      assert models[..|models|] == models && providers[..i + 1] == providers[..i] + [provider];
      PairsAppend(providers[..i], provider, models, "");
    }
    assert providers[..|providers|] == providers;
  }

  lemma RemembersPair(seen: set<string>, rules: seq<Rule>, p: string, m: string)
    requires Remembers(seen, rules) && p in OFFICIAL
    ensures PairKey(p, m) in seen <==> PriceKey(p, m) in Keys(rules)
  {
  }

  lemma OffersAre(raw: string, spec: Spec)
    ensures Offers(raw, spec) == if Skipped(raw, spec) then {}
      else Pairs(ProvidersFor(raw, spec), ModelAliases(Trim(raw)))
  {
  }

  lemma ImportNothing(source: Source)
    ensures ImportedIn(source, [], []) && Remembers({}, [])
  {
  }

  lemma ImportSkipped(source: Source, order: seq<string>, rules: seq<Rule>, raw: string)
    requires ImportedIn(source, order, rules) && raw in source && Offers(raw, source[raw]) == {}
    ensures ImportedIn(source, order + [raw], rules)
  {
    hide Offers, Offered;
    ExtendsItself(rules, PricesOf(source[raw]));
    ImportEntry(source, order, rules, raw, rules);
  }

  /** liteLLMPriceRules: whatever order the map is iterated in, the rules are the import in that order. */
  method LiteLLMPriceRules(specs: Source) returns (rules: seq<Rule>)
    ensures exists order :: IsOrder(specs, order) && ImportedIn(specs, order, rules)
    ensures Keys(rules) == AllOffers(specs) && |rules| == |AllOffers(specs)|
  {
    rules := [];
    var seen: set<string> := {};
    ghost var order: seq<string> := [];
    var todo := specs.Keys;
    ImportNothing(specs);
    hide ImportedIn, Remembers, Offers, AllOffers, Keys, Skipped, Trim, Extends;
    while todo != {}
      invariant todo <= specs.Keys
      invariant forall raw :: raw in order <==> raw in specs && raw !in todo
      invariant forall i, j | 0 <= i < j < |order| :: order[i] != order[j]
      invariant ImportedIn(specs, order, rules) && Remembers(seen, rules)
    {
      var raw :| raw in todo;
      var spec := specs[raw];
      OffersAre(raw, spec);
      ghost var before := order;
      todo, order := todo - {raw}, order + [raw];
      if Skipped(raw, spec) {
        ImportSkipped(specs, before, rules, raw);
        continue;
      }
      assert DistinctRules(rules) by { ImportedRulesAreDistinct(specs, before, rules); }
      ghost var base := rules;
      rules, seen := AddPairs(ProvidersFor(raw, spec), ModelAliases(Trim(raw)), PricesOf(spec), rules, seen);
      ImportEntry(specs, before, base, raw, rules);
    }
    assert IsOrder(specs, order);
    PairsDoNotDependOnOrder(specs, order, rules);
  }

  lemma ImportedRulesAreDistinct(source: Source, order: seq<string>, rules: seq<Rule>)
    requires ImportedIn(source, order, rules)
    ensures DistinctRules(rules)
  {
  }
}
