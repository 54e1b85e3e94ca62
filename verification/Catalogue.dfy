/** What the price table holds and what is found in it, rule by rule and source entry by source entry. */
module Catalogue {
  import opened Text
  import opened Tables
  import opened InventorySync
  import opened Billing
  import opened Pricing
  import opened PriceImport

  // ---- finding a price ----

  /** The provider names of the host whose prices are published under another name. */
  predicate PublishedAs(provider: string, official: string) {
    (provider == "codex" && official == "openai") || (provider == "claude" && official == "anthropic") ||
    (provider == "vertex_ai" && official == "vertex")
  }

  /** A provider's own rule decides; without one the rule of the name its prices are published under; else none. */
  lemma LookupExactly(table: PriceTable, provider: string, model: string)
    ensures var p, m := NormalizeProvider(provider), Trim(model);
      (PriceKey(p, m) in table ==> Lookup(table, provider, model) == Price(table[PriceKey(p, m)])) &&
      (PriceKey(p, m) !in table ==>
        (forall q | PublishedAs(p, q) && PriceKey(q, m) in table ::
          Lookup(table, provider, model) == Price(table[PriceKey(q, m)])) &&
        ((forall q | PublishedAs(p, q) :: PriceKey(q, m) !in table) ==> Lookup(table, provider, model) == Missing))
  {
    hide NormalizeProvider, Trim;
    var p := NormalizeProvider(provider);
    assert Official(p) != p ==> PublishedAs(p, Official(p));
  }

  // ---- storing rules ----

  /** The rule is for the pair: up to white space and the provider's case, and neither is blank. */
  predicate IsFor(r: Rule, k: PriceKey) {
    k.provider != "" && k.model != "" && NormalizeProvider(r.provider) == k.provider && Trim(r.model) == k.model
  }

  /** The last rule for a pair sets its price. */
  lemma {:induction false} LastRuleDecides(table: PriceTable, rules: seq<Rule>, k: PriceKey, i: nat)
    requires i < |rules| && IsFor(rules[i], k) && forall j | i < j < |rules| :: !IsFor(rules[j], k)
    ensures k in Apply(table, rules) && Apply(table, rules)[k] == rules[i].prices
  {
    hide NormalizeProvider, Trim;
    if i < |rules| - 1 {
      LastRuleDecides(table, rules[..|rules| - 1], k, i);
    }
  }

  /** Pairs no rule is for keep what the table says. */
  lemma {:induction false} OtherPricesStay(table: PriceTable, rules: seq<Rule>, k: PriceKey)
    requires forall r | r in rules :: !IsFor(r, k)
    ensures k in Apply(table, rules) <==> k in table
    ensures k in table ==> Apply(table, rules)[k] == table[k]
  {
    hide NormalizeProvider, Trim;
    if rules != [] {
      var r := rules[|rules| - 1];
      assert r in rules;
      OtherPricesStay(table, rules[..|rules| - 1], k);
    }
  }

  // ---- what a source entry offers ----

  /** s is x, a slash and y, and that slash is the first. */
  predicate Cut(s: string, x: string, y: string) {
    s == x + ("/" + y) && '/' !in x
  }

  lemma {:induction false} CutExactly(s: string, x: string, y: string)
    requires Cut(s, x, y)
    ensures '/' in s && BeforeSlash(s) == x && AfterSlash(s) == y
  {
    AfterPrefix(x, y);
    assert s[|x|] == '/';
    if x != "" {
      assert Cut(s[1..], x[1..], y);
      CutExactly(s[1..], x[1..], y);
      assert x == [x[0]] + x[1..];
    }
  }

  lemma {:induction false} Cuts(s: string)
    ensures '/' in s ==> Cut(s, BeforeSlash(s), AfterSlash(s))
    ensures '/' !in s ==> AfterSlash(s) == "" && forall x, y :: !Cut(s, x, y)
  {
    if s != "" && s[0] != '/' {
      Cuts(s[1..]);
      assert s == [s[0]] + s[1..];
      assert '/' in s <==> '/' in s[1..];
    }
    if x, y :| Cut(s, x, y) { CutExactly(s, x, y); }
  }

  /** The provider an entry names: its own field, else what precedes the first slash of its model. */
  ghost predicate NamesProvider(raw: string, spec: Spec, provider: string) {
    if Trim(spec.provider) != "" then provider == NormalizeProvider(spec.provider)
    else if '/' in Trim(raw) then exists x, y :: Cut(Trim(raw), x, y) && provider == NormalizeProvider(x)
    else provider == ""
  }

  /** The official provider of each name in the source; vertex only for gemini models unless it says language models. */
  ghost predicate Sells(raw: string, provider: string, official: string) {
    (provider in {"openai", "text-completion-openai"} && official == "openai") ||
    (provider == "anthropic" && official == "anthropic") ||
    (provider in {"gemini", "google", "google_ai_studio"} && official == "gemini") ||
    (provider == "vertex_ai-language-models" && official == "vertex") ||
    (provider in {"vertex_ai", "vertex-ai"} && official == "vertex" &&
      exists x, y :: Cut(Lower(Trim(raw)), x, y) && "gemini" <= y)
  }

  /** The model under its own name, and under what follows its first slash. */
  ghost predicate NamesModel(raw: string, model: string) {
    model != "" && (model == Trim(raw) || exists x, y :: Cut(Trim(raw), x, y) && model == Trim(y))
  }

  predicate HasCost(spec: Spec) {
    spec.input > 0.0 || spec.output > 0.0 || spec.cacheRead > 0.0
  }

  lemma ProviderNamed(raw: string, spec: Spec, provider: string)
    ensures NamesProvider(raw, spec, provider) <==>
      provider == NormalizeProvider(FirstTrimmed(spec.provider, ProviderOfName(Trim(raw))))
  {
    var m := Trim(raw);
    TrimTwice(raw);
    TrimTwice(spec.provider);
    TrimTwice(BeforeSlash(m));
    Cuts(m);
    assert Lower("") == "" && Trim("") == "";
    hide Trim, AfterSlash, BeforeSlash;
    if Trim(spec.provider) == "" && '/' in m {
      if x, y :| Cut(m, x, y) && provider == NormalizeProvider(x) { CutExactly(m, x, y); }
    }
  }

  lemma ProviderSold(raw: string, provider: string, q: string)
    requires NormalizeProvider(provider) == provider
    ensures q in OfficialAliases(Trim(raw), provider) <==> Sells(raw, provider, q)
  {
    var m := Lower(Trim(raw));
    GeminiModel(raw);
    hide Trim, Lower, AfterSlash, BeforeSlash, NormalizeProvider, Cut;
    hide StrictlySorted, Less, Trimmed;
  }

  lemma GeminiModel(raw: string)
    ensures "gemini" <= AfterSlash(NormalizeProvider(Trim(raw))) <==>
      exists x, y :: Cut(Lower(Trim(raw)), x, y) && "gemini" <= y
  {
    var m := Lower(Trim(raw));
    TrimTwice(raw);
    Cuts(m);
    assert NormalizeProvider(Trim(raw)) == m;
    hide Trim, Lower, AfterSlash, BeforeSlash, NormalizeProvider;
    if x, y :| Cut(m, x, y) && "gemini" <= y { CutExactly(m, x, y); }
    if '/' !in m { assert !("gemini" <= AfterSlash(m)); }
  }

  lemma ModelNamed(raw: string, model: string)
    ensures model in ModelAliases(Trim(raw)) <==> NamesModel(raw, model)
  {
    var m := Trim(raw);
    TrimTwice(raw);
    Cuts(m);
    var after := Trim(AfterSlash(m));
    TrimTwice(AfterSlash(m));
    hide Trim, AfterSlash, BeforeSlash;
    var values := [m] + if '/' in m && after != "" && after != m then [after] else [];
    assert Occurs(model, values) <==> model == m || (|values| == 2 && model == after) by {
      assert Trim(values[0]) == m;
      if |values| == 2 { assert Trim(values[1]) == after; }
    }
    if x, y :| Cut(m, x, y) && model == Trim(y) { CutExactly(m, x, y); }
  }

  /**
   * An entry offers a pair exactly if it is no blank or sample entry, has a cost, and names a provider sold under the
   * pair's provider and a model that is the pair's.
   */
  lemma OffersExactly(raw: string, spec: Spec, k: PriceKey)
    ensures k in Offers(raw, spec) <==>
      Trim(raw) != "" && Trim(raw) != "sample_spec" && HasCost(spec) && NamesModel(raw, k.model) &&
      exists provider :: NamesProvider(raw, spec, provider) && Sells(raw, provider, k.provider)
  {
    var named := FirstTrimmed(spec.provider, ProviderOfName(Trim(raw)));
    var provider := NormalizeProvider(named);
    NormalizeProviderTwice(named);
    forall p ensures NamesProvider(raw, spec, p) <==> p == provider { ProviderNamed(raw, spec, p); }
    ProviderSold(raw, provider, k.provider);
    SameAliases(Trim(raw), named);
    ModelNamed(raw, k.model);
    hide Trim, NamesProvider, NamesModel, Sells, ModelAliases, OfficialAliases, NormalizeProvider, FirstTrimmed,
      ProviderOfName;
  }

  lemma SameAliases(model: string, named: string)
    ensures OfficialAliases(model, named) == OfficialAliases(model, NormalizeProvider(named))
  {
    NormalizeProviderTwice(named);
    hide Trim, Lower, AfterSlash;
  }

  // ---- what an imported price charges ----

  /** The first entry of the order that offers the pair. */
  ghost predicate FirstOffer(source: Source, order: seq<string>, k: PriceKey, i: int) {
    0 <= i < |order| && order[i] in source && k in Offers(order[i], source[order[i]]) &&
    forall j | 0 <= j < i && order[j] in source :: k !in Offers(order[j], source[order[j]])
  }

  lemma {:induction false} FirstOfferSets(source: Source, order: seq<string>, k: PriceKey) returns (i: int)
    requires k in Offered(source, order)
    ensures FirstOffer(source, order, k, i) && FirstPrices(source, order, k) == PricesOf(source[order[i]])
  {
    hide Offers, PricesOf;
    i := 0;
    if !(order[0] in source && k in Offers(order[0], source[order[0]])) {
      var raw :| raw in order && raw in source && k in Offers(raw, source[raw]);
      assert raw in order[1..];
      i := FirstOfferSets(source, order[1..], k);
      i := i + 1;
      assert forall j | 1 <= j < i :: order[j] == order[1..][j - 1];
    }
  }

  lemma PerToken(n: int, cost: real)
    ensures PerMillion(n, cost * 1_000_000.0) == n as real * cost
  {
    var x := n as real;
    assert x * (cost * 1_000_000.0) == (x * cost) * 1_000_000.0;
  }

  lemma ImportedRow(source: Source, order: seq<string>, rules: seq<Rule>, k: PriceKey) returns (i: int)
    requires ImportedIn(source, order, rules) && k in Offered(source, order)
    ensures FirstOffer(source, order, k, i) && 0 <= i < |order| && order[i] in source
    ensures Lookup(Apply(map[], rules), k.provider, k.model) == Price(PricesOf(source[order[i]]))
  {
    ImportIsExact(source, order, rules);
    i := FirstOfferSets(source, order, k);
    OffersAreCanonical(order[i], source[order[i]], k);
    OfficialIsNormal(k.provider);
    LookupExactly(Apply(map[], rules), k.provider, k.model);
    hide Apply, Lookup, Offers, FirstPrices, ImportedIn, NormalizeProvider, Trim, FirstOffer, PricesOf;
  }

  lemma ImportedCharge(spec: Spec, d: Detail)
    requires d.cacheRead == CacheRead(d) && d.input >= d.cacheRead && d.output >= 0
    ensures CalculateUSD(PricesOf(spec), d) == (d.input - d.cacheRead) as real * spec.input +
      d.output as real * spec.output + d.cacheRead as real * spec.cacheRead
  {
    CostExactly(PricesOf(spec), d);
    PerToken(d.input - d.cacheRead, spec.input);
    PerToken(d.output, spec.output);
    PerToken(d.cacheRead, spec.cacheRead);
    hide CalculateUSD, PerMillion, CacheRead;
  }

  /** After an import a pair has a price exactly if some source entry offers it. */
  lemma ImportedExactly(source: Source, order: seq<string>, rules: seq<Rule>, k: PriceKey)
    requires IsOrder(source, order) && ImportedIn(source, order, rules)
    ensures k in Apply(map[], rules) <==> exists raw :: raw in source && k in Offers(raw, source[raw])
  {
    ImportIsExact(source, order, rules);
    hide Apply, Offers, FirstPrices, ImportedIn;
  }

  /**
   * After an import a request for an offered pair costs its tokens at the costs per token of the first entry that
   * offers the pair.
   */
  lemma ImportedCost(source: Source, order: seq<string>, rules: seq<Rule>, k: PriceKey, d: Detail) returns (i: int)
    requires ImportedIn(source, order, rules) && k in Offered(source, order)
    requires d.cacheRead == CacheRead(d) && d.input >= d.cacheRead && d.output >= 0
    ensures FirstOffer(source, order, k, i)
    ensures var found, spec := Lookup(Apply(map[], rules), k.provider, k.model), source[order[i]];
      found.Price? && CalculateUSD(found.prices, d) == (d.input - d.cacheRead) as real * spec.input +
        d.output as real * spec.output + d.cacheRead as real * spec.cacheRead
  {
    hide *;
    i := ImportedRow(source, order, rules, k);
    ImportedCharge(source[order[i]], d);
  }
}
