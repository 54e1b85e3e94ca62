/** Importing the public price list: a fold over a map whose iteration order the language leaves open. */
module PriceImport {
  import opened Text
  import opened Tables
  import opened Billing
  import opened Pricing

  /** One model of the source; costs are per token. */
  datatype Spec = Spec(provider: string, input: real, output: real, cacheRead: real)
  type Source = map<string, Spec>

  // ---- names ----

  /** The text after the first slash, if there is one (strings.Cut). */
  function AfterSlash(s: string): (r: string)
    ensures |r| <= |s|
  {
    if s == [] then [] else if s[0] == '/' then s[1..] else AfterSlash(s[1..])
  }

  function BeforeSlash(s: string): string {
    if s == [] || s[0] == '/' then [] else [s[0]] + BeforeSlash(s[1..])
  }

  /** providerFromModelName */
  function ProviderOfName(model: string): string {
    if '/' in Trim(model) then BeforeSlash(Trim(model)) else ""
  }

  /** firstNonEmpty of the plugin package, which trims. */
  function FirstTrimmed(a: string, b: string): string {
    if Trim(a) != "" then Trim(a) else Trim(b)
  }

  const OFFICIAL: set<string> := {"openai", "anthropic", "gemini", "vertex"}

  /** officialPriceProviderAliases */
  function OfficialAliases(model: string, provider: string): (r: seq<string>)
    ensures |r| <= 1 && forall p | p in r :: p in OFFICIAL
  {
    var p := NormalizeProvider(provider);
    if p in {"openai", "text-completion-openai"} then ["openai"]
    else if p == "anthropic" then ["anthropic"]
    else if p in {"gemini", "google", "google_ai_studio"} then ["gemini"]
    else if p == "vertex_ai-language-models" then ["vertex"]
    else if p in {"vertex_ai", "vertex-ai"} && "gemini" <= AfterSlash(NormalizeProvider(model)) then ["vertex"]
    else []
  }

  /** priceModelAliases */
  function ModelAliases(model: string): seq<string> {
    var m := Trim(model);
    var after := Trim(AfterSlash(m));
    if m == "" then [] else Unique([m] + if '/' in m && after != "" && after != m then [after] else [])
  }

  predicate Skipped(raw: string, spec: Spec) {
    Trim(raw) == "" || Trim(raw) == "sample_spec" || (spec.input <= 0.0 && spec.output <= 0.0 && spec.cacheRead <= 0.0)
  }

  function ProvidersFor(raw: string, spec: Spec): (r: seq<string>)
    ensures |r| <= 1 && forall p | p in r :: p in OFFICIAL
  {
    OfficialAliases(Trim(raw), FirstTrimmed(spec.provider, ProviderOfName(Trim(raw))))
  }

  function PricesOf(spec: Spec): Prices {
    Prices(spec.input * 1_000_000.0, spec.output * 1_000_000.0, spec.cacheRead * 1_000_000.0)
  }

  /** The (provider, model) pairs one source entry offers. */
  function Offers(raw: string, spec: Spec): set<PriceKey> {
    if Skipped(raw, spec) then {} else
      set p, m | p in ProvidersFor(raw, spec) && m in ModelAliases(Trim(raw)) :: PriceKey(p, m)
  }

  lemma OffersAreCanonical(raw: string, spec: Spec, k: PriceKey)
    requires k in Offers(raw, spec)
    ensures k.provider in OFFICIAL && k.model != "" && Trim(k.model) == k.model
  {
    var m := Trim(Trim(raw));
    var values := [m] + if '/' in m && Trim(AfterSlash(m)) != "" && Trim(AfterSlash(m)) != m then [Trim(AfterSlash(m))]
      else [];
    assert Occurs(k.model, values);
    var i :| 0 <= i < |values| && Trim(values[i]) == k.model;
    TrimIsTrimmed(values[i]);
    TrimIsTrimmed(k.model);
  }

  lemma OfficialIsNormal(p: string)
    requires p in OFFICIAL
    ensures NormalizeProvider(p) == p && p != ""
  {
    assert Trimmed(p);
    TrimIsTrimmed(p);
    assert forall i | 0 <= i < |p| :: LowerChar(p[i]) == p[i];
    assert Lower(p) == p;
  }

  // ---- the import ----

  function RuleKey(r: Rule): PriceKey {
    PriceKey(r.provider, r.model)
  }

  function Keys(rules: seq<Rule>): set<PriceKey> {
    set r | r in rules :: RuleKey(r)
  }

  ghost predicate DistinctRules(rules: seq<Rule>) {
    forall i, j | 0 <= i < j < |rules| :: RuleKey(rules[i]) != RuleKey(rules[j])
  }

  /** What every source entry of order offers. */
  function Offered(source: Source, order: seq<string>): set<PriceKey> {
    set raw, k | raw in order && raw in source && k in Offers(raw, source[raw]) :: k
  }

  /** The first entry of order that offers the pair sets its price. */
  function FirstPrices(source: Source, order: seq<string>, k: PriceKey): Prices
    requires k in Offered(source, order)
  {
    if order[0] in source && k in Offers(order[0], source[order[0]]) then PricesOf(source[order[0]])
    else
      assert k in Offered(source, order[1..]) by {
        var raw :| raw in order && raw in source && k in Offers(raw, source[raw]);
        assert raw in order[1..];
      }
      FirstPrices(source, order[1..], k)
  }

  /** The rules of an iteration order: each offered pair once, at the price of its first offer. */
  ghost predicate ImportedIn(source: Source, order: seq<string>, rules: seq<Rule>) {
    DistinctRules(rules) && Keys(rules) == Offered(source, order) &&
    forall r | r in rules :: r.prices == FirstPrices(source, order, RuleKey(r))
  }

  lemma {:induction false} FirstPricesAppend(source: Source, order: seq<string>, raw: string, k: PriceKey)
    requires k in Offered(source, order)
    ensures k in Offered(source, order + [raw]) &&
      FirstPrices(source, order + [raw], k) == FirstPrices(source, order, k)
  {
    hide Offers;
    OfferedAppend(source, order, raw);
    assert (order + [raw])[1..] == order[1..] + [raw];
    if !(order[0] in source && k in Offers(order[0], source[order[0]])) {
      var other :| other in order && other in source && k in Offers(other, source[other]);
      assert other in order[1..];
      FirstPricesAppend(source, order[1..], raw, k);
    }
  }

  lemma OfferedAppend(source: Source, order: seq<string>, raw: string)
    ensures Offered(source, order + [raw]) == Offered(source, order) + if raw in source then Offers(raw, source[raw])
      else {}
  {
    var all := order + [raw];
    assert all[|order|] == raw;
    assert forall x :: x in all <==> x in order || x == raw;
  }

  lemma {:induction false} FirstPricesNew(source: Source, order: seq<string>, raw: string, k: PriceKey)
    requires k !in Offered(source, order) && raw in source && k in Offers(raw, source[raw])
    ensures k in Offered(source, order + [raw]) && FirstPrices(source, order + [raw], k) == PricesOf(source[raw])
  {
    assert raw in order + [raw];
    if order != [] {
      assert (order + [raw])[1..] == order[1..] + [raw];
      assert order[0] in order;
      FirstPricesNew(source, order[1..], raw, k);
    } else {
      assert order + [raw] == [raw];
    }
  }

  // ---- every order ----

  ghost predicate IsOrder(source: Source, order: seq<string>) {
    (forall raw :: raw in order <==> raw in source) && forall i, j | 0 <= i < j < |order| :: order[i] != order[j]
  }

  function AllOffers(source: Source): set<PriceKey> {
    set raw, k | raw in source && k in Offers(raw, source[raw]) :: k
  }

  /** Every iteration order emits the same pairs, none of them twice. */
  lemma PairsDoNotDependOnOrder(source: Source, order: seq<string>, rules: seq<Rule>)
    requires IsOrder(source, order) && ImportedIn(source, order, rules)
    ensures Keys(rules) == AllOffers(source) && |rules| == |AllOffers(source)|
  {
    assert Offered(source, order) == AllOffers(source);
    DistinctCount(rules);
  }

  lemma {:induction false} DistinctCount(rules: seq<Rule>)
    requires DistinctRules(rules)
    ensures |Keys(rules)| == |rules|
  {
    if rules != [] {
      var n := |rules| - 1;
      DistinctCount(rules[..n]);
      assert rules == rules[..n] + [rules[n]];
      KeysAppend(rules[..n], rules[n]);
      LastIsNew(rules);
    }
  }

  ghost predicate CanonicalRules(rules: seq<Rule>) {
    forall i | 0 <= i < |rules| ::
      rules[i].provider in OFFICIAL && rules[i].model != "" && Trim(rules[i].model) == rules[i].model
  }

  lemma ApplyOne(rules: seq<Rule>)
    requires rules != [] && CanonicalRules(rules)
    ensures var r := rules[|rules| - 1];
      Apply(map[], rules) == Apply(map[], rules[..|rules| - 1])[RuleKey(r) := r.prices]
  {
    OfficialIsNormal(rules[|rules| - 1].provider);
  }

  ghost predicate Holds(table: PriceTable, rules: seq<Rule>) {
    table.Keys == Keys(rules) && forall i | 0 <= i < |rules| ::
      RuleKey(rules[i]) in table && table[RuleKey(rules[i])] == rules[i].prices
  }

  lemma KeysAppend(rules: seq<Rule>, r: Rule)
    ensures Keys(rules + [r]) == Keys(rules) + {RuleKey(r)}
  {
    var all := rules + [r];
    assert all[|rules|] == r;
    forall k ensures k in Keys(all) <==> k in Keys(rules) + {RuleKey(r)} {
      if k in Keys(rules) {
        var x :| x in rules && RuleKey(x) == k;
        assert x in all;
      }
    }
  }

  lemma LastIsNew(rules: seq<Rule>)
    requires rules != [] && DistinctRules(rules)
    ensures RuleKey(rules[|rules| - 1]) !in Keys(rules[..|rules| - 1])
  {
  }

  lemma HoldsAppend(table: PriceTable, rules: seq<Rule>, r: Rule)
    requires Holds(table, rules) && RuleKey(r) !in Keys(rules)
    ensures Holds(table[RuleKey(r) := r.prices], rules + [r])
  {
    KeysAppend(rules, r);
  }

  lemma TableStep(rules: seq<Rule>)
    requires rules != [] && DistinctRules(rules) && CanonicalRules(rules)
    requires Holds(Apply(map[], rules[..|rules| - 1]), rules[..|rules| - 1])
    ensures Holds(Apply(map[], rules), rules)
  {
    hide Apply, Holds, Keys, CanonicalRules, DistinctRules;
    var n := |rules| - 1;
    ApplyOne(rules);
    LastIsNew(rules);
    assert rules == rules[..n] + [rules[n]];
    HoldsAppend(Apply(map[], rules[..n]), rules[..n], rules[n]);
  }

  /** Replacing the price table stores exactly the rules, one row each. */
  lemma {:induction false} TableHoldsTheRules(rules: seq<Rule>)
    requires DistinctRules(rules) && CanonicalRules(rules)
    ensures Holds(Apply(map[], rules), rules)
  {
    if rules == [] {
      assert Keys(rules) == {};
    } else {
      TableHoldsTheRules(rules[..|rules| - 1]);
      TableStep(rules);
    }
  }

  lemma RulesAreCanonical(source: Source, order: seq<string>, rules: seq<Rule>)
    requires ImportedIn(source, order, rules)
    ensures CanonicalRules(rules)
  {
    forall i | 0 <= i < |rules| ensures rules[i].provider in OFFICIAL && rules[i].model != "" &&
      Trim(rules[i].model) == rules[i].model {
      var r := rules[i];
      assert r in rules && RuleKey(r) in Keys(rules);
      assert RuleKey(r) in Offered(source, order);
      var raw :| raw in order && raw in source && RuleKey(r) in Offers(raw, source[raw]);
      OffersAreCanonical(raw, source[raw], RuleKey(r));
    }
  }

  /** The imported table as a function of the iteration order. */
  function TableIn(source: Source, order: seq<string>): PriceTable {
    map k | k in Offered(source, order) :: FirstPrices(source, order, k)
  }

  /** After the replacement the table has one row per rule and holds the first offer of every pair. */
  lemma ImportIsExact(source: Source, order: seq<string>, rules: seq<Rule>)
    requires ImportedIn(source, order, rules)
    ensures Apply(map[], rules) == TableIn(source, order) && |Apply(map[], rules)| == |rules|
  {
    hide Apply, Offers, Offered, FirstPrices, DistinctRules, CanonicalRules;
    RulesAreCanonical(source, order, rules);
    TableHoldsTheRules(rules);
    DistinctCount(rules);
    var table := Apply(map[], rules);
    assert table.Keys == Keys(rules);
    forall k | k in table ensures table[k] == FirstPrices(source, order, k) {
      var r :| r in rules && RuleKey(r) == k;
      var i :| 0 <= i < |rules| && rules[i] == r;
    }
  }

  /** Two source entries that offer the same pair agree on its price. */
  ghost predicate ConflictFree(source: Source) {
    forall a, b, k | a in source && b in source && k in Offers(a, source[a]) && k in Offers(b, source[b]) ::
      PricesOf(source[a]) == PricesOf(source[b])
  }

  lemma {:induction false} FirstPricesOffered(source: Source, order: seq<string>, k: PriceKey) returns (raw: string)
    requires k in Offered(source, order)
    ensures raw in source && k in Offers(raw, source[raw]) && FirstPrices(source, order, k) == PricesOf(source[raw])
  {
    raw := order[0];
    if !(order[0] in source && k in Offers(order[0], source[order[0]])) {
      var other :| other in order && other in source && k in Offers(other, source[other]);
      assert other in order[1..];
      raw := FirstPricesOffered(source, order[1..], k);
    }
  }

  lemma {:induction false} SomeOrder(keys: set<string>) returns (order: seq<string>)
    ensures (forall raw :: raw in order <==> raw in keys) && forall i, j | 0 <= i < j < |order| :: order[i] != order[j]
  {
    if keys == {} {
      order := [];
    } else {
      var raw :| raw in keys;
      var rest := SomeOrder(keys - {raw});
      order := [raw] + rest;
    }
  }

  lemma OrderStartingWith(source: Source, raw: string) returns (order: seq<string>)
    requires raw in source
    ensures IsOrder(source, order) && order != [] && order[0] == raw
  {
    var rest := SomeOrder(source.Keys - {raw});
    order := [raw] + rest;
  }

  ghost predicate OrderIndependent(source: Source) {
    forall o, p | IsOrder(source, o) && IsOrder(source, p) :: TableIn(source, o) == TableIn(source, p)
  }

  /**
   * The imported prices are the same for every iteration order if and only if no two entries offer a pair at different
   * prices.
   */
  lemma ImportOrderExact(source: Source)
    ensures OrderIndependent(source) <==> ConflictFree(source)
  {
    if ConflictFree(source) {
      forall o, p | IsOrder(source, o) && IsOrder(source, p) ensures TableIn(source, o) == TableIn(source, p) {
        assert Offered(source, o) == AllOffers(source) == Offered(source, p);
        forall k | k in AllOffers(source) ensures FirstPrices(source, o, k) == FirstPrices(source, p, k) {
          var a := FirstPricesOffered(source, o, k);
          var b := FirstPricesOffered(source, p, k);
        }
      }
    } else {
      var a, b, k :| a in source && b in source && k in Offers(a, source[a]) && k in Offers(b, source[b]) &&
        PricesOf(source[a]) != PricesOf(source[b]);
      var o := OrderStartingWith(source, a);
      var p := OrderStartingWith(source, b);
      assert k in Offered(source, o) && k in Offered(source, p);
      assert TableIn(source, o)[k] != TableIn(source, p)[k];
    }
  }

  lemma {:induction false} AfterPrefix(p: string, s: string)
    requires '/' !in p
    ensures AfterSlash(p + ("/" + s)) == s
  {
    var t := p + ("/" + s);
    if p == [] {
      assert t == ['/'] + s;
    } else {
      assert t[1..] == p[1..] + ("/" + s);
      AfterPrefix(p[1..], s);
    }
  }

  /** A model of the provider gemini offers its own name, and what follows the first slash. */
  lemma OffersModel(raw: string, model: string, spec: Spec)
    requires Trim(raw) == raw && raw != "" && raw != "sample_spec" && spec.input > 0.0 && spec.provider == "gemini"
    requires Trim(model) == model && model != "" && (model == raw || ('/' in raw && AfterSlash(raw) == model))
    ensures PriceKey("gemini", model) in Offers(raw, spec)
  {
    OfficialIsNormal("gemini");
    var g := spec.provider;
    assert Trim(g) != "";
    NormalizeProviderTwice(g);
    ModelIsAlias(raw, model);
    hide ModelAliases, AfterSlash;
    assert FirstTrimmed(g, ProviderOfName(raw)) == Trim(g);
    TrimIsTrimmed(g);
    TrimIsTrimmed(Trim(g));
    assert ProvidersFor(raw, spec) == ["gemini"];
  }

  lemma ModelIsAlias(raw: string, model: string)
    requires Trim(raw) == raw && raw != ""
    requires Trim(model) == model && model != "" && (model == raw || ('/' in raw && AfterSlash(raw) == model))
    ensures model in ModelAliases(raw)
  {
    hide AfterSlash, Trim;
    var after := Trim(AfterSlash(raw));
    var values := [raw] + if '/' in raw && after != "" && after != raw then [after] else [];
    assert Trim(values[0]) == raw;
    assert model != raw ==> Trim(values[1]) == model;
    assert Occurs(model, values);
  }

  lemma PlainText(s: string)
    requires s != [] && !IsSpace(s[0]) && !IsSpace(s[|s| - 1])
    ensures Trim(s) == s
  {
    TrimIsTrimmed(s);
  }

  /** A model listed with and without its provider's prefix, at two prices, makes the import depend on the order. */
  lemma ConflictingSource()
    ensures var a, b := Spec("gemini", 1.0, 0.0, 0.0), Spec("gemini", 2.0, 0.0, 0.0);
      var source: Source := map["gemini/x" := a, "x" := b];
      !ConflictFree(source) && !OrderIndependent(source)
  {
    hide Trim, Offers, OrderIndependent, AfterSlash;
    var long, short := "gemini/x", "x";
    var a, b := Spec("gemini", 1.0, 0.0, 0.0), Spec("gemini", 2.0, 0.0, 0.0);
    assert long[6] == '/' && |long| == 8 && |short| == 1;
    PlainText(long);
    PlainText(short);
    assert "gemini" + ("/" + short) == long;
    AfterPrefix("gemini", short);
    OffersModel(long, short, a);
    OffersModel(short, short, b);
    var source: Source := map[long := a, short := b];
    assert PricesOf(a).input != PricesOf(b).input;
    Conflict(source, long, short, PriceKey("gemini", short));
    ImportOrderExact(source);
  }

  lemma Conflict(source: Source, a: string, b: string, k: PriceKey)
    requires a in source && b in source && k in Offers(a, source[a]) && k in Offers(b, source[b])
    requires PricesOf(source[a]) != PricesOf(source[b])
    ensures !ConflictFree(source)
  {
    hide Offers;
  }

  /** After an import, the host's provider names are priced like their official providers. */
  lemma HostNamesArePricedOfficially(source: Source, order: seq<string>, model: string)
    ensures var table := TableIn(source, order);
      Lookup(table, "codex", model) == Lookup(table, "openai", model) &&
      Lookup(table, "claude", model) == Lookup(table, "anthropic", model) &&
      Lookup(table, "vertex_ai", model) == Lookup(table, "vertex", model)
  {
    hide NormalizeProvider, Trim, Lookup;
    var table := TableIn(source, order);
    forall k | k in table ensures k.provider in OFFICIAL {
      var raw :| raw in order && raw in source && k in Offers(raw, source[raw]);
      OffersAreCanonical(raw, source[raw], k);
    }
    HostNamesAreNormal();
    PricedLike(table, "codex", "openai", model);
    PricedLike(table, "claude", "anthropic", model);
    PricedLike(table, "vertex_ai", "vertex", model);
  }

  lemma PricedLike(table: PriceTable, host: string, official: string, model: string)
    requires (forall k | k in table :: k.provider in OFFICIAL) && host !in OFFICIAL && official in OFFICIAL
    requires NormalizeProvider(host) == host && Official(host) == official
    ensures Lookup(table, host, model) == Lookup(table, official, model)
  {
    hide NormalizeProvider, Trim;
    OfficialIsNormal(official);
    assert Official(official) == official;
  }

  lemma HostNamesAreNormal()
    ensures NormalizeProvider("codex") == "codex" && NormalizeProvider("claude") == "claude" &&
      NormalizeProvider("vertex_ai") == "vertex_ai"
  {
    forall p | p in {"codex", "claude", "vertex_ai"} ensures NormalizeProvider(p) == p {
      assert Trimmed(p);
      TrimIsTrimmed(p);
      assert forall i | 0 <= i < |p| :: LowerChar(p[i]) == p[i];
      assert Lower(p) == p;
    }
  }
}
