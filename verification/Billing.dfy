/** What a request costs. */
module Billing {

  const MIN64: int := -0x8000_0000_0000_0000
  const MAX64: int := 0x7fff_ffff_ffff_ffff
  type Int64 = x: int | MIN64 <= x <= MAX64

  /** Token counts of one request. */
  datatype Detail = Detail(input: Int64, output: Int64, cached: Int64, cacheRead: Int64, cacheCreation: Int64)

  /** Prices per million tokens. */
  datatype Prices = Prices(input: real, output: real, cacheRead: real)

  /** 64-bit subtraction wraps around. */
  function Minus(a: Int64, b: Int64): Int64 {
    (a - b - MIN64) % 0x1_0000_0000_0000_0000 + MIN64
  }

  function AtLeast(v: Int64, floor: Int64): Int64 {
    if v < floor then floor else v
  }

  function Max(a: int, b: int): int {
    if a < b then b else a
  }

  function MaxReal(a: real, b: real): real {
    if a < b then b else a
  }

  /** normalizedCacheReadTokens: an explicit count, or what the cached and cache-creation counts imply. */
  function CacheRead(d: Detail): Int64 {
    if d.cacheRead > 0 then d.cacheRead else
      var cached := AtLeast(d.cached, 0);
      if cached == 0 then 0 else
        var creation := AtLeast(d.cacheCreation, 0);
        if creation > 0 then (if cached > creation then Minus(cached, creation) else 0) else cached
  }

  function BilledInput(d: Detail): Int64 {
    AtLeast(Minus(d.input, CacheRead(d)), 0)
  }

  function CalculateUSD(p: Prices, d: Detail): real {
    BilledInput(d) as real * p.input / 1_000_000.0 +
    AtLeast(d.output, 0) as real * p.output / 1_000_000.0 +
    CacheRead(d) as real * p.cacheRead / 1_000_000.0
  }

  lemma MinusExact(a: Int64, b: Int64)
    ensures MIN64 <= a - b <= MAX64 ==> Minus(a, b) == a - b
    ensures a - b < MIN64 ==> Minus(a, b) == a - b + 0x1_0000_0000_0000_0000
  {
  }

  lemma CacheReadNonNegative(d: Detail)
    ensures 0 <= CacheRead(d)
  {
    MinusExact(AtLeast(d.cached, 0), AtLeast(d.cacheCreation, 0));
  }

  /** Storing the inferred cache-read count before pricing never changes the price. */
  lemma NormalizingKeepsCost(p: Prices, d: Detail)
    ensures CacheRead(d.(cacheRead := CacheRead(d))) == CacheRead(d)
    ensures CalculateUSD(p, d.(cacheRead := CacheRead(d))) == CalculateUSD(p, d)
  {
    CacheReadNonNegative(d);
  }

  /** Billed input and cache reads add up to max(input, cache reads), exactly when the subtraction does not wrap. */
  lemma BilledTokensExact(d: Detail)
    ensures BilledInput(d) + CacheRead(d) == Max(d.input, CacheRead(d)) <==> d.input - CacheRead(d) >= MIN64
    ensures d.input >= 0 ==> d.input - CacheRead(d) >= MIN64
  {
    CacheReadNonNegative(d);
    MinusExact(d.input, CacheRead(d));
  }

  lemma BilledInputNonNegative(d: Detail)
    ensures BilledInput(d) >= 0
  {
  }

  /** Such a wrap bills more input tokens than any request has. */
  lemma WrappedBillExample()
    ensures BilledInput(Detail(MIN64, 0, 0, 1, 0)) == MAX64
  {
    MinusExact(MIN64, 1);
  }

  lemma TimesMonotone(a: real, p: real, m: real)
    requires 0.0 <= a && 0.0 <= p <= m
    ensures 0.0 <= a * p <= a * m
  {
  }

  lemma Distribute(a: real, b: real, m: real)
    ensures (a + b) * m == a * m + b * m
  {
  }

  lemma WeightedBound(i: real, o: real, c: real, p: real, q: real, r: real, m: real)
    requires i >= 0.0 && o >= 0.0 && c >= 0.0 && 0.0 <= p <= m && 0.0 <= q <= m && 0.0 <= r <= m
    ensures 0.0 <= i * p / 1_000_000.0 + o * q / 1_000_000.0 + c * r / 1_000_000.0 <= (i + o + c) * m / 1_000_000.0
  {
    TimesMonotone(i, p, m);
    TimesMonotone(o, q, m);
    TimesMonotone(c, r, m);
    Distribute(i + o, c, m);
    Distribute(i, o, m);
    ScaledBound(i * p, o * q, c * r, i * m, o * m, c * m);
  }

  lemma ScaledBound(x: real, y: real, z: real, x': real, y': real, z': real)
    requires 0.0 <= x <= x' && 0.0 <= y <= y' && 0.0 <= z <= z'
    ensures 0.0 <= x / 1_000_000.0 + y / 1_000_000.0 + z / 1_000_000.0 <= (x' + y' + z') / 1_000_000.0
  {
  }

  function TopPrice(p: Prices): real {
    MaxReal(p.input, MaxReal(p.output, p.cacheRead))
  }

  /**
   * A request with non-negative input costs at most its tokens at the highest of the three prices, and never less than
   * nothing.
   */
  lemma CostBound(p: Prices, d: Detail)
    requires d.input >= 0 && p.input >= 0.0 && p.output >= 0.0 && p.cacheRead >= 0.0
    ensures 0.0 <= CalculateUSD(p, d) <= (Max(d.input, CacheRead(d)) +
      Max(d.output, 0)) as real * TopPrice(p) / 1_000_000.0
  {
    hide CacheRead, BilledInput;
    CacheReadNonNegative(d);
    BilledTokensExact(d);
    BilledInputNonNegative(d);
    WeightedBound(BilledInput(d) as real, AtLeast(d.output, 0) as real, CacheRead(d) as real, p.input, p.output,
      p.cacheRead, TopPrice(p));
    assert (Max(d.input, CacheRead(d)) + Max(d.output, 0)) as real ==
      BilledInput(d) as real + AtLeast(d.output, 0) as real + CacheRead(d) as real;
  }

  // ---- the formula of the documentation ----

  /** The documented price: no floor at zero, counts as recorded. */
  function DocumentedUSD(p: Prices, d: Detail): real {
    (d.input - d.cacheRead) as real * p.input / 1_000_000.0 +
    d.output as real * p.output / 1_000_000.0 +
    d.cacheRead as real * p.cacheRead / 1_000_000.0
  }

  ghost predicate AgreesWithDocumentation(d: Detail) {
    forall p: Prices :: CalculateUSD(p, d) == DocumentedUSD(p, d)
  }

  lemma OneComponent(x: real, y: real, z: real)
    ensures x * 1_000_000.0 / 1_000_000.0 + y * 0.0 / 1_000_000.0 + z * 0.0 / 1_000_000.0 == x
    ensures x * 0.0 / 1_000_000.0 + y * 1_000_000.0 / 1_000_000.0 + z * 0.0 / 1_000_000.0 == y
  {
  }

  lemma DifferentInputShows(d: Detail)
    requires AgreesWithDocumentation(d)
    ensures BilledInput(d) == d.input - d.cacheRead
  {
    hide BilledInput, CacheRead;
    var p := Prices(1_000_000.0, 0.0, 0.0);
    assert CalculateUSD(p, d) == DocumentedUSD(p, d);
    OneComponent(BilledInput(d) as real, AtLeast(d.output, 0) as real, CacheRead(d) as real);
    OneComponent((d.input - d.cacheRead) as real, d.output as real, d.cacheRead as real);
  }

  lemma DifferentOutputShows(d: Detail)
    requires AgreesWithDocumentation(d)
    ensures d.output >= 0
  {
    hide BilledInput, CacheRead;
    var p := Prices(0.0, 1_000_000.0, 0.0);
    assert CalculateUSD(p, d) == DocumentedUSD(p, d);
    OneComponent(BilledInput(d) as real, AtLeast(d.output, 0) as real, CacheRead(d) as real);
    OneComponent((d.input - d.cacheRead) as real, d.output as real, d.cacheRead as real);
  }

  /**
   * On recorded counts the code charges the documented price, at all prices, exactly when no count would be floored.
   */
  lemma DocumentedFormulaExact(d: Detail)
    requires d.cacheRead == CacheRead(d)
    ensures AgreesWithDocumentation(d) <==> d.input >= d.cacheRead && d.output >= 0
  {
    CacheReadNonNegative(d);
    MinusExact(d.input, CacheRead(d));
    BilledInputNonNegative(d);
    if AgreesWithDocumentation(d) {
      DifferentInputShows(d);
      DifferentOutputShows(d);
    }
  }

  /** For one: twenty cached tokens of ten input tokens, where the documented input cost is negative. */
  lemma DocumentedFormulaDiffers()
    ensures !AgreesWithDocumentation(Detail(10, 5, 0, 20, 0))
  {
    DocumentedFormulaExact(Detail(10, 5, 0, 20, 0));
  }

  // ---- what is booked ----

  /** An explicit count of cache reads stands; otherwise they are the cached tokens that were not just written. */
  lemma CacheReadExactly(d: Detail)
    ensures d.cacheRead > 0 ==> CacheRead(d) == d.cacheRead
    ensures d.cacheRead <= 0 ==> CacheRead(d) == Max(Max(d.cached, 0) - Max(d.cacheCreation, 0), 0)
  {
    if d.cached > 0 && d.cacheCreation > 0 { MinusExact(d.cached, d.cacheCreation); }
  }

  /** What so many tokens cost at a price per million. */
  function PerMillion(tokens: int, price: real): real {
    tokens as real * price / 1_000_000.0
  }

  /** A million tokens cost the price, and tokens cost the same each. */
  lemma PerMillionExactly(m: int, n: int, price: real)
    ensures PerMillion(1_000_000, price) == price &&
      PerMillion(m + n, price) == PerMillion(m, price) + PerMillion(n, price)
  {
    Distribute(m as real, n as real, price);
  }

  /** The cost of recorded counts, term by term. */
  lemma CostExactly(p: Prices, d: Detail)
    requires d.cacheRead == CacheRead(d)
    ensures var billed := if d.input >= d.cacheRead then d.input - d.cacheRead
        else if d.input - d.cacheRead >= -0x8000_0000_0000_0000 then 0
        else d.input - d.cacheRead + 0x1_0000_0000_0000_0000;
      CalculateUSD(p, d) == PerMillion(billed, p.input) + PerMillion(if d.output > 0 then d.output else 0, p.output) +
        PerMillion(d.cacheRead, p.cacheRead)
  {
    CacheReadNonNegative(d);
    MinusExact(d.input, d.cacheRead);
  }
}
