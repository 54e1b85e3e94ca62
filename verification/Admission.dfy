/** What a limit is for: when it can refuse a request, what its windows count, and when a price is demanded. */
module Admission {
  import opened Text
  import opened TimeText
  import opened Tables
  import opened Pricing
  import opened Quota
  import opened StoreRows

  // ---- limits that can refuse ----

  /** A limit some amount of usage reaches. */
  lemma ReachableLimit(l: Limit)
    ensures (exists used: real :: Reached(l, used)) <==> l.AtMost? && l.usd > 0.0
  {
    if l.AtMost? && l.usd > 0.0 { assert Reached(l, l.usd); }
  }

  lemma BookedNow(keyID: string, usd: real, w: Window, now: Moment)
    ensures WindowSum([Charge(keyID, usd, now)], keyID, w, now) == usd
  {
    var c := Charge(keyID, usd, now);
    assert InWindow(c, w, now) by {
      if w != Total { assert Cut(w, now) / SECOND < now / SECOND; }
    }
    assert [c][..0] == [] && WindowSum([], keyID, w, now) == 0.0;
  }

  /** A key is checked for prices exactly when some usage, at some reading, could exhaust one of its limits. */
  lemma LimitsEnabledExactly(l: Limits)
    ensures LimitsEnabled(l) <==> exists ledger, keyID, now: Moment :: Exceeded(ledger, keyID, l, now)
  {
    hide WindowSum;
    if ledger, keyID, now: Moment :| Exceeded(ledger, keyID, l, now) {
    }
    var now: Moment := ZERO_TIME + WEEK + 1;
    forall w: Window | LimitOf(l, w).AtMost? && LimitOf(l, w).usd > 0.0
      ensures exists ledger, keyID, now: Moment :: Exceeded(ledger, keyID, l, now)
    {
      var ledger := [Charge("", LimitOf(l, w).usd, now)];
      BookedNow("", LimitOf(l, w).usd, w, now);
      assert Exceeded(ledger, "", l, now);
    }
    if LimitsEnabled(l) {
      var w := if l.fiveHour.AtMost? && l.fiveHour.usd > 0.0 then FiveHour
        else if l.weekly.AtMost? && l.weekly.usd > 0.0 then Weekly else Total;
      assert LimitOf(l, w).AtMost? && LimitOf(l, w).usd > 0.0;
    }
  }

  /** A check refuses exactly when some positive limit is met by the sum of its window. */
  lemma ExceededExactly(ledger: seq<Charge>, keyID: string, l: Limits, now: Moment)
    ensures Exceeded(ledger, keyID, l, now) <==>
      (l.fiveHour.AtMost? && 0.0 < l.fiveHour.usd <= WindowSum(ledger, keyID, FiveHour, now)) ||
      (l.weekly.AtMost? && 0.0 < l.weekly.usd <= WindowSum(ledger, keyID, Weekly, now)) ||
      (l.total.AtMost? && 0.0 < l.total.usd <= WindowSum(ledger, keyID, Total, now))
  {
    hide WindowSum;
  }

  /** The window reported is the first used-up one of five hours, week and total. */
  lemma FirstReachedExactly(ledger: seq<Charge>, keyID: string, l: Limits, now: Moment)
    ensures var five, week, total := Reached(l.fiveHour, WindowSum(ledger, keyID, FiveHour, now)),
        Reached(l.weekly, WindowSum(ledger, keyID, Weekly, now)),
          Reached(l.total, WindowSum(ledger, keyID, Total, now));
      (FirstReached(ledger, keyID, l, now, FiveHour) <==> five) &&
      (FirstReached(ledger, keyID, l, now, Weekly) <==> !five && week) &&
      (FirstReached(ledger, keyID, l, now, Total) <==> !five && !week && total)
  {
    hide WindowSum, Reached;
  }

  // ---- what the windows count ----

  /**
   * The five-hour window holds what was booked at most 18,000 seconds ago and the weekly window at most 604,800, apart
   * from rows the text comparison misjudges; the total holds everything.
   */
  lemma WindowsExactly(c: Charge, now: Moment)
    ensures !Misordered(now - 18_000_000_000_000, c.createdAt) ==>
      (InWindow(c, FiveHour, now) <==> now <= c.createdAt + 18_000_000_000_000)
    ensures !Misordered(now - 604_800_000_000_000, c.createdAt) ==>
      (InWindow(c, Weekly, now) <==> now <= c.createdAt + 604_800_000_000_000)
    ensures InWindow(c, Total, now)
  {
    hide Misordered;
    assert Cut(FiveHour, now) == now - 18_000_000_000_000 && Cut(Weekly, now) == now - 604_800_000_000_000;
  }

  /** One more row counts once, for its key, in the windows it lies in. */
  lemma OneMoreRow(ledger: seq<Charge>, c: Charge, keyID: string, w: Window, now: Moment)
    ensures WindowSum(ledger + [c], keyID, w, now) - WindowSum(ledger, keyID, w, now) ==
      if c.keyID == keyID && InWindow(c, w, now) then c.usd else 0.0
    ensures WindowSum([], keyID, w, now) == 0.0
  {
    hide InWindow;
    assert (ledger + [c])[..|ledger|] == ledger;
  }

  // ---- prices demanded ----

  /**
   * The price check refuses exactly the bound, limited keys that ask for a named model, where prices are demanded, and
   * that reach no provider with a price for it.
   */
  lemma RefusedExactly(table: PriceTable, scope: Scope, limits: Limits, allowUnpriced: bool, model: string)
    ensures !Admits(table, scope, LimitsEnabled(limits), allowUnpriced, model) <==>
      scope.hasBindings && Trim(model) != "" && !allowUnpriced &&
      (exists ledger, keyID, now: Moment :: Exceeded(ledger, keyID, limits, now)) &&
      forall p | p in scope.providers :: Lookup(table, p, model).Missing?
  {
    LimitsEnabledExactly(limits);
    hide Exceeded, LimitsEnabled;
    forall p ensures Lookup(table, p, Trim(model)) == Lookup(table, p, model) { LookupTrims(table, p, model); }
    hide Lookup, Trim;
  }

  /** A reading that is given is used; the zero time stands for the clock. */
  lemma ReadingExactly(now: Instant, clock: Instant)
    ensures now != 31_622_400_000_000_000 ==> Reading(now, clock) == now
    ensures Reading(31_622_400_000_000_000, clock) == clock
  {
  }
}
