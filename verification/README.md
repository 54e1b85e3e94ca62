# The access store, proved

This project models the routing, quota and authorisation core of the toolkit plugin (`internal/access/`, with the price
importer and the updater commands of `internal/plugin/`) and proves what that core is for.

The store keeps API keys, groups, the two link tables (key bindings and group members), an inventory of auth files and
provider instances, a price table, a usage ledger and sticky routing sessions. Class `Store.Store` has these tables as
fields and the source's operations as methods with the source's loops; each method is proved against a function or
predicate, and the theorems below are about those.

| module | file | subject |
|---|---|---|
| `Routing`, `Collection`, `Stickiness`, `Fairness`, `Rotation` | `Routing.dfy`, `Collection.dfy`, `Stickiness.dfy`, `Fairness.dfy`, `Rotation.dfy` | the session and cursor protocol as a step function, its properties over whole runs, and which calls share a rotation |
| `Selection`, `Authorized` | `Selection.dfy`, `Authorized.dfy` | which candidates a pick rotates over, and what any routed call may answer |
| `Quota`, `Overshoot`, `Admission`, `Billing` | `Quota.dfy`, `Overshoot.dfy`, `Admission.dfy`, `Billing.dfy` | admission against limits while requests are in flight, and the runs that reach or pass its bound; the price of one request |
| `Access`, `Migration`, `InventorySync`, `Learning` | `Access.dfy`, `Migration.dfy`, `InventorySync.dfy`, `Learning.dfy` | scopes, renamed references, keeping the inventory in step with the host, and what learning does to permissions |
| `Grants`, `FileNames`, `Columns` | `Grants.dfy`, `FileNames.dfy`, `Columns.dfy` | the same tables read off the rows: who may use what, which names an auth file goes by, which field ends in which column |
| `Pricing`, `PriceImport`, `PriceImporter`, `Catalogue` | `Pricing.dfy`, `PriceImport.dfy`, `PriceImporter.dfy`, `Catalogue.dfy` | price lookup, the import over a map in any order, and what an entry offers and charges |
| `TimeText`, `Calendar` | `TimeText.dfy`, `Calendar.dfy` | RFC 3339 text (sections 5.1 and 5.6) and what comparing it as text does to time |
| `LikePattern`, `Shell` | `LikePattern.dfy`, `Shell.dfy` | two printers whose readers (SQL-92, section 8.5; POSIX.1-2017 Shell Command Language, sections 2.2.2, 2.2.3 and 2.3) give the text back |
| `StoreRows`, `Store` | `StoreRows.dfy`, `StoreClass.dfy` | the tables as stored, and the class |
| `Text`, `Tables`, `Naming` | `Text.dfy`, `Tables.dfy`, `Naming.dfy` | strings, rows and identifiers, and what their normal forms are character by character |

## How the parts fit

- Time is a count of nanoseconds; the store keeps it as text. `TimeText.TextLeq` is the comparison SQL makes on the two
  texts, and the class methods, which compare the texts themselves, are proved to agree with it.
- A successful routed call of the class is one `Routing.Step`: `View()` of the store and the returned provider or
  account are those of the step. The run theorems of `Collection`, `Stickiness` and `Fairness` are about sequences of
  such steps by any keys, sessions and models. The routing mutex makes every concurrent execution such a sequence, but
  callers read the clock before they take it (internal/plugin/app.go:236, internal/plugin/app.go:279), so the readings of
  a run may come in any order. Results that need them in order say so in `Ordered`.
- `Authenticate` succeeds only within the limits as `Quota.Exceeded` defines them, and `RecordUsage` appends exactly one
  charge. In the protocol of `Quota` an admission is three `Query` actions, one per window, because the source runs three
  queries without a transaction: bookings and other requests may come between them, any number of admitted requests may
  be unbooked, and clock readings may come in any order. `Authenticate` is the case with nothing in between.
- `InventorySync.Changes` relates the inventory before and after the three operations that learn about auth files; the
  class methods are proved to realise it. `Learning` says what learning does to permissions at any step of such a history,
  and what a learning step does that overlaps a synchronisation.

## Where the code does not do what it is for

Each of these is stated as an exact condition, with a witness for the failing side.

- Times are compared as texts whose trailing zeros were trimmed, so inside one second the order can be wrong
  (internal/access/store.go:1578); `TimeText.TextOrderExact` says for which pairs, `TimeText.WholeSecondMisorders` gives
  some. A deletion then takes sessions that have not expired (`Collection.CollectionExact`, `Collection.MisjudgedRow`,
  witness `Collection.CollectionCanBeObserved`), which unpins a session (`Stickiness.PinDecidesExactly`,
  `Stickiness.PinLostInItsLastSecond`).
- For the same reason the quota bound of a window holds between the last admission and a reading exactly when some limit no
  larger than its own covers it: when everything the window counts at the reading was counted against that limit at the
  admission (`Overshoot.BoundExact`). For a single limit that is so exactly when the two cuts compare in order as texts
  (`Overshoot.BoundExactForOneLimit`), also in runs whose clock never goes back
  (`Overshoot.BoundExactInOrderForOneLimit`). The computed sum can pass the bound by nearly the whole limit (witness
  `Overshoot.TextWindowCanOvershoot`).
- A deletion by one call can be seen by another that read the clock earlier (`Collection.CollectionExact`, witness
  `Collection.LaggingCallObservesCollection`).
- Learning a candidate lets a key use another provider's candidate of the same identifier exactly when it writes the first
  row of a provider instance the key is bound to (`Learning.LearningExact`, witness `Learning.SharedIdentifierWidens`).
- A learning step that overlaps a synchronisation can list an auth file a second time (`Learning.LearningDuringSync`,
  witness `Learning.OverlapListsTwice`), or restore an unlisted one (`Learning.AuthFileLearnedDuringSync`, witness
  `Learning.OverlapRestores`).
- The imported prices depend on Go's map order exactly when two source entries offer the same pair at different prices
  (`PriceImport.ImportOrderExact`, witness `PriceImport.ConflictingSource`); the set of pairs never does.
- The documented billing formula (README.md:249-255) has no floor at zero; the code has one
  (internal/access/store.go:1181-1188). `Billing.DocumentedFormulaExact` says when they agree, and
  `Billing.DocumentedFormulaDiffers` is a case where they do not. Usage without a price rule is booked at the reported
  cost, hence at 0, as documented, exactly when none is reported (`Store.Store.RecordUsage`); the plugin reports none
  (internal/plugin/app.go:303-351).
- A requested model that holds a NUL character can make picks for two provider filters take turns on one cursor, exactly
  when model and filter joined by a NUL coincide (`Rotation.AuthCursorExact`, witness `Rotation.NulSharesARotation`).
- For negative input counts the 64-bit subtraction can wrap and bill the largest token count there is
  (`Billing.BilledTokensExact`, witness `Billing.WrappedBillExample`).

## Model

| member | source | states |
|---|---|---|
| `Store.Store.ChooseProviderRouted` | internal/access/routing.go:24-97 | unknown key, unbound key and empty choice are told apart and change nothing; otherwise the call is one route step over the sorted allowed providers, with session and cursors as that step leaves them |
| `Store.Store.AllowedList` | internal/access/routing.go:37-58 | whatever order the scope lists providers in, the list is the sorted set of those that are available and, for a limited key, priced |
| `Store.Store.RouteStep` | internal/access/routing.go:60-97 | the locked part, on text rows, refines the route step: sticky hit, rotation, save and deletion |
| `Store.Store.PickCandidateRouted` | internal/access/routing.go:101-180 | the scope is resolved before candidates are learned; refusals leave sessions and cursors alone; otherwise one pick step over the top-priority authorised matching candidates |
| `Store.Store.TopCandidates` | internal/access/routing.go:112-140 | filter, stable sort and in-place compaction together give exactly the specified rotation list |
| `Store.Store.PickStep` | internal/access/routing.go:141-179 | the locked part, on text rows, refines the pick step, including the search for the pinned candidate |
| `Store.Store.NextCandidate` | internal/access/routing.go:182-191 | rotates the cursor of key, model, provider filter and priority, and returns the last candidate carrying the chosen identifier |
| `Store.Store.IndexByID` | internal/access/routing.go:183-188 | the map built in the loop holds the last candidate of every identifier |
| `Store.Store.NextRoutingValue` | internal/access/routing.go:193-197 | the value at the cursor modulo the length; only this cursor advances, modulo 2^64 |
| `Store.Store.LoadRoutingSession` | internal/access/routing.go:206-222 | finds a stored session and reads back its expiry to the nanosecond |
| `Store.Store.SaveRoutingSession` | internal/access/routing.go:224-230 | the session expires one hour after now; other sessions are untouched |
| `Store.Store.DeleteExpiredRoutingSessions` | internal/access/routing.go:232-235 | deletion by text removes the rows that compare as expired and no others |
| `Text.ContainsString` | internal/access/routing.go:237-240 | binary search in a sorted list finds a value exactly when it is there |
| `Selection.KeepTop` | internal/access/routing.go:126-140 | reusing the sorted slice in place keeps exactly its leading run of the first priority and damages nothing |
| `Selection.StableSortSorted` | internal/access/routing.go:126-131 | the sorted slice is ordered by descending priority, then identifier |
| `Selection.StableSortStable` | internal/access/routing.go:126-131 | candidates that compare equal keep the order they came in |
| `Selection.TopIsMaximal` | internal/access/routing.go:126-140 | a pick rotates over all candidates of maximal priority and no others; it has none only if there are none |
| `Selection.SelectionIsCanonical` | internal/access/routing.go:112-140 | with distinct identifiers the rotation list is the same for every order the host offers candidates in |
| `Authorized.PickIsAuthorised` | internal/access/routing.go:112-179 | every successful pick, sticky or rotated, is an authorised candidate for the wanted provider, of maximal priority among those |
| `Authorized.RouteIsAuthorised` | internal/access/routing.go:37-96 | every provider routed to, sticky or rotated, is granted by the scope, is what some value the host lists normalises to (if any listed value is not blank), and is priced if the key is limited |
| `Authorized.OfferedExactly` | internal/access/routing.go:112-140 | a pick is offered exactly the candidates that are authorised, match the filter and are outranked by no other such candidate |
| `Pricing.AllowedExactly` | internal/access/routing.go:37-58 | a provider is in the list exactly if the scope names it, some listed value normalises to it (if any listed value is not blank), and it is priced where a price is demanded |
| `Authorized.PickIsCanonical` | internal/access/routing.go:112-179 | with distinct identifiers a pick answers, and leaves sessions and cursors, the same for every order of the candidates |
| `Authorized.AnswerIsListed` | internal/access/routing.go:60-97 | a step never answers outside the list it was given, whatever its session row says |
| `Collection.CollectionIsUnobservable` | internal/access/routing.go:71-94 | over whole runs, with clock readings in any order, a store that deletes expired sessions returns what one that never deletes returns, with the same cursors, as long as no session is called again at a reading at which a row deleted from it was alive |
| `Collection.CollectionUnobservableInPhase` | internal/access/routing.go:141-178 | that condition holds in every run whose readings are in order and in whole seconds, or in any one sub-second phase |
| `Collection.CollectionExact` | internal/access/routing.go:232-235 | a deletion is invisible to every later run of the store, which goes on deleting or never does again, with readings from a given instant on, if and only if it takes no row alive at that instant |
| `Collection.MisjudgedRow` | internal/access/routing.go:232-235 | the live rows a deletion takes are those expiring later in the current second with a fraction extending that of now |
| `Collection.CollectionCanBeObserved` | internal/access/routing.go:232-235 | such rows exist at the turn of every second, and some later call of the store sees the loss |
| `Collection.LaggingCallObservesCollection` | internal/access/routing.go:62-94 | a call that read the clock before a row expired can see its deletion by a call that read it later |
| `Stickiness.PinDecidesExactly` | internal/access/routing.go:60-95 | over every run, with clock readings in any order, a pin decides all calls of its session if and only if each comes before the last one's expiry and can be served, and no other session's call in between deletes the row |
| `Stickiness.StaysPinned` | internal/access/routing.go:60-95 | a pin kept alive in this sense answers every route and pick of its session alike in every interleaving |
| `Stickiness.UndisturbedIsKeptAlive` | internal/access/routing.go:141-178 | it is kept alive, whatever other sessions hold, if no other session's call compares as at or after its expiry |
| `Stickiness.StaysPinnedInOrder` | internal/access/routing.go:60-95 | with readings in order, gaps of at most an hour less one second keep the answer; with readings in one sub-second phase, gaps under the full hour do |
| `Stickiness.OtherCallKeepsPin` | internal/access/routing.go:71-94 | another session's call leaves the pin exactly if it has no session, is sticky, or reads a clock whose text is before the expiry's; otherwise the row is gone |
| `Stickiness.OwnCallIsSticky` | internal/access/routing.go:71-83 | the session's own call is decided by the pin exactly while it is alive and its answer is on offer, and renews it |
| `Stickiness.CallPins` | internal/access/routing.go:83-94 | every session call leaves its answer pinned for the next one |
| `Stickiness.SessionStaysWithItsFirstPick` | internal/access/routing.go:141-178 | from the first pick of a session on, its provider and account decide every later route and pick exactly while kept alive |
| `Stickiness.PinLostInItsLastSecond` | internal/access/routing.go:232-235 | a pin that has not expired is lost to another session's call exactly if that call starts or re-routes its session in the second of the expiry, at a fraction that the expiry's extends |
| `Stickiness.StickyCallsKeepCursors` | internal/access/routing.go:75-84 | a call moves its cursor exactly when the session does not decide it, and never another cursor |
| `Fairness.RotationIsFair` | internal/access/routing.go:182-197 | over any run, k rotations of one cursor over n distinct values choose each value floor(k/n) or ceil(k/n) times, whatever happens on other cursors |
| `Fairness.ChosenIsCyclic` | internal/access/routing.go:193-197 | they visit the list cyclically from the cursor's position |
| `Fairness.AuthCursorInjective` | internal/access/routing.go:182-191 | account cursors are shared by no two different combinations of key, model, provider filter and priority |
| `Fairness.ProviderCursorInjective` | internal/access/routing.go:84 | provider cursors are shared by no two different pairs of key and model |
| `Fairness.CursorKindsDiffer` | internal/access/routing.go:189 | no provider cursor is an account cursor |
| `Rotation.RotationsExact` | internal/access/routing.go:182-197 | two calls move the same cursor if and only if they are of the same kind, for the same key and model, and picks also for the same provider filter and top priority |
| `Rotation.AuthCursorExact` | internal/access/routing.go:189-190 | for arbitrary models and filters, account cursors coincide exactly for equal key, priority and NUL-joined model and filter; only a NUL in a model can make two filters share one |
| `Rotation.OthersChangeNoAnswer` | internal/access/routing.go:182-197 | in every run the sessionless calls of a rotation return what they return alone: calls for other keys, models, filters or priorities change no answer |
| `Rotation.RotatedCall` | internal/access/routing.go:182-197 | a call no session decides answers with its list at the number of uses of its rotation modulo the length, of equal identifiers the last, and adds one use, 2^64-1 wrapping to 0 |
| `Rotation.StickyExact` | internal/access/routing.go:60-83 | a session decides a call exactly if it is named, known, unexpired, and its row fits the offer (a blank provider fits any); the answer is the row's provider or the first fitting candidate |
| `Rotation.SessionRowAfter` | internal/access/routing.go:224-230 | a session's row expires 3600 seconds after the call and holds its answer; a route keeps the account of a deciding row and otherwise blanks it |
| `Rotation.TopIsOrdered` | internal/access/routing.go:126-140 | the list a pick rotates over has one priority and is ordered by identifier |
| `TimeText.FormatReadsBack` | internal/access/store.go:1574-1591 | parsing the formatted text gives the instant back to the nanosecond, for all UTC years 0 to 9999 |
| `TimeText.TimeRoundTrip` | internal/access/store.go:1574-1591 | with the clock substitution, exactly for the instants it does not replace |
| `TimeText.LaterSecondReadsLater` | internal/access/store.go:1574-1579 | an instant in a later second has the later text |
| `TimeText.TextOrderExact` | internal/access/store.go:1574-1579 | text order is time order if and only if the pair is not one second's trimmed fraction extending the other |
| `TimeText.TextLeqIsTextOrder` | internal/access/routing.go:232-235 | the comparison used in the protocols is the comparison of the stored texts |
| `Calendar.Layout` | internal/access/store.go:1574-1579 | a stored text shows year, month, day, hour, minute and second in their places, with a point and a fraction exactly if the second is not whole |
| `Calendar.DaysFollow` | internal/access/store.go:1574-1579 | each day has the Gregorian date after the last |
| `Calendar.ClockCounts` | internal/access/store.go:1574-1579 | within a day the date stays and the clock counts hours, minutes and seconds |
| `Calendar.TimeStarts` | internal/access/store.go:1574-1579 | instants count from midnight of the first of January of the year 0 |
| `Quota.OvershootBound` | internal/access/store.go:487-521 | with k requests in flight at most, counted from their first query on, each costing c at most, clocks read in any order and bookings between the three queries, every computed window sum at every reading stays below limit + (k - those that passed its check) c + the cost of the rows not counted by its last check but counted now; the middle term is at most the slack, (k - admitted) c |
| `Quota.BoundByCover` | internal/access/store.go:487-521 | every limit plus the slack bounds every window's sum at every reading that counts nothing its own last check did not count |
| `Quota.ReturnsExactly` | internal/access/store.go:509-510 | rows not counted at one reading are counted at another exactly when their cuts compare the wrong way round |
| `Quota.BoundInOrder` | internal/access/store.go:504-521 | limit plus slack holds at every reading not before the window's last check, unless both are in one second and the later fraction extends the earlier one |
| `Quota.BoundWithoutMisorder` | internal/access/store.go:504-521 | and at every later reading if no row the check saw is misordered with either cut |
| `Quota.BoundInPhase` | internal/access/store.go:504-521 | and whenever the two readings share a sub-second phase, where the sum over rows of that phase is that of the exact window |
| `Quota.CostBoundBySeconds` | internal/access/store.go:504-521 | whatever the texts do, the cost booked since any later second than that of the last check's cut obeys the bound |
| `Quota.CutsMisordered` | internal/access/store.go:509-510 | when the cuts of two readings in order compare the wrong way round |
| `Overshoot.BoundExact` | internal/access/store.go:487-521 | for any limits and any two readings, a window's bound holds at the second in every run last checked at the first if and only if some limit no larger than its own counted at the first whatever the window counts at the second |
| `Overshoot.BoundExactForOneLimit` | internal/access/store.go:504-521 | with one limit: if and only if the cuts compare in order as texts, or the limit is the total |
| `Overshoot.BoundExactInOrder` | internal/access/store.go:487-521 | for the smallest limit the same condition is exact for the runs in which no reading goes back and every row carries the clock at its booking |
| `Overshoot.BoundExactInOrderForOneLimit` | internal/access/store.go:504-521 | so with one limit, also for those runs, if and only if the cuts compare in order |
| `Overshoot.NoBoundAtAll` | internal/access/store.go:504-521 | with one limit, if they do not, runs with rows of arbitrary creation times reach any sum |
| `Overshoot.BoundIsTight` | internal/access/store.go:415-431 | from an empty ledger runs come as close to a window's limit + k c as wanted if and only if no window at least as wide has a smaller limit |
| `Overshoot.OvershootIsReached` | internal/access/store.go:415-431 | any state that admits can be run to raise every window sum by k times c |
| `Quota.WindowSumExact` | internal/access/store.go:504-521 | the SQL sum is the exact window sum when no row of the key is misordered with the cut |
| `Overshoot.TextWindowCanOvershoot` | internal/access/store.go:504-521 | with a clock that never goes back and one request at a time, the computed five-hour sum reaches twice a limit of n c, which passes limit + slack by (n - 1) c |
| `Store.Store.SumFromText` | internal/access/store.go:504-521 | comparing creation texts with the cut's text sums exactly the charges in the window |
| `Store.Store.CheckQuota` | internal/access/store.go:487-502 | refuses exactly when some limit is reached, and names the first of five hours, week, total |
| `Store.Store.KeyByPresentedToken` | internal/access/store.go:433-450 | finds the one key whose digest matches; blank and unknown tokens are refused |
| `Store.Store.Authenticate` | internal/access/store.go:415-431 | accepts a token only for a known, enabled key within its limits and with a priced model; each refusal has its reason |
| `Store.Store.ValidateBindingsAndPricing` | internal/access/store.go:467-485 | accepts exactly when the key is unbound, unlimited, asks for no model, may go unpriced, or some provider of its scope has a price |
| `Admission.LimitsEnabledExactly` | internal/access/types.go:33-35 | a key counts as limited if and only if some ledger, key and reading make the quota check refuse it |
| `Admission.RefusedExactly` | internal/access/store.go:467-485 | the price check refuses exactly the bound keys that some usage could exhaust and that ask for a named model none of their providers has a price for, where prices are demanded |
| `Admission.WindowsExactly` | internal/access/store.go:487-521 | the five-hour sum counts rows booked at most 18,000 seconds ago and the weekly sum at most 604,800, apart from pairs the text comparison misjudges |
| `Admission.FirstReachedExactly` | internal/access/store.go:487-502 | the reported window is the first used-up one of five hours, week and total |
| `Store.Store.RecordUsage` | internal/access/store.go:1013-1043 | appends one row and one charge for an existing key, under the provider of the auth file when none is given; with a price rule for the booked provider and model the cost is that of the row's own counts at the rule's prices, whatever was reported, and without one the reported cost |
| `Billing.NormalizingKeepsCost` | internal/access/store.go:1026-1034 | storing the inferred cache-read count before pricing never changes the cost |
| `Billing.BilledTokensExact` | internal/access/store.go:1181-1206 | billed input plus cache reads is max(input, cache reads) exactly when the 64-bit subtraction does not wrap, which non-negative input guarantees |
| `Billing.WrappedBillExample` | internal/access/store.go:1181-1188 | the wrap bills the largest count there is |
| `Billing.CostBound` | internal/access/store.go:1181-1206 | cost lies between zero and the tokens at the highest of the three prices |
| `Billing.DocumentedFormulaExact` | README.md:249-255 | the code charges the documented price at all prices if and only if no count would be floored |
| `Billing.DocumentedFormulaDiffers` | README.md:249-255 | for one, with twenty cached of ten input tokens |
| `Billing.CacheReadExactly` | internal/access/store.go:1190-1206 | an explicit count of cache reads stands; otherwise it is the cached count minus the creation count, each floored at zero, and the difference too |
| `Billing.CostExactly` | internal/access/store.go:1181-1188 | the cost of recorded counts is floored input (wrapped where 64 bits overflow), floored output and cache reads, each at its own price per million |
| `Store.Store.ResolveScope` | internal/access/store.go:540-557 | whatever order the bindings come in, the scope is the union of what they grant |
| `Store.Store.ApplyTarget` | internal/access/store.go:559-591 | adds exactly what one target grants; the recursion ends because no group is nested in a group |
| `Access.DeletingAGroupShrinks` | internal/access/store.go:1272-1281 | deleting a group only shrinks scopes, so no candidate is allowed that was not before, and a bound key stays bound |
| `Tables.InstanceIDInjective` | internal/access/store.go:1446-1461 | with colon-free providers an instance identifier determines provider and account |
| `Grants.MayUseExactly` | internal/access/store.go:540-615 | a key may use a named candidate exactly if it reaches, directly or through a group, the account, the instance provider:account, or an instance whose row names the account |
| `Grants.ProvidersExactly` | internal/access/store.go:540-591 | a key may be routed exactly to the providers the inventory gives for a reached account or provider instance |
| `Grants.AllowsExactly` | internal/access/store.go:601-615 | any candidate, named or not, is allowed by its account or by the provider instance its fields identify |
| `Grants.RowsExactly` | internal/access/store.go:1334-1369 | a requested reference becomes a row exactly if kind and target are not blank, and a member only if it is no group |
| `Grants.OtherKeysUnaffected` | internal/access/store.go:1334-1349 | replacing or deleting one key's rows leaves every other key's scope as it was |
| `Grants.OtherGroupsUnaffected` | internal/access/store.go:1351-1369 | replacing a group's members changes nothing for keys not bound to the group |
| `Grants.OtherSumsStay` | internal/access/store.go:371-380 | deleting a key leaves every other key's window sums as they were, and none of its own |
| `Naming.InstanceIDExact` | internal/access/store.go:1446-1461 | an instance is identified by its account, else its index, else its address, else by whatever is known, cut free of colons |
| `Naming.TrimExact` | internal/access/store.go:1463-1476 | trimming cuts the white space at both ends and nothing else |
| `Naming.LessExact` | internal/access/routing.go:126-131 | the string order is decided at the first difference, or by length without one |
| `Store.Store.ReplaceBindings` | internal/access/store.go:1334-1349 | the key's rows become the normalised requested ones; other keys' rows are untouched |
| `Store.Store.ReplaceGroupMembers` | internal/access/store.go:1351-1369 | likewise for a group, dropping group members, so groups stay flat |
| `Store.Store.constructor` | internal/access/store.go:68-193 | an empty store satisfies the invariant every operation keeps |
| `Store.Store.CreateKey` | internal/access/store.go:266-308 | a digest in use is refused and changes nothing; otherwise the key and its bindings are added |
| `Store.Store.UpdateKeyBindings` | internal/access/store.go:326-369 | replaces the bindings of an existing key only |
| `Store.Store.DeleteKey` | internal/access/store.go:371-380 | the key goes with its bindings, sessions and ledger rows, and nothing else does |
| `Store.Store.CreateGroup` | internal/access/store.go:1208-1233 | a group under its given or generated identifier; an identifier in use is refused and changes nothing |
| `Store.Store.UpdateGroupMembers` | internal/access/store.go:1235-1270 | replaces the members of an existing group only |
| `Store.Store.DeleteGroup` | internal/access/store.go:1272-1281 | the group goes with its members; bindings to it stay |
| `Store.Store.UpsertInventoryItem` | internal/access/store.go:859-881 | stores the normalised row under its normalised key; a blank key changes nothing; rows stay in normal form |
| `Store.Store.UpsertAuthFiles` | internal/access/store.go:617-655 | the inventory plus one row per named entry, the last of equal identifiers winning, minus provider instances that are really one of the entries |
| `Store.Store.DeleteAuthFileProviderInstances` | internal/access/store.go:758-775 | deletes exactly the address-less rows named provider:authID whose authID is listed |
| `Store.Store.SyncAuthFiles` | internal/access/store.go:661-717 | the phases together give the declared inventory and the renamed bindings and members; every constraint of the schema is kept |
| `Store.Store.CollectAuthFileNames` | internal/access/store.go:662-679 | the query collects every name of every stored auth file, in whatever order the rows come |
| `Store.Store.ListEntries` | internal/access/store.go:688-699 | the loop collects the entries' identifiers and all their names |
| `Store.Store.DeleteUnlisted` | internal/access/store.go:704-716 | of the auth files exactly the listed ones remain, none for an empty listing |
| `InventorySync.PhasesAreSynced` | internal/access/store.go:661-717 | upserting, deleting shadows and deleting the unlisted is one declared replacement |
| `InventorySync.SyncIsExact` | internal/access/store.go:661-717 | afterwards the auth-file identifiers are those of the entries, and every other row is untouched unless it shadows one of their names |
| `InventorySync.SyncIsIdempotent` | internal/access/store.go:661-717 | a second synchronisation with the same entries changes nothing |
| `InventorySync.SyncRemovesShadows` | internal/access/store.go:657-660 | whatever the table held, afterwards no auth file is also listed as a provider instance |
| `InventorySync.NeverShadowed` | internal/access/store.go:617-857 | in every run of the three operations from an empty table, no auth file is ever also listed as a provider instance |
| `FileNames.BaseOfFile` | internal/access/store.go:731-734 | the last element of a path is its file name, behind any directory and without one |
| `FileNames.BaseIsOneElement` | internal/access/store.go:731-734 | no result but the root's contains a slash, and the root's is that of the all-slash paths |
| `FileNames.FileReferenceMoves` | internal/access/store.go:719-756 | a reference by the file name of an entry's path becomes one to the account of the first entry that claims it |
| `FileNames.ReferenceMoves` | internal/access/store.go:719-756 | so does every claimed reference |
| `FileNames.ClaimsExactly` | internal/access/store.go:726-735 | an entry with identifier and provider claims provider:n for exactly its id, index, name and file name, trimmed and not blank |
| `FileNames.RenameExactly` | internal/access/store.go:726-753 | the first claiming entry decides, and a reference nobody claims is kept |
| `FileNames.SyncKeepsExactly` | internal/access/store.go:661-717 | a row that is no auth file is kept exactly unless it has no address, is named provider:account, and the account is a name of a stored or listed auth file |
| `FileNames.UpsertKeepsExactly` | internal/access/store.go:617-655 | an upsert alone keeps it exactly unless the account is a name of an entry with an identifier |
| `FileNames.FileInstanceGoes` | internal/access/store.go:695-701 | after a synchronisation no address-less instance of an account that is a listed entry's file name is left |
| `Columns.AuthFileRow` | internal/access/store.go:617-655 | the last entry of an identifier gives the row its columns: provider before kind, id before index before name; unlisted files stay in an upsert and go in a synchronisation |
| `Columns.StoredItem` | internal/access/store.go:859-881 | one row is written, each column from its own field, trimmed, the provider normalised; no other row changes |
| `Store.Store.AuthFileByCandidate` | internal/access/store.go:843-857 | finds a best-ranked auth file (identifier, auth ID, index, name) exactly when some auth file matches |
| `Store.Store.UpsertProviderCandidates` | internal/access/store.go:777-841 | learns the candidates one after the other, whichever best match the query returns for each |
| `Store.Store.LearnCandidate` | internal/access/store.go:778-839 | an auth file's candidate updates its provider only; any other writes its own instance row, keeping what an existing row knows |
| `Columns.BestMatchExactly` | internal/access/store.go:843-857 | a row matching by its identifier is preferred to one matching by account, that to index, and that to name |
| `Columns.LearnedRow` | internal/access/store.go:804-838 | the row provider:account gets the candidate's index and address, or keeps its own where the candidate gives none, and keeps name, label and email |
| `Columns.LearnedFile` | internal/access/store.go:786-802 | for an auth file only the provider of one best match changes |
| `Naming.AttributesExact` | internal/access/store.go:1510-1520 | index and address are the first non-blank of auth_index, index and of base_url, url, endpoint |
| `Naming.UniqueInOrder` | internal/access/store.go:1531-1546 | distinct values are listed in order of first appearance |
| `Learning.LearningExact` | internal/access/store.go:777-841 | learning a list gives a key a candidate it could not use before if and only if some learned candidate of the same identifier, not an auth file, writes the first row of a provider instance the key is bound to |
| `Learning.LearningOneExact` | internal/access/store.go:778-839 | the same for one candidate and any targets |
| `Learning.AlwaysWellNamed` | internal/access/store.go:617-857 | in every run from an empty table with colon-free provider names, provider instances are named provider:authID |
| `Learning.LearningExactInHistory` | internal/access/store.go:617-857 | so the exact change holds at every learning step of every such run |
| `Learning.LearningIsNeutral` | internal/access/store.go:777-841 | learning changes the permission of no key for any candidate whose identifier has one provider |
| `Learning.LearnedProviders` | internal/access/store.go:786-838 | learning sets the provider of one row; scopes that reach the row get it in place of the row's old one, and no scope changes otherwise |
| `Learning.SharedIdentifierWidens` | internal/access/store.go:777-841 | with one binding and an empty inventory, learning one provider's candidate allows another provider's of the same identifier |
| `Learning.StaleWriteShadows` | internal/access/store.go:804-838 | an instance row made from an earlier read decides its own key and no other: it is a second listing exactly if it has no address and its account is an auth file by now, so the effect of several overlapping steps is that of each key's last write |
| `Learning.StaleWriteExact` | internal/access/store.go:804-838 | so written to a table without second listings it leaves one exactly if it is one |
| `Learning.LearningDuringSync` | internal/access/store.go:661-717 | a learning step that read before the upserts of a synchronisation leaves no second listing if it writes before the last deletion of shadows, exactly that one if it writes after it, and the next synchronisation removes it |
| `Learning.LearningAfterUpserts` | internal/access/store.go:682-717 | a step that finds no auth file after the upserts leaves no second listing, however late it writes |
| `Learning.AuthFileLearnedDuringSync` | internal/access/store.go:786-802 | if the step had found an auth file, it leaves no second listing; written before the unlisted files go, the stored auth files are the listed ones; after that, exactly if that file is still listed |
| `Learning.OverlapListsTwice` | internal/access/store.go:661-717 | a new auth file picked as a candidate while it is being synchronised ends up listed twice |
| `Learning.OverlapRestores` | internal/access/store.go:661-717 | a deleted one picked during the synchronisation stays stored |
| `Store.Store.MigrateAuthFileReferences` | internal/access/store.go:719-756 | the nested loops leave exactly the image of both tables under the renaming |
| `Store.Store.MigrateEntry` | internal/access/store.go:726-735 | one entry moves the references to each of its aliases, or nothing if it has no identifier or provider |
| `Migration.MoveOne` | internal/access/store.go:735-753 | copying the references to one alias and then dropping them extends the renaming by that alias, also where two targets coincide |
| `Migration.MoveEntry` | internal/access/store.go:726-753 | after one more entry, the table is the image under the longer list, the first claiming entry deciding |
| `Migration.MigrationIsIdempotent` | internal/access/store.go:719-756 | migrating twice is migrating once |
| `Migration.MigrationKeepsOwners` | internal/access/store.go:719-756 | no key is unbound, no group emptied, and nobody gains a first row |
| `Migration.NoClaimedReferenceLeft` | internal/access/store.go:719-756 | no reference that an entry claims remains a provider instance, and the others are as before |
| `StoreRows.UniqueNonEmpty` | internal/access/store.go:1531-1546 | the trimmed non-empty values, each once, in order of first appearance |
| `Tables.Unique` | internal/plugin/price_sync.go:165-180 | a value is in the result exactly when it occurs, up to white space, and is not blank; none is there twice |
| `Store.Store.PriceRule` | internal/access/store.go:972-1011 | the provider's own rule, else its official provider's |
| `Store.Store.UpsertPriceRules` | internal/access/store.go:906-951 | rules are applied in order, later ones replacing earlier ones |
| `Store.Store.ReplacePriceRules` | internal/access/store.go:919-951 | the table is that of the rules alone |
| `Catalogue.LookupExactly` | internal/access/store.go:972-1011 | a provider's own rule decides; without one that of openai for codex, anthropic for claude, vertex for vertex_ai; else none |
| `Catalogue.LastRuleDecides` | internal/access/store.go:935-951 | whatever the table held, the last rule for a pair sets its price |
| `Catalogue.OtherPricesStay` | internal/access/store.go:935-951 | pairs no rule is for keep theirs |
| `Catalogue.OffersExactly` | internal/plugin/price_sync.go:93-163 | which pairs an entry offers, read off its text: skipped entries, the provider named or before the first slash, the official provider of each name, the model and what follows its first slash |
| `Catalogue.ImportedExactly` | internal/plugin/price_sync.go:90-121 | after an import a pair has a price exactly if some entry offers it |
| `Catalogue.ImportedCost` | internal/plugin/price_sync.go:103-118 | a request for an offered pair then costs its tokens at the costs per token of the first entry that offers the pair |
| `Pricing.AdmissionAgreesWithRouting` | internal/access/store.go:467-485 | a limited, bound key passes the price check exactly when unrestricted routing has somewhere to go |
| `PriceImporter.LiteLLMPriceRules` | internal/plugin/price_sync.go:90-121 | the loops emit each offered pair once at the price of its first offer in some iteration order, and the pairs are those of the whole source |
| `PriceImporter.AddPairs` | internal/plugin/price_sync.go:103-118 | the inner loops add one rule for every pair not yet emitted and remember it |
| `PriceImport.PairsDoNotDependOnOrder` | internal/plugin/price_sync.go:90-121 | every iteration order emits the same pairs, none of them twice |
| `PriceImport.ImportIsExact` | internal/access/store.go:919-951 | after the replacement the table has one row per rule, holding the first offer of every pair |
| `PriceImport.ImportOrderExact` | internal/plugin/price_sync.go:90-121 | the imported prices are the same for every order if and only if no two entries offer a pair at different prices |
| `PriceImport.ConflictingSource` | internal/plugin/price_sync.go:90-163 | a model listed with and without its provider's prefix at two prices makes them differ |
| `PriceImport.OffersAreCanonical` | internal/plugin/price_sync.go:130-163 | every offered pair names an official provider and a trimmed, non-empty model |
| `PriceImport.HostNamesArePricedOfficially` | internal/access/store.go:1000-1011 | after an import codex, claude and vertex_ai cost what their official providers cost |
| `LikePattern.EscapedSubstring` | internal/access/store.go:1167-1169 | the escaped pattern between percent signs matches exactly the texts that contain the escaped text |
| `LikePattern.ResourceFilterExact` | internal/access/store.go:1087-1089 | the filter keeps exactly the rows whose resource contains the wanted text, ignoring case |
| `Shell.QuoteReadsBack` | internal/plugin/cpa_update.go:200-202 | a quoted value is one word, the value itself |
| `Shell.PrintReadsBack` | internal/plugin/cpa_update.go:96-122 | tokenising any printed list of words, quoted values and operators gives the list back |
| `Shell.LauncherReadsBack` | internal/plugin/cpa_update.go:187-198 | the launcher runs one shell on the command, unchanged, and logs to the given path |
| `Shell.UpdaterReadsBack` | internal/plugin/cpa_update.go:96-122 | the updater command is exactly the intended argument list, its last word the inner script |
| `Shell.ScriptReadsBack` | internal/plugin/cpa_update.go:105-111 | the script names service and log path unchanged |
| `Shell.NestedQuotingReadsBack` | internal/plugin/cpa_update.go:96-202 | through all three levels of quoting, every value arrives unchanged |

## Left out

- SQLite, its driver errors, and transactions: tables are maps, sets and sequences with the schema's keys, cascades and
  uniqueness, and every operation is one step, apart from the three quota queries of an admission and the learning
  steps that `Learning` overlaps with a synchronisation.
- JSON snapshots, `updated_at`, `last_used_at`, key prefixes and plain tokens: no modelled decision reads them.
- SHA-256 and `normalizeBaseURL` (which relies on net/url): function-valued parameters, about which nothing is assumed;
  generated identifiers are parameters.
- Letter case and white space beyond ASCII.
- Rounding of floating point: money is `real`.
- Zone offsets in `parseTime`, and years outside 0 to 9999: stored texts are UTC. Routed calls must fall after Go's zero
  time and an hour before the end of the year 9999; quota checks at least a week after the zero time.
- Clock readings and environment variables: parameters; the zero time stands for the clock, as in the source.
- `sort.SliceStable` and `sort.Strings`: insertion sorts, proved sorted and stable.
- `CreateKey` takes the digest as part of the key, which the source computes from a given or generated token;
  `RotateKey` and the enabled, name and limit patches of `UpdateKey` only overwrite fields.
- `path.Clean`, `path.Dir` and `hostPathForDockerComposeDir`: the directories of the updater command are parameters.
- The shell grammar beyond what these commands use: an expansion, an escape or a pattern makes the tokeniser give up.
- Usage listing, summaries and totals, except the resource filter: queries without invariants of their own.
  `UsageSummary` falls back to cached tokens where billing counts none, so no agreement between the two is claimed.
- Writes of arbitrary inventory items through the management interface: they keep rows in normal form, but
  `NeverShadowed` is about the other three operations only.
- Fetching prices and provider inventories, running commands, HTTP handlers, the cgo bridge and the user interface.
- NeverShadowed: covers the tables after whole operations; for one learning step inside a synchronisation see
  `LearningDuringSync`.
- LearningDuringSync: overlapping steps that read before or after the upserts and write before or after the last deletions;
  other interleavings of several steps are composed from `StaleWriteShadows`, not enumerated.
- BoundExactInOrder: only for the smallest limit; in runs in order the bound of a larger one may hold because it cannot be
  reached.
- RotationsExact: for keys and models without a NUL character, as is OthersChangeNoAnswer; AuthCursorExact covers picks
  with any model.
- OthersChangeNoAnswer: for calls without a session; calls of other rotations can change a session's row, and
  `Stickiness` says when that decides an answer.
- ImportedCost: for recorded counts of which none is floored; CostExactly gives the others.
