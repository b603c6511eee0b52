# Household utility-cost dashboard: state core and request validation

This project models, in Dafny, the parts of the dashboard's client code that
hold logic rather than page effects.

From `app3.js`:

- **Event bus.** A map from event name to an insertion-ordered set of
  handlers. `on` returns an unsubscribe closure, and `off` and `emit` work on
  the same sets.
- **Store.** The single shared state record, with `patch`, `setGoal`,
  `clearGoal` and `addRecentKeyword`. Each of them announces a change on the
  bus as `"state:changed"`. The savings goal is mirrored into browser
  storage under `"saving-goal-won"`.
- **Feature registry.** `register`, the `init` pass that mounts the features
  that apply to the page, and the teardown that unmounts them on
  `beforeunload`.
- **Widget arithmetic.** The month-over-month percentage and its arrow, the
  relative bars, the category shares, the savings progress and the
  navigation-dot index.
- **Alert helpers.** `escapeHtml` and the badge class of an alert level.

From `api.js`, the checks made before any request is sent:

- `assertPeriod`, the `^\d{4}-\d{2}$` check that throws status 400;
- `qs`, the query-string builder;
- the guard order of `saveGoal`;
- the validate-then-request order of `fetchDonut`, `fetchMonthlyBars` and
  `fetchGoal`.

The stateful parts are classes, because the source mutates them in place:

- `EventBus.Bus` holds `handlers: map<string, seq<HandlerId>>`.
- `StateStore.Store` holds `state`, `storage` and `emissions`.
- `Features.FeatureManager` holds `features` and `mounted`. `mounted` is the
  set of descriptor objects whose `_mounted` property is set. The flag
  belongs to the object, so an object registered twice shares one flag.

Each method states the whole new state in terms of the old one, and the
properties live in lemmas about the specification functions. A handler is
an identity (`HandlerId`). `emit` returns the calls it makes, in order.
Every store emit is recorded as an `Emission`, which holds:

- the event name;
- the state passed as payload;
- the handlers called.

Features are values that give the outcome of each hook:

- `when` is absent, truthy, falsy or throwing;
- `mount` and `unmount` are each absent, returning or throwing.

`init` and teardown return the trace of calls they make. The API functions
are pure. Each returns either the request it would issue (`Get`/`Post` with
its URL) or the `ClientError` it would fail with. Percent-encoding is a
parameter `encode`.

In these places the code does something other than one might expect, and
the model follows the code:

- **No month check.** A period of `"2025-13"` passes `assertPeriod`,
  because the regular expression checks the form only. So `saveGoal` accepts
  it and issues the request (`Api.SaveGoalExamples`). One might expect an
  impossible month to be rejected before any request.
- **Exceptions in `emit`.** `emit` has no try/catch, so a throwing handler
  would stop the sweep and propagate into the caller. The model has no
  throwing handlers (see Left out). It does not add an isolation of handler
  errors that the code lacks.
- **Mount flags are never cleared.** Teardown leaves every `_mounted` flag
  set, though one might expect teardown to clear them. `FeatureManager.Teardown` changes nothing.
- **`when` is always called.** `init` calls `when` even when the page does
  not match, because both tests are computed before either is used. The
  trace records this (`Features.WhenAskedIff`).
- **Recent-keyword bound.** `addRecentKeyword` drops at most one entry. So
  the bound of six holds only while the list starts within it. `patch` can
  install a longer list, and the bound is then not restored. The invariant
  is stated as preservation (`StateStore.WithRecentInvariant`,
  `StateStore.AllRecentInvariant`).

## Model

| member | source | states |
|---|---|---|
| JsMath.Round | app3.js:37 | `Math.round`: the result is within one half of the argument, and halves go up |
| JsMath.Percent | app3.js:130 | `Math.round(a / b * 100)` is the nearest whole percentage of `a` in `b` |
| JsMath.PercentOfWhole | app3.js:139 | a total measured against itself is 100 percent |
| JsMath.PercentBounds | app3.js:145 | a part between 0 and a positive whole is 0..100 percent of it |
| Decimal.Show | app3.js:37 | `String(goal)` is a non-empty digit string with no leading zero |
| Decimal.Read | app3.js:31 | `Number` of a digit string: the empty string reads as 0, and `k` digits read as a number below 10 to the power `k` |
| Decimal.ReadLeadingZero | app3.js:31 | leading zeros do not change the number read |
| Decimal.ReadShow | app3.js:31-37 | `Number` of what `String` wrote gives the same goal back |
| EventBus.Added | app3.js:19 | `Set.add`: the handler is present afterwards, no other handler is added, no duplicate appears, and earlier handlers keep their positions |
| EventBus.Removed | app3.js:20 | `Set.delete`: the handler is absent afterwards, every other handler stays, and no duplicate appears |
| EventBus.AddedTwice | app3.js:19 | registering the same handler twice keeps one entry |
| EventBus.RemovedAbsent | app3.js:20 | removing a handler that is not registered is a no-op |
| EventBus.RemovedTwice | app3.js:19-20 | calling the unsubscribe closure a second time is a no-op |
| EventBus.RemovedAppend | app3.js:20 | removal distributes over concatenation, so the order of the remaining handlers is kept |
| EventBus.RemovedAt | app3.js:20 | removal takes out exactly that handler and keeps the others in order |
| EventBus.SubscribeThenUnsubscribe | app3.js:19-20 | `on` then its unsubscribe restores the handler set of that event |
| EventBus.Bus.Listeners | app3.js:21 | an unknown event has no handlers, and the handlers of any event are duplicate-free |
| EventBus.Bus.constructor | app3.js:17 | the bus starts with no events |
| EventBus.Bus.On | app3.js:19 | only the entry of that event changes, by `Added`, and the result is the unsubscribe token for this event and handler |
| EventBus.Bus.Off | app3.js:20 | only the entry of that event changes, by `Removed`; an unknown event changes nothing |
| EventBus.Bus.Unsubscribe | app3.js:19 | the returned closure is `off` for the captured event and handler |
| EventBus.Bus.Emit | app3.js:21 | calls exactly the handlers of that event, in registration order, each exactly once |
| StateStore.Merge | app3.js:36 | `Object.assign`: each field the partial supplies replaces the old value whole, and every other field keeps its old value |
| StateStore.MergeNothing | app3.js:36 | patching with an empty partial leaves the state unchanged |
| StateStore.MergeTwice | app3.js:36 | patching twice with the same fields equals patching once |
| StateStore.Latest | app3.js:36 | the last supplied write of a field is the one kept; it is absent only when no write supplies the field |
| StateStore.PatchedIsLastWrite | app3.js:36 | any run of patches equals one patch that holds the last value written to each field (last write wins per field) |
| StateStore.PageOf | app3.js:28 | the page is the `data-page` attribute, or "home" when it is absent or empty |
| StateStore.StoredGoal | app3.js:31 | with no stored entry, the initial goal is 0 |
| StateStore.GoalFrom | app3.js:37 | the stored goal is 0 exactly for a non-number or an argument below 0.5; otherwise it is the argument rounded to nearest |
| StateStore.GoalSurvivesReload | app3.js:31-37 | the value `setGoal` persists is the goal the next page load restores |
| StateStore.GoalExamples | app3.js:37 | `setGoal(-5)` stores 0, `setGoal(1000.6)` stores 1001, and a non-number stores 0 |
| StateStore.WithRecent | app3.js:39-43 | an empty or known keyword leaves the list unchanged; a new one becomes element 0, followed by the old entries, and when the list would exceed six the last entry is dropped |
| StateStore.WithRecentChanges | app3.js:42 | the list changes exactly when the keyword is non-empty and new |
| StateStore.WithRecentInvariant | app3.js:39-43 | adding a keyword keeps the list at most six long and duplicate-free; adding the same keyword again changes nothing |
| StateStore.AllRecentInvariant | app3.js:39-43 | after any number of searches the list is still at most six long and duplicate-free |
| StateStore.Store.constructor | app3.js:27-33 | initial state: page from the attribute, zero totals and breakdown, goal restored from storage, no recent keywords, nothing emitted |
| StateStore.Store.Announce | app3.js:36 | one emit of "state:changed" with the current state, reaching the handlers subscribed now |
| StateStore.Store.Patch | app3.js:36 | the state is the shallow merge, storage is unchanged, and there is exactly one emit even for an empty partial |
| StateStore.Store.SetGoal | app3.js:37 | only the goal changes, to a value that is never negative; it is written to the persisted key; exactly one emit |
| StateStore.Store.ClearGoal | app3.js:38 | the goal is 0, the persisted key is removed, exactly one emit |
| StateStore.Store.AddRecentKeyword | app3.js:39-43 | only the recent list changes; it emits once when the list changed and not at all otherwise |
| Features.PageMatches | app3.js:57 | a descriptor without `pages` matches every page, one with an empty list matches none, and a listed page matches |
| Features.WillMount | app3.js:57-59 | the mount rule needs the page filter to pass; a falsy or throwing `when` prevents mounting, and a missing `when` never does |
| Features.InitSteps | app3.js:57-63 | every call `init` makes for a descriptor belongs to that descriptor |
| Features.InitTrace | app3.js:55-64 | every call in the `init` trace belongs to a registered descriptor |
| Features.InitTraceOrdered | app3.js:55 | descriptors are visited in registration order |
| Features.MountCalledIff | app3.js:57-61 | a descriptor's `mount` is called iff its page filter and `when` pass and it has a `mount`, whatever the other descriptors do |
| Features.WhenAskedIff | app3.js:58 | `when` is called for exactly the descriptors that have one, whether or not their page filter passes |
| Features.ErrorLoggedIff | app3.js:57-63 | an error is caught and logged for a descriptor iff its `when` throws, or its `mount` runs and throws |
| Features.MountRuleCases | app3.js:57-59 | with no pages and no `when` a descriptor always mounts; a falsy or throwing `when` never mounts |
| Features.FeatureManager.constructor | app3.js:49 | the registry starts empty |
| Features.FeatureManager.Register | app3.js:51 | the descriptor is appended and no `_mounted` flag changes; an object registered again keeps the flag it has |
| Features.FeatureManager.MountOne | app3.js:56-63 | for one descriptor: its object becomes flagged when the mount rule holds, set before `mount` runs, and otherwise its flag is left as it was; no other flag changes; the calls made are that descriptor's steps |
| Features.FeatureManager.Init | app3.js:52-64 | the flagged objects become the old ones plus those of every descriptor satisfying the mount rule, even when its `mount` then throws; the calls made are the registration-order trace |
| Features.FeatureManager.Teardown | app3.js:66-68 | `unmount` is called for exactly the entries whose object is flagged and that have one, including those whose `mount` threw and every entry of an object registered twice, in registration order |
| Render.DiffPct | app3.js:130 | 0 when last month is 0 or the totals are equal; otherwise the change relative to last month as the nearest whole percentage, so with a positive last month a positive value means a higher total and a negative one a lower total |
| Render.TrendOf | app3.js:130-135 | higher, lower or same by the sign of the percentage, carrying its absolute value |
| Render.Arrow | app3.js:131 | ▲ exactly for a rise, ▼ exactly for a fall, otherwise • |
| Render.SummaryExample | app3.js:130 | 32600 against 37000 is 12 percent lower |
| Render.BarScale | app3.js:137 | the bar scale is the larger of the two totals, or 1 when that larger total is 0; it is never zero |
| Render.BarWidths | app3.js:138-139 | each bar width is its total as the nearest whole percentage of the bar scale |
| Render.BarWidthsBounded | app3.js:137-139 | with non-negative totals both bars are 0..100 wide and the larger total fills its bar |
| Render.SharePct | app3.js:142-145 | a category's share is its nearest whole percentage of this month's total; a zero total is replaced by 1 |
| Render.SharePctBounds | app3.js:142-145 | a category within a positive total has a 0..100 share, and the whole total has 100 |
| Render.ShareExample | app3.js:145 | electricity 13830 of 21650 is a 64 percent share |
| Render.Saved | app3.js:164 | the saving is `max(last - now, 0)`: never negative, and either 0 or the difference |
| Render.GoalPct | app3.js:169-172 | 0 when no goal is set; otherwise the saving as the nearest whole percentage of the goal, capped at 100 (100 only when that percentage rounds to at least 100) |
| Render.GoalPctBounds | app3.js:169-170 | for a non-negative saving progress is 0..100, and 100 once the goal is reached |
| Render.Remaining | app3.js:171 | what remains is `max(goal - saved, 0)` |
| Render.GoalReached | app3.js:174 | the success marker shows only when a goal is set and nothing of it remains |
| Render.GoalProgressAgrees | app3.js:170-174 | the success marker shows exactly when nothing remains, and then progress is 100 |
| Render.GoalExample | app3.js:164-174 | saving 4400 against a 10000 goal is 44 percent, not reached, 5600 remaining |
| Render.NavIndexAsWritten | app3.js:89-90 | `map[page] ?? 0` gives a non-number exactly for inherited names the table lacks |
| Render.ActiveDots | app3.js:91 | only dots below the count are active; a non-number activates none, and a valid dot number activates exactly that dot |
| Render.NavInheritedPageHighlightsNothing | app3.js:89-91 | as written, the page "constructor" highlights no dot |
| Render.NavIndex | app3.js:89-90 | the listed page's dot, otherwise the first dot |
| Render.NavHighlightsOneDot | app3.js:89-91 | exactly one dot is highlighted, and this matches the code for every non-inherited page name |
| JsLookup.LookupAsWritten | app3.js:368 | `table[key]` finds own keys, and also inherited `Object.prototype` members |
| JsLookup.LookupOwn | app3.js:368 | own-key lookup finds exactly the table's keys and their values |
| JsLookup.LookupsAgree | app3.js:368 | the two lookups differ only on inherited names |
| Alerts.EscapeChar | app3.js:387-389 | other characters are unchanged; the five special ones become an entity from `&` to `;` |
| Alerts.EscapeHtml | app3.js:386-390 | the output contains no raw `<`, `>`, `"` or `'` |
| Alerts.EscapeHtmlConcat | app3.js:386-390 | escaping distributes over concatenation |
| Alerts.EscapeHtmlPlain | app3.js:386-390 | text without the five special characters is left unchanged |
| Alerts.EscapeHtmlNotIdempotent | app3.js:386-390 | escaping twice escapes `&` again |
| Alerts.UnescapeEscapeHtml | app3.js:386-390 | decoding the entities gives back the original text, so a title is shown verbatim |
| Alerts.LevelKey | app3.js:368 | the property key read is the level itself, or "undefined" for a missing level |
| Alerts.BadgeClassAsWritten | app3.js:363-368 | `levelToClass[level] \|\| 'info'` yields an inherited member exactly for inherited names |
| Alerts.BadgeOfInheritedLevel | app3.js:368 | as written, level "constructor" gets no class name |
| Alerts.BadgeClass | app3.js:363-368 | the class is "warn" iff the level is WARN or CRIT, and "info" otherwise, including a missing level |
| Alerts.BadgeClassAgrees | app3.js:363-368 | for every level that is not an inherited name, the code as written gives `BadgeClass` |
| Api.FullMatchPositions | api.js:15 | an anchored fixed-length match is a character-by-character match of equal length |
| Api.IsPeriod | api.js:15 | four ASCII digits, `-`, two ASCII digits, nothing else; exactly the strings the anchored pattern accepts |
| Api.AssertPeriod | api.js:14-20 | passes iff the string is four ASCII digits, `-` and two ASCII digits with nothing after; otherwise throws status 400 |
| Api.AssertPeriodAccepts | api.js:15 | "2025-08", "2025-13" and "0000-00" pass: the check is on form only |
| Api.AssertPeriodRejects | api.js:15 | a trailing newline, "2025-8", "2025/08" and "" fail |
| Api.Defined | api.js:25 | exactly the entries whose value is not `undefined` are kept |
| Api.DefinedAppend | api.js:25 | filtering commutes with concatenation, so kept entries stay in their original order |
| Api.Serialize | api.js:26 | the serialization is empty exactly when no pair is left |
| Api.Qs | api.js:23-27 | "" iff no entry is kept; otherwise "?" followed by the serialized pairs |
| Api.PeriodQuery | api.js:23-27 | a period parameter serializes to one `periodYm=` pair |
| Api.FetchByPeriod | api.js:30-31 | an invalid period fails with status 400 and issues no request; a valid one issues the GET of the path with `?periodYm=` and the encoded period |
| Api.FetchDonut | api.js:63-66 | an invalid period throws status 400 and issues no request; a valid one issues the GET of `/api/donut` with the period |
| Api.FetchMonthlyBars | api.js:73-76 | the same for `/api/monthly-bars` |
| Api.FetchGoal | api.js:100-103 | the same for `/api/goals` |
| Api.SaveGoal | api.js:85-93 | the POST is issued iff the period is valid and the goal is not below 0; a bad period is reported before a negative goal; both errors have status 400 |
| Api.SaveGoalExamples | api.js:85-92 | a goal of 0 is accepted, because the test is a strict `<` |

## Left out

- DOM and browser effects are not modelled. This covers element queries, text, style and `innerHTML` writes, event listeners, the clipboard, `alert`, the drawer helper and the result templates of the search page. They are page effects with no logic of their own.
- Timers are not modelled: the clock tick and the toasts. Neither is the registration of the `beforeunload` listener itself. Teardown is an explicit method, `FeatureManager.Teardown`.
- Each `init` call registers another teardown listener. The model does not capture that repeated `init` calls lead to repeated teardowns.
- The `won` currency formatter wraps `Intl.NumberFormat`, a library outside this code.
- The asynchronous data-loader mount is not modelled. It is fire-and-forget, and `init` does not await it.
- A handler that throws inside `emit` is not modelled. Nor is a handler that changes the handler set while `emit` runs, or that calls the store again. Handlers are identities, and `emit` is their call sequence.
- The `emit` payload is recorded only for store emits, in `Emission`. The bus itself does not carry payloads.
- `Store.get` is not a separate member, because it returns the live state object. The model reads the `state` field directly, and aliasing through that reference is not modelled.
- `register` returns the registry for chaining; this is not modelled.
- Features.FeatureManager.constructor: no descriptor object starts flagged. An object whose `_mounted` property was set by other code before it was registered is not modelled.
- Features.FeatureManager.Register: the descriptor's fields are values, so an object whose hooks are changed between two registrations is not modelled. `Register` asks that a second registration of an object carry the same fields.
- `patch` takes one typed field per state key. Keys outside the five state fields are not modelled. Neither is a field explicitly set to `undefined`, nor a nested record given only in part.
- StateStore.StoredGoal: a stored goal is read only in the form `setGoal` writes it, decimal digits. Any other stored text reads as 0. In JavaScript such text may give NaN, which every widget treats like 0. It may also give a number written with a sign, fraction or exponent.
- Numbers are exact. Totals are integers, and `+v` is a real, or `None` for NaN. Floating-point rounding, infinities and the exponent form of `String` for very large goals are not modelled.
- `qs` takes its percent-encoding as the parameter `encode`, since `URLSearchParams` is a library outside this code. `qs` takes values that are already strings.
- Api.FetchByPeriod: the request functions are `async`, so their status-400 error is a rejected promise rather than a synchronous throw; the model does not tell the two apart. `periodYm` is a string in the model, while `RegExp.test` would first turn any other value into a string.
- Sending requests, reading responses, the event-stream subscription and `createBillAlert` are network I/O. The model stops at the request each function would issue.
- The alert wiring at the end of `app3.js` is not modelled, beyond `escapeHtml` and the badge class. This covers the unread badge, the stream subscription and the row template. That part calls a client function `api.js` does not export, and passes callbacks `subscribeAlerts` does not read.
- `env.js` is not part of this model. It is configuration read from the URL and browser storage.

## Findings

| source | as written | input that shows it | evidently intended | confidence | as-written member | corrected member |
|---|---|---|---|---|---|---|
| app3.js:363-368 | `levelToClass[a.level] \|\| 'info'` also finds the members every object inherits from `Object.prototype` | an alert whose level is "constructor" gets a function, not a class name | an unknown level gets "info" | not executed; follows from how JavaScript property lookup works | Alerts.BadgeOfInheritedLevel | Alerts.BadgeClass |
| app3.js:89-91 | `map[page] ?? 0` also finds inherited members, so `idx` is not a number | the page "constructor" highlights no navigation dot | an unknown page highlights the first dot | not executed; follows from how JavaScript property lookup works | Render.NavInheritedPageHighlightsNothing | Render.NavHighlightsOneDot |
