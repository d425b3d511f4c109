# Cookie-consent tracker and site analytics behaviours, modelled in Dafny

This project models the client side of a Drupal cookie-consent banner, together with the small front-end behaviours the same site bundles with it.

## What is modelled

### The consent tracker (`consent.dfy`, `tracker.dfy`, `tracker_props.dfy`, `observer.dfy`, `glob.dfy`)

The tracker caches the visitor's consent status and the categories they accepted. Status is `null`, 0 (declined), 1 (agreed, thank-you banner pending) or 2 (agreed).

- **Storage.** Status, categories and the policy version live in three cookies. Their names, path trimming, domain and expiry follow the page settings.
- **Hooks.** Other scripts queue `(eventName, handler)` pairs. Each of `getCurrentStatus`, `getAcceptedCategories`, `setStatus` and `setAcceptedCategories` fires a pre-event and a post-event. On each event the observer object subscribes, fires and unsubscribes every matching handler in queue order.
- **Banner actions.** These are accept, accept-all, save preferences, decline, withdraw and more-info. They go through `changeStatus`, `setStatus` and `setAcceptedCategories`, and load category scripts through `loadCategoryScripts`.
- **Page load.** `execute` decides which popup or banner opens. The popup behaviour's `attach` reads the state and consults the EU check. The document-ready handler loads the blocked scripts.
- **Cookie sweep.** The blocking behaviour starts `BlockCookies`. It removes every cookie the allow-list does not admit, walking the hostname's parent domains. When no removal is confirmed, it falls back to an expiry write.

How this is modelled:

- `ConsentTracker` is a class whose fields are the tracker's variables. A `State` datatype is the abstract value of those fields.
- Every method promises `Abs() == XSpec(old(Abs()))` for a specification function `XSpec`. Lemmas about those functions state what the source promises:
  - status and categories read back what was written;
  - the version is recorded;
  - each action reaches the status it is meant to;
  - execute on a first visit opens the popup;
  - attach outside the EU stores status 2;
  - the sweep removes exactly the disallowed cookies whose removal was confirmed, and a second sweep changes no cookie.
- Visible side effects the tracker does not keep in its own variables are recorded in a `trace` of `Effect`s. These are hook calls, the `changeStatus` DOM events, the consent POST, reloads, script loads, popups and banners, and removal attempts.

### Supporting values (`common.dfy`, `decimal.dfy`, `json.dfy`)

- JavaScript's `parseInt`, `String(n)`, `indexOf`, `trim`, `toLowerCase` and `replace` on strings.
- `JSON.stringify` and `JSON.parse`, for the two shapes stored in cookies: an array of strings, and a flat object of integers. Round trips are proved for both.

### Sub-navigation states (`subnav.dfy`)

`getStates` and `setStates` keep the `{show_menu, user_closed}` record in a seven-day cookie. `setStates` fills a missing key in place with 0.

### DFP adverts and the university select (`advert.dfy`)

- Slot definition, with its targeting keys, defines a slot once and refreshes it afterwards.
- The full-page mobile close button and its time-limited suppression, kept through the sub-navigation states.
- Per-device exclusion.
- The "Best Universities" select redirect.

### CTools modal and theme helpers (`modal.dfy`)

- `findURL`.
- The tabbable-element filter for radio groups, and the Tab-key focus trap.
- The modal's animation and speed defaults.
- `limitList` with its "More" button.
- The progress bar's `setProgress`.

### Registration and login analytics (`registration.dfy`)

- The shared parameters object, one per event group. Every handler of a group writes into it before emitting.
- The `once('mze')` binding: each matched element gets one handler, and content loaded later is bound when it is attached.
- The Escape-key abandonment events, and the step-name-to-title table.

### Site analytics behaviours (`theme.dfy`)

- Page metadata from `<meta property="mz:...">` tags, overridden by the page variables.
- The B2B lead form guard.
- The rankings "read more" toggle.
- The add-to-list and save-list modal events.
- The nag footer's gate and its scroll position.

### Where the code and its documentation differ

The model follows the code, except where a Findings row below corrects it; every member that uses a corrected reading, directly or through a member it calls, is listed under "## Left out".

- **Categories cookie name.** The page global decides whether the default is used, but the custom name comes from the settings' `cookie_name`. With a global set and no settings name, the cookie is `"undefined-categories"`.
- **Sweep idempotence.** The sweep is idempotent on cookies (`TrackerProperties.SweepJarIdempotent`). It is not idempotent on effects: a cookie whose removal is never confirmed gets another expiry write on every sweep.
- **Stopping the sweep timer.** Only `acceptAction` clears the timer. Save-preferences, the EU auto-agree and decline leave a running sweep running (`TrackerProperties.SavePreferencesOutcome`, `TrackerProperties.DeclineOutcome`).

## Model

| member | source | states |
|---|---|---|
| Tracker.HooksMeaning | js/js_mP9bhHhQ8BXZzGrbTLCXVOYA_982U_c-j2-ynPHqJo4.js:993-1005 | the i-th hook call of an event is the i-th handler registered for it, called with the status and categories current at that moment |
| Tracker.HooksAppend | js/js_mP9bhHhQ8BXZzGrbTLCXVOYA_982U_c-j2-ynPHqJo4.js:993-1005 | running two lists of handlers in turn records exactly the calls of the first list followed by those of the second |
| Tracker.CheckAll | js/js_mP9bhHhQ8BXZzGrbTLCXVOYA_982U_c-j2-ynPHqJo4.js:534-538 | setPreferenceCheckboxes checks every box whose value is listed, unchecks none, and keeps every box's value |
| Tracker.ConsentTracker.constructor | js/js_mP9bhHhQ8BXZzGrbTLCXVOYA_982U_c-j2-ynPHqJo4.js:61-62 | a new tracker has a null status, no categories, an empty queue, no effects, no sweep and nothing loaded or attached |
| Tracker.ConsentTracker.Register | js/js_mP9bhHhQ8BXZzGrbTLCXVOYA_982U_c-j2-ynPHqJo4.js:52-54 | calling the namespace function appends its argument list to the queue and changes nothing else |
| Tracker.ConsentTracker.UpdateCurrentStatus | js/js_mP9bhHhQ8BXZzGrbTLCXVOYA_982U_c-j2-ynPHqJo4.js:66-68 | only the cached status changes, to the given value |
| Tracker.ConsentTracker.UpdateSelectedCategories | js/js_mP9bhHhQ8BXZzGrbTLCXVOYA_982U_c-j2-ynPHqJo4.js:63-65 | only the cached categories change, to the given list |
| Tracker.ConsentTracker.HandleEvent | js/js_mP9bhHhQ8BXZzGrbTLCXVOYA_982U_c-j2-ynPHqJo4.js:993-1005 | the loop runs each handler registered for the event once, in queue order, through a fresh observer; only the effects grow, by one hook call per handler |
| Tracker.ConsentTracker.RunHandler | js/js_mP9bhHhQ8BXZzGrbTLCXVOYA_982U_c-j2-ynPHqJo4.js:996-1003 | subscribe, fire and unsubscribe for one handler: the observer is left empty and exactly one hook call is recorded |
| Tracker.ConsentTracker.GetCurrentStatus | js/js_mP9bhHhQ8BXZzGrbTLCXVOYA_982U_c-j2-ynPHqJo4.js:515-532 | between the two status-load events the cached status becomes parseInt of the status cookie, null for NaN or an absent cookie; that status is returned |
| Tracker.ConsentTracker.GetAcceptedCategories | js/js_mP9bhHhQ8BXZzGrbTLCXVOYA_982U_c-j2-ynPHqJo4.js:540-570 | the loop over the category details yields the stored list followed by every required category it lacks, between the two preferences-load events; that list is cached and returned |
| Tracker.ConsentTracker.SetVersion | js/js_mP9bhHhQ8BXZzGrbTLCXVOYA_982U_c-j2-ynPHqJo4.js:855-877 | the version cookie is written with the policy version, the trimmed path, the configured domain and the session or day expiry |
| Tracker.ConsentTracker.SetStatus | js/js_mP9bhHhQ8BXZzGrbTLCXVOYA_982U_c-j2-ynPHqJo4.js:654-698 | the state is SetStatusSpec of the old state; what it means is stated by the TrackerProperties lemmas on SetStatusSpec |
| Tracker.ConsentTracker.StoreStatus | js/js_mP9bhHhQ8BXZzGrbTLCXVOYA_982U_c-j2-ynPHqJo4.js:660-689 | the status cookie and then the version cookie are written, the status is cached, the change event is recorded and the consent POST is recorded exactly when it is due |
| Tracker.ConsentTracker.SetAcceptedCategories | js/js_mP9bhHhQ8BXZzGrbTLCXVOYA_982U_c-j2-ynPHqJo4.js:700-733 | between the preferences-save events the categories cookie gets the JSON text of the list and the list is cached |
| Tracker.ConsentTracker.ChangeStatus | js/js_mP9bhHhQ8BXZzGrbTLCXVOYA_982U_c-j2-ynPHqJo4.js:572-641 | nothing happens when the value equals the cached status; otherwise a reload is recorded when configured and setStatus runs |
| Tracker.ConsentTracker.LoadCategoryScripts | js/js_mP9bhHhQ8BXZzGrbTLCXVOYA_982U_c-j2-ynPHqJo4.js:461-468 | the loop calls the loader for each listed category not loaded before and marks it loaded, with categories keyed by name (see Findings) |
| Tracker.ConsentTracker.AgreeFirst | js/js_mP9bhHhQ8BXZzGrbTLCXVOYA_982U_c-j2-ynPHqJo4.js:393-398 | without the thank-you banner the status is first set to 1 |
| Tracker.ConsentTracker.ApplyCategories | js/js_mP9bhHhQ8BXZzGrbTLCXVOYA_982U_c-j2-ynPHqJo4.js:408-423 | store the chosen categories, load their scripts, then change to status 0 when none was chosen and to the next status otherwise |
| Tracker.ConsentTracker.Accept | js/js_mP9bhHhQ8BXZzGrbTLCXVOYA_982U_c-j2-ynPHqJo4.js:392-431 | acceptAction: agree first, load the scripts unless the ready handler already did, stop the sweep, then apply the checked categories under method 'categories' or change to the next status |
| Tracker.ConsentTracker.AcceptAll | js/js_mP9bhHhQ8BXZzGrbTLCXVOYA_982U_c-j2-ynPHqJo4.js:433-437 | every configured category's box is checked, then acceptAction runs |
| Tracker.ConsentTracker.SavePreferences | js/js_mP9bhHhQ8BXZzGrbTLCXVOYA_982U_c-j2-ynPHqJo4.js:439-459 | agree first, then apply the checked categories |
| Tracker.ConsentTracker.Decline | js/js_mP9bhHhQ8BXZzGrbTLCXVOYA_982U_c-j2-ynPHqJo4.js:470-471 | declineAction sets status 0 |
| Tracker.ConsentTracker.Withdraw | js/js_mP9bhHhQ8BXZzGrbTLCXVOYA_982U_c-j2-ynPHqJo4.js:487-491 | status null, categories emptied, page reload recorded |
| Tracker.ConsentTracker.MoreInfo | js/js_mP9bhHhQ8BXZzGrbTLCXVOYA_982U_c-j2-ynPHqJo4.js:493-513 | with disagree_do_not_show_popup the status becomes 0; otherwise only the policy link opens |
| Tracker.ConsentTracker.UpdateCheck | js/js_mP9bhHhQ8BXZzGrbTLCXVOYA_982U_c-j2-ynPHqJo4.js:825-848 | a legacy per-language status cookie other than "null" is copied to the status cookie and removed when removal succeeds |
| Tracker.ConsentTracker.Execute | js/js_mP9bhHhQ8BXZzGrbTLCXVOYA_982U_c-j2-ynPHqJo4.js:70-123 | nothing when the popup or cookies are disabled; otherwise the version is set if absent, then the update check, the popup step and the banner step run |
| Tracker.ConsentTracker.ShowPopup | js/js_mP9bhHhQ8BXZzGrbTLCXVOYA_982U_c-j2-ynPHqJo4.js:92-107 | the information popup opens exactly when PopupDue holds, marked closed when a status is stored and the version has not changed |
| Tracker.ConsentTracker.ShowBanners | js/js_mP9bhHhQ8BXZzGrbTLCXVOYA_982U_c-j2-ynPHqJo4.js:109-120 | the thank-you banner for status 1, the withdraw controls for status 2, each only when enabled |
| Tracker.ConsentTracker.Attach | js/js_mP9bhHhQ8BXZzGrbTLCXVOYA_982U_c-j2-ynPHqJo4.js:16-49 | once per page: read status and categories, then execute, or take the EU path; every attach re-reads the status |
| Tracker.ConsentTracker.EuCheck | js/js_mP9bhHhQ8BXZzGrbTLCXVOYA_982U_c-j2-ynPHqJo4.js:24-41 | the EU check is asked only when the banner would show; inside the EU execute runs, outside it status 2 is stored |
| Tracker.ConsentTracker.AttachBlocking | js/js_mP9bhHhQ8BXZzGrbTLCXVOYA_982U_c-j2-ynPHqJo4.js:898-919 | at most once per page, the sweep starts exactly when SweepDue holds |
| Tracker.ConsentTracker.OnReady | js/js_mP9bhHhQ8BXZzGrbTLCXVOYA_982U_c-j2-ynPHqJo4.js:882-895 | when the visitor agreed, or has no status under 'default' or 'opt_out', the scripts load and, under 'categories', each category's scripts |
| Tracker.ConsentTracker.BlockCookies | js/js_mP9bhHhQ8BXZzGrbTLCXVOYA_982U_c-j2-ynPHqJo4.js:921-956 | the loop sweeps the cookies in the order the jar lists them; the new state is SweepSpec of the old |
| Tracker.ConsentTracker.SweepCookie | js/js_mP9bhHhQ8BXZzGrbTLCXVOYA_982U_c-j2-ynPHqJo4.js:926-954 | an allowed cookie is kept; a disallowed one is removed along the domain walk, or gets an expiry write when no removal is confirmed |
| Tracker.RemoveAlongDomains | js/js_mP9bhHhQ8BXZzGrbTLCXVOYA_982U_c-j2-ynPHqJo4.js:936-947 | the while loop tries ".host" then "host" for the hostname and each parent domain, stopping at the first confirmed removal; result and attempts are RemovalConfirmed and RemovalTrace |
| Tracker.RemovalStep | js/js_mP9bhHhQ8BXZzGrbTLCXVOYA_982U_c-j2-ynPHqJo4.js:936-947 | one iteration of the walk extends the attempts exactly as RemovalTrace unfolds |
| TrackerProperties.LoadStatusAfterSetStatus | js/js_mP9bhHhQ8BXZzGrbTLCXVOYA_982U_c-j2-ynPHqJo4.js:654-698 | after setStatus(s) the status cookie, and getCurrentStatus, read back s, whenever the status and version cookies have different names |
| TrackerProperties.SetStatusRecordsVersion | js/js_mP9bhHhQ8BXZzGrbTLCXVOYA_982U_c-j2-ynPHqJo4.js:683 | after setStatus the version cookie holds the policy version, so execute sees no version change |
| TrackerProperties.LoadCategoriesAfterSetCategories | js/js_mP9bhHhQ8BXZzGrbTLCXVOYA_982U_c-j2-ynPHqJo4.js:700-733 | after setAcceptedCategories the cookie decodes to the same list, and getAcceptedCategories yields it with the required categories merged in |
| TrackerProperties.LoadCategoryScriptsShape | js/js_mP9bhHhQ8BXZzGrbTLCXVOYA_982U_c-j2-ynPHqJo4.js:461-468 | loadCategoryScripts records one loader call per new category, in order, and marks exactly the listed categories loaded when the loader exists |
| TrackerProperties.NewLoadsMeaning | js/js_mP9bhHhQ8BXZzGrbTLCXVOYA_982U_c-j2-ynPHqJo4.js:461-468 | a category's scripts load iff the loader exists, it is listed and it was not loaded before; no category loads twice (with categories keyed by name, the corrected reading of the Findings row) |
| TrackerProperties.SetStatusFrame | js/js_mP9bhHhQ8BXZzGrbTLCXVOYA_982U_c-j2-ynPHqJo4.js:654-698 | setStatus changes only the cookies, the effects and the status, and sets the sweep running on status 0 under 'opt_out'; otherwise the sweep flag is kept |
| TrackerProperties.StoreStatusFrame | js/js_mP9bhHhQ8BXZzGrbTLCXVOYA_982U_c-j2-ynPHqJo4.js:660-689 | the cookie part of setStatus writes the status cookie then the version cookie and changes nothing else but the status and the effects |
| TrackerProperties.SetCategoriesFrame | js/js_mP9bhHhQ8BXZzGrbTLCXVOYA_982U_c-j2-ynPHqJo4.js:700-733 | setAcceptedCategories writes only the categories cookie and changes only the categories and the effects |
| TrackerProperties.SetStatusWrites | js/js_mP9bhHhQ8BXZzGrbTLCXVOYA_982U_c-j2-ynPHqJo4.js:664-683 | the jar after setStatus is the old jar with the status and version cookies written |
| TrackerProperties.ExecuteFrame | js/js_mP9bhHhQ8BXZzGrbTLCXVOYA_982U_c-j2-ynPHqJo4.js:825-848 | the version initialisation and the update check at the start of execute change only the cookies |
| TrackerProperties.LoadStatusFrame | js/js_mP9bhHhQ8BXZzGrbTLCXVOYA_982U_c-j2-ynPHqJo4.js:515-532 | getCurrentStatus changes only the status, to the value read, and the effects |
| TrackerProperties.LoadCategoriesFrame | js/js_mP9bhHhQ8BXZzGrbTLCXVOYA_982U_c-j2-ynPHqJo4.js:540-570 | getAcceptedCategories changes only the categories, to the merged stored list, and the effects |
| TrackerProperties.ShowStepsFrame | js/js_mP9bhHhQ8BXZzGrbTLCXVOYA_982U_c-j2-ynPHqJo4.js:92-120 | the popup and banner steps only add effects |
| TrackerProperties.ExecuteKeeps | js/js_mP9bhHhQ8BXZzGrbTLCXVOYA_982U_c-j2-ynPHqJo4.js:70-123 | execute never changes the cached status, the categories or the flags; only cookies and effects |
| TrackerProperties.ChangeStatusFacts | js/js_mP9bhHhQ8BXZzGrbTLCXVOYA_982U_c-j2-ynPHqJo4.js:572-641 | after changeStatus(v) the status is v, the categories are unchanged, and the sweep starts only when v is a new 0 under 'opt_out' |
| TrackerProperties.ChangeStatusMeaning | js/js_mP9bhHhQ8BXZzGrbTLCXVOYA_982U_c-j2-ynPHqJo4.js:572-577 | changeStatus to the current status does nothing at all |
| TrackerProperties.ApplyCategoriesFacts | js/js_mP9bhHhQ8BXZzGrbTLCXVOYA_982U_c-j2-ynPHqJo4.js:408-423 | the chosen categories are cached and the status becomes 0 for none and the next status otherwise |
| TrackerProperties.AcceptOutcome | js/js_mP9bhHhQ8BXZzGrbTLCXVOYA_982U_c-j2-ynPHqJo4.js:392-431 | acceptAction ends on the target status with the sweep stopped; under 'categories' the categories are exactly the checked ones, under other methods they are unchanged |
| TrackerProperties.AcceptAllChecksCategories | js/js_mP9bhHhQ8BXZzGrbTLCXVOYA_982U_c-j2-ynPHqJo4.js:433-437 | accept-all checks every box whose value is a configured category |
| TrackerProperties.SavePreferencesOutcome | js/js_mP9bhHhQ8BXZzGrbTLCXVOYA_982U_c-j2-ynPHqJo4.js:439-459 | save preferences ends with the checked categories and status 0 for none, the next status otherwise; a running sweep keeps running |
| TrackerProperties.DeclineOutcome | js/js_mP9bhHhQ8BXZzGrbTLCXVOYA_982U_c-j2-ynPHqJo4.js:470-471 | after declining the status is 0, no category counts as agreed, the categories are unchanged, and the sweep runs under 'opt_out' |
| TrackerProperties.WithdrawOutcome | js/js_mP9bhHhQ8BXZzGrbTLCXVOYA_982U_c-j2-ynPHqJo4.js:487-491 | after withdrawing the cached status is null, no categories remain, the banner shows again and a reload ends the effects |
| TrackerProperties.WithdrawClearsStatusCookie | js/js_mP9bhHhQ8BXZzGrbTLCXVOYA_982U_c-j2-ynPHqJo4.js:487-491 | after withdrawing, the stored status cookie reads back as null, given a status cookie name distinct from the version and categories names |
| TrackerProperties.MoreInfoOutcome | js/js_mP9bhHhQ8BXZzGrbTLCXVOYA_982U_c-j2-ynPHqJo4.js:493-513 | more-info declines under disagree_do_not_show_popup and otherwise only opens the policy link |
| TrackerProperties.ExecuteDisabled | js/js_mP9bhHhQ8BXZzGrbTLCXVOYA_982U_c-j2-ynPHqJo4.js:72-78 | with the popup or cookies disabled execute changes nothing |
| TrackerProperties.ExecuteFirstVisit | js/js_mP9bhHhQ8BXZzGrbTLCXVOYA_982U_c-j2-ynPHqJo4.js:94-107 | with no status the information popup opens, not closed, and nothing else is shown |
| TrackerProperties.ExecuteAgreedCurrentVersion | js/js_mP9bhHhQ8BXZzGrbTLCXVOYA_982U_c-j2-ynPHqJo4.js:92-120 | a visitor with status 2 on the current policy version, with withdrawal disabled, is shown nothing |
| TrackerProperties.ExecuteVersionBump | js/js_mP9bhHhQ8BXZzGrbTLCXVOYA_982U_c-j2-ynPHqJo4.js:80-107 | a stored version other than the current one re-opens the popup, not closed, as the first new effect |
| TrackerProperties.UpdateCheckMigrates | js/js_mP9bhHhQ8BXZzGrbTLCXVOYA_982U_c-j2-ynPHqJo4.js:825-848 | the legacy status carries over to the status cookie, and the legacy cookie is gone exactly when its removal succeeded |
| TrackerProperties.AttachLoads | js/js_mP9bhHhQ8BXZzGrbTLCXVOYA_982U_c-j2-ynPHqJo4.js:16-49 | the first attach outside the EU-only mode marks the page attached, loads the merged categories and caches the stored status |
| TrackerProperties.AttachAgain | js/js_mP9bhHhQ8BXZzGrbTLCXVOYA_982U_c-j2-ynPHqJo4.js:18-47 | a second attach only re-reads the status and writes no cookie |
| TrackerProperties.AttachOutsideEu | js/js_mP9bhHhQ8BXZzGrbTLCXVOYA_982U_c-j2-ynPHqJo4.js:24-41 | in EU-only mode with the banner due, a visitor outside the EU ends with status 2 cached and stored |
| TrackerProperties.AttachBlockingOnce | js/js_mP9bhHhQ8BXZzGrbTLCXVOYA_982U_c-j2-ynPHqJo4.js:898-919 | a second blocking attach changes nothing; the first starts the sweep exactly when it is due |
| TrackerProperties.OnReadyOutcome | js/js_mP9bhHhQ8BXZzGrbTLCXVOYA_982U_c-j2-ynPHqJo4.js:882-895 | under 'opt_in' without agreement nothing happens; when due the scripts are marked loaded, and under 'categories' with a loader every cached category loads |
| TrackerProperties.SweepFate | js/js_mP9bhHhQ8BXZzGrbTLCXVOYA_982U_c-j2-ynPHqJo4.js:921-956 | after the sweep a cookie survives iff it was there and was not listed, or was allowed, or its removal was never confirmed; surviving values are unchanged |
| TrackerProperties.SweepOneFate | js/js_mP9bhHhQ8BXZzGrbTLCXVOYA_982U_c-j2-ynPHqJo4.js:926-954 | the same for one cookie |
| TrackerProperties.SweepAllAllowed | js/js_mP9bhHhQ8BXZzGrbTLCXVOYA_982U_c-j2-ynPHqJo4.js:921-956 | a sweep over allowed cookies only changes nothing |
| TrackerProperties.SweepJarIdempotent | js/js_mP9bhHhQ8BXZzGrbTLCXVOYA_982U_c-j2-ynPHqJo4.js:921-956 | a second sweep leaves every cookie as the first left it |
| TrackerProperties.LoadByIndexMissesCategory | js/js_mP9bhHhQ8BXZzGrbTLCXVOYA_982U_c-j2-ynPHqJo4.js:461-468 | the code as written skips a new category seen at an index used before (see Findings) |
| Consent.TrimPath | js/js_mP9bhHhQ8BXZzGrbTLCXVOYA_982U_c-j2-ynPHqJo4.js:664-669 | a path longer than one character loses exactly one trailing '/'; any other path is kept |
| Consent.StatusTextRoundTrip | js/js_mP9bhHhQ8BXZzGrbTLCXVOYA_982U_c-j2-ynPHqJo4.js:673-680 | parseInt of the text a status is written as gives back the status, "null" giving null |
| Consent.MergeRequiredProperties | js/js_mP9bhHhQ8BXZzGrbTLCXVOYA_982U_c-j2-ynPHqJo4.js:555-563 | the merge keeps the stored list as a prefix, contains every required category, and adds nothing else |
| Consent.MergeRequiredNoDuplicates | js/js_mP9bhHhQ8BXZzGrbTLCXVOYA_982U_c-j2-ynPHqJo4.js:555-563 | the merge introduces no duplicate |
| Consent.MergeRequiredNoop | js/js_mP9bhHhQ8BXZzGrbTLCXVOYA_982U_c-j2-ynPHqJo4.js:555-563 | a list that already holds every required category is returned unchanged |
| Consent.HasAgreedMeaning | js/js_mP9bhHhQ8BXZzGrbTLCXVOYA_982U_c-j2-ynPHqJo4.js:735-747 | agreed means status 1 or 2; agreed with a category also needs it among the accepted ones |
| Consent.ShowBannerMeaning | js/js_mP9bhHhQ8BXZzGrbTLCXVOYA_982U_c-j2-ynPHqJo4.js:749-761 | the banner shows for null, for a re-showable 0 under 'default', and for 1 with the thank-you banner; never for 2 |
| Consent.IsAllowed | js/js_mP9bhHhQ8BXZzGrbTLCXVOYA_982U_c-j2-ynPHqJo4.js:789-822 | the loop over the allow-list returns true iff the name is a session cookie or some entry admits it, directly or through an accepted category |
| Consent.AlwaysAllowed | js/js_mP9bhHhQ8BXZzGrbTLCXVOYA_982U_c-j2-ynPHqJo4.js:789-800 | session cookies and the three consent cookies are always allowed |
| Consent.CategoryEntry | js/js_mP9bhHhQ8BXZzGrbTLCXVOYA_982U_c-j2-ynPHqJo4.js:807-818 | under 'categories' an entry "cat:pattern" that does not match the name as a whole admits it iff the pattern matches and cat is accepted |
| Consent.DirectOnly | js/js_mP9bhHhQ8BXZzGrbTLCXVOYA_982U_c-j2-ynPHqJo4.js:789-822 | under other methods only the session prefixes and direct pattern matches admit a cookie |
| Consent.ParentDomain | js/js_mP9bhHhQ8BXZzGrbTLCXVOYA_982U_c-j2-ynPHqJo4.js:943-946 | dropping the first label shortens a hostname |
| Consent.DomainChain | js/js_mP9bhHhQ8BXZzGrbTLCXVOYA_982U_c-j2-ynPHqJo4.js:936-947 | the hostnames the walk visits are never empty |
| Consent.DomainChainShrinks | js/js_mP9bhHhQ8BXZzGrbTLCXVOYA_982U_c-j2-ynPHqJo4.js:936-947 | each visited hostname is shorter than the one before, so the walk ends |
| Consent.RemovalConfirmedMeaning | js/js_mP9bhHhQ8BXZzGrbTLCXVOYA_982U_c-j2-ynPHqJo4.js:936-947 | removal is confirmed iff one of the two attempts succeeds at some visited hostname |
| Consent.RemovalTraceMeaning | js/js_mP9bhHhQ8BXZzGrbTLCXVOYA_982U_c-j2-ynPHqJo4.js:936-947 | when no removal is confirmed, the two attempts ".h" and "h" are made for every visited hostname, in order |
| Glob.CookieMatches | js/js_mP9bhHhQ8BXZzGrbTLCXVOYA_982U_c-j2-ynPHqJo4.js:773-787 | a name equal to the pattern always matches |
| Glob.MatchesLiteral | js/js_mP9bhHhQ8BXZzGrbTLCXVOYA_982U_c-j2-ynPHqJo4.js:777-778 | a pattern without '*' matches only itself |
| Glob.OneOrMoreIff | js/js_mP9bhHhQ8BXZzGrbTLCXVOYA_982U_c-j2-ynPHqJo4.js:781 | '*' matches one or more characters other than line terminators, followed by a match of the rest |
| Glob.PrefixStar | js/js_mP9bhHhQ8BXZzGrbTLCXVOYA_982U_c-j2-ynPHqJo4.js:781 | "lit*" matches exactly the names that start with lit and continue with at least one more character |
| Common.Find | js/js_mP9bhHhQ8BXZzGrbTLCXVOYA_982U_c-j2-ynPHqJo4.js:809 | indexOf: the first position where the needle occurs, or none |
| Common.ReplaceFirst | js/js_GLxmT4DyYVJbQ0fwhz_KvymDRZBqnSd8oJeA5Vzoqnc.js:258 | a text without the pattern is unchanged; otherwise exactly the first occurrence is replaced, the text before it is kept and the length changes by the replacement's length minus the pattern's |
| Common.Trim | js/js_GLxmT4DyYVJbQ0fwhz_KvymDRZBqnSd8oJeA5Vzoqnc.js:258 | trim removes exactly the leading and trailing white space |
| Common.Lower | js/js_GLxmT4DyYVJbQ0fwhz_KvymDRZBqnSd8oJeA5Vzoqnc.js:258 | toLowerCase keeps the length and folds each ASCII capital |
| Common.SplitLinesProperties | js/js_mP9bhHhQ8BXZzGrbTLCXVOYA_982U_c-j2-ynPHqJo4.js:795 | splitting on line breaks yields pieces without line breaks, and a text without breaks is one piece |
| Decimal.ParseIntOfIntToString | js/js_mP9bhHhQ8BXZzGrbTLCXVOYA_982U_c-j2-ynPHqJo4.js:522 | parseInt of String(n) is n |
| Decimal.ParseIntRejects | js/js_mP9bhHhQ8BXZzGrbTLCXVOYA_982U_c-j2-ynPHqJo4.js:522-525 | parseInt of a text not starting with white space, a sign or a digit is NaN |
| Decimal.ParseJsonIntOfIntToString | js/js_mP9bhHhQ8BXZzGrbTLCXVOYA_982U_c-j2-ynPHqJo4.js:2111 | JSON.parse reads back the integer JSON.stringify wrote |
| Json.ParseQuote | js/js_mP9bhHhQ8BXZzGrbTLCXVOYA_982U_c-j2-ynPHqJo4.js:716 | JSON.parse reads back any string JSON.stringify wrote, leaving the rest of the text |
| Json.ParseStringifyStrings | js/js_mP9bhHhQ8BXZzGrbTLCXVOYA_982U_c-j2-ynPHqJo4.js:549 | JSON.parse of JSON.stringify of a list of strings is the same list |
| Json.Put | js/js_lv6_69KF8pNVztypgMmjbvVoahYKndXRUwcSfvwiNrc.js:177-178 | assigning a property to an existing key keeps the object's size; a new key is appended at the end |
| Json.Get | js/js_mP9bhHhQ8BXZzGrbTLCXVOYA_982U_c-j2-ynPHqJo4.js:2123 | a property is defined iff the object has that key |
| Json.ParseStringifyIntObject | js/js_mP9bhHhQ8BXZzGrbTLCXVOYA_982U_c-j2-ynPHqJo4.js:2127 | JSON.parse of JSON.stringify of a flat integer object with distinct keys is the same object |
| Observer.SelectedAppend | js/js_mP9bhHhQ8BXZzGrbTLCXVOYA_982U_c-j2-ynPHqJo4.js:965-988 | filtering a concatenated queue is concatenating the filtered parts |
| Observer.SelectedMembers | js/js_mP9bhHhQ8BXZzGrbTLCXVOYA_982U_c-j2-ynPHqJo4.js:965-988 | a handler is selected iff some queue entry is a name-and-function pair for the event with that handler |
| Observer.FilterQueue | js/js_mP9bhHhQ8BXZzGrbTLCXVOYA_982U_c-j2-ynPHqJo4.js:965-988 | the loop over the queue returns the selected handlers |
| Observer.WithoutMembers | js/js_mP9bhHhQ8BXZzGrbTLCXVOYA_982U_c-j2-ynPHqJo4.js:1021-1029 | unsubscribe removes every occurrence of the handler and nothing else |
| Observer.WithoutSubscribed | js/js_mP9bhHhQ8BXZzGrbTLCXVOYA_982U_c-j2-ynPHqJo4.js:1018-1029 | subscribing and then unsubscribing a new handler restores the list |
| Observer.EventObserver.constructor | js/js_mP9bhHhQ8BXZzGrbTLCXVOYA_982U_c-j2-ynPHqJo4.js:1012-1015 | a new observer has no handlers |
| Observer.EventObserver.Subscribe | js/js_mP9bhHhQ8BXZzGrbTLCXVOYA_982U_c-j2-ynPHqJo4.js:1018-1020 | the handler is appended |
| Observer.EventObserver.Unsubscribe | js/js_mP9bhHhQ8BXZzGrbTLCXVOYA_982U_c-j2-ynPHqJo4.js:1021-1029 | the handler is filtered out |
| Observer.EventObserver.Fire | js/js_mP9bhHhQ8BXZzGrbTLCXVOYA_982U_c-j2-ynPHqJo4.js:1030-1035 | every subscribed handler is called, in order |
| Interval.ArmAsWritten | js/js_mP9bhHhQ8BXZzGrbTLCXVOYA_982U_c-j2-ynPHqJo4.js:915 | setInterval as written starts one more timer and overwrites the handle |
| Interval.Clear | js/js_mP9bhHhQ8BXZzGrbTLCXVOYA_982U_c-j2-ynPHqJo4.js:404-406 | clearInterval stops only the timer the handle names |
| Interval.ArmTwiceLeaks | js/js_mP9bhHhQ8BXZzGrbTLCXVOYA_982U_c-j2-ynPHqJo4.js:695-697 | arming twice and clearing leaves a sweep timer running (see Findings) |
| Interval.ArmKeepsSingle | js/js_mP9bhHhQ8BXZzGrbTLCXVOYA_982U_c-j2-ynPHqJo4.js:695-697 | the corrected arming keeps at most one sweep timer, and clearing stops it |
| SubNav.GetStates | js/js_mP9bhHhQ8BXZzGrbTLCXVOYA_982U_c-j2-ynPHqJo4.js:2101-2114 | without a cookie the defaults {show_menu: 1, user_closed: 0}; the record has distinct keys |
| SubNav.StateRecord.Set | js/js_lv6_69KF8pNVztypgMmjbvVoahYKndXRUwcSfvwiNrc.js:177-178 | a property assignment on the caller's object |
| SubNav.SetStates | js/js_mP9bhHhQ8BXZzGrbTLCXVOYA_982U_c-j2-ynPHqJo4.js:2119-2129 | the loop adds each missing default key to the caller's object, then writes the seven-day cookie |
| SubNav.FillDefaultsMeaning | js/js_mP9bhHhQ8BXZzGrbTLCXVOYA_982U_c-j2-ynPHqJo4.js:2122-2126 | present values are kept, missing keys get their defaults, and keys stay distinct |
| SubNav.PutMeaning | js/js_lv6_69KF8pNVztypgMmjbvVoahYKndXRUwcSfvwiNrc.js:177-178 | an assigned key reads the new value and every other key reads as before |
| SubNav.SetStatesFlags | js/js_mP9bhHhQ8BXZzGrbTLCXVOYA_982U_c-j2-ynPHqJo4.js:2119-2129 | after setStates both flags are present, the stored ones unchanged and missing ones 0 |
| SubNav.GetAfterSetStates | js/js_mP9bhHhQ8BXZzGrbTLCXVOYA_982U_c-j2-ynPHqJo4.js:2101-2129 | getStates after setStates reads back the filled record |
| Modal.FindURL | js/js_0TYRaYXAeuqPdrhSVzF1VyK1oOIpsaIbB010uYAdRSA.js:1032-1044 | the loop joins the non-empty values with '/' |
| Modal.JoinSlashEmpty | js/js_0TYRaYXAeuqPdrhSVzF1VyK1oOIpsaIbB010uYAdRSA.js:1032-1044 | the URL is empty iff no value is non-empty |
| Modal.SegmentsOfJoin | js/js_0TYRaYXAeuqPdrhSVzF1VyK1oOIpsaIbB010uYAdRSA.js:1032-1044 | splitting the URL on '/' gives back the joined values when they hold no '/' |
| Modal.FindURLMeaning | js/js_0TYRaYXAeuqPdrhSVzF1VyK1oOIpsaIbB010uYAdRSA.js:1032-1044 | the URL is empty or splits back into exactly the non-empty values, in order |
| Modal.NonEmptyFrom | js/js_0TYRaYXAeuqPdrhSVzF1VyK1oOIpsaIbB010uYAdRSA.js:1038-1041 | every value findURL keeps is one of its inputs |
| Modal.NonEmptySkipsEmpty | js/js_0TYRaYXAeuqPdrhSVzF1VyK1oOIpsaIbB010uYAdRSA.js:1038-1041 | an empty value contributes nothing, not even a '/' |
| Modal.GetTabbableElements | js/js_0TYRaYXAeuqPdrhSVzF1VyK1oOIpsaIbB010uYAdRSA.js:1110-1154 | the filter keeps non-radio elements, the checked radio of a checked group and the first radio of an unchecked group |
| Modal.KeptWithoutRadios | js/js_0TYRaYXAeuqPdrhSVzF1VyK1oOIpsaIbB010uYAdRSA.js:1119 | without radio buttons the list is unchanged |
| Modal.KeptIndicesMeaning | js/js_0TYRaYXAeuqPdrhSVzF1VyK1oOIpsaIbB010uYAdRSA.js:1132-1151 | the result is the kept elements in their original order |
| Modal.NonRadioKept | js/js_0TYRaYXAeuqPdrhSVzF1VyK1oOIpsaIbB010uYAdRSA.js:1132-1151 | a non-radio element is always kept |
| Modal.CheckedGroupKeepsChecked | js/js_0TYRaYXAeuqPdrhSVzF1VyK1oOIpsaIbB010uYAdRSA.js:1114-1151 | in a group with a checked radio exactly the checked ones are kept |
| Modal.UncheckedGroupKeepsFirst | js/js_0TYRaYXAeuqPdrhSVzF1VyK1oOIpsaIbB010uYAdRSA.js:1114-1151 | in a group without a checked radio exactly the first is kept |
| Modal.TrapPassesOtherKeys | js/js_0TYRaYXAeuqPdrhSVzF1VyK1oOIpsaIbB010uYAdRSA.js:1193-1195 | keys other than Tab pass through |
| Modal.TrapWraps | js/js_0TYRaYXAeuqPdrhSVzF1VyK1oOIpsaIbB010uYAdRSA.js:1205-1219 | Tab on the last element wraps to the first, Shift-Tab on the first to the last |
| Modal.TrapSingleHolds | js/js_0TYRaYXAeuqPdrhSVzF1VyK1oOIpsaIbB010uYAdRSA.js:1205-1219 | when the focused element is the only tabbable one, focus stays on it |
| Modal.TrapTargetsInside | js/js_0TYRaYXAeuqPdrhSVzF1VyK1oOIpsaIbB010uYAdRSA.js:1191-1238 | focus only ever moves to a tabbable element of the modal; the trap fails only on Tab with no tabbable element outside another modal |
| Modal.AnimationMeaning | js/js_0TYRaYXAeuqPdrhSVzF1VyK1oOIpsaIbB010uYAdRSA.js:1056-1065 | anything but fadeIn or slideDown becomes show, and the normalisation is idempotent |
| Modal.SpeedMeaning | js/js_0TYRaYXAeuqPdrhSVzF1VyK1oOIpsaIbB010uYAdRSA.js:1067-1069 | a missing or empty speed becomes 'fast', 0 ms is kept, any speed not turned into 'fast' is kept, and the normalisation is idempotent |
| Modal.LimitList | js/js_0TYRaYXAeuqPdrhSVzF1VyK1oOIpsaIbB010uYAdRSA.js:190-202 | with more items than the limit, items past it are hidden and the button added; otherwise nothing changes |
| Modal.MoreClick | js/js_0TYRaYXAeuqPdrhSVzF1VyK1oOIpsaIbB010uYAdRSA.js:205-220 | the click reveals the hidden items and hides the button iff all are visible |
| Modal.ShowHidden | js/js_0TYRaYXAeuqPdrhSVzF1VyK1oOIpsaIbB010uYAdRSA.js:209-214 | the loop reveals all hidden items, or the first n of them |
| Modal.RevealShowsOnly | js/js_0TYRaYXAeuqPdrhSVzF1VyK1oOIpsaIbB010uYAdRSA.js:209-214 | a visible item stays visible; a hidden item is revealed iff fewer than n hidden items precede it |
| Modal.RevealCount | js/js_0TYRaYXAeuqPdrhSVzF1VyK1oOIpsaIbB010uYAdRSA.js:205-220 | revealing n leaves max(hidden - n, 0) hidden; revealing all leaves none |
| Modal.RevealNone | js/js_0TYRaYXAeuqPdrhSVzF1VyK1oOIpsaIbB010uYAdRSA.js:213 | revealing zero items changes nothing |
| Modal.LimitThenExpandAll | js/js_0TYRaYXAeuqPdrhSVzF1VyK1oOIpsaIbB010uYAdRSA.js:190-220 | after limiting, the hidden count is the excess and one "all" click shows everything |
| Modal.ProgressBar.SetProgress | js/js_0TYRaYXAeuqPdrhSVzF1VyK1oOIpsaIbB010uYAdRSA.js:609-619 | the bar, value and percentage change only for 0 to 100; the message always; the callback is called when set |
| Modal.ProgressBounds | js/js_0TYRaYXAeuqPdrhSVzF1VyK1oOIpsaIbB010uYAdRSA.js:610-614 | in range the width and label are the value followed by '%' and the value reads back as the percentage; out of range nothing changes |
| Registration.GroupEvent | js/js_BYWhgsfEEfLAOBJlz3hnovlv1646DHBB3VH_au0t_Og.js:191-260 | exactly the six group keys bind handlers |
| Registration.Parameters.constructor | js/js_BYWhgsfEEfLAOBJlz3hnovlv1646DHBB3VH_au0t_Og.js:185-189 | the shared parameters start with empty title and source and the view type "modal" |
| Registration.RegistrationEvents.Attach | js/js_BYWhgsfEEfLAOBJlz3hnovlv1646DHBB3VH_au0t_Og.js:184-261 | for each entry of a known group, one handler per element its selector matches in the context that has none yet, all of a group sharing one fresh parameters object; those elements are marked bound |
| Registration.RegistrationEvents.Click | js/js_BYWhgsfEEfLAOBJlz3hnovlv1646DHBB3VH_au0t_Og.js:195-256 | a click overwrites its group's shared title and source and emits the group's event |
| Registration.NewHandlers | js/js_BYWhgsfEEfLAOBJlz3hnovlv1646DHBB3VH_au0t_Og.js:184-261 | the loop over the groups yields exactly the new per-element bindings, with one fresh object per group |
| Registration.GroupHandlers | js/js_BYWhgsfEEfLAOBJlz3hnovlv1646DHBB3VH_au0t_Og.js:194-201 | the loop over one group's entries binds exactly the matched elements not bound before |
| Registration.ClickEmitsEntry | js/js_BYWhgsfEEfLAOBJlz3hnovlv1646DHBB3VH_au0t_Og.js:195-213 | a click emits its event with the entry's title and source, or empty strings, after the conversion report for register_success |
| Registration.NewBindingsOnce | js/js_BYWhgsfEEfLAOBJlz3hnovlv1646DHBB3VH_au0t_Og.js:195 | no element gets two handlers, even when several selectors match it, and none already bound by an earlier attach gets another |
| Registration.NewBindingsCover | js/js_BYWhgsfEEfLAOBJlz3hnovlv1646DHBB3VH_au0t_Og.js:184-261 | after attach every element matched in the context by a tracked selector is bound; so new content loaded into a later context is bound then |
| Registration.NewBindingsNone | js/js_BYWhgsfEEfLAOBJlz3hnovlv1646DHBB3VH_au0t_Og.js:195 | when every matched element is already bound, attach binds nothing |
| Registration.AttachTwiceBindsNothing | js/js_BYWhgsfEEfLAOBJlz3hnovlv1646DHBB3VH_au0t_Og.js:195 | attaching again on the same context binds nothing |
| Registration.StepTitleTable | js/js_BYWhgsfEEfLAOBJlz3hnovlv1646DHBB3VH_au0t_Og.js:292-318 | each known step has its title; every other step gives "abandon-multistep" |
| Registration.EscapeMeaning | js/js_BYWhgsfEEfLAOBJlz3hnovlv1646DHBB3VH_au0t_Og.js:266-289 | Escape emits the login close iff the login modal is open and the registration close iff the multistep modal is open; other keys emit nothing |
| Advert.StringValueMeaning | js/js_lv6_69KF8pNVztypgMmjbvVoahYKndXRUwcSfvwiNrc.js:77-116 | the source's `x \|\| ''` passes its `.length` test exactly when the value used is non-empty, and is then that string; a truthy number or boolean from `.data()` is dropped |
| Advert.NativeReadings | js/js_lv6_69KF8pNVztypgMmjbvVoahYKndXRUwcSfvwiNrc.js:79-80 | the native value as written and as intended agree exactly on truthy values, on the empty string, and where the value's text is the default; for absent, null, false, 0 or NaN the code as written targets the text (see Findings) |
| Advert.NumericAttributes | js/js_lv6_69KF8pNVztypgMmjbvVoahYKndXRUwcSfvwiNrc.js:77-101 | (with the limit test at lines 232-235) `.data()` numbers: a data-ad-limit of "0" adds no close button and a numeric priority sets no priority targeting |
| Advert.NativeAsWrittenAbsent | js/js_lv6_69KF8pNVztypgMmjbvVoahYKndXRUwcSfvwiNrc.js:79-80 | the native targeting as written turns an absent attribute into "undefined" (see Findings) |
| Advert.NativeIntended | js/js_lv6_69KF8pNVztypgMmjbvVoahYKndXRUwcSfvwiNrc.js:79-80 | an absent native value gives no native targeting, the key defaults to "strnativekey", and a numeric value is targeted as its text |
| Advert.TargetIf | js/js_lv6_69KF8pNVztypgMmjbvVoahYKndXRUwcSfvwiNrc.js:105-116 | a targeting pair is set iff its value is non-empty |
| Advert.NewSlotMeaning | js/js_lv6_69KF8pNVztypgMmjbvVoahYKndXRUwcSfvwiNrc.js:95-128 | without a key-values attribute a new slot carries the div id and only non-empty targeting values; priority is targeted iff the attribute is a non-empty string |
| Advert.HideAdvert | js/js_lv6_69KF8pNVztypgMmjbvVoahYKndXRUwcSfvwiNrc.js:165-167 | the default show_menu of 1 never hides the advert |
| Advert.AdvertPage.DefineSlot | js/js_lv6_69KF8pNVztypgMmjbvVoahYKndXRUwcSfvwiNrc.js:74-129 | an existing slot is refreshed, otherwise a new one is defined and stored |
| Advert.AdvertPage.CloseButton | js/js_lv6_69KF8pNVztypgMmjbvVoahYKndXRUwcSfvwiNrc.js:148-185 | for the full-page mobile advert, a suppressed advert is removed; otherwise the states are reset to shown and stored |
| Advert.AdvertPage.Visit | js/js_lv6_69KF8pNVztypgMmjbvVoahYKndXRUwcSfvwiNrc.js:221-250 | excluded sizes are skipped; a div whose data-ad-limit is truthy gets the close button; the slot is defined iff the advert is to show |
| Advert.AdvertPage.VisitAll | js/js_lv6_69KF8pNVztypgMmjbvVoahYKndXRUwcSfvwiNrc.js:218-250 | every advert div is visited in document order |
| Advert.AdvertPage.CloseClick | js/js_lv6_69KF8pNVztypgMmjbvVoahYKndXRUwcSfvwiNrc.js:188-201 | the slot is destroyed, and for the full-page mobile advert the states store the suppression time |
| Advert.DefineSlotOnce | js/js_lv6_69KF8pNVztypgMmjbvVoahYKndXRUwcSfvwiNrc.js:89-128 | the div has a slot afterwards; an existing slot is kept, a new one is NewSlot |
| Advert.VisitMeaning | js/js_lv6_69KF8pNVztypgMmjbvVoahYKndXRUwcSfvwiNrc.js:224-248 | an excluded div changes nothing; one not excluded with a falsy limit gets a slot and no button; a truthy limit outside the full-page position gets a button and a slot |
| Advert.SuppressionMeaning | js/js_lv6_69KF8pNVztypgMmjbvVoahYKndXRUwcSfvwiNrc.js:162-181 | a suppressed advert is removed and not shown; otherwise the stored states read shown and not closed |
| Advert.CloseSuppressesUntil | js/js_lv6_69KF8pNVztypgMmjbvVoahYKndXRUwcSfvwiNrc.js:163-201 | after a close the advert stays hidden exactly until the limit in seconds has passed |
| Advert.UniversitySelect.constructor | js/js_lv6_69KF8pNVztypgMmjbvVoahYKndXRUwcSfvwiNrc.js:39 | the select starts at "default" with no redirect |
| Advert.UniversitySelect.Change | js/js_lv6_69KF8pNVztypgMmjbvVoahYKndXRUwcSfvwiNrc.js:42-48 | a change redirects to the chosen value unless it is "default" |
| Theme.MetaMapThrows | js/js_GLxmT4DyYVJbQ0fwhz_KvymDRZBqnSd8oJeA5Vzoqnc.js:486-497 | the loop throws iff some tag whose property contains "mz" has no content |
| Theme.MetaMapKeys | js/js_GLxmT4DyYVJbQ0fwhz_KvymDRZBqnSd8oJeA5Vzoqnc.js:486-497 | the keys are exactly those written by tags whose property contains "mz", with the first "mz:" removed |
| Theme.MetaMapLastWins | js/js_GLxmT4DyYVJbQ0fwhz_KvymDRZBqnSd8oJeA5Vzoqnc.js:486-497 | a key holds the lower-cased content of its last tag |
| Theme.BuildPageMetadata | js/js_GLxmT4DyYVJbQ0fwhz_KvymDRZBqnSd8oJeA5Vzoqnc.js:484-503 | the loop builds the metadata and extends it with the page variables |
| Theme.PageVariablesOverride | js/js_GLxmT4DyYVJbQ0fwhz_KvymDRZBqnSd8oJeA5Vzoqnc.js:502 | page variables override tags; other keys come from tags |
| Theme.B2BGuard | js/js_GLxmT4DyYVJbQ0fwhz_KvymDRZBqnSd8oJeA5Vzoqnc.js:126-137 | the lead is emitted iff no required field is empty |
| Theme.ToggleReports | js/js_GLxmT4DyYVJbQ0fwhz_KvymDRZBqnSd8oJeA5Vzoqnc.js:145-154 | each toggle click sends one of two records differing only in type, and only the link text "Read more..." reports "open" |
| Theme.SaveListTitleMeaning | js/js_GLxmT4DyYVJbQ0fwhz_KvymDRZBqnSd8oJeA5Vzoqnc.js:257-261 | the save-list title is lower case, trimmed, with the first "(s)" removed |
| Theme.AddToListCheckoutUnreachable | js/js_GLxmT4DyYVJbQ0fwhz_KvymDRZBqnSd8oJeA5Vzoqnc.js:244-250 | the source as written reports every click, a checkout click included, as "university profile" (see Findings) |
| Theme.AddToListSourceIntended | js/js_GLxmT4DyYVJbQ0fwhz_KvymDRZBqnSd8oJeA5Vzoqnc.js:244-250 | a profile click is "university profile", a basket click "add to list checkout", others keep the default |
| Theme.ListModalParamsMeaning | js/js_GLxmT4DyYVJbQ0fwhz_KvymDRZBqnSd8oJeA5Vzoqnc.js:196-264 | no list-modal title holds an ASCII capital; only save_list uses the "basket" view and its title is no longer than the value; add_to_list names the profile pane, else the checkout basket, and defaults to "add to list"; the other two send their fixed titles |
| Theme.NagGate | js/js_GLxmT4DyYVJbQ0fwhz_KvymDRZBqnSd8oJeA5Vzoqnc.js:593-606 | a single unanswered student nag prevents the footer; none or answered ones allow it |
| Theme.TriggerMeaning | js/js_GLxmT4DyYVJbQ0fwhz_KvymDRZBqnSd8oJeA5Vzoqnc.js:623 | the trigger is 800 when no start is set, else the parsed integer; a start that parses to NaN is never passed |
| Theme.NagFooter.Scroll | js/js_GLxmT4DyYVJbQ0fwhz_KvymDRZBqnSd8oJeA5Vzoqnc.js:618-633 | a scroll sets the position and, past the trigger, makes the footer visible for the rest of the page |
| Theme.ScrollBack | js/js_GLxmT4DyYVJbQ0fwhz_KvymDRZBqnSd8oJeA5Vzoqnc.js:624-630 | scrolling back up after showing keeps the footer visible but hides it below the page |

## Left out

- Everything that only draws or animates the DOM is left out, because it does not change the tracker's state. This covers createPopup, createWithdrawBanner, toggleWithdrawBanner, positionTab, resizeListener, showWithdrawBanner, the popup's event binding (initPopup, attachAgreeEvents, attachHideEvents, attachWithdrawEvents) and the animation callback of changeStatus.
- cookiesEnabled becomes a parameter of execute, because it probes the browser.
- The EU-check request becomes the parameter `inEu`, with None meaning no answer, because it is network I/O.
- The consent POST is recorded as the ConsentStored effect, without the request itself.
- The sweep timer becomes a flag: started or stopped. The five-second period and the repeated sweeps are not modelled. The single flag is the corrected reading of the interval Findings row (Interval.ArmKeepsSingle). The source can leak a second timer when it arms twice and clears once (Interval.ArmTwiceLeaks).
- Cookie expiry dates become `Days(n)` or `Session`, because date arithmetic is left out. The direct expiry write of BlockCookies is the ExpiryWrite effect.
- `$.removeCookie` and `$.cookie()` are parameters. Removal is a function from a name and a domain to success. The listing is a sequence of cookie names.
- Consent.IsAllowed: requires every allow-list entry that holds a '*' to hold no other regular-expression character besides '.'. Other entries would make the source build a different regular expression, or throw inside its try/catch.
- Glob.CookieMatches: the same requirement on its one pattern.
- Tracker.ConsentTracker.BlockCookies: the same requirement on the allow-list. It also requires that `$.cookie()` lists each cookie of the jar exactly once.
- Tracker.ConsentTracker.GetAcceptedCategories: requires the categories cookie to hold a JSON array of strings when present. The source's JSON.parse would throw on anything else.
- Tracker.ConsentTracker.Attach: the same requirement, inherited from getAcceptedCategories.
- SubNav.GetStates: requires the cookie to be absent, empty, or a flat JSON object of integers with distinct keys. Other texts make JSON.parse throw or give values outside the model.
- Advert.AdvertPage.CloseButton: the same requirement on the full-page mobile states cookie.
- Advert.AdvertPage.Visit: the same requirement.
- Advert.AdvertPage.VisitAll: the same requirement.
- Tracker.ConsentTracker.HandleEvent: a handler's own effects are not modelled. Only its call is recorded, with the status and categories it receives.
- Tracker.ConsentTracker.LoadCategoryScripts: follows the corrected reading of the Findings row, with loaded scripts keyed by category name. The source keys them by array index; only TrackerProperties.LoadByIndexMissesCategory shows that.
- TrackerProperties.LoadCategoryScriptsShape: the same corrected reading.
- TrackerProperties.NewLoadsMeaning: the same corrected reading, with categories keyed by name. As written, the source keys them by array index, so ["b"] and then ["a","b"] loads b twice and never loads a.
- Tracker.ConsentTracker.ApplyCategories: loads the chosen categories' scripts through LoadCategoryScripts, so with the same name-keyed corrected reading. As written, savePreferences with ["analytics"] and then with ["marketing"] on one page finds index 0 marked and never loads marketing; the model loads it.
- Tracker.ConsentTracker.Accept: inherits that name-keyed reading through ApplyCategories. Its timer clear stops the single sweep flag, the corrected reading of the interval Findings row; as written, after the blocking attach and a decline under 'opt_out' have each armed a timer, the one clear leaves a sweep running.
- Tracker.ConsentTracker.AcceptAll: inherits both corrected readings through Accept.
- Tracker.ConsentTracker.SavePreferences: inherits the name-keyed reading through ApplyCategories.
- Tracker.ConsentTracker.OnReady: under 'categories' loads the cached categories through the name-keyed LoadCategoryScripts.
- TrackerProperties.OnReadyOutcome: "every cached category loads" holds for the name-keyed reading; as written, a category at an index already marked loaded is skipped.
- TrackerProperties.AcceptOutcome: "the sweep stopped" is the single-timer corrected reading; as written, a second armed timer keeps sweeping after acceptAction.
- Advert.AdvertPage.CloseClick: the suppression time in seconds is the parameter `limit`, standing for `parseInt` of data-ad-limit. A limit that does not parse (NaN, which the source would store as show_menu) is not modelled.
- Advert.CloseSuppressesUntil: the same `limit` parameter.
- Tracker.ConsentTracker.Execute: assumes jQuery.cookie 1.4.1, where an absent cookie reads undefined, so setVersion runs on a first visit. Under the 1.0 plugin an absent cookie reads null and setVersion never runs there; that plugin is not modelled.
- Tracker.ConsentTracker.UpdateCheck: assumes the same plugin, where `$.removeCookie` exists. The 1.0 fallback write `$.cookie(legacy, null, …)` is not modelled.
- Common.Lower: folds ASCII capitals only. toLowerCase also folds other Unicode capitals ("É" to "é"); Unicode case mapping is not modelled.
- Theme.MetaMapLastWins: "lower-cased" is Common.Lower, so ASCII only.
- Theme.SaveListTitleMeaning: the same ASCII-only lower-casing; "no capital" means no ASCII capital.
- Theme.ListModalParamsMeaning: the same ASCII-only lower-casing. It also states the corrected add_to_list source of the Findings row: a basket click outside a profile title sends "add to list checkout", where the code as written always sends "university profile" (Theme.AddToListCheckoutUnreachable).
- Theme.ListModalParams: uses the corrected add_to_list source of the Findings row. As written the source always reports "university profile"; only Theme.AddToListCheckoutUnreachable shows that.
- Modal.ProgressBar.SetProgress: takes an integer percentage. The server may send a fractional one such as 33.3, whose text form is not modelled.
- Advert.Div: attributes are held as jQuery's `.data()` returns them (string, number, boolean or null). Text that `.data()` parses as a JSON object or array is not modelled; the size attributes are only passed on to googletag, so they stay opaque.
- Advert.AdvertPage.DefineSlot: targets the native value with the corrected reading of the Findings row. As written, a div without data-anv is targeted "undefined"="undefined"; only Advert.NativeAsWrittenAbsent shows that.
- Advert.DefineSlotOnce: the new slot is built with the same corrected native reading.
- Advert.NewSlotMeaning: the same corrected native reading.
- Advert.AdvertPage.Visit: the same corrected native reading, through DefineSlot.
- Advert.AdvertPage.VisitAll: the same corrected native reading.
- try/catch around execute is left out, because no modelled step throws.
- The mobile popup markup choice is left out, because only the markup differs.
- `window.open` versus `location.href` in moreInfoAction both become OpenPolicyLink.
- The second copy of findURL at js/js_0TYRaYXAeuqPdrhSVzF1VyK1oOIpsaIbB010uYAdRSA.js:1502-1514 is the same code, so Modal.FindURL stands for both.
- The rest of the bundle is not part of this model:
  - NewRelic;
  - SmartMenus;
  - Bootstrap;
  - jsSocials;
  - throttle and debounce helpers;
  - Drupal AJAX;
  - modal sizing and positioning;
  - the analytics loader and its cached scripts;
  - the remaining analytics event handlers.

## Findings

| source | as written | input that shows it | evidently intended | confidence | as-written member | corrected member |
|---|---|---|---|---|---|---|
| js/js_lv6_69KF8pNVztypgMmjbvVoahYKndXRUwcSfvwiNrc.js:79-80 | `"" + $div.data('anv') \|\| ''` concatenates before the `\|\|`, so an absent attribute becomes the text "undefined" for both the native value and its key | a div without data-anv and data-ank | no native targeting, and the key defaults to "strnativekey" | not executed | Advert.NativeAsWrittenAbsent | Advert.NativeIntended |
| js/js_mP9bhHhQ8BXZzGrbTLCXVOYA_982U_c-j2-ynPHqJo4.js:461-468 | `for (var cat in categories)` keys the loaded-scripts record by array index, not by category name | loadCategoryScripts(["analytics"]) then loadCategoryScripts(["marketing"]) | each category's scripts load once, by name | not executed | TrackerProperties.LoadByIndexMissesCategory | TrackerProperties.LoadCategoryScriptsShape |
| js/js_mP9bhHhQ8BXZzGrbTLCXVOYA_982U_c-j2-ynPHqJo4.js:695-697 | setInterval overwrites the only timer handle without clearing the running timer, and it is armed both here and at line 915 | the blocking behaviour arms the sweep, then the visitor declines under 'opt_out'; accepting clears only the second timer | at most one sweep timer, stopped by accepting | not executed | Interval.ArmTwiceLeaks | Interval.ArmKeepsSingle |
| js/js_GLxmT4DyYVJbQ0fwhz_KvymDRZBqnSd8oJeA5Vzoqnc.js:244-250 | `$(this).closest(...) !== 'undefined'` compares a jQuery object with a string, which always differs, so the checkout branch is unreachable | an add-to-list click inside the list basket, outside a profile title | "add to list checkout" for basket clicks, and "university profile" only inside a profile title | not executed | Theme.AddToListCheckoutUnreachable | Theme.AddToListSourceIntended |
