# EFS Module 2 Development Portal: a verified model of its client and server logic

This project models the four pieces of the EFS Module 2 Development Portal (the Early Learning Family Portal) that make decisions. The rest of the repository serves static pages.

- **The home page's idle-session timer** (`public/js/efsmod-home.js`). A warning timeout fires after 28 minutes and a logout timeout after 30 minutes. Once the warning modal shows, a 30-second countdown interval runs. Activity re-arms the timeouts, and "stay logged in" also clears the countdown. The model is a logical clock in milliseconds, with pure step functions over a `Session` value. The class `IdleSession` holds the same handles as fields, and each of its methods is proved equal to one step.
- **The home page's form helpers** (`public/js/efsmod-home.js`): the phone, SSN and date masks, and the file-input label. The three masks share one definition with three constant layouts.
- **The portal navigation bar** (`public/js/portal-nav.js`):
  - the signed-in/signed-out decision after fetching the auth state;
  - the display-name fallback;
  - the user menu's open/closed state;
  - `escapeHtml`.

  The class `PortalNavigation` mirrors the object's fields. Its methods are proved equal to pure steps.
- **The Express server's decisions** (`server.js`):
  - the answer of `GET /api/auth/status`, built from the principal headers of the hosting platform's authentication proxy;
  - the catch-all route, which answers a JSON 404 under `/api/` and the single-page app elsewhere.
- **The landing page** (`public/app.js`): the external-link test of `handleApiLinkClick` and `formatUptime`.

JavaScript values are modelled by `Js.JsValue`. `Js.Truthy` is `Boolean(v)`, `Js.Or` is `||`, and `Js.Get` is property access, which throws on `null`/`undefined`. `Js.OptionalGet` is `?.`. Exceptions are `Js.Completion.Throw`.

Two observations about how the pieces fit together:

- The navigation bar asks `/api/auth/me` (`public/js/portal-nav.js:18`). `server.js` defines `/api/auth/status`, not that path. Against this server the catch-all route answers 404 there, so the bar always renders signed out. `PortalNav.MeRouteRendersSignedOut` states this.
- Activity does not cancel a running countdown. `resetIdleTimer` (`public/js/efsmod-home.js:108-117`) only re-arms the two timeouts, and only `stayLoggedIn` clears the interval. `IdleTimer.ActivityDoesNotStopCountdown` proves the consequence: the countdown still signs out on schedule after activity.

## Model

| member | source | states |
|---|---|---|
| Text.Digits | public/js/efsmod-home.js:174 | `replace(/\D/g, '')`: the result holds only ASCII digits and is no longer than the input |
| Text.DigitsEmptyIff | public/js/efsmod-home.js:177 | the digit string is empty exactly when the input holds no digit |
| Text.NatToString | public/app.js:212 | the decimal text of a number is non-empty, all digits, without a leading zero |
| Text.ParseNatToString | public/app.js:212 | reading the decimal text back gives the number |
| Text.ContainsIff | public/app.js:66 | the left-to-right `includes` scan is true exactly when the pattern occurs at some index |
| Js.Or | server.js:123-126 | `a \|\| b` is truthy iff either operand is, and is one of the operands |
| Js.Get | server.js:123 | member access throws exactly on `null`/`undefined` and yields an object's own field |
| Js.OptionalGet | server.js:125 | `v?.key` is `undefined` on `null`/`undefined` and otherwise agrees with `v.key` |
| Js.Truthy | public/js/portal-nav.js:29 | `Boolean(v)` is false exactly for `undefined`, `null`, `false`, `0` and `""` |
| Js.ToJsString | public/js/portal-nav.js:132 | `String(v)` of a string is that string |
| IdleTimer.Initial | public/js/efsmod-home.js:88-89 | a freshly loaded page has no pending timer, no countdown, no sign-out, and satisfies the timer invariant |
| IdleTimer.Reset | public/js/efsmod-home.js:108-117 | the warning is due 28 min and the logout 30 min from now, always exactly 2 min apart; the countdown, the modal and everything else are untouched; the invariant is kept |
| IdleTimer.Arm | public/js/efsmod-home.js:94-106 | without the signed-in marker nothing changes; with it both timeouts are armed and the activity listeners installed |
| IdleTimer.Activity | public/js/efsmod-home.js:102-117 | an activity event re-arms both timeouts from its own time and leaves the countdown, the modal and the sign-out count as they were |
| IdleTimer.SignOut | public/js/efsmod-home.js:147-149 | `autoLogout` adds one navigation to the sign-out page and changes nothing else |
| IdleTimer.CountdownStarted | public/js/efsmod-home.js:127-145 | `startCountdown` installs a 30-second countdown whose first tick is one second out and changes nothing else |
| IdleTimer.ShowIdleWarning | public/js/efsmod-home.js:119-125 | with the modal present it is shown and the countdown starts, nothing else changes; without it the session is unchanged |
| IdleTimer.WarningFires | public/js/efsmod-home.js:119-125 | when the warning is due: with the modal, the modal shows and a 30-second countdown starts one second out; without it, nothing shows; the logout stays 2 min away; only the clock, the warning handle, the modal and the countdown change |
| IdleTimer.Tick | public/js/efsmod-home.js:131-141 | one countdown tick decrements and shows the number; at zero it clears the interval and signs out once; timeouts and every other field untouched |
| IdleTimer.LogoutFires | public/js/efsmod-home.js:147-149 | the logout timeout, when due, signs out once; only the clock, the logout handle and the sign-out count change |
| IdleTimer.KeepSession | public/js/efsmod-home.js:151-162 | `stayLoggedIn` hides the modal, clears the countdown and re-arms both timeouts from its time; the listeners, the display and the sign-out count are untouched |
| IdleTimer.CountdownTickIsNext | public/js/efsmod-home.js:131-141 | while the countdown runs, its next tick is due before every pending timeout |
| IdleTimer.NoOverlappingCountdowns | public/js/efsmod-home.js:113-145 | the warning never fires while a countdown runs, so two intervals never overlap |
| IdleTimer.LogoutTimeoutFiresAlone | public/js/efsmod-home.js:113-116 | the logout timeout fires only after the warning has fired and no countdown is running |
| IdleTimer.Ticks | public/js/efsmod-home.js:131-141 | any number of consecutive ticks keeps the timer invariant |
| IdleTimer.CountdownRunsOut | public/js/efsmod-home.js:127-141 | a countdown at n runs exactly n ticks: before the n-th it shows n-k with no sign-out; the n-th clears it and signs out once |
| IdleTimer.WarningThenSilenceSignsOut | public/js/efsmod-home.js:119-141 | after the warning with no activity the 30th tick signs out, 30 s after the warning and before the 30-min logout deadline; no earlier tick signs out |
| IdleTimer.WarningWithoutModalLeavesLogoutTimeout | public/js/efsmod-home.js:119-125 | without the modal no countdown starts and the logout timeout signs out 2 min after the warning |
| IdleTimer.ActivityDoesNotStopCountdown | public/js/efsmod-home.js:108-117 | activity during the countdown leaves it running, and it still signs out after its remaining ticks |
| IdleTimer.IdleSession.constructor | public/js/efsmod-home.js:88-89 | the object starts in the initial session |
| IdleTimer.IdleSession.InitializeIdleTimer | public/js/efsmod-home.js:94-106 | the fields become `Arm` of the old state |
| IdleTimer.IdleSession.ResetIdleTimer | public/js/efsmod-home.js:108-117 | the fields become `Reset` of the old state |
| IdleTimer.IdleSession.OnActivity | public/js/efsmod-home.js:104 | the fields become `Activity` of the old state |
| IdleTimer.IdleSession.ShowIdleWarning | public/js/efsmod-home.js:119-125 | the fields become `WarningFires` of the old state |
| IdleTimer.IdleSession.StartCountdown | public/js/efsmod-home.js:127-145 | a fresh 30-second interval replaces the countdown handle |
| IdleTimer.IdleSession.CountdownTick | public/js/efsmod-home.js:131-141 | the fields become `Tick` of the old state |
| IdleTimer.IdleSession.AutoLogout | public/js/efsmod-home.js:147-149 | one more navigation to the sign-out page |
| IdleTimer.IdleSession.LogoutTimeoutFires | public/js/efsmod-home.js:116 | the fields become `LogoutFires` of the old state |
| IdleTimer.IdleSession.StayLoggedIn | public/js/efsmod-home.js:151-162 | the fields become `KeepSession` of the old state |
| Masks.LayoutsAreProper | public/js/efsmod-home.js:174-229 | the phone, SSN and date layouts have increasing cut points and digit-free separators |
| Masks.Substring | public/js/efsmod-home.js:178 | `substring` with clamped ends is never longer than the requested span |
| Masks.Layout | public/js/efsmod-home.js:174-229 | no digits give an empty field; otherwise the field starts with the layout's opening text; it is never longer than the fixed texts plus `cut3` digits |
| Masks.ApplyMask | public/js/efsmod-home.js:174-229 | an input without digits empties the field; the field is never longer than the fixed texts plus `cut3` digits |
| Masks.MaskIsShaped | public/js/efsmod-home.js:174-229 | the conditional appends give exactly the intended shape of the first `cut3` digits, each separator present only once enough digits exist |
| Masks.MaskEmptyIff | public/js/efsmod-home.js:174-229 | a mask's output is empty iff the input has no digit |
| Masks.MaskKeepsDigitPrefix | public/js/efsmod-home.js:174-229 | the digits of the output are the first `cut3` digits of the input, in order |
| Masks.DigitsOfShape | public/js/efsmod-home.js:174-229 | the digits of the intended shape are exactly the kept digits, since the fixed texts hold none |
| Masks.MaskIdempotent | public/js/efsmod-home.js:174-229 | masking the masked text again changes nothing |
| Masks.MaskLengthBound | public/js/efsmod-home.js:174-229 | the output is at most the separators plus `cut3` digits long |
| Masks.PhoneMaskFull | public/js/efsmod-home.js:174-187 | with ten or more digits the phone field reads `(ddd) ddd-dddd`, 14 characters |
| Masks.SsnMaskFull | public/js/efsmod-home.js:195-208 | with nine or more digits the SSN field reads `ddd-dd-dddd`, 11 characters |
| Masks.DateMaskFull | public/js/efsmod-home.js:216-229 | with eight or more digits the date field reads `dd/dd/dddd`, 10 characters |
| Masks.SlashesForBackslashes | public/js/efsmod-home.js:240 | every backslash becomes `/`, every other character is kept, length unchanged |
| Masks.StripThroughLastSlash | public/js/efsmod-home.js:240 | removing the first match of `.*\/` never lengthens the value and keeps only characters of the value |
| Masks.StripWithoutSlash | public/js/efsmod-home.js:240 | a value without `/` has no match and is returned unchanged |
| Masks.StripOneLine | public/js/efsmod-home.js:240 | on a single line the match runs to the last `/`: what remains is the suffix after it, holding no `/`, or the whole line when it has none |
| Masks.FileLabel | public/js/efsmod-home.js:240 | the label never holds a backslash, is no longer than the value, holds only characters of the value or `/`, and is the whole value when it has no `/` or `\` |
| Masks.FileLabelIsBaseName | public/js/efsmod-home.js:240 | for a one-line value the label is the suffix after the last `/` or `\`, or the whole value when there is none |
| Masks.FileInputText | public/js/efsmod-home.js:239-246 | more than one file gives `"<N> files selected"` whose number reads back as N; otherwise the label; a missing file list counts as one |
| Server.HeaderValue | server.js:110-112 | a header is truthy iff present and non-empty |
| Server.IsEmailClaim | server.js:125 | the claim test throws exactly on a `null`/`undefined` claim and otherwise compares `typ` with the email claim type |
| Server.FindEmailClaim | server.js:125 | `find` returns the first email claim, `undefined` when none, and throws iff a `null`/`undefined` element comes first |
| Server.EmailOf | server.js:125 | `null`/`undefined` claims give `undefined`; claims that are neither nullish nor an array throw (no `find`); an array gives `?.val` of its first email claim, `undefined` when none, and throws when a nullish element comes first |
| Server.UserOf | server.js:120-128 | `id` is `userId` if truthy else `sid`; `name` is `userDetails` if truthy else the name header; `email` is the claim lookup; `provider` is the idp header if non-empty else `"aad"`; it fails exactly when the principal is nullish or the lookup throws |
| Server.AuthStatus | server.js:103-146 | no (or empty) principal header iff the signed-out answer; a decode failure gives 500 with the fixed message; a signed-in answer carries `UserOf` of the decoded principal; for a decoded principal the answer is signed in exactly when `UserOf` succeeds, and a throwing `UserOf` gives the 500 answer |
| Server.ObjectPrincipalSignsIn | server.js:114-131 | a principal object with absent, null or null-free array claims is signed in, with the email of the first email claim or `undefined` |
| Server.NonObjectPrincipalSignsIn | server.js:114-131 | a principal decoding to a string, number, boolean or array is signed in with no id, the name header as name, and no email |
| Server.MalformedPrincipalFails | server.js:139-145 | a principal decoding to `null`, or with non-array claims, is answered 500 |
| Server.Fallback | server.js:208-219 | a JSON 404 carrying the path iff the URL starts with `/api/`; otherwise the index page |
| Server.FallbackUnderApi | server.js:210-218 | every path under `/api/` is a 404; `/api` and `/apis…` get the page |
| PortalNav.Entity | public/js/portal-nav.js:133-138 | each special character maps to an entity of the form `&…;` |
| PortalNav.RunLength | public/js/portal-nav.js:132 | the match of `[&<>"]+` at a position is the maximal run of specials there |
| PortalNav.EscapeHtml | public/js/portal-nav.js:131-141 | the escape as written never shortens its input and copies a string without `&<>"` unchanged |
| PortalNav.EscapeHtmlKeepsPlain | public/js/portal-nav.js:131-141 | characters outside `&<>"` are copied |
| PortalNav.EscapeHtmlLoneSpecial | public/js/portal-nav.js:131-141 | a special character with no special neighbour becomes its entity |
| PortalNav.EscapeHtmlKeepsRuns | public/js/portal-nav.js:131-141 | a run of two or more specials is returned verbatim |
| PortalNav.EscapeHtmlIsolated | public/js/portal-nav.js:131-141 | when no two specials are adjacent the code escapes exactly like the per-character escape |
| PortalNav.EscapeHtmlLeavesPairs | public/js/portal-nav.js:132-139 | `escapeHtml("<<")` is `<<`, not `&lt;&lt;` |
| PortalNav.EscapeEach | public/js/portal-nav.js:131-141 | the per-character escape never shortens its input, and keeps its length exactly when the input has no `&<>"`, in which case it is the input |
| PortalNav.EscapeEachRoundTrip | public/js/portal-nav.js:131-141 | the per-character escape decodes back to its input |
| PortalNav.EscapeEachHasNoMarkup | public/js/portal-nav.js:131-141 | the per-character escape leaves no `<`, `>` or `"` |
| PortalNav.DisplayName | public/js/portal-nav.js:57 | the name is `user.name` if truthy, else `user.email` if truthy, else `"Profile"`; always truthy |
| PortalNav.ShowSignedOut | public/js/portal-nav.js:42-54 | `renderSignedOut` sets the state tag to `signed-out` and changes nothing else |
| PortalNav.ShowSignedIn | public/js/portal-nav.js:56-97 | `renderSignedIn` sets the tag to `signed-in`, a closed menu whose attributes agree, and a name text at least as long as the display name (equal to it when it has no `&<>"`); nothing else changes |
| PortalNav.AfterInit | public/js/portal-nav.js:12-40 | no container: no change; failed fetch, non-ok response or unreadable body: signed out; otherwise `isAuthenticated` is `Boolean(authenticated)` and signed in iff that and `user` are truthy, with a closed menu and the escaped display name |
| PortalNav.MeRouteRendersSignedOut | public/js/portal-nav.js:18-26 | the path the bar fetches is a 404 on this server, and a non-ok answer renders signed out |
| PortalNav.Toggle | public/js/portal-nav.js:99-112 | no-op without dropdown or trigger; otherwise the next state is the forced one or the negation, written to `data-open`, `aria-expanded` and `hidden` |
| PortalNav.ToggleKeepsConsistent | public/js/portal-nav.js:109-111 | `data-open`, `aria-expanded` and `hidden` keep agreeing |
| PortalNav.ToggleTwiceRestores | public/js/portal-nav.js:104-111 | two unforced toggles restore the menu |
| PortalNav.GlobalClick | public/js/portal-nav.js:114-129 | a click inside changes nothing; outside forces the menu closed |
| PortalNav.ClosingClosedMenuIsNoop | public/js/portal-nav.js:114-129 | an outside click on a closed menu changes nothing |
| PortalNav.PortalNavigation.constructor | public/js/portal-nav.js:2-10 | the object starts unrendered, without dropdown or trigger |
| PortalNav.PortalNavigation.Init | public/js/portal-nav.js:12-40 | the fields become `AfterInit` of the old state |
| PortalNav.PortalNavigation.RenderSignedOut | public/js/portal-nav.js:42-54 | the state tag becomes `signed-out`, nothing else changes |
| PortalNav.PortalNavigation.RenderSignedIn | public/js/portal-nav.js:56-97 | tag `signed-in`, a closed menu with dropdown and trigger, the escaped display name |
| PortalNav.PortalNavigation.ToggleMenu | public/js/portal-nav.js:99-112 | the menu fields become `Toggle` of the old menu |
| PortalNav.PortalNavigation.HandleGlobalClick | public/js/portal-nav.js:114-129 | the menu fields become `GlobalClick` of the old menu |
| PortalNav.PortalNavigation.LogoutClick | public/js/portal-nav.js:93-96 | renders signed out and navigates to the sign-out page once |
| PortalApp.IsExternal | public/app.js:66 | a link is external exactly when it starts with `http` or `github.com` occurs in it at some index |
| PortalApp.HandleApiLinkClick | public/app.js:61-70 | no anchor or `href`: a TypeError; an `href` starting with `http` or containing `github.com` anywhere: default navigation; any other: fetched in the page |
| PortalApp.HttpPrefixIsExternal | public/app.js:66-68 | any `href` starting with `http`, even a relative one, is left to the browser |
| PortalApp.GithubMentionIsExternal | public/app.js:66-68 | any `href` mentioning `github.com` is left to the browser |
| PortalApp.ApiPathIsFetched | public/app.js:18-70 | every link the selector picks (`/api…` or `/health…`) that does not mention `github.com` is fetched in the page |
| PortalApp.Hours | public/app.js:209 | the hours are below 24 |
| PortalApp.Minutes | public/app.js:210 | the minutes are below 60 |
| PortalApp.FormatUptime | public/app.js:207-215 | the text is at least two characters and ends in `m` |
| PortalApp.HoursNestInDays | public/app.js:209-210 | the minute remainder is the same with or without removing whole days first |
| PortalApp.UptimeDecomposition | public/app.js:208-210 | days·86400 + hours·3600 + minutes·60 ≤ s < that + 60 |
| PortalApp.UnderAMinute | public/app.js:214 | under a minute the text is `0m` |
| PortalApp.UptimeReadsBack | public/app.js:211-214 | the text reads back as `{d}d {h}h {m}m` when days > 0, `{h}h {m}m` when only hours > 0, `{m}m` otherwise |
| PortalApp.UptimeTextWithinAMinute | public/app.js:207-215 | the time the text states is at most the input and less than a minute short of it |

## Left out

- Real timers, event dispatch and page navigation. Time is a logical clock. The browser's scheduling is the precondition `DueNext`: a callback runs only when its timer is the next thing due. Navigation to `/signout` is a counter. The model does not unload the page, so a timeout still pending after a sign-out could count a second one.
- The six activity event types share one `Activity` step. Listeners installed twice are not modelled.
- The DOM: elements are presence flags. The HTML templates written by `innerHTML` are reduced to the attributes the code later reads (`data-state`, `data-open`, `aria-expanded`, `hidden`) and the escaped name.
- `fetch` and `response.json()` in the navigation bar are the parameter `AuthFetch`, which is the outcome of both. `console` logging is left out.
- The link handler's own fetch, its loading spinner and its response and error panels are left out. The model stops at the decision to fetch in the page.
- Base64 decoding followed by `JSON.parse` in the status route is the function parameter `decode`.
- JSON numbers are integers. Floating-point values and `NaN` are not modelled.
- Inherited (prototype) properties of decoded objects are not modelled: a missing own field reads as `undefined`.
- `formatBytes` uses `Math.log`, `Math.pow` and `toFixed`, which is floating point.
- PortalApp.FormatUptime: seconds are whole numbers, so fractional `process.uptime()` values are not modelled. Its `${days}` rendering assumes a day count below 10^21, where JavaScript's text is plain decimal.
- Masks.FileLabelIsBaseName: states the base-name property only for one-line values, since a file input's value has no line breaks. For other values only `StripThroughLastSlash`'s character provenance is proved.
- Masks.StripThroughLastSlash: models `.` of a non-`s`-flag regular expression as excluding `\n`, `\r`, U+2028 and U+2029.
- `config/database.js` is not part of this model: it is a network database client. The same holds for `app.js`, which is static serving, and `public/app-auth.js`, which is fetch plus templating.
- Also not part of this model: helmet, cors, the health and system-info routes, tooltips, smooth scrolling, modals other than the timeout warning, analytics and back-button handling.

## Findings

| source | as written | input that shows it | evidently intended | confidence | as-written member | corrected member |
|---|---|---|---|---|---|---|
| public/js/portal-nav.js:132-139 | `/[&<>"]+/g` matches a whole run of special characters, and the lookup table has only one-character keys, so `map[match] \|\| match` returns a run of two or more unchanged | a display name containing `<<`, or `"><` | every `&`, `<`, `>` and `"` replaced by its entity | high, not executed | PortalNav.EscapeHtmlLeavesPairs | PortalNav.EscapeEach |

`PortalNav.EscapeEach` is the corrected escape. `PortalNav.EscapeEachRoundTrip` and `PortalNav.EscapeEachHasNoMarkup` prove its intended properties. `PortalNav.EscapeHtmlIsolated` proves the code agrees with it whenever no two special characters are adjacent. The navigation state keeps the escape as written, because that is the text the page shows.
