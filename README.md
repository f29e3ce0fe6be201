# offerscreen kiosk core, modelled in Dafny

This project models the logic behind the offerscreen kiosk. The kiosk is a
browser screen that shows a timed sales offer. It has:

- a countdown to the offer's start or end (in English or Bengali digits);
- a rotating course pricing card with an "ending soon" banner;
- a "coming soon" screen that reloads once the offer starts;
- two gift animations: a scratch card and a corner popup;
- the service helpers that read and write themes, backgrounds and gift images.

Modules, one per source file (plus shared helpers):

| module | models |
|---|---|
| `Countdown` | `components/CountdownTimer.tsx`: start/end classification, the h/m/s decomposition, the zero-padded fields, the tick that freezes on "ended", the Bengali digit mapping, and the component as a class |
| `OfferScreen` | `src/pages/OfferScreen.tsx`: loaded state, course rotation, the displayed course, header fallbacks, the pricing card and the "ending soon" conditions |
| `UpcomingOffer` | `components/UpcomingOfferScreen.tsx`: the start check that triggers a reload, and the course and offer names |
| `ScratchCard` | `components/AutoScratchCard.tsx`: the show / scratch / reveal / hide cycle driven by chained timeouts |
| `GiftPopups` | `components/GiftPopups.tsx`: the show / hide / advance popup cycle and its effect cleanup |
| `ThemeService`, `BackgroundService`, `GiftService` | the three service files, over an in-memory `Tables.Table` that stands for a Supabase table |
| `Wrappers`, `Text`, `Cycling`, `Types`, `Tables` | shared helpers: query responses, digit strings, `split().pop()`, modular rotation, record types, tables |

Modelling conventions:

- **Time.** Instants are integer milliseconds. Every clock read is a parameter.
- **Timers.** Each pending `setTimeout`/`setInterval` is a field. A `Fire`/`Tick`
  method handles one firing and returns the delay it arms next.
- **Query results.** A read whose rows the code inspects (`fetchActiveTheme`,
  `fetchVisibleGiftItems`) receives a `Response<T>` (`Ok(data)` or `Err(message)`).
  A write receives the error the database reported, as an `Option<string>`.
- **Tables.** A table is a class that holds `map<id, Row(record, isActive)>`.

Noteworthy behaviours of the code, all captured by the model:

- The countdown runs only when both instants are present; there is no
  end-only mode.
- A start later than the end is classified as upcoming first.
- The course index is not reset when the course list changes. An index past the
  end of the list shows the built-in fallback course.
- The screen's "ending soon" threshold is 2 hours. The countdown's own
  emphasis threshold is 6 hours.
- With a single popup gift, the popup shows once and then stops. The index
  never changes, so the effect never re-runs.
- The offer screen passes no language to its countdown, so the countdown's
  default applies and its digits are Bengali
  (`OfferScreen.OfferScreenState.ScreenCountdown`).
- Once the offer has ended the countdown shows only "Offer Ended", while its
  state keeps the last live fields.
- Setting the active theme or background ignores the errors of both writes; a
  failed deactivation can leave two rows active (see "## Findings").

## Model

| member | source | states |
|---|---|---|
| Text.NatToString | components/CountdownTimer.tsx:72-74 | `String(n)` is a non-empty digit string that parses back to n, is "0" for zero and has no leading zero otherwise, is one digit exactly when n < 10 and at most two when n < 100, and contains no '.' or '/' |
| Text.PadStart | components/CountdownTimer.tsx:72-74 | `padStart` yields length max(width, \|s\|), ends with s, and is fill characters before it |
| Text.ZeroPadKeepsValue | components/CountdownTimer.tsx:72-74 | zero-padding a digit string keeps it a digit string and keeps its value |
| Text.TwoDigitField | components/CountdownTimer.tsx:72-74 | a field is a digit string of at least two characters whose value is n: exactly two when n < 100, and `String(n)` itself (no leading zero) when n >= 10 |
| Text.LastSegment | services/giftService.ts:116 | `split(sep).pop()` holds no separator, is a suffix of s, and is preceded by a separator when shorter than s |
| Text.LastSegmentWhole | services/giftService.ts:116 | the segment is the whole string exactly when the string holds no separator |
| Text.LastSegmentEmpty | services/giftService.ts:116-117 | the segment is empty exactly when the string is empty or ends with the separator |
| Text.LastSegmentAfter | services/giftService.ts:95-96 | the last segment of prefix + sep + tail is tail when tail holds no separator |
| Countdown.Classify | components/CountdownTimer.tsx:42-49 | upcoming iff now < start, ended iff start <= now and end <= now, active iff start <= now < end; the target is start when upcoming and end otherwise, and is still ahead unless ended |
| Countdown.StatusMonotone | components/CountdownTimer.tsx:42-49 | for start <= end, the status never moves back from ended to active, or from active to upcoming, as time advances |
| Countdown.Decompose | components/CountdownTimer.tsx:63-65 | minutes and seconds are below 60, and h:m:s in milliseconds is within one second below the distance |
| Countdown.SameMinuteRemainder | components/CountdownTimer.tsx:64-65 | taking the remainder by an hour first does not change the remainder by a minute |
| Countdown.Update | components/CountdownTimer.tsx:37-79 | the status is the classification; an ended tick keeps the previous fields with `ended` set and the previous emphasis flag; a live tick has "00" days and milliseconds, fields that encode the distance to the target (an hours field longer than two digits has no leading zero), and the emphasis flag iff active with less than 6 h to the end |
| Countdown.UpdateKeepsDigits | components/CountdownTimer.tsx:54-78 | a tick from fields that are digit strings leaves digit strings, whether it freezes them or recomputes them |
| Countdown.EndedIsFinal | components/CountdownTimer.tsx:54-61 | once ended, any number of later ticks leaves the whole timer state unchanged |
| Countdown.OneHourLeft | components/CountdownTimer.tsx:63-74 | a live tick one hour from its target shows 01:00:00 |
| Countdown.TwoHourWindow | components/CountdownTimer.tsx:37-79 | for a two-hour offer: an hour before the start, upcoming with 01:00:00 and no emphasis; an hour in, active with 01:00:00 and emphasis; a second after the end, ended with the previous fields frozen |
| Countdown.CountdownTimer.constructor | components/CountdownTimer.tsx:19-29 | the language defaults to Bengali when none is passed; the timer starts idle with all fields "00" and no emphasis |
| Countdown.CountdownTimer.Tick | components/CountdownTimer.tsx:31-88 | with both instants, a tick applies Update and re-arms the 1 s interval; with either instant missing, nothing changes and nothing is armed; fields that are digit strings stay so |
| Countdown.CountdownTimer.Shown | components/CountdownTimer.tsx:92-160 | no boxes exactly when the status is ended (only "Offer Ended" is rendered); otherwise in English the fields are shown as stored, and in Bengali each shown field is the Bengali mapping of the stored one, consists of Bengali digits only, and maps back to the stored field |
| Countdown.IdleForever | components/CountdownTimer.tsx:32 | with a missing instant, any sequence of ticks leaves the timer in its initial idle state |
| Countdown.BengaliOf | components/CountdownTimer.tsx:12-16 | an ASCII digit maps to the Bengali digit of the same value, and any other character maps to itself |
| Countdown.ToBengali | components/CountdownTimer.tsx:11-17 | the length is unchanged and each character is mapped by BengaliOf |
| Countdown.BengaliField | components/CountdownTimer.tsx:11-17 | an ASCII digit string maps to Bengali digits only, and mapping back recovers it |
| Countdown.BengaliRoundTrip | components/CountdownTimer.tsx:11-17 | mapping back from Bengali digits recovers any string that held no Bengali digits |
| Countdown.BengaliInjective | components/CountdownTimer.tsx:11-17 | two strings without Bengali digits are shown alike only if they are equal |
| Cycling.NextIndex | src/pages/OfferScreen.tsx:41 | `(prev + 1) % length` stays in range: it is prev + 1 below the end and wraps to 0 at the end |
| Cycling.RotatedIsModular | src/pages/OfferScreen.tsx:38-45 | k rotation steps from index i reach (i + k) mod length |
| Cycling.FullTurn | src/pages/OfferScreen.tsx:38-45 | after as many steps as there are courses the index is back where it started, and every intermediate index is in range |
| OfferScreen.DisplayedCourse | src/pages/OfferScreen.tsx:59-64 | the course at the index when it is in range; otherwise the fallback course at 500/199 |
| OfferScreen.HeaderTexts | src/pages/OfferScreen.tsx:55-56 | each header is the theme's text when it is non-empty, and "Ramadan Special" / "150 Hours" otherwise; neither is ever empty |
| OfferScreen.TimeLeft | src/pages/OfferScreen.tsx:52-68 | with an offer, the time to its end; without one, never positive when the clock does not run backwards |
| OfferScreen.EndingSoonWithinLastHours | src/pages/OfferScreen.tsx:143-161 | at a render at instant now, on a screen with an offer that has started (its start at or before now): whenever the banner is rendered, the countdown the screen renders with the same end has its last-hours emphasis at that instant; three hours before the end the countdown emphasises while the banner is not rendered |
| OfferScreen.OfferScreenState.constructor | src/pages/OfferScreen.tsx:12-16 | no offer, no courses, no theme, index 0, loading |
| OfferScreen.OfferScreenState.Loaded | src/pages/OfferScreen.tsx:18-35 | stores the offer; replaces the courses only when the offer has some; replaces the theme only when one came back; stops loading; keeps the index; arms the 6 s rotation only with more than one course |
| OfferScreen.OfferScreenState.RotationTick | src/pages/OfferScreen.tsx:38-45 | with more than one course the index advances by NextIndex; otherwise it is unchanged |
| OfferScreen.OfferScreenState.ShownCourse | src/pages/OfferScreen.tsx:59-64 | the fallback course without courses, and the indexed course when the index is in range |
| OfferScreen.OfferScreenState.OfferEnd | src/pages/OfferScreen.tsx:52 | the loaded offer's end time when there is an offer, and none without one |
| OfferScreen.OfferScreenState.CardShown | src/pages/OfferScreen.tsx:52-68 | at a render at instant now: with an offer, the pricing card is rendered exactly when now is before the offer's end; without one it is never rendered on a clock that does not run backwards |
| OfferScreen.OfferScreenState.BannerShown | src/pages/OfferScreen.tsx:68-69 | at a render at instant now: the banner implies the pricing card; with an offer it is rendered exactly when now is within the last two hours before the end; without one never |
| OfferScreen.OfferScreenState.ScreenCountdown | src/pages/OfferScreen.tsx:158-162 | the rendered countdown gets the offer's start and end and no language, so it is Bengali: it starts idle with digit fields and its boxes show Bengali digits |
| UpcomingOffer.ShouldReload | components/UpcomingOfferScreen.tsx:16-23 | reload iff a start time exists and has been reached |
| UpcomingOffer.HoldsOffWhileUpcoming | components/UpcomingOfferScreen.tsx:21 | the check holds off exactly while the countdown classifies the offer as upcoming |
| UpcomingOffer.ChecksUntilReload | components/UpcomingOfferScreen.tsx:26-27 | the k-th one-second check reloads, no earlier check does, and that check comes less than a second after the start |
| UpcomingOffer.CourseName | components/UpcomingOfferScreen.tsx:31-33 | the first course's title iff the offer has at least one course |
| UpcomingOffer.OfferName | components/UpcomingOfferScreen.tsx:41 | null iff the title is missing or empty; otherwise the stripped title |
| UpcomingOffer.TimerLanguage | components/UpcomingOfferScreen.tsx:12 | a missing language means Bengali; a given one is used as is |
| ThemeService.FetchActiveTheme | services/themeService.ts:18-41 | a failed query yields the built-in active default theme; otherwise the row returned |
| ThemeService.NewThemeRecord | services/themeService.ts:61-71 | language falls back to "bn" when empty or missing; the flags and intervals fall back to true/true/6/20 only when missing; the texts and style are copied |
| ThemeService.CreateTheme | services/themeService.ts:58-80 | on success one new inactive row holding NewThemeRecord is added and returned; when the insert reports an error the table is unchanged and null is returned |
| ThemeService.SetActiveTheme | services/themeService.ts:113-119 | as written: ids and records are kept; the active set becomes (empty, or the old set when the deactivation failed) plus id when it exists and its activation succeeded; with both writes succeeding it is exactly {id} or empty |
| ThemeService.FailedDeactivateLeavesTwoActive | services/themeService.ts:113-119 | with "a" active, a failed deactivation followed by activating "b" leaves both active |
| ThemeService.SetActiveThemeChecked | services/themeService.ts:113-119 | corrected: ids and records are kept; a failed deactivation leaves the active set unchanged, otherwise it becomes exactly {id} (id present, activation succeeded) or empty; at most one active theme is preserved |
| ThemeService.DeleteTheme | services/themeService.ts:99-110 | success is reported exactly when the delete reports no error; then the id is gone and every other row is unchanged; otherwise nothing changes |
| Tables.Table.DeactivateAll | services/themeService.ts:115 | without an error every row becomes inactive; with one nothing changes; ids and records are always kept |
| Tables.Table.ActivateWhere | services/themeService.ts:118 | without an error only the named row (if present) becomes active, adding it to the active set; with one nothing changes |
| Tables.Table.Insert | services/backgroundService.ts:42-54 | an insert that reports no error and hits no existing id adds exactly one inactive row and returns it; otherwise nothing changes and null is returned |
| Tables.Table.Delete | services/backgroundService.ts:76-81 | success is reported exactly when no error came back; then exactly the id is removed; otherwise nothing changes |
| BackgroundService.AddBackground | services/backgroundService.ts:42-54 | an inactive background row is added on success; when the insert reports an error the table is unchanged and null is returned |
| BackgroundService.SetActiveBackground | services/backgroundService.ts:57-65 | as written: ids and records are kept; the active set becomes (empty, or the old set when the deactivation failed) plus id when it is given, non-empty, present and its activation succeeded |
| BackgroundService.FailedDeactivateLeavesTwoActive | services/backgroundService.ts:57-65 | with "a" active, a failed deactivation followed by activating "b" leaves both active |
| BackgroundService.SetActiveBackgroundChecked | services/backgroundService.ts:57-65 | corrected: ids and records are kept; a failed deactivation leaves the active set unchanged, otherwise it becomes exactly {id} (id given, non-empty, present, activation succeeded) or empty; at most one active background is preserved |
| BackgroundService.StorageNameToRemove | services/backgroundService.ts:70-73 | no storage call iff the URL is empty or ends in '/'; otherwise the text after the last '/', which is the whole URL when it holds none |
| BackgroundService.DeleteBackground | services/backgroundService.ts:68-82 | removes the file named by StorageNameToRemove (if any), then the row; success is reported exactly when the row delete reports no error, and only then is the row gone |
| GiftService.UploadExtension | services/giftService.ts:95 | the extension holds no '.', is the whole name when it has no '.', and otherwise is the suffix after the last '.' |
| GiftService.UploadFileName | services/giftService.ts:96 | the stored name is the gift id and '-', then a digit string whose value is the clock read, then '.' and the file's extension; it holds no '/' when the id and extension hold none |
| GiftService.UploadStampIsNow | services/giftService.ts:96 | the stamp between the dash and the extension is exactly `String(now)`, the shortest decimal form without leading zeros |
| GiftService.UploadNamesDistinct | services/giftService.ts:96-100 | two uploads of the same file for the same gift at different instants get different storage names, so the upsert never overwrites an earlier image |
| GiftService.UploadKeepsExtension | services/giftService.ts:95-96 | reading the extension back from the stored name gives the uploaded file's extension |
| GiftService.PublicUrl | services/giftService.ts:107-111 | the public URL ends with '/' followed by the storage name |
| GiftService.UploadGiftImage | services/giftService.ts:91-112 | null exactly when the upload reports an error; otherwise the public URL of the generated storage name |
| GiftService.DeleteGiftImage | services/giftService.ts:115-128 | no removal and false iff the URL is empty or ends in '/'; otherwise the text after the last '/' is removed and the result is the storage call's |
| GiftService.DeleteFindsUploadedImage | services/giftService.ts:91-128 | deleting by the URL a successful upload returned removes exactly the storage name that was uploaded, and reports success exactly when the removal reports no error |
| ScratchCard.CycleOrder | components/AutoScratchCard.tsx:34-50 | one cycle runs show, scratch, reveal, hide and back, with delays adding up to 21.5 s |
| ScratchCard.PhaseEntered | components/AutoScratchCard.tsx:33-47 | only the hide step enters the hidden phase |
| ScratchCard.StepAfter | components/AutoScratchCard.tsx:36-47 | each step schedules a different step entering a different phase, and only hide schedules the next cycle |
| ScratchCard.DelayAfter | components/AutoScratchCard.tsx:36-50 | every delay is positive and at most the popup interval, which only the hide step uses |
| ScratchCard.StepBefore | components/AutoScratchCard.tsx:34-50 | every step is scheduled by some step's callback: StepAfter inverts StepBefore |
| ScratchCard.AutoScratchCard.constructor | components/AutoScratchCard.tsx:12-16 | mounted, with no gifts, no current gift, hidden, index 0, no timer |
| ScratchCard.AutoScratchCard.SetGifts | components/AutoScratchCard.tsx:53-62 | while mounted, storing a new list cancels the pending timeout (the previous effect's cleanup) and a non-empty list then arms the first cycle after 5 s; after unmounting the update is dropped; phase, gift and index are kept |
| ScratchCard.AutoScratchCard.GiftsFetched | components/AutoScratchCard.tsx:18-20 | while mounted, the fetched list (empty for a failed or null fetch) is stored: an empty one leaves no timer, a non-empty one arms the first cycle; after unmounting nothing is stored and no timer is armed |
| ScratchCard.AutoScratchCard.Unmount | components/AutoScratchCard.tsx:22-24 | the pending timer is cancelled and the component is no longer mounted |
| ScratchCard.AutoScratchCard.Fire | components/AutoScratchCard.tsx:26-51 | with nothing pending nothing changes; a cycle start picks the captured list's gift at index mod length, increments the index, shows it and arms the scratch; each later step enters its phase and arms the next step with its delay, keeping index and gift |
| ScratchCard.AutoScratchCard.Rendered | components/AutoScratchCard.tsx:64 | the card is drawn only while mounted with a current gift, and in every reachable state exactly when mounted outside the hidden phase |
| ScratchCard.LateFetchDrawsNothing | components/AutoScratchCard.tsx:18-64 | a gift list that arrives after unmounting arms no timer, and a later firing draws nothing |
| GiftPopups.GiftPopupsState.constructor | components/GiftPopups.tsx:5-7 | no gifts, index 0, hidden, mounted, nothing pending |
| GiftPopups.GiftPopupsState.Load | components/GiftPopups.tsx:9-18 | stores the list while mounted; arms the 2 s show only for a non-empty list |
| GiftPopups.GiftPopupsState.Unmount | components/GiftPopups.tsx:38-39 | only a pending show timeout is cancelled; a pending hide or advance survives |
| GiftPopups.GiftPopupsState.Fire | components/GiftPopups.tsx:20-38 | show makes the popup visible and arms hide; hide clears it and arms advance; advance moves the index one step round the list and re-arms show when the index changed; the invariant keeps the index at cycles mod length and a timer pending while two or more gifts are mounted |
| GiftPopups.GiftPopupsState.CurrentGift | components/GiftPopups.tsx:42-44 | no gift for an empty list; otherwise the gift at the index |
| GiftPopups.SingleGiftShowsOnce | components/GiftPopups.tsx:29-40 | with one gift, after show, hide and advance nothing is pending: the index stays 0 and the popup stays hidden |

## Left out

- OfferScreen.OfferScreenState.CardShown, BannerShown and
  EndingSoonWithinLastHours hold at a render at instant now. The screen
  re-renders only after loading and on each rotation tick. Rotation runs only
  with more than one course, and the countdown's one-second updates re-render
  only the countdown itself. With zero or one course, the pricing card
  computed at the last render stays on screen after the end. The banner then
  appears only if that render fell in the last two hours. The model does not
  track which instant the screen last rendered at.
- Rendering (JSX, CSS classes, animations, the stars, the marquee) and the
  discount percentage on src/pages/OfferScreen.tsx:95: presentation only.
- `Math.random` in the scratch card's stars and in `uploadBackgroundImage`:
  randomness, with no state the core depends on.
- Parsing of ISO date strings (`new Date(...)`, including `NaN` for a bad
  string) and reading the clock: instants are integer parameters.
- JavaScript numbers are modelled as unbounded integers. No floating point and
  no 2^53 limit.
- Supabase and the network: a read is one `Response`, and a write's outcome is
  its error parameter. Row order, `.limit(1)`, and races between two concurrent
  set-active calls are not modelled.
- `console.error` logging on every failure path: output only, with no effect on
  any result.
- GiftService.UploadGiftImage: `getPublicUrl` is modelled as the bucket's base
  URL (a parameter) joined to the storage name by '/'. Percent-encoding of the
  name and the project URL itself are not modelled.
- `stripHtml` needs a browser document and is a function parameter of
  `UpcomingOffer.OfferName`.
- `updateTheme`, `updateGiftItem`, `addGiftItem`, `deleteGiftItem`,
  `fetchActiveBackground` and `uploadBackgroundImage`: each forwards one
  Supabase call and returns its data or null, or whether it reported no error.
  They are not modelled as separate members.
- `fetchAllGiftItems`, `fetchAllThemes` and `fetchBackgrounds`: list reads of
  the same shape as `fetchVisibleGiftItems`, whose empty-on-failure handling is
  modelled once by `ScratchCard.AutoScratchCard.GiftsFetched`.
- `fetchPopupGiftItems`, imported by components/GiftPopups.tsx, is not part of
  this model. The popup list is a parameter of `Load`.
- Timer scheduling itself: which pending timeout fires next, and how their
  delays interleave across components, is left to the caller of the `Fire`/`Tick`
  methods.
- The Gemini advisor, the admin panel, the route guard, the header, the footer,
  `App.tsx` and `offerService.ts`: outside the offer screen's core.
- `window.location.reload()` in components/UpcomingOfferScreen.tsx is the
  boolean `UpcomingOffer.ShouldReload`. The page reload itself is not modelled.
- GiftPopups.GiftPopupsState.Load: requires that the list is fetched only once
  per mount, as the effect with an empty dependency list does. A second fetch
  that interleaves with a running chain is not modelled.

## Findings

| source | as written | input that shows it | evidently intended | confidence | as-written member | corrected member |
|---|---|---|---|---|---|---|
| services/themeService.ts:113-119 | the deactivate-all write's error is ignored and the activation runs anyway | "a" active, "b" inactive; the deactivation fails and "b" is activated: both "a" and "b" are active | at most one active theme, as the comment on the deactivation says | medium, not executed | ThemeService.FailedDeactivateLeavesTwoActive | ThemeService.SetActiveThemeChecked |
| services/backgroundService.ts:57-65 | the deactivate-all write's error is ignored and the activation runs anyway | "a" active, "b" inactive; the deactivation fails and "b" is activated: both "a" and "b" are active | at most one active background | medium, not executed | BackgroundService.FailedDeactivateLeavesTwoActive | BackgroundService.SetActiveBackgroundChecked |
