# Proofs about the shared rules of the chat and call widgets

A Dafny model of the parts of the repository whose correctness is more than one body can show: the
callback slots, the call widget's loader, message reactions, bank number checks, the revenue report,
the email provider configuration, the widget template catalog, the precache lists and the AI credit
packs. `dafny verify dfyconfig.toml` checks everything.

Code that loops or updates state is a method or a class, proved against a function; the properties are
lemmas about those functions. The main ones are written on the stored texts, numbers and rows themselves,
without the functions that compute them. One module per file, named after it; `Foundations.dfy`,
`Sorting.dfy`, `Text.dfy` and `TextWords.dfy` hold what everything shares.

| files | source |
|---|---|
| CivilCalendar, TimeZones, Timestamps, CallbackHours, CallbackSlots, SlotWalkProofs, ComputeSlots, BookingRuns, OverbookedHours, SlotMeaning | shared/callbackSlots.ts |
| CallLoader, CallLoaderRuns, LoaderHistory, LazyModules | public/call-widget/l.js |
| Reactions, ReactionToggles | shared/messageReactions.ts |
| Luhn, Iban, CardTransfer | shared/cardTransfer.ts |
| RevenueMonths, Revenue, RevenueProofs, RevenueLedger, RevenueReports | shared/simpleBillingAdmin.ts |
| EmailConfig, Pem | shared/emailProviders.ts |
| TemplateOptions, TemplateCatalog, TemplateSaves, TemplateSaveProofs, TemplateMeaning | shared/chatTemplateCatalog.ts |
| Precache | vite.config.ts |
| Packs, PackMeaning, PackConversion | shared/aiPacks.ts |

## Claims that hold under a condition

- `wallInstant` is described as exact for every time that exists. It is, as long as the zone changes its
  offset at most once within a day of the asked time (`TimeZones.StartComplete`), and no zone in use changes
  twice that soon. For two changes in reach, `TimeZones.TwoChangesMissExactly` says which existing times the
  three passes miss, and `TimeZones.TwoChangesHideATime` gives such a zone and time.
- The slot capacity is kept over every run of bookings if and only if any two instants the hours ever offer
  are at least a slot's length apart (`BookingRuns.CapacityKeptIffSpaced`). Three kinds of settings break it,
  each shown with its hours, its zone and a run that overbooks (`OverbookedHours`): intervals of one day that
  overlap, intervals that follow each other off the grid, and one interval across a daylight-saving change
  that is no multiple of the slot. `BookingRuns.AlignedHoursAreSpaced` names settings that never do, daylight
  saving included.
- `canonicalEmailProviderConfig` is said to change nothing but names. A row with the old TLS switch on beside
  an `encryption` that is no mode, off port 465, is read as STARTTLS before and as auto after
  (`EmailConfig.ModeKeptIff`, `EmailConfig.UnknownModeExample`).
- A stored template name longer than 40 characters is cut on reading, and the cut may leave a space at its
  end, which the next reading trims: saving the same body again can then change a row it does not mention
  (`TemplateSaveProofs.ResaveIff`, `TemplateSaveProofs.ResaveExample`). The third save never does.
- The callbacks that wait for the media SDK or the panel are each called exactly once, unless an earlier one
  of the same load throws: then the rest of them are never called (`LazyModules.EveryRun`,
  `LazyModules.ThrowLosesTheNext`). The SDK's are told whether it was there when the load ended, which a
  callback before them may have changed; the panel's are told whether it is there now
  (`LazyModules.StaleAnswer`), and a panel's callback that refuses the module does take it away.
- A pack's credit shown back in minor units is the credit or one less at every rate above half a wallet unit
  per minor unit (`PackConversion.ShownCredit`). At half a unit and below some credit is not, and at half a
  unit a credit of one shows as two, more than was bought (`PackConversion.CoarseRateMisshows`,
  `PackConversion.HalfRateExample`).

## Model

| member | source | states |
|---|---|---|
| CivilCalendar.DayOfDate | shared/callbackSlots.ts:292-295 | the date of a day number names that day again, so date arithmetic on the local date walks the calendar day by day |
| CivilCalendar.DatesUnique | shared/callbackSlots.ts:292-295 | two valid dates of one day are the same date, so days and dates are a bijection |
| CivilCalendar.DateKeysDiffer | shared/callbackSlots.ts:123-125 | two dates with one `YYYY-MM-DD` key are the same date |
| CivilCalendar.DateOfNextDay | shared/callbackSlots.ts:292-295 | day 0 is 1 January 1970, and each next day has the next date of the calendar on the wall, month lengths and leap years as they are known |
| TimeZones.TzWallToUtc | shared/callbackSlots.ts:113-121 | the estimate is the wall time less the offset the zone has at the guess |
| TimeZones.WallInstant | shared/callbackSlots.ts:229-239 | the loop of three passes returns what StartSound, StartComplete and StartsAscend speak of, null included |
| TimeZones.ThreeEstimates | shared/callbackSlots.ts:230-238 | the answer is the first of three estimates that shows the asked wall time, and null when none does |
| TimeZones.WallInstantSound | shared/callbackSlots.ts:229-239 | in any zone, a returned instant shows exactly the asked year, month, day, hour and minute |
| TimeZones.StartSound | shared/callbackSlots.ts:229-239 | the same for minute m of a day: the instant is on that local day, at that local minute, on a whole minute |
| TimeZones.OneChangeSearch | shared/callbackSlots.ts:229-239 | with one offset change in reach, which side of it the answer lies on, and null exactly between the two |
| TimeZones.StartComplete | shared/callbackSlots.ts:223-239 | with at most one change in reach, null exactly when no instant shows the wall time (a daylight-saving gap) |
| TimeZones.StartsAscend | shared/callbackSlots.ts:309 | with at most one change in reach, later wall times of a day are later instants: what the horizon break relies on |
| TimeZones.TwoPassesSuffice | shared/callbackSlots.ts:232-237 | the third pass never finds anything the first two did not |
| TimeZones.TwoChangesMissExactly | shared/callbackSlots.ts:223-239 | with two offset changes in reach, exactly which wall times exist and are answered null: the one instant lies under one offset and the three passes go to and fro between the two others |
| TimeZones.TwoChangesHideATime | shared/callbackSlots.ts:223-228 | a zone with two changes an hour apart in which the search misses a time that exists |
| Timestamps.StampRead | shared/callbackSlots.ts:212-221 | a printed stamp reads back as its own date, minutes and signed offset |
| Timestamps.IsoWithOffset | shared/callbackSlots.ts:213-221 | parsing the printed slot time gives its own instant back, rounded down to the minute |
| Timestamps.StampsSpelled | shared/callbackSlots.ts:212-221 | stamps east and west of Greenwich, and there, character by character |
| CallbackHours.ParsePrinted | shared/callbackSlots.ts:42-51 | a printed HH:mm reads back, so the walk may parse the cleaned intervals again |
| CallbackHours.ClockRead | shared/callbackSlots.ts:42-51 | a text is a clock exactly when, trimmed, it is one or two digits of an hour below 24, a colon and two digits of a minute below 60 |
| CallbackHours.SpanRead | shared/callbackSlots.ts:152-156 | a stored interval counts exactly when both its texts spell a clock, the first before the second |
| CallbackHours.UsableIntervals | shared/callbackSlots.ts:149-159 | the loop, sort and cut return the printed form of the spans UsableSpansEarliest describes |
| CallbackHours.UsableSpansEarliest | shared/callbackSlots.ts:145-159 | the usable spans are valid spans of the list, in order: all of them, or the six that start first |
| CallbackHours.OverrideDay | shared/callbackSlots.ts:131-143 | the first override of a date closes it, replaces its intervals or leaves it to the week, and every other date is as it was |
| CallbackHours.WeekdayHours | shared/callbackSlots.ts:140-142 | without an override, a day has the list stored under its own weekday, or none: day 3 after 1 January 1970 is a Sunday, and the week goes on |
| SlotWalkProofs.TimesShape | shared/callbackSlots.ts:285-317 | offered instants: strictly increasing, at most 128, 32 a local day and `daysAhead` local days, none past the horizon, each on the grid of a span of its own date; the collecting loop itself stays below 160 |
| SlotWalkProofs.SpanCollects | shared/callbackSlots.ts:303-313 | within one interval the break at the horizon loses nothing: every existing start in reach is collected unless the day is full |
| SlotWalkProofs.NothingOpenIsPassedOver | shared/callbackSlots.ts:285-317 | an existing wall time on the grid of an open day in reach is offered, unless its day holds 32 or the list 128 |
| ComputeSlots.ComputeCallbackSlots | shared/callbackSlots.ts:267-326 | the nested loops with their dedupe set, overshoot and slice return the list that SlotMeaning.EachSlot and SlotMeaning.OpenTimeIsASlot describe |
| ComputeSlots.CollectInstants | shared/callbackSlots.ts:285-315 | the loop over days with its open-day count and caps collects what TimesShape and NothingOpenIsPassedOver describe |
| SlotMeaning.EachSlot | shared/callbackSlots.ts:257-332 | the list a visitor sees: strictly in order, at most 128 slots, 32 of a day, on no more days than offered and within 62; each prints a whole minute at most 30 days ahead, whole slots into an interval stored for its own local date, and can be picked exactly when it is five minutes away or more and has room for one more booking |
| SlotMeaning.OpenTimeIsASlot | shared/callbackSlots.ts:285-326 | a minute whole slots into a usable interval of one of the first open days, which some instant shows, is a slot of the list, unless that instant is over 30 days ahead, its day shows 32 slots or the list 128 |
| SlotMeaning.SettingsRead | shared/callbackSlots.ts:186-194 | slots of 10 to 240 minutes and 1 to 14 days, each setting cut to its range, 30 and 4 where there is none |
| SlotMeaning.FreeMeans | shared/callbackSlots.ts:319-325 | free means five minutes away or more and, with a capacity of one or more, room for another booking among those from a minute before the slot until a minute before the next |
| ComputeSlots.SlotsReadBack | shared/callbackSlots.ts:324-332 | every slot's `at` parses to the instant it was printed from |
| ComputeSlots.BookableMeans | shared/callbackSlots.ts:328-333 | a booking is accepted exactly when some free offered instant lies within a minute of the asked time |
| SlotMeaning.RequestTaken | shared/callbackSlots.ts:328-333 | a request adds its own time exactly when some offered instant within a minute of it may be picked, and otherwise changes nothing |
| SlotMeaning.ClosingFrees | shared/callbackSlots.ts:319-323 | closing a callback takes its booking out of every window it counted in, and leaves the others |
| BookingRuns.GrantedForOneSlot | shared/callbackSlots.ts:319-332 | with slots apart, a time accepted for one slot counts in that slot's window and in no other |
| BookingRuns.RunKeepsCapacity | shared/callbackSlots.ts:317-333 | over any run of requests and closed callbacks at any clocks, no slot's window holds more bookings than its capacity |
| BookingRuns.CloseSlotsOverbook | shared/callbackSlots.ts:319-332 | two offered instants closer than a slot's length: a run that puts capacity + 1 bookings in one window |
| BookingRuns.CapacityKeptIffSpaced | shared/callbackSlots.ts:317-333 | the capacity is kept over every run exactly when the instants ever offered are a slot's length apart |
| BookingRuns.AlignedHoursAreSpaced | shared/callbackSlots.ts:303 | hours on one grid of a slot length dividing the day are always apart in a zone whose offsets differ by whole slots |
| OverbookedHours.OverlapOverbooks | shared/callbackSlots.ts:300-324 | hours with two overlapping intervals, whose slots are not apart, and a run of bookings that puts two in a slot for one |
| OverbookedHours.OffGridOverbooks | shared/callbackSlots.ts:300-324 | the same for two intervals that follow each other off the grid |
| OverbookedHours.SpringForwardOverbooks | shared/callbackSlots.ts:303-308 | the same for one interval with slots of 45 minutes across a change of the clock by an hour |
| OverbookedHours.SpringForwardHalfHours | shared/callbackSlots.ts:303-308 | those hours with slots of half an hour are apart, so no run overbooks them |
| CallLoader.Loader.constructor | public/call-widget/l.js:82-86 | a loader starts the files at once when the page has loaded and asks for the bootstrap |
| CallLoader.Loader.LoadTheScripts | public/call-widget/l.js:90-104 | each path not yet in the page gets one script element, hashed or not as the build and staleness say |
| CallLoader.Loader.SettleOne | public/call-widget/l.js:105-116 | the last script of a round with a failed hashed one turns to the fixed names, otherwise a mount is tried |
| CallLoader.Loader.TryToMount | public/call-widget/l.js:197-215 | a mount happens when there is none yet, a bootstrap, nothing pending and a runtime |
| CallLoader.Loader.StartTheFiles | public/call-widget/l.js:239-242 | the files the bootstrap names, or the defaults, are asked for: those LoaderHistory.FilesInOrder and LoaderHistory.FilesAsked spell out |
| CallLoader.Loader.ScriptLoaded | public/call-widget/l.js:101 | a load event settles its script |
| CallLoader.Loader.ScriptFailed | public/call-widget/l.js:99-100 | an error settles its script and marks a failure if it was a hashed one |
| CallLoader.Loader.PageLoaded | public/call-widget/l.js:243-250 | the page's load event starts the files of a built loader that is not known to be off |
| CallLoader.Loader.BootstrapAnswered | public/call-widget/l.js:278-298 | an accepted answer is kept, starts the files and tries the mount; a passing failure is asked again once |
| CallLoader.Loader.RetryBootstrap | public/call-widget/l.js:258-264 | only the first call starts a timer |
| CallLoaderRuns.LoadAdds | public/call-widget/l.js:90-104 | loading adds exactly the paths not yet requested, each one element, and counts them |
| CallLoaderRuns.ApplyKeeps | public/call-widget/l.js:82-116 | every event keeps the loader's invariant |
| CallLoaderRuns.EveryRun | public/call-widget/l.js:82-303 | under every interleaving: pending equals the scripts in flight, the fallback fires at most once and leaves no hashed script in flight, one or two bootstrap requests, at most one mount and that with a bootstrap, a runtime and nothing in flight, at most ten elements |
| CallLoaderRuns.AtRest | public/call-widget/l.js:197-303 | a run at rest is mounted exactly when bootstrap and runtime are there, has asked for the registry and presentation the bootstrap names (the defaults where it names none) and the runtime, and turned to the fixed names exactly when a hashed script failed |
| CallLoaderRuns.EventSpends | public/call-widget/l.js:90-264 | every event that can happen makes a bounded measure smaller |
| CallLoaderRuns.RunsEnd | public/call-widget/l.js:90-264 | no run has more than 27 events |
| LoaderHistory.BootstrapHeard | public/call-widget/l.js:257-298 | over every run: the bootstrap kept is the body of the last answer when that was accepted; a second request is made exactly for a first answer of status 0, 429 or 500 and more; and the browser knows the widget as off exactly as the last answer that was no such failure says |
| LoaderHistory.FilesAsked | public/call-widget/l.js:72-100 | over every run: without a bootstrap the three default files are asked for once a build started, and none before; with one, the files it names, the default for each it does not name, and the runtime; an element on its way is hashed exactly when the build has a hashed copy and none failed |
| LoaderHistory.FilesInOrder | public/call-widget/l.js:88-136 | a round makes one element for each file not yet asked for, registry, presentation and runtime in that order |
| LoaderHistory.FallbackInOrder | public/call-widget/l.js:105-114 | so does the fallback round, for all three |
| LazyModules.LazyModule.Ask | public/call-widget/l.js:172-193 | a request is answered at once, joins the waiters of the load under way or starts one |
| LazyModules.LazyModule.ElementFailed | public/call-widget/l.js:186 | a failed element is replaced once by the fallback, then the waiters are told |
| LazyModules.LazyModule.CallWaiter | public/call-widget/l.js:146-151 | the next waiter is called: the SDK's with the answer read before the loop, the panel's with a fresh look |
| LazyModules.LazyModule.WaiterThrew | public/call-widget/l.js:150 | an exception of a waiter ends the loop: those behind it are lost |
| LazyModules.EveryRun | public/call-widget/l.js:141-194 | over any run with callbacks that ask again, define the module, take it away or throw: one load in flight, at most two elements a load, no callback called twice, each told the module's presence at its call or, for the SDK's waiters, at the end of their load; at rest each was called exactly once, if and only if no earlier one of its batch threw |
| LazyModules.CalledInTurn | public/call-widget/l.js:146-151 | those who wait for one load are called in the order they asked |
| LazyModules.AskedOnce | public/call-widget/l.js:142-145 | after any run, who asks is called at once when the module is there, otherwise waits behind those before; only the first makes an element, the hashed copy if there is one |
| LazyModules.ElementSettles | public/call-widget/l.js:181-187 | after any run, a hashed copy that fails is replaced by the fixed name and nobody is told; the fixed name failing, or any element loading, has everyone who waits called |
| LazyModules.LoopEnds | public/call-widget/l.js:146-151 | a loop that no exception ends calls everyone left, in order, and ends |
| LazyModules.StaleAnswer | public/call-widget/l.js:146-151 | a run in which the SDK's second waiter is told it is there and the panel's that it is not, after the first took it away |
| LazyModules.ThrowLosesTheNext | public/call-widget/l.js:179 | a run that comes to rest with a registered callback never called |
| Reactions.SummarizeReactions | shared/messageReactions.ts:92-123 | a message is in the answer exactly when it has a row; each emoji given is listed once, the allow-list in its order first and others by code units; its count is the number of its rows, the visitor's flag that a visitor row gives it, and the reader's own that a row of theirs does, an operator's by their own id |
| Reactions.PrecedesTotal | shared/messageReactions.ts:92-100 | the display order is total and leaves no ties between different emojis |
| Reactions.SummaryUnique | shared/messageReactions.ts:97-123 | the rows determine the summary list, order included |
| Reactions.AnotherOperator | shared/messageReactions.ts:118 | another operator's reaction never makes an entry the reader's own, nor takes one away |
| ReactionToggles.ApplyReactionToggle | shared/messageReactions.ts:141-164 | the edit in place returns the list that OptimisticScreen proves equal to the server's, a missing list read as empty |
| ReactionToggles.ToggleRefinesWrite | shared/messageReactions.ts:135-164 | one toggle of a summary is the summary of the rows after the reader's row is set or unset |
| ReactionToggles.TogglesRefineWrites | shared/messageReactions.ts:135-164 | the same after any sequence of toggles |
| ReactionToggles.OptimisticScreen | shared/messageReactions.ts:135-164 | the optimistic screen equals the list the server's rows summarise to, order included |
| ReactionToggles.WriteTwice | shared/messageReactions.ts:138-140 | the same write again leaves any rows as they are |
| ReactionToggles.WriteLeavesOthers | shared/messageReactions.ts:11-15 | a write leaves every other message and emoji as each reader sees it, and no other reader's own reaction comes or goes |
| ReactionToggles.RetryChangesNothing | shared/messageReactions.ts:138-140 | repeating a toggle leaves the screen, and repeating a write the rows, as they were |
| Luhn.LuhnValid | shared/cardTransfer.ts:37-49 | the loop from the right decides the validity whose error detection is proved, for any string |
| Luhn.ValidAddsUp | shared/cardTransfer.ts:36-49 | valid means 12 to 19 digits whose sum from the left, every second one from the right doubled and its digits added, ends in 0 |
| Luhn.SingleErrorCaught | shared/cardTransfer.ts:36-49 | changing any one digit of a valid number makes it invalid |
| Luhn.AdjacentSwapCaught | shared/cardTransfer.ts:36-49 | swapping two neighbours keeps a valid number valid exactly when they are equal or 0 and 9 |
| Luhn.OneCompletion | shared/cardTransfer.ts:36-49 | each prefix has exactly one completing digit |
| Iban.IbanChecksumValid | shared/cardTransfer.ts:58-66 | feeding digits into a remainder gives the whole expanded number modulo 97 |
| Iban.ValidLeavesOne | shared/cardTransfer.ts:58-74 | valid means that the account, 1827 and the check digits, read as one decimal number, leave 1 modulo 97 |
| Iban.SingleErrorCaught | shared/cardTransfer.ts:57-74 | changing any one of the 24 digits of a valid Iranian IBAN makes it invalid |
| Iban.SwapCaught | shared/cardTransfer.ts:57-74 | swapping any two unequal digits, however far apart and across the rotation, makes it invalid |
| CardTransfer.CardRoundTrip | shared/cardTransfer.ts:52-79 | a valid card number printed in fours normalises to itself |
| CardTransfer.IbanRoundTrip | shared/cardTransfer.ts:69-84 | a valid IBAN printed in fours normalises to itself |
| CardTransfer.IbanReadByDigits | shared/cardTransfer.ts:69-74 | an IBAN is read by its digits alone: case, spacing, hyphens and the country in front do not matter |
| CardTransfer.CardInAnyScript | shared/cardTransfer.ts:28-54 | a valid card number typed in Latin, Persian or Arabic digits, grouped or not, normalises to itself |
| CardTransfer.IbanInAnyScript | shared/cardTransfer.ts:69-74 | and so does an IBAN, with or without its country |
| CardTransfer.GroupedAt | shared/cardTransfer.ts:76-84 | printed in fours: every fifth character is a space, none is the last, and the others are the number in order |
| CardTransfer.SettingsCleaned | shared/cardTransfer.ts:92-112 | cleaning names the first part that is wrong, by its words or digits; otherwise it keeps the words of the names, the digits of the numbers and the default bank for none |
| CardTransfer.CleanAccepted | shared/cardTransfer.ts:92-112 | settings whose fields are clean, each number empty or valid and both there when enabled, are accepted as they are |
| CardTransfer.CleanedSettingsKept | shared/cardTransfer.ts:92-124 | accepted settings read back unchanged, and an accepted enabled method is complete: a name of two, sixteen digits and an IBAN |
| RevenueMonths.MonthKeysEnding | shared/simpleBillingAdmin.ts:344-351 | exactly `months` consecutive months, oldest first, ending with today's, for every calendar whose months have at most 31 days |
| RevenueMonths.WindowHoldsEveryMonth | shared/simpleBillingAdmin.ts:335-338 | every day up to today of a month shown lies inside the window that is read |
| Revenue.BucketRevenue | shared/simpleBillingAdmin.ts:488-582 | the maps updated in place give, for each listed currency and kept month, the row whose figures RowIsSumOfDays and the split lemmas state, zeros included, and the totals of TotalIsSumOfDays |
| RevenueLedger.CollectLedger | shared/simpleBillingAdmin.ts:556-568 | one ledger row for each month, currency and kind that has a kept movement, and no other; its count, what came in and what went out each the sum over those movements |
| RevenueLedger.LedgerIsSumOfDays | shared/simpleBillingAdmin.ts:556-568 | each figure of a ledger row is the sum of that figure over the kept movements of its month, currency and kind |
| RevenueReports.BucketReport | shared/simpleBillingAdmin.ts:488-604 | the whole report: the last `months` months; the currencies named by the edition, a kept day, a kept movement or a liability row and no other, each once and in the order first named; each currency's rows and a total that is the sum over its days in those months; and the ledger sums by month, then currency, then kind |
| RevenueProofs.RowIsSumOfDays | shared/simpleBillingAdmin.ts:521-554 | every figure of a row is the sum over the kept days of its month and currency, and net after refunds is net less refunded net |
| RevenueProofs.SplitsAddUp | shared/simpleBillingAdmin.ts:529-546 | by purpose, by provider and by source each add up to the row's payments |
| RevenueProofs.PurposeIsSumOfDays | shared/simpleBillingAdmin.ts:534-538 | each purpose's part is the sum over its own payments, and there only if it has one |
| RevenueProofs.ProviderIsSumOfDays | shared/simpleBillingAdmin.ts:539-542 | the same by provider, marked as a test gateway exactly when it is one |
| RevenueProofs.SourceIsSumOfDays | shared/simpleBillingAdmin.ts:543-546 | the same by source |
| RevenueProofs.OrderDoesNotMatter | shared/simpleBillingAdmin.ts:521-554 | the same days in another order give the same rows, splits included |
| RevenueProofs.TotalIsSumOfDays | shared/simpleBillingAdmin.ts:572-582 | a currency's total is the sum over all its kept days of the months shown |
| RevenueProofs.KeptDayIsShown | shared/simpleBillingAdmin.ts:493-528 | the currency of every kept day is listed, once, so its row is shown |
| RevenueProofs.RowShownAt | shared/simpleBillingAdmin.ts:572-582 | which row stands where in the report, with its own month and currency |
| EmailConfig.CanonicalConfig | shared/emailProviders.ts:162-179 | the field-by-field edit gives the config CanonicalFields and ModeKeptIff describe, for every provider |
| EmailConfig.CanonicalFields | shared/emailProviders.ts:155-179 | the old names are gone, each moved only into its own blank field, the switch into a blank encryption as ssl on port 465 and starttls elsewhere; every other field as it was |
| EmailConfig.ModeRead | shared/emailProviders.ts:132-153 | which protection a config asks for, by the text of its encryption in any case, port 465 and the old switch |
| EmailConfig.IntRead | shared/emailProviders.ts:146 | a port is read as its leading digits with their sign, and as no number without a digit |
| EmailConfig.CanonicalTwice | shared/emailProviders.ts:162-179 | a canonical config is canonical |
| EmailConfig.ModeKeptIff | shared/emailProviders.ts:138-179 | the rewrite keeps the protection of the connection exactly unless the switch was on beside an unknown, non-blank encryption off port 465 |
| EmailConfig.UnknownModeExample | shared/emailProviders.ts:145-179 | such a row: STARTTLS before, auto after |
| EmailConfig.WithEnvFallbacks | shared/emailProviders.ts:238-266 | the two loops give the config SmtpFields, KeyFields and PasswordGoesHome describe |
| EmailConfig.FilledFieldsStay | shared/emailProviders.ts:231-266 | a field that is not blank, or that no variable stands in for, is never touched |
| EmailConfig.SmtpFields | shared/emailProviders.ts:251-254 | host, port and user are each the config's, else the environment's |
| EmailConfig.PasswordStaysWithItsHost | shared/emailProviders.ts:255-264 | the password is the config's, else the environment's, else none |
| EmailConfig.PasswordGoesHome | shared/emailProviders.ts:92-104 | with none stored, the variable's password is used exactly when SMTP_HOST is set and is the resulting host but for case, and SMTP_PORT and SMTP_USER, where set, are the resulting port and user, a blank port standing for 587 |
| EmailConfig.KeyFields | shared/emailProviders.ts:72-76 | the other providers' key is the config's, else their own variable's; their other fields, and an unknown provider, stay |
| EmailConfig.EnvTwice | shared/emailProviders.ts:238-266 | filling in again changes nothing |
| Pem.ReadCertificates | shared/emailProviders.ts:192-204 | the loop over matches, with its early refusals, accepts exactly what AcceptedIsWritten and WrittenCertificates describe |
| Pem.WrittenCertificates | shared/emailProviders.ts:181-204 | certificates with any white space around and between them are read by their bodies alone, refused when a body is not base64 |
| Pem.AcceptedIsWritten | shared/emailProviders.ts:183-204 | nothing else is accepted: no other text before, between or after |
| Pem.WhiteSpaceDoesNotMatter | shared/emailProviders.ts:198 | adding or removing white space inside bodies or around certificates never changes the result |
| Pem.Lines | shared/emailProviders.ts:200 | every line has at most 64 characters and all but the last exactly 64 |
| Pem.LineAt | shared/emailProviders.ts:200 | printed, every 65th character ends a line, none is the last, and the others are the body in order |
| Pem.OneCertificate | shared/emailProviders.ts:181-204 | a certificate between the two markers, with any white space around it and in it, reads as the markers and its body in lines, or is refused |
| Pem.BodyMeans | shared/emailProviders.ts:199 | a body is taken exactly when it has whole fours of the alphabet, one at least, with at most two equals signs at the end |
| Pem.ReadBack | shared/emailProviders.ts:183-204 | what was read, printed one after another, parses to the same list |
| TemplateOptions.CleanTwice | shared/chatTemplateCatalog.ts:59-74 | cleaning cleaned text changes nothing |
| TemplateOptions.CleanTemplateText | shared/chatTemplateCatalog.ts:65-74 | the loop over code points gives the text CleanTwice proves settled |
| TemplateOptions.NameReadTwice | shared/chatTemplateCatalog.ts:359-367 | reading a name that was read gives it back exactly when the cut at 40 did not fall just after a space; no name is lost |
| TemplateOptions.ReadNames | shared/chatTemplateCatalog.ts:359-367 | each language with a name that is not blank, cleaned and cut |
| TemplateOptions.CheckOption | shared/chatTemplateCatalog.ts:227-269 | the loops with their refusals and skips give the value that CheckedTwice proves settled, or a refusal |
| TemplateOptions.CheckedTwice | shared/chatTemplateCatalog.ts:221-269 | a value that was cleaned is valid and cleans to itself, the raw-length guard included |
| TemplateOptions.ReadTemplateOptions | shared/chatTemplateCatalog.ts:275-284 | exactly the valid values of the keys asked for |
| TemplateOptions.CleanTemplateOptionsInput | shared/chatTemplateCatalog.ts:291-305 | accepted exactly when absent or an object whose known keys are all valid, and then as the lenient reader reads it; else the first bad key is named |
| TemplateOptions.OptionsReadBack | shared/chatTemplateCatalog.ts:275-284 | options stored after cleaning read back as they are |
| TextWords.TidyJoinsWords | shared/chatTemplateCatalog.ts:73 | replacing runs of white space and trimming leaves the words of a text with one space between them |
| TemplateMeaning.TypedText | shared/chatTemplateCatalog.ts:65-74 | a typed text is its words, a name its first forty characters |
| TemplateMeaning.OptionTakes | shared/chatTemplateCatalog.ts:227-269 | exactly which values each option takes: one of its list, a yes or no, at most four chips or two questions that are all good |
| TemplateMeaning.OptionMakes | shared/chatTemplateCatalog.ts:227-269 | what an option makes of a value: the rows that are not blank, in order, each chip with its icon |
| TemplateMeaning.KeysOfTemplates | shared/chatTemplateCatalog.ts:161-169 | which options each template reads |
| TemplateMeaning.UntouchedOptions | shared/chatTemplateCatalog.ts:183-201 | what a widget wears when nobody has set anything |
| TemplateMeaning.UntouchedEntry | shared/chatTemplateCatalog.ts:384-396 | what the catalog then holds |
| TemplateCatalog.ResolveCatalog | shared/chatTemplateCatalog.ts:378-405 | map, sort, find and the forced default give the catalog CatalogShape describes |
| TemplateCatalog.NameReadsBack | shared/chatTemplateCatalog.ts:343-357 | an offered template's stored name names it again |
| TemplateMeaning.IdNames | shared/widgetTemplates.ts:176-192 | a text names an offered template exactly when it spells its id in any case, white space aside, or the Iran kit's old name of the default |
| TemplateCatalog.CatalogShape | shared/chatTemplateCatalog.ts:373-405 | for any stored value: each offered id once, sorted by order then position, enabled as stored or as the default, and the default enabled and the stored one unless that is disabled, unknown or not offered |
| TemplateMeaning.EntryReads | shared/chatTemplateCatalog.ts:384-394 | an entry is enabled as its stored flag says, without one when it is its edition's first, and as the default in any case; its order is the stored whole number from 0 to 99, else its place |
| TemplateMeaning.EntriesStand | shared/chatTemplateCatalog.ts:395 | entries stand by order, then as the edition lists them |
| TemplateMeaning.DefaultReads | shared/chatTemplateCatalog.ts:396-405 | the default is the template the stored text names when that is offered and enabled in the row, else the edition's first |
| TemplateCatalog.WornIsEnabled | shared/chatTemplateCatalog.ts:417-430 | a workspace always wears an enabled offered template: its choice while enabled and allowed, else the default |
| TemplateCatalog.WidgetOptionsLayered | shared/chatTemplateCatalog.ts:432-456 | the widget gets exactly the keys its template reads: the workspace's value if valid, else the stored one if valid, else the code's, the transcript forced off |
| TemplateSaves.SaveCatalog | shared/chatTemplateCatalog.ts:486-539 | the loop with its seen set stops at the first problem and otherwise stores the row SaveReadsBack describes |
| TemplateSaveProofs.AcceptedIff | shared/chatTemplateCatalog.ts:509-538 | accepted exactly when every template is offered, under its own name, once, with valid order, names and options, and the requested default ends up enabled |
| TemplateMeaning.SaveTakes | shared/chatTemplateCatalog.ts:509-538 | the same in the body's own terms: orders from 0 to 99, names of at most 40 characters, valid options, and the default enabled then |
| TemplateMeaning.ExactlyNames | shared/chatTemplateCatalog.ts:511 | a body must spell an offered id itself, in any case, the old name not counting |
| TemplateMeaning.RefusalIsTrue | shared/chatTemplateCatalog.ts:509-538 | a refusal names the first template that is wrong and what is wrong with it, or says truly that none, or not the default, would be enabled |
| TemplateSaveProofs.SaveReadsBack | shared/chatTemplateCatalog.ts:378-405 | an accepted save reads back with the requested default, flags, orders, names and options; an id it leaves out reads as it was stored before |
| TemplateMeaning.RequestedReads | shared/chatTemplateCatalog.ts:515-534 | what it was asked for: the flag, the order or its place, the words of each name, each option when valid, else the code's |
| TemplateSaveProofs.ResaveIff | shared/chatTemplateCatalog.ts:480-539 | saving the same body on its own result stores the same row exactly when no kept name had been cut just after a space |
| TemplateSaveProofs.ResaveExample | shared/chatTemplateCatalog.ts:502-503 | a row and a body for which it does not |
| TemplateSaveProofs.SecondResaveSettles | shared/chatTemplateCatalog.ts:480-539 | the third save of the same body never changes anything |
| Precache.PwaBuild.AddWithImports | vite.config.ts:47-53 | the recursion ends on cyclic imports and adds exactly what imports reach, closed under imports |
| Precache.PwaBuild.CollectCore | vite.config.ts:54-58 | core is exactly the chunks static imports reach from entries and locale files |
| Precache.PwaBuild.GenerateBundle | vite.config.ts:45-74 | core is what imports reach, and the two lists, sorted as text, are those EachChunkOnce, EachAssetOnce and NothingElseListed describe |
| Precache.CoreIsLeast | vite.config.ts:46-58 | the core is the least set with every entry and locale chunk that holds what its own chunks import |
| Precache.EachChunkOnce | vite.config.ts:62-72 | every chunk is listed exactly once, at install when it is core, later otherwise, beside the page's own two URLs |
| Precache.EachAssetOnce | vite.config.ts:66-71 | a style sheet or small media file is listed once at install, any other asset nowhere, beside the page's own two URLs |
| Precache.LocaleModuleIs | vite.config.ts:41 | a locale file is two small letters and .ts in the locales folder |
| Precache.MediaIs | vite.config.ts:39 | a media file has one of ten extensions, in any case |
| Precache.NothingElseListed | vite.config.ts:60-74 | every URL listed is the page's or a file of the bundle |
| Packs.CleanLabels | shared/aiPacks.ts:109-122 | whatever order the label's keys come in, the outcome is the same, and a refusal names a key that is not valid |
| Packs.ValidateAiPacks | shared/aiPacks.ts:81-128 | the nested loops decide the validation ValidPacks, ValidateTwice and SavedPacksOffered describe; a refusal names a currency, item or part that is wrong for its reason, all items before it being packs |
| Packs.ValidPacks | shared/aiPacks.ts:81-128 | an accepted save has every currency of the edition and no other, at most eight packs each, their ids different |
| PackMeaning.PackIs | shared/aiPacks.ts:91-125 | exactly which items are packs: the id, price, credit, flag and labels allowed, by currency, and what each becomes |
| PackMeaning.SavedPacks | shared/aiPacks.ts:81-128 | a save is accepted exactly when its keys are the edition's currencies, each with no packs or at most eight good ones with different ids, and stores those |
| PackMeaning.RefusalIsTrue | shared/aiPacks.ts:90-123 | the part a refusal names is really at fault: no id, price, credit, flag or label a pack may have, or an id an item before has |
| Packs.ValidateTwice | shared/aiPacks.ts:75-128 | what is accepted is accepted again and left as it is |
| Packs.ActivePacks | shared/aiPacks.ts:135-157 | the defensive loop, which skips malformed and repeated entries, offers what SavedPacksOffered describes |
| Packs.SavedPacksOffered | shared/aiPacks.ts:130-157 | of an accepted save exactly the active packs are offered, in order, labels and all |
| PackMeaning.OfferedAre | shared/aiPacks.ts:135-157 | whatever is stored: of the items with one id the first well-formed one that is not switched off is offered, and nothing else |
| PackConversion.WalletMonotone | shared/aiPacks.ts:170-175 | more in the wallet never shows as less |
| PackConversion.CreditMeans | shared/aiPacks.ts:178-181 | a credit adds the nearest whole number to its major units times the rate, a hundred minor units to a major one except for the Rial |
| PackConversion.WalletMeans | shared/aiPacks.ts:170-175 | a wallet shows the minor units it is worth, rounded down, a billionth short counting as whole, and none below one |
| PackConversion.ShownCredit | shared/aiPacks.ts:165-181 | above half a wallet unit per minor unit a pack's credit shown back is the credit or one minor unit less, never more, and the credit exactly when rounding lost no more than the epsilon |
| PackConversion.CoarseRateMisshows | shared/aiPacks.ts:170-181 | at every rate up to half a wallet unit per minor unit a named credit shows as more than itself or as at least two less |
| PackConversion.CreditsShownIff | shared/aiPacks.ts:165-181 | every credit shows as itself or one less exactly at the rates that are not coarse |
| PackConversion.HalfRateExample | shared/aiPacks.ts:170-181 | at half a wallet unit per minor unit one is bought and two are shown |
| PackConversion.WholeRateExact | shared/aiPacks.ts:165-181 | at a whole number of wallet units per minor unit nothing is lost |

## Left out

- Time zones are functions from a UTC minute to an offset in whole minutes below a day; the zone database, the choice of zone and its fallbacks, and the formatter cache are not modelled.
- Timestamps.IsoWithOffset: years of four digits from 100 on only, since earlier and later ones print no four-digit date; the slot list asks for a clock in that range.
- ComputeSlots.BookableMeans: what Date.parse makes of a visitor's text and of stored bookings is a parameter (a number or nothing), apart from the printed form.
- BookingRuns.RunKeepsCapacity: one request at a time; two requests that compute the list before either is stored are not modelled.
- Sorting is a stable insertion sort with the source's comparator; strings are code points with UTF-16 lengths where the source counts units, except emojis, which are code units.
- toLowerCase and toUpperCase change the Latin letters only, where the source compares with Latin text.
- The loader's files are numbered; URLs, suffixes and version tokens, storage that throws, the delay before a retry, and what the presentation draws are left out.
- LazyModules.EveryRun: the two lazy loaders are one class, whose `sticky` flag says whether the answer read before the loop is passed on; an exception of a callback called at once is its caller's, which asked for it.
- CallLoader.Loader.RetryBootstrap: the wait it picks is not modelled, only that there is one.
- A row of reactions is malformed or well formed; the emoji allow-list's own cleaning and the rules on who may react are left out.
- CardTransfer.CardRoundTrip: card formatting and IBAN formatting are one scanner for their two patterns.
- RevenueReports.BucketReport: liability rows add their currencies to the list and are otherwise passed through unmodelled; months are numbered, with the two calendars as one assumption on month lengths, and localeCompare on ledger kinds is any total order.
- EmailConfig.CanonicalConfig: a number carries its printed form; fields the rewrite does not name are any others.
- Regular expressions (PEM, HH:mm, digit groups, locale modules, pack ids) are written as scanners and predicates.
- TemplateSaves.SaveCatalog: property names are constructors, one for each place they are read in, so an object cannot hold one name in two roles; the id reported with a problem is the template's.
- Packs.ValidateAiPacks: of several unknown currencies, or several invalid keys of one label, any may be named, since the first depends on the order of an object's keys.
- PackConversion.ShownCredit: exact arithmetic, with the epsilon as a constant; the noise of binary floating point is not modelled.
- PackConversion.CreditsShownIff: nothing is claimed for rates within about a billionth above half a wallet unit per minor unit, where the epsilon makes it depend on the fractions the rate's multiples have.
- Precache.PwaBuild.GenerateBundle: the build id and the service worker's text are left out.
- The small resolvers, the routes, the gateways and everything that draws are case tables, input and output, or plumbing.
