# Nodi: a Dafny model of the blocking core

Nodi is a Firefox extension. It blocks distracting sites in two ways:

- by **location**: zones are circles on a map, each with its own blocklist, allowlist and weekly schedule;
- by a **Pomodoro timer**: a focus session blocks a timer blocklist, and a break can allow everything.

This project models the extension's shared utilities (`src/common/utils.ts`) and the two listeners of its background script (`src/background/index.ts`):

- **Host matching** (`HostMatch`, over the string helpers in `Text`). This is `parseBlocklist`, `domainMatches`, `domainAllowed` and `extractDomain`, written on the URL's host. A host that does not parse is `None`.
- **The schedule window** (`Schedule`). This is `isWithinSchedule`, with the wall-clock reading passed in as a `Clock`.
- **Settings** (`Settings`). This covers `isMonitoringActive` and `getMonitoringStatus`, and the way `getSettings` turns an expired snooze or disable deadline into `null`.
- **The timer** (`Timer`). `PomodoroTimer` is a record. `saveTimerState` merges a patch into it. `startTimer`, `pauseTimer`, `resumeTimer`, `resetTimer` and `completeTimerSession` are transformers over that record. `calculateRemainingTime`, `shouldBlockByTimer` and `isTimerAllowingAll` are functions of it.
- **Statistics** (`Stats`). This covers the daily record, its lazy reset in `getStatistics`, and `recordBlockedSite`. That function bumps the global and per-zone site lists, then sorts them by count and keeps the top ten.
- **Zones** (`Zones`). This covers `createZone`, `updateZone`, `deleteZone` and `toggleZone` on the zone list.
- **Time display** (`TimeFormat`). This is `formatTime`, with JavaScript's truncating `%` written out as `JsRem`.
- **The decision** (`Decision`). This is the guard chain and first-match zone loop of the tab listener, as a pure function `Decide`.
- **Storage** (`Storage.Store`). `browser.storage.local` is a class whose fields are the storage keys. Every asynchronous helper that reads and writes storage is a method on it. Each method states its new state in terms of the pure functions above. The invariant `Valid()` says that the stored timer is valid and that every site list is short, sorted and free of repeated domains. Every method and both listeners keep it, except `SaveTimerState`, which writes whatever patch it is given and keeps it only when the merged timer is valid.
- **The listeners** (`Background`). `OnTabUpdated` and `OnAlarm` are methods on the store. `FindBlockingZone` is the zone loop, proved equal to the first-match search `Search.FirstIndex`.

The model keeps several behaviours that look unintended, exactly as the source has them:

- A pattern starting with `www.` does not match the very host it names, because the host loses its `www.` and the pattern keeps it (`HostMatch.WwwPatternMissesWwwHost`).
- A domain blocked for the first time is dropped at once when the list already holds ten sites (`Stats.NewDomainDroppedWhenListFull`).
- The choice of long or short break uses the session counter from before the increment. So the first focus session after a reset is followed by a long break (`Timer.FirstFocusAfterResetIsLong`).
- Resuming always continues as focus, even a paused break. The remaining time is then counted again from the full focus duration (`Timer.ResumeRestartsFocus`).
- `formatTime` of a negative number shows a minus sign in the minutes and another in the seconds, such as `-1:-5` for -5. A whole number of minutes shows a single sign, such as `-1:00` for -60 (`TimeFormat.NegativeSecondsShowSigns`).

The JavaScript sort is stable. `Stats.SortByCount` is an insertion sort that places each site after every site whose count is at least its own, so it orders ties the same way.

Time is in milliseconds, as from `Date.now()`. Durations are in seconds. Integers are unbounded, since every quantity in the source stays far below 2^53.

## Model

| member | source | states |
|---|---|---|
| Text.TrimStartIsSuffix | src/common/utils.ts:52 | `trim`'s left half removes a prefix only |
| Text.TrimEndIsPrefix | src/common/utils.ts:52 | `trim`'s right half removes a suffix only |
| Text.TrimProperties | src/common/utils.ts:52 | a trimmed string has no whitespace at either end, is no longer than its input, and trimming twice is trimming once |
| Text.TrimmedIsFixed | src/common/utils.ts:64 | trimming a string with no whitespace at either end leaves it unchanged |
| Text.ToLower | src/common/utils.ts:52 | lower-casing keeps the length and maps each character independently |
| Text.LowerCharKeepsWhitespace | src/common/utils.ts:64 | lower-casing neither creates nor removes whitespace |
| Text.LowerCommutesWithTrim | src/common/utils.ts:52-64 | `trim().toLowerCase()` in `parseBlocklist` equals `toLowerCase().trim()` in the matchers |
| Text.TrimStartLower | src/common/utils.ts:52 | lower-casing commutes with trimming the start |
| Text.TrimEndLower | src/common/utils.ts:52 | lower-casing commutes with trimming the end |
| Text.Trim | src/common/utils.ts:52 | `trim`: stated by `Text.TrimProperties`, `Text.TrimStartIsSuffix` and `Text.TrimEndIsPrefix` |
| Text.Split | src/common/utils.ts:51 | `split` always returns at least one piece |
| Text.JoinSplit | src/common/utils.ts:51 | joining the pieces of `split` with the separator gives back the text |
| Text.SplitPiecesHaveNoSeparator | src/common/utils.ts:51 | no piece of `split` contains the separator |
| HostMatch.NormalizeHost | src/common/utils.ts:62 | the host as compared, `www.` removed then lower-cased: matched by `HostMatch.MatchSingleEntry` and `HostMatch.DomainMatches` |
| HostMatch.NormalizePattern | src/common/utils.ts:64 | an entry as compared, lower-cased then trimmed: `Text.LowerCommutesWithTrim` shows it agrees with `parseBlocklist`'s order |
| HostMatch.HostMatchesPattern | src/common/utils.ts:63-66 | one entry's test, equal or a dotted suffix: stated by `HostMatch.MatchSingleEntry` and `HostMatch.SubdomainMatches` |
| HostMatch.StripWww | src/common/utils.ts:62 | only a leading `www.` is removed, and only once |
| HostMatch.AnyMatches | src/common/utils.ts:63-66 | `some` holds exactly when one entry is the host or a parent domain of it |
| HostMatch.DomainMatches | src/common/utils.ts:75-86 | true exactly when the URL parses and some entry, lower-cased and trimmed, equals the normalised host or ends it after a dot |
| HostMatch.DomainAllowed | src/common/utils.ts:59-70 | the same condition as `domainMatches`, over the allowlist: the URL parses and some entry equals the normalised host or ends it after a dot |
| HostMatch.NoMatchWithoutHostOrList | src/common/utils.ts:75-86 | an unparsable URL or an empty list never matches |
| HostMatch.MatchSingleEntry | src/common/utils.ts:79-82 | a one-entry list matches exactly the entry itself and its subdomains |
| HostMatch.MatchesConcat | src/common/utils.ts:78 | matching a concatenated list is matching either part |
| HostMatch.SubdomainMatches | src/common/utils.ts:78-82 | any subdomain of a normalised pattern, in any case, is matched by it |
| HostMatch.StrippedSubdomainEndsWithPattern | src/common/utils.ts:78 | stripping `www.` from a subdomain leaves the pattern or a dotted suffix of it |
| HostMatch.PatternMatchesItself | src/common/utils.ts:75-86 | a pattern without `www.` matches its own host and its `www.` host |
| HostMatch.WwwPatternMissesWwwHost | src/common/utils.ts:78-81 | a pattern starting with `www.` does not match the very host it names |
| HostMatch.ExtractDomain | src/common/utils.ts:91-98 | the normalised host, or `"unknown"` when the URL does not parse |
| HostMatch.LowerIsIdempotent | src/common/utils.ts:62 | lower-casing twice is lower-casing once |
| HostMatch.LowerOfLowerIsSame | src/common/utils.ts:64 | a lower-case string is unchanged by lower-casing |
| HostMatch.NormalPatternIsLower | src/common/utils.ts:52 | a trimmed, lower-cased entry is lower case |
| HostMatch.TrimKeepsCharacters | src/common/utils.ts:52 | trimming introduces no character |
| HostMatch.CleanEntries | src/common/utils.ts:52-53 | `filter(Boolean)` keeps no empty entry and never lengthens the list |
| HostMatch.ParseBlocklist | src/common/utils.ts:49-54 | split on commas, trimmed, lower-cased, empty entries dropped: stated by `HostMatch.ParsedEntriesAreNormal` and `HostMatch.CleanEntriesMembership` |
| HostMatch.ParsedEntriesAreNormal | src/common/utils.ts:49-54 | every parsed entry is non-empty, lower case, trimmed and comma-free |
| HostMatch.CleanEntriesAreNormal | src/common/utils.ts:52-53 | each kept entry is normalised and has no comma |
| HostMatch.CleanEntryKeepsCommaFree | src/common/utils.ts:52 | normalising a comma-free piece keeps it comma-free |
| HostMatch.CleanEntriesMembership | src/common/utils.ts:52-53 | an entry is kept exactly when it is non-empty and is the normalised form of some piece |
| HostMatch.CleanEntryIsNormal | src/common/utils.ts:52 | a normalised piece is trimmed and lower case |
| Schedule.IsWithinSchedule | src/common/utils.ts:103-124 | stated by `Schedule.DisabledAlwaysHolds` and, in both directions, `Schedule.EnabledHoldsIff` |
| Schedule.DisabledAlwaysHolds | src/common/utils.ts:104-106 | a disabled schedule always holds |
| Schedule.EnabledHoldsIff | src/common/utils.ts:108-123 | an enabled schedule holds exactly on a listed weekday within the minute window |
| Schedule.WindowIsInclusive | src/common/utils.ts:119-123 | the start and end minutes both belong to the window |
| Schedule.InvertedWindowNeverHolds | src/common/utils.ts:119-123 | a window ending before it starts never holds, so there is no overnight wrap |
| Schedule.NoDaysNeverHolds | src/common/utils.ts:114-116 | an enabled schedule with no days never holds |
| Settings.IsMonitoringActive | src/common/utils.ts:428-434 | on, and neither deadline in force: stated by `Settings.GetMonitoringStatus` (active exactly when it holds) and `Settings.DeadlinesExpire` |
| Settings.GetMonitoringStatus | src/common/utils.ts:439-445 | the four states partition the inputs, each with its condition in both directions; only `disabled` and `snoozed` carry an expiry, and it lies in the future; the state is `active` exactly when `isMonitoringActive` holds |
| Settings.ReadDeadline | src/common/utils.ts:234-247 | a kept deadline is the stored, non-zero one, not yet passed; a truthy deadline not yet passed is kept |
| Settings.ReadDeadlineKeepsInForce | src/common/utils.ts:234-247 | clearing expired deadlines does not change whether monitoring is paused |
| Settings.ReadDeadlineIsIdempotent | src/common/utils.ts:234-239 | reading the settings twice at one instant clears nothing more |
| Settings.DeadlinesExpire | src/common/utils.ts:428-445 | once both deadlines have passed, enabled monitoring is active again, with no expiry |
| Stats.FreshStatistics | src/common/utils.ts:266-302 | a new day starts with zero counts, empty lists and both timestamps at `now` |
| Stats.ReadStatistics | src/common/utils.ts:262-318 | absent or stale statistics read as a fresh record; anything else is returned as stored |
| Stats.FindSite | src/common/utils.ts:327-352 | `find` returns the first entry for the domain, or none when no entry has it, through `Search.FirstIndex` |
| Stats.BumpSite | src/common/utils.ts:327-358 | an existing entry gets one more count and the new time (and the zone id when given); otherwise one entry with count 1 is appended; every other entry is unchanged |
| Stats.InsertByCount | src/common/utils.ts:371 | inserting one site lengthens the list by one |
| Stats.InsertIsPermutation | src/common/utils.ts:371 | insertion adds exactly that one site |
| Stats.InsertBounded | src/common/utils.ts:371 | insertion keeps an upper bound on the counts |
| Stats.InsertKeepsSorted | src/common/utils.ts:371 | inserting into a list sorted by non-increasing count keeps it sorted |
| Stats.SortByCount | src/common/utils.ts:361-371 | sorting keeps the length |
| Stats.SortIsPermutation | src/common/utils.ts:361-371 | sorting is a permutation |
| Stats.SortIsSorted | src/common/utils.ts:361-371 | the result is sorted by non-increasing count |
| Stats.KeepTopShape | src/common/utils.ts:360-372 | sort-and-slice gives a sorted list of at most ten sites, all taken from the input |
| Stats.KeepTop | src/common/utils.ts:371-372 | sort by count, keep ten: stated by `Stats.KeepTopShape`, `Stats.KeepTopLength`, `Stats.KeepTopIsSubMultiset` and `Stats.KeptDominatesDropped` |
| Stats.KeepTopIsSorted | src/common/utils.ts:371-372 | the kept list is sorted |
| Stats.KeepTopLength | src/common/utils.ts:372 | the kept list has ten entries, or all entries when there are fewer |
| Stats.KeepTopIsSubMultiset | src/common/utils.ts:371-372 | the kept list keeps only sites of the input |
| Stats.KeptDominatesDropped | src/common/utils.ts:371-372 | every kept site has a count at least that of every dropped one |
| Stats.PrefixDominatesRest | src/common/utils.ts:372 | in a sorted list, the prefix dominates everything after it |
| Stats.InsertSmallestAppends | src/common/utils.ts:371 | a site with the smallest count goes last, after ties, as a stable sort places it |
| Stats.NewDomainDroppedWhenListFull | src/common/utils.ts:327-372 | with ten or more sites already listed, a domain's first block leaves it out of the kept list |
| Stats.KeepTopIgnoresSmallestLast | src/common/utils.ts:371-372 | appending a smallest site to a full list does not change what is kept |
| Stats.SortOfAppend | src/common/utils.ts:371 | sorting a list with one site appended is inserting that site into the sorted list |
| Stats.SortKeepsLowerBound | src/common/utils.ts:371 | sorting keeps a lower bound on the counts |
| Stats.RecordInZone | src/common/utils.ts:340-363 | the zone's record is created if missing and counts one more block; every other zone is unchanged |
| Stats.RecordBlocked | src/common/utils.ts:323-375 | one more block in total, one more block during focus exactly for a timer block, the other timer counters and the session start unchanged, and `lastUpdated` at `now`; the lists are stated by `Stats.RecordBlockedCountsSite`, `Stats.RecordBlockedCountsZoneSite` and `Stats.RecordBlockedKeepsListsShort` |
| Stats.RecordBlockedKeepsListsShort | src/common/utils.ts:360-372 | after a block the global list and the zone's list are sorted, hold at most ten sites, and hold only sites of the bumped list |
| Stats.RecordBlockedCountsSite | src/common/utils.ts:327-372 | in a well-formed record, when the domain is listed or fewer than ten sites are, the global list afterwards has an entry for it counting one more block than before (1 if new) at `now` |
| Stats.RecordBlockedCountsZoneSite | src/common/utils.ts:340-372 | the same for the zone's list, for a truthy zone id |
| Stats.BumpKeepsKeptList | src/common/utils.ts:327-372 | bumping then sort-and-slice keeps a list short, sorted and free of repeated domains |
| Stats.BumpedSiteIsKept | src/common/utils.ts:327-372 | when the domain is listed or there is room, nothing is dropped and the domain's entry counts one more block at `now` |
| Stats.BumpKeepsDistinct | src/common/utils.ts:327-337 | bumping adds no second entry for a domain |
| Stats.InsertKeepsDistinct | src/common/utils.ts:371 | inserting a site of a new domain keeps the domains distinct |
| Stats.SortKeepsDistinct | src/common/utils.ts:371 | sorting keeps the domains distinct |
| Stats.KeepTopKeepsDistinct | src/common/utils.ts:371-372 | sort-and-slice keeps the domains distinct |
| Stats.RecordBlockedZoneStats | src/common/utils.ts:340-363 | only a truthy zone id gains a zone record or a block; every other zone record is unchanged |
| Stats.FreshIsWellFormed | src/common/utils.ts:289-300 | a fresh record is well formed |
| Stats.RecordBlockedKeepsWellFormed | src/common/utils.ts:323-375 | recording a block keeps every site list short, sorted and free of repeated domains |
| Timer.MergeTimer | src/common/utils.ts:419-423 | each runtime field takes the patch's value when given, else keeps its own; the configuration is untouched |
| Timer.MergeLaws | src/common/utils.ts:419-423 | an empty patch changes nothing, and two merges in a row are one merge of the combined patch |
| Timer.DefaultTimer | src/common/utils.ts:136-157 | the default durations (1500, 300, 900 s), interval 4, idle at session 0, the default settings and the five default blocked sites |
| Timer.Duration | src/common/utils.ts:488-501 | the break's own length for a break, the focus length for every other state |
| Timer.RemainingTime | src/common/utils.ts:451-479 | the stored remaining seconds when not running, otherwise never negative |
| Timer.ElapsedIsMonotone | src/common/utils.ts:457 | whole elapsed seconds never decrease as time passes |
| Timer.RemainingIsNonIncreasing | src/common/utils.ts:451-479 | the remaining time never grows as time passes |
| Timer.RemainingDuringSecond | src/common/utils.ts:457-478 | while running, during the k-th whole second since the start, exactly the duration less k remains, and never less than zero |
| Timer.RemainingAtStart | src/common/utils.ts:457-478 | within the first second of a run the whole (non-negative) duration remains |
| Timer.RemainingAfterDuration | src/common/utils.ts:474-478 | once the duration has elapsed, nothing remains |
| Timer.Start | src/common/utils.ts:485-511 | starts the given state now, with its full duration remaining, no pause, and the session counter unchanged |
| Timer.Pause | src/common/utils.ts:516-525 | pauses now, storing the time that remained at that instant |
| Timer.Resume | src/common/utils.ts:530-538 | continues from now as focus if paused, else in the same state, clearing the pause |
| Timer.Reset | src/common/utils.ts:543-554 | goes idle at session 0 with the whole focus duration remaining and no timestamps |
| Timer.PauseFreezesRemaining | src/common/utils.ts:516-525 | after a pause the remaining time no longer changes |
| Timer.ResumeRestartsFocus | src/common/utils.ts:530-538 | resuming a paused timer runs focus with the full focus duration remaining |
| Timer.RemainingAfterStart | src/common/utils.ts:485-511 | right after a start the whole duration remains |
| Timer.ResetIsIdempotent | src/common/utils.ts:543-554 | resetting twice is resetting once |
| Timer.DefaultIsReset | src/common/utils.ts:543-554 | the default timer is already reset |
| Timer.Complete | src/common/utils.ts:559-660 | the completion by state: stated by `Timer.CompleteFocus`, `Timer.CompleteBreak`, `Timer.CompleteIdleOrPaused` and `Timer.CompleteKeepsValid` |
| Timer.AfterFocus | src/common/utils.ts:570-612 | the writes after focus: stated by `Timer.CompleteFocus`, `Timer.AfterFocusKeepsValid` and `Timer.AfterFocusIsNotDue` |
| Timer.AfterBreak | src/common/utils.ts:623-644 | the writes after a break: stated by `Timer.CompleteBreak`, `Timer.AfterBreakKeepsValid` and `Timer.AfterBreakIsNotDue` |
| Timer.CompleteFocus | src/common/utils.ts:564-616 | completing focus counts one session and its focus time and increments the counter, then either starts the long or short break (chosen on the counter before the increment) or goes idle with that break's length |
| Timer.CompleteBreak | src/common/utils.ts:617-657 | completing a break leaves the statistics and counter alone, then starts focus or goes idle with the focus length |
| Timer.CompleteIdleOrPaused | src/common/utils.ts:559-660 | completing an idle or paused timer changes nothing |
| Timer.FirstFocusAfterResetIsLong | src/common/utils.ts:578-584 | the focus session after a reset is followed by a long break |
| Timer.DefaultIsValid | src/common/utils.ts:136-157 | the default timer is valid |
| Timer.ValidRemainingIsNonNegative | src/common/utils.ts:451-479 | a valid timer never reports negative remaining time |
| Timer.OperationsKeepValid | src/common/utils.ts:485-554 | start, pause, resume and reset keep the timer valid |
| Timer.CompleteKeepsValid | src/common/utils.ts:559-660 | completion keeps the timer valid and its configuration unchanged |
| Timer.AfterFocusKeepsValid | src/common/utils.ts:570-612 | the writes after focus keep the timer valid |
| Timer.AfterFocusKeepsConfig | src/common/utils.ts:570-612 | the writes after focus leave the configuration alone |
| Timer.AfterBreakKeepsValid | src/common/utils.ts:623-644 | the writes after a break keep the timer valid and its configuration |
| Timer.SessionDue | src/background/index.ts:44-50 | the alarm's test, running with no time left: stated by `Timer.CompleteIsNotDueAgain` and `Background.OnAlarm` |
| Timer.CompleteIsNotDueAgain | src/background/index.ts:44-50 | with positive durations, a completed session is not due again at the same instant, so an alarm completes it once |
| Timer.AfterFocusIsNotDue | src/common/utils.ts:587-612 | after focus, the next state is not due at once |
| Timer.AfterBreakIsNotDue | src/common/utils.ts:623-644 | after a break, the next state is not due at once |
| Timer.ShouldBlockByTimer | src/common/utils.ts:674-685 | stated in both directions by `Timer.TimerBlockIff` |
| Timer.IsTimerAllowingAll | src/common/utils.ts:690-693 | a break with `allowedDuringBreak`: `Timer.AllowingAllNeverBlocks` and `Decision.BreakOverride` state what it implies |
| Timer.TimerBlockIff | src/common/utils.ts:674-685 | the timer blocks exactly during focus with blocking on, a blocklist match and no allowlist match |
| Timer.AllowingAllNeverBlocks | src/common/utils.ts:674-693 | a break that allows all sites never blocks by timer |
| TimeFormat.NatToString | src/common/utils.ts:668 | decimal digits only, one digit below 10, two below 100 |
| TimeFormat.PadStart2 | src/common/utils.ts:668 | pads to two characters, never shortens |
| TimeFormat.JsRem | src/common/utils.ts:667 | the remainder takes the sign of the dividend and is smaller than the divisor in magnitude |
| TimeFormat.JsRemMinute | src/common/utils.ts:666-667 | the remainder differs from the dividend by whole minutes and is odd in the dividend |
| TimeFormat.ParseTime | src/common/utils.ts:665-669 | a parsed display is never negative |
| TimeFormat.DigitsOfNat | src/common/utils.ts:668 | the digits of a number read back as that number |
| TimeFormat.LeadingZero | src/common/utils.ts:668 | a padding zero does not change the value |
| TimeFormat.PaddedDigits | src/common/utils.ts:668 | a padded number is all digits and reads back as the number |
| TimeFormat.FormatTime | src/common/utils.ts:665-669 | stated by `TimeFormat.ParseFormatTime`, `TimeFormat.FormatTimeIsFiveCharacters` and `TimeFormat.NegativeSecondsShowSigns` |
| TimeFormat.ParseFormatTime | src/common/utils.ts:665-669 | for a non-negative count, the seconds field has two characters and the display reads back as the count |
| TimeFormat.FormatTimeIsFiveCharacters | src/common/utils.ts:665-669 | below 100 minutes the display is `MM:SS` |
| TimeFormat.NegativeSecondsShowSigns | src/common/utils.ts:666-668 | a negative count shows a sign in the minutes, and one in the seconds unless it is a whole number of minutes, with the digits of both magnitudes |
| TimeFormat.NegativeSecondsExamples | src/common/utils.ts:665-669 | -5 is shown as `-1:-5` and -60 as `-1:00` |
| Zones.NewZone | src/common/utils.ts:702-713 | the new zone is the draft with the generated id |
| Zones.MergeZone | src/common/utils.ts:723 | each field takes the update's value when given, else keeps its own |
| Zones.MergeZoneLaws | src/common/utils.ts:723 | an empty update changes nothing, and applying an update twice is applying it once |
| Zones.FindZoneIndex | src/common/utils.ts:720 | `findIndex` returns the first zone with the id, or none when no zone has it |
| Zones.FindZoneIndexIsFirst | src/common/utils.ts:720 | the first position holding the id is the one found |
| Zones.AddZone | src/common/utils.ts:707-711 | the zone is appended and the others keep their places |
| Zones.UpdateZones | src/common/utils.ts:718-728 | a missing id is an error; otherwise exactly the first zone with the id is merged with the update |
| Zones.UpdateKeepsPosition | src/common/utils.ts:718-728 | an update that keeps the id leaves the zone where it is found |
| Zones.DeleteZones | src/common/utils.ts:733-737 | no zone with the id remains; every other zone stays; nothing is added |
| Zones.DeleteAbsentIsNoOp | src/common/utils.ts:733-737 | deleting an absent id changes nothing |
| Zones.DeleteIsIdempotent | src/common/utils.ts:733-737 | deleting twice is deleting once |
| Zones.DeleteDistributes | src/common/utils.ts:735 | `filter` works piece by piece over a concatenation |
| Zones.DeleteSingle | src/common/utils.ts:735 | `filter` on one zone keeps it exactly when its id differs |
| Zones.ToggleZones | src/common/utils.ts:750-758 | flips `enabled` on the first zone with the id and on nothing else; an absent id changes nothing |
| Zones.ToggleTwiceRestores | src/common/utils.ts:750-758 | toggling twice restores the list |
| Zones.ToggleIsUpdate | src/common/utils.ts:750-758 | a toggle is an update of `enabled` to its negation |
| Decision.EnabledZones | src/background/index.ts:139 | exactly the enabled zones, in order |
| Decision.EnabledZonesDistributes | src/background/index.ts:139 | `filter` works piece by piece over a concatenation |
| Decision.ZoneSkipped | src/background/index.ts:148-178 | a zone that fails a test joins the zones searched past |
| Decision.FirstQualifyingIsFound | src/background/index.ts:147-196 | the first zone passing all four tests is the one the search finds |
| Decision.NoneQualifyingIsFound | src/background/index.ts:147-197 | when no zone passes every test, the search finds none |
| Search.FirstIndex | src/background/index.ts:147-197 | the found index is of an element the test holds of, with none before it; none is found only when the test holds of no element |
| Search.FirstIndexIsFirst | src/background/index.ts:147-196 | the first position the test holds of is the one found |
| Decision.SkippedZonesDoNotStopSearch | src/background/index.ts:147-175 | zones that do not qualify only shift the found index |
| Decision.ZoneVerdict | src/background/index.ts:139-197 | the zone loop never gives a timer block |
| Decision.ZoneVerdictBlocksIff | src/background/index.ts:139-197 | a zone blocks exactly when some enabled zone is outside its allowlist, on its blocklist, inside its schedule and within its radius |
| Decision.Decide | src/background/index.ts:80-197 | the guard chain: stated by `Decision.BreakOverride`, `Decision.TimerAllowlistBypass`, `Decision.TimerBlockIff`, `Decision.TimerBlockIgnoresMonitoring`, `Decision.InactiveMonitoringOnlyTimerBlocks`, `Decision.ZoneBlockPreconditions` and `Decision.FirstMatchWins` |
| Decision.BreakOverride | src/background/index.ts:86-89 | a break that allows all sites allows every navigation, whatever the zones say |
| Decision.TimerAllowlistBypass | src/background/index.ts:92-95 | a timer-allowlisted host is never blocked, by timer or by zone |
| Decision.TimerBlockIff | src/background/index.ts:86-118 | the timer blocks exactly during focus with blocking on, a blocklist match and no allowlist match |
| Decision.TimerBlockIgnoresMonitoring | src/background/index.ts:80-118 | whether the timer blocks does not depend on monitoring, position or zones |
| Decision.ZoneBlockPreconditions | src/background/index.ts:86-196 | a zone block happens only with the timer passing, monitoring active, a position set, and an enabled qualifying zone with that id |
| Decision.FirstMatchWins | src/background/index.ts:147-196 | when several zones qualify, the first enabled one blocks |
| Decision.InactiveMonitoringOnlyTimerBlocks | src/background/index.ts:126-136 | without active monitoring or a position, only the timer can block |
| Decision.UnparsedHostIsAllowed | src/background/index.ts:86-197 | an unparsable URL is never blocked |
| Storage.StoredAfterRead | src/common/utils.ts:262-304 | a stale record is overwritten with a fresh one; anything else, absence included, stays as it is |
| Storage.ReadAfterReadIsSame | src/common/utils.ts:283-304 | reading the statistics twice at one instant gives the same record |
| Storage.WithTimerStats | src/common/utils.ts:569-572 | the focus completion writes the timer counters and nothing else |
| Storage.Store.constructor | src/common/utils.ts:213-250 | a new profile has every key absent and is valid |
| Storage.Store.Timer | src/common/utils.ts:411-414 | the stored timer, or the default timer when none is stored |
| Storage.Store.Settings | src/common/utils.ts:213-250 | zones, monitoring, position and timer as stored, and monitoring active exactly when on and neither deadline is in force |
| Storage.Store.ValidTimerRead | src/common/utils.ts:411-414 | in a valid store the timer as read is valid |
| Storage.Store.SaveTimerState | src/common/utils.ts:419-423 | stores the current timer with the patch merged in, and keeps validity when the merged timer is valid |
| Storage.Store.StartTimer | src/common/utils.ts:485-511 | stores the started timer and keeps validity |
| Storage.Store.PauseTimer | src/common/utils.ts:516-525 | stores the paused timer and keeps validity |
| Storage.Store.ResumeTimer | src/common/utils.ts:530-538 | stores the resumed timer and keeps validity |
| Storage.Store.ResetTimer | src/common/utils.ts:543-554 | stores the reset timer and keeps validity |
| Storage.Store.GetStatistics | src/common/utils.ts:262-318 | returns today's record and writes back a fresh one only in place of a stale one, keeping validity |
| Storage.Store.RecordBlockedSite | src/common/utils.ts:323-375 | stores the recorded block on today's record and keeps the lists short and sorted |
| Storage.Store.CompleteTimerSession | src/common/utils.ts:559-660 | stores the completed timer; after focus stores today's record with the counted session, otherwise only the daily reset |
| Storage.Store.SaveAfterFocus | src/common/utils.ts:570-612 | the counter write then the next-state write store the timer after focus, keeping validity |
| Storage.Store.SaveAfterBreak | src/common/utils.ts:623-644 | the next-state write stores the timer after a break, keeping validity |
| Storage.Store.CreateZone | src/common/utils.ts:702-713 | returns the new zone and appends it to the stored list; validity is kept |
| Storage.Store.UpdateZone | src/common/utils.ts:718-728 | fails exactly when no zone has the id, writing nothing; otherwise stores the updated list; validity is kept |
| Storage.Store.DeleteZone | src/common/utils.ts:733-737 | stores the list without the id's zones; validity is kept |
| Storage.Store.ToggleZone | src/common/utils.ts:750-758 | stores the list with that zone toggled; validity is kept |
| Background.OnTabUpdated | src/background/index.ts:63-202 | only loading, non-internal URLs are evaluated; the verdict is `Decide` on the settings and timer as read; no block records nothing; a timer block records a focus block; a zone block records a block for that zone; validity is kept |
| Background.ShouldEvaluate | src/background/index.ts:65-72 | loading, non-empty and not internal: `Background.OnTabUpdated` states that only these are evaluated |
| Background.FindBlockingZone | src/background/index.ts:147-197 | the zone loop returns exactly the first-match search's result |
| Background.OnAlarm | src/background/index.ts:41-54 | a session completes exactly on the timer alarm when it runs and no time remains; then the timer and the statistics are those `completeTimerSession` stores, with the session counted after focus, and with positive durations it is not due again; otherwise nothing changes; validity is kept |

## Left out

- `haversine` and `toRad` (floating point) are not modelled. The distance is the parameter `dist`.
- `new URL(url).host` is not modelled. The parsed host is given as `Option<string>`, with `None` where the URL constructor throws.
- The wall clock, `new Date()` and `toDateString()` are not modelled. They are the parameters `now`, `clock` and `dayOf`.
- `generateId` (clock and randomness) is not modelled. `Storage.Store.CreateZone` takes the fresh id as a parameter.
- Each operation reads the clock once. Several calls to `Date.now()` within one operation are a single `now`.
- Lower-casing covers ASCII letters only, and whitespace is a fixed set of characters. Unicode case mapping is not modelled.
- All asynchronous behaviour is left out. The popup can act between two storage writes of one operation; the model runs each operation to completion.
- Storage failures are left out, as is the listeners' `try`/`catch`, which fails open.
- `migrateLegacySettings` is not part of this model.
- The untyped defaulting in `getSettings` (`allowlist || []`, `monitoring || false`, the `timerAllowlist` fallback) is not modelled. Every stored field is typed and present.
- The `theme` setting is not modelled.
- `getStatistics` adding missing fields to old records is not modelled.
- `saveSettings`, `resetStatistics` and `getZoneById` are not modelled as separate operations. They are single storage writes and reads, and the methods write the store's fields directly.
- Notifications, `tabs.update` and the blocked page URL are not modelled. The verdict stands for the redirect.
- `logBlockedRequest` and console logging are not modelled.
- `elapsedSeconds` is carried but never read, as in the source.
- Background.FindBlockingZone: it tests the three `continue` guards and the radius as one short-circuit condition, in the source's order. The distance is evaluated before the schedule test in the source; with `dist` pure, that order cannot be observed.
- Decision.ZoneVerdict: its own contract only excludes a timer block. Its if-and-only-if is stated in `Decision.ZoneVerdictBlocksIff`.
- Text.Split, Stats.InsertByCount and Stats.SortByCount: their own contracts state lengths only. Content, permutation and order are stated in the lemmas listed beside them.
- Timer.RemainingTime: the contract bounds the running case at zero only. Its exact value in every second of a run is stated by `Timer.RemainingDuringSecond`.
- The ordering of ties in the site lists relies on the JavaScript sort being stable. Equality with a stable sort is not stated as a lemma.
