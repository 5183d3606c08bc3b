# Verified models of the gateway

Dafny models of the parts of this LLM gateway where money, access or
configuration depend on more than one step being right. Each module states what
holds over every input, every run or every interleaving. Where the code does not
meet a law that its documentation suggests, the module keeps the code as it is,
shows an input that breaks the law, and proves exactly when the law holds.

Check everything with `dafny verify dfyconfig.toml`.

## What is modelled

**Order locks** (`OrderLocks`, `TopUpCredit`). `LockOrder` and `UnlockOrder` keep
a registry of reference-counted mutexes. Every access to shared memory is one
step of a state machine with any number of threads. On top of it runs the locked
section of the Epay callback, whose database calls are separate steps that may
fail. An order is credited at most once, with the integer part of the amount
times the quota per unit, and every payment is accounted for.

**Upstream model lists** (`Text`, `ModelNames`, `UpstreamSync`, `StoredNames`,
`StagedLists`, `ChannelScan`). A detection stages additions and removals; an
administrator applies some of them. The staged lists left by an apply are what a
new detection would compute, with two exceptions: a name that starts with
`regex:` acts as a pattern once it is ignored, and a name that contains a comma
is split when the stored list is read back. `StagedLists.ApplyStaysFreshIff`
gives the exact condition for every upstream and every request.

**Multi-key channels** (`MultiKeys`, `MultiKeyStore`, `MultiKeyChannel`,
`KeyStatusPages`). Five sparse maps describe the keys of a channel, and deletions
re-index them. Every action behaves like the plain action on a list of key
records and keeps the maps well-formed. The saved row agrees exactly as long as
each deletion leaves keys, these survive being joined to a text and read again,
and the text is not an empty JSON array. Otherwise it does not: deleting the
automatically disabled keys of a channel that has no others brings all of them
back, enabled.

**Prices** (`PriceDiff`, `ModelsDev`). The difference report lists exactly the
real differences and the channels that have one, as long as no upstream value is
null or the text "same"; `PriceDiff.LostIff` says exactly which differences are
lost otherwise. The catalogue conversion picks the cheapest non-zero price up to
one epsilon, although near-equality is not transitive.

**Request limits and bodies** (`RateLimiter`, `BodyStorage`, `BodyCache`). The
limiter follows the rule over the full history for a key exactly when the key's
limit is positive and, if the limiter evicts at all, its window is at most one
second longer than the eviction age; the comment in `common/constants.go` asks
for a window no longer than the eviction age, which is slightly more than needed.
The two body storages cannot be told apart except by an empty read at the end, and
the cache counters always equal what is open.

**Refunds** (`Midjourney`, `VideoLedger`, `QuotaMath`). Midjourney pollers work
from stale snapshots and write conditionally. Tasks are refunded at most once
exactly as long as no failing answer is written for a task already refunded. With
an upstream that reports failures as such and takes no failed task out of
failure, that means: as long as no poller writes a failing answer over a copy
that is already failed. There are four ways to a second refund: one answer names
a task twice; a task is stored as failed and unfinished, by the submit handler or
by an earlier answer, and two pollers find it; or a failed task is reported alive
and fails again. A video task's charge matches its record unless a row update
fails after a re-pricing or a failed task is reported as alive again.

**Audio** (`OggScanner`). The scanner over Ogg pages (section 6 of RFC 3533)
recognises exactly the page starts of any well-formed stream, with any bytes
without a capture pattern around the pages, and a failing or short-reading device
never makes it report a longer duration.

**Sessions and mail** (`StepUpSession`, `Announcements`). An accepted step-up
check always rests on a recent verification, a passkey verification always spends
a ceremony of its own. Announcement mails go to exactly the multiset difference
of the two lists.

Inputs of the models: the clock, whether database writes and session saves
succeed, JSON decoding, the encoding of texts to bytes, regular-expression
matching, one-time-code validation and the answers of upstreams. Integers are
unbounded except where a width matters (`OggScanner.Signed`,
`QuotaMath.Saturate`); floating-point prices are real numbers with infinities and
NaN, without rounding.

## Model

| member | source | states |
|---|---|---|
| OrderLocks.StepKeepsInv | controller/topup.go:335-364 | every step of every thread keeps the registry invariant: counts, pins, createLock ownership, holders, no crash |
| OrderLocks.LastUserIsAlone | controller/topup.go:350-364 | when the count of an entry is zero at the delete, no other thread relies on that entry |
| OrderLocks.MutualExclusion | controller/topup.go:335-364 | in every interleaving at most one thread per trade number is between lock and unlock |
| OrderLocks.UnlockFindsOwnMutex | controller/topup.go:350-355 | in every interleaving the unlock-time reload finds the very mutex the thread locked, createLock is released by the thread that took it, and no unlocked mutex is ever unlocked |
| OrderLocks.RegistryIsExact | controller/topup.go:335-364 | refCount equals the number of threads on the trade number, all of them use the registered mutex, and with createLock free an entry exists iff somebody works on it |
| OrderLocks.NoLeak | controller/topup.go:357-363 | when nobody is inside, the registry is empty |
| OrderLocks.NoDeadlock | controller/topup.go:335-364 | whenever a thread is inside, some thread inside can move |
| TopUpCredit.LockMakesAlone | controller/topup.go:447-448 | two callbacks inside the section work on different orders |
| TopUpCredit.RunKeepsInv | controller/topup.go:447-485 | what a callback has read stays true until it finishes, over every interleaving and every failing database call |
| TopUpCredit.CreditedAtMostOnce | controller/topup.go:447-485 | each order turns to success at most once and is credited at most once; a credit q goes to the user of a successful Epay order, and with x = amount times quota per unit, q <= x < q + 1, or q = 0 where -1 < x < 0 |
| TopUpCredit.EveryPaymentAccounted | controller/topup.go:459-485 | a paid order is exactly one of credited, about to be credited under its lock, or its credit call failed |
| TopUpCredit.QuotaIsConserved | controller/topup.go:471-478 | each user's quota moves by exactly the sum of the credits to that user |
| TopUpCredit.TotalAdds | controller/topup.go:471-474 | that sum counts each credit once, for its user only |
| TopUpCredit.OrdersKeepTheirTerms | controller/topup.go:458-464 | over every run an order keeps user, amount and gateway, turns to success iff it is marked paid, and is otherwise untouched |
| TopUpCredit.CallbackCredits | controller/topup.go:449-474 | a pending Epay order whose callback runs through is successful with the reported method, and its user has the integer part of amount times unit more |
| TopUpCredit.LostOnlyOnFailure | controller/topup.go:474-478 | a paid order stays without credit only if the credit call failed or amount times unit is negative |
| Text.ListRoundTrip | model/channel.go:350-355 | a joined list reads back iff no part holds the separator and the first and last parts are not empty |
| Text.TrimIsExact | controller/channel_upstream_update.go:94-99 | trimming takes off the longest run of cut characters at each end and nothing else |
| Text.SpacesAre | controller/channel_upstream_update.go:94-99 | what counts as white space, code point by code point |
| ModelNames.MergeModelNames | controller/channel_upstream_update.go:101-115 | the loop with a seen-set appends exactly the new normalized names, in order |
| ModelNames.NormalizeMembers | controller/channel_upstream_update.go:94-99 | a name is in a normalized list iff it is not empty and some entry trims to it |
| ModelNames.MergeNormal | controller/channel_upstream_update.go:101-115 | a merge is trimmed, free of repetitions and holds exactly the names of both lists |
| ModelNames.FilterAgree | controller/channel_upstream_update.go:117-137 | two filters give the same list iff they keep the same elements |
| UpstreamSync.ApplySelectedDisjoint | controller/channel_upstream_update.go:139-144 | additions go to the end, removals leave the rest in order, and the result is normalized |
| UpstreamSync.CollectPending | controller/channel_upstream_update.go:167-226 | the set-based detection returns the specified pending lists |
| UpstreamSync.DetectionIsExact | controller/channel_upstream_update.go:167-226 | a name is found as an addition iff it is offered, not local, no target of a model mapping, and no ignore entry equals it or, after `regex:`, matches it; as a removal iff it is local, no source of a mapping and not offered |
| UpstreamSync.CheckIsExact | controller/channel_upstream_update.go:366-391 | a saved check stages both lists and keeps the ignore list; with automatic adoption it stores the local names followed by the pending ones instead of staging them |
| UpstreamSync.ApplyIsExact | controller/channel_upstream_update.go:797-845 | name by name: what stays staged, what is ignored afterwards, and that the other settings stay, in terms of the normalized request and staged lists |
| UpstreamSync.StoredListReadsBack | model/channel.go:350-355 | a normalized list without commas survives being stored |
| UpstreamSync.CheckIsFreshIff | controller/channel_upstream_update.go:366-391 | a saved check stages what a new detection finds, iff it did not adopt a name with a comma |
| UpstreamSync.FirstDetectionIsFresh | controller/channel_upstream_update.go:167-226 | a new channel whose staged additions are the upstream's list is fresh |
| StoredNames.ReadIsSplit | model/channel.go:350-355 | cutting commas off both ends changes nothing about the names that are read |
| StoredNames.StoredIsPieces | model/channel.go:350-355 | any stored list reads back as the distinct pieces of its names |
| StoredNames.LocalAfterAnyApply | controller/channel_upstream_update.go:818-823 | the list read back after any apply: the local names not removed, then the new pieces of the added names |
| StoredNames.LocalAfterApplyIff | controller/channel_upstream_update.go:818-823 | on any row a name is local after an apply iff it was local and is not ticked for removal and staged, or is a piece of an added name; a local name the request does not list for removal stays |
| StagedLists.StillHiddenIff | controller/channel_upstream_update.go:825-828 | the new ignore list hides a name iff an old or newly ignored entry that is not being added does |
| StagedLists.RemoveSideIff | controller/channel_upstream_update.go:816-830 | the removals left staged are what a new detection finds iff every piece of an added name is kept by the channel, mapped or offered |
| StagedLists.AddSideIff | controller/channel_upstream_update.go:812-829 | the additions left staged are what a new detection finds iff added comma names are hidden, their pieces are not pending, and pattern names hide and unhide nothing else |
| StagedLists.ApplyStaysFreshIff | controller/channel_upstream_update.go:797-845 | for every request on fresh lists, what is left equals a new detection, as sequences, iff the request is harmless in these ways |
| StagedLists.ApplyRunStaysFreshIff | controller/channel_upstream_update.go:797-845 | through any number of applies the lists stay fresh iff each apply is harmless |
| StagedLists.ApplyEverythingSettlesIff | controller/channel_upstream_update.go:797-845 | applying everything leaves nothing for a new detection iff that is harmless |
| StagedLists.OrdinaryNamesAreHarmless | controller/channel_upstream_update.go:797-845 | with offered names without commas and pattern prefixes every request is harmless |
| StagedLists.CommaNameReappears | controller/channel_upstream_update.go:818-823 | an added name with a comma is reported again although it is no longer staged |
| StagedLists.CommaNameCounterexample | controller/channel_upstream_update.go:818-823 | a concrete channel with one such name after which the staged lists are stale |
| StagedLists.PatternNameTakesOver | controller/channel_upstream_update.go:205-211 | ignoring a name that is a pattern hides the other pending names it matches |
| StagedLists.PatternNameCounterexample | controller/channel_upstream_update.go:205-211 | a concrete channel and request after which the staged lists are stale |
| UpstreamSync.Channel.CheckAndPersist | controller/channel_upstream_update.go:351-398 | the new row for every combination of interval, fetch and save result |
| UpstreamSync.Channel.ApplyUpdates | controller/channel_upstream_update.go:797-845 | the new row; what is reported as added is exactly what the request ticks and the staged additions hold, as removed what it ticks and the staged removals hold and is not added; nothing changes when the save fails |
| ChannelScan.HitsAreEnabledChannels | controller/channel_upstream_update.go:558-562 | the unlimited query returns every enabled channel once, in ascending id order |
| ChannelScan.HitsContinue | controller/channel_upstream_update.go:563-574 | asking for ids above the last one seen returns exactly the channels not yet seen |
| ChannelScan.CheckedIsExact | controller/channel_upstream_update.go:578-594 | the count is the number of visited channels with checks enabled |
| ChannelScan.ProcessBatch | controller/channel_upstream_update.go:576-594 | a batch is visited in order up to the cancellation, and the checked ones are counted |
| ChannelScan.Scan | controller/channel_upstream_update.go:551-639 | the scan ends; uncancelled and without query errors it visits every enabled channel once, for every batch size, and otherwise a prefix |
| MultiKeys.ReindexEntry | controller/channel.go:1936-1980 | an entry of a re-indexed map is the entry of the old position of that key |
| MultiKeys.RetainedRecord | controller/channel.go:1936-2062 | re-indexing never moves metadata to another key |
| MultiKeys.SetConfigRefines | controller/channel.go:1704-1761 | weight and priority change for that record only; refused without a key in range or without a value |
| MultiKeys.DisableKeyRefines | controller/channel.go:1762-1804 | that record becomes manually disabled and no other changes |
| MultiKeys.EnableKeyRefines | controller/channel.go:1805-1846 | that record becomes enabled without time and reason and no other changes |
| MultiKeys.EnableAllRefines | controller/channel.go:1847-1869 | every record becomes enabled without time and reason |
| MultiKeys.DisableAllRefines | controller/channel.go:1871-1916 | exactly the enabled records become manually disabled; refused iff there is none |
| MultiKeys.DeleteKeyRefines | controller/channel.go:1918-1997 | the other records stay in order, unchanged |
| MultiKeys.DeleteDisabledRefines | controller/channel.go:2012-2079 | exactly the automatically disabled records go; enabled ones lose a leftover time and reason |
| MultiKeys.ActRefinesPlan | controller/channel.go:1704-2079 | every action on the sparse maps is the plain action on records, refusals included, and keeps size and index ranges |
| MultiKeys.SetConfigIsExact | controller/channel.go:1704-1761 | refused iff the position is unknown or nothing is given; otherwise exactly the given values of that record change |
| MultiKeys.SwitchIsExact | controller/channel.go:1762-1846 | one key goes to status 2 and keeps its time and reason, or to status 1 and loses them; refused iff the position is unknown |
| MultiKeys.SwitchAllIsExact | controller/channel.go:1847-1916 | all keys go to status 1 without time and reason; or exactly those with status 1 go to 2, refused iff there is none |
| MultiKeys.DeleteKeyIsExact | controller/channel.go:1918-1997 | the record at the position goes, the later ones move up by one; refused iff the position is unknown or it is the last key |
| MultiKeys.DeleteDisabledIsExact | controller/channel.go:2012-2079 | exactly the records with status 3 go, the others stay in order; refused iff there is none |
| MultiKeys.ActKeepsNoLeftovers | controller/channel.go:1704-2079 | every action keeps disabled times and reasons with keys that are not enabled |
| MultiKeys.DeleteDisabledOnlySelects | controller/channel.go:2012-2079 | on such channels deleting the dead keys changes no surviving record |
| MultiKeyStore.EditIsExact | model/channel.go:643-676 | a saved edit reads back as the plain action, and leaves a well-formed row iff it was refused or the text is not an empty JSON array |
| MultiKeyStore.SaveIsExact | model/channel.go:643-676 | saving recounts the keys, drops exactly the statuses behind the last key, keeps the other maps, and the old text if the new one is empty |
| MultiKeyStore.EmptyArrayIsMiscounted | model/channel.go:656-670 | on an empty JSON array the saved size counts lines although there is no key |
| MultiKeyStore.DeletionIsExactIff | model/channel.go:643-676 | a saved deletion reads back as planned iff keys remain that survive joining: no line break and no empty end, or, where the text is a JSON array, its elements |
| MultiKeyStore.DeletingAllKeysRevivesThem | controller/channel.go:2072-2081 | where the plain action leaves nothing, every key comes back enabled, its configuration wiped |
| MultiKeyStore.StepIsExactIff | controller/channel.go:1704-2093 | on any well-formed row a request shows the plain action and leaves a well-formed row iff it is refused, or the text is no empty array and a deletion leaves keys that can be read again |
| MultiKeyStore.RunIsExactIff | controller/channel.go:1704-2093 | a run shows the plain actions throughout iff each request is so; then the row stays well-formed in all three respects |
| MultiKeyStore.PlainKeysAreSafeIff | model/channel.go:182-204 | with one-line keys that start neither with a blank nor with a bracket, a run does iff it never deletes the dead keys of a channel whose keys are all dead |
| MultiKeyChannel.Rebuild | controller/channel.go:1936-1980 | the re-indexing loop computes the specified state |
| MultiKeyChannel.DisableEnabled | controller/channel.go:1883-1895 | the loop disables exactly the enabled keys and counts zero iff there was none |
| MultiKeyChannel.FewerIffAuto | controller/channel.go:2064-2070 | nothing is deleted iff no key is automatically disabled |
| MultiKeyChannel.Channel.Update | model/channel.go:643-676 | the saved row: recounted size, cleaned statuses, an empty text not written |
| MultiKeyChannel.Channel.SetKeyConfig | controller/channel.go:1704-1761 | the row after a configuration request, or unchanged when refused or not written |
| MultiKeyChannel.Channel.DisableKey | controller/channel.go:1762-1804 | the row after disabling one key |
| MultiKeyChannel.Channel.EnableKey | controller/channel.go:1805-1846 | the row after enabling one key |
| MultiKeyChannel.Channel.EnableAllKeys | controller/channel.go:1847-1870 | the row after enabling all keys |
| MultiKeyChannel.Channel.DisableAllKeys | controller/channel.go:1871-1917 | the row after disabling all enabled keys |
| MultiKeyChannel.Channel.DeleteKey | controller/channel.go:1918-2011 | the row after deleting one key |
| MultiKeyChannel.Channel.DeleteDisabledKeys | controller/channel.go:2012-2094 | the row after deleting the automatically disabled keys |
| KeyStatusPages.CollectStatus | controller/channel.go:1592-1651 | the loop builds one entry per key and counts each status over all keys |
| KeyStatusPages.FilterStatus | controller/channel.go:1653-1663 | exactly the entries with the wanted status stay, in key order |
| KeyStatusPages.GetKeyStatus | controller/channel.go:1579-1702 | the response page, total, page number and counts, with page 1 and 50 entries for non-positive inputs |
| KeyStatusPages.MatchingIsExact | controller/channel.go:1597-1663 | the filtered list has one entry for each key that passes and no other, in key order; an entry shows position, status (1 if none is stored), weight, priority, time and reason unless the status is 1, and the first ten bytes of a longer key |
| KeyStatusPages.CountIsExact | controller/channel.go:1618-1625 | a count is the number of keys with that status |
| KeyStatusPages.AllPagesAreTheList | controller/channel.go:1665-1686 | pages 1 to totalPages concatenate to the filtered list, for every list and page size |
| KeyStatusPages.PastTheEndIsLastPage | controller/channel.go:1671-1673 | a page past the end is the last page, which is not empty unless the list is |
| KeyStatusPages.CountsAddUp | controller/channel.go:1618-1625 | the three counts add up to the number of keys iff every status is one of the three |
| PriceDiff.CompareOne | controller/ratio_sync.go:681-700 | the cell of one channel: without a value "same" or null, depending on the local value; with one "same" if equal and the value otherwise; and whether it counts as a difference |
| PriceDiff.DiffersIff | controller/ratio_sync.go:681-700 | a channel differs iff it has a value and that is not the same price: within 0.000000001 for numbers, equal otherwise |
| PriceDiff.CellShows | controller/ratio_sync.go:681-700 | what the cell shows, in terms of the channel's own data: its value as a number where the field is numeric, "same", or null |
| PriceDiff.TrustedIff | controller/ratio_sync.go:636-667 | a channel is distrusted for a model iff its model ratio is within epsilon of 37.5 and its completion ratio within epsilon of 1 |
| PriceDiff.Compare | controller/ratio_sync.go:671-728 | the raw item and whether it is listed |
| PriceDiff.CollectModels | controller/ratio_sync.go:618-632 | exactly the models named by the local data or some channel |
| PriceDiff.Fill | controller/ratio_sync.go:669-730 | one raw item per listed model and field |
| PriceDiff.LoudChannels | controller/ratio_sync.go:732-741 | exactly the channels with a visible value somewhere in the report |
| PriceDiff.Prune | controller/ratio_sync.go:743-769 | items keep exactly the loud channels, and go iff all that is left says "same" |
| PriceDiff.BuildDifferences | controller/ratio_sync.go:612-772 | the report, item by item, in terms of the inputs |
| PriceDiff.LoudIffVisible | controller/ratio_sync.go:732-741 | on any input the channels kept are those that differ somewhere by a visible value |
| PriceDiff.ReportedIsReal | controller/ratio_sync.go:612-772 | on any input, what is reported is a real difference |
| PriceDiff.LostIff | controller/ratio_sync.go:732-769 | on any input, a real difference is lost iff every channel with a visible difference anywhere is silent about it |
| PriceDiff.ReportIsExact | controller/ratio_sync.go:612-772 | without null or "same" values, exactly the real differences are reported, each with exactly the really differing channels; each channel shows its own value where it differs, "same" where it is equal or neither side has one, and null where only the local side has one; confidence is false exactly at 37.5 with 1 |
| PriceDiff.SameTextIsLost | controller/ratio_sync.go:690-700 | an upstream value that is the text "same" is never reported against an empty local table |
| ModelsDev.LessIsStrictOrder | controller/ratio_sync.go:957-969 | provider names are totally ordered |
| ModelsDev.SelectedIsAnOffer | controller/ratio_sync.go:998-1020 | a price is selected iff some provider has a usable one, and it is one of them |
| ModelsDev.SelectedIsCheapest | controller/ratio_sync.go:957-969 | after any number of providers the kept price beats each non-zero price seen so far up to one epsilon |
| ModelsDev.SelectionIsCheapest | controller/ratio_sync.go:982-1020 | the final price is zero iff all usable ones are; otherwise it is below the cheapest non-zero one plus epsilon |
| ModelsDev.UnsortedOrderDrifts | controller/ratio_sync.go:991-995 | in another provider order three offers lead more than epsilon above the cheapest |
| ModelsDev.SortedKeys | controller/ratio_sync.go:991-995 | the names, strictly ascending |
| ModelsDev.SelectCandidates | controller/ratio_sync.go:997-1020 | the nested loops compute the fold over the sorted providers for every model |
| ModelsDev.Convert | controller/ratio_sync.go:982-1065 | fails iff no model has a usable entry; otherwise answers exactly the models that have one, from an entry that is cheapest up to epsilon: half the input cost, output over input present iff input is positive and an output cost is given, cache read over input iff that cost is valid, each within 0.0000005 |
| ModelsDev.OfferIff | controller/ratio_sync.go:913-954 | a provider has an offer iff its entry has a finite input cost that is not negative and an output cost, if any, that is too and is not charged on free input |
| ModelsDev.RatioIsRight | controller/ratio_sync.go:1030-1047 | the ratios of an entry of the catalogue, each against the quotient it stands for |
| ModelsDev.RoundRatioError | controller/ratio_sync.go:774-776 | a rounded ratio is within half a millionth |
| ModelsDev.ModelRatioIsHalfCost | controller/ratio_sync.go:1030-1037 | a model ratio is half the cost per million tokens, up to that error |
| OggScanner.SegmentSum | common/audio.go:242-245 | the loop adds up the segment table |
| OggScanner.SumAdds | common/audio.go:242-245 | the sum counts every entry of the table once |
| OggScanner.Turn | common/audio.go:208-248 | one turn ends the scan, fails, or moves the offset forward without changing what the scan leads to, recognised pages included |
| OggScanner.OpusDuration | common/audio.go:196-254 | the loop ends on any bytes and any device; result and recognised page offsets are those of the scan |
| OggScanner.EnoughCalls | common/audio.go:196-254 | without a failing call or a short read that is the whole scan |
| OggScanner.FailureNeverLengthens | common/audio.go:208-248 | whatever call fails or comes short, the pages recognised are the first ones and a reported duration is at most the real one |
| OggScanner.BytesRoundTrip | common/audio.go:228-232 | little-endian decoding inverts encoding |
| OggScanner.GranuleRoundTrip | common/audio.go:228-232 | every signed 64-bit granule position has its eight bytes and is read back from them |
| OggScanner.GranuleIsLittleEndian | common/audio.go:228-232 | a granule position is the lowest byte first, with the top bit as the sign |
| OggScanner.EncodedFields | common/audio.go:219-245 | an encoded page starts with the bytes of "OggS" and has every field at its offset |
| OggScanner.PageFields | common/audio.go:219-248 | the fields of an encoded page are read back at its offset |
| OggScanner.NoStraddle | common/audio.go:219-226 | bytes without a capture pattern cannot form one with the first page |
| OggScanner.StreamIsScanned | common/audio.go:196-254 | for every sequence of well-formed pages, with such bytes before, between and after them, the scan recognises exactly the page starts and finds the largest granule position |
| OggScanner.DurationOfStream | common/audio.go:196-254 | so the function does exactly that on such a stream, and returns that position over 48000 |
| OggScanner.MaxGranuleIsMax | common/audio.go:229-232 | that value is the maximum of zero and all signed granule positions |
| RateLimiter.InMemoryRateLimiter.constructor | common/rate-limit.go:14-26 | an empty store; keys are evicted iff the eviction age is positive, in whole seconds |
| RateLimiter.InMemoryRateLimiter.Request | common/rate-limit.go:45-70 | decision and new queue; other keys stay; no queue becomes empty |
| RateLimiter.InMemoryRateLimiter.ClearExpired | common/rate-limit.go:28-42 | exactly the idle keys go |
| RateLimiter.SameDecision | common/rate-limit.go:45-70 | the queue decides like the full history |
| RateLimiter.RunAgrees | common/rate-limit.go:28-70 | over every run with evictions and with other keys and rules, the decisions on a key equal those of the full-history rule |
| RateLimiter.LimiterFollowsRuleIff | common/rate-limit.go:14-70 | this holds for a key iff its limit is at least 1 and, if keys are evicted, its window at most the eviction age plus one second |
| RateLimiter.BurstDisagrees | common/rate-limit.go:34-40 | a longer window is broken by a burst, an eviction and one more request |
| RateLimiter.ZeroLimitDisagrees | common/rate-limit.go:64-69 | a limit below 1 still accepts the first request |
| RateLimiter.WindowsAreBounded | common/rate-limit.go:28-70 | acceptances that are limit apart in order are a window apart in time |
| RateLimiter.AcceptedIff | common/rate-limit.go:45-70 | for such a key every request of any run is accepted iff fewer than limit requests of that key were accepted less than a window before |
| Midjourney.RefundedAtMostOnce | controller/midjourney.go:153-233 | with any number of pollers on stale snapshots over any table, each task is refunded at most once as long as failures are reported as such and no item meets a failed copy |
| Midjourney.ItemIsExact | controller/midjourney.go:160-217 | an item is written iff it is news and the stored status is unchanged; it is refunded iff it is written, the task cost something, and it is unfinished with a reason or finished with FAILURE, an overdue one counting as failed |
| Midjourney.SnapshotIsExact | model/midjourney.go:93-102 | a snapshot holds exactly the rows whose progress is not 100% |
| Midjourney.BulkFailIsExact | controller/midjourney.go:59-64 | the bulk update fails and finishes exactly the given tasks and refunds nothing |
| Midjourney.RefundIsExact | controller/midjourney.go:215-219 | a refund pays the task's quota to its user iff the increase succeeds |
| Midjourney.EveryRefundIsPaid | controller/midjourney.go:212-219 | over every run with successful increases, each refund decided is paid or about to be |
| Midjourney.SecondRefundIff | controller/midjourney.go:164-217 | a second refund is decided iff the poller's copy is already failed and the failing answer is written |
| Midjourney.RefundedOnceIff | controller/midjourney.go:153-233 | over every run, whatever the upstream answers, refunds repeat nowhere iff no failing item is written for a task already refunded |
| Midjourney.HonestRepeatsIff | controller/midjourney.go:153-233 | where written failing items say FAILURE and revive no failed task, that is iff no such item meets a failed copy |
| Midjourney.FailureIsAbsorbing | controller/midjourney.go:169-217 | a task stored as failed and finished stays so |
| Midjourney.CourteousIsGuarded | controller/midjourney.go:153-217 | an upstream that says FAILURE exactly for failing items and answers each task once per batch never meets a failed copy, if no row is stored failed and unfinished |
| Midjourney.PaidAtMostOnce | controller/midjourney.go:153-233 | with such an upstream and no such row each user gets a failed task's quota back at most once, and exactly that quota |
| Midjourney.RepeatedItemRefundsTwice | controller/midjourney.go:153-217 | two items for one task in one answer refund it twice |
| Midjourney.FailedUnfinishedRowRefundsTwice | relay/mjproxy_handler.go:610-637 | a row inserted as failed and unfinished is refunded by each of two pollers, however courteous the upstream |
| Midjourney.UnfinishedFailureAnswerRefundsTwice | controller/midjourney.go:204-217 | so is a row after an answer with status FAILURE, an unfinished progress and no reason |
| Midjourney.RevivedTaskRefundsTwice | controller/midjourney.go:168-217 | a task that fails, is reported alive and fails again is refunded twice, without any failed copy |
| VideoLedger.VideoTask.UpdateSingle | controller/task_video.go:128-294 | row, charge and refunds after one poll, for every answer and every failing call |
| VideoLedger.RefundIff | controller/task_video.go:267-292 | the quota is given back iff the poll reports FAILURE or no status, the stored row was not failed, the row is written, the quota is positive and the increase succeeds |
| VideoLedger.OtherStatuses | controller/task_video.go:134-143 | an unfinished status is only recorded, an unknown one changes nothing |
| VideoLedger.SuccessReprices | controller/task_video.go:154-251 | a success with tokens and ratios sets the quota to the integer part of tokens times ratios within 32 bits, and moves the charge by as much |
| VideoLedger.FailedChangeKeepsQuota | controller/task_video.go:183-251 | a failing quota change leaves quota and charge as they were |
| VideoLedger.SuccessKeepsQuota | controller/task_video.go:154-162 | so does a success without tokens or without a ratio |
| VideoLedger.RunStaysBalanced | controller/task_video.go:128-294 | over every run with successful updates and final failures, the charge equals the recorded quota, or zero after the refund |
| VideoLedger.PollBalancedIff | controller/task_video.go:128-292 | one poll keeps any balanced task balanced iff it reports failure or nothing known, or writes the row of a task not refunded, or neither writes nor moves money |
| VideoLedger.RunBalancedIff | controller/task_video.go:128-294 | a run stays balanced after every poll iff each poll does |
| VideoLedger.RefundedStaysSettledIff | controller/task_video.go:267-283 | a refunded task stays settled iff the poll reports failure, or an unknown status, or changes nothing |
| VideoLedger.ReopenedTaskRefundsTwice | controller/task_video.go:267-292 | failed, in progress, failed again is refunded twice |
| VideoLedger.RepricingIsExact | controller/task_video.go:183-251 | re-pricing moves the charge by exactly new quota minus old quota, within 32 bits |
| VideoLedger.QuotaGrowsWithTokens | controller/task_video.go:183-183 | more tokens never cost less |
| QuotaMath.SaturationIsSafe | common/quota_math.go:72-113 | conversions stay within 32 bits, keep the sign, are within one of the price in between and at the limits -2147483648 and 2147483647 beyond, 0 for NaN, and report a clamp iff the truncated price was not used |
| QuotaMath.TruncateIsClose | common/quota_math.go:72-86 | a truncated value is within one of the value, towards zero |
| QuotaMath.RoundIsNearest | common/quota_math.go:119-128 | a rounded value is a nearest integer, from the middle away from zero |
| QuotaMath.QuotaMonotone | common/quota_math.go:72-107 | a higher price never gives a lower quota, across both clamps and infinities |
| QuotaMath.RoundIsSymmetric | common/quota_math.go:119-128 | rounding stays within a half and a refund undoes the charge of the same amount |
| BodyStorage.MemoryStorage.Call | common/body_storage.go:47-81 | result and new state of each call on the memory storage |
| BodyStorage.DiskStorage.Call | common/body_storage.go:169-230 | result and new state of each call on the file storage, with the offset restored after Bytes |
| BodyStorage.File.ReadFull | common/body_storage.go:217-222 | the loop reads what is there, up to the asked length |
| BodyStorage.CallAgreesIff | common/body_storage.go:47-230 | a call shows the same on both iff it is not an empty read at or past the end |
| BodyStorage.ReadIsExact | common/body_storage.go:47-54 | a read shows the bytes from the position on, as many as asked for or left, and moves behind them |
| BodyStorage.SeekIsExact | common/body_storage.go:56-63 | a seek counts from start, position or end, and a negative result is refused |
| BodyStorage.ReadsDeliverTheContent | common/body_storage.go:47-54 | reads of any lengths deliver the content in order, and all of it once the end is reported |
| BodyStorage.StoragesAreEquivalent | common/body_storage.go:47-230 | no sequence of calls without empty reads tells the storages apart |
| BodyStorage.BytesAreTransparent | common/body_storage.go:74-81 | on both storages Bytes anywhere in a run shows the whole content and changes nothing any other call shows |
| BodyStorage.ClosedForGood | common/body_storage.go:47-81 | on both storages, after a Close every call of any run fails, or does nothing if it is a Close |
| BodyCache.Cache.CreateBodyStorage | common/body_storage.go:241-259 | counters and kind of storage, with the fallback to memory |
| BodyCache.Cache.CreateBodyStorageFromReader | common/body_storage.go:262-303 | counters after success and after each failure |
| BodyCache.Cache.CloseStorage | common/disk_cache_config.go:115-135 | counters after a close, clamped at zero on disk |
| BodyCache.CreateIsExact | common/body_storage.go:241-259 | a body goes to disk iff caching is on, it reaches the threshold, fits into the limit and the file is written |
| BodyCache.CreateFromReaderIsExact | common/body_storage.go:262-303 | a reader is refused iff it fails, exceeds the limit or is streamed to a file that cannot be written; otherwise one storage and one hit of its kind are added |
| BodyCache.CloseIsExact | common/disk_cache_config.go:109-135 | a close takes the storage's own share off the counters of its kind |
| BodyCache.OpenCountIsExact | common/disk_cache_config.go:109-135 | the count is the number of open storages of the kind |
| BodyCache.StartIsTruthful | common/disk_cache_config.go:91-91 | nothing is counted at the start |
| BodyCache.CountersAreTruthful | common/disk_cache_config.go:109-135 | over every run the counters equal number and total size of the storages created and not closed, so the clamps never bite |
| BodyCache.LaterCloseChangesNothing | common/body_storage.go:65-72 | closing a storage again changes nothing, whatever happened in between |
| BodyCache.HitsCountServed | common/body_storage.go:279-302 | over every run the hit counters grow by exactly the creations from readers that return a storage |
| BodyCache.DiskStaysWithinLimit | common/disk_cache_config.go:170-177 | over every run, disk usage stays within the maximum when bodies are no longer than declared |
| BodyCache.LimitOverrunIff | common/body_storage.go:262-283 | one call overruns it iff it streams a body longer than the room left |
| StepUpSession.SessionStore.FinishPasskey | controller/passkey.go:495-503 | the ready marker replaces the verified ones |
| StepUpSession.SessionStore.ConsumePasskeyReady | controller/secure_verification.go:157-179 | the marker is taken out and counts iff it is less than 60 seconds old |
| StepUpSession.SessionStore.UniversalVerify | controller/secure_verification.go:75-155 | session and answer for both methods and each failing save; granted iff it is saved and shows a valid non-empty code, or a marker less than 60 seconds old that could be taken out |
| StepUpSession.SessionStore.RequireMethod | controller/passkey.go:569-586 | session and answer of the check for a method |
| StepUpSession.SessionStore.SecureVerificationRequired | middleware/secure_verification.go:37-91 | session and answer of the check for either method, which administrators pass |
| StepUpSession.MarkersExclude | controller/secure_verification.go:145-155 | in every run the ready and the verified marker are never both present |
| StepUpSession.PasskeyVerifyIsBacked | controller/secure_verification.go:98-113 | a granted passkey verification spends a ceremony that finished less than 60 seconds before |
| StepUpSession.VerifyGrantedIff | controller/secure_verification.go:75-155 | in every run a verification is granted iff its session is saved and it shows a valid code of an enrolled method, or a ceremony that finished less than 60 seconds before |
| StepUpSession.ReadyIff | controller/secure_verification.go:157-179 | a ceremony counts until a marker is written or a passkey verification has taken it out, granted or not |
| StepUpSession.SessionAfter | controller/secure_verification.go:75-179 | what each request of a run leaves in the session |
| StepUpSession.CeremonyIsSpentOnce | controller/secure_verification.go:157-179 | no two granted verifications spend the same ceremony |
| StepUpSession.AcceptedCheckIsBacked | controller/passkey.go:569-586 | every accepted check rests on a verification by that method less than 300 seconds old, which showed a valid code or spent a ceremony less than 60 seconds old |
| StepUpSession.CheckAcceptedIff | controller/passkey.go:569-586 | with a clock that does not go back, a check is accepted iff the last marker written is such a verification |
| StepUpSession.GuardAcceptedIff | middleware/secure_verification.go:37-84 | with such a clock that check lets a request through iff it is an administrator's or the last marker written is such a verification by either method |
| Announcements.CountKeys | controller/option.go:144-148 | the loop counts each key |
| Announcements.NewAnnouncements | controller/option.go:143-161 | the loop keeps exactly the items whose earlier namesakes use up the old ones |
| Announcements.MailedIsTheDifference | controller/option.go:143-161 | the multiset of mailed keys is new minus old |
| Announcements.MailedIsSubsequence | controller/option.go:150-160 | mailed items appear in the order of the new list |
| Announcements.KeyIdentifies | controller/option.go:139-141 | without NUL in the first three fields, keys are equal iff items are |
| Announcements.KeysCollide | controller/option.go:139-141 | with NUL, two items can share a key |

## Left out

- HTTP handlers, JSON binding, audit and billing logs, notifications, OAuth, WebAuthn cryptography, Redis and SQL access.
- Multi-process deployments of the order lock, and other code that changes an order between the load and the save of a callback.
- Two multi-key requests at once: the channel is loaded before the lock is taken, so each action is atomic on what it loaded; key balance checks are not modelled.
- UpdateAbilities and the cache refresh after a saved change of models or keys.
- PriceDiff.ReportIsExact: assumes distinct channel names, which the caller builds from name and id; model mappings, which depend on Go's map order under collisions, are not modelled.
- ModelsDev.Convert: one map to a record of ratios stands for three maps of numbers.
- Audio formats other than Opus, which call third-party decoders.
- RateLimiter: the eviction loop's sleeping and Go's slice capacity, which a negative limit would make panic; callers use one rule per key.
- Midjourney: the columns that are only copied and compared are one text; unknown ids in an answer are skipped; the bulk update of tasks without an id is an event; of the submit handler only the inserted row is modelled.
- VideoLedger: polls work from the stored row, one after the other; the query that skips finished tasks is not part of this model, progress and time columns are left out.
- BodyCache.DiskStaysWithinLimit: each creation is one step, so two creations that both pass the room check before either is counted are not modelled; cleanup of old files and counter resets are left out.
- StepUpSession: the session is one piece of state that each request reads and saves in turn; replays of earlier session cookies are left out.
- Floating-point rounding.
