# Adblock Plus for Samsung Internet: filter-list client core in Dafny

This project models the decision logic of the Adblock Plus add-on for Samsung Internet:

- **Subscriptions** (`Subscription.dfy`): the subscription value and its `randomizedUrl` getter. The getter sends EasyList downloads to one of ten mirror hosts.
- **Downloader** (`Downloader.dfy`) covers the subscription downloader:
  - when a cached filter list may be served without a request (the 1 h, 24 h and 3 day expiry rules);
  - the query and the conditional `If-Modified-Since` / `If-None-Match` headers of the request (sections 3.2 and 3.3 of RFC 7232);
  - how the filter-list header block yields a version;
  - how a 200, a 304, another status or an exception becomes `Success`, `NotModified` or `Failed`.
- **UserCounting** (`UserCounter.dfy`) covers the anonymous user counter:
  - the HEAD ping and its nine query parameters;
  - the `yyyyMMddHHmm` timestamp taken from the server's `Date` header;
  - the ping count that stops at 4;
  - the release and debug handling of an unparsable date.
- **SettingsData** (`Settings.dfy`): the persisted settings and the repository that updates them. It covers the allowed and blocked domain lists, the active primary and other subscription lists, two switches and the update policy.
- **OtherSubscriptions** (`OtherSubscriptions.dfy`) covers the "other subscriptions" screen:
  - the default rows, each active when an active subscription has its url;
  - the custom rows, built from active subscriptions that match no default;
  - the toggle, add and remove actions.
- **Launcher** (`Launcher.dfy`): the choice of the start screen (onboarding, its last step, or main).
- **Updates** (`Updates.dfy`): the update-policy spinner conversions, the analytics event logged for each choice, and the forced manual update.
- **Text** (`Text.dfy`) and **Wrappers** (`Wrappers.dfy`): the JVM string operations the core relies on, and an `Option` type.

Classes stand for the objects whose state changes:

- `OkHttpUserCounter` holds the two stored counter values.
- `DataStoreSettingsRepository` holds the single stored settings value.
- The two view models act on the repository and on logs of analytics events and scheduled updates.

Each method is proved against a function of the old state, and the properties are proved about those functions. The pure parts of the source are functions: expiry, skipping, headers, version extraction, the item lists and the direction.

The following are parameters of the operations:

- the clock;
- whether the connection is metered;
- whether the downloaded file exists;
- the random mirror digit;
- the build type;
- the HTTP exchange.

Where the code is more specific than the documented behaviour, the model follows the code:

- A 200 response to the user-counting ping with no `Date` header at all gives `Failed` and writes nothing, even in a debug build. The date parser throws a `NullPointerException`, not a `ParseException`, and the outer handler turns any other exception into a failure. Only an unparsable `Date` is rescued with the client clock.
- The stored ping count is only guaranteed to stay at most 4 when it starts at most 4: the code never writes it once it is 4 or more, and never lowers it.
- `Subscription` has exactly the three fields `url`, `title` and `lastUpdate`.

## Model

| member | source | states |
|---|---|---|
| Text.IntToDecimal | core/src/main/kotlin/org/adblockplus/adblockplussbrowser/core/downloader/OkHttpDownloader.kt:259 | `Int.toString` / `Long.toString` gives canonical decimal text (digits with no leading zero, a `-` only before a non-zero number) that `ParseInt` reads back as the same integer, negative ones included |
| Text.DecimalUnique | core/src/main/kotlin/org/adblockplus/adblockplussbrowser/core/downloader/OkHttpDownloader.kt:259 | canonical decimal text is unique: any canonical string that reads back as `n` is `IntToDecimal(n)`, so `toString` is pinned by its canonical form and its value |
| Text.Trim | core/src/main/kotlin/org/adblockplus/adblockplussbrowser/core/downloader/OkHttpDownloader.kt:210 | `trim` removes only whitespace: the result occurs at some index of the input, every character before that index and after the result is JVM whitespace, and the result neither starts nor ends with whitespace |
| Text.IndexOf | core/src/main/kotlin/org/adblockplus/adblockplussbrowser/core/downloader/OkHttpDownloader.kt:214 | the split point of `split(":", limit = 2)` is the first `:`; None exactly when there is no `:` |
| Text.ContainsIgnoreCaseAt | core/src/main/kotlin/org/adblockplus/adblockplussbrowser/core/downloader/OkHttpDownloader.kt:217 | `contains(p, ignoreCase = true)` holds exactly when some position of the text matches `p` character by character, ignoring case |
| Subscriptions.MirrorHost | base/src/main/kotlin/org/adblockplus/adblockplussbrowser/base/data/model/Subscription.kt:37 | the mirror host starts with the drawn digit and is 49 characters long |
| Subscriptions.ReplaceAllAbsent | base/src/main/kotlin/org/adblockplus/adblockplussbrowser/base/data/model/Subscription.kt:35-37 | `replace` leaves a string without the pattern unchanged |
| Subscriptions.ReplaceAllKeepsPrefix | base/src/main/kotlin/org/adblockplus/adblockplussbrowser/base/data/model/Subscription.kt:35-37 | text before the first occurrence of the pattern is copied as it is, and the replacement carries on after it |
| Subscriptions.RandomizedUrl | base/src/main/kotlin/org/adblockplus/adblockplussbrowser/base/data/model/Subscription.kt:33-38 | the randomised url never contains `easylist-downloads.adblockplus.org`, whatever digit is drawn, and a url without that host is returned unchanged |
| Subscriptions.RandomizedUrlReplacesHost | base/src/main/kotlin/org/adblockplus/adblockplussbrowser/base/data/model/Subscription.kt:33-38 | a url `p` + host + `q`, with no earlier occurrence of the host and none in `q`, becomes `p` + mirror host + `q` |
| Subscriptions.RandomizedUrlExample | base/src/main/kotlin/org/adblockplus/adblockplussbrowser/base/data/model/Subscription.kt:33-38 | `https://easylist-downloads.adblockplus.org/easylist.txt` becomes `https://` + the mirror host of the drawn digit + `/easylist.txt` |
| Subscriptions.RandomizedUrlLeadingHost | base/src/main/kotlin/org/adblockplus/adblockplussbrowser/base/data/model/Subscription.kt:35-37 | a url starting with the EasyList host starts with the mirror host for the drawn digit after the getter |
| Subscriptions.ReplaceAllKeepsNonPrefix | base/src/main/kotlin/org/adblockplus/adblockplussbrowser/base/data/model/Subscription.kt:35-37 | replacing cannot create a prefix that the input lacked when the replacement starts with a character foreign to that prefix |
| Subscriptions.ReplaceAllRemovesAll | base/src/main/kotlin/org/adblockplus/adblockplussbrowser/base/data/model/Subscription.kt:35-37 | after `replace`, no occurrence of the pattern remains, including ones that straddle a replacement |
| Subscriptions.MirrorHostLacksDomain | base/src/main/kotlin/org/adblockplus/adblockplussbrowser/base/data/model/Subscription.kt:36-37 | no mirror host contains the EasyList host name |
| Downloader.WrapInt32 | core/src/main/kotlin/org/adblockplus/adblockplussbrowser/core/downloader/OkHttpDownloader.kt:77 | Kotlin `Int` arithmetic: the result lies in [-2^31, 2^31) and equals the input when the input is in range |
| Downloader.NeverDownloaded | core/src/main/kotlin/org/adblockplus/adblockplussbrowser/core/downloader/OkHttpDownloader.kt:153-159 | a record never downloaded has lastUpdated 0, version "0", count 0, and never yields a conditional header |
| Downloader.FirstWithUrl | core/src/main/kotlin/org/adblockplus/adblockplussbrowser/core/downloader/OkHttpDownloader.kt:151-153 | `firstOrNull { it.url == url }`: None exactly when no record has the url, else the first record that has it |
| Downloader.GetDownloadedSubscription | core/src/main/kotlin/org/adblockplus/adblockplussbrowser/core/downloader/OkHttpDownloader.kt:147-161 | the stored record for the url if there is one, otherwise a fresh record at the hashed path; a fresh record with an empty path when the url does not parse |
| Downloader.RefreshInterval | core/src/main/kotlin/org/adblockplus/adblockplussbrowser/core/downloader/OkHttpDownloader.kt:241-245 | a new subscription gets 1 h, whatever the metering; otherwise 3 days when metered and 24 h when not |
| Downloader.IsExpired | core/src/main/kotlin/org/adblockplus/adblockplussbrowser/core/downloader/OkHttpDownloader.kt:237-250 | expired exactly when more than 1 h (new subscription), 3 days (metered) or 24 h (unmetered) have passed since the last update |
| Downloader.ExpiryBoundary | core/src/main/kotlin/org/adblockplus/adblockplussbrowser/core/downloader/OkHttpDownloader.kt:249 | an elapsed time equal to the interval is not expired; one more millisecond is |
| Downloader.ExpiryMonotone | core/src/main/kotlin/org/adblockplus/adblockplussbrowser/core/downloader/OkHttpDownloader.kt:237-250 | once expired, a record stays expired as the clock advances |
| Downloader.ExpiryOrder | core/src/main/kotlin/org/adblockplus/adblockplussbrowser/core/downloader/OkHttpDownloader.kt:252-256 | the intervals are ordered 1 h < 24 h < 3 days |
| Downloader.CanSkipDownload | core/src/main/kotlin/org/adblockplus/adblockplussbrowser/core/downloader/OkHttpDownloader.kt:123-129 | forced never skips; new or periodic skips exactly when the file exists and has not expired; otherwise skips exactly when the file exists |
| Downloader.IfExists | core/src/main/kotlin/org/adblockplus/adblockplussbrowser/core/downloader/OkHttpDownloader.kt:87 | the previous record is reported only when its file exists |
| Downloader.Downloaded | core/src/main/kotlin/org/adblockplus/adblockplussbrowser/core/downloader/OkHttpDownloader.kt:72-78 | the record after a 200 keeps url and path, takes the server validators or `""`, the new version and the count plus one wrapped to Kotlin `Int` (so `Int.MAX_VALUE` becomes `Int.MIN_VALUE`), has lastUpdated set to now, and is not expired at that moment under any interval |
| Downloader.AsDownloadCount | core/src/main/kotlin/org/adblockplus/adblockplussbrowser/core/downloader/OkHttpDownloader.kt:259 | below 4 the bucket is the count's `toString` (canonical, reading back as the count), and is `"4+"` exactly when the count is at least 4 |
| Downloader.DownloadQuery | core/src/main/kotlin/org/adblockplus/adblockplussbrowser/core/downloader/OkHttpDownloader.kt:163-177 | eight parameters in the fixed order addonName, addonVersion, application, applicationVersion, platform, platformVersion, lastVersion, downloadCount, with the client values and the stored version; `downloadCount` is `"4+"` exactly when the stored count is at least 4 and is the count's `toString` below 4 |
| Downloader.ConditionalHeaders | core/src/main/kotlin/org/adblockplus/adblockplussbrowser/core/downloader/OkHttpDownloader.kt:183-194 | no headers when forced or when the file is missing; otherwise If-Modified-Since exactly when lastModified is non-empty and If-None-Match exactly when etag is non-empty, at most one of each, in that order |
| Downloader.DownloadRequest | core/src/main/kotlin/org/adblockplus/adblockplussbrowser/core/downloader/OkHttpDownloader.kt:179-195 | a GET to the subscription url with the download query and the conditional headers |
| Downloader.HeaderBlock | core/src/main/kotlin/org/adblockplus/adblockplussbrowser/core/downloader/OkHttpDownloader.kt:224-230 | the header block is the longest prefix of lines that are non-empty and start with `[` or `!` |
| Downloader.ReadHeader | core/src/main/kotlin/org/adblockplus/adblockplussbrowser/core/downloader/OkHttpDownloader.kt:224-230 | the loop that reads lines until the stop condition returns exactly the header block |
| Downloader.HeaderBlockUnique | core/src/main/kotlin/org/adblockplus/adblockplussbrowser/core/downloader/OkHttpDownloader.kt:227 | any prefix of header lines that ends at a non-header line or at the end of the file is the header block |
| Downloader.VersionEntry | core/src/main/kotlin/org/adblockplus/adblockplussbrowser/core/downloader/OkHttpDownloader.kt:210-218 | a line declares a version only when, trimmed, it starts with `!` and holds a `:` |
| Downloader.VersionEntries | core/src/main/kotlin/org/adblockplus/adblockplussbrowser/core/downloader/OkHttpDownloader.kt:210-218 | one entry per header line, each the version that line declares, if any |
| Downloader.FirstSome | core/src/main/kotlin/org/adblockplus/adblockplussbrowser/core/downloader/OkHttpDownloader.kt:219 | `firstOrNull` over the entries: None exactly when every entry is absent, else the first present one |
| Downloader.FirstSomeAt | core/src/main/kotlin/org/adblockplus/adblockplussbrowser/core/downloader/OkHttpDownloader.kt:219 | the first present entry is the one that every earlier entry is absent before |
| Downloader.FoundVersionEntry | core/src/main/kotlin/org/adblockplus/adblockplussbrowser/core/downloader/OkHttpDownloader.kt:219 | the entry `firstOrNull` finds is the version entry of some header line, and no earlier header line has one |
| Downloader.VersionOfHeader | core/src/main/kotlin/org/adblockplus/adblockplussbrowser/core/downloader/OkHttpDownloader.kt:219-221 | "0" when no header line declares a version; otherwise the version of a header line that no earlier header line precedes with one |
| Downloader.ExtractVersionFirstEntry | core/src/main/kotlin/org/adblockplus/adblockplussbrowser/core/downloader/OkHttpDownloader.kt:209-222 | the version is the trimmed value of the first header-block line that declares a version |
| Downloader.ExtractVersionDefault | core/src/main/kotlin/org/adblockplus/adblockplussbrowser/core/downloader/OkHttpDownloader.kt:221-228 | the version is `"0"` when no line of the header block (the `takeWhile` prefix of header lines) declares one, whatever the lines after the block hold |
| Downloader.ExtractVersionStopsAtBody | core/src/main/kotlin/org/adblockplus/adblockplussbrowser/core/downloader/OkHttpDownloader.kt:224-228 | once a line that is not a header line is reached, later version lines are never read: with no entry before it the version is `"0"` |
| Downloader.HeaderBlockEndsBefore | core/src/main/kotlin/org/adblockplus/adblockplussbrowser/core/downloader/OkHttpDownloader.kt:224-228 | the header block ends at or before the first line that is not a header line |
| Downloader.NoCommentLinesMeansDefaultVersion | core/src/main/kotlin/org/adblockplus/adblockplussbrowser/core/downloader/OkHttpDownloader.kt:210-221 | a file with no line starting with `!` has version `"0"` |
| Downloader.VersionEntryNotComment | core/src/main/kotlin/org/adblockplus/adblockplussbrowser/core/downloader/OkHttpDownloader.kt:211 | a line that does not start with `!` after trimming declares no version |
| Downloader.VersionEntryOf | core/src/main/kotlin/org/adblockplus/adblockplussbrowser/core/downloader/OkHttpDownloader.kt:212-218 | a line whose trimmed text starts with `!` and whose trimmed key before the first `:` contains "version" in any case declares the trimmed rest of the trimmed text, whatever blanks surround the line |
| Downloader.VersionEntryOfOther | core/src/main/kotlin/org/adblockplus/adblockplussbrowser/core/downloader/OkHttpDownloader.kt:217 | a line whose trimmed text starts with `!` and holds a `:`, and whose trimmed key does not contain "version", declares nothing |
| Downloader.ExtractVersionExample | core/src/main/kotlin/org/adblockplus/adblockplussbrowser/core/downloader/OkHttpDownloader.kt:209-229 | the header `[Adblock Plus 2.0]`, `! Title: Test`, `! Version: 202301010000` yields the version `202301010000` |
| Downloader.ExtractVersionThirdEntry | core/src/main/kotlin/org/adblockplus/adblockplussbrowser/core/downloader/OkHttpDownloader.kt:209-222 | when the first two header lines declare nothing and the third declares `v`, the version is `v` |
| Downloader.DownloadOutcome | core/src/main/kotlin/org/adblockplus/adblockplussbrowser/core/downloader/OkHttpDownloader.kt:43-98 | given that a url that does not parse has no file (its record's path is empty), a skipped download returns the record unchanged; Success exactly when not skipped, the url parses and the answer is 200, with the count incremented with 32-bit wrap-around (`WrapInt32`) and the validators taken from the headers or `""`; a 304 returns the record with lastUpdated set to now; Failed exactly when not skipped and the url does not parse, the call throws or the status is another one, carrying the previous record only when its file exists |
| Downloader.Download | core/src/main/kotlin/org/adblockplus/adblockplussbrowser/core/downloader/OkHttpDownloader.kt:43-98 | the result is DownloadOutcome for the looked-up record; no request is sent exactly when the download may be skipped or the url does not parse, otherwise the request carries the query and the conditional headers |
| Downloader.ForcedDownloadUsesExchange | core/src/main/kotlin/org/adblockplus/adblockplussbrowser/core/downloader/OkHttpDownloader.kt:123-124 | a forced download always reaches the network: an exception then gives Failed |
| Downloader.RevalidationAfterSuccess | core/src/main/kotlin/org/adblockplus/adblockplussbrowser/core/downloader/OkHttpDownloader.kt:66-84 | after a 200, the next request carries the validators the server sent, and a 304 answer keeps the count and the validators |
| UserCounting.ZeroPadded | core/src/main/kotlin/org/adblockplus/adblockplussbrowser/core/usercounter/OkHttpUserCounter.kt:142 | a zero-padded field has at least the requested width, only digits, and reads back as the number |
| UserCounting.ZeroPaddedExact | core/src/main/kotlin/org/adblockplus/adblockplussbrowser/core/usercounter/OkHttpUserCounter.kt:142 | a field below 10^w is printed with exactly w digits |
| UserCounting.ParseNatAppend | core/src/main/kotlin/org/adblockplus/adblockplussbrowser/core/usercounter/OkHttpUserCounter.kt:93 | reading a concatenation of digit strings shifts the first part left by the length of the second |
| UserCounting.ParseFields | core/src/main/kotlin/org/adblockplus/adblockplussbrowser/core/usercounter/OkHttpUserCounter.kt:93 | reading five digit groups, the last four two digits wide, gives their positional value |
| UserCounting.FormatCompact | core/src/main/kotlin/org/adblockplus/adblockplussbrowser/core/usercounter/OkHttpUserCounter.kt:142-143 | the formatted instant is only digits, at least twelve, and exactly twelve up to the year 9999 |
| UserCounting.FormatValue | core/src/main/kotlin/org/adblockplus/adblockplussbrowser/core/usercounter/OkHttpUserCounter.kt:142-143 | the `yyyyMMddHHmm` text of an instant reads back as year·10^8 + month·10^6 + day·10^4 + hour·100 + minute |
| UserCounting.TimestampOf | core/src/main/kotlin/org/adblockplus/adblockplussbrowser/core/usercounter/OkHttpUserCounter.kt:93 | `newLastVersion.toLong()` is the fields laid out as decimal digit groups |
| UserCounting.TimestampRoundTrip | core/src/main/kotlin/org/adblockplus/adblockplussbrowser/core/usercounter/OkHttpUserCounter.kt:142-143 | every field of the instant can be read back from the stored number |
| UserCounting.TimestampOrder | core/src/main/kotlin/org/adblockplus/adblockplussbrowser/core/usercounter/OkHttpUserCounter.kt:142-143 | one stored timestamp is smaller than another exactly when its instant is earlier |
| UserCounting.UserCountingQuery | core/src/main/kotlin/org/adblockplus/adblockplussbrowser/core/usercounter/OkHttpUserCounter.kt:118-138 | nine parameters in the fixed order addonName … downloadCount; `disabled` is `"true"` when acceptable ads are off and `"false"` when they are on; `lastVersion` is the `toString` of the saved timestamp; `downloadCount` is `"4+"` exactly when the count is at least 4 and is the count's `toString` below 4 |
| UserCounting.UserCountingRequest | core/src/main/kotlin/org/adblockplus/adblockplussbrowser/core/usercounter/OkHttpUserCounter.kt:66-68 | a HEAD request without extra headers, whose url is the randomised url and whose query is UserCountingQuery of the stored values; the url never contains the EasyList host and is the subscription url when that host is absent |
| UserCounting.CountOutcomeOf | core/src/main/kotlin/org/adblockplus/adblockplussbrowser/core/usercounter/OkHttpUserCounter.kt:73-115 | Success exactly on a 200 whose Date parses, or does not parse in a release build; the ParseException escapes exactly on a 200 with an unparsable Date in a debug build; an exception or another status gives Failed |
| UserCounting.NextCount | core/src/main/kotlin/org/adblockplus/adblockplussbrowser/core/usercounter/OkHttpUserCounter.kt:95-96 | the count goes up by one while it is below 4 and is left alone from 4 on |
| UserCounting.RecordedInstant | core/src/main/kotlin/org/adblockplus/adblockplussbrowser/core/usercounter/OkHttpUserCounter.kt:77-90 | the server instant when the Date header parsed, the client clock otherwise |
| UserCounting.StoredAfterCount | core/src/main/kotlin/org/adblockplus/adblockplussbrowser/core/usercounter/OkHttpUserCounter.kt:93-96 | nothing is written unless the ping succeeds; on success the timestamp of the server time (else the client clock) is stored, and the count changes, by exactly one, only when it was below 4 |
| UserCounting.CountNeverExceedsMax | core/src/main/kotlin/org/adblockplus/adblockplussbrowser/core/usercounter/OkHttpUserCounter.kt:95-96 | a stored count that starts at most 4 stays at most 4 |
| UserCounting.FailureWritesNothing | core/src/main/kotlin/org/adblockplus/adblockplussbrowser/core/usercounter/OkHttpUserCounter.kt:99-103 | a non-200 response or an exception gives Failed and writes neither the timestamp nor the count |
| UserCounting.UnparsableDate | core/src/main/kotlin/org/adblockplus/adblockplussbrowser/core/usercounter/OkHttpUserCounter.kt:81-89 | an unparsable Date succeeds with the client clock in a release build; in a debug build the exception escapes and nothing is written |
| UserCounting.CountSaturates | core/src/main/kotlin/org/adblockplus/adblockplussbrowser/core/usercounter/OkHttpUserCounter.kt:94-96 | successive successful pings count up to 4 and then stop |
| UserCounting.OkHttpUserCounter.Count | core/src/main/kotlin/org/adblockplus/adblockplussbrowser/core/usercounter/OkHttpUserCounter.kt:58-116 | the request is built from the stored values; the outcome is CountOutcomeOf and the new stored state is StoredAfterCount of the old one |
| SettingsData.RemoveAll | settings/src/main/kotlin/org/adblockplus/adblockplussbrowser/settings/data/DataStoreSettingsRepository.kt:66 | `filter { it != domain }`: every copy of the domain goes and every other entry keeps its multiplicity |
| SettingsData.RemoveAllAppend | settings/src/main/kotlin/org/adblockplus/adblockplussbrowser/settings/data/DataStoreSettingsRepository.kt:66 | filtering commutes with concatenation, so the kept entries stay in their order |
| SettingsData.AddDomain | settings/src/main/kotlin/org/adblockplus/adblockplussbrowser/settings/data/DataStoreSettingsRepository.kt:53-61 | the domain is present afterwards and nothing else is added; the old list is kept as a prefix; the list grows by one exactly when the domain was absent |
| SettingsData.RemoveDomain | settings/src/main/kotlin/org/adblockplus/adblockplussbrowser/settings/data/DataStoreSettingsRepository.kt:63-72 | the domain is absent afterwards, every other entry keeps its multiplicity, and membership of other entries is unchanged |
| SettingsData.RemoveDomainIsFilter | settings/src/main/kotlin/org/adblockplus/adblockplussbrowser/settings/data/DataStoreSettingsRepository.kt:63-72 | the `contains` guard does not change the result: removing is the filter, a no-op when the domain is absent |
| SettingsData.AddDomainIdempotent | settings/src/main/kotlin/org/adblockplus/adblockplussbrowser/settings/data/DataStoreSettingsRepository.kt:53-61 | adding a domain twice is the same as adding it once |
| SettingsData.RemoveDomainIdempotent | settings/src/main/kotlin/org/adblockplus/adblockplussbrowser/settings/data/DataStoreSettingsRepository.kt:63-72 | removing a domain twice is the same as removing it once |
| SettingsData.AddDomainKeepsDistinct | settings/src/main/kotlin/org/adblockplus/adblockplussbrowser/settings/data/DataStoreSettingsRepository.kt:53-61 | a domain list without duplicates has none after an add |
| SettingsData.RemoveAfterAddDomain | settings/src/main/kotlin/org/adblockplus/adblockplussbrowser/settings/data/DataStoreSettingsRepository.kt:53-72 | removing a domain just added restores the list |
| SettingsData.AddAfterRemoveDomain | settings/src/main/kotlin/org/adblockplus/adblockplussbrowser/settings/data/DataStoreSettingsRepository.kt:53-72 | adding a domain just removed puts it last, after the other entries in their order |
| SettingsData.FindByUrl | settings/src/main/kotlin/org/adblockplus/adblockplussbrowser/settings/data/DataStoreSettingsRepository.kt:109 | `find { it.url == url }`: None exactly when no entry has the url, else the first entry that has it |
| SettingsData.WithoutUrl | settings/src/main/kotlin/org/adblockplus/adblockplussbrowser/settings/data/DataStoreSettingsRepository.kt:121 | `filter { it.url != url }` keeps exactly the entries with another url |
| SettingsData.WithoutUrlMultiplicity | settings/src/main/kotlin/org/adblockplus/adblockplussbrowser/settings/data/DataStoreSettingsRepository.kt:121 | entries with another url keep their multiplicity; entries with the url are gone |
| SettingsData.AddSubscription | settings/src/main/kotlin/org/adblockplus/adblockplussbrowser/settings/data/DataStoreSettingsRepository.kt:107-115 | an entry with the same url, whatever its title, blocks the add; otherwise the subscription is appended; either way the url is then present |
| SettingsData.RemoveSubscription | settings/src/main/kotlin/org/adblockplus/adblockplussbrowser/settings/data/DataStoreSettingsRepository.kt:117-128 | exactly the entries with the url are dropped, and the url is absent afterwards |
| SettingsData.RemoveSubscriptionIsFilter | settings/src/main/kotlin/org/adblockplus/adblockplussbrowser/settings/data/DataStoreSettingsRepository.kt:117-128 | the `find` guard does not change the result: removing is the url filter, which keeps order and multiplicity |
| SettingsData.AddSubscriptionKeepsUniqueUrls | settings/src/main/kotlin/org/adblockplus/adblockplussbrowser/settings/data/DataStoreSettingsRepository.kt:107-115 | a list whose urls are unique keeps them unique after an add |
| SettingsData.RemoveAfterAddSubscription | settings/src/main/kotlin/org/adblockplus/adblockplussbrowser/settings/data/DataStoreSettingsRepository.kt:107-128 | removing, under any title, a subscription just added restores the list |
| SettingsData.SetDomains | settings/src/main/kotlin/org/adblockplus/adblockplussbrowser/settings/data/DataStoreSettingsRepository.kt:74-78 | the chosen domain list is replaced wholesale; the other list and every other field keep their values |
| SettingsData.AddDomainTo | settings/src/main/kotlin/org/adblockplus/adblockplussbrowser/settings/data/DataStoreSettingsRepository.kt:53-61 | the chosen list becomes AddDomain of the old one (unchanged if the domain is listed, else the domain appended once), so it holds the domain and the old entries with the old list as a prefix; the other list and every other field are unchanged |
| SettingsData.RemoveDomainFrom | settings/src/main/kotlin/org/adblockplus/adblockplussbrowser/settings/data/DataStoreSettingsRepository.kt:63-72 | the chosen list becomes the `filter { it != domain }` of the old one, in order: every copy of the domain leaves it and the rest keep their multiplicity; the other list and every other field are unchanged |
| SettingsData.SetSubscriptions | settings/src/main/kotlin/org/adblockplus/adblockplussbrowser/settings/data/DataStoreSettingsRepository.kt:130-136 | the chosen subscription list is replaced wholesale; the other list and every other field keep their values |
| SettingsData.AddSubscriptionTo | settings/src/main/kotlin/org/adblockplus/adblockplussbrowser/settings/data/DataStoreSettingsRepository.kt:107-115 | the chosen list becomes AddSubscription of the old one (unchanged when the url is listed, else the subscription appended), so it has the url, keeps the old list as a prefix and grows by at most one; the other list and every other field are unchanged |
| SettingsData.RemoveSubscriptionFrom | settings/src/main/kotlin/org/adblockplus/adblockplussbrowser/settings/data/DataStoreSettingsRepository.kt:117-128 | the chosen list becomes its url filter and no longer has the url; the other list and every other field are unchanged |
| SettingsData.DomainUpdateLeavesOthers | settings/src/main/kotlin/org/adblockplus/adblockplussbrowser/settings/data/DataStoreSettingsRepository.kt:80-99 | an add or a remove on one domain list leaves the other domain list and both subscription lists untouched |
| SettingsData.WithAdblockEnabled | settings/src/main/kotlin/org/adblockplus/adblockplussbrowser/settings/data/DataStoreSettingsRepository.kt:35-39 | only `adblockEnabled` changes |
| SettingsData.WithAcceptableAdsEnabled | settings/src/main/kotlin/org/adblockplus/adblockplussbrowser/settings/data/DataStoreSettingsRepository.kt:41-45 | only `acceptableAdsEnabled` changes |
| SettingsData.WithUpdateConfig | settings/src/main/kotlin/org/adblockplus/adblockplussbrowser/settings/data/DataStoreSettingsRepository.kt:47-51 | only `updateConfig` changes |
| SettingsData.DataStoreSettingsRepository.SetAdblockEnabled | settings/src/main/kotlin/org/adblockplus/adblockplussbrowser/settings/data/DataStoreSettingsRepository.kt:35-39 | the stored settings become WithAdblockEnabled of the old settings |
| SettingsData.DataStoreSettingsRepository.SetAcceptableAdsEnabled | settings/src/main/kotlin/org/adblockplus/adblockplussbrowser/settings/data/DataStoreSettingsRepository.kt:41-45 | the stored settings become WithAcceptableAdsEnabled of the old settings |
| SettingsData.DataStoreSettingsRepository.SetUpdateConfig | settings/src/main/kotlin/org/adblockplus/adblockplussbrowser/settings/data/DataStoreSettingsRepository.kt:47-51 | the stored settings become WithUpdateConfig of the old settings |
| SettingsData.DataStoreSettingsRepository.AddAllowedDomain | settings/src/main/kotlin/org/adblockplus/adblockplussbrowser/settings/data/DataStoreSettingsRepository.kt:53-61 | the allowed list becomes AddDomain of the old one; nothing else changes |
| SettingsData.DataStoreSettingsRepository.RemoveAllowedDomain | settings/src/main/kotlin/org/adblockplus/adblockplussbrowser/settings/data/DataStoreSettingsRepository.kt:63-72 | the allowed list becomes RemoveDomain of the old one; nothing else changes |
| SettingsData.DataStoreSettingsRepository.SetAllowedDomains | settings/src/main/kotlin/org/adblockplus/adblockplussbrowser/settings/data/DataStoreSettingsRepository.kt:74-78 | the allowed list is replaced; nothing else changes |
| SettingsData.DataStoreSettingsRepository.AddBlockedDomain | settings/src/main/kotlin/org/adblockplus/adblockplussbrowser/settings/data/DataStoreSettingsRepository.kt:80-88 | the blocked list becomes AddDomain of the old one; nothing else changes |
| SettingsData.DataStoreSettingsRepository.RemoveBlockedDomain | settings/src/main/kotlin/org/adblockplus/adblockplussbrowser/settings/data/DataStoreSettingsRepository.kt:90-99 | the blocked list becomes RemoveDomain of the old one; nothing else changes |
| SettingsData.DataStoreSettingsRepository.SetBlockedDomains | settings/src/main/kotlin/org/adblockplus/adblockplussbrowser/settings/data/DataStoreSettingsRepository.kt:101-105 | the blocked list is replaced; nothing else changes |
| SettingsData.DataStoreSettingsRepository.AddActivePrimarySubscription | settings/src/main/kotlin/org/adblockplus/adblockplussbrowser/settings/data/DataStoreSettingsRepository.kt:107-115 | the primary list becomes AddSubscription of the old one; nothing else changes |
| SettingsData.DataStoreSettingsRepository.RemoveActivePrimarySubscription | settings/src/main/kotlin/org/adblockplus/adblockplussbrowser/settings/data/DataStoreSettingsRepository.kt:117-128 | the primary list becomes RemoveSubscription of the old one; nothing else changes |
| SettingsData.DataStoreSettingsRepository.SetActivePrimarySubscriptions | settings/src/main/kotlin/org/adblockplus/adblockplussbrowser/settings/data/DataStoreSettingsRepository.kt:130-136 | the primary list is replaced; nothing else changes |
| SettingsData.DataStoreSettingsRepository.AddActiveOtherSubscription | settings/src/main/kotlin/org/adblockplus/adblockplussbrowser/settings/data/DataStoreSettingsRepository.kt:138-146 | the other list becomes AddSubscription of the old one; nothing else changes |
| SettingsData.DataStoreSettingsRepository.RemoveActiveOtherSubscription | settings/src/main/kotlin/org/adblockplus/adblockplussbrowser/settings/data/DataStoreSettingsRepository.kt:148-159 | the other list becomes RemoveSubscription of the old one; nothing else changes |
| SettingsData.DataStoreSettingsRepository.SetActiveOtherSubscriptions | settings/src/main/kotlin/org/adblockplus/adblockplussbrowser/settings/data/DataStoreSettingsRepository.kt:161-167 | the other list is replaced; nothing else changes |
| OtherSubscriptions.CustomSubscriptions | preferences/src/main/kotlin/org/adblockplus/adblockplussbrowser/preferences/ui/othersubscriptions/OtherSubscriptionsViewModel.kt:24-26 | the custom subscriptions are exactly the active ones whose url matches no default |
| OtherSubscriptions.MatchedSubscriptions | preferences/src/main/kotlin/org/adblockplus/adblockplussbrowser/preferences/ui/othersubscriptions/OtherSubscriptionsViewModel.kt:24-26 | the complement: exactly the active subscriptions whose url some default has |
| OtherSubscriptions.CustomPartition | preferences/src/main/kotlin/org/adblockplus/adblockplussbrowser/preferences/ui/othersubscriptions/OtherSubscriptionsViewModel.kt:24-26 | every active subscription is either custom or matched, with its multiplicity |
| OtherSubscriptions.CustomSubscriptionsAppend | preferences/src/main/kotlin/org/adblockplus/adblockplussbrowser/preferences/ui/othersubscriptions/OtherSubscriptionsViewModel.kt:24-26 | the custom filter commutes with concatenation, so custom subscriptions keep their active order |
| OtherSubscriptions.DefaultItemFor | preferences/src/main/kotlin/org/adblockplus/adblockplussbrowser/preferences/ui/othersubscriptions/OtherSubscriptionsViewModel.kt:59-62 | the row for a default is a default row at its index, showing a subscription with the default url |
| OtherSubscriptions.DefaultItemMeaning | preferences/src/main/kotlin/org/adblockplus/adblockplussbrowser/preferences/ui/othersubscriptions/OtherSubscriptionsViewModel.kt:59-62 | a default row is active exactly when some active subscription has its url; it then shows the first such active subscription, otherwise the default itself |
| OtherSubscriptions.DefaultSection | preferences/src/main/kotlin/org/adblockplus/adblockplussbrowser/preferences/ui/othersubscriptions/OtherSubscriptionsViewModel.kt:54-66 | empty without defaults, else a default header followed by one row per default, in order, with its index |
| OtherSubscriptions.CustomSection | preferences/src/main/kotlin/org/adblockplus/adblockplussbrowser/preferences/ui/othersubscriptions/OtherSubscriptionsViewModel.kt:68-78 | empty without custom subscriptions, else a custom header followed by one row per custom subscription, in order, with its index |
| OtherSubscriptions.DefaultItems | preferences/src/main/kotlin/org/adblockplus/adblockplussbrowser/preferences/ui/othersubscriptions/OtherSubscriptionsViewModel.kt:54-66 | the list the loop fills is the default section |
| OtherSubscriptions.CustomItems | preferences/src/main/kotlin/org/adblockplus/adblockplussbrowser/preferences/ui/othersubscriptions/OtherSubscriptionsViewModel.kt:68-78 | the list the loop fills is the custom section |
| OtherSubscriptions.SubscriptionItems | preferences/src/main/kotlin/org/adblockplus/adblockplussbrowser/preferences/ui/othersubscriptions/OtherSubscriptionsViewModel.kt:21-28 | the list is the default section followed by the custom section of the active other subscriptions: a header and one row per default when there are defaults, then a header and one row per custom subscription when there are any, the default header first |
| OtherSubscriptions.Items | preferences/src/main/kotlin/org/adblockplus/adblockplussbrowser/preferences/ui/othersubscriptions/OtherSubscriptionsViewModel.kt:21-28 | the emitted list is the default section followed by the custom section of the custom subscriptions |
| OtherSubscriptions.ActiveSubscriptionShown | preferences/src/main/kotlin/org/adblockplus/adblockplussbrowser/preferences/ui/othersubscriptions/OtherSubscriptionsViewModel.kt:21-28 | every active subscription is on screen: as its own custom row, or through the active row of the default with its url |
| OtherSubscriptions.Toggle | preferences/src/main/kotlin/org/adblockplus/adblockplussbrowser/preferences/ui/othersubscriptions/OtherSubscriptionsViewModel.kt:31-39 | toggling an active row filters its url out of the other list, an inactive row adds its subscription with AddSubscription, the rest of the list kept in order; no other field changes |
| OtherSubscriptions.ToggleFlipsActive | preferences/src/main/kotlin/org/adblockplus/adblockplussbrowser/preferences/ui/othersubscriptions/OtherSubscriptionsViewModel.kt:31-39 | toggling a default row flips whether that row is shown active |
| OtherSubscriptions.CustomSubscription | preferences/src/main/kotlin/org/adblockplus/adblockplussbrowser/preferences/ui/othersubscriptions/OtherSubscriptionsViewModel.kt:43 | the subscription added for a custom url has that url as url and title, and lastUpdate 0 |
| OtherSubscriptions.AddCustomUrlAppends | preferences/src/main/kotlin/org/adblockplus/adblockplussbrowser/preferences/ui/othersubscriptions/OtherSubscriptionsViewModel.kt:41-46 | a new url that no default has becomes the last custom subscription |
| OtherSubscriptions.OtherSubscriptionsViewModel.ToggleActiveSubscription | preferences/src/main/kotlin/org/adblockplus/adblockplussbrowser/preferences/ui/othersubscriptions/OtherSubscriptionsViewModel.kt:31-39 | an active row is removed from the other list, an inactive one added |
| OtherSubscriptions.OtherSubscriptionsViewModel.AddCustomUrl | preferences/src/main/kotlin/org/adblockplus/adblockplussbrowser/preferences/ui/othersubscriptions/OtherSubscriptionsViewModel.kt:41-46 | the custom subscription for the url is added to the other list |
| OtherSubscriptions.OtherSubscriptionsViewModel.RemoveSubscription | preferences/src/main/kotlin/org/adblockplus/adblockplussbrowser/preferences/ui/othersubscriptions/OtherSubscriptionsViewModel.kt:48-52 | the custom row's subscription is removed from the other list |
| Launcher.Direction | app/src/main/kotlin/org/adblockplus/adblockplussbrowser/app/ui/LauncherViewModel.kt:19-29 | ONBOARDING exactly when onboarding is not completed; ONBOARDING_LAST_STEP exactly when it is and the last request is 0 or expired; MAIN otherwise |
| Launcher.IsFilterRequestExpired | app/src/main/kotlin/org/adblockplus/adblockplussbrowser/app/ui/LauncherViewModel.kt:41-42 | expired exactly when the clock is past 30 days after the last filter request |
| Launcher.ExpiryBoundary | app/src/main/kotlin/org/adblockplus/adblockplussbrowser/app/ui/LauncherViewModel.kt:39-42 | the span is 30·24·60·60·1000 ms; exactly 30 days is not expired, one millisecond more is |
| Launcher.LastStepStaysDue | app/src/main/kotlin/org/adblockplus/adblockplussbrowser/app/ui/LauncherViewModel.kt:25-28 | once the last onboarding step is due, it stays due as the clock advances |
| Launcher.MainEarlier | app/src/main/kotlin/org/adblockplus/adblockplussbrowser/app/ui/LauncherViewModel.kt:20-28 | if MAIN is chosen at some time, it was also chosen at every earlier time |
| Updates.ToUpdateConfigType | preferences/src/main/kotlin/org/adblockplus/adblockplussbrowser/preferences/ui/updates/UpdateSubscriptionsViewModel.kt:56-57 | UPDATE_WIFI_ONLY exactly for WIFI_ONLY; any other policy shows UPDATE_ALWAYS |
| Updates.ToUpdateConfig | preferences/src/main/kotlin/org/adblockplus/adblockplussbrowser/preferences/ui/updates/UpdateSubscriptionsViewModel.kt:59-60 | WIFI_ONLY exactly for UPDATE_WIFI_ONLY |
| Updates.UpdateConfigRoundTrip | preferences/src/main/kotlin/org/adblockplus/adblockplussbrowser/preferences/ui/updates/UpdateSubscriptionsViewModel.kt:56-60 | the two conversions are inverse to each other, in both directions |
| Updates.EventFor | preferences/src/main/kotlin/org/adblockplus/adblockplussbrowser/preferences/ui/updates/UpdateSubscriptionsViewModel.kt:39-42 | the Wi-Fi event exactly for Wi-Fi only, the always event exactly for always, never the manual-update event |
| Updates.UpdateSubscriptionsViewModel.UpdateType | preferences/src/main/kotlin/org/adblockplus/adblockplussbrowser/preferences/ui/updates/UpdateSubscriptionsViewModel.kt:28-30 | the spinner shows Wi-Fi only exactly when the stored policy is WIFI_ONLY |
| Updates.UpdateSubscriptionsViewModel.SetUpdateConfigType | preferences/src/main/kotlin/org/adblockplus/adblockplussbrowser/preferences/ui/updates/UpdateSubscriptionsViewModel.kt:36-44 | stores the matching policy, so the spinner then shows the chosen position, and logs exactly one event, the matching one |
| Updates.UpdateSubscriptionsViewModel.UpdateSubscriptions | preferences/src/main/kotlin/org/adblockplus/adblockplussbrowser/preferences/ui/updates/UpdateSubscriptionsViewModel.kt:46-49 | schedules one immediate update with force = true and logs MANUAL_UPDATE |

## Left out

- Networking: the OkHttp calls, `retryIO`, `response.close()` and `validate`/`createHeadRequest` are not modelled. A response is a status code plus the headers the core reads, and for a download the body as lines.
- File I/O is not modelled: `writeTempFile`, `mkdirs`, `renameTo`, `File.exists` and the downloads directory. File existence is a boolean, and the version is read from the body lines. A rename that fails, which the code ignores, is not represented.
- `toFileName` and `sanatizeUrl` are not modelled. The hashed file path is a parameter, and a url that does not parse is the boolean `urlParses`. Such a url makes the lookup return a fresh record and the download fail before any request.
- Requests carry the subscription url before sanitising.
- An exception from building the user-counting url is not represented; the code would report `Failed`.
- `SimpleDateFormat` parsing of the `Date` header is not modelled. The header arrives already classified as missing, unparsable or parsed to a GMT minute. The `yyyyMMddHHmm` formatting and `toLong()` are modelled.
- Time zones other than GMT are left out.
- `System.currentTimeMillis`, `Calendar.getInstance`, `isActiveNetworkMetered`, `(0..9).random()` and `BuildConfig.DEBUG` are parameters.
- 64-bit `Long` and `Duration` arithmetic is left out. Timestamps and elapsed times are unbounded integers; only the 32-bit `downloadCount + 1` is wrapped, in `Downloader.WrapInt32`.
- Coroutines, `Flow`, `LiveData`, `viewModelScope.launch`, `zip`/`collect`/`postValue` are left out. The atomicity of `dataStore.updateData` is taken as given: each update is one assignment.
- Timber logging is left out, and so is the analytics in the downloader and the user counter (`logException`, `setUserProperty`). Only the events of the update-settings screen are kept, as a log.
- The proto conversions `toProtoSubscription`, `toProtoUpdateConfig` and `toSettings` are taken as the identity, because they are not shown.
- `layoutForIndex` is not shown: a row keeps its index.
- The default subscription lists of the subscriptions data source are a parameter.
- Updates.UpdateConfigRoundTrip: the stored policy has exactly the two values WIFI_ONLY and ALWAYS; an unrecognised protobuf enum value is not modelled.
- `ifExists` is not shown: it is modelled as "the record when its file exists".
- Downloader.NeverDownloaded: the `DownloadedSubscription` data class is not part of this model, so its defaults (lastUpdated 0, lastModified and etag empty, version "0", downloadCount 0, path empty) are assumed, not read from its declaration.
- Downloader.DownloadOutcome and Downloader.Download: `fileExists` stands for `File(path).exists()` of the looked-up record. They require that a url that does not parse has no file, because its record has the empty path, which names no file.
- `MainPreferencesFragment`, `MainActivity`, `AbpApplication` and the `SettingsRepository` interface hold UI navigation, dependency injection and declarations only; they are not modelled.
- Text.CharEqualsIgnoreCase: case-insensitive comparison covers ASCII letters plus U+017F, U+0131, U+0130 and U+212A. It does not cover the full Unicode case mapping of `Char.equals(ignoreCase = true)`.
- Text.IsWhitespace: the whitespace set of `trim` is listed explicitly from the Unicode space separators and the JVM control whitespace. It is not derived from the Unicode database.
- UserCounting.DateTime: the instant keeps year, month, day, hour and minute only. Days are not checked against the month length, because the stored format keeps nothing else.
