# calendar_sync: a verified model of the snapshot store, its retention sweep and the export client

calendar_sync moves a calendar between machines as zipped iCal "snapshots":
an export client reads appointments, packs them and uploads them to a storage
server, which keeps, lists and serves them per owner. This Dafny project
models the parts of both sides that carry logic and proves what they do.

**Storage server**
- `Store`: the database. It has an owner table and a snapshot table, with each snapshot's blob folded into its row. The schema's unique indexes, the foreign key with its cascade, and the auto-increment keys form the invariant `Valid`.
- `Controller`: the `CalendarController` endpoints as methods of a class over the store. Each returns its HTTP status.
- `BodyReader`: the bounded request-body reader (`BinaryInputFormatter`). It fills an array from a chunked stream and then probes one byte to catch an oversized body.
- `Retention` and `PeriodicCleanupService`: the periodic sweep (`PeriodicCleanup`), run every `CALAPI_CLEANUP_INTERVAL` seconds (an hour by default). It applies per-owner caps and then prunes stale owners. It is modelled as written, and the class's loops are proved against the sweep function.
- `RetentionIntended`: the policy the sweep evidently means to apply. Lemmas show where the two differ (see Findings).

**Export client**
- `RelativeTime`: the `now-1w2d` relative-time parser. A hand-written matcher is proved to accept exactly the language of the source's regular expression, whose `\d` is every Unicode decimal digit of the Basic Multilingual Plane. The evaluation keeps the source's 32-bit arithmetic and its exceptions, including the `FormatException` that `int.Parse` raises on a non-ASCII digit the regular expression let through.
- `QuotedPrintable`: the quoted-printable encoder over UTF-8 bytes. A decoder is its partner in a round-trip proof.
- `QueryStrings` and `ServerApi`: the query-URL builder and the client calls of `ServerInterface`. The project has two near-identical copies of this class, and one Dafny class models both.
- `ExportArguments`: command-line validation and its defaults.
- `Export`: `Exporter.DoMagic`, which covers the time window, the credentials, the archive entry names, the server calls, and when the last-run marker moves.

**Representation**
- Instants are `DateTime` tick counts (`Ticks`).
- Clocks, file reads, absolute date parsing, the Argon2 hash and server answers are parameters.

## Model

| member | source | states |
|---|---|---|
| Store.FindOwner | CalendarStorage/Controllers/CalendarController.cs:33-35 | the owner found has the requested name and is in the table; none is found exactly when no row has that name |
| Store.FindSnapshot | CalendarStorage/Controllers/CalendarController.cs:225-226 | the snapshot found has the requested id; none is found exactly when no row in the whole table has that id |
| Store.SnapshotsOf | CalendarStorage/Data/Owner.cs:19 | an owner's snapshot list holds exactly the table rows whose owner id is that owner's |
| Store.WithoutSnapshots | CalendarStorage/Data/PeriodicCleanup.cs:100 | `RemoveRange` keeps a row exactly when its id is not among those removed |
| Store.WithoutOwners | CalendarStorage/Data/PeriodicCleanup.cs:112 | removing owners keeps an owner row exactly when its id is not removed |
| Store.NotOwnedBy | CalendarStorage/Migrations/0_InitialCreate.cs:40-45 | the cascade keeps a snapshot exactly when its owner is not deleted |
| Store.Touch | CalendarStorage/Data/Owner.cs:22-27 | setting `LastSeenDt` changes that owner's instant and no other row or field |
| Store.TouchValid | CalendarStorage/Migrations/0_InitialCreate.cs:74-78 | updating `LastSeen` keeps every schema constraint |
| Store.RemoveSnapshotsValid | CalendarStorage/Migrations/0_InitialCreate.cs:90-94 | deleting snapshots keeps unique ids, unique timestamps and the foreign key |
| Store.RemoveOwnersValid | CalendarStorage/Migrations/0_InitialCreate.cs:40-45 | deleting owners together with their cascaded snapshots keeps every remaining snapshot's owner present |
| Store.AddOwnerValid | CalendarStorage/Data/Owner.cs:10 | adding an owner under an unused name with the next id keeps names and ids unique |
| Store.AddSnapshotValid | CalendarStorage/Data/CalendarSnapshot.cs:8 | adding a snapshot with an unused timestamp, the next id and an existing owner keeps the constraints |
| Store.CalendarStore.constructor | CalendarStorage/Migrations/0_InitialCreate.cs:8-95 | an empty database satisfies the schema, with keys starting at 1 |
| Store.CalendarStore.AddOwner | CalendarStorage/Controllers/CalendarController.cs:46-53 | appends exactly the new owner row under the next id; the invariant holds |
| Store.CalendarStore.AddSnapshot | CalendarStorage/Controllers/CalendarController.cs:90-103 | a taken timestamp makes the save fail and changes nothing; otherwise exactly one row is appended under the next id |
| Store.CalendarStore.SetLastSeen | CalendarStorage/Controllers/CalendarController.cs:81-82 | only that owner's `LastSeen` changes |
| Store.CalendarStore.RemoveSnapshots | CalendarStorage/Data/PeriodicCleanup.cs:100-101 | the snapshot table loses exactly the given ids; the invariant holds |
| Store.CalendarStore.RemoveOwners | CalendarStorage/Data/PeriodicCleanup.cs:112-119 | the owners are removed along with their snapshots; the invariant holds |
| Retention.DefaultLimits | CalendarStorage/Data/PeriodicCleanup.cs:49-51 | with the partial-cap and age settings absent, the caps are 10 partial and 1 full and the age limit is 86400 s, whatever the full-cap setting |
| Retention.MaxFullFollowsPartialSetting | CalendarStorage/Data/PeriodicCleanup.cs:50 | the full cap equals the partial cap whenever the partial setting is present, and the full setting never matters |
| Retention.TimerPeriodLaw | CalendarStorage/Data/PeriodicCleanup.cs:23-28 | no timer iff the interval is negative; a timer of interval×1000 ms iff it lies in 60..4294967 s; 0..59 s throws |
| Retention.TimerPeriodIntendedLaw | CalendarStorage/Data/PeriodicCleanup.cs:27 | a clamp to at least 60 s runs a one-minute timer for 0..59 s and agrees with the code everywhere else |
| Retention.GetAge | CalendarStorage/Data/PeriodicCleanup.cs:124-127 | whole seconds truncated toward zero, bracketed by the tick difference, saturated at `int.MaxValue`, never positive for a future instant |
| Retention.CountLiveExcludes | CalendarStorage/Data/PeriodicCleanup.cs:61-84 | wherever a snapshot stands in the owner's list, it adds one to a type's counter if it is in date and of that type, and nothing if it is expired, `Unknown` or of the other type |
| Retention.Oldest | CalendarStorage/Data/PeriodicCleanup.cs:89 | `OrderBy(Timestamp).Take(k)` yields no rows for `k ≤ 0` and otherwise min(k, n) rows |
| Retention.OldestSubset | CalendarStorage/Data/PeriodicCleanup.cs:89 | what `Take` yields comes from the owner's snapshots |
| Retention.OldestNested | CalendarStorage/Data/PeriodicCleanup.cs:89-94 | taking fewer gives a prefix of taking more |
| Retention.OldestBeforeSurvivors | CalendarStorage/Data/PeriodicCleanup.cs:89 | every snapshot taken is older than every snapshot left |
| Retention.OwnerVictimsAreOldest | CalendarStorage/Data/PeriodicCleanup.cs:87-95 | an owner loses exactly its oldest max(p, f) snapshots of any type, where p and f are the two excess counts |
| Retention.UnderCapsKeepsAll | CalendarStorage/Data/PeriodicCleanup.cs:63-95 | an owner within both caps loses nothing, however old its snapshots are |
| Retention.CapVictimsOwned | CalendarStorage/Data/PeriodicCleanup.cs:89-94 | everything queued for an owner is one of that owner's snapshots |
| Retention.QueueMembers | CalendarStorage/Data/PeriodicCleanup.cs:56-96 | a snapshot is queued iff its owner was visited and that owner's caps chose it |
| Retention.CapRemovalIsLocal | CalendarStorage/Data/PeriodicCleanup.cs:56-102 | a snapshot is removed by the caps iff its own owner's caps select it |
| Retention.NoExcessNoChange | CalendarStorage/Data/PeriodicCleanup.cs:98-102 | with every owner within its caps, the store is unchanged |
| Retention.AfterCapsValid | CalendarStorage/Data/PeriodicCleanup.cs:98-102 | the cap removals keep the invariant and all owners |
| Retention.PruningKeepsSnapshots | CalendarStorage/Data/PeriodicCleanup.cs:104-121 | pruning deletes no snapshot and keeps the invariant |
| Retention.PruningLaw | CalendarStorage/Data/PeriodicCleanup.cs:104-121 | an owner is pruned iff pruning is on, it has no snapshots left, and its last-seen instant is at or before 30 days before the second clock reading |
| Retention.SweepValid | CalendarStorage/Data/PeriodicCleanup.cs:47-122 | a whole sweep keeps the schema invariant |
| Retention.SweepLaw | CalendarStorage/Data/PeriodicCleanup.cs:47-122 | survival per snapshot (not chosen by its owner's caps) and per owner (not stale after the caps); nothing is added |
| PeriodicCleanupService.CountSnapshots | CalendarStorage/Data/PeriodicCleanup.cs:58-85 | the loop counters equal the live counts of each type |
| PeriodicCleanupService.OwnerQueue | CalendarStorage/Data/PeriodicCleanup.cs:87-95 | the two `AddRange`s queue the owner's cap victims, with the take count in 32-bit arithmetic |
| PeriodicCleanupService.PeriodicCleanup.constructor | CalendarStorage/Data/PeriodicCleanup.cs:13-19 | the service starts without a timer over the given store |
| PeriodicCleanupService.PeriodicCleanup.StartAsync | CalendarStorage/Data/PeriodicCleanup.cs:21-32 | throws exactly where the interval plan throws; installs the periodic timer of the plan, and otherwise leaves the timer as it was |
| PeriodicCleanupService.PeriodicCleanup.Cleanup | CalendarStorage/Data/PeriodicCleanup.cs:47-122 | the store after a tick is the sweep of the store before it; the invariant holds |
| PeriodicCleanupService.PeriodicCleanup.QueueVictims | CalendarStorage/Data/PeriodicCleanup.cs:54-96 | `toRemove` is every owner's victims, appended in table order |
| PeriodicCleanupService.PeriodicCleanup.PruneOwners | CalendarStorage/Data/PeriodicCleanup.cs:104-121 | the store loses exactly the stale owners |
| PeriodicCleanupService.PeriodicCleanup.StaleOwners | CalendarStorage/Data/PeriodicCleanup.cs:106-115 | the marking loop collects exactly the stale owners' ids |
| RetentionIntended.CleanupLimitsIntended | CalendarStorage/Data/PeriodicCleanup.cs:49-51 | the full cap is read from its own setting; the other limits agree with the code |
| RetentionIntended.FullCapSettingIgnored | CalendarStorage/Data/PeriodicCleanup.cs:50 | for any two different settings, the code's full cap is the partial setting, unlike the intended cap |
| RetentionIntended.OldestRemainingSplit | CalendarStorage/Data/PeriodicCleanup.cs:89 | `Take(k)` and its complement partition the snapshots |
| RetentionIntended.CapKeepsNewest | CalendarStorage/Data/PeriodicCleanup.cs:87-95 | an intended cap keeps exactly the newest `max` live snapshots of its type |
| RetentionIntended.DeadRemoved | CalendarStorage/Data/PeriodicCleanup.cs:63-73 | the intended policy removes every expired or `Unknown` snapshot |
| RetentionIntended.LiveRemovedByOwnCap | CalendarStorage/Data/PeriodicCleanup.cs:87-95 | under the intended policy, a live snapshot is removed only by the cap of its own type |
| RetentionIntended.ExpiredSnapshotKept | CalendarStorage/Data/PeriodicCleanup.cs:63-66 | an expired snapshot alone under its owner is kept by the code and removed by the intended policy |
| RetentionIntended.CapTakesOtherType | CalendarStorage/Data/PeriodicCleanup.cs:87-95 | the partial cap removes an older full snapshot as written, but the older partial one as intended |
| RetentionIntended.CapTakesOldestOverall | CalendarStorage/Data/PeriodicCleanup.cs:89 | with one full snapshot older than two partial ones and caps of 1, the code takes the full one |
| RetentionIntended.CapTakesOldestOfType | CalendarStorage/Data/PeriodicCleanup.cs:87-95 | the intended caps take the older of two partial snapshots and keep the one full snapshot, whatever its age order |
| Controller.InfoOf | CalendarStorage/Controllers/CalendarController.cs:202-209 | a listing record copies the id, timestamp and both bounds of its snapshot, and names its type |
| Controller.Listing | CalendarStorage/Controllers/CalendarController.cs:202-209 | one record per snapshot, position by position |
| Controller.ListingLaw | CalendarStorage/Controllers/CalendarController.cs:202-209 | a snapshot's record is in an owner's listing iff the snapshot is that owner's |
| Controller.CheckOwner | CalendarStorage/Controllers/CalendarController.cs:58-72 | an accepted owner has that name and that hash; an unknown name is never accepted |
| Controller.CheckOwnerLaw | CalendarStorage/Controllers/CalendarController.cs:58-72 | with unique names, the credentials are accepted iff some owner has exactly that name and hash |
| Controller.CalendarController.constructor | CalendarStorage/Controllers/CalendarController.cs:19-23 | the controller works on the given store |
| Controller.CalendarController.GetOwner | CalendarStorage/Controllers/CalendarController.cs:31-36 | the owner with that name, or none iff there is no such owner |
| Controller.CalendarController.GetCheckOwner | CalendarStorage/Controllers/CalendarController.cs:58-72 | an owner is returned only when it is stored under the given name with the given hash; an unknown name returns none |
| Controller.CalendarController.CreateOwner | CalendarStorage/Controllers/CalendarController.cs:38-56 | a taken name gives none and no change; otherwise exactly one owner, last seen now |
| Controller.CalendarController.UpdateOwnerLastSeen | CalendarStorage/Controllers/CalendarController.cs:74-84 | false and no change for no owner; otherwise only that owner's `LastSeen` becomes now |
| Controller.CalendarController.AddSnapshotInternal | CalendarStorage/Controllers/CalendarController.cs:86-106 | exactly one snapshot (type, bounds, blob, timestamp, owner) is appended, then `LastSeen` is set; a taken timestamp changes nothing |
| Controller.CalendarController.Authenticate | CalendarStorage/Controllers/CalendarController.cs:108-119 | 204 iff some owner has that name and hash, otherwise 401; the store is not touched |
| Controller.CalendarController.ReserveName | CalendarStorage/Controllers/CalendarController.cs:121-139 | an unused name adds exactly one owner and answers 204; a used name changes nothing and answers 204 iff the hash matches, else 401 |
| Controller.CalendarController.AddPartialSnapshot | CalendarStorage/Controllers/CalendarController.cs:141-170 | checks run in order (credentials, then body, then both bounds); start after end is accepted; success appends one partial snapshot |
| Controller.CalendarController.AddFullSnapshot | CalendarStorage/Controllers/CalendarController.cs:172-189 | 401, then 400 for a missing or empty body, each with no change; otherwise one full snapshot without bounds |
| Controller.CalendarController.GetAvaliableSnapshots | CalendarStorage/Controllers/CalendarController.cs:191-212 | 401 with no change; otherwise `LastSeen` is set and there is one record per snapshot of the owner |
| Controller.CalendarController.GetSnapshotData | CalendarStorage/Controllers/CalendarController.cs:214-233 | 401 with no change; otherwise `LastSeen` is set and the answer is 404 iff no snapshot in the store has the id, else that blob |
| Controller.FindOwnerLast | CalendarStorage/Controllers/CalendarController.cs:55 | an owner just added under a fresh name is what the lookup finds |
| Controller.DataLookup | CalendarStorage/Controllers/CalendarController.cs:225-232 | the blob is looked up by id over the whole table |
| Controller.DataLookupIntended | CalendarStorage/Controllers/CalendarController.cs:225-232 | the lookup restricted to the caller's snapshots: none iff the caller owns no snapshot with that id |
| Controller.ForeignBlobServed | CalendarStorage/Controllers/CalendarController.cs:225-232 | another owner's blob is served by id, where the restricted lookup answers 404 |
| BodyReader.BodyStream.ReadAsync | CalendarStorage/CustomFormatters/BinaryInputFormatter.cs:94 | copies the next `n ≤ count` unread bytes into the buffer and nothing else; 0 only for `count` 0 or an exhausted body |
| BodyReader.TryReadMaxFromStream | CalendarStorage/CustomFormatters/BinaryInputFormatter.cs:87-118 | the buffer starts with the first min(length, body) bytes; -1 iff the probe is on and the body is longer than the buffer |
| BodyReader.BinaryInputFormatter.constructor | CalendarStorage/CustomFormatters/BinaryInputFormatter.cs:16-26 | keeps the maximum payload length |
| BodyReader.BinaryInputFormatter.ReadRequestBody | CalendarStorage/CustomFormatters/BinaryInputFormatter.cs:28-85 | the result is the length checks, the read and the resize, as `BodyResult` states them |
| BodyReader.BodyResultBounded | CalendarStorage/CustomFormatters/BinaryInputFormatter.cs:28-85 | an accepted body is a non-empty prefix of the stream, at most the maximum and at most the declared length |
| BodyReader.EmptyBodyFails | CalendarStorage/CustomFormatters/BinaryInputFormatter.cs:60-63 | an empty body always fails |
| BodyReader.BodyAcceptedWhole | CalendarStorage/CustomFormatters/BinaryInputFormatter.cs:28-85 | a non-empty body within the maximum, declared truthfully or undeclared, is accepted whole |
| BodyReader.OversizeRefused | CalendarStorage/CustomFormatters/BinaryInputFormatter.cs:44-63 | a body over the maximum is refused unless a smaller length was declared |
| BodyReader.DeclaredShortTruncates | CalendarStorage/CustomFormatters/BinaryInputFormatter.cs:59 | a declared length under the maximum disables the probe and truncates a longer body |
| RelativeTime.StripWhiteSpace | CalendarExport/Utils.cs:24 | the result holds no whitespace and is no longer than the input |
| RelativeTime.MatchSound | CalendarExport/Utils.cs:11-13 | every accepted text is the rendering of a well-formed match of `^now(?:([-+])(\d+[wdhm])+)?$` (ignoring case) |
| RelativeTime.MatchComplete | CalendarExport/Utils.cs:11-13 | every rendering of a well-formed match is accepted with that match, digits of any script included |
| RelativeTime.ParseTermsSound | CalendarExport/Utils.cs:12 | the term parser yields well-formed terms that render back to its input |
| RelativeTime.ParseTermsComplete | CalendarExport/Utils.cs:12 | rendered well-formed terms parse back to themselves |
| RelativeTime.TryParseRelativeDateTime | CalendarExport/Utils.cs:15-59 | the method's outcome is the relative-time meaning of the text |
| RelativeTime.AccumulateCaptures | CalendarExport/Utils.cs:37-56 | the capture loop ends where applying the terms in order ends, or throws where that throws |
| RelativeTime.StripBlank | CalendarExport/Utils.cs:19-24 | a text is blank iff stripping its whitespace leaves nothing |
| RelativeTime.WhiteSpaceIgnored | CalendarExport/Utils.cs:24-25 | a text means what its whitespace-free form means |
| RelativeTime.ApplyTermsClosedForm | CalendarExport/Utils.cs:37-56 | throws iff a capture does not parse as an `int` (a non-ASCII digit or a value above `int.MaxValue`) or a partial sum leaves the `DateTime` range; otherwise the result is now plus the signed sum of spans |
| RelativeTime.RelativeInRange | CalendarExport/Utils.cs:31-58 | a successful parse against a valid clock gives a valid `DateTime` |
| RelativeTime.SpecOfRendering | CalendarExport/Utils.cs:24-58 | a rendered match means `now`, or `now` plus its terms under the one sign |
| RelativeTime.ExampleNow | CalendarExport/Utils.cs:31-35 | `now` is the clock reading |
| RelativeTime.ExampleMinusOneDay | CalendarExport/Utils.cs:37-48 | `now-1d` is one day earlier |
| RelativeTime.ExampleMinusNineDays | CalendarExport/Utils.cs:37-48 | `now-1w2d` is nine days earlier, since the one sign applies to every term |
| RelativeTime.ExampleUpperCaseUnit | CalendarExport/Utils.cs:41-55 | `NOW-1D` matches but adds nothing |
| RelativeTime.ExampleArabicIndicDigit | CalendarExport/Utils.cs:12-40 | `now-` followed by ARABIC-INDIC DIGIT ONE and `d` matches, and its evaluation throws because `int.Parse` reads only ASCII digits |
| RelativeTime.TermSpanIntended | CalendarExport/Utils.cs:43-44 | in full width, n weeks are always 7n days |
| RelativeTime.WeekSpanAgrees | CalendarExport/Utils.cs:43-44 | the code agrees with the full-width span whenever 7n fits in `int` |
| RelativeTime.WeekOverflowExample | CalendarExport/Utils.cs:43-44 | `now+613566757w` is three days ahead as written; the full-width span throws |
| QuotedPrintable.EncodeByte | CalendarExport/Utils.cs:78-86 | one byte becomes 1 to 3 characters, all tab or printable ASCII |
| QuotedPrintable.EncodeAll | CalendarExport/Utils.cs:71-87 | the loop writes at least one and at most three characters per byte |
| QuotedPrintable.EncodeAllPrintable | CalendarExport/Utils.cs:71-87 | the loop writes only tab and printable ASCII |
| QuotedPrintable.EncodeSplitLast | CalendarExport/Utils.cs:89-95 | the patch re-encodes a trailing literal space or tab as `=XX` and changes nothing else |
| QuotedPrintable.QpRoundTrip | CalendarExport/Utils.cs:61-98 | decoding the encoder's output gives back the input bytes |
| QuotedPrintable.QpOutputShape | CalendarExport/Utils.cs:61-98 | the output is tab and printable ASCII, no shorter than the input, and never ends in whitespace |
| QuotedPrintable.ToQuotedPrintable | CalendarExport/Utils.cs:61-98 | the method's result is `QpEncode` of the bytes, the encoding whose round trip and shape are proved |
| QuotedPrintable.BuildEncoding | CalendarExport/Utils.cs:68-87 | the builder loop appends each byte's encoding in order |
| Text.PadD5 | CalendarExport/Exporter.cs:84 | `D5` gives at least five digits with the value of the number |
| Text.HexX2 | CalendarExport/Utils.cs:85 | `X2` gives two upper-case hex digits with the value of the byte |
| Text.IntToDecimal | CalendarSyncCommons/ServerInterface.cs:156 | an `int` id is sent as its decimal text, with a minus sign when negative |
| Ticks.Wrap32 | CalendarExport/Utils.cs:44 | unchecked `int` arithmetic: the result is in range, congruent mod 2^32, and unchanged when already in range |
| Ticks.DivTrunc | CalendarStorage/Data/PeriodicCleanup.cs:126 | division truncating toward zero, bracketed on both signs |
| Ticks.SaturateInt32 | CalendarStorage/Data/PeriodicCleanup.cs:126 | the `double`→`int` conversion keeps in-range values and saturates the rest |
| QueryStrings.Utf8String | CalendarSyncCommons/ServerInterface.cs:75-77 | the UTF-8 encoding that `EscapeDataString` escapes takes 1 to 4 bytes per character |
| QueryStrings.EscapeDataString | CalendarSyncCommons/ServerInterface.cs:75-77 | the result holds only unreserved characters (section 2.3 of RFC 3986) and `%` |
| QueryStrings.NoDelimiters | CalendarSyncCommons/ServerInterface.cs:75-77 | no escaped component contains `&`, `=`, `?`, `/` or `#` |
| QueryStrings.EscapeRoundTrip | CalendarSyncCommons/ServerInterface.cs:75-77 | percent-decoding gives back the escaped bytes |
| QueryStrings.UnreservedUnchanged | CalendarSyncCommons/ServerInterface.cs:75-77 | a string of unreserved characters is its own escaping |
| QueryStrings.PairRoundTrip | CalendarSyncCommons/ServerInterface.cs:75-77 | one `key=value` pair decodes to the UTF-8 key and value |
| QueryStrings.Pairs | CalendarSyncCommons/ServerInterface.cs:64-78 | one piece per parameter, in argument order |
| QueryStrings.SplitJoin | CalendarSyncCommons/ServerInterface.cs:63-78 | splitting at `&` undoes the joining when no piece holds `&` |
| QueryStrings.QueryRoundTrip | CalendarSyncCommons/ServerInterface.cs:59-79 | with n ≥ 1 parameters, the query has no `?`, splits into exactly n pieces at `&`, and decodes to the parameters in order |
| QueryStrings.QueryUrlShape | CalendarSyncCommons/ServerInterface.cs:53-82 | with no parameters the URL is base/action; a `?` appears iff there are parameters |
| QueryStrings.QueryUrlWithParameters | CalendarSyncCommons/ServerInterface.cs:59-79 | with parameters the URL is base/action, one `?` and the query |
| QueryStrings.TrimEndSlash | CalendarSyncCommons/ServerInterface.cs:23 | `TrimEnd('/')` removes only trailing slashes, and all of them |
| ServerApi.ServerInterface.constructor | CalendarSyncCommons/ServerInterface.cs:20-25 | base URL is the trimmed URL plus `/calendar`; the passphrase is always hashed, the owner name only on request; the copy at CalendarExport/ServerInterface.cs:19-24 is identical |
| ServerApi.ServerInterface.GetQueryUrl | CalendarSyncCommons/ServerInterface.cs:53-82 | the `StringBuilder` loop with `passedFirst` builds exactly the query URL; the copy at CalendarExport/ServerInterface.cs:52-81 is identical |
| ServerApi.ServerInterface.Authenticate | CalendarSyncCommons/ServerInterface.cs:84-93 | GET `Authenticate` with owner name then hash; the result is the success status |
| ServerApi.ServerInterface.AuthenticateOrCreate | CalendarSyncCommons/ServerInterface.cs:95-104 | POST `ReserveName` with owner name then hash; the copy at CalendarExport/ServerInterface.cs:83-92 is identical |
| ServerApi.ServerInterface.UploadPartialSnapshot | CalendarSyncCommons/ServerInterface.cs:106-119 | POST `AddPartialSnapshot` with owner, hash, and the UTC round-trip start and end, in that order; the copy at CalendarExport/ServerInterface.cs:94-107 is identical |
| ServerApi.ServerInterface.UploadFullSnapshot | CalendarSyncCommons/ServerInterface.cs:121-132 | POST `AddFullSnapshot` with owner name then hash; the copy at CalendarExport/ServerInterface.cs:109-120 is identical |
| ServerApi.ServerInterface.GetAvailableSnapshots | CalendarSyncCommons/ServerInterface.cs:134-149 | GET `GetAvaliableSnapshots`; the listing only on a success status |
| ServerApi.ServerInterface.GetSnapshotData | CalendarSyncCommons/ServerInterface.cs:151-170 | GET `GetSnapshotData` with owner, hash and the id's decimal text; the data only on success |
| ServerApi.BuildFirst | CalendarSyncCommons/ServerInterface.cs:70-77 | the first turn writes the first pair without `&` |
| ServerApi.BuildNext | CalendarSyncCommons/ServerInterface.cs:66-77 | each later turn writes `&` and the next pair |
| ServerApi.TrailingSlashIgnored | CalendarSyncCommons/ServerInterface.cs:23 | a trailing slash on the configured URL changes nothing |
| ServerApi.PartialUploadReadsBack | CalendarSyncCommons/ServerInterface.cs:106-113 | the server reads owner, hash, start and end back from the query, in that order |
| ServerApi.CredentialsReadBack | CalendarSyncCommons/ServerInterface.cs:95-100 | the server reads owner and hash back from the query |
| ExportArguments.Validate | CalendarExport/Arguments.cs:59-82 | accepted iff there is no server conflict, no encryption conflict, and a mode was given |
| ExportArguments.ValidateOrder | CalendarExport/Arguments.cs:59-82 | the checks run in order and the first that fires decides |
| ExportArguments.DefaultsAreRelative | CalendarExport/Arguments.cs:42-46 | `now-1d` is one day before the clock and `now` is the clock |
| ExportArguments.ContinueAloneRejected | CalendarExport/Arguments.cs:75-79 | `--try-partial-continue` without a mode is rejected |
| ExportArguments.ServerConflictMislabelled | CalendarExport/Arguments.cs:63-67 | the server conflict's message names two options that were not given |
| ExportArguments.ValidateIntended | CalendarExport/Arguments.cs:63-73 | with the messages matched to their checks, it accepts exactly what `Validate` accepts |
| ExportArguments.ConflictNamesGivenOptions | CalendarExport/Arguments.cs:63-73 | every intended conflict message names two options that were given |
| Export.TryGetRelativeOrAbsoluteDatetime | CalendarExport/Exporter.cs:146-171 | blank gives none; the relative form comes first; a thrown exception gives none; only non-relative text reaches the absolute parser |
| Export.FullWindowFixed | CalendarExport/Exporter.cs:23-27 | full mode covers MinValue..MaxValue whatever else is given |
| Export.ContinueStartsAtMarker | CalendarExport/Exporter.cs:30-33 | a continuing run with a marker starts at it; without continuing, the marker is ignored |
| Export.DefaultWindow | CalendarExport/Exporter.cs:30-34 | the default partial window runs from one day before the clock to the clock |
| Export.WindowInDateRange | CalendarExport/Exporter.cs:21-35 | both bounds are valid `DateTime` values |
| Export.GetEncryptionPassword | CalendarExport/Exporter.cs:200-223 | the file wins over the inline value; an unreadable file fails; neither succeeds without a password |
| Export.GetServerPassphrase | CalendarExport/Exporter.cs:225-248 | same precedence, but it succeeds iff a passphrase is obtained |
| Export.NoSourcesDiffer | CalendarExport/Exporter.cs:200-248 | with no sources at all, encryption is off but the passphrase fails |
| Export.EmptyPasswordFileNotEncrypting | CalendarExport/Exporter.cs:75-78 | an empty password file turns encryption off without failing |
| Export.EntryNamesDistinct | CalendarExport/Exporter.cs:84 | different stream indices give different entry names |
| Export.EntryNames | CalendarExport/Exporter.cs:81-97 | one name per stream |
| Export.NameEntries | CalendarExport/Exporter.cs:81-97 | the counter loop names the streams `00000.ics`, `00001.ics`, …, with no two names alike |
| Export.SuccessNeedsEveryStage | CalendarExport/Exporter.cs:56-143 | a run succeeds iff the password is read and, with a URL, the passphrase, the reservation and the upload all succeed; without a URL nothing is sent |
| Export.UploadFollowsReservation | CalendarExport/Exporter.cs:113-131 | the reservation is sent before the upload, and the upload matches the mode |
| Export.PartialUploadCarriesWindow | CalendarExport/Exporter.cs:127-131 | a partial upload's URL carries the window's bounds in its query |
| Export.NextRunResumes | CalendarExport/Exporter.cs:30-141 | after a successful run, the next continuing run starts at this run's fetch time |
| Export.Exporter.constructor | CalendarExport/Exporter.cs:14-17 | keeps the arguments and the stored marker |
| Export.Exporter.SetLastRun | CalendarExport/Exporter.cs:173-178 | the marker holds the given instant |
| Export.Exporter.DoMagic | CalendarExport/Exporter.cs:19-144 | the run is the specified one; the marker moves to the fetch time iff the run succeeded, and is untouched otherwise |
| Export.Exporter.RunStages | CalendarExport/Exporter.cs:56-138 | the run is `Stages` of the window: a failed stage ends it, and nothing after that stage is sent |
| Export.Exporter.PickWindow | CalendarExport/Exporter.cs:21-35 | the window is `SelectWindow` of the arguments and marker |
| Export.Exporter.TalkToServer | CalendarExport/Exporter.cs:104-138 | reserve, then upload if reserved; succeeds iff both are accepted |

## Left out

**Time and dates**
- Date-time text is not modelled: the "O" round-trip format and the `DateTime.Parse` of stored timestamps.
  - Instants are `DateTime` tick counts.
  - The stored text of `Timestamp`, the interval bounds and `LastSeen` is taken to round-trip exactly.
  - The sweep still models the one effect the parse has: the stored UTC text is read back as local time.
  - The shift is `zone(utc)`, the machine's offset from UTC in force at that instant (`LocalTicks`), so daylight saving is part of the model.
  - The time-zone database itself is not modelled: `zone` is any function of the instant.
  - The client's `ToUniversalTime().ToString("O")` is the parameter `roundTripUtc`.
- `DateTime.Now`/`UtcNow` readings are parameters.
  - One call that reads the clock several times gets one parameter per reading where the readings can differ: the sweep's `now` and `cutoffNow`, and the snapshot stamp and the later `LastSeen`.
  - `DateTime.UtcNow - 30 days` below `DateTime.MinValue` throws in the source; the model does not.
- The absolute date parsers (`DateTime.TryParse`, `ToDateTime`) are uninterpreted partial functions.

**Host and persistence**
- EF Core and SQLite are reduced to the table values and the schema invariant `Valid`.
  - Lazy loading is not modelled.
  - A save that fails on the unique timestamp index is a 500 that leaves the store unchanged.
  - Model validation by the framework (a missing query parameter, a body the formatter refused) is not modelled; the handlers take an absent parameter or body as `None`.
- The timer's scheduling, `StopAsync` and `Dispose`, the `lock` in `ReserveName` and the `SemaphoreSlim` of the body reader are not modelled (concurrency).
- `GetAge` works on tick counts rather than a `double` of seconds. Truncation and saturation are modelled; floating-point rounding is not.
  - The saturation at the `int` bounds is the `double` to `int` conversion of .NET 9 and later, the runtime the model assumes. On .NET 5 to 8 for x64 an out-of-range conversion gives `int.MinValue` instead; the model does not capture that.
- `PeriodicCleanup` reading the configuration (`EnvConfig`) is reduced to `Option` values.

**HTTP, files and crypto**
- HTTP and TLS are reduced to each request's verb and URL, with the server's answer as an input. Certificate handling is not modelled.
- `HashString` (Argon2) is the parameter `hash`.
- The zip archive, BZip2 and AES, the storage directory, `lastrun.txt` and the Outlook fetch are not modelled (file I/O and foreign libraries).
  - The marker file is the field `Exporter.lastRun`.
  - The streams are reduced to their count.
  - An exception thrown by the fetch or the packaging is not modelled. The source lets it escape `DoMagic` before the marker is written.
- The regular expression's `\d` is the table of Unicode decimal digits in the Basic Multilingual Plane as of Unicode 15 (`Text.IsDecimalDigit`). A runtime whose Unicode tables differ is not modelled.
- `FromQuotedPrintable` is not modelled. It is regex replacement plus a text decoding, and it is no inverse of the encoder. The decoder `QpDecode` serves as the encoder's partner instead.
- Console messages are not modelled. `Validate`'s message is returned as a `Diagnostic`.

**Contracts stated weaker**
- QueryStrings.EscapeDataString: escapes the UTF-8 bytes of each character. An unpaired surrogate (which .NET refuses) cannot occur in a Dafny `string`.
- BodyReader.BodyStream.ReadAsync: models the stream as a sequence of non-empty chunks, each read returning at most one chunk. A stream that returns fewer bytes for other reasons is covered only in that shape.
- Controller.CalendarController.GetAvaliableSnapshots: returns the records in table order. The source promises no order.

## Findings

| source | as written | input that shows it | evidently intended | confidence | as-written member | corrected member |
|---|---|---|---|---|---|---|
| CalendarStorage/Data/PeriodicCleanup.cs:63-73 | `toRemove.Append(snapshot)` discards its result, so expired and `Unknown` snapshots are never removed | one partial snapshot older than `maxAge`, alone under its owner | expired and `Unknown` snapshots are removed | not executed | RetentionIntended.ExpiredSnapshotKept | RetentionIntended.DeadRemoved |
| CalendarStorage/Data/PeriodicCleanup.cs:50 | the full-snapshot cap reads `MaxPartialSnapshots` | `MaxPartialSnapshots = 5`, `MaxFullSnapshots = 2` gives a full cap of 5 | the full cap reads its own setting | not executed | Retention.MaxFullFollowsPartialSetting | RetentionIntended.CleanupLimitsIntended |
| CalendarStorage/Data/PeriodicCleanup.cs:87-95 | each exceeded cap takes the oldest snapshots of every type and age | caps 1/1; one full snapshot older than two partial ones: the full one is removed and both partial ones stay | each cap takes the oldest live snapshots of its own type | not executed | RetentionIntended.CapTakesOtherType | RetentionIntended.LiveRemovedByOwnCap |
| CalendarStorage/Data/PeriodicCleanup.cs:27 | `Math.Clamp(x, 60, x)` throws for 0 ≤ x < 60 | `CleanupInterval = 30` | a short interval is raised to 60 s | not executed | Retention.TimerPeriodLaw | Retention.TimerPeriodIntendedLaw |
| CalendarExport/Utils.cs:43-44 | `7 * value` is unchecked 32-bit arithmetic | `now+613566757w` is three days ahead | the span is 7n days, or the parse fails | not executed | RelativeTime.WeekOverflowExample | RelativeTime.TermSpanIntended |
| CalendarStorage/Controllers/CalendarController.cs:225-232 | the blob lookup is not restricted to the caller's snapshots | owner A asks for the id of owner B's snapshot and gets B's blob | only the caller's own snapshots are served | not executed | Controller.ForeignBlobServed | Controller.DataLookupIntended |
| CalendarExport/Arguments.cs:63-73 | the two conflict messages are swapped | `--server-passphrase` with `--server-passphrase-file` prints the encryption options' names | each message names the options that clash | not executed | ExportArguments.ServerConflictMislabelled | ExportArguments.ConflictNamesGivenOptions |
