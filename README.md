# System monitor dashboard — a Dafny model

This project models the core of a self-hosted system monitor dashboard. The dashboard is a Next.js
application: API routes gather host telemetry (CPU, memory, file systems, Docker containers,
processes, connections) and client pages render and filter it. The model covers:

- the two stats routes (`GET /api/stats/details` and the older `GET /api/stats`). This includes how
  they fall back when one probe fails and how they pair Docker containers with their stat samples.
- the dashboard page: its trend history of the last 40 points, the memory percentage and the
  uptime text. It also covers the physical and virtual mount lists.
- the Docker table: port labels, filtering and the sort state. It also covers the sort, which
  reorders the caller's array in place.
- the process page's list of the 50 busiest processes.
- the storage page: breadcrumbs, the parent directory link and the file kind shown in the viewer.
  It also covers the explorer's viewer and editor state.
- the network tools endpoint (`ping` and `dns`).
- the request middleware that guards every non-public path.

Some JavaScript behaviour matters and is written out explicitly:

- `||` treats both a missing value and `0` as false (`Telemetry.Or`).
- `Array.prototype.sort` is stable (`Sorting.SortBy`, an insertion sort).
- `Array.from(new Set(...))` keeps first occurrences in order (`Seqs.Distinct`).
- `String.prototype.split`/`join` are written out (`Text.Split`, `Text.Join`).
- A division by zero gives `Infinity` or `NaN` (`Dashboard.JsNumber`).

Probes that may fail are values of `Probe<T> = Resolved(value) | Rejected`.
`OrElse` models `.catch(() => default)`.

The memory percentage (`src/app/page.tsx:46`) guards only the presence of the memory record, not a
zero total. `Dashboard.MemPercentCases` shows that `{active > 0, total: 0}` gives `Infinity` and
`{0, 0}` gives `NaN`.

Other behaviour of the code that the proofs bring out, stated as lemmas:

- A network tools target starting with `-` passes the host-name pattern and reaches `ping` as an
  option-like argument (`NetworkTools.DashTargetAccepted`).
- A file named just `mp4` is classified as a video but previewed as an image
  (`StoragePage.BareVideoNameShownAsImage`).
- The legacy stats route matches ids exactly, and the details route matches them by prefix. The two
  rules can attach different samples to the same container (`StatsLegacy.RulesDisagree`).
- The middleware's public prefixes have no `/` boundary, so `/api/authz` and `/publicity` are public
  (`Middleware.PrefixWithoutBoundary`).

Modules: `Wrappers` (Option), `Text` (JavaScript string operations on `seq<char>`), `Seqs` (filter,
take, last-n, dedup), `Sorting` (the comparator and the stable sort, on sequences and in place),
`Telemetry` (the probe records), `StatsDetails`, `StatsLegacy`, `Dashboard`, `DockerTable`,
`ProcessesPage`, `StoragePage`, `NetworkTools`, `Middleware`.

## Model

| member | source | states |
|---|---|---|
| StatsDetails.FindSample | src/app/api/stats/details/route.ts:29-31 | `find` returns the first non-null sample whose id equals, is a prefix of, or extends the container id. It returns None exactly when no sample matches. |
| StatsDetails.IdsMatch | src/app/api/stats/details/route.ts:30 | The id test: equal, or either id starts with the other (its meaning is stated by IdsMatchIsPrefixRelation). |
| StatsDetails.IdsMatchIsPrefixRelation | src/app/api/stats/details/route.ts:30 | The three-way id test is "one id is a prefix of the other", and it is symmetric. |
| StatsDetails.EmptyIdMatchesAll | src/app/api/stats/details/route.ts:30 | A sample with an empty id matches every container (`startsWith('')` holds). |
| StatsDetails.TruncatedIdMatches | src/app/api/stats/details/route.ts:29-31 | A 8-character short id finds the sample of the full container id. |
| StatsDetails.FirstTruthySpec | src/app/api/stats/details/route.ts:35-45 | An `a \|\| b \|\| 0` chain is non-zero iff some candidate is truthy, and then it equals the first truthy candidate. |
| StatsDetails.FirstTruthyPair | src/app/api/stats/details/route.ts:35-37 | A two-candidate `\|\|` chain is the first-truthy choice of the pair. |
| StatsDetails.Normalize | src/app/api/stats/details/route.ts:34-45 | The `\|\|` chains of the normalisation, field by field (characterised by NormalizeIsFirstTruthy). |
| StatsDetails.StatsFor | src/app/api/stats/details/route.ts:29-52 | The normalised first matching sample, or zero stats when FindSample finds none. |
| StatsDetails.NormalizeIsFirstTruthy | src/app/api/stats/details/route.ts:34-45 | Every normalised field (cpu, mem, memLimit, rx, tx with its wx fallback, r, w) is the first truthy of its camelCase and snake_case sources. |
| StatsDetails.ZeroFallsThrough | src/app/api/stats/details/route.ts:35 | A reported `cpuPercent` of 0 is skipped in favour of `cpu_percent`. |
| StatsDetails.MergeContainers | src/app/api/stats/details/route.ts:27-58 | Every container is kept, in order, with its own fields. Its stats are the normalised matching sample, or zero stats when none matches. |
| StatsDetails.UnmatchedGetsZeroStats | src/app/api/stats/details/route.ts:46-52 | A container no sample matches still appears, with all-zero stats. |
| StatsDetails.TopProcesses | src/app/api/stats/details/route.ts:67 | The result has min(5, n) entries and is a prefix of the stable cpu-descending sort. |
| StatsDetails.TopProcessesAreTop | src/app/api/stats/details/route.ts:67 | The top processes are taken from the list and their cpu never increases. No process left out is busier than one shown. |
| StatsDetails.EstablishedCount | src/app/api/stats/details/route.ts:70 | The count is the number of connections whose state is exactly `ESTABLISHED` (the multiplicity of that state among the connection states). Hence it is at most the number of connections, 0 iff none is ESTABLISHED, and the full length iff all are. |
| StatsDetails.FilterCountsStates | src/app/api/stats/details/route.ts:70 | The length of the ESTABLISHED filter equals the number of `ESTABLISHED` entries among the states. |
| StatsDetails.EstablishedCountExample | src/app/api/stats/details/route.ts:70 | Two ESTABLISHED connections among others count as 2. |
| StatsDetails.PhysicalDisks | src/app/api/stats/details/route.ts:22 | Exactly the disks with positive size and type other than `Virtual` are kept, each with its multiplicity, in their input order (a subsequence of the input). |
| StatsDetails.Get | src/app/api/stats/details/route.ts:6-75 | The route answers 500 with `Failed to fetch details: ` iff an uncaught probe (cpu, osInfo, fsSize, temp, users, diskLayout) fails. Otherwise it passes those through and defaults caught probes (`[]` services, zero stats, `[]` top processes). Each container's stats are those of its first matching sample (zero stats without one). topProcesses is the top five of the list. connections is the ESTABLISHED count, and diskLayout is the physical-disk filter. |
| StatsLegacy.FindExact | src/app/api/stats/route.ts:28 | `find` returns the first non-null sample whose id equals the container id, and None iff there is none. |
| StatsLegacy.MergeExact | src/app/api/stats/route.ts:27-33 | Every container is kept in order. Its stats are the raw matching sample or the default `{cpu_percent: 0, mem_usage: 0, netIO: {rx: 0, tx: 0}}`. |
| StatsLegacy.MergeExactAttachesRawOrDefault | src/app/api/stats/route.ts:28-31 | A container's stats are the raw sample exactly when an exact match exists, and the default otherwise. |
| StatsLegacy.TruncatedIdGetsDefault | src/app/api/stats/route.ts:28-31 | A short-id sample is not found by the exact rule; the container gets the default. |
| StatsLegacy.PrefixRuleFindsNoLater | src/app/api/stats/details/route.ts:29-31 | Wherever the exact rule finds a sample, the prefix rule finds one at the same or an earlier position. |
| StatsLegacy.RulesDisagree | src/app/api/stats/route.ts:28 | Samples `ab`, `abc` and container `abc`: the exact rule picks the second sample, the prefix rule the first. |
| StatsLegacy.Get | src/app/api/stats/route.ts:6-49 | The route answers 500 with `Failed to fetch stats: ` iff one of the eight uncaught probes fails. Otherwise it passes them through and keeps every container. Each container gets the raw sample with its exact id, or the default stats (always the default when the stats probe failed). |
| Dashboard.MemPercentCases | src/app/page.tsx:46 | No memory record gives 0. A record with 0 <= active <= total and total > 0 gives a finite value in [0, 100]. Total 0 gives Infinity (active > 0) or NaN (active 0). |
| Dashboard.MemPercent | src/app/page.tsx:46 | `(active / total) * 100` with JavaScript division, or 0 without a memory record (its cases are stated by MemPercentCases). |
| Dashboard.Appended | src/app/page.tsx:47-48 | The new history has min(n+1, 40) points, ends with the new point and is a suffix of the old history plus the point. Below capacity nothing is dropped; at capacity the oldest point is dropped. |
| Dashboard.LastNAppend | src/app/page.tsx:47-48 | Appending to the last 40 and keeping the last 40 equals keeping the last 40 of the full append. |
| Dashboard.ReplayStep | src/app/page.tsx:45-49 | One more poll turns the replayed history into the last 40 of the history plus the new point. |
| Dashboard.ReplayKeepsLatest | src/app/page.tsx:45-49 | Starting empty, any sequence of polls leaves exactly the 40 latest points in order. |
| Dashboard.DashboardPage.constructor | src/app/page.tsx:27-31 | The page starts with no snapshots, an empty history, and loading set. |
| Dashboard.DashboardPage.FetchFast | src/app/page.tsx:36-54 | A successful reply stores the snapshot, appends the derived point (current load, memory percent) to the bounded history, and clears loading. A failure changes nothing. The history never exceeds 40. |
| Dashboard.DashboardPage.FetchDetails | src/app/page.tsx:56-65 | A successful reply replaces the detail snapshot; a failure changes nothing; nothing else changes. |
| Dashboard.SplitUptimeBounds | src/app/page.tsx:94-96 | Hours are below 24 and minutes below 60. Days, hours and minutes account for every whole minute of the uptime; fewer than 60 seconds are dropped. |
| Dashboard.SplitUptime | src/app/page.tsx:94-96 | The floor divisions giving days, hours of the day and minutes of the hour (bounded by SplitUptimeBounds). |
| Dashboard.Render | src/app/page.tsx:97 | The template `${d > 0 ? d + 'd ' : ''}${h}h ${m}m` (its shape and injectivity are RenderShape and RenderInjective). |
| Dashboard.FormatUptime | src/app/page.tsx:92-98 | The text is `-` exactly when the uptime is missing or 0. |
| Dashboard.HoursMinutesInjective | src/app/page.tsx:97 | `${h}h ${m}m` determines h and m. |
| Dashboard.RenderShape | src/app/page.tsx:97 | With days the text is `${d}d ` followed by the hours and minutes; without days it is the hours and minutes alone. |
| Dashboard.RenderDayMismatch | src/app/page.tsx:97 | A text with a day part never equals one without. |
| Dashboard.RenderInjective | src/app/page.tsx:97 | Equal texts come from equal day/hour/minute splits. |
| Dashboard.FormatUptimeSameMinute | src/app/page.tsx:92-98 | Two positive uptimes show the same text iff they have the same day, hour and minute. |
| Dashboard.FormatUptimeWithDays | src/app/page.tsx:92-98 | 90061 seconds shows as `1d 1h 1m`. |
| Dashboard.FormatUptimeUnderADay | src/app/page.tsx:92-98 | 3599 seconds shows as `0h 59m`: no day part, hours always shown. |
| Dashboard.PhysicalMounts | src/app/page.tsx:276 | Exactly the entries with positive size whose mount is not under `/var/lib/docker/overlay2` are kept, with multiplicity, in input order. |
| Dashboard.VirtualMounts | src/app/page.tsx:305 | Exactly the entries whose mount is, or is below, `/mnt/ramdisk`, `/var/log`, `/tmp` or `/run` are kept, with multiplicity, in input order. |
| Dashboard.ShowVirtualHeader | src/app/page.tsx:298 | The virtual section is shown iff some entry is a virtual mount. |
| Dashboard.VirtualRootBoundary | src/app/page.tsx:298 | `/tmp` and `/tmp/cache` are virtual; `/tmpx` is not (the `p + '/'` boundary). |
| Dashboard.MountInBothLists | src/app/page.tsx:276-305 | A sized `/run` mount appears in both the physical and the virtual list. |
| DockerTable.ArrowLabelShape | src/components/dashboard/DockerTable.tsx:21 | A published port is labelled `${public} -> ${private}`. |
| DockerTable.PortLabel | src/components/dashboard/DockerTable.tsx:21 | A truthy public port gives `public -> private`, otherwise the private port alone (stated by ArrowLabelShape and PortLabelInjective). |
| DockerTable.ArrowLabelNotPlain | src/components/dashboard/DockerTable.tsx:21 | A published port's label never equals an unpublished port's label. |
| DockerTable.PortLabelInjective | src/components/dashboard/DockerTable.tsx:21 | Two ports get the same label iff they have the same public port (0 meaning unpublished) and the same private port. |
| DockerTable.Labels | src/components/dashboard/DockerTable.tsx:20-22 | The `map` gives one label per port, in order. |
| DockerTable.UniquePortsSpec | src/components/dashboard/DockerTable.tsx:20-22 | The unique labels have no duplicates and contain exactly the labels of the ports. They are ordered by first occurrence. |
| DockerTable.UniquePorts | src/components/dashboard/DockerTable.tsx:20-22 | The labels with duplicates removed, keeping first occurrences (stated by UniquePortsSpec). |
| DockerTable.DuplicateMappingShownOnce | src/components/dashboard/DockerTable.tsx:20-22 | A mapping reported twice (IPv4 and IPv6) is shown once. |
| DockerTable.NextSort | src/components/dashboard/DockerTable.tsx:142-146 | The clicked column becomes the sort column. The order becomes descending iff that column was already sorted ascending. |
| DockerTable.NextSortToggles | src/components/dashboard/DockerTable.tsx:142-146 | Clicking the current column twice restores the state. |
| DockerTable.NextSortNewColumn | src/components/dashboard/DockerTable.tsx:142-146 | Clicking another column sorts it ascending. |
| DockerTable.KeyOf | src/components/dashboard/DockerTable.tsx:155-164 | The sort key: `stats?.cpu \|\| 0`, `stats?.mem \|\| 0` or the name (MissingStatsAreZero). |
| DockerTable.NameFilter | src/components/dashboard/DockerTable.tsx:150-152 | The containers whose lower-cased name contains the lower-cased filter, in order. |
| DockerTable.View | src/components/dashboard/DockerTable.tsx:148-170 | Filter, then the stable sort by the chosen key and order (stated by ViewSpec, ViewStable and ViewCpuOrder). |
| DockerTable.ViewSpec | src/components/dashboard/DockerTable.tsx:148-170 | The view holds exactly the containers whose lowercase name contains the lowercase filter, with multiplicity. It is sorted by the chosen key and order. |
| DockerTable.EmptyFilterMatchesAll | src/components/dashboard/DockerTable.tsx:150-152 | With an empty filter every container is kept. |
| DockerTable.ViewCpuOrder | src/components/dashboard/DockerTable.tsx:155-168 | Sorted by cpu, the cpu values are non-decreasing (asc) or non-increasing (desc). |
| DockerTable.ViewStable | src/components/dashboard/DockerTable.tsx:153-169 | Containers with equal keys keep their input order. |
| DockerTable.MissingStatsAreZero | src/components/dashboard/DockerTable.tsx:156-160 | A container without stats sorts with cpu and mem 0. |
| DockerTable.TableState.constructor | src/components/dashboard/DockerTable.tsx:104-106 | The table starts with an empty filter, sorted descending by cpu. |
| DockerTable.TableState.SetFilter | src/components/dashboard/DockerTable.tsx:104 | Typing sets the filter and leaves the sort alone. |
| DockerTable.TableState.HandleRequestSort | src/components/dashboard/DockerTable.tsx:142-146 | The new sort state is NextSort of the old one, and the filter is unchanged. |
| DockerTable.TableState.Filtered | src/components/dashboard/DockerTable.tsx:148-170 | The result is the specified view of the containers. With no filter, `sort` reorders the caller's array in place to the result. With a filter, the caller's array is untouched. |
| Sorting.KeyLessStrictTotal | src/components/dashboard/DockerTable.tsx:166-167 | The `<` on the sort keys (numbers, or strings by code unit) is irreflexive, asymmetric and total. |
| Sorting.KeyLessTransitive | src/components/dashboard/DockerTable.tsx:166-167 | That `<` is transitive. |
| Sorting.CompareProperties | src/components/dashboard/DockerTable.tsx:166-168 | The comparator is 0 only on equal keys and antisymmetric, and the order it induces is total. |
| Sorting.LeTransitive | src/components/dashboard/DockerTable.tsx:166-168 | The order the comparator induces is transitive, so the comparator is consistent. |
| Sorting.NumOrder | src/components/dashboard/DockerTable.tsx:166-168 | On numbers, ascending means `<=` and descending means `>=`. |
| Sorting.SortByPermutes | src/components/dashboard/DockerTable.tsx:153 | The sort is a permutation of its input. |
| Sorting.SortBySorted | src/components/dashboard/DockerTable.tsx:153 | The sort's output is ordered by the comparator. |
| Sorting.SortByStable | src/components/dashboard/DockerTable.tsx:153 | Elements with equal keys keep their relative order (the stability `Array.prototype.sort` guarantees). |
| Sorting.SortedPrefixDominates | src/app/processes/page.tsx:36-37 | In a sorted sequence, every element of a prefix precedes every element after it. |
| Sorting.InsertInPlace | src/components/dashboard/DockerTable.tsx:153 | Shifting the i-th element into the sorted prefix `a[..i]` gives the functional insertion, and leaves the rest of the array alone. |
| Sorting.SortInPlace | src/components/dashboard/DockerTable.tsx:153 | The array is rearranged in place to exactly the stable sort of its old contents. |
| ProcessesPage.CpuDescendingSign | src/app/processes/page.tsx:36 | `b.cpu - a.cpu` has the sign of the descending key comparator, so both give the same stable sort. |
| ProcessesPage.FilteredList | src/app/processes/page.tsx:33-38 | At most 50 entries, and none without a snapshot list. |
| ProcessesPage.FilteredListSpec | src/app/processes/page.tsx:33-38 | Each shown process is from the snapshot and matches the filter case-insensitively. The cpu values never increase. The count is min(50, number of matches). |
| ProcessesPage.FilteredListIsTop | src/app/processes/page.tsx:33-38 | No matching process left out is busier than one shown. |
| ProcessesPage.EmptyFilterShowsAll | src/app/processes/page.tsx:35 | The empty filter shows the 50 busiest of the whole list. |
| ProcessesPage.CountOrZero | src/app/processes/page.tsx:49-51 | A counter shows its value when it is present and non-zero, and 0 otherwise. |
| StoragePage.DropEmptyPieces | src/app/storage/page.tsx:114 | `filter(Boolean)` over slash-split pieces leaves non-empty segments free of `/`. |
| StoragePage.PathParts | src/app/storage/page.tsx:114 | The path parts are non-empty and contain no `/`. |
| StoragePage.PathPartsOfAbsolute | src/app/storage/page.tsx:114-187 | Splitting the absolute path built from some segments gives those segments back. |
| StoragePage.AbsoluteInjective | src/app/storage/page.tsx:187 | Different segment lists give different absolute paths. |
| StoragePage.BreadcrumbSpec | src/app/storage/page.tsx:186-187 | The i-th breadcrumb points at the path made of the first i+1 parts. The last one points at the current path's normal form. |
| StoragePage.LastBreadcrumbIsPath | src/app/storage/page.tsx:186-187 | The last breadcrumb's path has as many parts as the current path. |
| StoragePage.Breadcrumb | src/app/storage/page.tsx:187 | `'/' + pathParts.slice(0, index + 1).join('/')` (stated by BreadcrumbSpec). |
| StoragePage.JoinAfterEmpty | src/app/storage/page.tsx:216 | Joining an empty first piece and the parts with `/` gives the absolute path. |
| StoragePage.ParentPath | src/app/storage/page.tsx:216 | `path.split('/').slice(0, -1).join('/') \|\| '/'` (stated by ParentOfAbsolute and ParentDropsLastPart). |
| StoragePage.ShowParentRow | src/app/storage/page.tsx:215 | The `..` row is shown on every path but `/`. |
| StoragePage.ParentOfAbsolute | src/app/storage/page.tsx:216 | The `..` row of an absolute path leads to the path without its last part (`/` for a top-level one). |
| StoragePage.ParentDropsLastPart | src/app/storage/page.tsx:216 | The parent's parts are the current parts minus the last. |
| StoragePage.ParentExamples | src/app/storage/page.tsx:216 | `/a/b` leads to `/a`, and `/a` to `/`. |
| StoragePage.ExtensionAfterLastDot | src/app/storage/page.tsx:73 | The extension is the lowercased text after the last dot. |
| StoragePage.ExtensionWithoutDot | src/app/storage/page.tsx:73 | A name without a dot is its own (lowercased) extension. |
| StoragePage.Extension | src/app/storage/page.tsx:73 | The lower-cased last dot-separated piece of the name; it never contains a dot. |
| StoragePage.Classify | src/app/storage/page.tsx:73-78 | The file is an image iff its extension is in the image list. It is a video iff it is not an image and its extension is in the video list. |
| StoragePage.UpperCaseImage | src/app/storage/page.tsx:73-74 | `*.JPG` is an image (the extension is lowercased). |
| StoragePage.WebmIsVideo | src/app/storage/page.tsx:75 | `*.webm` is a video. |
| StoragePage.LastExtensionOnly | src/app/storage/page.tsx:73-75 | `*.tar.gz` is editable text: only the last extension counts. |
| StoragePage.SuffixFromLastDot | src/app/storage/page.tsx:278 | A dot-suffix of a name whose last extension has no dot is that extension. |
| StoragePage.PlaysAsVideo | src/app/storage/page.tsx:278 | The regex `/\.(mp4\|webm\|ogg)$/i`: the lower-cased name ends with a dot and a video extension. |
| StoragePage.LowerDottedName | src/app/storage/page.tsx:73-278 | Lower-casing `stem.ext` lower-cases both sides and keeps the dot; the extension is the lower-cased `ext`. |
| StoragePage.PlayedVideoIsClassifiedVideo | src/app/storage/page.tsx:73-278 | A dotted name the viewer plays as a video was classified as a video. |
| StoragePage.ClassifiedVideoIsPlayed | src/app/storage/page.tsx:73-278 | A dotted name classified as a video is played as a video. |
| StoragePage.ViewerAgreesWithClassify | src/app/storage/page.tsx:73-78 | For a name with a dot, the viewer's `/\.(mp4\|webm\|ogg)$/i` test holds iff the name was classified as video. |
| StoragePage.BareVideoNameShownAsImage | src/app/storage/page.tsx:75-278 | A file named just `mp4` is classified as media (video) but the viewer's regex fails, so it is shown with an image tag. |
| StoragePage.FsTable | src/app/storage/page.tsx:137 | Exactly the file systems with positive size are listed, with multiplicity, in input order. |
| StoragePage.Explorer.constructor | src/app/storage/page.tsx:23-31 | The explorer starts at `/` with no files, no selection, no content, the viewer closed. |
| StoragePage.Explorer.FetchFiles | src/app/storage/page.tsx:45-63 | An ok reply replaces the listing and moves to the path. A failure keeps both. The viewer state is unchanged. |
| StoragePage.Explorer.HandleFileClick | src/app/storage/page.tsx:65-87 | A directory is fetched. A file is selected and the viewer opened. Media files set the media flag and load no text; other files load their text. The media flag always describes the selected file. |
| StoragePage.Explorer.EditContent | src/app/storage/page.tsx:291 | Typing replaces the editor content and nothing else. |
| StoragePage.Explorer.HandleSave | src/app/storage/page.tsx:89-104 | Without a selection or for media nothing is sent. Otherwise the selected path and current content are posted, and the viewer closes when the request went out. |
| NetworkTools.Plan | src/app/api/network/tools/route.ts:10-29 | It answers 401 when the caller is not authenticated, then 400 `Invalid target format` for a bad target. Then `ping` runs `ping -c 4 <target>`, `dns` resolves the target's IPv4 addresses, and any other tool gets 400 `Unknown tool`. |
| NetworkTools.ValidTarget | src/app/api/network/tools/route.ts:14 | The target is present, non-empty and made only of letters, digits, `.` and `-`. |
| NetworkTools.PingCommandIsSafe | src/app/api/network/tools/route.ts:14-22 | The ping command is `ping -c 4 ` plus the target verbatim. No character after the prefix is a shell metacharacter or white space. |
| NetworkTools.TargetCheckedBeforeTool | src/app/api/network/tools/route.ts:14-29 | An invalid target is reported even for an unknown tool. |
| NetworkTools.DashTargetAccepted | src/app/api/network/tools/route.ts:14-22 | The target `-f` passes the pattern and produces `ping -c 4 -f`. |
| NetworkTools.Post | src/app/api/network/tools/route.ts:9-35 | The reply is an error iff the plan rejects the request, and then it is that rejection. Otherwise `ping` answers `{ output: stdout }` and `dns` answers the DNS report. A failure answers with its message or `Execution failed`. |
| NetworkTools.FailureIsOutput | src/app/api/network/tools/route.ts:32-34 | A failed command or lookup answers `{ output }` with its message, or `Execution failed`, never an empty text. |
| NetworkTools.DnsReportLines | src/app/api/network/tools/route.ts:26 | The DNS report splits back into its heading and the addresses, one per line. |
| NetworkTools.DnsReport | src/app/api/network/tools/route.ts:26 | `DNS Lookup for ${target}:\n` followed by the addresses joined with newlines (DnsReportLines). |
| NetworkTools.FailureOutput | src/app/api/network/tools/route.ts:33 | `e.message \|\| 'Execution failed'` (FailureIsOutput). |
| Middleware.Decide | middleware.ts:5-28 | A request passes iff its path is public or its `auth_token` cookie is non-empty and verified; otherwise it is redirected to `/login`. |
| Middleware.Exempt | middleware.ts:9-17 | The public paths: the three prefixes and the two exact paths. |
| Middleware.Verified | middleware.ts:19-22 | The cookie is present, non-empty and accepted by the verifier. |
| Middleware.NoTokenRedirects | middleware.ts:19-25 | Without a cookie, or with an empty one, a non-public path is redirected whatever the verifier says. |
| Middleware.ExemptIgnoresToken | middleware.ts:9-17 | Public paths pass whatever the cookie. |
| Middleware.PrefixWithoutBoundary | middleware.ts:10-12 | `/api/authz` and `/publicity` are public too. |
| Middleware.LoginExactOnly | middleware.ts:13 | `/login` is public, `/login/x` is not. |
| Middleware.PassedRequestIsAuthenticated | middleware.ts:19-27 | A passed request to a non-public path carries a verified session. |
| Text.ContainsIffOccurs | src/app/processes/page.tsx:35 | `includes` holds iff the needle occurs at some position. |
| Text.LowerIsLower | src/app/processes/page.tsx:35 | `toLowerCase` leaves no upper-case letter, and lowercasing twice changes nothing. |
| Text.SplitJoin | src/app/api/network/tools/route.ts:26 | Splitting a join of separator-free pieces gives the pieces back. |
| Text.JoinSplit | src/app/storage/page.tsx:216 | Joining the pieces of a split gives the string back. |
| Text.NatToStringRoundTrip | src/app/page.tsx:97 | The decimal text of a number reads back as that number. |
| Text.NatToStringInjective | src/app/page.tsx:97 | Different numbers have different decimal texts. |
| Text.LexLessTransitive | src/components/dashboard/DockerTable.tsx:166-167 | String `<` is transitive. |
| Text.LexLessTrichotomy | src/components/dashboard/DockerTable.tsx:166-167 | Of two different strings one is `<` the other. |
| Seqs.FilterMultiset | src/app/processes/page.tsx:35 | `filter` keeps each passing element with its multiplicity and drops the rest. |
| Seqs.FilterKeepsOrder | src/app/api/stats/details/route.ts:22 | `filter` keeps the input order: its result is a subsequence of its input. |
| Seqs.FilterPositions | src/app/api/stats/details/route.ts:22 | The kept elements sit at strictly increasing positions of the input. |
| Seqs.FilterLength | src/app/api/stats/details/route.ts:70 | A filter keeps everything iff all pass and nothing iff none pass. |
| Seqs.DistinctFirstOccurrenceOrder | src/components/dashboard/DockerTable.tsx:20 | The deduplicated list is ordered by first occurrence in the input. |

## Left out

- The probes themselves (`systeminformation`), `fetch`, polling intervals and timers are not modelled. They become parameters (probe results, replies, `now`). Each route is one function of its probe results.
- `src/app/api/stats/fast/route.ts` and the other API routes that only wrap one probe are not part of this model. The fast snapshot is a parameter of `Dashboard.DashboardPage.FetchFast`.
- Route responses carry probe payloads the code passes through unread (`Telemetry.Opaque`). The text after an error message's prefix (the stringified exception) is not modelled.
- `formatBytes` (both pages) is not modelled: it uses floating-point logarithms and `toFixed`.
- Metric values are reals, so NaN metrics and IEEE rounding are out. The memory percentage is the exception: its division by zero is written out.
- Dashboard.FormatUptime: the uptime is a natural number or missing. Fractional and negative uptimes are out.
- `toLowerCase` is ASCII-only; full Unicode case mapping is out.
- Text.LexLess compares Unicode scalar values, not JavaScript's UTF-16 code units. The two orders differ between characters above U+FFFF and those in U+E000–U+FFFF, so names mixing them may sort differently.
- NetworkTools.Post: `tool` and `target` are strings or missing. Non-string JSON values and an unparsable body (which throws before the `try`) are out. Running the command and resolving the host are parameters.
- The JSON Web Token check behind `verifyToken` and `isAuthenticated` (`src/lib/auth.ts`) is a parameter (a verifier predicate or an `authenticated` flag).
- `config.matcher` in `middleware.ts` is a framework-side path filter and is not modelled.
- The loading, saving and log-dialog flags are left out, as are the Docker log viewer and the storage page's initial `fetchFiles('/')` effect. The same goes for rendering, themes and navigation.
- StoragePage.Explorer: each handler is one atomic step. Interleaved handlers and stale fetch results are not modelled, e.g. a text fetch for one file that lands after a media file was opened.
- StoragePage.Explorer.EditContent: requires a selected non-media file, the only state in which the editor is shown with content to save.
- The `/api/storage/files` and `/api/storage/content` endpoints and the terminal endpoint are not part of this model.
- Processes have numeric cpu values. A list missing from the snapshot is the same as a missing snapshot (`None`).
