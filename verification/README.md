# Verified models of the Bravo6 scanner

This project models the parts of the scanner pipeline in which something can go wrong without
raising: protocols whose steps interleave, loops that merge or choose, parsers, and the accounting
that the evaluation rests on.  Every main result is a statement over all inputs or all runs.
`dafny verify dfyconfig.toml` checks the whole project.

| module | part of the system |
|---|---|
| `Strings`, `KeyedFold` | string operations and decimal text; merging into an insertion-ordered dictionary, the shape shared by four deduplications |
| `FetchCache` | `ScannerContext.fetch_js`: event-gated cache as a machine over the awaits of any number of calls |
| `Blocklist`, `Hosts`, `Pipeline` | the blocklist and the host that a url names; gateway, queue, workers, result stores and report as one machine; the retry loops proved to be runs of it |
| `Versions`, `Advisory` | the two version orders, the in-place merge of advisory rows, and the range check that consumes it |
| `OsvSync` | OSV advisories to table rows, the table, and reading it back |
| `ServerHello` | the extractor of `openssl -msg` dumps and the JA3S parser |
| `Findings`, `Scoring`, `Aggregation` | normalization, deduplication, scoring, the result of a scan, and its classification |
| `Quota` | the rolling-window quota under overlapping requests |
| `Redaction` | the masking sweep and the disjointness of reported spans |
| `Pool` | merging the candidate strata and replacing excluded domains |
| `BatchRunner` | the semaphore-bounded batch and its accounting |
| `Cookie` | the Set-Cookie parser and its round trip |

State that the source updates in place is a class whose methods are proved against a function of
the old state (`ScannerContext`, `ResultStores`, `MessageQueue`, `AdvisoryRow`, `CveTable`,
`JobContainer`); loops that compute a value are methods proved against a function.  Effects of the
outside world are parameters over which every result quantifies: which writes work, fail or take
effect and raise, how fetches and scans end, what the random draws are, how time passes.

## Promises of the source that do not hold

Each of these is kept as the code has it; the members named give an input and, where there is one,
the exact condition.

- `fetch_js` is not single-flight after a failed fetch: every waiter fetches again and overwrites
  the registered event, so that `n - 1` of `n` calls fetch one url at once
  (`FetchCache.HerdAfterFailure`, against `FetchCache.SingleFlightUntilFailure`).
- A blocklisted target does leave a trace when the gateway and the scanner read the url differently:
  for every blocked host name some url is checked as a whole and has that host scanned
  (`Hosts.UrlInQueryPasses`, `Pipeline.BlockedTargetIsScanned`).  Both check one host exactly for urls
  without "://", urls that start with "http://" or "https://", and the few cases that
  `Hosts.ChecksTargetExactly` and `Hosts.ForeignSchemeExactly` name; under that condition
  `Pipeline.NoTraceOfBlocklistedTargets` holds.
- A merged advisory row covers its rows exactly when no ceiling is blank, or some ceiling is the empty
  string, or the first ceiling is blank and none lies above zero (`Advisory.CoverageExactly`); a
  ceiling of white space under a closed one loses matches (`Advisory.WhiteSpaceCeilingLosesMatches`).
- The docstring of `_parse_version_tuple` says that "3.0.0-rc.1" falls back to zero; the code drops
  what follows the first "-" and gives (3, 0, 0), and the model follows the code (`Versions.SuffixIgnored`).
- The docstring of `osv_cve_sync.dedupe_rows` calls it the same merge as the dataset builder's; it
  keeps the first row's range instead of widening it (`OsvSync.SyncedRowExactly`).  It covers its rows
  exactly when each has an empty range or one inside the first row's (`OsvSync.SyncedCoverageExactly`,
  `OsvSync.LaterCeilingIsLost`).
- A row keeps an advisory's event list exactly when the list has one interval
  (`OsvSync.RowMatchesExactly`); of more intervals the first floor is lost (`OsvSync.FirstFloorIsLost`),
  and everything when the last one is still open (`OsvSync.ReintroducedIsNeverMatched`).
- `_redact_secrets` does not mask every matched substring; it does so exactly when the sweep leaves
  no tail (`Redaction.AllMaskedExactly`, `Redaction.SharedStartLeavesTail`).
- A well-formed ServerHello shorter than fifty bytes has no fingerprint (`ServerHello.Ja3sOfEncoding`).
- A request answered 503 may still be scanned (`Pipeline.RefusedYetQueued`), and a fresh result that is
  in Cosmos DB is reported as stored elsewhere exactly when the first write with an effect was ambiguous
  (`Pipeline.StoredYetReportedElsewhere`).
- With `p` requests of one user in flight, nine plus `p` jobs fit into an hour (`Quota.BoundIsReached`),
  and a job whose write raised may be counted (`Quota.FirstEffectDecides`).
- The joined key of a finding is its own exactly when its first four fields have no bar and every bar
  of its location is followed by white space (`Findings.KeyIdentifiesExactly`, `Findings.BarInTitleCollides`).
- Table keys identify library and CVE, for clean names and ids, exactly when no library followed by an
  underscore begins another (`OsvSync.KeysIdentifyExactly`, `OsvSync.UnderscoreCollides`).  Every unclean
  or missing id shares its key with a clean one and every id with some other (`OsvSync.UncleanIdsCollide`,
  `OsvSync.EveryIdCollides`): keys identify just the cleaned parts (`OsvSync.SameTableKeyExactly`).
- A second application of the exclusions can find something to exclude: where the replacement completes
  (`Pool.EnoughCompletes`, `Pool.CompletesExactly`) it finds nothing for every sampler exactly when no
  unused candidate of a needed stratum is excluded in another spelling (`Pool.AlwaysCleanExactly`,
  `Pool.VariantSpellingSlipsIn`).
- The table of a batch shows each site's own result, for all outcomes, exactly when the sites' file names
  are distinct; sites without rank may share one (`BatchRunner.OwnRowsExactly`, `BatchRunner.SharedFileMixesRows`).
- `Secure=x` is not taken for the flag (`Cookie.ValuedFlagIgnored`), unlike section 5.2.5 of RFC 6265.

## Model

| member | source | states |
|---|---|---|
| FetchCache.Reachable | src/worker/main_scanner.py:290-320 | in every interleaving with any failures and cancellations: each waiter's event is set or owned by a call still fetching that url, each registered event is unset with a live owner, the set events are exactly those of finished fetches |
| FetchCache.SomeCallCanStep | src/worker/main_scanner.py:290-320 | while any call is unfinished, some call can step without anything going wrong |
| FetchCache.EveryRunEnds | src/worker/main_scanner.py:290-320 | no interleaving takes more than five steps per call |
| FetchCache.StuckMeansFinished | src/worker/main_scanner.py:290-320 | a run that cannot go on has finished every call and emptied the event table |
| FetchCache.SingleFlightUntilFailure | src/worker/main_scanner.py:290-320 | a second request for a url is only ever sent after a fetch of that url ended with nothing cached |
| FetchCache.ResultsAreGenuine | src/worker/main_scanner.py:290-320 | every non-empty result is a body that some 200 for the same url delivered |
| FetchCache.CacheIsLatest | src/worker/main_scanner.py:290-320 | after any run the cache holds, for each url, the body of the latest `Deliver` for it, and nothing for other urls |
| FetchCache.ReturnsExactly | src/worker/main_scanner.py:290-320 | read off the schedule: a call returns the body it was delivered once it closes, the body cached at the moment it starts or wakes, or nothing after a failure; it is done exactly when one of these or a cancellation occurs |
| FetchCache.MetricsCountDecisions | src/worker/main_scanner.py:290-320 | cache_hits and http_requests together count each call that passed its decision point exactly once |
| FetchCache.HerdAfterFailure | src/worker/main_scanner.py:290-320 | for every n, a run of n calls of one url with one failed fetch in which the other n - 1 fetch at once, and only the last one's event is registered |
| FetchCache.ScannerContext.Enter | src/worker/main_scanner.py:290-306 | the code from the call to its first await is the machine's Start step on the object's fields |
| FetchCache.ScannerContext.Resume | src/worker/main_scanner.py:290-306 | the code after event.wait() re-checks the cache and is the machine's Wake step |
| FetchCache.ScannerContext.StoreText | src/worker/main_scanner.py:306-320 | caching a received body is the machine's Deliver step |
| FetchCache.ScannerContext.Leave | src/worker/main_scanner.py:306-320 | the finally block sets the own event and pops the url's entry, whoever registered it |
| FetchCache.ScannerContext.EventLoop | src/worker/main_scanner.py:290-320 | executing any valid schedule on the object ends in the machine's state for that schedule |
| Blocklist.UnderIsLabelSuffix | src/api/blocklist.py:52-72 | a host matches a blocked domain exactly when the domain's labels are the host's last labels |
| Blocklist.SubdomainsStayBlocked | src/api/blocklist.py:56-72 | every subdomain of a blocked host is blocked |
| Blocklist.SpellingIgnored | src/api/blocklist.py:52-72 | white space around a host, letter case and dots at its end make no difference |
| Hosts.PlainFormAgrees | src/api/function_app.py:84-86 | for a url without "://" the gateway checks the host that is scanned, up to normalization, white space included |
| Hosts.HttpFormAgrees | src/worker/main_scanner.py:812-819 | so it does for every url that starts with "http://" or "https://" after white space |
| Hosts.TargetUrlExactly | src/worker/main_scanner.py:812-819 | without its white space a url with a web scheme is scanned as it stands, any other with "https://" in front |
| Hosts.ChecksTargetExactly | src/api/function_app.py:84-86 | both read one host if and only if the url has no "://", has a web scheme or repeats its host, unless parsing raises or there is no target |
| Hosts.ForeignSchemeExactly | src/api/function_app.py:84-86 | for a url with another scheme both read one host if and only if the host is named like the scheme or parsing raises |
| Hosts.UrlInQueryPasses | src/api/function_app.py:84-106 | for every blocked host name, written in lower case, some url passes the blocklist and has that host scanned |
| Pipeline.InvStep | src/api/function_app.py:89-138 | every step of gateway, queue, worker and stores keeps the pipeline invariant |
| Pipeline.AcceptedJobsAccountedFor | src/worker/main_scanner.py:750-806 | at every moment of every run a job answered 202 is queued under its own id and url, stored in Cosmos DB or locally under its id and target url, or was ended without a result |
| Pipeline.NoTraceOfBlocklistedTargets | src/api/function_app.py:100-106 | no queued message, no worker and no stored document ever has a blocklisted target, for every url whose scanned host is the one that the gateway checks |
| Pipeline.BlockedJobsAreMisread | src/api/function_app.py:84-106 | in every reachable state a job with a blocklisted target has a url that gateway and scanner read differently |
| Pipeline.PassingUrlIsScanned | src/worker/main_scanner.py:812-819 | every url that passes the check can be scanned and its result stored under the scanner's target |
| Pipeline.BlockedTargetIsScanned | src/api/function_app.py:84-106 | for every blocklisted host name, written in lower case, a run of the machine scans and stores it |
| Pipeline.DocumentsAreImmutable | src/worker/main_scanner.py:786-792 | under any redelivery and any ambiguous write a stored document never changes |
| Pipeline.ReportOnlyMovesToComplete | src/report/function_app.py:90-170 | the report of an id is 404 or Complete at every moment, moves only from the first to the second, and then always returns the same document |
| Pipeline.ResultWhenComplete | src/report/function_app.py:119-170 | the result route hands out the stored document exactly when the status route says Complete, and fails exactly like it |
| Pipeline.QueuedJobsCanComplete | src/worker/function_app.py:21-60 | from any state, any idle worker can still bring a queued job to a stored result |
| Pipeline.DeliveriesSettle | src/worker/function_app.py:21-70 | a finished delivery can be completed, which takes its message off the queue; a raised one can only be given back |
| Pipeline.ResultStores.PersistScanResult | src/worker/main_scanner.py:750-806 | three create attempts, then the local file: returns "none" only if the local write failed, "cosmos" only for a document created by this call, and never overwrites a document |
| Pipeline.ResultStores.ProcessScan | src/worker/function_app.py:21-70 | drops exactly the messages without url or job id and invalid JSON; raises, without touching a store, exactly for unreadable messages and raised scans; otherwise persists the scan's document under the job id and target |
| Pipeline.PersistIsARun | src/worker/main_scanner.py:782-806 | the write-retry loop is a run of the machine with the same stores and outcome |
| Pipeline.FirstEffectDecides | src/worker/main_scanner.py:782-806 | for a fresh id the first write that does not plainly fail stores the document and decides the report; when all fail, Cosmos DB is unchanged |
| Pipeline.StoredYetReportedElsewhere | src/worker/main_scanner.py:782-806 | a fresh result is in Cosmos DB but reported elsewhere if and only if the first write with an effect raised |
| Pipeline.ProcessIsARun | src/worker/function_app.py:21-70 | an uninterrupted delivery is a run of the machine with the same stores and end |
| Pipeline.ProcessEndsExactly | src/worker/function_app.py:21-70 | raises exactly for unreadable messages and raised scans of well-formed ones; drops, blocks, skips or persists exactly for the messages and scans of that kind; touches a store only for a finished scan |
| Pipeline.EndedExactly | src/worker/function_app.py:21-70 | over all runs: a job is given up exactly when the broker dead-letters a message of it, or a message is completed after a scan that was blocked or had nothing to run, or whose local write failed too |
| Pipeline.RaisingScansKeepMessage | src/worker/function_app.py:67-70 | over all runs: while every scan of a message raises, it stays queued until the broker dead-letters it |
| Pipeline.MessageQueue.EnqueueScanJob | src/api/servicebus_queue.py:53-77 | at most three attempts, stopping at the first that returns or raises another error; each attempt that took effect leaves a copy |
| Pipeline.EnqueueEnds | src/api/servicebus_queue.py:53-77 | the first attempt that returns or raises another error decides the end; without one the loop gives up after the third |
| Pipeline.EnqueueIsARun | src/api/servicebus_queue.py:53-77 | the send-retry loop is a run of the machine with the same answer and as many messages |
| Pipeline.MessageQueue.HandleScanRequest | src/api/function_app.py:89-138 | 403 exactly for urls whose checked host is blocklisted or unsafe, and then no message; never 202 for a blocklisted target whose host is the checked one; else 202, 500 and 503 exactly as the first deciding send attempt says, 202 only with the message queued; a 503 leaves no message exactly when no attempt took effect |
| Pipeline.RefusedYetQueued | src/api/function_app.py:128-135 | three ambiguous sends: the request is answered 503 while its message is queued |
| Versions.LexImpliesPad | src/cve-pipeline/cve_etl.py:235-246 | the builder's raw tuple order refines the scanner's zero-padded order |
| Versions.ParseVersionTuple | src/cve-pipeline/cve_etl.py:235-246 | the parsing loop gives the integers of the dotted part before the first "-", or zero when any of them is not a number |
| Versions.SuffixIgnored | src/cve-pipeline/cve_etl.py:235-246 | a version with a pre-release suffix has the key of the version without it |
| Versions.PlainRelease | src/worker/test_02_frontend_libs.py:170-203 | on plain release numbers both parsers read the same integers |
| Versions.PrintThenRead | src/cve-pipeline/cve_etl.py:235-246 | every printed version is read back number by number, in order, by both parsers |
| Versions.BadComponentSortsFirst | src/cve-pipeline/cve_etl.py:235-246 | a version with a component that is no integer has the key (0,) |
| Versions.LexLessExactly | src/cve-pipeline/cve_etl.py:249-286 | the raw order: after a common beginning one version ends or has the smaller number |
| Versions.PadLessExactly | src/worker/test_02_frontend_libs.py:170-203 | the padded order: at the first place where the numbers, padded with zeros, differ, one is smaller |
| Versions.PrintedRange | src/worker/test_02_frontend_libs.py:170-203 | on printed versions, with an operator or white space in front of the detected one, the range check compares the numbers |
| Versions.UnreadableNeverMatches | src/worker/test_02_frontend_libs.py:170-203 | nothing is matched when the detected version or a given bound is no version |
| Versions.InRangePlain | src/worker/test_02_frontend_libs.py:170-203 | on plain or blank bounds the range check is the half-open interval of the padded order |
| Versions.InRangeReadable | src/worker/test_02_frontend_libs.py:170-203 | for every detected version and plain or blank bounds the range check is the half-open interval of the padded order |
| Advisory.DedupeRows | src/cve-pipeline/cve_etl.py:249-286 | the loop that overwrites fields of existing row objects, also when objects repeat, leaves in the kept objects the join of each key's rows and changes no other object |
| Advisory.DatasetIsJoin | src/cve-pipeline/cve_etl.py:249-286 | one row per (library, CVE), and each merged field is the first best value of that field in the group |
| Advisory.DatasetIsWidest | src/cve-pipeline/cve_etl.py:249-286 | field by field: the highest score, the first weakness given, a longest summary, no floor below and no ceiling above it, open exactly when some ceiling is the empty string |
| Advisory.OrderIndependent | src/cve-pipeline/cve_etl.py:249-286 | reordering or repeating the input changes no floor, ceiling or score |
| Advisory.CoverageExactly | src/cve-pipeline/cve_etl.py:269-282 | the merged row matches every version that one of its rows matches if and only if no ceiling is blank, or some ceiling is the empty string, or the first ceiling is blank and none lies above zero |
| Advisory.OpenCeilingExactly | src/cve-pipeline/cve_etl.py:269-282 | with a blank ceiling in the group, the merged ceiling is open if and only if some ceiling is the empty string, or the first is blank and none lies above zero |
| Advisory.MergedRangeCovers | src/worker/test_02_frontend_libs.py:170-203 | with open ceilings given as the empty string, a version matched against any row is matched against the merged row |
| Advisory.WhiteSpaceCeilingLosesMatches | src/cve-pipeline/cve_etl.py:269-282 | a ceiling of one space is ranked lowest by the builder and read as open by the scanner, which loses matches |
| OsvSync.ExtractAffectedRange | src/worker/osv_cve_sync.py:138-155 | the first SEMVER range, or else the ends of the version list, of the first entry of the package that has one; blank when none has |
| OsvSync.CollapseEvents | src/cve-pipeline/cve_etl.py:213-233 | the event loop keeps the last introduced and the last fixed version |
| OsvSync.SingleIntervalExact | src/worker/osv_cve_sync.py:138-155 | the row of an advisory with one interval, closed or still open, matches exactly the versions from the floor to below the ceiling |
| OsvSync.RowMatchesExactly | src/worker/osv_cve_sync.py:138-155 | for every ascending list of intervals the row matches exactly the affected versions if and only if there is one interval |
| OsvSync.FirstFloorIsLost | src/worker/osv_cve_sync.py:145-151 | of two intervals or more the first floor is an affected version that is not matched |
| OsvSync.ReintroducedIsNeverMatched | src/worker/osv_cve_sync.py:145-151 | the row of a flaw that was fixed and is open again, after any number of intervals, is matched by no version |
| OsvSync.BuildRowsForPackage | src/worker/osv_cve_sync.py:158-180 | one row for each advisory that is not malformed, in order, described field by field in the advisory's own terms |
| OsvSync.RowsInOrder | src/worker/osv_cve_sync.py:158-180 | the k-th advisory that is not malformed gives the k-th row: package, signature, score and weakness as given, its first CVE alias or own id, the range of its first usable entry, its text cut to 200 characters |
| OsvSync.DedupeSyncedRows | src/worker/osv_cve_sync.py:204-220 | the merging loop gives, per key in first-occurrence order, the fold of the key's rows |
| OsvSync.SyncedRowExactly | src/worker/osv_cve_sync.py:204-220 | each synced row is its key's first row, range included, with the highest score, the first weakness given and the first longest summary |
| OsvSync.SyncedRowBest | src/worker/osv_cve_sync.py:204-220 | field by field: the first row's range and advice, the highest score, the first weakness given, the first of the longest summaries |
| OsvSync.SyncedCoverageExactly | src/worker/osv_cve_sync.py:204-220 | the synced row matches every version that a row of its key matches if and only if each row's range is empty or inside the first row's |
| OsvSync.LaterCeilingIsLost | src/worker/osv_cve_sync.py:204-220 | a later row with a later ceiling loses matches, unlike in the dataset builder's merge |
| OsvSync.SyncAllPackages | src/worker/osv_cve_sync.py:223-250 | exactly the packages whose fetch failed are skipped, and the rest are deduplicated together |
| OsvSync.PackagesAreIndependent | src/worker/osv_cve_sync.py:223-250 | the rows of a package are those of syncing it alone, and a failed package has none |
| OsvSync.TableKeyInjective | src/worker/osv_cve_sync.py:256-273 | for clean libraries and ids, neither library followed by an underscore beginning the other, table keys are equal exactly when (library, CVE) are |
| OsvSync.KeysIdentifyExactly | src/worker/osv_cve_sync.py:256-273 | for a set of clean libraries table keys identify all rows with clean ids if and only if no library followed by an underscore begins another |
| OsvSync.UnderscoreCollides | src/worker/osv_cve_sync.py:264-273 | whenever a library followed by an underscore begins another, two clean rows of them share a key |
| OsvSync.UncleanIdsCollide | src/worker/osv_cve_sync.py:256-273 | every row whose id is missing or has a forbidden character shares its key with the row of the cleaned id, which is another id |
| OsvSync.EveryIdCollides | src/worker/osv_cve_sync.py:256-273 | every id, clean or not, shares its key with some other id |
| OsvSync.SameTableKeyExactly | src/worker/osv_cve_sync.py:256-273 | for any rows whose cleaned libraries do not clash, table keys are equal if and only if cleaned libraries and cleaned ids are |
| OsvSync.CveTable.WriteRows | src/worker/osv_cve_sync.py:288-311 | written counts the writes that returned, written and failed add up to the rows, and the table is overwritten row by row |
| OsvSync.CountWorksExactly | src/worker/osv_cve_sync.py:288-311 | the first count is the number of writes that returned |
| OsvSync.OverwrittenExactly | src/worker/osv_cve_sync.py:288-311 | the table is the old one overwritten at exactly the rows whose write took effect |
| OsvSync.CveTable.RunSync | src/worker/osv_cve_sync.py:314-322 | fetched equals written plus failed, and the table holds the synced rows that were written |
| OsvSync.FetchCveDataset | src/worker/test_02_frontend_libs.py:347-369 | the rows of all listed entities, or nothing when the listing raises anywhere |
| OsvSync.SyncThenRead | src/worker/test_02_frontend_libs.py:347-369 | after a sync into an empty table without failed writes, for libraries whose names do not clash, the scanner reads exactly the synced rows, each once, whichever packages failed |
| OsvSync.SyncCoversAdvisories | src/worker/osv_cve_sync.py:223-250 | there is a synced row of a library and an id exactly when an advisory fetched for the library, not malformed, has the id |
| OsvSync.EveryAdvisoryIsRead | src/worker/test_02_frontend_libs.py:347-369 | so after a clean sync the scanner reads a row for every well-formed advisory of every fetched package, and for nothing else |
| ServerHello.ExtractServerHelloHex | src/worker/test_04_ssl_tls.py:369-395 | the line loop gives the hex text of the data lines after the header up to the first stop line |
| ServerHello.ComputeJa3s | src/worker/test_04_ssl_tls.py:397-430 | the index-walking parser terminates on every text and agrees with the offset-based definition |
| ServerHello.ReadExtTypes | src/worker/test_04_ssl_tls.py:416-426 | the extension loop ends on any text and yields the types in order, or nothing when a field is no number |
| ServerHello.Ja3sOfEncoding | src/worker/test_04_ssl_tls.py:397-430 | parsing an encoded ServerHello gives version, cipher and extension types in wire order, independently of random, session id, compression, extension bodies and trailing bytes, exactly from fifty bytes on |
| ServerHello.FingerprintCanonical | src/worker/test_04_ssl_tls.py:427-428 | fingerprint strings are equal exactly when version, cipher and types are |
| ServerHello.FingerprintFields | src/worker/test_04_ssl_tls.py:427-428 | version, cipher and types can be read off the string in this order |
| ServerHello.UnreadableHasNone | src/worker/test_04_ssl_tls.py:397-430 | a version, session id length, cipher or extension length that is no number leaves no fingerprint |
| ServerHello.HexIgnoresCase | src/worker/test_04_ssl_tls.py:397-430 | both cases of hexadecimal letters are read alike |
| ServerHello.ExtractionFindsMessage | src/worker/test_04_ssl_tls.py:369-395 | extraction recovers the hex text of a ServerHello dumped in lines of any width: before it any lines but another ServerHello's header, such as other records with their data, remarks between its lines, and after it a blank line, the end or another record |
| ServerHello.SpacedIsHexLine | src/worker/test_04_ssl_tls.py:367 | two-digit groups with any white space between them are a data line |
| ServerHello.HexLineIsSpaced | src/worker/test_04_ssl_tls.py:367 | every data line consists of such groups |
| ServerHello.RemoveSpacesExactly | src/worker/test_04_ssl_tls.py:393-394 | only blanks are taken out of a data line, and nothing is reordered |
| ServerHello.DumpedHelloFingerprint | src/worker/test_04_ssl_tls.py:369-430 | extraction followed by parsing yields the fingerprint of the dumped ServerHello |
| ServerHello.ExtractedChars | src/worker/test_04_ssl_tls.py:369-395 | whatever the output, what reaches the parser consists of hexadecimal digits and white space |
| Findings.ConfidenceTier | src/worker/main_scanner.py:467-478 | any raw confidence becomes one of the four tiers |
| Findings.ThresholdsPassed | src/worker/main_scanner.py:467-478 | a number gains one tier at 30, at 70 and at 90 |
| Findings.ConfidenceRead | src/worker/main_scanner.py:467-478 | a permitted tier is kept, a numeral counts as its number, a missing one as 50, any other text as informational |
| Findings.Normalize | src/worker/main_scanner.py:481-545 | any raw finding gets a permitted severity and confidence, its module and a non-empty title |
| Findings.SeverityKept | src/worker/main_scanner.py:481-545 | a permitted severity is kept in any letter case, any other becomes "info" |
| Findings.FieldsKept | src/worker/main_scanner.py:481-545 | title, location, tier, cwe and owasp are the first text given for them, cut to their lengths |
| Findings.NormalizeTwice | src/worker/main_scanner.py:481-545 | normalizing a normalized finding changes nothing |
| Findings.DeduplicateFindings | src/worker/main_scanner.py:552-572 | the dictionary loop computes the keyed merge |
| Findings.BetterExactly | src/worker/main_scanner.py:549-569 | a finding replaces another of its key exactly when it is more confident, or as confident and more severe |
| KeyedFold.FirstKeysOrder | src/worker/main_scanner.py:552-572 | the keys of a merge stand in the order of their first occurrences |
| Findings.DedupExactly | src/worker/main_scanner.py:552-572 | per key, in first-occurrence order, the first finding that none of its key betters in (confidence, severity); keys are unique and a second pass changes nothing |
| Findings.DedupDominates | src/worker/main_scanner.py:552-572 | nothing is invented, and each finding is kept or stands behind one of its key that it does not better |
| Findings.KeySeparates | src/worker/main_scanner.py:555-557 | when the first four fields have no bar, equal keys mean equal fields |
| Findings.KeyIdentifiesExactly | src/worker/main_scanner.py:555-557 | no finding with other fields shares the key if and only if the first four fields have no bar and every bar of the location is followed by white space |
| Findings.BarInTitleCollides | src/worker/main_scanner.py:555-557 | every finding with a bar in its title has another finding, of the same module when its name has no bar, with which it collapses into one |
| Scoring.ComputeScore | src/worker/main_scanner.py:577-671 | score is the raw score cut at zero and within 0..100, the hardening tier costs at most ten, and the grade is reliable exactly when there is no coverage gap |
| Scoring.OneMoreFinding | src/worker/main_scanner.py:608-644 | a hardening finding costs what is left of ten points at most, any other finding its penalty |
| Scoring.ScoreAntitone | src/worker/main_scanner.py:608-644 | more findings never raise the score or the grade |
| Scoring.ScorePermutation | src/worker/main_scanner.py:608-644 | the order of the findings does not matter |
| Scoring.DedupNeverLowers | src/worker/main_scanner.py:552-572 | deduplication never lowers the score |
| Scoring.BuggyFindings | src/worker/evaluation/tier_fix_counterfactual.py:54-66 | the tier is cleared on exactly the affected findings and nothing else changes |
| Scoring.TierFixShift | src/worker/evaluation/tier_fix_counterfactual.py:79-111 | the shift is what the cap absorbs: between zero and the affected penalties, and zero when the tier is under its cap |
| Scoring.OcspShift | src/worker/evaluation/ocsp_fix_impact.py:87-107 | the synthetic finding costs exactly what is left under the cap, at most two points and one grade |
| Aggregation.Collect | src/worker/main_scanner.py:924-974 | one entry and either a completion or an error per module, with the completed modules' findings normalized in order |
| Aggregation.Aggregate | src/worker/main_scanner.py:924-1017 | the result's counts, findings, summary and score are those of the modules' outcomes, and the grade is reliable exactly for a representative page without errors |
| Aggregation.ModulesAddUp | src/worker/main_scanner.py:924-974 | findings, errors and completions of more modules are those of the first ones and those of the others, in order |
| Aggregation.OneModule | src/worker/main_scanner.py:924-974 | a completed module gives its findings normalized in order, any other one error with its name and message |
| Aggregation.CountSeverityExactly | src/worker/main_scanner.py:975-978 | a severity count counts each finding of the severity once |
| Aggregation.AggregateAddsUp | src/worker/main_scanner.py:924-1017 | for distinctly named modules: completed plus errors equals modules equals test entries, severity counts add up to the findings, and no unreliable result is left unclassified |
| Aggregation.OneEntryPerModule | src/worker/main_scanner.py:930-972 | there are as many test entries as modules exactly when the names are distinct |
| Quota.WindowBound | future-work/auth/quota.py:48-62 | with at most p requests of a user in flight, every closed hour of every run holds at most nine plus p recorded jobs |
| Quota.SequentialRequestsKeepTheLimit | future-work/auth/quota.py:48-62 | a user's successive requests never exceed ten recorded jobs in an hour |
| Quota.BoundIsReached | future-work/auth/quota.py:48-62 | for every p a run within p records nine plus p jobs at once |
| Quota.JobContainer.CheckQuota | future-work/auth/quota.py:48-62 | allowed exactly when fewer than ten of the user's jobs were submitted in the last hour |
| Quota.JobContainer.CountRecentScans | future-work/auth/scan_job.py:134-157 | counts exactly the user's records since the window start |
| Quota.JobContainer.WriteScanJob | future-work/auth/scan_job.py:83-131 | returns only with the record stored; the stored record and the return value are those of the attempts |
| Quota.FirstEffectDecides | future-work/auth/scan_job.py:100-131 | the first attempt that does not plainly fail decides both whether the record exists and whether the call returns |
| Quota.WriteIsARun | future-work/auth/scan_job.py:100-131 | the write loop is a run of the machine with the same record and answer |
| Quota.OneRequest | future-work/auth/quota.py:48-62 | one request, run alone from any state: refused exactly with ten jobs or more since an hour ago, else its record shows the time of its stamp and its answer is that of the write attempts |
| Redaction.RedactSecrets | src/worker/test_01_secrets.py:194-227 | the result is the untouched gaps in order interleaved with the masks of pairwise disjoint matched spans |
| Redaction.SkippedStartsInside | src/worker/test_01_secrets.py:218-224 | every span that is not masked starts inside one that is |
| Redaction.OutsideSurvives | src/worker/test_01_secrets.py:218-226 | a character outside the masked spans appears in the result at its shifted place |
| Redaction.PlaceOrder | src/worker/test_01_secrets.py:218-226 | surviving characters keep their order |
| Redaction.MaskedDoesNotShow | src/worker/test_01_secrets.py:113-227 | texts that differ only inside masked spans, apart from the ends that long masks show, are redacted to the same text |
| Redaction.AllMaskedExactly | src/worker/test_01_secrets.py:194-227 | every matched character is masked exactly when no span reaches beyond the end of a masked one that it starts before, unless another span starts there |
| Redaction.NestedAllMasked | src/worker/test_01_secrets.py:194-227 | nested overlaps are masked completely |
| Redaction.SharedStartLeavesTail | src/worker/test_01_secrets.py:217-224 | of any two matches with one start only the shorter is masked, and the rest of the longer one stays in clear |
| Redaction.CollectSpans | src/worker/test_01_secrets.py:300-378 | the detection loop keeps exactly the candidates that pass the filters and overlap none kept before |
| Redaction.KeptDisjoint | src/worker/test_01_secrets.py:300-378 | across all patterns the reported spans are pairwise disjoint |
| Redaction.KeptMaximal | src/worker/test_01_secrets.py:300-378 | every candidate that passes the filters is reported or overlaps one that is |
| Redaction.KeptInOrder | src/worker/test_01_secrets.py:300-378 | the reported spans stand in the order of their candidates, and a passing candidate gives way only to a reported span of an earlier one |
| Redaction.OverlapExactly | src/worker/test_01_secrets.py:300-378 | two spans overlap exactly when some position lies in both |
| Pool.ClassifyExclusions | src/worker/evaluation/apply_pool_exclusions.py:115-129 | one entry per excluded domain, for its last row |
| Pool.DrawReplacements | src/worker/evaluation/apply_pool_exclusions.py:154-161 | for every sampler: fails exactly when too few candidates are eligible, else gives that many different unused candidates of the stratum |
| Pool.DrawnInOrder | src/worker/evaluation/apply_pool_exclusions.py:154-161 | AI-generated rows stay in the order drawn, those of any other stratum stand in the order of their ranks |
| Pool.NormalizeExactly | src/worker/evaluation/apply_pool_exclusions.py:77-79 | white space, letter case and one leading "www." do not count |
| Pool.ReplaceExcluded | src/worker/evaluation/apply_pool_exclusions.py:164-232 | a completed replacement keeps size, every stratum's count and the kept rows, has distinct domains and draws none from the lists or the old pool; its assertions hold exactly when the pool's domains were distinct; it ends early only for a stratum without candidates or with fewer unused ones than there are excluded domains |
| Pool.ReplacementExactly | src/worker/evaluation/apply_pool_exclusions.py:164-232 | the outcome, as a function of pool, lists, candidates and sampler, is a pool that keeps what the script promises, a failed assertion exactly for a pool with repeated domains, or an early exit for one of the two reasons |
| Pool.CountNeeded | src/worker/evaluation/apply_pool_exclusions.py:197-199 | the number of replacements per stratum is the number of excluded entries of the stratum |
| Pool.NothingLeftToExclude | src/worker/evaluation/apply_pool_exclusions.py:164-232 | without a candidate that is excluded in another spelling, a second application finds nothing to exclude, for every sampler |
| Pool.EnoughCompletes | src/worker/evaluation/apply_pool_exclusions.py:164-232 | the replacement completes for every sampler when each needed stratum has as many unused candidates as it needs that no other stratum may take, or as many as there are excluded domains |
| Pool.CompletesExactly | src/worker/evaluation/apply_pool_exclusions.py:164-232 | for candidate lists without a common domain it completes for every sampler if and only if each needed stratum has as many unused candidates as it needs |
| Pool.AlwaysCleanExactly | src/worker/evaluation/apply_pool_exclusions.py:164-232 | where the replacement completes: for every sampler nothing is left to exclude, if and only if no unused candidate of a needed stratum is a blocked or confirmed domain in another spelling |
| Pool.VariantSpellingSlipsIn | src/worker/evaluation/apply_pool_exclusions.py:77-79 | when a blocked domain with a www prefix is among the unused candidates, some sampler completes a replacement that leaves an excluded domain in the pool |
| Pool.OnlyCandidateIsDrawn | src/worker/evaluation/apply_pool_exclusions.py:164-232 | every sampler replaces the only excluded row by the only candidate |
| Pool.DedupeStrata | src/worker/evaluation/build_candidate_pool.py:145-160 | the loop keeps one row per normalized domain and reports every other row with its stratum and the kept one's; kept and collisions add up to the input |
| Pool.DedupeExactly | src/worker/evaluation/build_candidate_pool.py:145-160 | the kept row is the earliest input row of its domain in the highest-priority stratum, and domains are distinct |
| Pool.DedupeKeepsDomains | src/worker/evaluation/build_candidate_pool.py:145-160 | no domain of the input is lost |
| BatchRunner.BoundedConcurrency | src/worker/evaluation/run_evaluation.py:121-188 | at most `concurrency` sites are inside the semaphore at any moment, every attempt count stays within two, and a batch of n sites ends within 4 n steps |
| BatchRunner.EndsFinished | src/worker/evaluation/run_evaluation.py:178-188 | a batch that can go no further has an outcome for every site and all permits back, exactly when the concurrency is positive or there is no site |
| BatchRunner.StuckMeansNoStep | src/worker/evaluation/run_evaluation.py:178-188 | the stuck states are exactly those without a step |
| BatchRunner.ScanOne | src/worker/evaluation/run_evaluation.py:121-175 | success with the first attempt that returned, failure exactly when both raised |
| BatchRunner.ScanOneIsARun | src/worker/evaluation/run_evaluation.py:121-175 | inside the semaphore the task's loop is a run of the machine with the same outcome, and the permit comes back |
| BatchRunner.WriteManifest | src/worker/evaluation/run_evaluation.py:187-211 | one manifest row per outcome, and succeeded plus failed is the number of sites |
| BatchRunner.Aggregate | src/worker/evaluation/aggregate_results.py:132-160 | one table row per manifest row, from its result file or blank |
| BatchRunner.CoverageBreakdown | src/worker/evaluation/analyze_evaluation.py:170-204 | the three counts are those of the rows with a reliable, an unreliable and a blank grade |
| BatchRunner.TableIsOwnRows | src/worker/evaluation/aggregate_results.py:132-160 | with distinct file names the table is, up to order, each site's own result or a blank |
| BatchRunner.OwnRowsExactly | src/worker/evaluation/aggregate_results.py:132-160 | for all outcomes the table is each site's own row, if and only if the sites' file names are distinct |
| BatchRunner.BatchAddsUp | src/worker/evaluation/analyze_evaluation.py:170-204 | for any sites: attempted = succeeded + failed = manifest rows = table rows = reliable + unreliable + failed entirely; with distinct file names the last are the failures and the results without a grade |
| BatchRunner.RanksSeparateFiles | src/worker/evaluation/run_evaluation.py:117-118 | sites with different ranks have different result files |
| BatchRunner.SafeNameExactly | src/worker/evaluation/run_evaluation.py:117-118 | letters, digits, dots, hyphens and underscores are kept, any other character becomes an underscore |
| BatchRunner.SharedFileMixesRows | src/worker/evaluation/run_evaluation.py:191-201 | of two successful sites with one file name, the first one's row shows the result of a later site |
| Cookie.ParseSetCookie | src/worker/test_03_cookies.py:71-114 | for every header the field-overwriting loop computes the cookie whose valued fields are the last attributes of their names |
| Cookie.PartsAddUp | src/worker/test_03_cookies.py:74 | each piece between semicolons gives its stripped text, a blank one nothing |
| Cookie.ParsePrinted | src/worker/test_03_cookies.py:71-114 | a printed header is read back as its name, value and attributes, with any white space around them |
| Cookie.RoundTrip | src/worker/test_03_cookies.py:71-114 | every printable cookie is read back from its header for any attribute order, any letter case of the names and any unknown attributes among them |
| Cookie.PrintThenParse | src/worker/test_03_cookies.py:71-114 | every cookie whose fields can be written in a header is read back from its canonical header |
| Cookie.LastWins | src/worker/test_03_cookies.py:92-106 | of a valued attribute repeated anywhere and in any letter case only the last value counts |
| Cookie.ValuedFlagIgnored | src/worker/test_03_cookies.py:92-112 | a flag written with a value is not a flag |

## Left out

- Network, DNS, TLS, subprocesses, Azure clients, credentials, logging, clocks, CSV and JSON files:
  replaced by parameters and arbitrary outcomes.
- MD5, SHA-256 and UUIDs: facts are about the string before hashing, findings carry no hash id, and
  job ids are assumed fresh.
- Regular expressions of the secret scout and HTML parsing: match spans and finding texts are inputs.
- Strings are ASCII: Python's Unicode white space, digits, case folding and alphanumerics are not modelled.
- PEP 440 pre-, post- and development releases, epochs, local versions and a leading "v": such strings
  count as unparsable, so the coverage results speak of plain release numbers and blank bounds.
- Scores of advisories are taken from the scoring library as given, and average statistics of the
  evaluation are not modelled; all penalties are whole numbers, so scoring is exact on integers.
- The synced row dictionaries are values in `OsvSync`: they are built inside the sync and shared with
  nobody, so updating them in place cannot be observed (`Advisory` models the in-place update).
- In `Pipeline` the SSRF verdict of gateway and worker is arbitrary; scheduling of retries and back-off
  times is not modelled.
- `Hosts` follows `urlparse` of Python 3.11, which drops control characters in front; whether a bracketed
  host is a valid address, and what the HTTP client itself makes of a url, is not modelled.
- The sampler in `Pool` is any choice of positions; the source's is one with a fixed seed.
- Versions of the report other than the JSON handlers, the HTML report, and documents written by
  anything but the worker: the deferred job records of `future-work/auth` would take the same ids.
- Time in `Quota` is an integer and submission times are compared as numbers; the source compares
  ISO texts in one format and time zone, whose order is the same.
- The local copy that `write_scan_job` leaves after a failed write: nothing reads it.
- The order by rank in which the manifest lists its rows: `BatchRunner` proves its results for every order.
- Categories of unreliable sites in the coverage breakdown: `Aggregation` proves the classification
  itself, not its lookup by url.
- Redirects, time-outs and the kinds of exception inside a fetch of `FetchCache` are not told apart:
  a fetch succeeds, fails or is cancelled.
- The header, CORS, information-disclosure and e-mail scouts, WAF detection, expiry thresholds and JWT
  validation: one-branch classifications or library behaviour.
