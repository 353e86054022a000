# ADCollector `Functions.cs` in Dafny

A model of four routines of ADCollector's `ADCollector/Functions.cs`:

- **`GetResponse`** (`paged_search.dfy`, module `PagedSearch`) runs an LDAP
  search page by page with the Simple Paged Results control of RFC 2696,
  section 3. Every request asks for pages of 500 entries and carries the
  cookie of the previous response. An empty cookie ends the search. Each
  accepted page goes to the one `Outputs.*` printer that `printOption`
  selects. The method is a `while` loop proved equal to a trace function,
  `Run`. Lemmas about `Run` state the cookie chain, the stop conditions and
  the printer dispatch.
- **`ResolveRightsGuids`** (`extended_rights.dfy`, module `ExtendedRights`)
  builds the one-level search for an extended right below
  `CN=Extended-Rights,CN=Configuration,<forest>`. It returns the first `cn`
  value of the first hit.
- **`GetGPPXml`** (`gpp_discovery.dfy`, module `GppDiscovery`) lists the
  Group Policy Preferences files of a directory. These are the files whose
  full path contains one of six names.
- **`GetGPPP`** (`gpp_extraction.dfy`, module `GppExtraction`) loads each
  file as XML. When the text mentions `cpassword`, it prints the account
  fields of the records selected by six fixed XPaths. Which fields are
  printed depends on the file's last path segment.

`common.dfy` (module `Common`) holds `Option`, `Result`, and the two string
operations the code relies on: ordinal `string.Contains` and
`path.Split('\\').Last()`.

The model replaces the code's collaborators with parameters:

- The LDAP connection is `send: SearchRequest -> Reply`.
- Whether an `Outputs.*` printer throws on a page is `printFault`.
- The `DirectorySearcher` is `search: Lookup -> Result<seq<Hit>, string>`. A failure carries the message of the exception `FindOne` throws.
- The directory tree is a `DirNode` value whose listings may fail.
- `XmlDocument.Load` is `load: string -> Option<XmlDoc>`. An `XmlDoc` holds
  the document's `InnerXml` and the records each XPath selects.
- Console output is a trace of events (`GetResponse`) or of lines
  (`GetGPPP`).

## Model

| member | source | states |
|---|---|---|
| Common.ContainsIsSubstring | ADCollector/Functions.cs:380 | The `Contains` used for `file.Contains` here and for `InnerXml.Contains` on line 443 holds exactly when the pattern occurs at some position of the text. |
| Common.LastSegmentIsLongestSuffix | ADCollector/Functions.cs:447 | `path.Split('\\').Last()` has no backslash and ends the path. It is the whole path, or a backslash comes right before it. |
| Common.LastSegmentOfChild | ADCollector/Functions.cs:447 | For `dir + "\\" + name` with a backslash-free `name`, the last segment is `name`. |
| PagedSearch.Dispatch | ADCollector/Functions.cs:91-130 | `"single"`, `"multi"`, `"gpo"`, `"spn"` and `"domain"` each select their own printer, and `PrintAll` is chosen exactly for `null` or an unknown option. `PrintSingle` and `PrintMulti` print `attrsToReturn[0]`, and `PrintSPNs` receives `spnName`. The switch fails, with an exception the loop catches, exactly for `"single"` or `"multi"` when `attrsToReturn` is `null` (`NullReference`) or empty (`IndexOutOfRange`). |
| PagedSearch.OptionsSelectDistinctPrinters | ADCollector/Functions.cs:91-130 | The five labels select five different printers, none of them `PrintAll`. |
| PagedSearch.GetResponse | ADCollector/Functions.cs:45-143 | The loop's trace of requests, printed pages and console lines is the trace `Run` defines from the empty cookie. |
| PagedSearch.Page | ADCollector/Functions.cs:78-141 | One pass of the loop body has the events, and goes round with the cookie, that `PageStep` defines for the request's cookie. |
| PagedSearch.StepShape | ADCollector/Functions.cs:78-141 | One pass sends exactly one request and writes at most one line, as its last event. It hands an accepted page to the selected printer, and goes round again exactly when the page printed cleanly with a non-empty cookie. |
| PagedSearch.RunIsFuelIndependent | ADCollector/Functions.cs:76-142 | The termination bound does not change the trace. |
| PagedSearch.CookieChain | ADCollector/Functions.cs:55-136 | The first request carries the starting cookie, and every request is the same search for pages of 500. Each later request carries exactly the non-empty cookie of the previous response. The loop stops after the last request. |
| PagedSearch.NothingRequestedAfterEmptyCookie | ADCollector/Functions.cs:133 | A request answered by an accepted response with an empty cookie is the last request. |
| PagedSearch.MessageEndsRun | ADCollector/Functions.cs:80-141 | No console line appears before the last event. The last event is a line exactly when the last page was not printed cleanly: the send failed, paging was refused, or an exception was caught. |
| PagedSearch.PagesGoToOnePrinter | ADCollector/Functions.cs:87-130 | Every printed page is the entries of the accepted response just received, printed by the printer `printOption` selects. Every accepted page is printed exactly once, right after its request. |
| PagedSearch.ThreePagesOf1200 | ADCollector/Functions.cs:58-136 | A directory answering in pages of 500, 500 and 200 gets three requests with cookies empty, [1] and [2]. The default printer receives 1200 entries in order. |
| ExtendedRights.RightsLookupRoundTrip | ADCollector/Functions.cs:347-356 | The search root and filter built for a forest and GUID give both back, at one-level scope. |
| ExtendedRights.RightsLookupInjective | ADCollector/Functions.cs:347-356 | Different (forest, GUID) pairs are never sent the same search. |
| ExtendedRights.ResolveRightsGuids | ADCollector/Functions.cs:345-365 | A failing `FindOne` escapes with its message. Otherwise the call throws `NullReference` exactly when the search finds nothing. With a hit it returns exactly when that hit has a `cn` value, and then it returns the first one. It throws `ArgumentOutOfRange` exactly when it finds a hit without a `cn` value. |
| ExtendedRights.OnlyFirstHitMatters | ADCollector/Functions.cs:357-360 | Two searches that agree on the first hit resolve alike, whatever else they return. |
| GppDiscovery.Filter | ADCollector/Functions.cs:376-385 | A path is kept exactly when it is listed and contains one of the six names. |
| GppDiscovery.FilterCounts | ADCollector/Functions.cs:376-385 | Each candidate is kept as often as it is listed, and every other path is dropped. |
| GppDiscovery.FilterAppend | ADCollector/Functions.cs:376-385 | Filtering keeps listing order: it distributes over concatenation. |
| GppDiscovery.GetGPPXml | ADCollector/Functions.cs:370-396 | The result is exactly the candidates directly in the directory, in listing order. A directory that cannot be listed throws its error. Subdirectory results are discarded. |
| GppDiscovery.NestedFileIsDropped | ADCollector/Functions.cs:386-393 | A `Groups.xml` one level down is not returned, though the intended search returns it. |
| GppDiscovery.CollectFindsEveryCandidate | ADCollector/Functions.cs:370-396 | The intended search of a fully listable tree returns exactly the candidates among all its files, in walk order. |
| GppDiscovery.SiblingFailureIsolated | ADCollector/Functions.cs:386-393 | In the intended search, a subdirectory that cannot be listed does not hide what any sibling finds. |
| GppExtraction.GetGPPP | ADCollector/Functions.cs:414-523 | The printed lines, and whether an exception escaped, are those `Harvest` defines. |
| GppExtraction.ProcessFile | ADCollector/Functions.cs:429-515 | A file that does not load prints its error line, and then the reload throws. A loaded file prints the lines of its six XPath passes. |
| GppExtraction.PrintXPath | ADCollector/Functions.cs:441-511 | One pass prints its XPath's records when the text mentions `cpassword`, and nothing otherwise. |
| GppExtraction.PrintRecords | ADCollector/Functions.cs:449-463 | The selected records are printed one after another. |
| GppExtraction.RecordLinesStopAtMissingField | ADCollector/Functions.cs:450-463 | A record prints its column prefixes and values in column order. It stops exactly at the first missing attribute or parent `changed`. |
| GppExtraction.RecordsLinesAppend | ADCollector/Functions.cs:450-463 | Records are printed independently: a record that stops early does not affect the next. |
| GppExtraction.DictLinesAreRecordsLines | ADCollector/Functions.cs:439-513 | The XPath passes print the records of all the XPaths, in table order, with one column set. |
| GppExtraction.FileLinesUseOneColumnSet | ADCollector/Functions.cs:439-513 | A file prints nothing unless its text mentions `cpassword`. Otherwise it prints every record any of the six XPaths selects, with the column set its name chooses. |
| GppExtraction.OnlyGroupsXPathSelects | ADCollector/Functions.cs:417-423 | A document in which only the `Groups.xml` XPath selects anything yields exactly those records. |
| GppExtraction.UserLines | ADCollector/Functions.cs:449-457 | A `Groups.xml` user with every field present prints five lines: userName, newName, cpassword, changed and the path. |
| GppExtraction.GroupsPasswordIsPrinted | ADCollector/Functions.cs:417-463 | A `Groups.xml` that mentions `cpassword` and holds one complete user prints that user's five lines, the password among them. |
| GppExtraction.AbortedStays | ADCollector/Functions.cs:427-441 | Once a file has thrown, later files print nothing. |
| GppExtraction.AbortsIffLoadFails | ADCollector/Functions.cs:429-441 | The run throws exactly when a file that was reached does not load. |
| GppExtraction.LoadFailureAborts | ADCollector/Functions.cs:429-441 | The first file that does not load ends the run: the output of the earlier files, its error line, and nothing after. |
| GppExtraction.ScheduledTaskAccountIsNotPrinted | ADCollector/Functions.cs:447-508 | A file named `Scheduledtasks.xml` gets the default column set. A task record without `userName` prints nothing. |
| GppExtraction.RunAsColumnsOnlyForBareName | ADCollector/Functions.cs:447-493 | The `runAs` column set is chosen exactly when the last path segment is the bare `Scheduledtasks`. |
| GppExtraction.IntendedScheduledTasksColumns | ADCollector/Functions.cs:481-490 | With the label `"Scheduledtasks.xml"`, a task file's first line is its `runAs` account. |
| GppExtraction.IntendedColumnsAgreeElsewhere | ADCollector/Functions.cs:447-508 | The corrected switch differs from the written one only for the two spellings of the task file name. |
| GppExtraction.HarvestSkippingAppend | ADCollector/Functions.cs:427-516 | When an unloadable file is reported and skipped, each file's output is independent of the others. |
| GppExtraction.SkippingAgreesWhileFilesLoad | ADCollector/Functions.cs:427-516 | While every file loads, skipping and aborting print the same. |
| GppExtraction.IntendedAgreesWhileFilesLoad | ADCollector/Functions.cs:427-516 | When every file loads and none is a task file, the written and the corrected `GetGPPP` print the same. |

## Left out

- `GetConnection`: connection setup, port choice and the SSL session are transport plumbing.
- `GetDomains`, `GetDCs`, `GetDomainTrusts` and `GetForestTrusts`: they only walk DirectoryServices objects and print them.
- `GetDomainPolicy`: reads an INI file over SMB through IniParser.
- `GetInterestingAcls`: its rendering is in `Outputs.PrintAce`. `Outputs.cs` is not part of this model.
- `GetCachedGPP`: it only reads an environment variable.
- The `Outputs.*` printers are not modelled. A page handed to a printer is a `Printed` event, and `printFault` says whether the printer throws.
- `SendRequest`, `Directory.GetFiles`/`GetDirectories`, `DirectorySearcher` and XML parsing are not modelled either. They are the parameters described above.
- The `SearchOptionsControl` and the connection's five-minute timeout carry no behaviour inside this code. A timeout shows up as a failed send.
- PagedSearch.GetResponse: requires that the server ends the search within a given number of pages. Against a server that never sends an empty cookie, the source loops for ever, and that case is not modelled.
- PagedSearch.GetResponse: a printer that throws part-way through a page is recorded as one `Printed` event followed by the error line. What it printed before throwing is not modelled.
- GppDiscovery.GetGPPXml: a directory tree with a cycle (through links) makes the source recurse without end. The model's tree is finite.
- GppDiscovery.GetGPPXml: a failure of `GetFiles` and a failure of `GetDirectories` on the same directory are one case, `Unlistable`. Either way nothing found in that directory is returned.
- GppExtraction.GetGPPP: the shared `XmlDocument` is not modelled as state. `load` is a function, so a file is assumed to load the same way both times it is read. The file changing between the two loads is not modelled.
- GppExtraction.GetGPPP: the `Dictionary` is assumed to enumerate in insertion order. That is what the .NET implementation does for a dictionary that is only added to.

The model follows the code in these behaviours, which a caller might not expect:

- Several rights match one GUID: the code returns the first hit (`OnlyFirstHitMatters`).
- Files in subdirectories: the code returns only the top directory's files (`NestedFileIsDropped`).
- A record with a missing field: the code ends that record at the first missing field, so the fields after it are not printed either (`RecordLinesStopAtMissingField`).
- Task files: the code never selects the `runAs` fields for `Scheduledtasks.xml` (`ScheduledTaskAccountIsNotPrinted`).
- A file that cannot be loaded: the code throws out of `GetGPPP`, and later files are not read (`LoadFailureAborts`).

## Findings

| source | as written | input that shows it | evidently intended | confidence | as-written member | corrected member |
|---|---|---|---|---|---|---|
| ADCollector/Functions.cs:391 | `GetGPPXml(directory);` discards the recursive result | `P` holds only `P\Machine\Groups.xml`, and the call on `P` returns nothing | add the subdirectory's files to the result | not executed | GppDiscovery.NestedFileIsDropped | GppDiscovery.CollectFindsEveryCandidate |
| ADCollector/Functions.cs:481 | `case "Scheduledtasks":` never matches a file name | `dir\Scheduledtasks.xml` with a task record that has `runAs` and `cpassword` but no `userName` prints nothing | `case "Scheduledtasks.xml":` | not executed | GppExtraction.ScheduledTaskAccountIsNotPrinted | GppExtraction.IntendedScheduledTasksColumns |
| ADCollector/Functions.cs:441 | `doc.Load(path)` reloads outside any `try` | `[bad.xml, good\Groups.xml]` with `bad.xml` unreadable prints only `Error loading file bad.xml`, and then throws | report the file and go on with the next one | not executed | GppExtraction.LoadFailureAborts | GppExtraction.HarvestSkippingAppend |
