# Verified model of the monitoring backend

This project models the parts of the backend that carry logic of their own, and proves what they
promise. It is written in Dafny; `dafny verify dfyconfig.toml` checks all of it.

| modules | what they model |
|---|---|
| `TokenScanner`, `Sanitizer` | redaction of bearer tokens, JSON Web Tokens and sensitive keys in text, JSON trees and log payloads |
| `AlertThresholds`, `Alerts` | the threshold rules; the alert collection and the service that suppresses duplicates |
| `AlertRuns` | alert creation and updates one request at a time: separation, counting, refinement of a debouncer |
| `AlertInterleaving`, `AlertBatch` | alert jobs that run at once, as an interleaved step system; which batches can race with themselves, and what a whole batch achieves |
| `Logs`, `Telemetry`, `Incidents` | the producers of alerts: single logs, ingested batches, incidents |
| `Accounts`, `AccountServices` | users and invitations: each request as one step, and the services write by write |
| `AccountRuns`, `AccountUpdates`, `LoginLedger` | what every serial run of account requests keeps; what an update can take away; logins against the visible history |
| `AcceptInterleaving`, `AcceptRaces`, `AcceptBatches` | validating and accepting tokens, split at their accesses to the store and to the clock and interleaved with other requests: what always holds, which schedules race, which sets of requests can race |
| `InviteInterleaving` | sending invitations, split and interleaved in the same way |
| `Usability`, `Ranking`, `Paging` | percentiles, grouping and survey scores; the fallback ranking; pages of a list |
| `Common`, `Text`, `Runs`, `Sorting` | options and results, letter case, white space and substrings, runs of a state machine, the stable sort |

Services and repositories are classes whose methods change their fields; each method is proved to
perform a step that a function describes, and the lemmas are about those functions and their runs.
Where the program starts several jobs and awaits them all, the method takes the schedule as a
parameter and performs it step by step. Time is a whole number of milliseconds, and an operation that
reads the clock takes its readings as parameters, so that two readings in one operation may differ.
Runs require a clock that never goes back, where that matters.

Some of what one would expect fails on inputs that the program accepts. The code is modelled as it
is, and for each such case the exact condition is proved:

- Of the keys that the pattern of sensitive keys names, the test misses exactly `set-cookie` and
  `x-api-key` (`Sanitizer.MissedKeysAre`): it replaces dashes before it matches. A comment in the
  source says that separators are ignored; what holds is `Sanitizer.SensitiveKeySpellings`.
- Jobs that run at once can alert twice within 15 minutes, if and only if two of them are for the same
  service and title (`AlertInterleaving.BatchIsSpacedIff`). An ingested batch can do so if and only if
  two of its metrics ask for the same alert or ten error logs come under each of two spellings of one
  service id (`Telemetry.IngestIsSpacedIff`), an incident if and only if it names a service twice, in
  whatever spelling (`Incidents.IncidentIsSpacedIff`). Ids are hexadecimal: the request checks admit
  either letter case, and the store does not tell them apart.
- The error logs of a batch are counted per spelling of the service id, so that a service over the
  threshold in total may raise nothing: it raises an alert if and only if one of its spellings is over
  it (`Telemetry.ServiceHasJobIff`; eighteen error logs in two halves, `Telemetry.SplitServiceIsSilent`).
- An update to ACTIVE, which the declared type excludes and the validation admits, keeps alerts apart
  if and only if no other ACTIVE alert of the key is within the window (`AlertRuns.ReactivationKeepsSpacedIff`).
- An update whose body sets the password or the address to null passes the validation and is stored.
  `AccountUpdates.RunsAreIntactIff` says which runs that harms, `AcceptInterleaving.InterleavingsAreReadyIff`
  which interleavings.
- A token can be accepted twice, if and only if an acceptance falls between the read and the mark of
  another one (`AcceptRaces.AcceptedTwiceIff`); among requests sent at once that can happen if and only
  if two acceptances have the same token (`AcceptBatches.AcceptedOnceIffDistinct`). In serial runs it
  never does.
- A request that read an invitation before it was accepted, and finds it overdue after that, writes
  EXPIRED over ACCEPTED; the time of use stays. `AcceptBatches.InterleavingsAreSettledIff` says which
  schedules do that, `AcceptBatches.SettledIffApart` which requests can: an acceptance and another
  request for the same token.
- An update that repeats the user's own address is refused if it spells the user's id in another way
  than the store does (`AccountRuns.UpdateSucceedsIff`).
- Invitations sent at once can leave an address with two PENDING ones, if and only if two of them are
  for one address (`InviteInterleaving.OnePendingIffDistinct`).

## Model

| member | source | states |
|---|---|---|
| TokenScanner.HeadIsLongestMatch | src/common/utils/sensitive-data.util.ts:8-10 | at every position, greedy runs with backtracking to a word boundary find a match of the regular expression whenever there is one, and find the longest; `Matches` reads the two expressions declaratively, as a split of the text |
| TokenScanner.ScanReplacesLeftmostLongest | src/common/utils/sensitive-data.util.ts:17-21 | a scan is global replacement: text before the leftmost occurrence is copied, its longest match replaced, and the rest scanned with the right word-boundary context |
| TokenScanner.FreeIsClean | src/common/utils/sensitive-data.util.ts:8-10 | the scanner finds no match in a text exactly when the expression matches at no position and no length |
| TokenScanner.ScanIsFree | src/common/utils/sensitive-data.util.ts:17-21 | replacing a pattern leaves no match of that pattern, not even one made by joining a marker to what surrounds it |
| TokenScanner.JwtScanKeepsBearerFree | src/common/utils/sensitive-data.util.ts:17-21 | the second replacement, which runs over the output of the first, brings no bearer token back |
| TokenScanner.SanitizedIsTokenFree | src/common/utils/sensitive-data.util.ts:17-21 | the output of `sanitizeString` matches neither pattern anywhere |
| TokenScanner.UnchangedIffTokenFree | src/common/utils/sensitive-data.util.ts:17-21 | `sanitizeString` leaves a text alone if and only if neither pattern matches in it |
| TokenScanner.SanitizeStringIdempotent | src/common/utils/sensitive-data.util.ts:17-21 | sanitizing a text twice is sanitizing it once |
| TokenScanner.MarkerIsTokenFree | src/common/utils/sensitive-data.util.ts:1 | the redaction marker is itself token-free and is kept by sanitizing |
| TokenScanner.SanitizeStringRedacts | src/common/utils/sensitive-data.util.ts:17-21 | `sanitizeString` is one text and no other: each leftmost longest bearer token becomes `Bearer [REDACTED]`, then each such JSON Web Token `[REDACTED]`, and all that surrounds them is kept; stated without the scanner |
| Sanitizer.SensitiveKeySpellings | src/common/utils/sensitive-data.util.ts:79-82 | which keys the test accepts, both ways: the spellings without a dash, up to letter case and with dashes and blanks read as underscores |
| Sanitizer.KeySpellingVariants | src/common/utils/sensitive-data.util.ts:79-82 | neither letter case nor the choice between dash, blank and underscore matters to the test |
| Sanitizer.MissedKeysAre | src/common/utils/sensitive-data.util.ts:3-5 | of the keys the pattern names, up to letter case, the test misses exactly `set-cookie` and `x-api-key` |
| Sanitizer.SanitizeObject | src/common/utils/sensitive-data.util.ts:43-67 | the loop that fills the result computes the recursive walk, with the depth cut-off, and an absent object stays absent |
| Sanitizer.SanitizedIsCutUnlimited | src/common/utils/sensitive-data.util.ts:23-67 | on every tree and at every depth the sanitizer is unlimited redaction followed by the depth limit alone |
| Sanitizer.UnlimitedUnchangedIffSafe | src/common/utils/sensitive-data.util.ts:23-67 | redaction changes a tree exactly when some string holds a token or some sensitive key a value other than the marker (or a key sets the prototype) |
| Sanitizer.CutUnchangedIffFits | src/common/utils/sensitive-data.util.ts:24-26 | the depth limit changes a tree exactly when something other than a marker lies below it |
| Sanitizer.LimitedEqualsUnlimited | src/common/utils/sensitive-data.util.ts:23-67 | the limited sanitizer equals the unlimited one if and only if the latter's result fits under the limit; so on every tree that fits |
| Sanitizer.SanitizedFixedPoints | src/common/utils/sensitive-data.util.ts:23-67 | every output is safe and fits, and the trees left alone are exactly those that are safe and fit |
| Sanitizer.SanitizeValueIdempotent | src/common/utils/sensitive-data.util.ts:23-41 | sanitizing a tree twice is sanitizing it once, at every starting depth, trees that are cut off included |
| Sanitizer.SanitizedObjectIdempotent | src/common/utils/sensitive-data.util.ts:43-67 | the same for the object entry point, whose output is safe |
| Sanitizer.SanitizedNestingBounded | src/common/utils/sensitive-data.util.ts:24-26 | the output nests at most nine deep below depth 0, whatever the input |
| Sanitizer.SanitizedKeepsKeys | src/common/utils/sensitive-data.util.ts:57-66 | above the cut-off the keys of an object and their order are kept, except `__proto__`, whose assignment stores no property |
| Sanitizer.SanitizedEntryValues | src/common/utils/sensitive-data.util.ts:57-64 | above the cut-off the entries are, both ways, the marker under a sensitive key and the sanitized value under any other |
| Sanitizer.SanitizedItemAt | src/common/utils/sensitive-data.util.ts:32-34 | an array keeps its length, and each element is sanitized one level down |
| Sanitizer.PublicValuesKept | src/common/utils/sensitive-data.util.ts:23-67 | down any path of at most eight branches without a sensitive key there is a value afterwards if and only if there was one: texts redacted, other plain values untouched, arrays of the same length, objects still objects |
| Sanitizer.SensitiveValuesRedacted | src/common/utils/sensitive-data.util.ts:57-61 | at the end of such a path the value under a sensitive key is `[REDACTED]`, whatever it was |
| Sanitizer.SanitizedPayloadIsSafe | src/common/utils/sensitive-data.util.ts:69-77 | a sanitized log payload has a token-free message and safe metadata, and sanitizing it again changes nothing |
| Sanitizer.PayloadUnchangedIff | src/common/utils/sensitive-data.util.ts:69-77 | a payload is left alone if and only if its message is token-free and its metadata, where present, are safe and fit |
| Sanitizer.PayloadOutcome | src/common/utils/sensitive-data.util.ts:69-77 | the message keeps all but its tokens, the metadata their keys and order, each sensitive key the marker and each other one its sanitized value; every other field passes through |
| Text.LowerCharIs | src/alerts/alert-thresholds.ts:48 | letter case: each capital becomes the small letter at its place in the alphabet, anything else is kept |
| Text.ContainsIffMentions | src/alerts/alert-thresholds.ts:24-40 | a name contains a needle if and only if the needle stands somewhere in it |
| AlertThresholds.FindRuleIsFirst | src/alerts/alert-thresholds.ts:49 | the rule found is the first of the table that applies, and one is found when one applies |
| AlertThresholds.MetricMatchIsFirstRule | src/alerts/alert-thresholds.ts:44-61 | the match for a metric is that of the first rule for its name: none below the threshold, then a warning with the title of the rule, critical from one and a half thresholds on |
| AlertThresholds.MetricMatchIs | src/alerts/alert-thresholds.ts:16-61 | which needle in a name, in whatever letter case, leads to which threshold and title, and which needle wins when there are several |
| AlertThresholds.NoRuleNoMatch | src/alerts/alert-thresholds.ts:48-52 | a metric that no rule applies to raises nothing |
| AlertThresholds.LogVolumeIsMonotone | src/alerts/alert-thresholds.ts:63-75 | more error logs never mean a weaker alert |
| Alerts.FindDuplicate | src/alerts/repositories/alerts.repository.ts:47-60 | what is found is stored, ACTIVE, of the same service and title and in the window; nothing is found only when there is none |
| Alerts.FirstDuplicateIsFound | src/alerts/repositories/alerts.repository.ts:47-60 | of several duplicates the one stored first is found |
| Alerts.AlertsRepository.Create | src/alerts/repositories/alerts.repository.ts:17-26 | appends one alert with every field that was asked for and the default of each one left out, triggered at the reading of the clock unless a time was given |
| Alerts.AlertsRepository.FindActiveDuplicate | src/alerts/repositories/alerts.repository.ts:47-60 | answers the lookup and changes nothing |
| Alerts.AlertsRepository.UpdateById | src/alerts/repositories/alerts.repository.ts:62-72 | changes the status, and the time of acknowledgement when one is given, of that alert only |
| Alerts.AlertsRepository.CountActiveAlerts | src/alerts/repositories/alerts.repository.ts:41-45 | the number of positions in the store that hold an ACTIVE alert |
| Alerts.AlertsService.Create | src/alerts/alerts.service.ts:22-38 | inserts exactly when no ACTIVE alert of the key is in the window that ends at the lookup, and then an alert with what was asked for; otherwise answers with a duplicate and stores nothing |
| Alerts.AlertsService.CreateSafely | src/alerts/alerts.service.ts:40-51 | the same step with the same answer, or nothing at all and no answer when the store fails |
| Alerts.AlertsService.Update | src/alerts/alerts.service.ts:97-111 | sets the status of that alert only, to any status, and the time of acknowledgement exactly on ACKNOWLEDGED; an unknown id is an error |
| AlertRuns.ReactivationKeepsSpacedIff | src/alerts/dto/update-alert.dto.ts:9-10 | setting an alert to ACTIVE keeps ACTIVE alerts of one key more than 15 minutes apart if and only if no other ACTIVE alert of its key is within the window, on either side |
| AlertRuns.ApplyKeepsSpacedIff | src/alerts/alerts.service.ts:22-38 | one creation or update keeps the separation if and only if it is not such a reactivation |
| AlertRuns.SerialRunIsSpacedIff | src/alerts/alerts.service.ts:22-38 | a serial run keeps it in all of its states if and only if each reactivation is isolated on the store it meets |
| AlertRuns.SerialRunsAreSpaced | src/alerts/alerts.service.ts:22-38 | so does the end of every such run, of any length, with any updates in between |
| AlertRuns.DeclaredUpdatesAreCareful | src/alerts/dto/update-alert.dto.ts:10 | runs whose updates keep to the declared type are such runs |
| AlertRuns.DuplicateIsUnique | src/alerts/alerts.service.ts:23-31 | the duplicate lookup never has two candidates |
| AlertRuns.ReactivationBreaksSeparation | src/alerts/dto/update-alert.dto.ts:9-10 | four requests after which two ACTIVE alerts of one key are two milliseconds apart: the failing input for the condition above |
| AlertRuns.SpanBound | src/alerts/alert-thresholds.ts:4 | in every span of T milliseconds one key has at most T / (window + 1) + 1 ACTIVE alerts |
| AlertRuns.CreateAgrees | src/alerts/alerts.service.ts:22-38 | on related states `create` inserts exactly when a map from key to newest ACTIVE alert has no entry in the window, and answers with the same alert |
| AlertRuns.DebouncerFollowsStore | src/alerts/alerts.service.ts:22-38 | every serial run, with isolated reactivations, keeps the store and that map related |
| AlertRuns.StoreRefinesDebouncer | src/alerts/alerts.service.ts:22-38 | after every such run from an empty store, `create` behaves as the map says |
| AlertInterleaving.SeparatedOrRaced | src/alerts/alerts.service.ts:22-38 | in every interleaving, an alert inserted after an earlier one of its key is more than 15 minutes younger, unless the earlier one was inserted after the lookup or was not ACTIVE at it |
| AlertInterleaving.RaceInsertsDuplicates | src/alerts/alerts.service.ts:22-38 | on every store without a duplicate, two jobs that both look up first insert two alerts of one key at one time |
| AlertInterleaving.BatchIsSpacedIff | src/alerts/alerts.service.ts:22-38 | jobs started together on separated alerts keep them separated in every state of every interleaving, with whatever failures and gentle status updates, if and only if their keys are pairwise distinct |
| AlertInterleaving.SetStatusKeepsGuardedIff | src/alerts/alerts.service.ts:97-111 | of all status updates in an interleaving, exactly the gentle ones keep this: those of the declared type, and reopening an alert that is isolated and out of the window of every job about to insert for its key |
| AlertBatch.BatchOutcome | src/telemetry/telemetry.service.ts:96-98 | every complete interleaving of a batch, without failures or status changes, leaves each key with an ACTIVE alert from no earlier than 15 minutes before it began; the inserts number at least the distinct uncovered keys and at most the jobs |
| AlertBatch.BatchAddsForJobs | src/telemetry/telemetry.service.ts:55-98 | in every interleaving, whatever fails and whatever is updated, each alert that is added has the service, title, severity, incident and channel that some job asked for |
| AlertBatch.SerialBatchIsOptimal | src/telemetry/telemetry.service.ts:96-98 | one job after another at one clock reading inserts exactly one alert for each uncovered key, the lower bound |
| AlertBatch.SerialBatchAlerts | src/telemetry/telemetry.service.ts:96-98 | and leaves every key alerted |
| AlertBatch.OrderDoesNotMatter | src/telemetry/telemetry.service.ts:96-98 | in whichever order the jobs run |
| AlertBatch.SerialIsASchedule | src/telemetry/telemetry.service.ts:53-98 | that serial batch is the outcome of an interleaving in which all jobs are started first, as the two loops do, so the lower bound is met by a real schedule |
| AlertBatch.PromptBatchIsSpacedIff | src/telemetry/telemetry.service.ts:96-98 | jobs that all start at one clock reading, without status changes, keep separated alerts separated under every schedule if and only if every key that two of them share is covered by a recent alert |
| AlertBatch.SilentIffCovered | src/alerts/alerts.service.ts:22-38 | it stores nothing if and only if every key is covered |
| AlertBatch.RaisedKeyLasts | src/alerts/alerts.service.ts:22-38 | a key that a batch raised stays covered for exactly 15 minutes |
| AlertBatch.UninterruptedJobIsCreate | src/alerts/alerts.service.ts:22-38 | a job whose steps are not interrupted does what `create` does as one step, and touches no other job |
| Logs.ErrorServicesAreThoseCounted | src/telemetry/telemetry.service.ts:71-79 | the error counts list each spelling of a service id once, and exactly the spellings with an ERROR or FATAL log |
| Logs.ErrorServicesInOrder | src/telemetry/telemetry.service.ts:71-79 | they are listed in the order in which an error log under each is first seen |
| Logs.CountErrorsIsCardinality | src/telemetry/telemetry.service.ts:71-79 | the count under a spelling is the number of positions in the batch that hold an ERROR or FATAL log under it |
| Telemetry.CountByService | src/telemetry/telemetry.service.ts:71-79 | the loop over the logs yields for each spelling of a service id exactly its number of error logs, in first-seen order |
| Logs.CountsSumToAllErrors | src/telemetry/telemetry.service.ts:71-79 | the counts add up to all error logs of the batch |
| Logs.SpellingsSumToService | src/telemetry/telemetry.service.ts:71-79 | the counts of the spellings of one service add up to all of its error logs in the batch |
| Logs.SpellingWithinService | src/telemetry/telemetry.service.ts:71-79 | so no spelling counts more than its service has; it counts all of them if and only if every error log of the service is under it |
| Logs.BatchCountWithinStored | src/logs/repositories/logs.repository.ts:51-62 | right after a batch is stored no spelling counts more in it than its service does, and no service more than its stored count of 24 hours; when the batch rule fires, the single-log rule would, at least as severely |
| Telemetry.ThresholdJobsAre | src/telemetry/telemetry.service.ts:53-94 | the jobs are, both ways, the in-app alerts that the batch asks for, each with the key, title and severity of its rule: a metric that reaches the threshold of the first rule for its name, critical from one and a half times on; a spelling of a service id with ten or more ERROR or FATAL logs, critical from twenty on |
| Telemetry.CollectJobs | src/telemetry/telemetry.service.ts:53-94 | the two loops push exactly these jobs, metrics first |
| Telemetry.ServiceHasJobIff | src/telemetry/telemetry.service.ts:71-94 | a batch has an error-log job for a service, however its logs spell it, if and only if ten of the error logs come under one spelling |
| Telemetry.OneSpellingHasJobIff | src/telemetry/telemetry.service.ts:71-94 | when its error logs all spell it alike, that is if and only if the service has ten of them |
| Telemetry.SplitServiceIsSilent | src/telemetry/telemetry.service.ts:71-94 | nine error logs under each of two spellings are eighteen of one service and raise nothing: the failing input for a rule on totals |
| Telemetry.ConcurrentIngestAlerts | src/telemetry/telemetry.service.ts:49-99 | however the jobs of an ingested batch interleave, every metric over its threshold and every service with ten error logs under one spelling ends with a recent ACTIVE alert |
| Telemetry.IngestAddsWhatIsAsked | src/telemetry/telemetry.service.ts:49-99 | and whatever fails or is updated meanwhile, the batch adds no alert that none of its metrics and logs asks for, with that severity |
| Telemetry.ThresholdJobsDistinct | src/telemetry/telemetry.service.ts:53-94 | two jobs of a batch have the same stored key if and only if two metrics of one service, in whatever spelling, are over a threshold of one rule, or two spellings of one service have ten error logs each |
| Telemetry.IngestIsSpacedIff | src/telemetry/telemetry.service.ts:49-99 | an ingested batch keeps ACTIVE alerts separated under every schedule if and only if it has no two such metrics and no two such spellings |
| Logs.SanitizingKeepsCounts | src/telemetry/telemetry.service.ts:22-24 | sanitizing the logs first does not change the error counts |
| Logs.SanitizedIsStored | src/logs/repositories/logs.repository.ts:17-32 | what is stored of a log: its text without tokens, safe metadata, its canonical service id, its level and its time, which is the present where it has none |
| Logs.LogsRepository.CreateMany | src/logs/repositories/logs.repository.ts:25-32 | appends the logs in order, each under the canonical id of its service, stamping those that have no time of their own |
| Logs.LogsRepository.CountErrorLogsForService | src/logs/repositories/logs.repository.ts:51-62 | the number of positions in the store that hold an ERROR or FATAL log of the service since the given time, however its id is spelled |
| Logs.SameServiceSameCount | src/logs/repositories/logs.repository.ts:51-62 | the stored count of a service does not depend on how its id is spelled |
| Telemetry.TelemetryService.Ingest | src/telemetry/telemetry.service.ts:21-47 | stores of each log its text without tokens, safe metadata, level, canonical service id and time, and each metric, in order; counts both, returns a safe source, and awaits its alert jobs under any schedule: it adds only alerts that the batch asks for, and without failures and status changes every key over its threshold ends alerted |
| Telemetry.RunAll | src/telemetry/telemetry.service.ts:96-98 | running the jobs together, store access by store access, ends in the state the schedule leads to |
| Logs.LogsService.Create | src/logs/logs.service.ts:23-50 | stores the log like this unless its service is unknown; an ERROR or FATAL log raises an alert for its service, critical from twenty on, exactly when the store holds ten or more of the last 24 hours, itself included; when the alert store fails the log stays stored and nothing is raised |
| Incidents.IncidentJobsAre | src/incidents/incidents.service.ts:95-113 | one job for each service id that is not empty, with the incident's title, severity and id, for the service that the id names in whatever spelling |
| Incidents.IncidentAsksFor | src/incidents/incidents.service.ts:95-127 | the jobs are, both ways, in-app alerts titled after the incident for each service id that is not empty: critical for CRITICAL and HIGH incidents, informational for LOW ones, warnings for MEDIUM ones |
| Incidents.IncidentAddsForServices | src/incidents/incidents.service.ts:95-127 | under every schedule, whatever fails and whatever is updated, an incident adds no other alerts |
| Incidents.IncidentsService.Create | src/incidents/incidents.service.ts:27-32 | stores the incident as it was sent, its service ids in canonical spelling, and awaits its alert jobs under any schedule: only alerts for its services are added, and without failures and status changes every service it names ends alerted |
| Incidents.RecordedIsAlerted | src/incidents/incidents.service.ts:27-32 | the services of the stored incident are alerted if and only if those that the request names are |
| Incidents.EveryServiceIsAlerted | src/incidents/incidents.service.ts:95-114 | on every store and under every such schedule, each of its services ends with an ACTIVE alert with its title from no earlier than 15 minutes before |
| Incidents.IncidentIsSpacedIff | src/incidents/incidents.service.ts:95-114 | the alerts of an incident stay separated under every schedule if and only if its request names no service twice, in whatever spelling |
| Incidents.IncidentIsSilentIff | src/incidents/incidents.service.ts:95-114 | at any time an incident raises nothing if and only if each of its services still has a recent alert with its title |
| Incidents.SameTitleIsSilentIff | src/incidents/incidents.service.ts:95-114 | after an incident that raised its alerts, a later one with the same title for some of its services raises nothing if and only if at most 15 minutes have passed, whatever its id and severity |
| AccountServices.UsersRepository.UpdateById | src/users/repositories/users.repository.ts:61-69 | applies a change to that user only; an unknown id changes nothing, and neither does a new address that another user has, null included |
| AccountServices.UsersRepository.SoftDeactivate | src/users/repositories/users.repository.ts:71-75 | makes that user inactive and changes nothing else |
| AccountServices.InvitationsRepository.Create | src/invitations/repositories/invitations.repository.ts:15-21 | appends the invitation unless its token hash is taken |
| AccountServices.InvitationsRepository.UpdateById | src/invitations/repositories/invitations.repository.ts:57-64 | sets the status, and the time of use when one is given, of that invitation only |
| AccountServices.UsersService.Create | src/users/users.service.ts:22-40 | succeeds if and only if no user has the address, in any letter case, and the role is not null; then it appends one active user with that address and password, the lowest role by default, and touches no other |
| AccountServices.UsersService.CreateInvited | src/users/users.service.ts:42-62 | succeeds if and only if no user has the address; then it appends one inactive user without a password, who cannot log in with any |
| AccountServices.UsersService.ActivateInvited | src/users/users.service.ts:64-86 | sets names, password and role of that user, makes it active, and changes nothing else of it |
| AccountServices.UsersService.Update | src/users/users.service.ts:139-164 | performs the update step that `UpdateSucceedsIff` describes, null fields and the spelling of the id included, and stores in each field what the body says of it |
| AccountServices.UsersService.Deactivate | src/users/users.service.ts:166-172 | succeeds if and only if the id names a user; then it makes that user inactive and changes nothing else, of it or of others |
| AccountServices.UsersService.RecordLogin | src/users/users.service.ts:174-178 | sets the time of the last login of that user only |
| AccountServices.InvitationsService.InviteUser | src/invitations/invitations.service.ts:34-97 | its two writes together perform the invitation step |
| AccountServices.InvitationsService.FindUsableInvite | src/invitations/invitations.service.ts:177-215 | performs the lookup of a token, marking a lapsed invitation EXPIRED on the way |
| AccountServices.InvitationsService.AcceptInvite | src/invitations/invitations.service.ts:143-175 | its lookup and two writes together perform the acceptance step |
| AccountServices.AuthService.RegisterUser | src/auth/auth.service.ts:22-35 | succeeds if and only if no user has the address; after it the address, in any letter case, logs in with exactly that password |
| AccountServices.AuthService.LoginUser | src/auth/auth.service.ts:37-63 | performs the login step |
| AccountServices.Routes.Handle | src/users/users.controller.ts:28-66 | every request, served by the services write by write, does to the stores what it does as one step, with the same reply |
| AccountRuns.ServeKeeps | src/users/users.service.ts:22-172 | every request, whatever its body, keeps: distinct addresses, in lower case where there is one, one PENDING invitation per address, ACCEPTED only with a time of use and PENDING only without, each invitation naming a user; only an update can take a password away |
| AccountRuns.ServeKeepsSettled | src/invitations/invitations.service.ts:143-215 | every request, served as a whole, also keeps used invitations ACCEPTED |
| AccountRuns.SerialRunsAreSound | src/invitations/invitations.service.ts:34-215 | every serial run of any requests keeps both, so that ACCEPTED is having a time of use; between any two of its states each invitation is untouched or has left PENDING once, for EXPIRED or ACCEPTED |
| AccountRuns.AcceptSucceedsIff | src/invitations/invitations.service.ts:143-215 | acceptance succeeds if and only if the passwords agree and the token opens a PENDING invitation that has not lapsed; its user is never missing |
| AccountRuns.AcceptOutcome | src/invitations/invitations.service.ts:148-166 | it sets the password and role of the invitation's user, and the names given or else those of the invitation, makes it active, closes the invitation, and changes no other user or invitation |
| AccountRuns.AcceptRefusal | src/invitations/invitations.service.ts:143-148 | an acceptance that is refused does what validating the token does, for the same reason, unless the passwords differ |
| AccountRuns.OpeningOutcome | src/invitations/invitations.service.ts:177-215 | what becomes of the token of a stored invitation by status and term: opened, marked EXPIRED and refused, or refused in the way of each other status; nothing else changes |
| AccountRuns.NoOpening | src/invitations/invitations.service.ts:178-188 | a blank token and one of no invitation are refused, and change nothing |
| AccountRuns.AcceptedAtMostOnce | src/invitations/invitations.service.ts:177-215 | in a serial run no token is accepted twice |
| AccountRuns.InviteSucceedsIff | src/invitations/invitations.service.ts:34-50 | inviting succeeds if and only if no active user has the address, no invitation to it is PENDING, lapsed or not, and the token is new |
| AccountRuns.InviteOutcome | src/invitations/invitations.service.ts:52-85 | the invitation is PENDING, holds the names, role and sender, lapses after the given days (seven by default), and is for an inactive user with the address, names and role; nobody else is touched |
| AccountRuns.InviteRefusal | src/invitations/invitations.service.ts:38-50 | which refusal has which reason, both ways; only that of a token in use comes after the user has been written |
| AccountRuns.LapsedInvitationBlocks | src/invitations/repositories/invitations.repository.ts:30-37 | a lapsed invitation blocks its address until its token is opened; after that the address can be invited |
| AccountRuns.UpdateSucceedsIff | src/users/users.service.ts:139-164 | an update succeeds if and only if the id is known and no other user has the address it gives, null counting as one, where under an id not spelled as stored the user itself counts as another; refusals say why. It changes that user alone, and of it each field by the body: kept when left out, null (or false) when null, else what is given, an address in lower case, a password hashed unless it is empty |
| AccountRuns.UpdateDecidesLogin | src/users/users.service.ts:147-158 | after an update the user's address logs in with a password if and only if the update activates the user, or leaves an active one alone, and sets that password, or leaves it alone |
| AccountRuns.LoginOutcome | src/auth/auth.service.ts:37-63 | a login succeeds if and only if an active user has the address and the password; it answers with that user and sets the time of its last login, a refused one changes nothing |
| AccountRuns.PendingUsersStayInactive | src/invitations/invitations.service.ts:57-73 | in runs without direct updates of users, the user of a PENDING invitation is inactive and has its address |
| AccountUpdates.PasswordsKeptIff | src/users/users.service.ts:139-164 | of all requests, exactly the updates that go through and clear the password of a user who joined by invitation leave a used invitation whose user has none |
| AccountUpdates.AddressesKeptIff | src/users/users.service.ts:139-164 | of all requests, exactly the updates of an existing user's address to null leave a user without one |
| AccountUpdates.RunsAreIntactIff | src/users/dto/create-user.dto.ts:38-49 | a serial run keeps, in all of its states, a password for each used invitation's user and an address for each user, if and only if no update in it is of these two kinds on the store it meets |
| AccountUpdates.NullPasswordLocksOut | src/users/users.service.ts:147-158 | on every store with a used invitation, an update with a password of null succeeds and locks its user out: the failing input for the condition above |
| LoginLedger.LoginAsPredicted | src/auth/auth.service.ts:37-51 | on a store that a ledger describes, login succeeds if and only if some active account has the address and the password |
| LoginLedger.ObserveKeepsFaithful | src/auth/auth.service.ts:22-63 | a ledger kept from the requests, and of the replies only their success and the number of the user, goes on describing the store, over every request, updates with null fields included |
| LoginLedger.LoginMatchesHistory | src/auth/auth.service.ts:37-63 | over every serial run of any requests from an empty store, login succeeds exactly when the history predicts it |
| AcceptInterleaving.InterleavingsAreSound | src/invitations/invitations.service.ts:131-215 | every interleaving of acceptances and validations, split at their accesses, with any other requests keeps the invariant of `ServeKeeps`; each invitation keeps its user, token and term, once used stays used, and never becomes PENDING again |
| AcceptInterleaving.UninterruptedTaskIsValidate | src/invitations/invitations.service.ts:131-215 | a validating task that is not interrupted does what validation does as one request, with the same error |
| AcceptInterleaving.UninterruptedTaskIsAccept | src/invitations/invitations.service.ts:143-215 | a task that is not interrupted does what acceptance does as one request, with the same error |
| AcceptInterleaving.ReadyKeptIff | src/users/users.service.ts:147-158 | of all moves, exactly the updates that go through and clear the password of a user who has joined, or whose acceptance is between its two writes, leave such a user without one |
| AcceptInterleaving.InterleavingsAreReadyIff | src/invitations/invitations.service.ts:148-166 | an interleaving keeps a password for all such users in all of its states if and only if no such update is in it |
| AcceptInterleaving.UsedInvitationsHavePasswords | src/invitations/invitations.service.ts:148-166 | in such an interleaving every invitation with a time of use names a user who has a password |
| AcceptInterleaving.NullPasswordBetweenWrites | src/invitations/invitations.service.ts:153-166 | an update between the two writes does break it, although no invitation of the user has been used yet |
| AcceptRaces.UsedIffAccepting | src/invitations/invitations.service.ts:148-166 | in every interleaving an invitation has a time of use later if and only if it had one before or a move in between marked it for a task or was a successful acceptance of its token |
| AcceptRaces.OverwritesIffOverlapped | src/invitations/invitations.service.ts:148-166 | a task writes over an earlier acceptance if and only if that one falls between its read and its mark |
| AcceptRaces.AcceptedTwiceIff | src/invitations/invitations.service.ts:148-166 | an invitation is accepted twice in an interleaving if and only if an acceptance of it, by a task or a whole request, falls between the read and the mark of another |
| AcceptRaces.ReadAfterAcceptIsUnusable | src/invitations/invitations.service.ts:177-215 | a task that reads after an acceptance of the same invitation, by a task or a whole request, is rejected whenever it checks |
| AcceptRaces.OrderlyAcceptsOnce | src/invitations/invitations.service.ts:148-166 | if no acceptance of a token begins while another is in flight, each invitation is accepted at most once |
| AcceptBatches.TwoTasksAcceptOneToken | src/invitations/invitations.service.ts:148-166 | on every sound store, two acceptances of one token that could each go through alone and both read before either marks both finish, and the last activation's password stays |
| AcceptBatches.AcceptedOnceIffDistinct | src/invitations/invitations.service.ts:148-166 | acceptances that could each go through alone, sent at once with validations and any other requests that accept nothing, accept no invitation twice under any schedule if and only if their tokens are pairwise distinct |
| AcceptBatches.SettledKeptIff | src/invitations/invitations.service.ts:198-207 | of all moves, exactly the writing of EXPIRED to an invitation used since it was read leaves a used invitation that is not ACCEPTED |
| AcceptBatches.InterleavingsAreSettledIff | src/invitations/invitations.service.ts:198-207 | an interleaving keeps used invitations ACCEPTED in all of its states if and only if no such write is in it |
| AcceptBatches.QuietRunsAreSettled | src/invitations/invitations.service.ts:177-215 | it does so whenever no invitation is found overdue after it has been used or while an acceptance of it is past its check |
| AcceptBatches.SettledIffApart | src/invitations/invitations.service.ts:177-215 | acceptances that could each go through alone and validations, sent at once with any other requests that accept nothing, keep used invitations ACCEPTED under every schedule if and only if no acceptance shares its token with another of them |
| InviteInterleaving.UninterruptedTaskIsInvite | src/invitations/invitations.service.ts:34-97 | inviting, split at each access to the stores and not interrupted, does what it does as one request, with the same error |
| InviteInterleaving.OnePendingIffDistinct | src/invitations/invitations.service.ts:38-85 | invitations that could each go through alone, sent at once among any requests that send none, leave each address with at most one PENDING invitation under every schedule if and only if their addresses are pairwise distinct |
| InviteInterleaving.DistinctRunsAreGuarded | src/invitations/invitations.service.ts:38-85 | for distinct addresses such interleavings keep the whole invariant of serial runs |
| Sorting.SortIsStable | src/ai/ai.service.ts:469 | the sort is ordered, a permutation, and keeps equal keys in their order |
| Sorting.StableSortIsUnique | src/ai/ai.service.ts:469 | there is only one such list, so the algorithm does not matter |
| Sorting.SortIgnoresOrder | src/usability/usability.service.ts:163 | sorted values depend only on which values occur how often |
| Usability.RankIndexInRange | src/usability/usability.service.ts:300-303 | the index of a percentile is in range, and the minimum with the last index never takes effect |
| Usability.PercentileIsNearestRank | src/usability/usability.service.ts:296-305 | the result is the value, rounded, that at least the share p of the values do not exceed and less than that lie below |
| Usability.PercentileIgnoresOrder | src/usability/usability.service.ts:156-163 | it does not depend on the order of the durations |
| Usability.PercentilesAreOrdered | src/usability/usability.service.ts:176-177 | a greater share never gives a smaller result: the median is at most the 95th percentile |
| Usability.TaskSummaryMeaning | src/usability/usability.service.ts:147-175 | each counter is the number of events of its name in the task, each rate is the quotient rounded to three decimals, and zero when nothing was started |
| Usability.CountIsCardinality | src/usability/usability.service.ts:147-149 | filtering twice and counting is the size of the set of matching positions |
| Usability.EachEventCountsOnce | src/usability/usability.service.ts:148-155 | counters of different names together count each event at most once |
| Usability.TaskPercentiles | src/usability/usability.service.ts:156-178 | median and 95th percentile are reported if and only if some completion of the task has a duration; each is the duration of a completion, rounded, that at least that share of the completions do not exceed and less stay below, and the median is the smaller |
| Usability.DurationsAreCompletions | src/usability/usability.service.ts:156-163 | the list behind them holds exactly the durations of the completions of the task |
| Usability.SummarizeWebVitals | src/usability/usability.service.ts:181-203 | the loop over a map yields each recorded metric once, in the order first seen, with the number of its values and their mean, rounded to three decimals |
| Usability.MetricsAreThoseRecorded | src/usability/usability.service.ts:182-194 | the metrics listed are distinct, and exactly those recorded |
| Usability.MetricsInOrder | src/usability/usability.service.ts:182-194 | and come in the order in which a value of each is first seen |
| Usability.GroupsCoverVitals | src/usability/usability.service.ts:182-198 | the counts of the groups add up to the recorded web vitals |
| Usability.VitalAverage | src/usability/usability.service.ts:199-201 | each average is within 0.0005 of the exact mean, which lies between any bounds of the values |
| Usability.MeanBalances | src/usability/usability.service.ts:199-201 | the mean is the one number that the values lie above as much as below |
| Usability.ValuesAreRecorded | src/usability/usability.service.ts:182-194 | the values of a group are those of the recorded events of its metric, in number and in deviation from any number |
| Usability.RoundIsClose | src/usability/usability.service.ts:307-309 | rounding to three decimals moves a number by at most 0.0005 |
| Usability.RoundIs | src/usability/usability.service.ts:307-309 | it is the nearest number with three decimals, the greater one halfway, and no other |
| Usability.SusTotalOfTen | src/usability/usability.service.ts:136-139 | odd questions count upwards, even ones downwards |
| Usability.SusScoreInRange | src/usability/usability.service.ts:126-141 | a score exists exactly for ten answers from 1 to 5; it is exact, rounding included, and lies in 0..100 |
| Usability.AverageScoreInRange | src/usability/usability.service.ts:109-118 | an average exists exactly when there are surveys, is their mean rounded to three decimals, and lies in 0..100 |
| Ranking.HeuristicPredict | src/ai/ai.service.ts:448-482 | the ranking of all candidates, five by default: only signals are kept, greatest confidence first; an anomaly or dependency that is left out has no more confidence than any kept one, and none is left out while there is room; without signals it is one placeholder |
| Ranking.RankingIsTop | src/ai/ai.service.ts:468-482 | the ranking is never empty, holds min(k, n) candidates, greatest confidence first and ties in order; with the dropped ones it is the stable sort of all, and no dropped one beats a kept one |
| Ranking.CandidatesAre | src/ai/ai.service.ts:448-467 | candidate i is anomaly i, with its score, id and metric; after the anomalies come exactly the dependencies of critical or high criticality |
| Ranking.DependencyOrder | src/ai/ai.service.ts:457-467 | the dependencies keep their order |
| Ranking.DependencyCandidatesAre | src/ai/ai.service.ts:457-467 | exactly the dependencies of critical or high criticality are candidates, with confidence 0.8 and 0.65 |
| Paging.TotalPagesIsLeast | src/common/utils/pagination.util.ts:10 | the number of pages is the least one, from one on, that covers all items |
| Paging.PageBounds | src/common/utils/pagination.util.ts:10-25 | each page up to the last begins within the list, and another follows exactly when items are left |
| Paging.PageSays | src/common/utils/pagination.util.ts:4-25 | a page says which it is and how many items there are; one precedes it exactly when items do, and it is full when another follows |
| Paging.FollowYieldsRest | src/common/utils/pagination.util.ts:4-25 | from any page on, following `hasNextPage` ends and yields everything from that page's first item |
| Paging.PagesTileTheList | src/common/utils/pagination.util.ts:4-25 | from the first page it yields the whole list, nothing lost and nothing repeated |
| Paging.RewindYieldsStart | src/common/utils/pagination.util.ts:4-25 | from any page on, following `hasPreviousPage` back yields everything up to that page's last item |

## Left out

- AlertInterleaving.SeparatedOrRaced: a store that inserts and then fails to answer is not modelled; a failing job inserts nothing.
- Telemetry.TelemetryService.Ingest: the two inserts of a batch share one clock reading.
- AcceptInterleaving.InterleavingsAreSound: of requests only those that open a token, accepting and validating, are split there; every other request is one step. InviteInterleaving splits inviting alone.
- LoginLedger.LoginMatchesHistory: assumes that no token is drawn twice.
- Ranking.HeuristicPredict: the number of candidates asked for is a whole number of at least one, as request validation demands.
- Usability.SusScoreInRange: survey answers are whole numbers.
- Paging.PagesTileTheList: the list does not change between pages, and is in one fixed order.
- Floating point: thresholds, rates, averages and percentile ranks are computed with exact numbers.
- Hashing: bcrypt, SHA-256 and random tokens are constructors, hence injective; the 72 bytes that bcrypt reads are not modelled. JWT signing is not part of this model.
- Letter case is that of the ASCII letters, and text is a sequence of characters, not of UTF-16 code units; addresses and titles are taken to be trimmed.
- Values that are not JSON (dates, functions), and what assigning `__proto__` does to the prototype of a sanitized object.
- MongoDB: a collection is a list, an id is a position in it, and a lookup takes the first match. The letter case of an id is modelled where the program compares ids as spelled: service ids of logs, metrics and incidents, the id of a user update. Free-text search, sort orders and malformed ids are not modelled.
- A flag of null counts as false, and a password of null or of no characters as none, as they do wherever the program reads them.
- The last check of the usable-invitation lookup, for a status other than the four, cannot be reached.
- Revoking an invitation: no operation of the program sets REVOKED.
- Stored password hashes are part of a user here, also in replies; the mapper that strips them is left out, as are the other mappers.
- Alert messages, ranking summaries, mail, masking of addresses, controllers (beyond which service serves an account request), guards, configuration and the wiring of modules.
- The update of incidents and its `resolvedAt`, because it depends on how the database library treats an undefined field.
- The dashboard, services, anomalies, metrics and dependencies services, the call to the prediction model, its features and traffic shares, and the alert on an anomalous prediction: they add counts and copies.
- Recording of usability events and surveys, the period of a summary, its number of sessions, and purging: they add filters and copies.
