# Agent OS: a verified model of its scheduling, policy, ledger and text cores

This project models the parts of Agent OS whose behaviour is hardest to see from one function, and
proves what they promise over every input and every run.

| file | what it models |
|---|---|
| `IsoTime.dfy`, `Decimal.dfy`, `Lexicographic.dfy` | UTC datetimes, their ISO text, and SQLite's text comparison of it |
| `Recurrence.dfy` | interval text, the coalescing formula, triggers |
| `Schedules.dfy`, `ScheduleRuns.dfy`, `Scheduler.dfy` | the claim transaction on the schedule table, every interleaving of transactions by any number of processes, the service's tick |
| `Utf8.dfy`, `OutputLimits.dfy` | UTF-8 encoding and error-ignoring decoding (RFC 3629, sections 3 and 4), the byte limit with its marker |
| `SkillListText.dfy`, `SkillConfig.dfy`, `SkillToml.dfy` | the printed skills list, the bracket scanner, additions to `workspace.toml`, and the file as TOML 1.0.0 statements before and after them |
| `SkillReading.dfy`, `SkillEdits.dfy`, `SkillEditCases.dfy` | what an addition does to a file of any shape: how far a change inside a statement reaches, the exact condition under which the top-level list gains the path, and files that fail it |
| `SkillPromotion.dfy` | the file transaction of promoting a skill, with a failure at every step |
| `PermissionKeys.dfy`, `Policy.dfy`, `PolicyReplies.dfy` | permission keys, the policy engines, the words of human answers, and histories of all three |
| `Workflow.dfy` | the graph of nodes as a state machine with human interrupts |
| `RunLedger.dfy` | numbered events and approvals, status transitions, the event stream's reader |
| `VaultIndex.dfy`, `VaultSearch.dfy` | the note index and its ranked search over the reals |
| `StrategyAllocation.dfy` | persistent strategy assignments, balanced exploration, the evidence-backed winner |
| `MigrationSql.dfy`, `Migrations.dfy`, `RunsMigration.dfy` | migration statements as the runner's text check sees them and as SQLite reads them; the migration runner; the migration that the runs database ships with |
| `SkillRegistry.dfy` | the skill registry |
| `Collections.dfy`, `Division.dfy`, `Options.dfy`, `PythonText.dfy`, `SortedText.dfy` | small shared helpers |

Time is an integer number of microseconds since year 1, text is a list of characters or code points,
scores are reals. Every `BEGIN IMMEDIATE` block of the original is one atomic step on maps of rows.
What comes from outside enters as a parameter: the order in which the database lists rows that tie, the
cron library's next time and when an expression fires, the TOML parser's verdict, the step at which a file
operation fails, a hash that breaks ties, the logarithm, what models, tools and people answer. Requirements
on these parameters say only what the outside promises (a legal query answer, a cron time that is the first
firing after the given one, a logarithm that increases and is positive above 1, fresh identifiers).

Objects that the original updates in place are classes here, and each method is tied to a function of
its old state; the properties of whole runs are lemmas about that function.

## Where the code does less than its documentation says

Each of these is proved, with the exact condition under which the promise holds.

- One row whose next time would pass the year 9999 raises inside the claim and rolls it back. A claim
  succeeds only if it leaves such a row out (`OverflowingRowIsLeftOut`), so while an overflowing interval
  row stays the earliest enabled one, no later claim succeeds (`OverflowingRowBlocksClaims`). Creating a
  schedule one period before the end of year 9999 is enough (`OverflowingRowCanBeCreated`).
- The bracket scanner misreads valid TOML lists (`ScannerRejectsValidToml`, `ScannerStopsInsideComment`). It
  takes a backslash inside a literal string for an escape, which is harmless exactly when an even number of
  backslashes precedes the closing apostrophe (`LiteralListEndsIff`). And it reads comments as if they were
  part of the list: a comment is harmless exactly when reading its text alone leaves the scanner as it was,
  at the list's own level and outside quotes (`CommentListEndsIff`); for a comment in which it acts on
  apostrophes only, exactly when their number is even (`ApostropheCommentEndsIff`).
- The printed skills list is JSON, not TOML: additions are refused exactly from the first path outside
  the Basic Multilingual Plane on (`RepeatedAdditions`).
- The edited list is the one behind the first line that looks like `skills =`, not the top-level list. For
  every file that the model reads, an accepted addition makes one statement out of those from the line's to
  the one in which the scan ends, and keeps all others (`EditIsLocal`, `OthersKeptIff`). With no table header
  and no key `skills`, however quoted, before the line's statement, the top-level list gains the path exactly
  when the line starts that statement, or one of two oddities holds: the line stands in a comment at the head
  of the top-level list itself, whose key is quoted (`AdditionCanHitFromComment`), or the scan has swallowed
  whole statements up to another list with the very same items (`AdditionCanSwallowStatements`). With such a
  header or key before it the list never gains the path. This is `AdditionGainsIff` with its condition
  `Gains`; without the oddities it reads as `OrdinaryFileGainsIff`. Files in which the addition succeeds and
  changes something else: a table's list under a quoted top-level key (`AdditionCanMissTheList`), and another
  key's list with a comment holding U+2028, which `splitlines` breaks at and TOML does not
  (`AdditionCanMissBehindBreak`). Files with multi-line strings are not modelled; a line `skills = []` inside
  one would be edited too.
- The check for destructive migrations misses SQLite's optional word COLUMN and comments between
  keywords: an accepted statement without comments loses a table or column exactly when it drops or
  renames a column without that word (`AcceptedLosesOnlyWithoutColumn`, `CommentHidesDropTable`). A new
  column is skipped in silence exactly when the pattern captures another column's name, one that is there
  already (`AdditionTakesEffectIff`).
- Two batches of migrations are not one when the second fails, because the first stays applied
  (`BatchesLeaveTheSameIff`).
- Promotion undoes everything exactly unless the package copy stops half way, the temporary
  configuration was created but not completely written, or the rollback itself fails (`LeavesTraces`).
- At most six nodes run between two human inputs exactly as long as the executor fails at most once in
  between, or at most twice when the input resumes the executor itself (`SixNodesIff`).
- A new user request reaches the tool dispatcher first exactly when the thread's last completed dispatcher
  run, of whatever task, did not escalate (`NewTaskReachesDispatcherIff`, `EscalationOutlivesItsTask`).
- The event stream lists the events first and reads the status afterwards, so it can end without the
  final events; it is complete exactly when nothing was appended after its last listing
  (`StreamIsCompleteIff`, `StreamCanMissTheResult`). A negative cursor starts at event 1.
- An index can report "ready" while it is out of date: exactly when the notes are the same, no file's time
  is later than the one stored, and some note's entry differs, as after an edit that keeps or lowers the
  file's time (`ReadyButOutOfDateIff`, `ReadyCanBeOutOfDate`). It cannot when file times never go back and
  tell edits apart (`ReadyMeansRebuilt`).

## Model

| member | source | states |
|---|---|---|
| `IsoTime.FromMicros` | agent_os/schedules.py:430-440 | every representable instant has exactly one valid calendar datetime, and counting its microseconds gives the instant back |
| `IsoTime.IsoOrder` | agent_os/schedules.py:406-419 | for all UTC datetimes, ISO text order is time order although the fraction is printed only when not zero; equal texts are equal datetimes |
| `IsoTime.TextOrder` | agent_os/schedules.py:411-419 | the SQL comparisons `<` and `<=` on stored texts hold exactly when they hold of the instants |
| `IsoTime.IsoRoundTrip` | agent_os/schedules.py:430-440 | reading the stored text gives the same datetime back |
| `IsoTime.InstantOfText` | agent_os/schedules.py:430-440 | the stored text of an instant denotes that instant |
| `Recurrence.SpelledIntervalParses` | agent_os/schedule_recurrence.py:19-49 | decimal digits of any script, an optional gap, an optional unit in either case and blanks around parse to the number times the unit, or to the error for too many digits, the long s as a unit, zero, or too long a period |
| `Recurrence.AcceptedIntervalIsSpelled` | agent_os/schedule_recurrence.py:32-49 | a text is malformed if and only if it has no such spelling, for every set of decimal digits |
| `Recurrence.WrittenPeriod` | agent_os/schedule_recurrence.py:24-49 | n seconds, minutes, hours or days, in digits of any script, are n times 1, 60, 3600 or 86400 seconds; 0 and more than 999999999 days, 23:59:59 are errors |
| `Recurrence.UnitsAre` | agent_os/schedule_recurrence.py:19-29 | the characters accepted as units are the four letters in either case and the long s |
| `Recurrence.RefusedSpelling` | agent_os/schedule_recurrence.py:45-49 | more than 4300 digits are an error whatever the unit, and otherwise the long s is one |
| `Recurrence.ClosedFormIsLoop` | agent_os/schedule_recurrence.py:119-136 | one floor division gives the same time as adding the period until strictly after now |
| `Recurrence.CoalescedIsLeast` | agent_os/schedule_recurrence.py:126-136 | the coalesced time is after now, in phase with the persisted one, and the least such time |
| `Recurrence.PathIndependent` | agent_os/schedule_recurrence.py:126-136 | coalescing at an earlier moment first and then later equals coalescing once |
| `Recurrence.CoalesceMovesPastNow` | agent_os/schedule_recurrence.py:111-138 | for interval and cron alike the coalesced time is past now and never before the persisted one |
| `Recurrence.FirstRunIs` | agent_os/schedule_recurrence.py:77-108 | a new schedule's first run is the first one after now: exactly one period later, or the expression's next firing |
| `Recurrence.CoalescedIsFirst` | agent_os/schedule_recurrence.py:111-138 | however many runs were missed, interval or cron, coalescing a due schedule gives exactly its first run after now, and leaves one that is not due alone |
| `ScheduleTable.ClaimedIsNextRun` | agent_os/schedules.py:426-448 | a claim makes every claimed row next due at its first run after the claim, and keeps every other row |
| `ScheduleTable.SelectionExists` | agent_os/schedules.py:411-419 | every table, moment and limit has a legal query answer, so claims are never stuck for want of one |
| `ScheduleTable.IntervalFits` | agent_os/schedules.py:430-440 | a due interval row cannot overflow while now plus one period is still representable |
| `Schedules.SelectionsAgree` | agent_os/schedules.py:411-419 | the rows that text comparison may select, their order, the limit and the ties are exactly those of comparing instants |
| `Schedules.ScheduleStore.ClaimDue` | agent_os/schedules.py:393-450 | returns the selected rows as they were, makes each next due at its first run after now and records now; raises and leaves every row alone exactly when some next time overflows |
| `Schedules.ScheduleStore.CreateSchedule` | agent_os/schedules.py:264-319 | adds one row due at its first run after now, one period later or at the next firing, or adds nothing exactly when that time is not representable |
| `Schedules.ScheduleStore.SetEnabled` | agent_os/schedules.py:374-387 | changes the flag of that row only and reports whether it existed |
| `Schedules.ScheduleStore.Remove` | agent_os/schedules.py:362-371 | drops that row only and reports whether it existed |
| `ScheduleRuns.NextConsistent` | agent_os/schedules.py:264-450 | every transaction keeps all stored times representable and all intervals positive |
| `ScheduleRuns.TimeNeverGoesBack` | agent_os/schedules.py:409-448 | in every interleaving a schedule's stored time never decreases and its trigger never changes |
| `ScheduleRuns.NoOccurrenceClaimedTwice` | agent_os/schedules.py:409-448 | in every interleaving two claims of one schedule return strictly increasing occurrences |
| `ScheduleRuns.NoRunIsSkipped` | agent_os/schedules.py:264-448 | in every interleaving from a schedule's creation on, its stored time is one of its runs, and every run before it was answered by a claim made at or after it that returned no later one: nothing is skipped |
| `ScheduleRuns.OccurrencesProgress` | agent_os/schedules.py:409-448 | the occurrences claimed so far increase, keep the phase of the first, and lie before the stored time |
| `ScheduleRuns.SpanCovers` | agent_os/schedule_recurrence.py:126-136 | occurrences at least a period apart need that much room in any span |
| `ScheduleRuns.ClaimRateBounded` | agent_os/schedules.py:409-448 | in every run an interval schedule is claimed at most floor((t1-t0)/period)+1 times for occurrences in [t0,t1], all in phase with the first |
| `ScheduleRuns.PassedOverClaim` | agent_os/schedules.py:411-448 | a claim that leaves a due schedule out takes its whole limit from the schedules due no later |
| `ScheduleRuns.WaitingFrom` | agent_os/schedules.py:411-448 | the claims a waiting schedule has seen, times the limit, never exceed its rank among due schedules |
| `ScheduleRuns.BoundedWaiting` | agent_os/schedules.py:411-448 | with k others due no later, a due schedule is claimed within ceil((k+1)/L) successful claims of at least L rows, whatever is interleaved |
| `ScheduleRuns.BoundedWaitingInCalls` | agent_os/schedules.py:411-448 | the same bound counts every claim call, as long as no due row of an aborted call overflows |
| `ScheduleRuns.OverflowingRowIsLeftOut` | agent_os/schedules.py:426-448 | a claim that succeeds leaves out every due row that overflows, interval or cron, so its limit is at most the number of rows due no later |
| `ScheduleRuns.OverflowingRowBlocksClaims` | agent_os/schedules.py:426-448 | in every run, while an overflowing interval row stays the earliest enabled one and claims come at no earlier moment, no claim of any limit but zero succeeds, and the row never changes |
| `ScheduleRuns.OverflowingRowCanBeCreated` | agent_os/schedules.py:264-319 | for every period there is a run from the empty table to one whose only row overflows |
| `Scheduler.SchedulerService.Tick` | agent_os/scheduler.py:247-266 | fills the free slots as far as schedules are due: afterwards as many children live as before plus the due schedules, or ten; one per claimed schedule, all others kept; stopped, full or failing, it changes nothing |
| `Scheduler.SchedulerService.Spawn` | agent_os/scheduler.py:262-266 | exactly one new child per claimed row, none lost |
| `Utf8.DecodedCharEncodes` | agent_os/output_limits.py:28 | whatever code point the decoder reads is encoded by exactly those bytes: no overlong forms, no surrogates |
| `Utf8.DecodeShrinks` | agent_os/output_limits.py:28-29 | decoding any bytes with errors ignored gives an encodable text that is no longer |
| `Utf8.DecodeStepOfChar` | agent_os/output_limits.py:28 | an encoded code point is read back whatever follows it |
| `Utf8.DecodeOfCutChar` | agent_os/output_limits.py:28 | a code point cut anywhere inside contributes nothing |
| `Utf8.FittingIsLongest` | agent_os/output_limits.py:28 | the code points that fit whole are the longest prefix within the budget and at most 3 bytes short of it |
| `Utf8.DecodeOfPrefix` | agent_os/output_limits.py:28 | decoding a byte prefix keeps exactly the code points that fit whole |
| `Utf8.DecodeOfEncode` | agent_os/output_limits.py:17-28 | decoding undoes encoding |
| `Utf8.RfcExamples` | agent_os/output_limits.py:17 | the code points of the standard's own examples have the bytes given there |
| `OutputLimits.FewerDigits` | agent_os/output_limits.py:22-35 | a smaller number never prints more digits, so the final marker fits where the conservative one did |
| `OutputLimits.DigitsDenote` | agent_os/output_limits.py:30-35 | the printed digits denote the number |
| `OutputLimits.DigitsAreNumeral` | agent_os/output_limits.py:30-35 | the printed digits are the number's decimal numeral, without leading zeros |
| `OutputLimits.TruncationIsExact` | agent_os/output_limits.py:17-35 | when the marker fits, the result is the marker's words with the decimal numeral of the bytes left out, and the longest prefix within the payload budget, at most 3 bytes short, within the limit |
| `OutputLimits.LimitAlwaysHolds` | agent_os/output_limits.py:7-35 | on every input: the errors exactly when due, the byte limit whenever there is a value, truncation exactly when too long, nothing kept when not even the marker fits, idempotence |
| `SkillListText.MatchingListEnd` | agent_os/skill_authoring.py:602-627 | the scanning loop finds the place the recursive definition gives, always behind a closing bracket inside the text |
| `SkillListText.ScanStopsAtClosingBracket` | agent_os/skill_authoring.py:602-627 | on any nesting of lists, quoted strings and comments with paired apostrophes, with any text around, the scanner stops exactly behind the bracket that closes the first list |
| `SkillListText.ListEndsAtBracketIff` | agent_os/skill_authoring.py:602-627 | for any content between a list's brackets, the scanner stops at the closing one if and only if reading the content leaves it at the list's own level and outside quotes |
| `SkillListText.EscapedStaysQuoted` | agent_os/skill_authoring.py:576-580 | no printed string can end the scanner's quote early |
| `SkillListText.RenderedPieces` | agent_os/skill_authoring.py:576-580 | the printed items are a sequence of pieces the scanner can read |
| `SkillListText.ScanUndoesPrint` | agent_os/skill_authoring.py:576-627 | for every list of strings, with any text before and after, the scanner stops exactly at the end of the printed list |
| `SkillListText.LiteralStringScannable` | agent_os/skill_authoring.py:611-620 | a TOML literal string is scanned as one string if and only if an even number of backslashes ends it |
| `SkillListText.LiteralListEndsIff` | agent_os/skill_authoring.py:602-627 | a list with one TOML literal string ends at its bracket if and only if an even number of backslashes precedes the closing apostrophe |
| `SkillListText.CommentListEndsIff` | agent_os/skill_authoring.py:602-627 | a list with one comment, whatever it holds, ends at its bracket if and only if reading the comment's text leaves the scanner as it was |
| `SkillListText.ApostropheCommentEndsIff` | agent_os/skill_authoring.py:602-627 | for a comment without other quotes, brackets and backslashes, if and only if its apostrophes are even in number |
| `SkillListText.ScannerRejectsValidToml` | agent_os/skill_authoring.py:602-627 | valid files whose list the scanner does not find the end of: a literal string ending in a backslash, and a comment that holds either quote or an opening bracket |
| `SkillListText.ScannerStopsInsideComment` | agent_os/skill_authoring.py:602-627 | a valid file whose list the scanner cuts short at a bracket in a comment |
| `SkillConfig.ListEndInside` | agent_os/skill_authoring.py:602-627 | the end found lies behind the start and inside the text |
| `SkillConfig.LineEndIs` | agent_os/skill_authoring.py:630-634 | a line ends behind its first line break, a carriage return and a newline counting as one, or at the end of the text |
| `SkillConfig.SkillsLineIff` | agent_os/skill_authoring.py:591-599 | a line counts exactly when it is the word skills and an equals sign, with blanks in front and between, and anything behind |
| `SkillConfig.SameSkillsLine` | agent_os/skill_authoring.py:591-599 | the first skills line stays where it is in a text that agrees up to it and has a skills line there |
| `SkillConfig.PrintedListIsFound` | agent_os/skill_authoring.py:591-627 | after an addition the same line and exactly the printed list are found again |
| `SkillConfig.AddKeepsSurroundings` | agent_os/skill_authoring.py:562-588 | one addition replaces the old list's text by the printed one and keeps all text before and after it |
| `SkillToml.DocumentAfter` | agent_os/skill_authoring.py:562-587 | complete statements of a file are read the same whatever text follows them |
| `SkillToml.FileWithList` | agent_os/skill_authoring.py:576-587 | a file with a printed list parses if and only if the list lies in the Basic Multilingual Plane and the rest parses; its top-level list is the printed one exactly when no table header and no key skills stands before it |
| `SkillToml.AdditionByOutcome` | agent_os/skill_authoring.py:562-588 | every outcome of an addition, exactly when it comes; otherwise the list found is replaced by the printed one with the path behind the others |
| `SkillToml.AdditionListsPathIff` | agent_os/skill_authoring.py:562-588 | in files whose first skills line starts a statement, an addition succeeds if and only if all strings lie in that plane and the rest parses; then only that statement has changed, and the top-level list has gained the path if and only if no table header and no key skills stands before it |
| `SkillToml.RepeatedAdditions` | agent_os/skill_authoring.py:562-588 | any sequence of distinct additions stops exactly at the first path outside that plane; up to it the paths are appended in order, all other text stays, and the list reads back |
| `SkillToml.AdditionCanMissTheList` | agent_os/skill_authoring.py:562-599 | a family of files with a quoted top-level key and a table: the addition succeeds, overwrites the table's list, and leaves the top-level list as it was |
| `SkillReading.KeyStays` | agent_os/skill_authoring.py:576-587 | a statement cut inside its value keeps its key, bare or quoted, whatever text follows the cut |
| `SkillReading.ListAround` | agent_os/skill_authoring.py:576-587 | a list with a printed list put inside it reads as the printed items if and only if there is nothing but blanks and comments in front of them |
| `SkillEdits.SameExtent` | agent_os/skill_authoring.py:576-587 | two readings of the rest of a file that both come to a proper end agree on where the statement they are in ends, whatever quotes, comments and brackets they are in |
| `SkillEdits.EditIsLocal` | agent_os/skill_authoring.py:562-588 | for every file and every place of the cut, an edit that parses replaces the statements it touches by one and keeps all others |
| `SkillEdits.OthersKeptIff` | agent_os/skill_authoring.py:562-588 | after an accepted addition all other statements are kept if and only if the scan ended in the statement in which it began |
| `SkillEdits.AdditionGainsIff` | agent_os/skill_authoring.py:562-599 | for every file, an accepted addition makes the top-level list the old one with the path behind it if and only if no table header and no key skills stands before the edited statement and the line starts it, or stands in a comment at the head of the top-level list, or the scan has swallowed statements up to a list with those items |
| `SkillEdits.OrdinaryFileGainsIff` | agent_os/skill_authoring.py:562-599 | where the scan stays in one statement that is no quoted key skills: if and only if the line starts a statement and no header or key skills stands before it |
| `SkillEditCases.AdditionCanMissBehindBreak` | agent_os/skill_authoring.py:591-634 | a family of files with U+2028 in a comment inside another key's list: the addition succeeds, goes into that list, and leaves the top-level list as it was |
| `SkillEditCases.AdditionCanHitFromComment` | agent_os/skill_authoring.py:591-634 | a family of files whose top-level list gains the path although the line starts no statement |
| `SkillEditCases.AdditionCanSwallowStatements` | agent_os/skill_authoring.py:591-634 | a family of files in which the addition removes a top-level list and a table header, and the table's list becomes the top-level one |
| `SkillListReader.ReadEscaped` | agent_os/skill_authoring.py:578-587 | a printed character reads back as itself exactly when it lies in the Basic Multilingual Plane; its surrogate pair is otherwise an error |
| `SkillListReader.ReadEscapedString` | agent_os/skill_authoring.py:578-587 | the same for a whole string |
| `SkillListReader.ReadUndoesPrint` | agent_os/skill_authoring.py:576-587 | the printed list reads back as the same list if and only if all its strings lie in that plane |
| `SkillPromotion.WorkspaceFiles.PromoteAndRegister` | agent_os/skill_authoring.py:477-512 | succeeds exactly when nothing fails and the addition of the path does, then with the package in place and the accepted addition as configuration; otherwise every file is as before if and only if the failure is not one that leaves traces |
| `SkillPromotion.PromotedPathIsListedIff` | agent_os/skill_authoring.py:491-512 | the configuration a promotion leaves lists the new path behind all it listed before if and only if the edited line is the top-level list's as above |
| `SkillPromotion.WorkspaceFiles.RegisterCopy` | agent_os/skill_authoring.py:491-508 | the same for everything after the copy; the destination is never left behind by a failure |
| `SkillPromotion.WorkspaceFiles.SwapIn` | agent_os/skill_authoring.py:496-508 | a failure at any step restores configuration and destination, except a reload whose rollback fails |
| `SkillPromotion.WorkspaceFiles.RollBack` | agent_os/skill_authoring.py:544-559 | restores the original text exactly when the rollback succeeds, and names the temporary file a failed one leaves |
| `PermissionKeys.KeyIsInjective` | agent_os/policy.py:62-84 | proposals with the same key have the same connector, mode and ref |
| `PermissionKeys.KeyIff` | agent_os/policy.py:46-84 | a memory write has a key exactly when its connector is of lower-case letters, digits and underscores, its mode one of the three, and its ref without colon and blank, and then exactly the five parts joined by colons |
| `PermissionKeys.DerivedKeysAreStorable` | agent_os/permission_store.py:19-22 | every derived key passes the store's check of keys |
| `Policy.PolicyService.EvaluateBase` | agent_os/policy.py:193-314 | the decision in the order deny, session, learned rule, built-ins, taxonomy, and a counter raised exactly for a rule that decided |
| `Policy.DecisionByOutcome` | agent_os/policy.py:193-314 | for every outcome and policy name, exactly when it comes: denials before session grants before learned approvals before built-in folders, and only reads need nothing |
| `Policy.BuiltinWritesAre` | agent_os/policy.py:273-300 | in the words of the arguments: appending below AI/Logs/ or agentos/logs/, appending or creating below AI/Briefs/ or agentos/briefs/, with any number of slashes in front |
| `Policy.CountersRise` | agent_os/policy.py:238-271 | an evaluation raises one counter by one exactly when a learned rule decided, the one for its effect, and changes no other rule |
| `Policy.PolicyService.Evaluate` | agent_os/policy.py:362-411 | plugins are asked in turn after the base decision; a denial denies under the plugin's own policy name or the default one, an exception denies |
| `Policy.FirstRestrictionDecides` | agent_os/policy.py:386-411 | the first plugin that denies or raises decides, under its own policy name, the default one or the error's; if none does the base decision stands |
| `Policy.PolicyService.ApplyPolicy` | agent_os/policy.py:414-559 | one proposal's outcome, and the rules and grants after it, for every verdict and reply |
| `PolicyReplies.ReplyIsWhatItSays` | agent_os/policy.py:112-139 | every text is read as the reply whose words it is written with, in any case, with blanks around and with an underscore or blanks and hyphens between two words; all other texts are unsupported |
| `PolicyHistory.AnswerDecides` | agent_os/policy.py:425-551 | for every text: a prompted action without a key runs if and only if the text says approved, approve, y or yes; otherwise also on a session answer in a session and on always_approve with a store; only these and always_deny with a store change a rule or grant, as stated |
| `PolicyHistory.UnaskedCounts` | agent_os/policy.py:193-314 | an evaluation without a prompt adds, drops and changes no rule and no grant; one more approval or denial is counted exactly for the rule that decided |
| `PolicyHistory.HighTierIsNotRemembered` | agent_os/policy.py:457-471 | no answer about a payment or privileged action changes a rule or grant; only yes and always_approve would run it |
| `PolicyHistory.EffectOfProposal` | agent_os/policy.py:414-559 | a key's rule or grant appears or changes only through a human's answer about that very key |
| `PolicyHistory.RulesWereTaught` | agent_os/policy.py:414-559 | in every history, a stored rule comes from an unrevoked always_approve or always_deny answer about its key |
| `PolicyHistory.GrantsWereGiven` | agent_os/policy.py:156-166 | in every history, a grant comes from a session answer about its key in that session, not cleared since |
| `PolicyHistory.StoreIsWhatWasSaid` | agent_os/policy.py:414-559 | in every history the store holds a rule about a key if and only if an engine with the store got that answer about it and nobody revoked it since, and a session a grant if and only if it was given in it and not cleared since |
| `PolicyHistory.UnaskedOnlyWithConsent` | agent_os/policy.py:193-314 | in every history in manual mode, an action runs unasked only if it reads, is a built-in log or brief write, or was consented to earlier for the same connector, mode and ref |
| `PolicyHistory.UnaskedIff` | agent_os/policy.py:193-559 | in every history in manual mode, in terms of what people wrote: exactly which actions run unasked, which are denied and which are asked about |
| `PolicyHistory.PluginsOnlyRestrict` | agent_os/policy.py:362-411 | plugins can turn a decision into a denial and into nothing else |
| `PolicyHistory.DenialPersists` | agent_os/policy.py:414-559 | after always_deny the denying rule is in the store until it is revoked, whatever else happens |
| `PolicyHistory.DenialHolds` | agent_os/policy.py:193-314 | after always_deny no write with that connector, mode and ref is carried out in manual mode, nor asked about, until revoked |
| `PolicyHistory.ApprovalPersists` | agent_os/policy.py:414-559 | after always_approve the approving rule is in the store until it is revoked, whatever else happens |
| `PolicyHistory.ApprovalHolds` | agent_os/policy.py:193-314 | after always_approve every write with that connector, mode and ref is carried out unasked in manual mode until revoked, unless a plugin denies it |
| `PolicyHistory.HighTierNeverRuns` | agent_os/policy.py:193-220 | payment and privileged actions are never carried out in manual mode, nor by a composite engine in any mode |
| `Workflow.ApprovalInvariant` | agent_os/routing.py:50-88 | in every thread, approval in the state concerns the plan in the state, and each node is entered only in the states it expects |
| `Workflow.ExecutorRunsApprovedPlan` | agent_os/nodes/executor.py:150-159 | in every thread, over any replies, the executor runs only the very plan artifact that the human last approved at the gate |
| `Workflow.RoutesByOutcome` | agent_os/routing.py:50-88 | for every state and every route, exactly when the supervisor takes it |
| `Workflow.ReplyLeads` | agent_os/routing.py:67-73 | in every thread an approval at the gate leads to the executor with the same plan, and a rejection to the architect with the same reason |
| `Workflow.PlanLeads` | agent_os/graph.py:44-61 | in every thread the architect's plan comes to the gate with the rest of the state unchanged |
| `Workflow.ReportLeads` | agent_os/routing.py:54-69 | in every thread a successful report ends the task, and a failed one leads back to the executor with the same plan |
| `Workflow.DispatchLeads` | agent_os/nodes/tool_dispatcher.py:34-45 | in every thread a tool run ends the task and an escalation leads to the architect |
| `Workflow.IdleIff` | agent_os/routing.py:50-88 | a thread becomes idle exactly after a successful report, which is about the plan last approved, or after a tool run |
| `Workflow.WaitsIff` | agent_os/graph.py:44-61 | exactly which nodes wait for a person and which fail, and that neither changes the state |
| `Workflow.InputsComeInOrder` | agent_os/graph.py:44-61 | in every thread, a node that takes a human input is reached only in a state from which the bounds below hold |
| `Workflow.PassLength` | agent_os/routing.py:50-88 | from any reachable place the remaining nodes are bounded by the place, plus two for every failed executor run |
| `Workflow.NodesPerInput` | agent_os/routing.py:24-26 | between two human inputs at most 6+2f nodes run for f failed executor runs, the dispatcher at most once, and the pass comes to rest |
| `Workflow.FailuresCostTwoNodes` | agent_os/routing.py:24-26 | for every n there is a pass from the gate with n executor failures, and it runs exactly 2n+4 nodes |
| `Workflow.SixNodesIff` | agent_os/routing.py:24-26 | for every pass between two human inputs that comes to rest, at most six nodes run if and only if the executor fails at most once, or at most twice when the pass resumes the executor |
| `Workflow.FlagIsLastRun` | agent_os/nodes/tool_dispatcher.py:34-45 | in every thread the escalation flag says whether the last completed dispatcher run, of whatever task, escalated |
| `Workflow.NewTaskReachesDispatcherIff` | agent_os/server/runtime.py:69-107 | in every thread a new user request goes to the dispatcher if that run did not escalate or there was none, and to the architect if it did |
| `Workflow.EscalationOutlivesItsTask` | agent_os/nodes/tool_dispatcher.py:34-45 | a concrete thread in which a finished escalation sends the next request past the dispatcher |
| `RunLedger.RunStore.AppendEvent` | agent_os/runs.py:123-142 | adds one event under the number after the greatest of its run |
| `RunLedger.RunStore.TransitionStatus` | agent_os/runs.py:177-208 | moves the run exactly when it has the expected status |
| `RunLedger.RunStore.RecordApproval` | agent_os/runs.py:211-244 | adds one approval to an existing run and raises for a missing one |
| `RunLedger.RunStore.RecordApprovalAndTransition` | agent_os/runs.py:247-305 | adds an approval and moves the run together, or does neither |
| `RunLedger.RunStore.RecordCancellationAndTransition` | agent_os/runs.py:308-361 | records and cancels exactly when the run is there and not terminal |
| `RunLedger.NextAfterNumbered` | agent_os/runs.py:123-142 | after rows 1..n the next number is n+1 |
| `RunLedger.NumbersAreGapless` | agent_os/runs.py:123-142 | in every interleaving each run's events and approvals are numbered exactly 1..n, n being how many were added |
| `RunLedger.RowsAreTheHistory` | agent_os/runs.py:123-361 | in every interleaving the tables hold exactly the events appended to a run and the approvals it took, in the order of their transactions |
| `RunLedger.StatusAfter` | agent_os/runs.py:145-361 | what every transaction makes of a run's status: a cancellation is refused exactly by a completed, failed or cancelled run |
| `RunLedger.FinishedStays` | agent_os/runs.py:308-361 | in every interleaving a completed, failed or cancelled run stays so unless its status is set outright or a transition expects it |
| `RunLedger.OneApprovalPerInterruption` | agent_os/runs.py:247-305 | in every interleaving atomic approvals never exceed the times the run entered interrupted |
| `RunLedger.AtomicApprovalMovesOrDoesNothing` | agent_os/runs.py:247-305 | an atomic approval adds a row if and only if it moves interrupted to running |
| `EventStream.StreamReader.EmitAll` | agent_os/server/api.py:778-785 | emits the listed rows in order and leaves the cursor on the last |
| `EventStream.ListingIsConsecutive` | agent_os/runs.py:420-437 | a listing behind a cursor is the run of consecutive numbers from there to the last stored |
| `EventStream.StreamIsGapless` | agent_os/server/api.py:776-792 | in every interleaving of writers and polls a reader emits after+1, after+2, ... without gap or repeat, up to the last event stored at its last poll |
| `EventStream.StreamIsCompleteIff` | agent_os/server/api.py:776-792 | at its end the reader has emitted every event beyond its cursor if and only if none beyond it was appended after its last poll |
| `EventStream.StreamCanMissTheResult` | agent_os/server/api.py:776-792 | a concrete interleaving in which the final event of a completed run is never delivered |
| `VaultIndex.TermFreqs` | agent_os/connectors.py:583-594 | the counting loop computes the counts |
| `VaultIndex.CountsAreOccurrences` | agent_os/connectors.py:583-594 | each count is the number of occurrences of its word |
| `VaultIndex.CountsAddUp` | agent_os/connectors.py:583-594 | a note's counts sum to its stored length |
| `VaultIndex.PatchIsRebuildIff` | agent_os/connectors.py:527-630 | patching an index that agreed with the old vault gives a full rebuild's index if and only if the named notes cover every note added, removed or changed in what the index stores |
| `VaultIndex.PresentIs` | agent_os/connectors.py:541-573 | the count of indexed notes is the number of places at which a note that is there is named |
| `VaultIndex.MarkdownVault.Index` | agent_os/connectors.py:527-630 | raises exactly for an index file that is JSON but no object; otherwise, from any earlier file, even a broken one, the stored index is the full rebuild's, with the exact counts of indexed and deleted notes |
| `VaultIndex.MarkdownVault.ReadAll` | agent_os/connectors.py:576-601 | every note's entry is fresh and nothing else is added |
| `VaultIndex.MarkdownVault.DropVanished` | agent_os/connectors.py:603-607 | exactly the entries without a note are dropped and counted |
| `VaultIndex.MarkdownVault.IndexRefs` | agent_os/connectors.py:527-630 | the named notes are fresh or gone, all others untouched, in any order and with repeats, with the exact counts of indexed and deleted notes |
| `VaultIndex.MarkdownVault.Reindex` | agent_os/connectors.py:632-639 | the stored index is the full rebuild's |
| `VaultIndex.MarkdownVault.IndexStatus` | agent_os/connectors.py:641-681 | ready exactly when the indexed notes are exactly the vault's and none is newer, though the loop compares counts and stops early |
| `VaultIndex.SameSizeSubset` | agent_os/connectors.py:653-667 | a subset is the whole set if and only if it has as many elements |
| `VaultIndex.ReadyButOutOfDateIff` | agent_os/connectors.py:641-681 | for any two vaults, the older one's index is ready while a rebuild would differ if and only if the notes are the same, no time is later than the one stored, and some note's entry differs |
| `VaultIndex.ReadyMeansRebuilt` | agent_os/connectors.py:641-681 | when file times never go back and tell edits apart, an old index is ready if and only if a rebuild would store the same |
| `VaultIndex.ReadyCanBeOutOfDate` | agent_os/connectors.py:653-667 | an index that is ready and out of date exists, with the file's time kept and with it lowered |
| `VaultSearch.IdfIsPositive` | agent_os/connectors.py:443-446 | every token's weight is positive, even when all notes contain it |
| `VaultSearch.TermScoreBounds` | agent_os/connectors.py:456-462 | a token adds something exactly when the note contains it, and always less than 2.5 times its weight |
| `VaultSearch.ScoreBounds` | agent_os/connectors.py:448-464 | a note scores above 0 if and only if it contains some query token, and below 2.5 times the summed weights |
| `VaultSearch.FrequencyIsCount` | agent_os/connectors.py:445 | a token's frequency is the number of notes that contain it |
| `VaultSearch.WeightIs` | agent_os/connectors.py:446 | the weight is the logarithm of one more than all notes over a half more than those with the token |
| `VaultSearch.RarerWeighsMore` | agent_os/connectors.py:443-446 | for an increasing logarithm a token weighs more if and only if fewer notes contain it |
| `VaultSearch.MoreAndShorterScoresMore` | agent_os/connectors.py:456-462 | a token adds strictly more to a note that has it more often and is no longer, or as often and is shorter |
| `VaultSearch.OneOccurrence` | agent_os/connectors.py:448-462 | one occurrence in a note of r times the average length adds 2.5 / (1.375 + 1.125 r) of the weight |
| `VaultSearch.RarerTokenScoresMore` | agent_os/connectors.py:443-464 | of two notes of equal length that differ in which of two query tokens they hold, the one with the rarer scores strictly higher |
| `VaultSearch.SortIsDescending` | agent_os/connectors.py:466 | sorting loses nothing and gives non-increasing scores |
| `VaultSearch.CountDocuments` | agent_os/connectors.py:445 | the number of notes that contain the token |
| `VaultSearch.Weights` | agent_os/connectors.py:443-446 | every query token gets the weight of its document frequency |
| `VaultSearch.ScoreNote` | agent_os/connectors.py:453-462 | the loop over the query, repeats included, computes the score |
| `VaultSearch.Search` | agent_os/connectors.py:431-468 | the imperative search returns the top of the sorted matches |
| `VaultSearch.MatchingAreMatches` | agent_os/connectors.py:448-464 | the scored notes are exactly those that contain a query token |
| `VaultSearch.ResultIsTop` | agent_os/connectors.py:466-468 | the result lists matching notes only, best first, as many as the limit allows, counted from the end if it is negative, and no note left out scores better than one listed |
| `VaultSearch.RarerIsListedFirst` | agent_os/connectors.py:431-468 | for every limit the note with the rarer token is listed whenever the other is, and before it |
| `StrategyAllocation.ObservationStore.AssignStrategy` | agent_os/observations.py:730-780 | stores the first assignment of a run and answers with the stored one ever after |
| `StrategyAllocation.ObservationStore.AssignBalancedExploration` | agent_os/observations.py:782-855 | raises and stores nothing exactly for an empty list or a missing version; a known run keeps its own; a fresh one gets the hash's pick among the least assigned for that workspace and kind |
| `StrategyAllocation.ChooseLeast` | agent_os/observations.py:822-833 | the loops for the minimum and for those that share it compute the choice |
| `StrategyAllocation.ChosenIsLeast` | agent_os/observations.py:822-833 | the choice is one of the given strategies, and none of them has fewer assignments |
| `StrategyAllocation.ChoiceIgnoresOrder` | agent_os/observations.py:822-833 | ties are broken by the hash alone, whatever the order in which the strategies are given |
| `SortedText.SortedIgnoresOrder` | agent_os/observations.py:824-828 | sorting gives the same list for every order of the same strings |
| `StrategyAllocation.CountAfterInsert` | agent_os/observations.py:804-830 | a new assignment raises the count of its own strategy by one and no other |
| `StrategyAllocation.ExplorationIsStep` | agent_os/observations.py:804-855 | a fresh exploration raises exactly one least count by one |
| `StrategyAllocation.BalanceIsKept` | agent_os/observations.py:804-855 | counts that differ by at most one still do after a step |
| `StrategyAllocation.BalanceIsKeptForever` | agent_os/observations.py:804-855 | and after any number of steps |
| `StrategyAllocation.StepLowersShortfall` | agent_os/observations.py:804-855 | while counts differ a step lowers the sum of max minus count by exactly one and keeps the maximum |
| `StrategyAllocation.ExplorationEqualizes` | agent_os/observations.py:804-855 | from any counts, after n fresh explorations all counts are equal if and only if n is the sum of max minus count or exceeds it by a multiple of the number of strategies |
| `StrategyAllocation.AssignmentIsForever` | agent_os/observations.py:741-780 | whatever requests follow by either method, a run's assignment never changes |
| `EvidenceWinner.RankedDescends` | agent_os/strategies.py:115-125 | the ranking has non-increasing scores |
| `EvidenceWinner.ScoreIsShare` | agent_os/observations.py:606 | the score is the share of acceptances with edits counting half, between 0 and 1, and 1 or 0 exactly when all labels say so |
| `EvidenceWinner.LabelMovesScore` | agent_os/observations.py:606 | one more acceptance raises the score unless it is 1, one more rejection lowers it unless it is 0, one more edit moves it towards a half |
| `EvidenceWinner.WinnerIsLeader` | agent_os/strategies.py:115-131 | w wins if and only if it has 5 labels, a score of at least 0.70, there is another pattern with 5 labels, and w leads every such other by at least 0.15 |
| `EvidenceWinner.WinnerIgnoresOrder` | agent_os/strategies.py:115-131 | the winner is the same for every order of the patterns |
| `Migrations.MigrationRunner.RunMigrations` | agent_os/migrations.py:245-290 | the transaction changes the database statement by statement; a failure at any statement or handler puts schema, rows and version back; a success has gone through a chain of databases, one link for each newer migration in version order, with their names as the answer |
| `Migrations.MigrationRunner.RunOne` | agent_os/migrations.py:269-283 | one migration's link: its statements in order, then exactly what its handler makes of the result, then its version; or the first failure |
| `Migrations.ApplyingIsChain` | agent_os/migrations.py:262-285 | migrations can be applied with a result if and only if there is a chain of such links to it |
| `Migrations.PendingIs` | agent_os/migrations.py:248-252 | pending are exactly the migrations with a newer version, as often as given, in version order |
| `Migrations.BackfilledAfterRun` | agent_os/migrations.py:55-63 | after a chain whose last migration has the backfill handler every run with a workspace has its identifier |
| `RunsMigration.StatementsApply` | agent_os/migrations.py:66-95 | on every runs database the five statements pass the check, are read as three columns, a table with its eight columns and an index, and skip what is there already |
| `RunsMigration.RunsMigrationSucceeds` | agent_os/migrations.py:66-95 | on every runs database older than version 2, however far an earlier attempt came, the shipped migration succeeds, every run with a workspace has its identifier, and no row, value, table or column is lost |
| `Migrations.ApplyInTwo` | agent_os/migrations.py:262-285 | applying a list is applying its parts one after the other, failures included |
| `Migrations.RerunIsNoOp` | agent_os/migrations.py:245-262 | after a success nothing is pending and another run changes nothing |
| `Migrations.TwoBatchesAreOne` | agent_os/migrations.py:245-290 | if the first batch succeeds the second ends as one batch would, and one batch fails exactly when either of two does |
| `Migrations.BatchesLeaveTheSameIff` | agent_os/migrations.py:245-290 | two batches leave the same database as one if and only if the first fails, has nothing pending, or the second succeeds |
| `Migrations.SchemaOnlyGrows` | agent_os/migrations.py:125-167 | migrations without removing statements and with handlers that keep the schema lose no table and no column, whether the run succeeds or fails |
| `Migrations.CheckedMigrationShrinksIff` | agent_os/migrations.py:125-167 | a migration of one statement without comments that the check accepts and that succeeds shrinks the schema if and only if it drops or renames a column without the word COLUMN |
| `MigrationSql.ExecutionLosesIff` | agent_os/migrations.py:143-167 | executing a statement loses a table or column if and only if it removes one that is there |
| `MigrationSql.ExecutionKeepsRows` | agent_os/migrations.py:143-167 | whatever a statement does, the rows still fit the tables, and every row of every table that is left keeps its place and its values under whatever new names |
| `MigrationSql.SchemaAfter` | agent_os/migrations.py:143-167 | which tables and columns there are after each kind of statement |
| `MigrationSql.ColumnsAreDefined` | agent_os/migrations.py:73-84 | a new table's columns are the names with which its definitions begin, whatever types, defaults and constraints follow |
| `MigrationSql.PairIff` | agent_os/migrations.py:28-36 | a forbidden pair is found exactly as two words with only whitespace between them, in any case, in the statement or inside one quoted name or comment |
| `MigrationSql.WordIff` | agent_os/migrations.py:28-36 | a forbidden word is found exactly where it stands as a word, inside quoted names and comments too |
| `MigrationSql.SafeIff` | agent_os/migrations.py:28-36 | a statement passes exactly when none of the six pairs and no TRUNCATE is found in it |
| `MigrationSql.AcceptedStatementLosesIff` | agent_os/migrations.py:125-167 | the same for every statement that passes the check, the column check included |
| `MigrationSql.UncheckedRemovals` | agent_os/migrations.py:28-36 | without comments, a statement that none of the seven patterns matches removes something if and only if it has one of the two forms without COLUMN |
| `MigrationSql.AcceptedLosesOnlyWithoutColumn` | agent_os/migrations.py:125-167 | an accepted statement without comments loses a table or column if and only if it drops or renames a column without the word COLUMN |
| `MigrationSql.DropWithoutColumnPasses` | agent_os/migrations.py:28-36 | ALTER TABLE t DROP c is accepted, and loses the column, if and only if neither name matches a pattern by itself |
| `MigrationSql.RenameWithoutColumnPasses` | agent_os/migrations.py:28-36 | ALTER TABLE t RENAME a TO b is accepted, and loses column a, if and only if no name matches a pattern by itself and a is not RENAME |
| `MigrationSql.CommentHidesDropTable` | agent_os/migrations.py:28-36 | DROP TABLE with a comment between the words is accepted, and loses the table, if and only if its name matches no pattern |
| `MigrationSql.RepeatedAdditionIff` | agent_os/migrations.py:38-41 | adding a column again is skipped if and only if the pattern captures the name SQLite adds, which takes a definition after it; otherwise it is an error |
| `MigrationSql.AdditionTakesEffectIff` | agent_os/migrations.py:143-167 | after an accepted addition the column SQLite would add is there if and only if it was there, or the pattern captures no name, or one that was not there |
| `Migrations.BackfillFillsOnce` | agent_os/migrations.py:55-63 | fills only missing values from the legacy column, keeps every other value and the schema, and does nothing twice |
| `SkillRegistry.Registry.Register` | agent_os/skills.py:61-78 | accepts a skill exactly when it shares no word with a registered one, and keeps all words apart |
| `SkillRegistry.Registry.CheckCollisions` | agent_os/skills.py:61-77 | the nested comparisons of names and aliases decide exactly whether the word sets are disjoint |
| `SkillRegistry.Registry.RegisterMany` | agent_os/skills.py:80-92 | registers the whole batch as one after another would, or changes nothing when any of it is refused |
| `SkillRegistry.Registry.DeterministicMatch` | agent_os/skills.py:102-107 | finds the first registered skill that matches, and then it is the only one that does |
| `SkillRegistry.MakeSkillIff` | agent_os/skills.py:20-32 | a skill can be made exactly when none of its names is blank and no two are the same but for case and blanks around |
| `SkillRegistry.MadeSkillIs` | agent_os/skills.py:20-32 | it then has the given names normalized, is valid, and is made again from its own names |
| `SkillRegistry.MatchesIff` | agent_os/skills.py:34-39 | a text matches exactly when, behind blanks, it starts with one of the skill's words in any case and then ends or goes on with a blank |
| `SkillRegistry.AtMostOneMatch` | agent_os/skills.py:34-39 | no text is answered by two registered skills |
| `SkillRegistry.MatchIgnoresOrder` | agent_os/skills.py:102-107 | two registries with the same skills in any order give the same answer to every text, none included |
| `SkillRegistry.BatchAppends` | agent_os/skills.py:80-92 | a batch is accepted if and only if all old and new words stay apart, and then it is appended in order |

## Left out

- Schedules.ScheduleStore.ClaimDue: rows hold their trigger already parsed, without name, task, workspace and callback columns, because the claim only copies those.
- Schedules.ScheduleStore.CreateSchedule: the validation of the other columns and of callback URLs is not modelled; a cron expression is assumed valid.
- Recurrence.ParseInterval: the Unicode table of decimal digits is a parameter.
- IsoTime.IsoRoundTrip: `fromisoformat` is modelled on the two layouts that `isoformat` prints for UTC; other ISO 8601 spellings never reach the table.
- Scheduler.SchedulerService.Tick: dispatching the child over HTTP, its result record and the polling loop are I/O; a child is an identity in the set of live children.
- Scheduler.SchedulerService.Stop: the children are taken to finish when awaited, so the set is empty afterwards.
- ScheduleRuns.BoundedWaiting: counts successful claims; claim calls are counted by ScheduleRuns.BoundedWaitingInCalls where no row overflows, and aborts for other database errors are not modelled.
- Cron expressions, time zones and daylight saving: computed by a library; only "strictly later" is assumed.
- SkillConfig.AddSkillPath: the TOML parser's reading of the old file and its acceptance of the new one are parameters; SkillToml.AddPath supplies them.
- SkillToml.Loads: files with multi-line strings, dotted keys with quoted parts, or a `skills` that is no list of one-line strings count as unreadable; values of other keys are not looked into, even where an addition changes them, and repeated keys are not checked.
- SkillToml.Parses: values of other keys are no part of it, so a text that the model takes may be one that the parser refuses.
- SkillListText.EscapeChar: strings hold no lone surrogates, so paths with undecodable bytes are not modelled; the original prints such a byte as `\udcXX` and then refuses the addition.
- SkillPromotion.WorkspaceFiles.PromoteAndRegister: making the approved directory, byte-code caches and a cleanup step that itself fails are not modelled.
- The request status machine, the brief and the package digest of skill authoring: single guarded row updates and formatting, which would only add easy members.
- Policy.PolicyService.Evaluate: store failures, non-string replies, non-ASCII lower-casing, timestamps and who taught a rule are not modelled; mode "smart" behaves as "manual".
- Policy.PolicyService.ApplyPolicy: evaluation, prompt and answer are one atomic step of the history.
- The memory gate: a caller that turns a policy outcome into at most one write.
- Workflow.RunNode: the graph builder's object is modelled as the transition function that it compiles to; the normalisation of feedback text, message trimming, summaries and the library's own step counting are left out.
- RunLedger.RunStore.SetStatus: sets any status without a guard, as the original does, so no claim is made that terminal states last; timestamps, error texts and titles are not modelled.
- RunLedger.RunStore.RecordApprovalAndTransition: the returned run row is reduced to whether the run moved.
- EventStream.StreamReader.EmitAll: encoding, sleeping and disconnecting are left out; each poll lists the ledger at some moment of the interleaving.
- VaultIndex.MarkdownVault.Index: the word pattern, frontmatter and title parsing, unreadable notes, path resolution and the average-length field are not modelled; a note is its list of words.
- VaultSearch.Search: rounding of scores, snippets and headings are left out; scores are reals and the average length, positive in the original by its fallback to 1, is a parameter.
- Frontmatter serialization and note writing: text formatting around a YAML library.
- StrategyAllocation.ObservationStore.AssignBalancedExploration: the hash that breaks ties is a number.
- EvidenceWinner.Winner: scores are exact; the aggregation query that counts outcomes and the selection wrapper that stores the choice are left out.
- Migrations.MigrationRunner.RunMigrations: the backup copy and connection handling are I/O, and handlers are functions that change rows.
- MigrationSql.Parse: statements are lists of words, quoted names, signs and block comments; a quoted name is words with single blanks between them, without other signs; statements that only change rows, line comments, schema-qualified names and SQLite's case-insensitive comparison of names are not modelled.
- MigrationSql.Execute: column defaults and SQLite's refusal to drop keyed or indexed columns are not modelled.
- Context and hot-context budgets: accumulation loops whose bound is visible in one body.
- HTTP endpoints, sandboxing, plugins, workspace composition, the command line and update checks: I/O and configuration.
