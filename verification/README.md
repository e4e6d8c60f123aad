# Verified models of the agent's scan engine, the token budget, admission, the quality gate, the catalog and the savings arithmetic

These Dafny modules model the parts of the system whose behaviour is decided by its own code
(arithmetic, scanning, and step protocols run by several replicas) and prove what those parts
promise. `dafny verify dfyconfig.toml` checks the whole project.

How the modules follow the program:

- **Scan engine** (`agent/`). `JsonScanner` is the string-aware scanner that pulls JSON objects out
  of free text, `JsonText` the RFC 8259 printer it is inverse to, `Extraction` the choice among its
  candidates, `Findings` the conversion of Semgrep rows, the gate and the checks of the receiving
  endpoint, `PathLaws` what its path conversion means, `SecurityScan` the event loop, the retry
  loop and the classification, `ScanLaws` the laws of whole scans, and `AgentMain` the exit codes.
- **Token budget** (`app/llm_budget.py` and its clients). `TokenBudget` has each atomic statement
  on the shared hourly tally and every interleaving of them; `ChatTurn` is one chat turn and
  `Ingest` one catalog ingestion, each settling what it reserved; `IngestRace` is many ingestions at
  once; `Llm` is what the clients share.
- **Admission** (`app/auth/`). `TokenBucket` is the lazily refilled bucket, `Registration` the two
  account writers under one lock, `Challenge` the single-use sign-in nonces.
- **Quality gate** (`app/quality/service.py`). `QualityGate` has the pure gate, the feedback
  transactions as steps, and the one-caller store.
- **Catalog and ranking** (`app/catalog/`, `app/recommend/`). `Catalog` is the upsert, the
  one-group rule and the seed loader; `Ranking` the weighted rank and the baseline row;
  `Ordering` sorting under a strict order.
- **Savings** (`app/savings/`). `Savings` is the per-run cost trio, the honest headline and the
  dashboard figures; `Rounding` half-up and half-even rounding.
- `Common` and `PyText` hold options, small arithmetic and the Python text operations in use.

Code that updates things in place is a class with methods (`SecurityScan.Usage`,
`TokenBudget.LlmUsage`, `Catalog.CatalogStore`, ...) or a method with a loop; each is tied to a
function of the old state, and the laws are lemmas about that function. Concurrent transactions
are state machines: a schedule is a sequence of atomic statements in the order the database runs
them, a statement that cannot run is skipped, and the theorems hold for every schedule.

Money is a whole number of micro-dollars, ranking figures are whole millionths, token counts are
naturals, times and rates are exact reals. Strings are sequences of characters.

## Where the code and its promises differ

Each of these is a lemma with the input that shows it; beside it stands the exact condition under
which the promise holds.

- `looks_like_refusal` says a clean JSON result never reaches it. The loop tests the wording
  first, so `i won't {"results": []}` is declined (`ScanLaws.CleanResultCanBeDeclined`). With
  readable findings the wording alone decides (`ScanLaws.DeclinedExactly`).
- "Dropping it restores the character the model meant" holds for a backslash that stands alone. Of an
  escaped backslash before a character JSON does not escape, one is lost and what stays is a bad
  escape (`Extraction.EscapedBackslashIsDamaged`); `Extraction.RepairExactly` says which texts the
  repair leaves alone.
- "One bad row never 422s the run" fails for two path shapes, and the agent does not keep to the
  endpoint's bounds of 500 findings and 10 million input, output and cache-read tokens each
  (`Findings.AbsolutePathsSlipThrough`, `Findings.EmittedFindingAccepted`,
  `Findings.DrivePathsSlipThrough`, `Findings.EmittedRunAccepted`,
  `ScanLaws.CacheReadsAreNotCapped`). And a row whose `extra`, `metadata` or `start` is not an
  object is not dropped: the conversion raises and the scan ends with the configuration code
  (`ScanLaws.MalformedRowCrashes`, `ScanLaws.CrashesExactly`).
- The shared ceilings have slack of one token per retry and one step per attempt, and both can be
  used up (`ScanLaws.SharedCeilings`, `ScanLaws.SlackIsReached`, `ScanLaws.StepSlackIsReached`).
- The wall-clock ceiling is looked at only when an event arrives, so a silent run has no bound
  (`ScanLaws.SilenceIsNotTimed`); what is bounded is when events are read
  (`ScanLaws.EventsInTime`) and how far runs outlast their share (`ScanLaws.SharedSeconds`).
- A challenge can be consumed twice: by an attempt that starts after the expiry, and by one that
  starts in time but whose insert runs after another sign-in has deleted the expired record
  (`Challenge.LateStartConsumesTwice`, `Challenge.LateInsertConsumesTwice`). It happens exactly
  when such an insert meets no record (`Challenge.AcceptedTwiceExactly`), which takes a transaction
  started after the expiry (`Challenge.ReopenedAfterExpiry`); without one each challenge is
  accepted at most once (`Challenge.SingleUse`).
- Re-running a seed list is not always safe: a list may load cleanly and then fail to replay
  (`Catalog.RetaskedRowBreaksReplay`); `Catalog.ReplaysExactly` says which lists do.
- "The bad state is never created" holds for one writer. Concurrent ones break the one-group rule
  when a row is committed between the check and the write of a row it clashes with, and only then
  (`Catalog.ChecksAloneDoNotSerialize`, `Catalog.OvertakenBreaksTheRule`, `Catalog.RuleSurvives`).
- A source whose first row is accepted and a later one is not is recorded as ingested, and is
  skipped from then on with its remaining rows unwritten (`Ingest.SecondRowIsLost`,
  `Ingest.KnownExactly`).
- "An unchanged source short-circuits before any call" holds for one ingest at a time. Two that
  both look before either has recorded the source both pay, and the second is turned away only at
  its insert (`IngestRace.BothPay`); the source table stays right (`IngestRace.OneRowPerSource`).
- A request that fits can be turned away, exactly when rejected reservations that have not been
  taken back leave it no room (`TokenBudget.PendingRejectionCrowdsOut`,
  `TokenBudget.TurnedAwayExactly`).
- A strictly higher score at equal cost can rank behind, because the score is rounded before it is
  compared (`Ranking.ScoreGapCanRoundAway`, `Ranking.HigherScoreIsAheadExactly`); a weighted gap of
  more than one place prevents it (`Ranking.ScoreGapShows`).

## Model

| member | source | states |
|---|---|---|
| JsonScanner.BalancedJsonBlocks | agent/security.py:282-314 | The scanning loop yields, for every text, exactly the texts of the complete top-level blocks, in order. |
| JsonScanner.SpansExact | agent/security.py:289-314 | The blocks are all and only the slices that open outside strings at depth zero, stay open on every proper nonempty prefix and close: none is missed, none is invented. |
| JsonScanner.SpansDisjoint | agent/security.py:305-313 | Blocks are nonempty, increasing and do not overlap. |
| JsonScanner.BlocksSplit | agent/security.py:289-314 | Where nothing is open, scanning a text in two pieces gives the blocks of both pieces in order. |
| JsonText.PrintLevel | agent/security.py:294-304 | A printed JSON value of any nesting, whatever quotes, braces or backslashes its strings spell, brings the scanner back to the depth it started at and never below it. |
| JsonText.ObjectIsOneBlock | agent/security.py:282-287 | A printed object on its own is exactly one block, namely itself. |
| JsonText.ObjectsRoundTrip | agent/security.py:282-314 | Round trip: any number of printed objects in quiet prose come back as their texts, in order. |
| Extraction.ExtractResults | agent/security.py:328-348 | The reversed search over candidates, raw before repaired, finds the reading of the latest candidate that has one, or raises where the parser fails first. |
| Extraction.LatestReadingMeaning | agent/security.py:340-348 | The choice by position: the search comes to something exactly if some candidate has a reading or makes the parser fail, and then to that of a candidate after which there is nothing to read. |
| Extraction.ReadingMeaning | agent/security.py:340-347 | A candidate is read as it stands, and repaired only if the parser says it is not what is wanted; a parser that fails otherwise raises in either place. |
| Extraction.FinalObjectWins | agent/security.py:331-340 | When the last object of a message parses to findings, those are the findings, whatever came before. |
| Extraction.NeverGuessed | agent/security.py:334-347 | Extracted findings are what the parser read off one of the message's own candidates, as it stands or repaired. |
| Extraction.BlocksThenFencesThenAll | agent/security.py:328-340 | The order of trust: what the balanced blocks give, else what the fenced ones give, else the whole message. |
| Extraction.RepairExactly | agent/security.py:317-325 | The repair leaves a text alone if and only if no backslash in it stands before a character JSON does not escape. |
| Extraction.RepairDropsTheBackslash | agent/security.py:317-325 | Of the first such pair the backslash goes, the character stays, and the repair goes on after it. |
| Extraction.EscapedBackslashIsDamaged | agent/security.py:317-325 | An escaped backslash before such a character loses one of its two and becomes a bad escape. |
| Findings.ApplyGate | agent/review.py:115-123 | The gate fails exactly if a finding has a blocking severity, and the reason counts exactly those. |
| Findings.ComputeRelativePath | agent/security.py:361-367 | The in-place stripping loop computes the path function: backslashes turned, root taken off, every leading "./" removed, cut at the limit. |
| Findings.ToFindings | agent/security.py:370-399 | The conversion raises exactly if some row is an object with a non-object `extra`, `metadata` or `start`; otherwise the emitted findings are those of the rows that are kept, in row order, and emitted plus dropped is the number of rows. |
| Findings.KeptRows | agent/security.py:376-399 | The findings are, in order, those of an increasing choice of rows, and every row left out is one to drop. |
| Findings.GateOnRows | agent/security.py:541-545 | The gate fails exactly if a row that is kept maps to a blocking severity. |
| Findings.SeverityTable | agent/security.py:351-358 | ERROR is critical exactly with HIGH confidence and else high, WARNING is medium, all else low, in any case. |
| Findings.FindingSays | agent/security.py:376-398 | A row is dropped exactly if its path or message comes to nothing or its path climbs; the finding it becomes has its own message and first CWE up to the length kept, and its line unless negative. |
| PathLaws.RelPathLeadsBack | agent/security.py:361-364 | Followed from the workspace, a relative path arrives where the path itself leads. |
| PathLaws.OneFileOnePath | agent/security.py:361-367 | One file has one path: from the root, from the workspace or with any number of leading "./", a path inside the workspace is reported as what follows it. |
| PathLaws.PathsStayInside | app/schemas/ci.py:43-71 | No path the agent reports and none the endpoint accepts leaves the directory it is joined to. |
| Findings.RelPathIsRelative | agent/security.py:361-364 | A path made relative to the workspace never starts with a slash and gains no backslash. |
| Findings.EmittedFindingAccepted | app/schemas/ci.py:43-71 | Producer and consumer: an emitted finding passes every per-field check of the endpoint if and only if its path has neither of the two shapes stripping leaves absolute. |
| Findings.EmittedRunAccepted | app/schemas/ci.py:83-91 | A whole run is accepted if and only if its findings, its three token counts, its model name and its build id are within the endpoint's bounds and no kept row has such a path. |
| SecurityScan.CheckCeilings | agent/security.py:239-247 | The first exceeded ceiling in the order token, step, wall clock; a limit of zero is none. |
| SecurityScan.EventsReadMeaning | agent/security.py:210-247 | Reading stops at the first event after which a ceiling is exceeded, and only there. |
| SecurityScan.ReadEvents | agent/security.py:208-247 | The streaming loop has read exactly those events, and its usage, text and tool calls are the folds over them. |
| SecurityScan.StreamOpencode | agent/security.py:190-274 | One run: what was read, the ceiling it tripped in the stream or waiting for the exit, code 124 when one was tripped and the child's own code otherwise, and an exception exactly when no ceiling was tripped before a line that is not an event, or a text that is no string was read. |
| SecurityScan.JudgeRun | agent/security.py:485-508 | The order of the verdict: exception, ceiling, dead provider, refusal wording, extraction. |
| SecurityScan.RunAttempts | agent/security.py:470-508 | The retry loop and its counters follow the step function attempt by attempt, each run under what the earlier ones left of the ceilings. |
| SecurityScan.Conclude | agent/security.py:510-556 | The classification after the loop and every number of the report, including that a dead provider reports tokens only. |
| SecurityScan.RunSecurity | agent/security.py:442-556 | The outcome of the whole scan and its report, with a configuration error exactly when the set-up checks fail, and no report when an exception of no class of its own ends it. |
| ScanLaws.FirstStopDecides | agent/security.py:485-507 | The first attempt that is not retried decides, and nothing runs after it. |
| ScanLaws.RowsExactly | agent/security.py:470-508 | The loop ends with rows exactly if some attempt within the limit was readable, tripped no ceiling, left text or exited zero, was not worded as a refusal and yielded them, and every earlier one was retried. |
| ScanLaws.Accounting | agent/security.py:470-539 | Attempts are refusals plus malformed plus one if the loop stopped early; without a stop the last attempt tells a refusal from unreadable output. |
| ScanLaws.PassExactly | agent/security.py:541-556 | A scan passes exactly if it was set up, some attempt within the limit so delivered rows after nothing but retries, every row can be read, and none of the kept rows blocks. |
| ScanLaws.CompletedExactly | agent/security.py:541-556 | A completed scan reports the findings kept from delivered rows, the gate they give, and the tokens in and out of every event read over all attempts. |
| ScanLaws.CeilingExactly | agent/security.py:485-487 | A ceiling is reported exactly if an attempt tripped it after nothing but retries. |
| ScanLaws.ProviderErrorExactly | agent/security.py:490-500 | A dead provider is reported, with its exit code, exactly if an attempt left no text and exited nonzero after nothing but retries. |
| ScanLaws.NothingScannedExactly | agent/security.py:502-539 | A scan ends refused exactly if every attempt was retried and the last one's wording declines, malformed exactly if it does not. |
| ScanLaws.RefusalExactly | agent/errors.py:90-110 | A text is worded as a refusal if and only if one of the phrases occurs anywhere in it, in any case, stripped or not. |
| ScanLaws.DefaultGateExactly | agent/security.py:351-358 | Under the critical-only default a delivered, readable scan fails exactly if a row that is kept is an ERROR of HIGH confidence, in any case. |
| ScanLaws.CrashesExactly | agent/security.py:376-385 | A scan that was set up ends in an exception of no class of its own exactly if its last run raises or the rows it delivered hold a malformed one. |
| ScanLaws.CleanResultCanBeDeclined | agent/errors.py:98-110 | The message `i won't {"results": []}`, whose findings object is extracted as a clean result, is declined for its wording. |
| ScanLaws.StreamBound | agent/security.py:239-244 | One run stays within its token and step limits up to the single event that trips them. |
| ScanLaws.SharedCeilings | agent/security.py:470-487 | Over a scan, billable tokens are at most the ceiling plus one per retry plus what the one tripping event added, and steps at most their ceiling plus one per attempt. |
| ScanLaws.CeilingsAreUsedUp | agent/security.py:473-478 | A retry gets all that is left: a scan ends at the token or step ceiling only once its whole run has gone over it. |
| ScanLaws.SlackIsReached | agent/security.py:473-478 | For every configuration and number of attempts the token slack is really reached. |
| ScanLaws.StepSlackIsReached | agent/security.py:473-478 | So is the step slack: n attempts can take their ceiling plus n steps. |
| ScanLaws.CacheReadsAreNotCapped | agent/security.py:235-244 | No ceiling limits cache reads: any delivered message can come with any number of them, and above the endpoint's bound the run that is posted is refused. |
| ScanLaws.SharedSeconds | agent/security.py:475-481 | Over a scan the seconds are at most their limit plus one per retry plus what the runs outlasted their own share. |
| ScanLaws.SecondsAreUsedUp | agent/security.py:475-481 | A scan ends at the wall clock only if its last run was still going or read an event after the scan's seconds were over. |
| ScanLaws.SecondsAddUp | agent/security.py:480-481 | The clock is never reset: the seconds of a scan are those of all runs it has made. |
| ScanLaws.EventsInTime | agent/security.py:245-247 | Every event a run reads but one that trips a ceiling comes within the run's seconds. |
| ScanLaws.SilenceIsNotTimed | agent/security.py:210-254 | For every time t, a run that is silent so long and then exits trips no ceiling. |
| ScanLaws.FoldConcat | agent/security.py:152-161 | Folding usage, texts and tool calls is a homomorphism: where a stream is split does not matter. |
| ScanLaws.FoldOfOne | agent/security.py:152-161 | A finished step counts its own six figures and one step; any other event counts nothing. |
| ScanLaws.TotalsAreOneFold | agent/security.py:480-514 | What a scan reports, usage and tool calls, is one fold over all events read, across attempts. |
| ScanLaws.CacheFieldsDoNotMatter | agent/security.py:155-161 | Without `total`, cache and cost fields every attempt, ceiling, verdict and reported token is the same. |
| AgentMain.ExitCodeOf | agent/errors.py:8-27 | The exit-code table: each code stands for exactly its outcomes, so a refusal is never read as clean. |
| AgentMain.Exit | agent/__main__.py:187-208 | After a result: 0 or 1 by the gate exactly when nothing was to be posted or it arrived, else the configuration code. |
| AgentMain.RunAgent | agent/__main__.py:130-208 | 0 exactly for a pass gate, and 1 exactly for a failed gate, of the chosen task whose requested POST succeeded; a scan that did not complete and a review that raised keep their own code; 4 when the task cannot start. |
| TokenBudget.LlmUsage.Add | app/llm_budget.py:59-77 | The statement's new table and returned total: one hour moves by the delta, floored at zero. |
| TokenBudget.LlmUsage.ReserveTokens | app/llm_budget.py:80-93 | A call is admitted exactly if its estimate fits beside the tally it meets; one that is not is taken back, with anything the other replicas do in between, and the state stays one the interleaved statements lead to. |
| TokenBudget.LlmUsage.Reconcile | app/llm_budget.py:96-98 | For every reservation the hour moves by actual minus estimate, floored; on a held one this settles exactly that call. |
| TokenBudget.LlmUsage.Release | app/llm_budget.py:101-103 | For every reservation the hour moves by minus the estimate, floored; on a held one this releases exactly that call. |
| TokenBudget.Conservation | app/llm_budget.py:59-103 | After every interleaving each hour's tally is its start plus the estimates held or not yet taken back plus the settled actuals. |
| TokenBudget.FloorNeverBinds | app/llm_budget.py:62-71 | In every reachable state the statement that settles a pending call applies its delta in full. |
| TokenBudget.CapHolds | app/llm_budget.py:80-103 | In every reachable state, admitted estimates plus settled actuals exceed the cap (or the start) by at most the settled calls' overruns of their own estimates. |
| TokenBudget.CapIsHardWithoutOverruns | app/llm_budget.py:80-103 | With no overruns they never exceed the cap. |
| TokenBudget.AdmittedExactly | app/llm_budget.py:83-93 | In every reachable state a call is admitted if and only if the start of its hour, everything held, settled or waiting to be taken back, and its own estimate fit the cap together. |
| TokenBudget.TurnedAwayExactly | app/llm_budget.py:83-93 | A call that fits beside the work of the hour is turned away if and only if the rejected estimates not yet taken back leave it no room. |
| TokenBudget.TallySplits | app/llm_budget.py:59-103 | In every reachable state and for any set of calls, an hour's tally is its start, their share and the share of all others. |
| TokenBudget.PendingRejectionCrowdsOut | app/llm_budget.py:86-92 | Two requests of which the second fits and is turned away. |
| Llm.ApproxTokens | app/llm/base.py:31-36 | Four times the estimate is within three of the length, and it is zero only for the empty text. |
| Llm.Estimate | app/ingest/service.py:85-87 | A reservation is the whole output budget and both prompts at four characters a token, to six characters. |
| ChatTurn.CappedClient.Complete | app/chat/pipeline.py:73-85 | Reserve, call, settle, with the other replicas running at every gap: one reservation is made and ends settled to the response's tokens, released on a raise, or taken back over the cap, where nothing is sent; nothing else of the caller's changes. |
| ChatTurn.GateAndRun | app/chat/retrieve.py:87-116 | What one attempt comes to, and which statement it sends to the database, given what the model said. |
| ChatTurn.RetrieveCatalog | app/chat/retrieve.py:45-127 | The retry loop returns the result its answers determine, stops exactly when it should, sends each later attempt the failed query and error, and keeps every reservation accounted for on every exit. |
| ChatTurn.AnswerQuestion | app/chat/pipeline.py:157-267 | On every exit (answer, refusal, failed retrieval, cap, provider error) and whatever the other replicas do meanwhile: each call made one reservation, all have ended, the tally is the start, the others' share and the tokens of the recorded responses, at most one call more than the attempt budget is made, one observation carries those tokens, a reply says what was found, and the prompts sent are those of the attempts and, after a retrieval that worked, one that hands over its rows. |
| ChatTurn.WordsDecide | app/chat/generate.py:72-81 | An attempt refuses exactly if the cleaned text begins with CANNOT_ANSWER and asks for no catalog exactly if it begins with NO_QUERY, in any case; anything else goes through the gate, and only what the gate returns is run. |
| ChatTurn.RetrievalTells | app/chat/retrieve.py:90-127 | The retrieval reports what its last attempt met: the database's rows for the gated SQL, the gate's reason, or the last error with the number of attempts. |
| ChatTurn.RetriesTellWhatFailed | app/chat/retrieve.py:54-107 | The first prompt has no context; each later one is told the gated statement that failed just before it and the database's words. |
| ChatTurn.OnlyGatedSqlRuns | app/chat/retrieve.py:93-104 | No SQL runs that the gate did not return when asked about the cleaned text of one attempt, which began with neither token. |
| ChatTurn.RefusalIsFinal | app/chat/pipeline.py:198-199 | A turn is refused exactly if the model's last answer began with CANNOT_ANSWER and no answer call followed, and a refusal runs no SQL and leaves no trace. |
| ChatTurn.AnsweredExactly | app/chat/pipeline.py:198-217 | An answer call is made exactly if the last attempt began with NO_QUERY or the gate passed it and the database returned rows, after database errors only. |
| ChatTurn.GivesUpExactly | app/chat/retrieve.py:118-127 | Retrieval gives up exactly when one attempt more than the retries allowed (if that is positive) all ran into database errors. |
| ChatTurn.ReportsWhatRan | app/chat/retrieve.py:102-127 | The SQL reported, unless blocked, is the last statement that ran, and every attempt but a last one that asked for none ran exactly one. |
| ChatTurn.SpentIsReported | app/chat/pipeline.py:233-234 | Within one clock hour the turn's share of the tally is exactly the tokens it reports. |
| Ingest.LineEndingsDoNotMatter | app/ingest/service.py:49-52 | Copies of a source with LF, CRLF or CR line ends have one content key. |
| Ingest.KeysAreNormal | app/ingest/service.py:49-52 | Every key is stripped and free of carriage returns, and is its own key. |
| Ingest.NormalTextsStay | app/ingest/service.py:49-52 | Such a text is its own key, so no two of them share one. |
| Ingest.Ingestion.IngestSource | app/ingest/service.py:55-195 | A known source is skipped and touches nothing; otherwise one reservation is made and has ended as its call did on every exit, whatever the other replicas do, and after an answer the catalog, the source record and the result are those of the rows up to the first conflict, or untouched when the bytes cannot be stored. |
| Ingest.Ingestion.UpsertAll | app/ingest/service.py:183-185 | The loop of upserts equals its specification and keeps the one-group rule. |
| Ingest.RowsNameTheirSource | app/ingest/service.py:183-185 | After a complete ingest every row's identity is stored and names the source. |
| Ingest.WritesLikeTheLoader | app/ingest/service.py:180-183 | But for provenance links an ingest writes what the seed loader would, and stops at the same row. |
| Ingest.LandingTells | app/ingest/service.py:165-195 | What the caller is told: an exception exactly if the bytes were not stored or a row conflicted, else every row, every rejected one and the answer's own tokens; no other source is touched. |
| Ingest.KnownExactly | app/ingest/service.py:167-185 | A source becomes known exactly if it has no rows or its first row is accepted, not only when all its rows landed, and then as ingested, or as invalid when it has none. |
| Ingest.SecondRowIsLost | app/ingest/service.py:180-185 | Two rows giving one task type two benchmarks leave a known source with a missing row. |
| IngestRace.OneRowPerSource | app/ingest/service.py:74-185 | Over every interleaving of ingests a source has at most one row, known means exactly one racer recorded it, and whoever is told it is there is told the truth; those turned away at the start have paid nothing. |
| IngestRace.KnownSourceIsFree | app/ingest/service.py:74-79 | Over every interleaving, an ingest that has not looked yet when its source is known is skipped and never pays. |
| IngestRace.BothPay | app/ingest/service.py:74-133 | Two ingests of one new source that both look first both pay, and one ends as a duplicate. |
| TokenBucket.AuthRateBucket.Attempt | app/auth/admission.py:43-57 | One upsert of the bucket row: who is admitted and what the row becomes; a rejected attempt writes nothing. |
| TokenBucket.LevelIsTightestWindow | app/auth/admission.py:47-53 | The bucket holds exactly what the tightest window of past requests leaves. |
| TokenBucket.WindowBound | app/auth/admission.py:47-53 | On a nondecreasing clock, admissions in any window are at most burst plus rate times its length. |
| TokenBucket.AnyClockBound | app/auth/admission.py:47-53 | For clocks that disagree or are set back, admissions are at most burst plus rate times all forward movement of the clock. |
| TokenBucket.ClockDrainsNothing | app/auth/admission.py:50-51 | Whatever the clock does, the level never falls below zero. |
| TokenBucket.AdmitsExactlyTheConforming | app/auth/admission.py:47-53 | A request is admitted exactly if every window ending with it stays within that bound. |
| TokenBucket.LazyIsEager | app/auth/admission.py:43-53 | Writing nothing on a rejection makes the same decisions as refilling at every request. |
| Registration.Always | app/auth/admission.py:22-36 | The invariant of both writers under the lock: who holds it, what each transaction knows, and that every new account was made by a committed sign-up. |
| Registration.RegistrationIsSafe | app/auth/admission.py:22-36 | Over every interleaving the accounts never outnumber the larger of the cap and the start, emails stay unique ignoring case, and a subject has one account. |
| Registration.AccountsNeverChange | app/auth/google.py:96-118 | No later step changes an account: a returning sign-in changes nothing and no subject is attached to a password account. |
| Registration.EndingsAreTrue | app/auth/admission.py:22-36 | A created account is the caller's own row, a sign-in returns its own subject's account, a collision means the address is taken, a refusal that the table is full or a password's address taken, and whoever has ended holds no lock. |
| Registration.UninterruptedSignUp | app/auth/google.py:96-118 | Run without interruption, the statements of either writer sign a known subject in, collide or refuse on a taken address, refuse at the cap, and otherwise add exactly one account; the lock is free again. |
| Registration.BackstopsUnused | app/auth/google.py:105-111 | Under the lock the unique constraints are never what stops an insert. |
| Registration.Accounts.RegisterUser | app/auth/service.py:23-48 | Password sign-up run alone: taken address, full, or one new row. |
| Registration.Accounts.AuthenticateGoogle | app/auth/google.py:86-118 | Google sign-in run alone: replay refused, returning, collision (which spends the challenge), full (which does not), or one new lower-case row. |
| Challenge.AcceptedTwiceExactly | app/auth/google.py:76-94 | Over every interleaving of the statements, a challenge succeeds twice if and only if some insert of it, after it was accepted, ran when its record had been deleted (by a commit before it or by its own deletion) and was committed. |
| Challenge.ValidatedInTime | app/auth/google.py:74-85 | Over every interleaving, each attempt, accepted ones included, was validated before its challenge expired. |
| Challenge.ReplaysAreReal | app/auth/google.py:88-94 | Over every interleaving, nobody is told that a challenge is used unless somebody has signed in with it. |
| Challenge.ReopenedAfterExpiry | app/auth/google.py:86-94 | Such an insert runs only after some transaction has started past the expiry. |
| Challenge.SingleUse | app/auth/google.py:74-94 | So when every insert runs before any transaction has started past its challenge's expiry, each challenge succeeds at most once, although expired nonces are deleted. |
| Challenge.LateInsertConsumesTwice | app/auth/google.py:88-94 | For every moment past the expiry: an attempt validated and started in time is accepted a second time when another sign-in deletes the record between its deletion and its insert. |
| Challenge.LateStartConsumesTwice | app/auth/google.py:76-94 | Validated in time but started after the expiry, an attempt deletes the record itself and is accepted a second time. |
| QualityGate.GateMeaning | app/quality/service.py:49-72 | The gate passes exactly if the accepted verdicts reach the threshold's share of the rated ones, and is undefined exactly if none is rated. |
| QualityGate.GateIgnoresOrder | app/quality/service.py:49-72 | The gate depends only on which verdicts there are. |
| QualityGate.UpsertMeaning | app/quality/service.py:123-134 | The upsert keeps one verdict per (finding, user), replaces the caller's own and touches no other. |
| QualityGate.Always | app/quality/service.py:105-139 | Under the row lock every interleaving keeps reads current, gates true and verdicts single. |
| QualityGate.GateAgrees | app/quality/service.py:105-139 | In every committed state each run's stored gate is the one its committed verdicts give, and NULL exactly when nothing is rated. |
| QualityGate.GateCounts | app/quality/service.py:49-139 | Counted on the committed rows: the gate has passed exactly if the run is rated and its accepting rows reach the threshold's share of its rows. |
| QualityGate.UninterruptedFeedback | app/quality/service.py:105-139 | Run without interruption, the statements store the verdict, recompute the gate from all the run's verdicts and free the lock. |
| QualityGate.LatestWins | app/quality/service.py:118-139 | A commit puts the caller's verdict on record and leaves everybody else's. |
| QualityGate.FeedbackStore.SubmitFeedback | app/quality/service.py:88-147 | One request: the new rows, the run's gate and the reported rate. |
| QualityGate.StaleWithoutLock | app/quality/service.py:105-114 | Without the lock the same statements leave a passing gate on a run whose verdicts fail it. |
| Catalog.StoredPricesBlend | app/catalog/service.py:53-66 | The stored ranking price is the 3:1 blend of the stored split prices to half a micro-dollar if and only if a row brings both, or neither, or one that (nearly) equals its own blended figure; with both that figure is ignored. |
| Catalog.WriteKeepsOneGroupExactly | app/catalog/service.py:122-209 | A write keeps one (benchmark, metric) pair per task type if and only if its row does not conflict at that moment. |
| Catalog.LoadKeepsOneGroup | app/catalog/seed.py:45-58 | Every load keeps the rule, whether or not it ran to its end. |
| Catalog.CatalogStore.AssertTaskOwnsOneGroup | app/catalog/service.py:122-142 | The one-row check answers for the whole table. |
| Catalog.CatalogStore.UpsertCatalogRow | app/catalog/service.py:145-209 | The whole store after an upsert, or unchanged after a conflict, with the rule kept. |
| Catalog.WrittenAsGiven | app/catalog/service.py:157-209 | One write stores the row's own figures under its natural key; the cost of the result is the ranking price its model gets; a split price left out is filled in with the row's cost; a new benchmark is the row's and a model's data policy stays. |
| Catalog.OthersAreKept | app/catalog/service.py:145-209 | It changes no other model, benchmark or result. |
| Catalog.CatalogStore.LoadSeed | app/catalog/seed.py:45-58 | The loader's loop equals its specification, stopping at the first conflict. |
| Catalog.LoadedAsGiven | app/catalog/seed.py:45-58 | After a clean load each identity holds the score, window, source and date of the last row under it, and the last row of a model has given it the price its result is ranked by. |
| Catalog.LoadKeepsProvenance | app/catalog/seed.py:45-58 | A whole load keeps every provenance link and every benchmark's task type. |
| Catalog.WritingAgainChangesNothing | app/catalog/seed.py:45-58 | Writing a list twice is writing it once, in every cell of the store. |
| Catalog.ReplaysExactly | app/catalog/seed.py:45-58 | Once loaded, a list can be loaded again with no error and no change if and only if no row meets the last word of a later one on its task type in another group. |
| Catalog.SteadyIdentitiesReplay | app/catalog/seed.py:45-58 | A list in which no identity changes its task type can always be replayed. |
| Catalog.RetaskedRowBreaksReplay | app/catalog/seed.py:45-58 | Three rows that load once and not twice. |
| Catalog.RuleSurvives | app/catalog/service.py:145-209 | With checks and writes of many writers interleaved, the rule survives when no row is committed between the check and the write of a row it clashes with. |
| Catalog.OvertakenBreaksTheRule | app/catalog/service.py:145-209 | The first writer to be overtaken so breaks the rule by writing next. |
| Catalog.ChecksAloneDoNotSerialize | app/catalog/service.py:122-155 | Two clashing writers that both pass the check before either writes break the rule. |
| Ranking.ScoreAndRank | app/recommend/scoring.py:92-153 | The loop, the in-place sort and the numbering give the specified ranking or error. |
| Ranking.RankScoreIsTheBlend | app/recommend/scoring.py:116-131 | For every weight from 0 to 1 the rank score is the blend of the published figures, quality by the weight and one less the cost share by the rest, to one millionth. |
| Ranking.RankedFigures | app/recommend/scoring.py:110-131 | Every ranked row publishes its share of the best score and of the highest cost to half a millionth (zero where the top is not positive), and their blend. |
| Ranking.RanksOneGroupOnly | app/recommend/scoring.py:105-108 | Rows are ranked if and only if they share benchmark and metric; otherwise the error lists each pair there is, once and in order. |
| Ranking.ArrivalOrderIsIgnored | app/recommend/scoring.py:92-153 | With distinct keys every permutation of the rows gives the same ranking, scores and error. |
| Ranking.RanksAreCounted | app/recommend/scoring.py:138-152 | Ranks are exactly 1 to n over a permutation of the rows. |
| Ranking.CheaperAndNoWorseIsAhead | app/recommend/scoring.py:116-137 | A strictly cheaper row that scores no lower sorts ahead even after rounding; at weight zero the score does not matter. |
| Ranking.RanksFollowTheKey | app/recommend/scoring.py:135-152 | In every ranking with distinct keys a row comes first exactly when its sort key is ahead. |
| Ordering.TextBeforeMeaning | app/recommend/scoring.py:135-137 | Model names are compared by code points: a proper prefix first, else by the first difference. |
| Ranking.DominantRanksFirst | app/recommend/scoring.py:135-152 | So a strictly cheaper row that scores no lower gets the smaller rank. |
| Ranking.ExtremeWeights | app/recommend/scoring.py:116-130 | At weight one the rank score is the published quality, at weight zero one less the published cost share, to the last place. |
| Ranking.HigherScoreIsAheadExactly | app/recommend/scoring.py:116-137 | At equal cost a higher score is ahead if and only if rounding keeps the two rank scores apart or the model name and key favour it. |
| Ranking.ScoreGapShows | app/recommend/scoring.py:116-137 | A weighted score gap of more than 0.000001 always shows. |
| Ranking.ScoreGapCanRoundAway | app/recommend/scoring.py:119-137 | A gap of exactly 0.000001 need not: 0.0005 can rank behind 0.0003. |
| Ranking.PickBaseline | app/recommend/service.py:239-249 | The baseline is a ranked row: the lowest id of the configured model exactly if there is one, else the lowest id among the dearest. |
| Ranking.BaselineIgnoresOrder | app/recommend/service.py:239-249 | The baseline depends on the rows and not on their order. |
| Savings.SavingsConserve | app/savings/service.py:51-83 | Actual plus savings is the baseline exactly, each cost within half a micro-dollar of the exact one and the saving within one. |
| Savings.PriceUnits | app/savings/service.py:51-83 | A price is what a million tokens of its kind cost, costs before rounding add up over tokens, and there are figures exactly when both models are priced. |
| Rounding.TiesGoAwayFromZero | app/savings/service.py:46-48 | Money rounds half-up: the whole number whose half-way points enclose the fraction, the lower one included, mirrored below zero. |
| Savings.SavingsFollowPrices | app/savings/service.py:60-83 | A selected model dearer in neither price never shows a loss, and swapping the models turns the saving around. |
| Savings.TotalsStayNear | app/savings/aggregate.py:62-64 | A total over n runs, rounded run by run, is at most n half micro-dollars off. |
| Savings.HonestCumulativeSavings | app/savings/service.py:103-137 | The accumulating loop gives the sums and counts by verdict. |
| Savings.RunsArePartitioned | app/savings/service.py:122-129 | Each run is in exactly one count, and no saving is lost or counted twice. |
| Savings.CountsAreOfRuns | app/savings/service.py:122-129 | The three counts are the numbers of runs that passed, failed and have no gate. |
| Savings.HeadlineIgnoresOrder | app/savings/service.py:103-137 | The totals do not depend on run order. |
| Savings.DashboardIgnoresOrder | app/savings/aggregate.py:78-192 | With distinct ids the whole dashboard is the same for every order of the rows. |
| Savings.HeadlineIsTheGap | app/savings/aggregate.py:96-111 | The headline is banked baseline minus banked actual, and spend plus savings of all three kinds is the whole baseline. |
| Savings.SavedPctMeaning | app/savings/aggregate.py:101-109 | The percentage exists exactly for a positive banked baseline, is the headline's share of it, and reaches 100 exactly if the banked runs cost nothing or less. |
| Savings.ProjectionMeaning | app/savings/aggregate.py:67-75 | A projection exists exactly from a day of history on and is the thirty-day figure to half a micro-dollar. |
| Savings.ProjectedFigures | app/savings/aggregate.py:89-134 | What is projected is the spend and the banked savings over the time since the earliest run; the rows are all the runs, earliest first. |
| Savings.StatusMeaning | app/savings/aggregate.py:113-121 | The rate is over every verdict of every run; the status is unrated exactly with no verdict and banking exactly from the threshold on. |

## Left out

- ChatTurn.RetrieveCatalog: output cleaning, prompts, the SQL gate's syntax tree and the database are functions of the turn; an execution error that is not a database error is not modelled.
- Ingest.Ingestion.IngestSource: the other replicas share the tally but not the source table and the catalog; IngestRace has many ingests on the source table, without their rows and with each call's settling taken from here. The hash is taken to be collision-free and output validation is a parameter.
- Catalog.CatalogStore.UpsertCatalogRow: one writer at a time (Catalog.RuleSurvives has many); rows are held under natural keys, generated ids are not modelled, and the check assumes the rule it keeps.
- Catalog.CatalogStore.LoadSeed: the runtime-config entries of the seed file are not modelled.
- Challenge.SingleUse: token signatures and the verification of Google's credential are taken as given; statements run at the READ COMMITTED level, and the sign-in itself is in Registration.
- Registration.RegistrationIsSafe: creating example projects for a new account and the demo-seed generator are not modelled.
- AgentMain.RunAgent: the review task's own run (code fences, its findings parser, prompts) is an input with the exit code it ends in.
- SecurityScan.RunSecurity: processes, signals and clocks are inputs: each attempt is an event list with elapsed times, token fields are naturals; the count of files read and the log lines are left out.
- Extraction.ExtractResults: JSON parsing and the fence expression are parameters.
- Findings.EmittedRunAccepted: what the route checks besides the body, and the blank-CWE rule that rewrites a field, are not modelled.
- TokenBucket.WindowBound: rates are exact and each statement reads the clock once.
- Ranking.ScoreAndRank: division is exact, without the 28-digit decimal context.
- Savings.HeadlineIsTheGap: percentages and rates are exact fractions instead of floats; the wiring that loads rows is not modelled.
- Stripping, upper and lower case are those of ASCII text.
- HTTP routes, password hashing, signing keys, provider adapters, migrations, configuration loading and metrics: declarative or library-defined.
- Persisting recommendation options and evidence, the chat opener and prompt texts: record building with no deep property.
