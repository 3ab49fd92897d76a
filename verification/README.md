# Verified model of the classroom-simulation and criteria services

This project models the parts of the teaching-assistant server where several requests, the language model, the cloud
store and the database meet, and proves what those parts keep in every run. It is written in Dafny 4.11;
`dafny verify dfyconfig.toml` checks all of it.

## What is modelled

**The classroom simulation.** A session is a row (running or finished, a scene index) and an utterance log. The requests
enter, say, advance, finish and regenerate read a snapshot, may then wait for the language model with no lock held, and
at last take the write lock, check again and commit. `SessionProtocol` makes each request two atomic steps, keeps what
it read in a pending call, lets calls interleave and die freely and lets the model answer anything. `SessionGrammar` is
the language of logs as an automaton; `SessionInvariant` is the invariant every step keeps; `SessionTheorems`,
`SessionScores`, `SessionSticky` and `SessionRegenerate` hold the statements about all runs and `SessionRuns` the runs
that break a promise. `SessionCommits` says what each commit achieves for its caller. `SessionStore` is the service on
its stored fields: each commit does what the protocol's step says and what `SessionCommits` promises, and `Serve` runs
any acts from a fresh session and ends where the protocol does. `Reaction` holds one reaction: the
schema's validators, echo detection by longest common block and the settling of the understanding score. `Agreement` is
the agreement loop.

**The evaluation criteria.** Cloud documents, a set of alias-map documents and a local table must agree. `AliasMaps` is
the alias-map store with its clean-up and its upload-then-delete replacement; `Criteria` says what agreement is and what
a reconcile and each mutation make of it; `CriteriaAdmin` holds the endpoints and the reconcile as methods in which any
cloud call or commit may take effect or not and then return or raise (a nondeterministic `if *`), and `Serve`, the loop
over any list of requests.

**Smaller cores.** `PromptFile` prints and reads the prompt file and keeps the loader's cache in step with it.
`Sanitizer` is the report sanitizer with the emoji scanner. `Feedback` is the race of callers for one report.
`ExportNaming` and `ExportPlan` name the files of an archive, collect lesson plans from three sources and note digests.
`PersonaPool` is the sampler. `Text`, `Transcript` and `Wrappers` are shared.

## How to read it

- Four Korean regular expressions (`STUCK_SUMMARY`, `_stuck_only`, the filler and the separator pattern) are
  uninterpreted functions, given as `TextRules`; nothing is assumed of them but, in `SessionRuns.OverlapUndoes`,
  that the filler pattern leaves the empty text empty. The echo judgement is one of the fields of
  `TextRules`; `JudgesEchoes` ties it to `Reaction.Echoes`, `JudgedJudges` shows that this excludes no expressions, and
  every bound on scores holds for any judgement. The sanitizer is proved for any label patterns that match only quoted
  lines; `SourceLabels` are the two of the source.
- A regenerate assigns five columns of a loaded row. A column set to the value it was loaded with may or may not be sent
  to the database, so each commit carries a flag `sends`, and everything holds for both values unless a lemma names one.
- In `Criteria` and `CriteriaAdmin` agreement is on stable id, document id, status and alias. Randomness and the cloud
  are trusted for ids nobody has used (`FreshIds`), the clock strictly increases, and one process holds the mutation lock.
  A `rollback` before `needs_resync` is marked is taken to succeed along with the marking.
- Where the source's promise is false of the code the exact condition is stated as an if-and-only-if, and a run or input
  that breaks the promise is given as a lemma of its own. Both are named below.

## Results where the code and its promise part

- Agreement in a scene is kept by every commit but a regenerate, and by a regenerate exactly when the row it overwrites
  is not by then the student's only agreeing row (`SessionSticky.RegenerateKeepsAgreement`); the service does not check
  that row again under the lock. Two overlapping regenerates of one student can take an agreement back
  (`SessionRuns.OverlapUndoes`).
- A regenerate rebuilds the transcript of the original call exactly when no other request added rows to the scene between
  the snapshot of that call and its commit (`SessionRegenerate.RebuiltMatches`, `SessionRuns.SharedRebuildsMore`).
- The rise cap of 20 needs a previous score: an answer is stored as the model gave it exactly while no row of the student
  has parsed (`SessionScores.UncappedExactly`), so one answer after a failed entry reaction can reach 100 and agree
  (`SessionRuns.FailedEntryLeaps`).
- A reconcile that succeeds leaves the three stores in agreement exactly when no two cloud documents share a stable id
  (`Criteria.ReconcileNeedsDistinct`, `Criteria.TwinsLoseOne`).
- A prompt file reads back as saved, for plain prompts, exactly when no content holds a separator and none but the last
  ends in `---` (`PromptFile.RoundTrip`, `PromptFile.MapRoundTrip`, `PromptFile.RuleLost`); the last one may.
- The sanitized report gives the scanner no findings when it is split at `\n`. The scanner's command line uses
  `splitlines`, and there it gives findings exactly when a citation line holds an emoji behind another line separator
  (`Sanitizer.OutputFine`, `Sanitizer.SeparatorInCitation`).

## Model

| member | source | states |
|---|---|---|
| Reaction.ValidatedScore | app/services/simulation/llm_schemas.py:83-101 | the validated score is in 0..100, and below 80 with a misconception |
| Reaction.ScoreIsNearest | app/services/simulation/llm_schemas.py:83-101 | no allowed score is nearer to what the model said |
| Reaction.StudentReaction.constructor | app/services/simulation/llm_schemas.py:72-87 | building the object clamps the score |
| Reaction.StudentReaction.CapWithMisconception | app/services/simulation/llm_schemas.py:89-101 | the in-place validator leaves what the value-level specification says: cap judged on the raw misconception, text emptied when only stuck |
| Reaction.Parse | app/services/simulation/llm_schemas.py:72-101 | running both validators gives the specified record |
| Reaction.TailIsLongest | app/services/simulation/session_service.py:396-413 | the table entry of the longest-match computation is the longest block ending there |
| Reaction.LongestCommonBlock | app/services/simulation/session_service.py:408-412 | the result is the length of some common contiguous block and no common block is longer |
| Reaction.FindAllFinds | app/services/simulation/session_service.py:375-384 | in every text the search for one mark finds quotations one behind the other, each to its first closing mark, and none opens outside of them |
| Reaction.FindsOnce | app/services/simulation/session_service.py:375-384 | no other list of matches is like that |
| Reaction.QuotationFound | app/services/simulation/session_service.py:375-384 | a quotation in any of the four marks is found unless an earlier one reaches into it |
| Reaction.DetectQuotedEcho | app/services/simulation/session_service.py:396-414 | yes exactly when some span, quoted in one of the four marks by the declarative meaning of a match, has a core of at least 10, shares a block of at least 10 with the utterance and at most 5 characters remain |
| Reaction.WholeSpanIsEcho | app/services/simulation/session_service.py:396-402 | an utterance that contains a whole long span with a tail of at most 5 is an echo |
| Reaction.DetectEcho | app/services/simulation/session_service.py:440-461 | the four alternatives of the echo test together |
| Reaction.RepeatIsEcho | app/services/simulation/session_service.py:448-453 | saying one's own last words again is an echo |
| Reaction.PartOfQuestionIsEcho | app/services/simulation/session_service.py:442-444 | so is saying any part of the question of ten characters or more |
| Reaction.ShortIsNoEcho | app/services/simulation/session_service.py:440-461 | fewer than ten characters are none unless the artifact is the old one |
| Reaction.JudgedJudges | app/services/simulation/session_service.py:440-461 | whatever the expressions are, there are rules that carry the source's echo judgement of them |
| Reaction.Settle | app/services/simulation/session_service.py:430-471 | the step-by-step rewriting of the score equals the lowest ceiling that applies |
| Reaction.SettledIs | app/services/simulation/session_service.py:430-471 | the settled score is the one given, or the one held, lowered to no less than the ceilings ask for |
| Reaction.StudentUtterance | app/services/simulation/session_service.py:417-487 | the row's structured part and words for a parsed and an unparsed reply |
| Reaction.SettledRowBounds | app/services/simulation/session_service.py:430-471 | any reply stores a score in range, at most 20 above the previous, below 80 on a first reaction, no rise on an echo |
| Reaction.OffTaskHolds | app/services/simulation/session_service.py:432-439 | an off-task reaction without misconception leaves the score exactly where it was |
| Agreement.ScanRows | app/services/simulation/agreement.py:25-36 | the first loop finds the last valid row of each student and the students with an agreeing row |
| Agreement.ComputeAgreement | app/services/simulation/agreement.py:25-50 | the verdict is its declarative meaning: agreed in seat order, bar values, all agreed |
| Agreement.AllAgreedMeaning | app/services/simulation/agreement.py:37-50 | the gate opens exactly when every seated student has an agreeing row |
| Agreement.AgreedSplits | app/services/simulation/agreement.py:19-43 | the agreed seats are, in seat order, those with a row at 80 or, without a score, ready and without misconception |
| Agreement.BarShows | app/services/simulation/agreement.py:37-41 | a bar shows the score of the last reaction of the scene that parsed |
| Agreement.AgreementSticky | app/services/simulation/agreement.py:1-13 | rows appended later never undo an agreement |
| Agreement.AgreementLocal | app/services/simulation/agreement.py:25-36 | only the rows of the scene matter |
| SessionGrammar.PositionShape | app/services/simulation/session_service.py:499-868 | what students answered does not change where a log stands |
| SessionGrammar.EnterRead | app/services/simulation/session_service.py:531-553 | the entry block takes a fresh scene to an entered one |
| SessionGrammar.SayRead | app/services/simulation/session_service.py:697-718 | a say block is read in an entered scene and leaves it entered and asked |
| SessionGrammar.LeaveRead | app/services/simulation/session_service.py:741-785 | the transition rows take the log to the next scene or to its end |
| SessionGrammar.PositionDescribes | app/services/simulation/session_service.py:499-868 | what every position says about the rows read so far: which scenes have rows, who was heard, whether somebody was asked |
| SessionInvariant.EnterKeeps | app/services/simulation/session_service.py:520-553 | the second half of enter keeps the invariant |
| SessionInvariant.SayKeeps | app/services/simulation/session_service.py:697-721 | the second half of say keeps it, on any old snapshot |
| SessionInvariant.AdvanceKeeps | app/services/simulation/session_service.py:741-785 | advance keeps it |
| SessionInvariant.FinishKeeps | app/services/simulation/session_service.py:788-799 | finish keeps it |
| SessionInvariant.RegenerateKeeps | app/services/simulation/session_service.py:815-868 | the in-place rewrite keeps it, overlapping or not |
| SessionInvariant.GateMeans | app/services/simulation/session_service.py:741-749 | an open gate means that every student agreed in this scene and that the user has asked in it |
| SessionInvariant.StepKeeps | app/services/simulation/session_service.py:499-868 | one step of any request keeps the invariant and only grows the log |
| SessionInvariant.Reachable | app/services/simulation/session_service.py:63-868 | every world any run reaches satisfies the invariant |
| SessionInvariant.WaitingCanCommit | app/services/simulation/session_service.py:499-868 | in every reachable world every waiting call can commit, whatever the model answered: no guard of the model stands in its way |
| SessionInvariant.WaitingIsScored | app/services/simulation/session_service.py:244-253 | and every previous score it measures against is in range |
| SessionInvariant.StaleWritesNothing | app/services/simulation/session_service.py:626-650 | a commit that finds the session finished or in another scene writes nothing and is told which; one that writes has found neither |
| SessionCommits.EnterMeans | app/services/simulation/session_service.py:520-562 | after an enter the scene holds its enter row, the planned question and one answer per seat, made of the reply to that seat; entering again changes nothing |
| SessionCommits.SayMeans | app/services/simulation/session_service.py:697-721 | one user turn more, within the limit, followed by one answer per responder in seat order, each made of the reply to that student and settled against that student's own last parsed reaction among the rows read; nothing before it touched |
| SessionCommits.AdvanceMeans | app/services/simulation/session_service.py:741-785 | one transition more, written as agreement or skip as it was asked for, to the next scene or with the end row behind the last; by agreement only when everybody agreed and the user has asked |
| SessionCommits.GateRefuses | app/services/simulation/session_service.py:741-749 | the gate refuses exactly an agreement that some student of the current scene withholds |
| SessionCommits.FinishMeans | app/services/simulation/session_service.py:788-799 | the session is over in its scene, the end row of the button the only row added |
| SessionCommits.RegenerateMeans | app/services/simulation/session_service.py:833-868 | at most the loaded row is another: it shows the answer made of the new reply, judged against the student's earlier rows and the question heading its block, as far as changed columns are sent |
| SessionCommits.ReadMeans | app/services/simulation/session_service.py:499-520 | a request waits exactly with the call that fits the running session's current scene and holds what it said; entering an entered scene is answered at once |
| SessionCommits.RespondersAre | app/services/simulation/session_service.py:687 | everybody answers in seat order, or the one who was asked |
| Transcript.LastValidIs | app/services/simulation/session_service.py:244-253 | the last reaction that parsed, declaratively |
| SessionTheorems.LogIsWord | app/services/simulation/session_service.py:499-868 | in every interleaving the log is numbered 1..n, is a word of the grammar with no block half written, and stands where the session row says; a running scene has a row exactly when it was entered |
| SessionTheorems.ScenesInOrder | app/services/simulation/session_service.py:741-785 | scenes come in index order |
| SessionTheorems.EnteredOnce | app/services/simulation/session_service.py:499-562 | no scene is entered twice |
| SessionTheorems.EntryBlock | app/services/simulation/session_service.py:531-553 | an enter row is followed by the planned question and one answer per seat in seat order |
| SessionTheorems.SayBlock | app/services/simulation/session_service.py:653-721 | a user turn comes after its scene's entry block and is followed by the responders in seat order |
| SessionTheorems.TransitionCloses | app/services/simulation/session_service.py:741-785 | after a transition comes a later scene or the end row at once |
| SessionTheorems.EndIsLast | app/services/simulation/session_service.py:735-799 | nothing follows an end row |
| SessionTheorems.AgreementWasEarned | app/services/simulation/session_service.py:741-760 | a transition by agreement has before it, in its scene, an agreeing reaction of every student and a user turn |
| SessionTheorems.AgreementsCounted | app/services/simulation/session_service.py:741-760 | agreements never outnumber user turns, one fewer while an asked scene is open |
| SessionTheorems.TurnsBounded | app/services/simulation/session_service.py:667-700 | agreements ≤ user turns ≤ the limit, under any number of overlapping says |
| SessionTheorems.StoredScores | app/services/simulation/session_service.py:430-471 | every stored score is in range, at most 79 with a misconception and in a first reaction, regenerated or not |
| SessionTheorems.TransitionsCounted | app/services/simulation/session_service.py:762-785 | transitions and end rows of any log that is read, counted |
| SessionTheorems.FinishedMeansEnded | app/services/simulation/session_service.py:724-799 | finished exactly when there is one end row, the last; transitions equal the scene index, one more when the last scene was left |
| SessionTheorems.FinishedIsTerminal | app/services/simulation/session_service.py:626-650 | after the end no request changes anything, whatever it read before |
| SessionTheorems.LogOnlyGrows | app/services/simulation/session_service.py:499-868 | of an old row only a student's answer can ever change |
| SessionTheorems.SceneAdvances | app/services/simulation/session_service.py:735-799 | over any run the scene index never falls and a finished session never runs again |
| SessionTheorems.LeftForGood | app/services/simulation/session_service.py:626-650 | once the session has finished or left the scene a waiting call has read, that call writes nothing ever after and is told which, whatever happens first |
| SessionScores.SayRises | app/services/simulation/session_service.py:688-718 | an answer judged on an old snapshot stays under the rising line |
| SessionScores.RegenerateRises | app/services/simulation/session_service.py:833-857 | so does an answer rewritten in place |
| SessionScores.RiseBound | app/services/simulation/session_service.py:462-471 | after an entry reaction parsed with value e the student's i-th row of the scene is at most min(100, e + 20 i), in every interleaving |
| SessionScores.UncappedAfterFailure | app/services/simulation/session_service.py:430-471 | while no row of the student has parsed an answer is stored as the model gave it |
| SessionScores.UncappedExactly | app/services/simulation/session_service.py:430-471 | every answer is stored as given exactly while none of the student's rows read has parsed |
| SessionSticky.RegenerateKeepsAgreement | app/services/simulation/session_service.py:815-868 | a regenerate keeps its student's agreement, whatever the model answers, exactly when the row it overwrites is not by now the only agreeing one |
| SessionSticky.AgreedSetGrows | app/services/simulation/agreement.py:1-13 | where regenerates of one student do not overlap, the agreed set of every scene only grows over whole runs |
| SessionRuns.OverlapUndoes | app/services/simulation/session_service.py:815-868 | a run in which the second of two overlapping regenerates takes an agreement back |
| SessionSticky.PastScenesFrozen | app/services/simulation/session_service.py:626-650 | no row of a scene that was left ever changes |
| SessionSticky.ParsedStaysParsed | app/services/simulation/session_service.py:859-868 | a retry that fails never unparses a row as long as unchanged columns are not sent |
| SessionRegenerate.AskedFound | app/services/simulation/session_service.py:815-829 | in every interleaving the maximum is over a non-empty set and is the teacher row heading the block of the failed row |
| SessionRegenerate.ShownSplits | app/services/simulation/session_service.py:821-825 | of the rows a call shows the system rows go and nothing else |
| SessionRegenerate.RebuiltMatches | app/services/simulation/session_service.py:821-831 | the rebuilt transcript has the numbers of the original exactly when nothing was added to the scene between that call's snapshot and commit |
| SessionRegenerate.SerialRebuilds | app/services/simulation/session_service.py:821-831 | so it does in serial runs |
| SessionRegenerate.EntryRebuilds | app/services/simulation/session_service.py:815-831 | the retry of an entry reaction shows the planned question alone, as the original did |
| SessionRuns.FailedEntryLeaps | app/services/simulation/session_service.py:430-471 | a run in which a failed entry reaction is followed by an answer of 100 and agreement |
| SessionRuns.SharedRebuildsMore | app/services/simulation/session_service.py:821-831 | a run in which a retry shows rows the retried call had not seen |
| SessionStore.FindLastValid | app/services/simulation/session_service.py:244-253 | the reversed loop finds the last valid row |
| SessionStore.AnswerEntry | app/services/simulation/session_service.py:550-553 | the entry block's student rows, each made of the reply to its own seat |
| SessionStore.AnswerSay | app/services/simulation/session_service.py:703-718 | the say block's student rows, each made of the reply to its own student and judged against the snapshot; what every waiting call has read is scored, as it asks |
| SessionStore.SessionTable.TeacherTurnsUsed | app/services/simulation/session_service.py:213-220 | counts the user turns |
| SessionStore.SessionTable.NextSeq | app/services/simulation/session_service.py:490-496 | one past the largest number |
| SessionStore.SessionTable.CommitEnter | app/services/simulation/session_service.py:520-562 | changes the stored session as the protocol's step says, or reports its error and changes nothing; when it succeeds, what `SessionCommits.EnterMeans` says |
| SessionStore.SessionTable.CommitSay | app/services/simulation/session_service.py:697-721 | likewise for say: one turn more within the limit, and the answers under their own students |
| SessionStore.SessionTable.CommitAdvance | app/services/simulation/session_service.py:741-785 | likewise for advance: the gate refuses exactly a withheld agreement, and one transition is written, agreed or skipped as asked |
| SessionStore.SessionTable.CommitFinish | app/services/simulation/session_service.py:788-799 | likewise for finish: the one end row is the last |
| SessionStore.SessionTable.CommitRegenerate | app/services/simulation/session_service.py:815-868 | likewise for regenerate: no row but the loaded one is touched, and that one shows the new answer |
| SessionStore.SessionTable.Commit | app/services/simulation/session_service.py:499-868 | every waiting call's commit keeps the stored session valid and its log append-only up to answers |
| SessionStore.SessionTable.Perform | app/services/simulation/session_service.py:499-868 | one act on the fields and the waiting calls is the protocol's step |
| SessionStore.SessionTable.Serve | app/services/simulation/session_service.py:63-868 | any acts from a fresh session end in the fields and waiting calls of the protocol's run |
| AliasMaps.EffectiveIs | app/services/criteria_alias_map_service.py:165-190 | the map is readable exactly when there is no document, or a valid one certainly newer than every broken one |
| AliasMaps.SortNewestFirst | app/services/criteria_alias_map_service.py:181-182 | the stable sort keeps the documents and puts the one that counts first |
| AliasMaps.EffectiveWithout | app/services/criteria_alias_map_service.py:192-213 | deleting any documents but the one that counts changes nothing |
| AliasMaps.EffectiveInserted | app/services/criteria_alias_map_service.py:246-272 | a newer document counts from the moment it is stored, wherever it is listed |
| AliasMaps.AliasStore.Fetch | app/services/criteria_alias_map_service.py:113-215 | returns what the stored documents stand for; an error has deleted nothing; only stale documents go, never the one returned or a newer one |
| AliasMaps.AliasStore.CleanUp | app/services/criteria_alias_map_service.py:192-213 | whichever deletes fail, only the named documents go |
| AliasMaps.AliasStore.Replace | app/services/criteria_alias_map_service.py:217-286 | after a failure at any point the map stands at the old or the new document, after success at the new |
| AliasMaps.FetchAgain | app/services/criteria_alias_map_service.py:192-215 | however far a clean-up got, fetching again finds the same document |
| Criteria.ReconcileAgrees | app/services/criteria_reconciliation_service.py:170-265 | whatever the stores held, the reconciled entries and the rebuilt table agree with the cloud if its stable ids are distinct |
| Criteria.ReconcileNeedsDistinct | app/services/criteria_reconciliation_service.py:227-254 | every document has its row exactly when no two share a stable id |
| Criteria.TwinsLoseOne | app/services/criteria_reconciliation_service.py:227-254 | two documents with one stable id: after the rebuild one of them has no row |
| Criteria.ReconciledEntries | app/services/criteria_reconciliation_service.py:61-76 | the published entries are those of the cloud's stable ids, and no surrogate is active |
| Criteria.ReconciledCells | app/services/criteria_reconciliation_service.py:61-76 | an entry keeps alias and status; a document without one gets an active entry, except that a surrogate is never active |
| Criteria.SidIs | app/services/criteria_reconciliation_service.py:46-54 | a stable id is kept, and without one the surrogate is made from the document's name |
| Criteria.RebuildKeepsLocal | app/repositories/criteria_repository.py:394-492 | of each stable id the row of lowest id lives on with its local columns |
| Criteria.AgreeIsFixed | app/services/criteria_reconciliation_service.py:193-254 | when the stores agree there is nothing to publish and any part of the rebuild leaves the table as it is |
| Criteria.ReconcileTwice | app/services/criteria_reconciliation_service.py:193-265 | a second run on an unchanged cloud publishes nothing and changes no row |
| Criteria.UploadAgrees | app/routers/admin/criteria.py:269-334 | a new criterion in all three stores keeps agreement |
| Criteria.DeleteAgrees | app/routers/admin/criteria.py:405-434 | a criterion taken out of all three keeps agreement |
| Criteria.StatusAgrees | app/routers/admin/criteria.py:745-777 | a new status in the map and the table keeps agreement |
| Criteria.AliasAgrees | app/routers/admin/criteria.py:638-661 | a new alias in the map and the table keeps agreement |
| CriteriaAdmin.PromoteAgrees | app/routers/admin/criteria.py:516-569 | a surrogate replaced by a real criterion in all three keeps agreement |
| CriteriaAdmin.SyncCache | app/routers/admin/criteria.py:133-149 | the loop over the entries gives every row the status of its entry |
| CriteriaAdmin.StableIds | app/services/criteria_reconciliation_service.py:174-194 | the loop maps every document to its stable id or surrogate |
| CriteriaAdmin.Clean | app/services/criteria_reconciliation_service.py:205-227 | the three steps give the reconciled entries |
| CriteriaAdmin.CriteriaAdmin.Fetch | app/services/criteria_alias_map_service.py:113-215 | a fetch never changes what the alias map stands for |
| CriteriaAdmin.CriteriaAdmin.Publish | app/services/criteria_alias_map_service.py:217-286 | a publication leaves the old map or the new one |
| CriteriaAdmin.CriteriaAdmin.UploadCriteria | app/routers/admin/criteria.py:218-376 | keeps the invariant; success changes all three stores; a refusal that leaves `ok` has changed nothing |
| CriteriaAdmin.CriteriaAdmin.DeleteCriteria | app/routers/admin/criteria.py:384-444 | likewise for delete |
| CriteriaAdmin.CriteriaAdmin.PatchAlias | app/routers/admin/criteria.py:609-672 | likewise for the alias: on success this entry and its rows have the new alias and nothing else has changed |
| CriteriaAdmin.CriteriaAdmin.RecoverStatus | app/routers/admin/criteria.py:152-209 | recovers only what the cloud shows exactly as it was to be published |
| CriteriaAdmin.CriteriaAdmin.SetStatus | app/routers/admin/criteria.py:705-798 | likewise for the status, with recovery from the cloud: on success this entry and its rows have the status asked for, the entry its old alias, and every other entry is as before |
| CriteriaAdmin.CriteriaAdmin.ReplaceLegacy | app/routers/admin/criteria.py:455-592 | likewise for the replacement of a surrogate: its entry and row are gone, an active one with its alias has come |
| CriteriaAdmin.CriteriaAdmin.Rebuild | app/services/criteria_reconciliation_service.py:236-274 | the table is rebuilt with its state, or left, or cut off after some upserts |
| CriteriaAdmin.CriteriaAdmin.Reconcile | app/services/criteria_reconciliation_service.py:113-289 | a skip hides no difference, success leaves agreement, a failure that leaves `ok` has changed nothing |
| CriteriaAdmin.CriteriaAdmin.Serve | app/routers/admin/criteria.py:218-798 | over every run of requests with any call failing, `ok` under the current key means that the three stores agree |
| PromptFile.Render | app/services/prompt_loader_service.py:156-174 | the loop over the cache gives the specified text |
| PromptFile.RenderedIs | app/services/prompt_loader_service.py:156-174 | the file is the header and then the prompts one after the other |
| PromptFile.Extract | app/services/prompt_loader_service.py:53-90 | the loop over the matches fills the ordered map as specified |
| PromptFile.LastSectionCounts | app/services/prompt_loader_service.py:64-88 | of several sections with one key the last that is not empty counts, and nothing else is read |
| PromptFile.KeysAsTheyCame | app/services/prompt_loader_service.py:64-88 | and the keys come in the order in which they first came |
| PromptFile.MatchMeant | app/services/prompt_loader_service.py:64-70 | what is read off is a match of the pattern |
| PromptFile.MatchMeans | app/services/prompt_loader_service.py:64-70 | and every match of the pattern is read off |
| PromptFile.FindMeans | app/services/prompt_loader_service.py:65 | the search finds the leftmost match |
| PromptFile.MatchLocal | app/services/prompt_loader_service.py:64-65 | whether the separator matches inside a content is decided within the content |
| PromptFile.SeparatorRead | app/services/prompt_loader_service.py:64-70 | the separator that is written is the separator that is read |
| PromptFile.TidyInner | app/services/prompt_loader_service.py:77-82 | between two rules a content comes back exactly when it does not end in one |
| PromptFile.TidyLast | app/services/prompt_loader_service.py:77-82 | at the end of the file it always does |
| PromptFile.RoundTrip | app/services/prompt_loader_service.py:53-90 | for plain prompts the sections read back are the prompts exactly when no content holds a separator and none but the last ends in a rule |
| PromptFile.MapRoundTrip | app/services/prompt_loader_service.py:53-90 | for plain prompts of distinct keys without separators the map read back is the map saved exactly when none but the last ends in a rule |
| PromptFile.RuleLost | app/services/prompt_loader_service.py:77-82 | two prompts the first of which comes back without its rule |
| PromptFile.ExtractRendered | app/services/prompt_loader_service.py:53-90 | so the ordered map comes back |
| PromptFile.ExtractedPlain | app/services/prompt_loader_service.py:64-88 | whatever a file holds, what is read has words for keys and stripped, non-empty contents |
| PromptFile.SurvivorIsPlain | app/services/prompt_loader_service.py:53-90 | a map that survives saving is plain |
| PromptFile.PromptLoader.Save | app/services/prompt_loader_service.py:156-184 | a save that fails has not touched the file |
| PromptFile.PromptLoader.Reload | app/services/prompt_loader_service.py:113-117 | a reload gives back a cache that was in step with the file |
| PromptFile.PromptLoader.CreatePrompt | app/services/prompt_loader_service.py:197-218 | on success the prompt stands at the end, else nothing has changed; saved or not, file and cache stay in step if what was saved is storable |
| PromptFile.PromptLoader.UpdatePrompt | app/services/prompt_loader_service.py:220-241 | likewise; on success keys and order are as before, this key has the new content, all others the old |
| PromptFile.PromptLoader.DeletePrompt | app/services/prompt_loader_service.py:243-263 | likewise; on success one place less, and what is left is storable again |
| PromptFile.LackingStorable | app/services/prompt_loader_service.py:243-263 | deleting a prompt keeps a map storable |
| Sanitizer.StripEmojisClean | app/utils/text_sanitizer.py:51-81 | no emoji survives, in any text |
| Sanitizer.StripEmojisKeeps | app/utils/text_sanitizer.py:51-81 | nothing else that can be seen is lost or moved, in any text |
| Sanitizer.CleanTextStays | app/utils/text_sanitizer.py:51-81 | a text without emojis, gaps, blanks at line ends or bold marks is left alone |
| Sanitizer.MergeCloses | app/utils/text_sanitizer.py:68 | no two blanks are left behind something visible |
| Sanitizer.TrimCloses | app/utils/text_sanitizer.py:69 | no blank is left before a line break |
| Sanitizer.BoldTightened | app/utils/text_sanitizer.py:73-77 | a bold span loses the white space at its inner ends |
| Sanitizer.CitedStep | app/services/lessonplan_analysis_service.py:822-835 | the loop's flag is the declarative meaning of being in a citation |
| Sanitizer.SanitizeReportLines | app/services/lessonplan_analysis_service.py:812-848 | the output is the lines in order, citation and empty lines alone and verbatim, maximal paragraphs cleaned as a whole |
| Sanitizer.ReportKeeps | app/services/lessonplan_analysis_service.py:812-848 | whatever the labels, the sanitized report shows all that the report showed besides emojis, in order |
| Sanitizer.CitationKept | app/services/lessonplan_analysis_service.py:822-833 | every citation line is in the output unchanged, in its place |
| Sanitizer.CitationsInOrder | app/services/lessonplan_analysis_service.py:822-833 | and in order |
| Sanitizer.FindEmojis | scripts/check_no_emojis_in_reports.py:61-63 | left to right, each maximal run of emojis with its column, and every emoji in one of them |
| Sanitizer.ScanReport | scripts/check_no_emojis_in_reports.py:133-141 | finds nothing exactly when every unquoted line is without emojis |
| Sanitizer.OutputFine | scripts/check_no_emojis_in_reports.py:133-162 | however the output is cut, it is clean exactly when its citation lines are |
| Sanitizer.ScannerAgrees | scripts/check_no_emojis_in_reports.py:133-141 | split at line feeds the output gives no findings |
| Sanitizer.LabelCites | app/services/lessonplan_analysis_service.py:806 | a line with the plain label opens a citation, whatever follows |
| Sanitizer.LabelMeans | app/services/lessonplan_analysis_service.py:806-810 | of a bold text behind the quotation mark: a citation exactly if it names the lesson plan, a label exactly if a colon follows |
| Sanitizer.NamesMean | app/services/lessonplan_analysis_service.py:806 | the name is its two words with white space or nothing between |
| Sanitizer.SourceReportFine | scripts/check_no_emojis_in_reports.py:133-141 | with the source's label patterns the sanitized report gives no findings split at line feeds |
| Sanitizer.SeparatorInCitation | scripts/check_no_emojis_in_reports.py:153-162 | split by `splitlines` the sanitized output of a one-line report, label, U+2028 and check mark, gives a finding |
| Feedback.WrittenOnce | app/services/simulation/feedback.py:243-257 | feedback and its report path never change once written |
| Feedback.SameAnswer | app/services/simulation/feedback.py:215-261 | all answered callers get the one envelope, at most one as new |
| Feedback.OwnReport | app/services/simulation/feedback.py:239-257 | the feedback kept, and its path, are those of one caller's own report |
| Feedback.CommitDecides | app/services/simulation/feedback.py:243-261 | the first to commit keeps its own and is told so; a later one is told what was kept and its file goes |
| Feedback.FilesLeft | app/services/simulation/feedback.py:239-261 | when nobody waits the files are the named report and those callers died over |
| Feedback.OneReportLeft | app/services/simulation/feedback.py:239-261 | exactly the named report is left exactly if no caller died after saving its own |
| ExportNaming.PathUnique | app/utils/admin_export_naming.py:14-96 | whatever the original names, one path means one item |
| ExportNaming.PaddedValue | app/utils/admin_export_naming.py:21-22 | a padded user number still tells the user |
| ExportNaming.PaddedWidth | app/utils/admin_export_naming.py:21-22 | in five digits, or as many as it needs |
| ExportNaming.ReportForm | app/utils/admin_export_naming.py:40-56 | the name of a report in full |
| ExportNaming.PlanForm | app/utils/admin_export_naming.py:59-84 | of a lesson plan |
| ExportNaming.SessionForms | app/utils/admin_export_naming.py:25-37 | and of what a session leaves |
| ExportPlan.CollectLessonplans | app/services/admin_export_service.py:243-418 | the three loops with their two sets of seen keys collect the specified items, none twice |
| ExportPlan.CollectedCovers | app/services/admin_export_service.py:243-418 | no report and no upload is lost |
| ExportPlan.CollectedExactly | app/services/admin_export_service.py:243-418 | collected is exactly an included file, a report's plan no directory holds, or an upload neither brings in, each under its number |
| ExportPlan.WholePlanPaths | app/services/admin_export_service.py:200-587 | the paths of a whole plan are pairwise different given unique ids and one report per upload |
| ExportPlan.Emit | app/services/admin_export_service.py:619-660 | the digests noted while the members are written |
| ExportPlan.RowsOwnDigests | app/services/admin_export_service.py:800-842 | every manifest row carries its own bytes' digest exactly when members with one path have one digest |
| ExportPlan.ManifestIsRight | app/services/admin_export_service.py:800-842 | for a whole plan written in its order every manifest row carries the digest of its own member |
| PersonaPool.Sample | app/services/simulation/persona_pool.py:91-111 | completes exactly when every level has its share; then distinct, from the pool, of grade and level, counts at most one apart |

## Left out

- The reads of one request before its model call are one snapshot; in the source they are several queries, between which another commit could fall.
- Requests cancelled by the server framework: the cancellation error passes the handlers' error paths, so `needs_resync` is not marked then.
- Prompt assembly, model calls, retries, polling and temporary files: a model reply is any reply, a cloud call takes effect or not.
- Uploads that take effect after their call timed out, and a second process writing criteria: outside what the lock and the flag can guarantee.
- A change of the API key while the server is running: the key is fixed in a run, the stored hash may differ from it at the start.
- `activated_at`, titles and creation times of criteria, and the base64 payload codec: decoding is taken to undo encoding.
- Deleting or replacing the alias-map store itself, and the one-off migration of the old metadata store (its marker is a flag that may be set).
- Agreement.AgreementSticky: appends only; rewriting in place is in `SessionSticky.RegenerateKeepsAgreement` and `SessionSticky.AgreedSetGrows`.
- PromptFile.RoundTrip: with separators inside contents its necessity is stated of the sections read, in order, and not of the map, where a later section with the same key could write over a truncated one; without, `PromptFile.MapRoundTrip` states it of the map.
- PromptFile.PromptLoader.Reload: a file removed from outside, and backups, are not modelled.
- PersonaPool.Sample: the pool is not sorted by id first, because any choice is allowed; pseudonyms are left out.
- Feedback.WrittenOnce: the callers are a state machine over their awaits and not methods on a class; the model call and the guideline version are not modelled.
- ExportPlan.CollectLessonplans: the directory listing and the date filter are inputs; resolving source paths and reading files are left out.
- SessionStore.SessionTable.CommitAdvance: advance and finish read the scene index in the request and take the lock in the same call; here any index read before is allowed.
- Session creation, adaptation of personas, the library of personas and the lesson-plan text: one writer, no shared state.
- QnA, question analysis, admin listings, accounts and rate limits: queries, single decisions and counters.
