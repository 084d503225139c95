# Verified model of iWana neXt: session renewal, data rewriting jobs, anonymisation and codecs

A Dafny 4.11 model of the parts of iWana neXt whose correctness spans several
functions, loops or parties, with proofs of what they promise.
`dafny verify dfyconfig.toml` checks the whole project.

**Cross-tab session renewal.** `SessionTab` holds the session variables of one
browser tab and the uninterrupted pieces of the portal client as functions on
them; `PortalSession` is the same client in its own form, a class whose methods
update those variables, each method proved equal to its function.
`RenewalProtocol` interleaves N tabs, a Web Lock, a broadcast channel, one
refresh cookie and a server that rotates on use; `RenewalRuns` holds the
theorems about whole runs, `RenewalStarts` ties what a renewal does to the event
that started it, `RenewalOutcome` follows one to its end, and `RenewalLimits`
shows the exact places where the guarantee ends.

**Data rewriting jobs.** `ReencryptPii`, `ReencryptRun` and
`ReencryptGuarantees` model the move of encrypted columns to the active key,
`ReencryptMeaning` what its counters say about the keys that open the stored
values, and `ReencryptStops` what a run leaves that a refused write stopped;
`PartyBackfill`, `PartyBackfillJob`, `PartyBackfillReport` and
`PartyBackfillGuarantees` the HMAC and ciphertext backfill of parties, contacts
and WhatsApp numbers, its report and what it leaves; `FiscalBackfill` the
keyset-paged encryption of fiscal documents and `FiscalReading` what a reader
finds afterwards; `PlaceholderBackfill` and `PlaceholderOutcome` the removal of
placeholder contacts. Tables are fields of
classes that the loops update. `FieldCipher` states the laws that the jobs ask
of the cipher, and `CipherWitness` shows that some cipher obeys them.

**Anonymisation.** `AnonymizePlan` turns the rule table into a plan per column,
`AnonymizeTable` follows one row through the bulk update and the per-row
updates, `AnonymizeJob` runs the whole table, `AnonymizeRules` tells what the
rows then hold from the rules alone, `VerificationGroups` and
`VerificationReport` model the grouping pass over marked records.

**Codecs and paging.** `Decimal`, `UrlParams`, `TableQuery` and
`TableQueryGuarantees` model table state in the URL and `TableNamespaces` two
tables that share it; `Base64`, `SigningKey` and
`Jwt` the signing-key check and the token reader; `HtmlEscape` the ordered
replacements and the highlighter, `HighlightMarks` where its marks go;
`ListPaging` list metadata and page collection. `Text` and `Options` are shared.

## What the code does differently from its documentation or from a first guess

- Reuse detection (`apps/api/src/modules/auth/auth.service.ts:577-592`) writes
  the revocation of the family inside `runInTenantSchema`, whose transaction the
  exception on the next lines rolls back
  (`packages/database/src/data-source.ts:207-221`), while the comment in
  `apps/portal/src/lib/api-client.ts:610-616` says that the family is revoked. The
  model leaves open whether the revocation lasts (`World.revokes`), and every
  theorem holds for both.
- While no answer is lost, reuse detection stays silent in every run exactly with
  Web Locks or in at most one tab (`SilentIffSerialised`); when a tab gives up on
  a request that the server handles it does not, even with Web Locks and in a
  lone tab (`LostRotationDetected`, `LateRequestDetected`,
  `SilentWhateverIsLostIffNoTab`).
- A contact or WhatsApp number stored as the empty string is encrypted to a text
  that the same job does not recognise as ciphertext (`SecretWritten`), and an
  HMAC stored as the empty string is never replaced, so each run plans that row
  again (`PartiesSecondRun`, `SecretsSecondRun`; inputs in
  `EmptySecretReadsOtherwise` and `EmptyHmacIsPlannedAgain`).
- A contact with neither value nor ciphertext makes the party backfill throw
  outside its `try` block (`BackfillPartyPii`, error `NullContactSource`).
- A dry run of the re-encryption predicts apply's counts exactly when no column
  with something to re-encrypt is named twice (`DryRunPredictsApply`, with an
  input in `RepeatedColumnMispredicts`); the target list of the code
  (`apps/api/src/cli/reencrypt-aes.pii.ts:82-139`) names none twice.
- Anonymisation can change a row on which its dry run counts no residual field:
  an empty JSON array counts as empty but is replaced by an empty object
  (`ResidualPredictsChange`, with an input in `EmptyArrayChanges`).
- The worker trims `INTERNAL_QUEUE_SIGNING_KEY_PREVIOUS` and the API does not
  (`PreviousAgreesIffTrimmed`).
- `highlightMatch` looks for the query in lower case and marks by position in the
  original. Its marks are around what was found exactly when lower case keeps the
  lengths of the text before them and of the text inside them and does not depend
  on what is cut off (`MarksFollowIff`); a source that lower case makes longer
  always has a query that they miss (`MarksRightIffSourceKeepsLength`, with an
  input in `MarksCanMissTheQuery`). A query that ends in a capital sigma is not
  found where the text goes on (`SigmaQueryIsMissed`).
- A page number of 10^21 or more is printed with an exponent and does not read
  back (`PageRoundTrip`).
- The namespace of a table is a prefix of its keys. Two namespaces are isolated
  from each other exactly when neither prefix starts with the other
  (`IsolatedIffApart`), so "a" and "a.b" are not (`DottedNamespacesMeet`), and
  neither is a table without namespace (`BareKeyMeets`). Given tables meet exactly
  through a filter under what is left of the longer prefix (`WriterIsolatedIff`,
  `ReaderIsolatedIff`).
- Over a server that sends next cursors but no total, `collectListPages` gives the
  length of its last page as the total, which is right exactly when it read one
  page (`CursorListCollected`); a page without `hasMore` and without cursor is all
  that it collects, whatever total was sent (`WithoutHintOnlyOnePage`).
- A table that is asked for page NaN or infinity puts that word into its URL, and
  its own effect takes it out again (`WrittenPageIsBadIff`).
- `collectListPages` always reports `hasMore: false`, also when it stopped at its
  page limit; its total then exceeds its rows (`CollectedIsTheList`).

## Model

| member | source | states |
|---|---|---|
| `PortalSession.Session.ScheduleProactiveRefresh` | apps/portal/src/lib/api-client.ts:747-771 | cancels the timer and arms a new one only for a token with a usable `exp`, 90 s ahead or at once; the new state is that of `SessionTab.Schedule` |
| `PortalSession.Session.PersistAccessToken` | apps/portal/src/lib/api-client.ts:416-426 | a non-empty token clears the terminal error, an empty one does not; the timer follows the token |
| `PortalSession.Session.HandleAuthBroadcastMessage` | apps/portal/src/lib/api-client.ts:584-593 | an announced token is adopted and restarts the reuse window |
| `PortalSession.Session.RefreshAccessToken` | apps/portal/src/lib/api-client.ts:674-693 | throws in the terminal state, joins the shared promise, or starts one; starts exactly when neither applies |
| `PortalSession.Session.RequestRefreshAcrossTabs` | apps/portal/src/lib/api-client.ts:617-636 | under the lock a token known for less than 5 s is reused, otherwise the request leaves with the shared cookie |
| `PortalSession.Session.PerformRefreshRequest` | apps/portal/src/lib/api-client.ts:638-672 | a refusal empties the token and is terminal only when reactive; a grant stores the token, restarts the window, opens the channel and posts the token |
| `PortalSession.Session.ProactiveTimerFires` | apps/portal/src/lib/api-client.ts:767-771 | the timer clears its handle and starts a proactive renewal when a tenant is known |
| `PortalSession.Session.RefreshIfExpiringSoon` | apps/portal/src/lib/api-client.ts:774-786 | regained focus starts a renewal only inside the 90 s margin |
| `PortalSession.Session.ClearTerminalSessionError` | apps/portal/src/lib/api-client.ts:434-436 | only the terminal error is cleared |
| `PortalSession.Session.LogoutLocally` | apps/portal/src/lib/api-client.ts:1299-1301 | the token is emptied, the timer cancelled and the listeners removed |
| `RenewalProtocol.LockStep` | apps/portal/src/lib/api-client.ts:617-636 | every step of any party keeps the lock with exactly the tab whose request is out |
| `RenewalProtocol.AtMostOneOutstanding` | apps/portal/src/lib/api-client.ts:610-693 | in every reachable state of N tabs with Web Locks, or of a lone tab, at most one refresh request is out |
| `RenewalProtocol.CookieStep` | apps/portal/src/lib/api-client.ts:610-672 | every step except a lost answer keeps the shared cookie, and every presented cookie, at the head of its family |
| `RenewalProtocol.NeverRevoked` | apps/portal/src/lib/api-client.ts:610-693 | with Web Locks or in a lone tab, and with no lost answer, in every interleaving, no rotated token returns to a live family: reuse detection stays silent and revokes nothing |
| `RenewalRuns.SessionInvariant` | apps/portal/src/lib/api-client.ts:416-426 | in every reachable state, terminal means no token and no timer, a live timer means a token with `exp`, and a request out means not terminal |
| `RenewalRuns.TerminalOnlyFromReactiveRefusal` | apps/portal/src/lib/api-client.ts:652-665 | a step that makes a tab terminal reads the refusal of a reactive renewal |
| `RenewalStarts.SourceIsStarter` | apps/portal/src/lib/api-client.ts:674-693 | in every reachable state the renewal under way is reactive exactly when the step that started it was a 401, and proactive when it was the timer or focus; a tab without one is idle |
| `RenewalStarts.TerminalIffStartedBy401` | apps/portal/src/lib/api-client.ts:652-665 | from the initial state a step makes a tab terminal if and only if it reads the refusal of a renewal that a 401 of this tab started |
| `RenewalStarts.NoTerminalWithout401` | apps/portal/src/lib/api-client.ts:652-665 | a run without a 401 in a tab never makes that tab terminal |
| `RenewalStarts.FocusRenewsIff` | apps/portal/src/lib/api-client.ts:774-800 | focus starts a proactive renewal exactly less than 90 s before `exp`, with a known tenant, no terminal error and none under way |
| `RenewalStarts.TimerRenewsIff` | apps/portal/src/lib/api-client.ts:767-771 | the timer does so exactly with a known tenant, no terminal error and none under way, and stands no longer |
| `RenewalStarts.PersistSetsTimer` | apps/portal/src/lib/api-client.ts:747-771 | storing a token with a usable `exp` sets the timer 90 s before it or at once, and no other token leaves one |
| `RenewalStarts.LiveTimerStands` | apps/portal/src/lib/api-client.ts:747-771 | in every reachable state a live timer stands 90 s before the end of the token, or at the later moment at which it was set |
| `RenewalStarts.AnswerDecidesToken` | apps/portal/src/lib/api-client.ts:638-672 | a grant leaves its token, no terminal error, a new window and an open channel; a refusal leaves no token, and no new terminal error when proactive |
| `RenewalStarts.GrantIsAnnounced` | apps/portal/src/lib/api-client.ts:664-671 | a grant is posted to every other tab that listens, behind what is already there, and to no one else |
| `RenewalStarts.AnnouncedIsAdopted` | apps/portal/src/lib/api-client.ts:584-593 | a tab adopts announced tokens one by one in their order |
| `RenewalStarts.TokenWasIssued` | apps/portal/src/lib/api-client.ts:416-426 | in every reachable state the token of a tab is one that a login set or the server granted in that run |
| `RenewalOutcome.UnauthorizedStartsIff` | apps/portal/src/lib/api-client.ts:674-693 | a 401 starts a reactive renewal exactly in a tab without a terminal error and without one under way |
| `RenewalOutcome.RequestLeavesIff` | apps/portal/src/lib/api-client.ts:617-636 | a waiting renewal sends the shared cookie unless the tab holds the lock and a token less than 5 s old |
| `RenewalOutcome.ServerGrantsIff` | apps/api/src/modules/auth/auth.service.ts:558-635 | the server grants exactly the newest token of a live family, with the next one; a replaced token is remembered as reuse, any other refusal changes nothing |
| `RenewalOutcome.RenewalSucceeds` | apps/portal/src/lib/api-client.ts:617-693 | from the 401 on, left alone, a renewal ends with the granted token, an idle tab, a free lock and the family's newest cookie in the jar, and changes no other tab |
| `RenewalOutcome.LogoutIsQuiet` | apps/portal/src/lib/api-client.ts:1299-1301 | after a logout the tab holds no token, and neither timer nor focus can start a renewal |
| `RenewalRuns.NoRequestInsideWindow` | apps/portal/src/lib/api-client.ts:625-635 | from the initial state, after a tab renewed or adopted a renewal no request leaves it for 5 s, in any continuation in which it keeps a token |
| `RenewalRuns.RenewalRate` | apps/portal/src/lib/api-client.ts:625-671 | in any part of a run in which a tab always has a token it renews at most T/5000 + 1 times in T ms |
| `RenewalLimits.RaceIsDetected` | apps/portal/src/lib/api-client.ts:610-623 | without Web Locks two tabs of any number present one cookie although no answer is lost: the second is refused as reuse |
| `RenewalLimits.LostRotationDetected` | apps/portal/src/lib/api-client.ts:638-650 | a run from the initial state, in any number of tabs, with or without Web Locks: the answer of a rotation is lost and the next request is refused as reuse |
| `RenewalLimits.LateRequestDetected` | apps/portal/src/lib/api-client.ts:638-650 | the same when the request given up reaches the server late |
| `RenewalLimits.SilentIffSerialised` | apps/portal/src/lib/api-client.ts:610-623 | in all runs without a lost answer reuse detection stays silent if and only if there are Web Locks or at most one tab |
| `RenewalLimits.SilentWhateverIsLostIffNoTab` | apps/portal/src/lib/api-client.ts:638-650 | with lost answers allowed it stays silent if and only if there is no tab |
| `FieldCipher.CiphertextNotBlank` | apps/api/src/common/crypto/aes-gcm.util.ts:8-33 | a text with the shape of a ciphertext is neither empty nor blank, so it stays selected |
| `FieldCipher.CiphertextForm` | apps/api/src/common/crypto/aes-gcm.util.ts:8-33 | three texts joined by colons are a ciphertext exactly when they are 12, 16 and any number of bytes in hex |
| `FieldCipher.CiphertextParts` | apps/api/src/common/crypto/aes-gcm.util.ts:8-33 | every ciphertext has that form; the stricter recogniser of the party backfill accepts exactly those in lower case with a body |
| `FieldCipher.FirstOpens` | apps/api/src/common/crypto/aes-gcm.util.ts:243-270 | a reader with several keys gets a plaintext exactly from a value that one of them opens |
| `CipherWitness.LawfulIsPossible` | apps/api/src/common/crypto/aes-gcm.util.ts:219-268 | the laws asked of encryption and decryption can be met together |
| `ReencryptPii.RewriteKeepsReading` | apps/api/src/cli/reencrypt-aes.pii.ts:307-330 | a rewritten cell keeps its row, stays selected, and reads the same to a reader that tries the keys in the code's order |
| `ReencryptPii.RewriteSettles` | apps/api/src/cli/reencrypt-aes.pii.ts:287-330 | a rewritten cell is accepted by verification and not rewritten again |
| `ReencryptPii.CandidatesSplit` | apps/api/src/cli/reencrypt-aes.pii.ts:279-341 | candidates split exactly into the classes of the mode and the refusals by SQLSTATE add up |
| `ReencryptPii.RehearsalPredicts` | apps/api/src/cli/reencrypt-aes.pii.ts:329-340 | without refused writes a rehearsal counts what apply counts on the same rows |
| `ReencryptPii.SettledColumn` | apps/api/src/cli/reencrypt-aes.pii.ts:287-304 | verification of a rewritten column finds every candidate under the active key |
| `ReencryptPii.RewriteAllIdempotent` | apps/api/src/cli/reencrypt-aes.pii.ts:307-311 | rewriting a column again, with other IVs, changes no byte |
| `ReencryptRun.TryKeys` | apps/api/src/cli/reencrypt-aes.pii.ts:317-320 | the key loop returns the plaintext of the first key that opens the value |
| `ReencryptRun.DecideCell` | apps/api/src/cli/reencrypt-aes.pii.ts:280-340 | the branches of the row loop decide the class that the specification gives the cell |
| `ReencryptRun.ProcessRow` | apps/api/src/cli/reencrypt-aes.pii.ts:279-341 | one turn of the row loop moves table and counters on by one row, or stops at a refused write |
| `ReencryptRun.ProcessPage` | apps/api/src/cli/reencrypt-aes.pii.ts:276-344 | one page advances over exactly the next selected rows, although earlier pages rewrote theirs |
| `ReencryptRun.ProcessTarget` | apps/api/src/cli/reencrypt-aes.pii.ts:261-348 | offset paging sees every selected row once and terminates; counters are one fold over the table, apply rewrites exactly the selected rows, or stops at the first refusal with exactly the rows before it rewritten; other columns stay |
| `ReencryptRun.SumMetrics` | apps/api/src/cli/reencrypt-aes.pii.ts:234-259 | totals are the sums over all targets |
| `ReencryptRun.ProcessSchemas` | apps/api/src/cli/reencrypt-aes.pii.ts:369-374 | the two loops handle every target of every schema in order; they fail only when a write of the run is refused, and then leave exactly the state before that write |
| `ReencryptRun.RunMfaToPii` | apps/api/src/cli/reencrypt-aes.pii.ts:351-403 | public and unknown schemas are refused before any change; otherwise the report is that of all jobs, unless the database refuses a write of the run: then its SQLSTATE and the exact state it left |
| `ReencryptRun.LeftIffRefused` | apps/api/src/cli/reencrypt-aes.pii.ts:329-374 | a run is stopped if and only if the database refuses one of its writes; a run that is not leaves every column rewritten |
| `ReencryptRun.BlockingIffPending` | apps/api/src/cli/reencrypt-aes.pii.ts:377-394 | outside a rehearsal something blocks exactly when something is pending |
| `ReencryptGuarantees.AfterColumn` | apps/api/src/cli/reencrypt-aes.pii.ts:369-374 | a column reached by the run is rewritten once, an unreached one not at all |
| `ReencryptGuarantees.ReadersUnaffected` | apps/api/src/cli/reencrypt-aes.pii.ts:307-330 | after apply every cell of every column reads as before, and unreached cells are the same |
| `ReencryptStops.ReadersUnaffectedMidway` | apps/api/src/cli/reencrypt-aes.pii.ts:329-330 | also in the state that a run stopped by a refused write left, every cell of every column reads as before |
| `ReencryptGuarantees.VerifyAfterApply` | apps/api/src/cli/reencrypt-aes.pii.ts:287-304 | after an apply without blocking issue, verification of the resulting tables has nothing pending and nothing blocking |
| `ReencryptStops.SecondApplyWritesNothing` | apps/api/src/cli/reencrypt-aes.pii.ts:307-330 | a second apply with other IVs leaves every cell byte for byte: after a completed run it completes, and after a stopped one it stops at the same row, when the same writes are refused |
| `ReencryptGuarantees.SecondApplyCountsNothing` | apps/api/src/cli/reencrypt-aes.pii.ts:307-340 | a second apply after a clean one re-encrypts nothing, whatever writes the database would then refuse |
| `ReencryptGuarantees.DryRunPredictsApply` | apps/api/src/cli/reencrypt-aes.pii.ts:328-340 | after a dry run without refused writes apply meets none, and its counters for all targets are the predicted ones if and only if no column with something to re-encrypt is named twice |
| `ReencryptGuarantees.RepeatedColumnMispredicts` | apps/api/src/cli/reencrypt-aes.pii.ts:328-340 | a column named twice whose one row is under the previous key: apply reports other counts |
| `ReencryptGuarantees.RehearsedApplyCompletes` | apps/api/src/cli/reencrypt-aes.pii.ts:328-340 | after a dry run without refused writes no apply run on the same tables is stopped by one |
| `ReencryptGuarantees.ReportAddsUp` | apps/api/src/cli/reencrypt-aes.pii.ts:234-259 | the report of every run in every mode adds up: candidates split over its totals, refused writes over the SQLSTATEs of its targets, one missing table per target without one |
| `ReencryptMeaning.ReadableIffOpens` | apps/api/src/cli/reencrypt-aes.pii.ts:279-330 | a reader with the keys of the run gets a plaintext exactly when one of them opens the value |
| `ReencryptMeaning.ClassMeaning` | apps/api/src/cli/reencrypt-aes.pii.ts:279-330 | in every mode: NULL and blank cells are no candidates, other text is no ciphertext, and a ciphertext is an error exactly when no key of the run opens it, and done exactly when the active one does |
| `ReencryptMeaning.VerifyClassMeaning` | apps/api/src/cli/reencrypt-aes.pii.ts:287-304 | in verification, of the ciphertexts that the active key does not open, those of the previous key remain under it and those of an MFA key only under that |
| `ReencryptMeaning.ApplyClassMeaning` | apps/api/src/cli/reencrypt-aes.pii.ts:307-341 | outside verification every other ciphertext that some key opens is re-encrypted, unless the database refuses the write |
| `ReencryptMeaning.AppliedOpens` | apps/api/src/cli/reencrypt-aes.pii.ts:307-341 | after apply a readable ciphertext whose write is not refused opens under the active key to what it read before |
| `ReencryptMeaning.ColumnCounts` | apps/api/src/cli/reencrypt-aes.pii.ts:234-348 | each counter of a column is the number of its cells of that class, told by the keys that open them |
| `ReencryptMeaning.CleanIffInOrder` | apps/api/src/cli/reencrypt-aes.pii.ts:351-403 | verification and rehearsal report nothing blocking if and only if every table exists and every cell of every column is in order |
| `ReencryptMeaning.EveryReadableOpens` | apps/api/src/cli/reencrypt-aes.pii.ts:351-374 | after a completed apply every cell of a reached column that some key opened opens under the active key to the same text |
| `ReencryptMeaning.WorkMembers` | apps/api/src/cli/reencrypt-aes.pii.ts:369-374 | the jobs of a run are exactly the targets of each schema |
| `ReencryptMeaning.ChosenSchemas` | apps/api/src/cli/reencrypt-aes.pii.ts:351-367 | public is refused, an empty filter takes all eligible schemas, any other exactly the one of its trimmed name, and an unknown one is refused |
| `PartyBackfill.PartyWritten` | apps/api/src/cli/backfill-party-pii.ts:206-227 | a planned party gets the HMAC of its normalised plaintext and its document still resolves to that plaintext |
| `PartyBackfill.SecretStored` | apps/api/src/cli/backfill-party-pii.ts:283-299 | apply stores the ciphertext already there or a new one of the plaintext, never an empty one |
| `PartyBackfill.SecretWritten` | apps/api/src/cli/backfill-party-pii.ts:273-299 | a written contact or number reads back as before exactly when what was stored is not the empty string |
| `PartyBackfill.EmptySecretReadsOtherwise` | apps/api/src/cli/backfill-party-pii.ts:273-299 | a phone stored as the empty string, which does not |
| `PartyBackfill.SecretHmacWritten` | apps/api/src/cli/backfill-party-pii.ts:275-278 | a stored HMAC stays; a missing one becomes that of the plaintext under its type |
| `PartyBackfillJob.GroupsAreGroupIds` | apps/api/src/cli/backfill-party-pii.ts:230-235 | the group of a key lists exactly the live parties with that document type and HMAC, in table order |
| `PartyBackfillJob.CollectParty` | apps/api/src/cli/backfill-party-pii.ts:195-241 | one turn of the party loop, branch by branch |
| `PartyBackfillJob.CollectSecrets` | apps/api/src/cli/backfill-party-pii.ts:263-311 | the loops over contacts and numbers; the run throws exactly when a contact has neither value nor ciphertext |
| `PartyBackfillJob.WriteSecrets` | apps/api/src/cli/backfill-party-pii.ts:390-407 | the write loops never reach their throw when each update has a ciphertext |
| `PartyBackfillJob.BackfillPartyPii` | apps/api/src/cli/backfill-party-pii.ts:153-411 | all or nothing: rehearsal, error and block leave the three tables unchanged, an applied run puts every row in its final state; the internal throws are unreachable |
| `PartyBackfill.UnreadableIff` | apps/api/src/cli/backfill-party-pii.ts:101-112 | a value is unreadable exactly when it has the shape of a ciphertext and neither the active nor an earlier key opens it |
| `PartyBackfill.CanonicalIsKept` | packages/shared/src/utils/normalize-document-number.ts:11-30 | digits of a numeric type and digits and capitals of the others are their own normal form; an unknown type has none |
| `PartyBackfill.SeparatorsAreIgnored` | packages/shared/src/utils/normalize-document-number.ts:15-26 | one more character of any other kind does not change the normal form |
| `PartyBackfillReport.CandidatesAreBearers` | apps/api/src/cli/backfill-party-pii.ts:230-254 | the merge candidates are exactly the groups of two or more live parties of one type and one HMAC, in table order |
| `PartyBackfillReport.CandidatesIffDuplicates` | apps/api/src/cli/backfill-party-pii.ts:243-254 | merge candidates are reported exactly when two live parties would share document type and HMAC |
| `PartyBackfillReport.FailuresAre` | apps/api/src/cli/backfill-party-pii.ts:209-239 | the report lists exactly the rows that fail, each with its code: unreadable, without normal form, or of an unknown contact type |
| `PartyBackfillReport.AppliedIff` | apps/api/src/cli/backfill-party-pii.ts:367-375 | apply writes if and only if no two live parties would share type and HMAC and no row fails; duplicates are the reason given before failures |
| `PartyBackfillReport.ReportCounters` | apps/api/src/cli/backfill-party-pii.ts:195-365 | each counter of the three tables is the number of rows of which it speaks, told from the rows |
| `PartyBackfillGuarantees.NoDuplicatesAfterApply` | apps/api/src/cli/backfill-party-pii.ts:367-389 | when the run was applied no two live parties share document type and HMAC |
| `PartyBackfillGuarantees.WithoutHmacAfterApply` | apps/api/src/cli/backfill-party-pii.ts:377-389 | when the run was applied a party without HMAC holds a NODATA value, or had the empty string stored as HMAC |
| `PartyBackfillGuarantees.DocumentsKept` | apps/api/src/cli/backfill-party-pii.ts:206-217 | when the run was applied every party without HMAC and with a document got the HMAC of its normal form and a ciphertext of what it held; no other party changed |
| `PartyBackfillGuarantees.SecretsCovered` | apps/api/src/cli/backfill-party-pii.ts:263-311 | when the run was applied every contact or number that lacked ciphertext or HMAC and has a value has both, and reads as before unless that was empty; no other row changed |
| `PartyBackfillGuarantees.DryRunPredictsApply` | apps/api/src/cli/backfill-party-pii.ts:367-375 | a dry run reports the same counts, candidates and failures as apply |
| `PartyBackfillGuarantees.PartiesSecondRun` | apps/api/src/cli/backfill-party-pii.ts:195-228 | a run after an applied run plans a party exactly when an updated one had an empty HMAC stored |
| `PartyBackfillGuarantees.SecretsSecondRun` | apps/api/src/cli/backfill-party-pii.ts:263-300 | the same for contacts and numbers |
| `PartyBackfillGuarantees.EmptyHmacIsPlannedAgain` | apps/api/src/cli/backfill-party-pii.ts:195-300 | a party and a phone with an empty HMAC, which every run plans again |
| `FiscalBackfill.AboveIsSuffix` | apps/api/src/cli/backfill-fiscal-document.ts:92-100 | above the n-th plaintext row lie exactly the later plaintext rows |
| `FiscalBackfill.AboveUnaffected` | apps/api/src/cli/backfill-fiscal-document.ts:92-100 | what happened to rows at or below the last id does not matter to the next page |
| `FiscalBackfill.BackfillTable` | apps/api/src/cli/backfill-fiscal-document.ts:88-131 | keyset paging visits every plaintext row once, in increasing id, and terminates, although rows leave the filter; apply rewrites exactly the accepted rows or stops at a thrown error |
| `FiscalBackfill.BackfillFiscalDocuments` | apps/api/src/cli/backfill-fiscal-document.ts:77-142 | both tables or none; totals are the sums of the two tables |
| `FiscalBackfill.SeenIsEncryptedPlusRemaining` | apps/api/src/cli/backfill-fiscal-document.ts:101-130 | seen is encrypted plus remaining, and the remaining rows are exactly those that encryption declined |
| `FiscalBackfill.SecondRunFindsNothing` | apps/api/src/cli/backfill-fiscal-document.ts:106-123 | a second apply encrypts nothing and leaves the table as it is |
| `FiscalReading.RefusedIff` | apps/api/src/common/crypto/fiscal-document.util.ts:59-69 | apply is refused exactly when some document holds neither a letter nor a digit of its normal form |
| `FiscalReading.ApplyRecovers` | apps/api/src/common/crypto/fiscal-document.util.ts:59-73 | an applied run encrypts every row it saw and leaves no plaintext; each document reads as it was and has the HMAC of its normal form |
| `FiscalReading.ReaderUnaffectedIff` | apps/api/src/common/crypto/fiscal-document.util.ts:127-133 | a reader sees another document exactly where a ciphertext of something else stood beside the plaintext |
| `PlaceholderBackfill.Detect` | apps/api/src/cli/backfill-placeholder-contacts.ts:109-131 | the loop gathers the counters, the placeholder HMACs and exactly the subscribers that change |
| `PlaceholderBackfill.RunPlan` | apps/api/src/cli/backfill-placeholder-contacts.ts:149-159 | the planned updates run one by one, in order, on the subscriber table |
| `PlaceholderBackfill.PlanClears` | apps/api/src/cli/backfill-placeholder-contacts.ts:149-159 | running the plan clears every subscriber that holds a placeholder and no other |
| `PlaceholderBackfill.BackfillPlaceholderContacts` | apps/api/src/cli/backfill-placeholder-contacts.ts:62-177 | errors and rehearsal change nothing; the report is the forecast on the old tables; apply gives both tables their final state |
| `PlaceholderBackfill.ForecastIsResult` | apps/api/src/cli/backfill-placeholder-contacts.ts:126-130 | the active subscribers left without contact, counted before any write, are those that apply produces |
| `PlaceholderBackfill.ContactsClean` | apps/api/src/cli/backfill-placeholder-contacts.ts:161-173 | after apply no live contact carries a placeholder HMAC and no contact value is empty |
| `PlaceholderBackfill.SecondRunFindsNothing` | apps/api/src/cli/backfill-placeholder-contacts.ts:113-145 | a second run finds no placeholder and forecasts the same subscribers |
| `PlaceholderOutcome.HashesAre` | apps/api/src/cli/backfill-placeholder-contacts.ts:109-117 | the placeholder HMACs are those of the phone and of the placeholder e-mail of each subscriber's expediente |
| `PlaceholderOutcome.SoftDeleteOutcome` | apps/api/src/cli/backfill-placeholder-contacts.ts:161-168 | soft delete dates exactly the live placeholder contacts, as many as the report counts; ids, HMACs, older dates and values stay, the empty value as NULL |
| `PlaceholderOutcome.HardDeleteOutcome` | apps/api/src/cli/backfill-placeholder-contacts.ts:161-173 | hard delete removes exactly the placeholder contacts, as many as the report counts; the others keep order and content |
| `PlaceholderOutcome.SubscribersOutcome` | apps/api/src/cli/backfill-placeholder-contacts.ts:113-159 | subscribers lose exactly their placeholders with the ciphertexts, as many as the report counts, and as many active ones are left without contact as it forecasts |
| `AnonymizePlan.WrittenIsExpected` | apps/api/src/cli/anonymize-titular.ts:514-553 | what is written for an expected value is accepted as that value |
| `AnonymizePlan.PlanDistinct` | apps/api/src/cli/anonymize-titular.ts:596-618 | the plan has each column once, and only columns that exist |
| `AnonymizePlan.PlannerAccepts` | apps/api/src/cli/anonymize-titular.ts:482-512 | the planner fails exactly on a column that refuses NULL and has no substitute, and never plans NULL for one that refuses it |
| `AnonymizeRules.PlanIsComplete` | apps/api/src/cli/anonymize-titular.ts:596-618 | when it succeeds every rule whose column exists has a field with the value of its kind, and a party its document number |
| `AnonymizeRules.AfterApplyHoldsRules` | apps/api/src/cli/anonymize-titular.ts:596-710 | after apply every ruled column of every row in scope holds what its rule asks for, whatever was stored: NULL, false, the marker, an empty object, its hash, or a ciphertext that opens to the marker |
| `AnonymizeRules.ApplyHoldsRules` | apps/api/src/cli/anonymize-titular.ts:647-710 | the same of the table that the job has run on, unless the planner refuses |
| `AnonymizeTable.FinalCells` | apps/api/src/cli/anonymize-titular.ts:673-697 | fixed columns get their value, per-row columns only where the old value did not count, every other column keeps its value |
| `AnonymizeTable.NothingResidual` | apps/api/src/cli/anonymize-titular.ts:699-707 | no planned field of an anonymised row counts as residual |
| `AnonymizeTable.ChangeIffTouched` | apps/api/src/cli/anonymize-titular.ts:580-594 | a row changes exactly when the job finds it dirty; then `updated_at` strictly advances, otherwise the whole row stays |
| `AnonymizeTable.TouchAdvances` | apps/api/src/cli/anonymize-titular.ts:582-586 | the new `updated_at` is the first whole millisecond after the old one and not before that of the clock |
| `AnonymizeTable.SecondApplyChangesNothing` | apps/api/src/cli/anonymize-titular.ts:675-695 | a second apply keeps every value, every marker ciphertext and the timestamp |
| `AnonymizeJob.Table.UpdateFixedFields` | apps/api/src/cli/anonymize-titular.ts:555-594 | the bulk update rewrites exactly the dirty rows in scope and returns their ids |
| `AnonymizeJob.Table.UpdateField` | apps/api/src/cli/anonymize-titular.ts:685-692 | the single-column update rewrites and reports exactly the rows with that id whose value differs |
| `AnonymizeJob.Table.AnonymizeRow` | apps/api/src/cli/anonymize-titular.ts:673-697 | the inner loop of one row writes each pending per-row field once and counts its residual fields |
| `AnonymizeJob.Table.AnonymizeTable` | apps/api/src/cli/anonymize-titular.ts:647-710 | apply leaves the table with every row in scope anonymised, no residual and the number of changed rows; dry-run and a refused plan change nothing |
| `AnonymizeJob.CountResidual` | apps/api/src/cli/anonymize-titular.ts:699-707 | the counting loops add up the residual fields of all rows |
| `AnonymizeJob.SecondRunChangesNothing` | apps/api/src/cli/anonymize-titular.ts:647-710 | a second apply changes no row of the table |
| `AnonymizeJob.OnlyTheScopeChanges` | apps/api/src/cli/anonymize-titular.ts:647-710 | rows out of scope stay as they are, columns out of plan keep their value, changed rows advance in time |
| `AnonymizeJob.ResidualPredictsChange` | apps/api/src/cli/anonymize-titular.ts:524-553 | a row with residual fields is changed by apply; one without is changed exactly when an empty-JSON column holds something other than an empty object |
| `AnonymizeJob.EmptyArrayChanges` | apps/api/src/cli/anonymize-titular.ts:524-553 | a row with an empty JSON array: no residual field, and changed by apply |
| `VerificationGroups.GroupMarked` | apps/api/src/cli/anonymize-titular.ts:1339-1377 | the two loops give each key one group made of all the records with that key and of no other, in order |
| `VerificationReport.KeysNeverCollide` | apps/api/src/cli/anonymize-titular.ts:1340-1344 | two tagged keys are equal exactly when their records have the same origin |
| `VerificationReport.SubscriberInOneGroup` | apps/api/src/cli/anonymize-titular.ts:1352-1357 | each marked subscriber is in exactly one group, that of its own key |
| `VerificationReport.ExpedienteInItsGroup` | apps/api/src/cli/anonymize-titular.ts:1354-1376 | each marked expediente is in the group of its own key; in another exactly when a subscriber there points to it |
| `VerificationReport.UsersOfGroup` | apps/api/src/cli/anonymize-titular.ts:1352-1363 | the users of a group are exactly those of the subscribers with its key, one entry for each that has one |
| `VerificationReport.SubscribersShareParty` | apps/api/src/cli/anonymize-titular.ts:1345-1351 | the group of a marked subscriber's party holds exactly the marked records of that party; its group without a party holds none that has one |
| `VerificationReport.ExpedientesShareParty` | apps/api/src/cli/anonymize-titular.ts:1345-1351 | the same for expedientes |
| `VerificationReport.TitularesConserved` | apps/api/src/cli/anonymize-titular.ts:1353-1375 | the titulares of all groups are as many as the marked records: none lost, none doubled |
| `VerificationReport.CheckGroups` | apps/api/src/cli/anonymize-titular.ts:1379-1412 | a finding for each group with residuals and for no other, with each of its records once, its tables with residuals and their sum; findings add up to all residuals of all groups |
| `VerificationReport.VerifyMarked` | apps/api/src/cli/anonymize-titular.ts:1337-1421 | `titularesChecked` is the number of distinct keys, the totals are those of the groups |
| `VerificationReport.CleanIffNoResidual` | apps/api/src/cli/anonymize-titular.ts:1396-1420 | the report is clean exactly when no table of any group has a residual, and then has no finding |
| `Decimal.ParseIntOfText` | apps/portal/src/lib/use-table-query-state.ts:57-62 | parsing a printed whole number gives it back exactly while it prints without exponent |
| `UrlParams.SearchParams.Set` | apps/portal/src/lib/merge-url-search-params.ts:16 | the first pair of the name takes the value, the others go, or a pair is appended |
| `UrlParams.SearchParams.Delete` | apps/portal/src/lib/merge-url-search-params.ts:14 | all pairs of the name go, the others keep their order |
| `UrlParams.MergeUrlSearchParams` | apps/portal/src/lib/merge-url-search-params.ts:6-21 | the loop applies the updates in order, null and empty ones as deletions |
| `UrlParams.GetMerged` | apps/portal/src/lib/merge-url-search-params.ts:6-21 | after a merge a name reads its last update, an empty one as absence, and every other name reads as before |
| `UrlParams.WithTakesFirstPlace` | apps/portal/src/lib/merge-url-search-params.ts:16 | a set value takes the place of the first pair of its name, or the last place; no other pair moves |
| `TableQuery.ReadFilters` | apps/portal/src/lib/use-table-query-state.ts:136-144 | the loop collects exactly the filters with a non-blank value, trimmed |
| `TableQuery.BuildPatch` | apps/portal/src/lib/use-table-query-state.ts:149-173 | the assignments and the filter loop build the patch that the specification describes, later keys overwriting earlier ones in place |
| `TableQuery.BuildCorrection` | apps/portal/src/lib/use-table-query-state.ts:107-127 | the two checks find exactly the invalid page and size |
| `TableQuery.Router.SetQuery` | apps/portal/src/lib/use-table-query-state.ts:146-183 | the URL becomes the merge of the patch; push keeps the old URL behind it, replace does not |
| `TableQuery.Router.Correct` | apps/portal/src/lib/use-table-query-state.ts:107-134 | the effect replaces the URL by its correction without a history entry |
| `TableQueryGuarantees.RawAfterWrite` | apps/portal/src/lib/use-table-query-state.ts:149-175 | each key of the table reads what was asked for it, filters last, and keys not asked for read as before |
| `TableQueryGuarantees.PageRoundTrip` | apps/portal/src/lib/use-table-query-state.ts:151-154 | a page above 1 reads back as its whole part exactly below 10^21; any other request reads as page 1; no request keeps the page |
| `TableQueryGuarantees.WrittenPageIsBadIff` | apps/portal/src/lib/use-table-query-state.ts:107-154 | of all pages that can be asked for, the effect later drops exactly NaN and infinity |
| `TableQueryGuarantees.WrittenSizeIsBadIff` | apps/portal/src/lib/use-table-query-state.ts:107-159 | a size other than the default is written as it prints, and below 10^21 the effect later drops exactly the sizes that are not listed or below 1 |
| `TableQueryGuarantees.SortReadIff` | apps/portal/src/lib/use-table-query-state.ts:69-105 | a sort is read exactly from a column that is not blank and one of the two words for its direction |
| `TableQueryGuarantees.SizeRoundTrip` | apps/portal/src/lib/use-table-query-state.ts:156-159 | a size reads back exactly when it is the default, or listed, at least 1 and below 10^21 |
| `TableQueryGuarantees.SortRoundTrip` | apps/portal/src/lib/use-table-query-state.ts:161-167 | the sort column reads back trimmed and the direction as written |
| `TableQueryGuarantees.FilterRoundTrip` | apps/portal/src/lib/use-table-query-state.ts:169-173 | an updated filter reads back trimmed, blank ones vanish, the others stay |
| `TableQueryGuarantees.SizeAndSortReset` | apps/portal/src/lib/use-table-query-state.ts:203-222 | a new size or sort goes to page 1 and keeps the rest of the state |
| `TableQueryGuarantees.PageAndFilterReset` | apps/portal/src/lib/use-table-query-state.ts:196-229 | a new page changes nothing else; new filters go to page 1 and keep size and sort |
| `TableQueryGuarantees.SetPage` | apps/portal/src/lib/use-table-query-state.ts:196-201 | a page change leaves the old URL one step back |
| `TableQueryGuarantees.SetPageSize` | apps/portal/src/lib/use-table-query-state.ts:203-208 | a size change leaves no step back |
| `TableQueryGuarantees.SetSort` | apps/portal/src/lib/use-table-query-state.ts:210-222 | a sort change leaves no step back |
| `TableQueryGuarantees.SetFilters` | apps/portal/src/lib/use-table-query-state.ts:224-229 | a filter change leaves no step back |
| `TableNamespaces.KeysMeetIff` | apps/portal/src/lib/use-table-query-state.ts:53-55 | two namespaces have a key in common if and only if the prefix of one starts with that of the other |
| `TableNamespaces.WriteIsolated` | apps/portal/src/lib/use-table-query-state.ts:53-55 | writing or correcting one table leaves the state of every separate table unchanged |
| `TableNamespaces.IsolatedIffApart` | apps/portal/src/lib/use-table-query-state.ts:53-55 | two namespaces are isolated in every write and every state if and only if neither prefix starts with the other |
| `TableNamespaces.ReaderIsolatedIff` | apps/portal/src/lib/use-table-query-state.ts:53-55 | a table with the shorter prefix is out of reach of a namespace if and only if none of its filters lies under what is left of the longer prefix |
| `TableNamespaces.WriterIsolatedIff` | apps/portal/src/lib/use-table-query-state.ts:53-55 | a write with the shorter prefix is out of reach of a namespace if and only if none of its filters lies under what is left of the longer prefix |
| `TableNamespaces.DottedNamespacesMeet` | apps/portal/src/lib/use-table-query-state.ts:53-55 | a table of namespace a, setting a filter b.page, turns the page of a table of namespace a.b |
| `TableNamespaces.BareKeyMeets` | apps/portal/src/lib/use-table-query-state.ts:53-55 | a table without namespace, setting a filter items.page, turns the page of the table items |
| `TableQueryGuarantees.CorrectionIsFixpoint` | apps/portal/src/lib/use-table-query-state.ts:107-134 | one run of the effect leaves nothing to correct; a valid URL is left as it is |
| `TableQueryGuarantees.CorrectionKeepsState` | apps/portal/src/lib/use-table-query-state.ts:97-134 | the effect keeps page, size and sort, and the filters unless page or size is one |
| `TableQueryGuarantees.CorrectedUrlIsShown` | apps/portal/src/lib/use-table-query-state.ts:97-134 | after the effect the page and size in the URL are those that the table shows |
| `Base64.DecodeOfEncode` | apps/api/src/app.config.ts:35-40 | every encoding matches the pattern and decodes to its bytes |
| `Base64.EncodeOfDecode` | apps/api/src/app.config.ts:39-40 | a matching text re-encodes to itself exactly when its spare bits are zero |
| `Base64.PaddedMatches` | apps/api/src/app.config.ts:35 | a text of the alphabet of a possible length followed by its padding matches the pattern |
| `Base64.MatchIsPadded` | apps/api/src/app.config.ts:35 | the pattern accepts nothing else |
| `SigningKey.AcceptedIffCanonicalEncoding` | apps/api/src/app.config.ts:34-41 | a key is accepted exactly when it is the canonical encoding of at least 32 bytes (RFC 4648 sections 3.5 and 4) |
| `SigningKey.AcceptedIffWellFormed` | apps/api/src/app.config.ts:34-41 | the same by form: padded groups, at least 43 characters before it, spare bits zero |
| `SigningKey.ValidateProductionInternalQueueSigningKey` | apps/worker/src/main.ts:8-33 | the worker's loop throws exactly for the first refused variable, in production only |
| `SigningKey.CheckKey` | apps/worker/src/main.ts:17-30 | one turn of the loop accepts exactly an absent previous key, or a value whose trimmed text is the canonical encoding of at least 32 bytes |
| `SigningKey.ActiveAgrees` | apps/worker/src/main.ts:17-30 | API and worker agree on the active key |
| `SigningKey.PreviousAgreesIffTrimmed` | apps/api/src/app.config.ts:249-258 | on the previous key they differ exactly for a valid key with white space around it |
| `SigningKey.SpaceAfterPreviousKey` | apps/worker/src/main.ts:18-22 | every valid key followed by a space is such a case |
| `Jwt.SwapIsPointwise` | apps/portal/src/lib/api-client.ts:391 | the two global replacements act on each character alone |
| `Jwt.AtobOfPadded` | apps/portal/src/lib/api-client.ts:392-394 | with the computed padding every text of the alphabet decodes, except one of impossible length |
| `Jwt.PayloadReadIff` | apps/portal/src/lib/api-client.ts:385-401 | a Base64url payload reaches JSON parsing exactly when its length is possible, with its bytes |
| `Jwt.ReadHasThreeParts` | apps/portal/src/lib/api-client.ts:385-390 | a payload is read only from a token of exactly three parts |
| `Jwt.PayloadRoundTrip` | apps/portal/src/lib/api-client.ts:385-401 | every unpadded Base64url payload (RFC 4648 section 5) decodes to its original bytes |
| `HtmlEscape.EscapeIsEach` | apps/portal/src/lib/api-client.ts:4850-4857 | the five ordered replacements are one map over the characters |
| `HtmlEscape.EscapeAppend` | apps/portal/src/lib/api-client.ts:4850-4857 | escaping distributes over concatenation |
| `HtmlEscape.UnescapeOfEscape` | apps/portal/src/lib/api-client.ts:4850-4857 | the original text can be read back from the escaped one |
| `HtmlEscape.EscapeInjective` | apps/portal/src/lib/api-client.ts:4850-4857 | different texts have different escapes |
| `HtmlEscape.EscapedIsInert` | apps/portal/src/lib/api-client.ts:4850-4857 | escaped text holds no character that opens a tag or closes an attribute |
| `HtmlEscape.HighlightWithoutMarks` | apps/portal/src/lib/api-client.ts:4859-4880 | whatever lower case does, a highlight without its marks is the escaped trimmed source |
| `HighlightMarks.HighlightIffOccurs` | apps/portal/src/lib/api-client.ts:4859-4874 | a query that occurs in the source, ignoring case, is highlighted; nothing else is where lower case keeps the length of the source |
| `HighlightMarks.MarksFollowIff` | apps/portal/src/lib/api-client.ts:4867-4879 | whatever lower case does, the marks are around what the search found if and only if the lengths before and inside them fit and the cuts leave their lower case as it is |
| `HighlightMarks.MarksFollowIffLengthsFit` | apps/portal/src/lib/api-client.ts:4867-4879 | where lower case works through the text, the lengths alone decide it |
| `HighlightMarks.MarksFirstIffQueryKeepsLength` | apps/portal/src/lib/api-client.ts:4867-4879 | in a source whose length lower case keeps, the marks are around the first match if and only if it keeps the length of the query |
| `HighlightMarks.MarksRightIffSourceKeepsLength` | apps/portal/src/lib/api-client.ts:4867-4879 | the marks are right for every query of kept length if and only if lower case keeps the length of the source |
| `HighlightMarks.MarksCanMissTheQuery` | apps/portal/src/lib/api-client.ts:4867-4879 | a source and a query that it contains for which the highlighter returns empty marks at the end |
| `HighlightMarks.SigmaQueryIsMissed` | apps/portal/src/lib/api-client.ts:4867-4874 | a source that holds the query as it is, and no highlight: lower case depends on the end of the word |
| `HighlightMarks.LowerTextIsLowerCase` | apps/portal/src/lib/api-client.ts:4867-4868 | the conditions on lower case are met, on every text, by one that lengthens a character |
| `ListPaging.NormalizeIdempotent` | apps/portal/src/lib/list-meta.ts:98-131 | normal metadata stays as it is, whatever fallbacks a second call has |
| `ListPaging.CapabilitiesSaid` | apps/portal/src/lib/list-meta.ts:110-128 | what was said about capabilities stays; otherwise only page mode has random access and nothing can be sorted |
| `ListPaging.WindowsTile` | apps/portal/src/lib/list-meta.ts:134-146 | windows of pages 1 to ceil(total/limit) follow each other without gap or overlap from 1 to the total |
| `ListPaging.NothingShown` | apps/portal/src/lib/list-meta.ts:140-142 | an empty list, or pages without rows, show nothing |
| `ListPaging.RowInOneWindow` | apps/portal/src/lib/list-meta.ts:134-146 | each row is shown by exactly one page, and no page shows any other row |
| `ListPaging.TotalPagesIsLastWindow` | apps/portal/src/lib/list-meta.ts:108-109 | the computed page count is the page that shows the last row |
| `ListPaging.CollectListPages` | apps/portal/src/lib/list-meta.ts:54-92 | the loop gathers pages up to the first without more or to its limit, and closes the metadata |
| `ListPaging.CollectedIsTheList` | apps/portal/src/lib/list-meta.ts:54-92 | over a server in page mode the result is the list in order or its first maxPages * limit rows, with its total; total and rows agree exactly when the list fits |
| `ListPaging.CursorListCollected` | apps/portal/src/lib/list-meta.ts:54-109 | over a cursor server without `hasMore` the rows are the same; a total that was sent is kept, and without one it is the length of the last page, right exactly when one page was read |
| `ListPaging.WithoutHintOnlyOnePage` | apps/portal/src/lib/list-meta.ts:102-106 | a first page with neither `hasMore` nor a cursor is all that is collected; without metadata its length is the total |

## Left out

- RenewalProtocol.NeverRevoked: assumes what `SilentIffSerialised` shows to be needed, and that the Set-Cookie of a rotation is stored before the lock is released; the clock never runs backwards.
- RenewalRuns.RenewalRate: the bound is for tabs with Web Locks whose token is not emptied in between; without locks the code promises none.
- Session: the payload of a token is reduced to its integer `exp`; a granted answer always carries a non-empty token; the retry after a renewal, tenant slugs, the logout request and the server-side end of a family are single steps without content.
- A token that stays empty after logout is not claimed: a renewal under way may store one afterwards.
- ReencryptRun.TenantDatabase: pages are exact slices in a stable id order, writes are single cells, and whether the database refuses a write depends on the row and column only.
- ReencryptRun.RunMfaToPii: key loading and their distinctness, the schema registry and report formatting are not modelled.
- AES-GCM, HMAC and SHA-256 are functions with the laws of `Lawful`; text encodings and randomness are parameters.
- PartyBackfillJob.BackfillPartyPii: merge candidates form a set, not the sorted list; columns that the migration has not added read as NULL; phone normalisation is reduced to trimming.
- PartyBackfillReport.CandidatesIffDuplicates: document types hold no NUL character, as PostgreSQL text never does.
- FiscalBackfill.BackfillTable: uuids are numbers in database order; there is no concurrent writer.
- FiscalBackfill.SecondRunFindsNothing: the second run's encryption accepts the same documents.
- AnonymizeJob.Table.AnonymizeTable: the table of rules is a parameter with one rule per column and none for a party's document number; ids are unique; the erasure participants, `updateUniqueUserFields` and `selectChildIds` are not part of this model.
- VerificationReport.VerifyMarked: the check of one group is a parameter; the scope that the erasure adapter resolves is not part of this model.
- TableQueryGuarantees.PageRoundTrip: numbers are exact, so the rounding of values above 2^53 and the overflow of very long digit strings are not modelled.
- TableQueryGuarantees.SizeRoundTrip: page sizes are whole numbers.
- TableQuery.Router.SetQuery: percent-encoding and decoding of the query string, and the order that JavaScript gives to integer-like keys, are not modelled; forward history is not kept.
- SigningKey.ActiveAgrees: Joi's own checks are reduced to presence, trimming and refusal of the empty string.
- Jwt.PayloadRoundTrip: JSON parsing is a parameter applied to the decoded bytes.
- HighlightMarks.HighlightIffOccurs: `toLowerCase` is a parameter that works through the text from left to right and may lengthen it; for texts whose lower case depends on context it is false (`SigmaQueryIsMissed`), and surrogate pairs split between match and rest are outside.
- HighlightMarks.MarksFirstIffQueryKeepsLength: the same condition on lower case; `MarksFollowIff` is the form without it.
- HighlightMarks.MarksRightIffSourceKeepsLength: the same condition on lower case.
- ListPaging.CollectedIsTheList: page numbers, limits and totals are whole numbers.
- `audit-feed-cache.ts`: its slot is compared with the request while it holds the promise of `finally`, so the claim that entries are dropped once settled is false of the code.
- HTTP wrappers, DTO mapping, labels, vocabularies, CLI argument parsing, environment loading, report printing and read-only reports: they would only add easy members.
