# Ploydok: a verified model of its protocols, codecs and adapters

Ploydok is a self-hosted deployment platform: a TypeScript API and a Rust agent. Most of it moves data
between services, but inside it are a number of small protocols, codecs and queues on which its safety
rests. This project models those in Dafny and proves what they promise, for every input and every run.

| file | part of Ploydok |
|---|---|
| `TotpReplay.dfy` | replay rejection of one-time codes by looking back over eight audit rows |
| `Totp.dfy` | the code computation and the search over the tolerance window |
| `Sessions.dfy` | refresh-token rotation by compare-and-swap, under interleaved requests |
| `Throttle.dfy` | the lock-out after wrong codes, and the cap on concurrent sessions |
| `Rotation.dfy` | rotation of a database's credentials with a failure possible at every await |
| `Base32.dfy`, `Pem.dfy`, `Bits.dfy` | base32 on a wrapping 32-bit accumulator, base64 on byte shifts, PEM |
| `CivilTime.dfy` | time stamps to Unix seconds by days-from-civil arithmetic |
| `EnvFile.dfy` | the dotenv parser |
| `ConnString.dfy` | percent-encoding, and connection strings built from templates and read back |
| `ContainerName.dfy` | names of database containers against the agent's rule |
| `Routing.dfy` | the Caddy route list, CDN handler injection, the boot reconciler |
| `EventQueue.dfy` | the adapter from stream events to an async iterator |
| `Osv.dfy` | batched, paginated vulnerability queries |
| `ExecAudit.dfy` | the terminal auditor |
| `Text.dfy` | optional values, sequences and string functions shared by the others |

Code that mutates state is modelled by classes and methods; what runs concurrently is modelled by states
and events, one event per database call or await, and the theorems quantify over all sequences of events.
HMAC, the network, Redis, Postgres, Caddy and the database engines are parameters: functions,
answers, or oracles that say which call fails.

## What turned out otherwise than one might expect

- Eight audit rows are enough to reject every replay exactly as long as a request takes at most one
  30-second period from verification to insert. One millisecond more, and a code can be accepted twice.
- A rotation that drops the old user leaves every stored credential usable if and only if the row has a
  connection string, the new user name differs from the old, and no secret of an app without a link row names the
  old user: no URL of such an app, and no user variable beside a password variable. Under these conditions, and for
  Redis if no such secret names `default_new`, nothing becomes unusable at any instant, whatever fails.
- Secrets of an app without a link row are real. Both places that link an app insert its secrets before the link row
  (apps/api/src/routes/apps-databases-link.ts:243-265, apps/api/src/routes/apps.ts:1121-1142), so one failed await
  after the first insert leaves them behind, and the next rotation cuts them off.
- A second rotation of a Redis database violates the condition on the name, since both names are then `default_new`.
- A rotation of Postgres or Mongo that fails after the new user is created and before the row names it leaves that
  user behind. From then on every rotation of this database fails, because the engine refuses the name; one failed
  insert into `password_history` is enough.
- A rollback whose steps fail is still reported as rolled back. It completes if and only if none of its awaits
  fails, redeploy requests and a refused drop aside; with a single fault, at the await that should restore the
  row, `RotatePassword` ends in `RolledBack(false)` with the new credential in place.
- The lock of a rotation stays behind only if the last await fails, and then every later rotation is refused. It does
  stay if taking it has effect and its reply is lost, because the handler that releases it is not yet in force.
- Rotation and rollback rewrite five variables of each link, four for Redis. Linking also writes `<prefix>_NAME`,
  which both delete and neither restores.
- The unique index of `app_db_links` includes the prefix. The routes that link delete the links of an app and
  database before they insert one, so only two racing link requests leave an app linked twice; the loop then
  keeps the variables of its last link alone.
- Time stamps are read as if their offset were `Z`, so they denote the instant read if and only if it is zero.
- The dotenv parser undoes the usual escaping exactly for values in which no backslash stands directly before
  `n`, `r` or `t`, because it replaces one escape after the other over the whole text. A value that ends in a backslash
  takes a comment behind its closing quote for part of itself.
- A password is recovered from a connection string if and only if it is not empty, for every host that passes the
  agent's rule, hence for the container of every database id. These are the only hosts the code passes
  (apps/api/src/databases/spawner.ts:462, 498, 776-778). For arbitrary hosts the condition is that no at sign follows
  the credentials before the path; two hosts that no caller passes, one with an at sign and one with a replacement
  pattern of `String.replace`, show that the agent's rule is needed.
- In any fifteen minutes a user gets at most nine answers without a lock-out, not ten, and nine can happen.
- The session cap can be exceeded if and only if a session was open, or a refusal not yet rolled back, when the key
  last expired. A later expiry with none of either restores the cap.
- A NUL in the name or version of a dependency, and nothing else, lets another dependency share its key.
- Two overlapping calls of `next()` can leave the first waiting for ever, even after the stream has ended.
- The reset of the terminal auditor at 16 KB is never reached: the 4 KB limit per line acts first.
- The comment on `upsertRoute` speaks of replacing one route or appending it. The code reads the whole
  list, puts the route first and writes the whole list back; the model follows the code.

## Model

| member | source | states |
|---|---|---|
| `TotpReplay.NewerRowsAreNear` | apps/api/src/auth/second-factor.ts:127-141 | a row at least as new as an earlier acceptance of a step that is still in the window names a step at most three away |
| `TotpReplay.LookBackSuffices` | apps/api/src/auth/second-factor.ts:127-152 | whatever eight newest rows the query returns, ties in any order, scanning them decides the same as scanning the whole history |
| `TotpReplay.StepKeepsInv` | apps/api/src/auth/second-factor.ts:122-164 | every clock tick, verification, lock, scan, insert, commit and abort keeps: steps distinct, rows in time, locks exclusive, scanned steps unused |
| `TotpReplay.NoStepAcceptedTwice` | apps/api/src/auth/second-factor.ts:284-303 | in every run with delays of at most one period, no state holds two acceptances of one step |
| `TotpReplay.EveryScanIsExact` | apps/api/src/auth/second-factor.ts:143-152 | in every such run a scan answers "replayed" if and only if the step has ever been accepted |
| `TotpReplay.LongerDelayAdmitsReplay` | apps/api/src/auth/second-factor.ts:127-164 | with any longer delay a state is reachable in which one step has been accepted twice |
| `TotpReplay.LookBackSafeIffWithinPeriod` | apps/api/src/auth/second-factor.ts:117-165 | all reachable states are free of double acceptance if and only if the delay is at most one period |
| `TotpReplay.VerificationsPick` | apps/api/src/auth/second-factor.ts:127-141 | the history of a user are exactly the rows that match the four conditions of the query, in order |
| `TotpReplay.AuditLog.ConsumeTotpStep` | apps/api/src/auth/second-factor.ts:117-165 | replayed if and only if the answer names the step, rows with unreadable metadata skipped; if the answer is a page of the user's rows this is the verdict of the protocol's scan, and an acceptance adds exactly the row that the protocol commits; other users' rows stay |
| `Totp.CounterBytesSpell` | apps/api/src/auth/totp.ts:103-109 | exactly the counters of 64 bits have a message; it has eight bytes, and read with the most significant first they are the counter (section 5.2 of RFC 4226) |
| `Totp.CounterBytesInjective` | apps/api/src/auth/totp.ts:103-109 | no other message of eight bytes spells the counter |
| `Totp.TruncateReadsFourBytes` | apps/api/src/auth/totp.ts:114-120 | the shifts and ors compute the big-endian number of four bytes with the top bit cleared (section 5.3 of RFC 4226) |
| `Totp.ShiftedTimeIsShiftedCounter` | apps/api/src/auth/totp.ts:101-101 | the code at a time shifted by i periods is the code of the counter shifted by i, also before the epoch |
| `Totp.CodeHasSixDigits` | apps/api/src/auth/totp.ts:110-123 | a code has six digits and their value is the truncated HMAC of the message that spells the counter, modulo a million |
| `Totp.CodeAtIff` | apps/api/src/auth/totp.ts:99-124 | a text is the code of a counter if and only if it is the six digits that section 5.3 of RFC 4226 gives for the decoded secret and that counter |
| `Totp.WithoutSpacePicks` | apps/api/src/auth/totp.ts:146-146 | what is left of the input are the characters that are not white space, all of them, in order |
| `Totp.SearchWindow` | apps/api/src/auth/totp.ts:157-169 | the matched step is the first counter in the window whose code was entered; none matches, or a computation throws, exactly when the answer says so |
| `Totp.VerifyCodeDetailed` | apps/api/src/auth/totp.ts:139-170 | input that is not six digits after removing white space is refused; for a secret in base32 and counters of 64 bits the answer is the first counter of the window whose code by the standard was entered, or that there is none; otherwise as `SearchWindow` |
| `Totp.WindowsAgree` | apps/api/src/auth/totp.ts:144-164 | a matched step lies in the window that the replay theorem assumes |
| `Sessions.Table.CreateSession` | apps/api/src/auth/sessions.ts:40-67 | afterwards exactly this token verifies, for seven days, and can be exchanged, a wrong one gets no grace, and no other session is touched |
| `Sessions.Table.VerifyRefreshToken` | apps/api/src/auth/sessions.ts:73-92 | a row comes back if and only if it exists, is not revoked, not expired, and stores this token |
| `Sessions.Table.RotateRefreshToken` | apps/api/src/auth/sessions.ts:98-126 | the row is rotated if and only if it still stores the hash that was read and is not revoked; then exactly the new token verifies, for seven days; nothing else changes |
| `Sessions.Table.RevokeSession` | apps/api/src/auth/sessions.ts:133-138 | afterwards no token of the session verifies at any time, none can be exchanged, none gets grace, and no other session is touched |
| `Sessions.Table.RevokeSessionFamily` | apps/api/src/auth/sessions.ts:146-151 | exactly this row is revoked; one that is revoked already is left as it is |
| `Sessions.Table.Refresh` | apps/api/src/routes/auth.ts:1140-1219 | without interference: a new token exactly for the stored token of a live session, a conflict exactly within ten seconds of a rotation, and otherwise the session is revoked |
| `Sessions.Table.SignInToSignOut` | apps/api/src/routes/auth.ts:1129-1219 | from sign-in over refresh and replay to sign-out: which of the three requests gets a token, a conflict or a refusal, by the times between them |
| `Sessions.StepKeepsInv` | apps/api/src/auth/sessions.ts:73-151 | every database call of every request keeps: the stored hash is the newest of a chain of distinct tokens, each link made by some request |
| `Sessions.AtMostOneRotationPerHash` | apps/api/src/auth/sessions.ts:98-126 | under any interleaving no two requests exchange the same token |
| `Sessions.RotationsFormAChain` | apps/api/src/auth/sessions.ts:98-126 | the tokens of a session form one line, and each link is the work of exactly one request |
| `Sessions.OnlyNewestVerifies` | apps/api/src/auth/sessions.ts:73-92 | a request that is ever accepted showed the token that was newest when it read the row, and the session was live then |
| `Sessions.NothingAfterRevocation` | apps/api/src/auth/sessions.ts:131-151 | after a revocation the chain never grows and no request begun later is ever accepted |
| `Sessions.RejectionRevokes` | apps/api/src/routes/auth.ts:1167-1177 | once a request has been rejected the session is revoked for good |
| `Sessions.SwapSucceedsIff` | apps/api/src/auth/sessions.ts:107-126 | the compare-and-swap succeeds if and only if since the request began nobody has rotated and nobody has revoked |
| `Sessions.UndisturbedRequestIsServed` | apps/api/src/routes/auth.ts:1191-1216 | from every reachable state, a request with the newest token of a live session that nobody disturbs gets a new token, and that is then the newest |
| `Sessions.LifeNeverShrinks` | apps/api/src/auth/sessions.ts:103-114 | although dates are taken before the update is applied, no interleaving moves the rotation date back or shortens a session's life |
| `Sessions.SpentTokenNeverAccepted` | apps/api/src/routes/auth.ts:1191-1210 | a token that is not the newest is never exchanged; the request is let off only if a rotation less than ten seconds old stood in the row, or ends in rejection |
| `Throttle.Failures.RecordTotpFailure` | apps/api/src/auth/totp-throttle.ts:20-41 | a running bucket counts up to five and keeps its end, then it locks; any other failure opens one that ends after fifteen minutes; the waiting time is that to its end, rounded up to whole seconds; other users are untouched |
| `Throttle.Failures.ResetTotpFailures` | apps/api/src/auth/totp-throttle.ts:43-45 | exactly this user's bucket is gone |
| `Throttle.AtMostNineInAnyWindow` | apps/api/src/auth/totp-throttle.ts:20-41 | in every run without a reset and with a clock that does not go back, any half-open interval of fifteen minutes holds at most nine unlocked failures |
| `Throttle.NineCanHappen` | apps/api/src/auth/totp-throttle.ts:20-41 | a run with nine |
| `Throttle.LockedUntilReset` | apps/api/src/auth/totp-throttle.ts:22-32 | a locked user is locked with the same end at every later failure before that end, and not from that moment on |
| `SessionCap.StepKeepsInv` | apps/api/src/auth/rate-limit.ts:42-67 | every INCR, rollback, close and key expiry keeps: counter plus what expiry forgot equals open sessions plus refusals not rolled back |
| `SessionCap.CapHolds` | apps/api/src/auth/rate-limit.ts:42-67 | if the key expires only when idle, the counter is exact and never more than `max` sessions are open |
| `SessionCap.AdmittedIff` | apps/api/src/auth/rate-limit.ts:48-57 | a session is admitted if and only if open sessions plus pending refusals are fewer than `max` plus what expiry forgot |
| `SessionCap.CapFailsIffLost` | apps/api/src/auth/rate-limit.ts:42-67 | from every reachable state, some continuation without expiry opens more than `max` sessions if and only if the last expiry forgot a session or a refusal |
| `SessionCap.ExpiryBreaksCap` | apps/api/src/auth/rate-limit.ts:48-51 | for every cap, also a cap of none, one INCR and one expiry are enough to reach such a state |
| `SessionCap.Store.IncrementConcurrentSessions` | apps/api/src/auth/rate-limit.ts:42-58 | on its own: allowed if and only if the counter was below the cap, and a refusal leaves no trace |
| `Rotation.AfterLinksCarry` | apps/api/src/databases/rotation.ts:377-414 | after the loop every secret of a linked app carries the credential written, and all others are as before |
| `Rotation.LinkSurvivesIffLast` | apps/api/src/databases/rotation.ts:388-413 | a link's variables survive the loop if and only if no later link is of the same app |
| `Rotation.VariablesAfterRewrite` | apps/api/src/databases/rotation.ts:221-242 | which variables a link has after the loop, in rotation as in rollback: those that `buildSecretVars` writes and no other, so the database name is lost |
| `Rotation.LoopDelivers` | apps/api/src/databases/rotation.ts:221-242 | for links of distinct apps, whatever they held: afterwards each app has URL, password, host, port and except on Redis user; host and port are those of the URL given, the URL leads to the same database with all its query entries, and user and password are those given |
| `Rotation.HealthyIff` | apps/api/src/databases/rotation.ts:427-447 | the polls end well if and only if some poll finds every app running and all before it are undecided |
| `Rotation.RotationCutsNothingOffIff` | apps/api/src/databases/rotation.ts:377-472 | the secrets after a completed rotation are all accepted if and only if no URL of an app without a link row names the old user, nor a user variable beside a password variable of such an app |
| `Rotation.FailedLinkIsCutOffIff` | apps/api/src/routes/apps-databases-link.ts:225-265 | a link that fails before its link row leaves secrets that violate this condition if and only if at least one insert had been made |
| `Rotation.DropKeepsAcceptedIff` | apps/api/src/databases/rotation.ts:170-203 | once the linked apps hold another user's credential, dropping a user keeps every secret accepted if and only if no app without a link row names that user |
| `Rotation.World.NoFaultNoFailure` | apps/api/src/databases/rotation.ts:315-521 | the counter by which outcomes are characterised stays put while every await passes; every method bounds it by the number of awaits that go wrong |
| `Rotation.World.WriteLink` | apps/api/src/databases/rotation.ts:377-414 | with a failure at any insert: every intermediate state is safe if the credential is accepted; without one the app's secrets are exactly the fresh ones |
| `Rotation.World.WriteLinks` | apps/api/src/databases/rotation.ts:377-414 | the same for the loop over all links |
| `Rotation.World.EnqueueRedeploys` | apps/api/src/databases/rotation.ts:416-425 | every linked app gets one redeploy in the queue, in order, unless an insert fails; the rollback goes on after a failed one |
| `Rotation.World.PollApps` | apps/api/src/databases/rotation.ts:427-447 | healthy if and only if the first decisive poll before the deadline finds all apps running |
| `Rotation.World.SwitchRow` | apps/api/src/databases/rotation.ts:316-358 | creating the user, recording the old password and switching the row: safe throughout under the two conditions on the row; a refused user changes nothing; a failed history insert leaves the new user and nothing else |
| `Rotation.World.Spread` | apps/api/src/databases/rotation.ts:360-425 | rewriting the secrets and requesting redeploys: safe throughout if the credential is accepted; without a connection string it succeeds only if nothing is linked |
| `Rotation.World.Switch` | apps/api/src/databases/rotation.ts:316-425 | both together keep every intermediate state safe under the two conditions on the row, and it is said exactly what has changed when they succeed, when the user is refused and when only the history insert fails |
| `Rotation.World.Restore` | apps/api/src/databases/rotation.ts:558-640 | restoring keeps every intermediate state safe if no app without a link row names the new user; it completes if and only if none of its awaits fails, apart from redeploy requests and a refused drop, and then row, secrets and, without a fault, the engine's users are those of the old credential, and with the new user gone the state is safe if and only if that condition holds |
| `Rotation.World.RollbackRotation` | apps/api/src/databases/rotation.ts:540-659 | the same; the last await releases the lock whatever failed before, and the lock stays exactly if that await has no effect; if the first await fails and the release does not, nothing is restored and a rollback is reported |
| `Rotation.World.Finish` | apps/api/src/databases/rotation.ts:470-482 | dropping the old user and unlocking: the state is safe afterwards if and only if the two conditions on the row hold and no app without a link row names the old user |
| `Rotation.World.Conclude` | apps/api/src/databases/rotation.ts:427-482 | polling, then finishing or rolling back: which it is, and when it succeeds |
| `Rotation.World.TryRotate` | apps/api/src/databases/rotation.ts:315-509 | the whole try block, for any secrets: safe throughout under the conditions, safe at the end of a rotation that dropped the old user only then; it completes, or ends in a completed rollback, exactly if no await fails and the inputs call for it |
| `Rotation.World.RotateLocked` | apps/api/src/databases/rotation.ts:315-521 | the same with the handler, after which the lock stays only if the last await failed |
| `Rotation.World.Acquire` | apps/api/src/databases/rotation.ts:255-311 | reading, checking and locking: it goes on exactly if the row can be rotated and neither await fails, and the lock stays although it stops exactly if taking it had effect and the reply was lost |
| `Rotation.World.RotatePassword` | apps/api/src/databases/rotation.ts:248-522 | for every state and any secrets, with a failure injected at any await: under the conditions no stored credential becomes unusable even for an instant; from a safe state a rotation that dropped the old user ends safe if and only if the row has a URL, the names differ and no app without a link row names the old user, and a completed rollback that dropped the new user if and only if none names the new one; completion, completed rollback and, without faults, every outcome are characterised exactly; refused rotations change nothing; the lock stays only after a failed last await, and does after a lost reply to taking it; a single fault that spoils the rollback; a single fault that leaves the new user behind; what row and apps hold at the end is stated variable by variable; a completed rotation has recorded the old password once and queued one redeploy for each linked app |
| `Rotation.World.EndingStores` | apps/api/src/databases/rotation.ts:335-414 | after a completed rotation the row has the new password and its old URL with the new name and password, the engine accepts them, and every linked app has them with the old host, port and query; after a completed rollback row and apps have the old ones |
| `Rotation.World.RotateRepeatedly` | apps/api/src/databases/rotation.ts:248-522 | any number of rotations of a Postgres or Mongo database, with any failures, passes through safe states only, as long as no app without a link row names the user at the start |
| `Rotation.World.RotateStuck` | apps/api/src/databases/rotation.ts:139-163 | if the new name is already a user of Postgres or Mongo, any number of rotations with any faults leaves users, secrets and, apart from the lock, the row as they were, and none completes |
| `Rotation.World.RotateAfterFailedHistory` | apps/api/src/databases/rotation.ts:316-333 | one failed insert into the password history and no other fault: that rotation fails, and no later one ever succeeds |
| `Rotation.World.RotateUnhealthy` | apps/api/src/databases/rotation.ts:449-467 | if the apps do not come up, a rotation without faults is undone completely: row and engine users are as before and the lock is free |
| `Rotation.World.RotateRedisTwice` | apps/api/src/databases/rotation.ts:305-305 | two fault-free rotations of a Redis database end with a stored credential that is refused |
| `Rotation.UnsoundIsUnsafe` | apps/api/src/databases/rotation.ts:297-305 | without the two conditions the state after the drop is unsafe |
| `Bits.WrapKeepsBits` | apps/api/src/auth/totp.ts:39-39 | reducing modulo a power of two keeps the low bits, which is why the unmasked accumulator may wrap |
| `Bits.Regroup` | apps/api/src/auth/totp.ts:33-81 | cutting a byte string into groups of w bits and reading whole bytes back gives it back, for every w up to 8 |
| `Base32.EncodeFoldIsEncoded` | apps/api/src/auth/totp.ts:34-51 | the symbols the wrapping accumulator emits are the 5-bit groups of the input, ceil(8n/5) of them |
| `Base32.Encode` | apps/api/src/auth/totp.ts:33-54 | the loop returns the encoding of section 6 of RFC 4648 without padding, of length ceil(8n/5) |
| `Base32.DecodeFoldIsDecoded` | apps/api/src/auth/totp.ts:60-78 | the bytes the wrapping accumulator emits are the whole bytes of the 5-bit symbols |
| `Base32.Decode` | apps/api/src/auth/totp.ts:57-81 | the loop returns these bytes, or the first character outside the alphabet as the error |
| `Base32.RoundTrip` | apps/api/src/auth/totp.ts:33-81 | decoding an encoding gives back every byte string |
| `Base32.IgnoresJunk` | apps/api/src/auth/totp.ts:58-58 | white space and padding inserted anywhere do not change decoding |
| `Base32.IgnoresCase` | apps/api/src/auth/totp.ts:58-58 | texts that differ in the case of letters only decode alike |
| `Pem.DecodeChunks` | agent/ploydok-agent/src/pki.rs:225-241 | the loop over chunks of four, stopping at a single left-over symbol |
| `Pem.DecodeSymbolsIsWhole` | agent/ploydok-agent/src/pki.rs:225-241 | for every list of symbols the shifts on 8-bit values yield the whole bytes of their bits |
| `Pem.DecodeBase64` | agent/ploydok-agent/src/pki.rs:208-242 | the decoder ignores every character outside the alphabet and decodes the rest |
| `Pem.LetterIsAlphabet` | agent/ploydok-agent/src/pki.rs:208-222 | the alphabet of section 4 of RFC 4648 |
| `Pem.DecodedInverts` | agent/ploydok-agent/src/pki.rs:208-242 | any text that holds the base64 of some bytes, with padding or not and line breaks anywhere, decodes to them (section 4 of RFC 4648) |
| `Pem.ExtractInverts` | agent/ploydok-agent/src/pki.rs:196-205 | extraction skips boundary lines wherever they stand and joins the rest |
| `Pem.PemRoundTrip` | agent/ploydok-agent/src/pki.rs:196-205 | wrapping DER in header and footer lines, broken into lines at will, and extracting gives it back (section 2 of RFC 7468) |
| `CivilTime.OverflowIff` | agent/ploydok-agent/src/monitor.rs:469-474 | over all years, months and days of their machine types: exactly which pass through without overflow or underflow |
| `CivilTime.OverflowOnlyOnMarchZero` | agent/ploydok-agent/src/monitor.rs:469-474 | among months 1 to 12 and days 0 to 31 that is all but day 0 of March |
| `CivilTime.ParsedYearIsNotNegative` | agent/ploydok-agent/src/monitor.rs:457-458 | the parser never reads a negative year |
| `CivilTime.DaysFromCivilSteps` | agent/ploydok-agent/src/monitor.rs:469-474 | each valid date comes one day after the date before it, over all years |
| `CivilTime.DaysFromCivilCounts` | agent/ploydok-agent/src/monitor.rs:469-474 | from 1970 on the formula equals counting days one by one under the leap-year rules |
| `CivilTime.DayNumberIncreases` | agent/ploydok-agent/src/monitor.rs:469-474 | later dates have greater day numbers |
| `CivilTime.ParseFormat` | agent/ploydok-agent/src/monitor.rs:445-483 | every time stamp from 1970 on, with any fraction or zone behind it, parses to 86400 times its day plus the time of day (section 5.6 of RFC 3339) |
| `CivilTime.FormatSpells` | agent/ploydok-agent/src/monitor.rs:445-466 | what such a time stamp looks like, number by number |
| `CivilTime.ParseRefuses` | agent/ploydok-agent/src/monitor.rs:446-455 | the zero date of the engine, a text without time and a time that nothing ends are refused |
| `CivilTime.ParseU32Is` | agent/ploydok-agent/src/monitor.rs:459-465 | a number of digits is read as its value, and refused beyond 32 bits |
| `CivilTime.ParseU32Signed` | agent/ploydok-agent/src/monitor.rs:459-465 | a plus sign is passed over, any other is refused |
| `CivilTime.ParseIncreases` | agent/ploydok-agent/src/monitor.rs:445-483 | later time stamps parse to greater values, whatever fraction or zone stands behind each |
| `CivilTime.OffsetRightIffZero` | agent/ploydok-agent/src/monitor.rs:454-455 | a time stamp with a numeric offset, with or without a fraction, is read as the instant it denotes if and only if the offset is zero |
| `EnvFile.StripInlineComment` | packages/shared/src/env-files.ts:27-41 | the result is the value cut, and trimmed, at the first hash outside quotes that follows white space, and the value itself if there is none |
| `EnvFile.Assign` | packages/shared/src/env-files.ts:60-66 | one assignment keeps `byKey` the exact index of `parsed`, and the last value of each key |
| `EnvFile.Collect` | packages/shared/src/env-files.ts:44-69 | the same for the loop |
| `EnvFile.ParseEnvFile` | packages/shared/src/env-files.ts:43-70 | for any text: exactly the assigned keys, each once, in the order of first assignments, and each with what was assigned last |
| `EnvFile.ReplaceUndoes` | packages/shared/src/env-files.ts:19-24 | each of the five sequential replacements undoes one escape, if none of its pairs was there by accident |
| `EnvFile.UnescapeInvertsIff` | packages/shared/src/env-files.ts:19-24 | unescaping an escaped value gives it back if and only if no backslash in it stands directly before n, r or t |
| `EnvFile.UnescapeCounts` | packages/shared/src/env-files.ts:19-24 | otherwise as many new line breaks, carriage returns and tabs appear as there are such pairs |
| `EnvFile.ReadValueIff` | packages/shared/src/env-files.ts:8-41 | for every style (bare, in single quotes, in double quotes), every value and any comment behind it: the value comes back if and only if it fits the style |
| `EnvFile.BareFitsIff` | packages/shared/src/env-files.ts:10-41 | a bare value without quotes fits if and only if it has no white space at its ends and no hash behind white space |
| `EnvFile.SingleFitsIff` | packages/shared/src/env-files.ts:17-18 | a value without single quotes fits between two of them, unless it ends in a backslash and a comment follows |
| `EnvFile.DoubleFitsIff` | packages/shared/src/env-files.ts:17-24 | a value fits between double quotes if and only if no backslash in it stands directly before n, r or t, and it does not end in a backslash if a comment follows |
| `EnvFile.KeyCodes` | packages/shared/src/env-files.ts:56-56 | keys by their code points |
| `EnvFile.ParsePrinted` | packages/shared/src/env-files.ts:48-59 | a line that assigns, in any style, indented or not, with or without `export` and with white space before the equals sign, is read under its key |
| `EnvFile.ParseAnyLine` | packages/shared/src/env-files.ts:48-59 | blank lines, comments, text without an equals sign and assignments to something that is no key assign nothing |
| `EnvFile.AssignmentsOfPrint` | packages/shared/src/env-files.ts:47-67 | a file of such lines, each ended by LF or CRLF, is read as exactly its assignments |
| `EnvFile.RoundTripIff` | packages/shared/src/env-files.ts:43-70 | for distinct keys parsing such a file returns the variables it was printed from if and only if each value fits its style |
| `EnvFile.ParsePrintedFile` | packages/shared/src/env-files.ts:43-70 | the same for the parser itself |
| `EnvFile.LineBreakIsLost` | packages/shared/src/env-files.ts:47-47 | bare or in single quotes, a value with a line break never comes back |
| `UriComponent.DecodeEncode` | apps/api/src/databases/spawner.ts:199-200 | percent-decoding undoes percent-encoding of every string of Unicode characters (section 2.1 of RFC 3986) |
| `UriComponent.ToFromUtf8` | apps/api/src/databases/spawner.ts:650-656 | and nothing but the UTF-8 of a character is decoded as that character |
| `UriComponent.EncodeIsPlain` | apps/api/src/databases/spawner.ts:199-200 | encoded text holds unreserved characters and percent signs only |
| `UriComponent.EncodeAscii` | apps/api/src/databases/spawner.ts:199-200 | in ASCII, letters, digits and nine marks stand for themselves, others become a percent sign and two hexadecimal digits |
| `ConnString.BuildKeepsCredentials` | apps/api/src/databases/spawner.ts:188-204 | whatever host, port and database hold, the built string starts with the encoded credentials |
| `ConnString.ExpandPatterns` | apps/api/src/databases/spawner.ts:201-203 | what `String.replace` makes of a dollar sign and the character behind it |
| `ConnString.BuildIs` | apps/api/src/databases/spawner.ts:188-204 | for every host without dollar signs and braces the whole string is stated: scheme, encoded user, encoded password, host, decimal port, and the suffix with the database filled in |
| `ConnString.BuildWithDatabase` | apps/api/src/databases/templates/index.ts:42-84 | the same for the templates with a database and a query behind it |
| `ConnString.UserlessBuildIs` | apps/api/src/databases/templates/index.ts:100-100 | the same for the template without a user |
| `ConnString.ExtractCredentials` | apps/api/src/databases/spawner.ts:658-691 | from any string that starts with encoded credentials the password is read back if and only if it is not empty and the authority holds no further at sign |
| `ConnString.NoSchemeIff` | apps/api/src/databases/spawner.ts:658-662 | the first error, if and only if there is no scheme separator |
| `ConnString.NoCredentialsIf` | apps/api/src/databases/spawner.ts:673-676 | the second, without an at sign in the authority |
| `ConnString.NoPasswordIf` | apps/api/src/databases/spawner.ts:678-682 | the third, without a colon before the last at sign |
| `ConnString.PasswordIs` | apps/api/src/databases/spawner.ts:684-690 | otherwise the decoded text between the first colon and the last at sign, and the fourth error if it is empty |
| `ConnString.RoundTripIff` | apps/api/src/databases/spawner.ts:188-204 | the same for every built string, for every user, password, host, port and database |
| `ConnString.PlainHostRoundTripIff` | apps/api/src/databases/spawner.ts:650-691 | for hosts without dollar signs and braces the condition is: no at sign in the host before its first slash, question mark or hash (section 3.2.1 of RFC 3986) |
| `ConnString.UserlessRoundTripIff` | apps/api/src/databases/templates/index.ts:100-100 | the same for the template without a user |
| `ConnString.ContainerRoundTripIff` | apps/api/src/databases/spawner.ts:776-778 | for every host that passes the agent's rule the password is recovered if and only if it is not empty |
| `ConnString.DatabaseRoundTripIff` | apps/api/src/databases/spawner.ts:462-498 | so it is for the container name of every database id |
| `ConnString.UserlessContainerRoundTripIff` | apps/api/src/databases/spawner.ts:776-778 | the same for the template without a user |
| `ConnString.UserlessDatabaseRoundTripIff` | apps/api/src/databases/spawner.ts:462-498 | and for the container name of every database id |
| `ConnString.AtSignInHostBreaks` | apps/api/src/databases/spawner.ts:673-688 | a host outside the agent's rule, which no caller passes, for which it would fail with any password |
| `ConnString.DollarHostRepeatsCredentials` | apps/api/src/databases/spawner.ts:201-201 | a host outside the agent's rule, which no caller passes: a replacement pattern would put a second copy of the credentials in its place |
| `ContainerName.NameIs` | apps/api/src/databases/spawner.ts:73-89 | the name is made of the longest runs of small letters and digits of the lower-cased id, joined by single dashes and cut to sixty characters, or of "db" if there are none |
| `ContainerName.TokenShape` | apps/api/src/databases/spawner.ts:73-85 | the four passes leave lower-case letters, digits and single dashes, not beginning with one |
| `ContainerName.NameAccepted` | agent/ploydok-agent/src/validator.rs:321-336 | the agent accepts the name of every database id, however letters are lower-cased |
| `ContainerName.SixtyIsExact` | apps/api/src/databases/spawner.ts:87-89 | names of all ids are accepted for a length bound if and only if it is at most 60 |
| `RouteList.WithoutPicks` | apps/api/src/caddy/client.ts:230-233 | the filter keeps exactly the routes without one of the ids, those without any id among them, in order |
| `RouteList.UniqueIdsKept` | apps/api/src/caddy/client.ts:219-264 | over every run of upserts and removals route ids stay unique |
| `RouteList.ListIsRecencyOrdered` | apps/api/src/caddy/client.ts:219-264 | after any run the list is the surviving upserts, latest first, followed by the routes nobody touched |
| `RouteList.ForeignRoutesKeepOrder` | apps/api/src/caddy/client.ts:230-233 | routes whose ids no operation names all stay, in order |
| `RouteList.LatestUpsertAnswers` | apps/api/src/caddy/client.ts:149-153 | a host is answered by the latest surviving upsert that matches it |
| `RouteList.UntouchedRoutesAnswer` | apps/api/src/caddy/client.ts:219-264 | if there is none, by the untouched routes as before |
| `RouteList.RunTwiceIsRunOnce` | apps/api/src/caddy/client.ts:219-246 | repeating any run of operations changes nothing |
| `RouteList.ByIdFindsSurvivor` | apps/api/src/caddy/client.ts:301-304 | a surviving upsert is found under its id |
| `Caddy.FrontIsFront` | apps/api/src/caddy/client.ts:49-100 | a rate limit of that value if and only if it is positive, a 403 subroute over exactly the allow list if and only if it is not empty, an authentication handler if and only if an account is set; in this order, and nothing else |
| `Caddy.InjectedIsInjected` | apps/api/src/caddy/cdn.ts:114-134 | an image filter over the static root, compression and a cache of that life time over those paths for the internal CDN, response headers for both kinds, each if and only if configured; in this order, and nothing else |
| `Caddy.ApplyCdnHandlers` | apps/api/src/caddy/cdn.ts:97-146 | the injected handlers are those of the configuration, in order, in front of the first proxy |
| `Caddy.InjectionKeepsHandlers` | apps/api/src/caddy/cdn.ts:138-145 | without the injected handlers the list is the original; none of them is a proxy, and the first proxy moves back by their number |
| `Caddy.ProxyStaysLast` | apps/api/src/caddy/cdn.ts:104-111 | a proxy that is last stays last |
| `Caddy.DialRoundTrip` | apps/api/src/caddy/client.ts:324-329 | reading a dial string gives back host and port for every host, colons included, except the empty one |
| `Caddy.ParseSigned` | apps/api/src/caddy/client.ts:327-328 | how a port is read that this code did not write: after a sign, up to the first character that is no digit |
| `Caddy.UpstreamRoundTrip` | apps/api/src/caddy/client.ts:279-334 | for every CDN configuration what was set is what is read, except that an empty host reads as none |
| `Caddy.Client.PutRouteFirst` | apps/api/src/caddy/client.ts:219-246 | the route is first and other routes with its id are gone; a failed request changes nothing |
| `Caddy.Client.RemoveRoute` | apps/api/src/caddy/client.ts:251-264 | afterwards the app has no route and all others stand as before; a failed request changes nothing |
| `Caddy.Client.Execute` | apps/api/src/caddy/client.ts:219-264 | any run of upserts and removals, some of them failing: ids stay unique, the table is the surviving upserts latest first and then the untouched routes, and each host is answered by its latest surviving upsert |
| `Caddy.Client.UpsertRoute` | apps/api/src/caddy/client.ts:113-154 | one upsert; the route that then answers the host has the app's id, and its handlers are the guards, the extra handlers and the proxy, with those of the CDN directly before the first proxy |
| `Caddy.Client.SetUpstream` | apps/api/src/caddy/client.ts:279-292 | the same without guards, dialling host and port |
| `Caddy.Client.UpsertStaticRoute` | apps/api/src/caddy/client.ts:189-217 | the same with the CDN's handlers and a file server over the root, behind a rewrite if there is a fallback page |
| `Caddy.Client.GetUpstream` | apps/api/src/caddy/client.ts:298-334 | the loop finds the first proxy of the app's route and parses its first dial string |
| `Caddy.Client.SetThenGet` | apps/api/src/caddy/client.ts:279-334 | on any table: setting, then getting, and the host is answered by the app's route |
| `Caddy.ReconciledUpstream` | apps/api/src/caddy/reconciler.ts:283-309 | after reconciling distinct apps each one that could be routed is found with its own host and port |
| `Caddy.Client.ReconcileApp` | apps/api/src/caddy/reconciler.ts:283-309 | a row is skipped exactly if it has no domain, or is not static and has no upstream host; otherwise the route that answers the domain serves its files or its upstream, swarm service or container, on the first port that is set |
| `Caddy.Client.Reconcile` | apps/api/src/caddy/reconciler.ts:272-321 | the table is that of the planned upserts that did not fail, and the three counters add up |
| `Caddy.Client.ReconcileTwice` | apps/api/src/caddy/reconciler.ts:283-321 | reconciling twice leaves exactly the list of reconciling once, for any rows and any fixed set of failures |
| `EventQueue.ConsumerSeesStream` | apps/api/src/agent/wrapper.ts:122-154 | for any interleaving of data, end and error events, a consumer that stops at the first end or error has received exactly the items emitted up to it, in order |
| `EventQueue.ReturnsPrefixInOrder` | apps/api/src/agent/wrapper.ts:141-154 | for a stream that stops at its end: results are a prefix of the data in order, the end or error after all of them, then only end |
| `EventQueue.NoLostWakeup` | apps/api/src/agent/wrapper.ts:122-149 | with one call open at a time, a suspended call has nothing to return, the next event wakes it, and once woken it returns |
| `EventQueue.StrandedByOverlap` | apps/api/src/agent/wrapper.ts:143-147 | a call loses its wake-up exactly when another one suspends while it is suspended |
| `EventQueue.StrandedForever` | apps/api/src/agent/wrapper.ts:122-147 | it then never returns, whatever happens |
| `EventQueue.TwoCallsCanHang` | apps/api/src/agent/wrapper.ts:127-147 | two calls and an end that leave the first hanging |
| `EventQueue.OneOutcomePerCall` | apps/api/src/agent/wrapper.ts:141-154 | in every run there is exactly one outcome for every call that has returned |
| `EventQueue.Drive` | apps/api/src/agent/wrapper.ts:113-164 | the iterator object, driven by any possible sequence of events, delivers exactly what the stream emitted: data as it came, the end as `done`, an error thrown with its code |
| `Osv.DedupeForQuery` | packages/app-auditor/src/osv.ts:102-114 | of each key exactly the first dependency is kept, in order |
| `Osv.TakeAnswers` | packages/app-auditor/src/osv.ts:78-92 | over a whole reply, what each key has and what it is still due add up to what it was due at first |
| `Osv.QueryBatchWithPagination` | packages/app-auditor/src/osv.ts:47-96 | for every server with finite page chains, and replies that may leave out empty last pages at their end, the rounds end, and every key of the batch has its own pages in order; the requests are the first pages, without a token, and then, round by round, the further pages; success means that none of them failed, an error that the last one did |
| `Osv.QueryOsvForDependencies` | packages/app-auditor/src/osv.ts:15-31 | for every batch size with which the code ends: exactly the distinct keys, each with the concatenated pages of its dependency, as if queried alone; no request is empty or larger than the batch size; success means that none failed, an error that the last one did |
| `Osv.KeyIsInjective` | packages/app-auditor/src/osv.ts:98-100 | without NUL in ecosystem and name, keys tell dependencies apart |
| `Osv.KeysCanCollide` | packages/app-auditor/src/osv.ts:98-100 | in every ecosystem, a NUL in the name can be taken for the separator |
| `Osv.KeyIdentifiesIff` | packages/app-auditor/src/osv.ts:98-100 | no other dependency has a dependency's key if and only if neither its name nor its version holds NUL |
| `ExecAudit.EveryByteAccounted` | apps/api/src/auth/exec-audit.ts:54-66 | every byte is a separator, in a flushed line, in the buffer, or counted as dropped |
| `ExecAudit.LinesFit` | apps/api/src/auth/exec-audit.ts:56-64 | no flushed line is empty or longer than 4096 bytes |
| `ExecAudit.Auditor.FeedByte` | apps/api/src/auth/exec-audit.ts:55-65 | one byte keeps the state a function of all bytes so far |
| `ExecAudit.Auditor.Feed` | apps/api/src/auth/exec-audit.ts:54-75 | so does a chunk, and the 16 KB branch is unreachable |
| `ExecAudit.Auditor.FlushFinal` | apps/api/src/auth/exec-audit.ts:82-96 | afterwards every non-empty segment has been flushed |
| `ExecAudit.TypedIsRecorded` | apps/api/src/auth/exec-audit.ts:54-66 | of lines typed without line feeds and carriage returns, each ended by one, exactly those that are not empty are recorded, up to 4096 bytes, and the rest of the long ones is counted as dropped |
| `ExecAudit.Session` | apps/api/src/auth/exec-audit.ts:54-96 | for any cutting into chunks: the lines are the non-empty segments between CR and LF, cut to 4096 bytes, and all bytes add up |

## Left out

- Docker, gRPC, Caddy's HTTP interface, Redis and Postgres themselves: they are atomic steps that may fail.
- HMAC, bcrypt, AES-GCM, JWT and WebAuthn: HMAC is a parameter, and two tokens never share a hash.
- Rows of the audit log written by other code under the same action: only this function writes them in the model.
- Concurrent writers of the Caddy route list: reading and writing it is one step here, which the code does not ensure.
- Two overlapping rotations of one database: the lock is checked and set in two steps.
- The exit code of database commands: a stream without an exit frame counts as success in the code and is not modelled.
- Lower- and upper-casing outside ASCII: base32 decoding folds ASCII letters only, container names take any lower-casing.
- Strings with lone surrogates: Dafny characters are Unicode scalar values.
- Rotation.World.Spread: the queries for the links and for the projects of the linked apps are one await, and encryption does not fail.
- Base32.Decode: does not model code points whose upper case falls into the alphabet from outside ASCII.
- EnvFile.RoundTripIff: values with a line break are printed in double quotes only; a bare or single-quoted one is lost, by `LineBreakIsLost`, in a file of its own without a comment behind it, and a comment that continues the text could restore it.
- RouteList.LatestUpsertAnswers: treats every matching route as final, which holds for the routes this code writes; foreign routes that pass requests on are not modelled.
- Osv.QueryOsvForDependencies: a batch size of 0 with a dependency to query, for which the code does not end, is excluded.
- Osv.QueryBatchWithPagination: the answer to a query does not depend on the request that carries it, and page chains are finite; otherwise the code need not end.
- Throttle.AtMostNineInAnyWindow: runs with a reset are excluded, since a reset empties the bucket.
- CivilTime.ParseIncreases: excludes leap seconds, whose stamps parse to the value of the next second.
- EventQueue.Drive: the `return()` method, which destroys the stream, is not modelled.
- ExecAudit.Session: storage is best effort and happens later; the model records the hand-over.
- User agent, address and user of a session: they play no part in the properties.
- DNS-01 policies, layer 4 proxies, service routes and the bootstrap of Caddy: calls in sequence with no state of their own.
- `checkRateLimit`: one comparison with a counter.
- Port allocation of databases, the audit-log verifier of the command line tool, the stack classifier, schemas, mail, billing and the web front end: tables, user interface or input and output.
