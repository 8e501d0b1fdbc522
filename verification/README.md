# Rain typing game: a verified model

The repository is a typing game. A client runs a falling-word game with one main thread and one thread per word; a
server keeps accounts, a login table, a score file, a leaderboard and a word list, with one handler thread per
connection. This project models that logic in Dafny and proves what a player, an operator or a maintainer may rely on,
for every interleaving, every file and every way the network splits its bytes. `dafny verify dfyconfig.toml` checks
all of it.

Where the code does something else than its comments or README.md say, the model follows the code and the difference
is stated as a theorem with its exact condition.

## How it is built

**The falling-word game.** `Game` is a state machine: `MainStep` and `WordStep` are functions of the state and of the
choices the program does not make itself (keys, timers, random picks, allocation). Taking a mutex is a step of its
own, so no step hides a wait. `KeysStep` follows game_logic.c:485-540 and 619-638, `SubmitStep` 493-533, `TimerStep`
640-652, `PickStep` and `CreateStep` 335-378, `DrawStep` 428-482, `ReapStep` 542-554, `SweepStep` 382-413; `PollStep`,
`DropStep` and `ExitStep` follow 276-333. The event log in the state is history: no step reads it.

- `GameLocks`, `GameProgress`: who holds which mutex, which thread owns which slot, no deadlock while the game is
  played, and the exact condition under which `safe_game_cleanup` returns. The cleanup joins threads while holding
  `words_mutex`; it hangs for ever when one of them has not passed its last unlock.
- `GameBooks`, `GameTheorems`: every word is resolved exactly once, the score is what was typed, the lives are what
  fell, and almost nothing happens after the game is over. `GameFalls`: a word falls exactly at the drop that takes it
  to the bottom.
- `GameCleanup`: the same condition at the moment of the call, and what holds when the mutexes are destroyed.
- `GameAbandon`: a thread takes its own word off the screen only once the game is over.
- `GameIndex`, `GameStale`: the table of active words never holds a text that is not on the screen, but it can lose one
  that is. It is exact in runs where no word is placed while its text is still in use, and no node allocation fails;
  each exception has a continuation that loses a word, also while the game is on.
- `GamePlay`: what play can lead to: a word can be spawned, typed and credited, or left to fall.
- `GameExamples`: reachable states in which the conditions named above fail.
- `ActiveWords`: the chained hash table itself, on the heap, against a set of texts.

**Accounts, sessions and scores.** `Lines` is the byte-level line reader with its bounded buffer; `RecordFiles` says
which records a file of lines of any length yields, `SkippedLines` when those are the ones a reader that skips
malformed lines should find. `Accounts` and `Scores` are the two files, `LoginTable` the 100-entry array, `Sessions`
the state machine of any number of handlers: `Handle` follows server_network.c:143-318 from one critical section to
the next, so login is check, verify, add, and registration is find, add. `SessionRequests` says what one request
achieves however the others interleave, `SessionRuns` holds what is true of every run, `SessionExamples` the runs that
break the conditions.

**Leaderboard.** `Leaderboard` sorts, groups and sorts again in place; `Ranking` says what the result means. The code
lists the ten users who come first alphabetically among the first 500 loadable records, not the ten best.

**Network and word list.** `Framing` and `ClientNetwork` are the exact-length loops over a socket whose every call may
move any number of bytes, be interrupted or fail. `Lockstep` is one client and one handler over two byte streams.
`WordList` is the loader with its jump back.

## Where the code and its documentation part

- The repository's README.md promises that an account cannot be logged in twice. It can, when two logins overlap
  between check and add with the right password (SessionExamples.OverlapDoubles), and only then
  (SessionRuns.LoginsUnique).
- The leaderboard is described as the users' best scores. It shows the alphabetically first users (Ranking.ListedIff),
  each with the best of the first 500 scores in the file, so a later and better score is never seen
  (Ranking.BestScoreUnseen). For given submitters it is right whatever they score if and only if there are at most ten
  names and at most 500 submissions (Ranking.TrueIff).
- A name is meant to leave the table of logged-in users with its session. It stays for ever, and is refused at every
  login, when a logged-in session passes the check of another login, whether the password is right or wrong
  (SessionRuns.ConservedIff, SessionExamples.ReloginLeaks, SessionExamples.WrongPasswordLeaks); and an entry of the
  empty name, which can be registered and logged in under, never leaves (SessionExamples.EmptyNameLeaks).
- The table of active words is described as the set of words on the screen. It is a subset of it, and equal under a
  stated condition (GameIndex.TableIsSound, GameIndex.TableIsExact).
- `safe_game_cleanup` is described as safe. It can wait for ever, unless every thread still running has entered its
  exit section when it is called (GameCleanup.CallIsSafeIff).
- Malformed score lines are meant to be skipped. A blank line ends the reading instead, because a length of zero is
  also how the reader reports the end of the file (Scores.BlankLineExample); so does a line of exactly 47 bytes, or of
  any multiple of 47, because its newline is left to be read as a line of its own (Scores.FullLineHidesAll). And a line
  of more than 47 bytes is read in pieces, any of which may be taken for a record (Scores.LongLineLoadsTail). From now
  on every score is loaded right if and only if the file has no such line (Scores.LoadsRightForEverIff); what a file as
  it stands needs is Scores.MalformedSkippedIff.
- The word list is meant to be rewritten when the file has no words. A file whose words all come after a blank line, or
  after a line of 33 bytes or a multiple of 33, is rewritten too, and its words are lost (WordList.NoWordsIff,
  WordList.BlankFirstLineHidesAll, WordList.FullFirstLineHidesAll).
- A registered name is meant to be found again. One name with a blank line inside makes every later registration
  unfindable (Accounts.BlankLineInName, Accounts.StoppedForEver); the exact condition is Accounts.RegisterInHistory.

## Model

| member | source | states |
|---|---|---|
| GameProgress.NextKeepsPlayInv | client/src/game_logic.c:276-554 | every step of main or of a word thread, and the arrival of a signal, keeps: each mutex is held exactly by the thread whose program point says so, each live thread owns its slot, and a slot marked for removal belongs to a thread past its mark |
| GameProgress.WordLockOrder | client/src/game_logic.c:289-331 | whenever a word thread asks for a mutex, every mutex it holds comes earlier in the order screen, words, then game state or hash |
| GameProgress.MainLockOrder | client/src/game_logic.c:335-554 | the same for the main thread, in every part of its loop and in cleanup |
| GameProgress.NoDeadlockInRun | client/src/game_logic.c:276-554 | in every state of every run that is not final some thread can step; in the joining loop of `safe_game_cleanup` this needs all remaining threads to be past their last unlock |
| GameProgress.ReapingWaitsForReturnOnly | client/src/game_logic.c:542-554 | a thread joined by `cleanup_finished_threads` under words_mutex has released its last mutex: it only has to return |
| GameProgress.CleanupReturnsIff | client/src/game_logic.c:392-413 | from the start of the joining loop, `safe_game_cleanup` can reach its end if and only if every remaining word thread is past its last unlock |
| GameProgress.SafeMainStep | client/src/game_logic.c:398-410 | in the good case every step of main brings the end of the joining loop nearer |
| GameProgress.SafeWordStep | client/src/game_logic.c:331-333 | and so does every step of a word thread, so the loop ends after a bounded number of steps |
| GameExamples.StuckCleanupReachable | client/src/game_logic.c:382-413 | a state is reachable, from the start of a game, from which `safe_game_cleanup` never returns |
| GameCleanup.CallIsSafeIff | client/src/game_logic.c:382-413 | at the moment of the call: whatever the scheduler does, `safe_game_cleanup` can still be brought to its end, if and only if every thread still running has entered its exit section |
| GameCleanup.MutexesUnusedAtEnd | client/src/game_logic.c:392-418 | when the mutexes are destroyed every thread ever started is past its last unlock, also those whose slot was taken over and that nobody joined |
| GameTheorems.WordsResolvedOnce | client/src/game_logic.c:276-378 | in every reachable state each spawned word is on the screen or was typed, fell, was abandoned or was never started, exactly once; the five counts add up to the words spawned |
| GameAbandon.AbandonedOnlyWhenOver | client/src/game_logic.c:289-331 | a word is abandoned only once the game is over: until then words leave the screen typed or fallen |
| GameTheorems.NeverBoth | client/src/game_logic.c:305-320 | no word both earns score and costs a life |
| GameTheorems.ScoreIsWhatWasTyped | client/src/game_logic.c:513-526 | in every run the score is one point for each byte of the typed words that are not kill words, plus 50 for each typed bonus word, except for the one word between its two lock sections, whose part is still missing; the text read after words_mutex is released is still the submitted line |
| GameTheorems.KillWordEndsGame | client/src/game_logic.c:519-521 | in every run, once a kill word has been typed the game is over, or that word still waits for its turn under the state lock |
| GameTheorems.LivesAreWhatFell | client/src/game_logic.c:305-320 | lives are 5 minus the non-kill words that fell before the game was over, between 0 and 5, every word falling at most once and every fall having exactly one turn under the state lock; not over means lives are left; over has one of its three reasons; active words stay inside the game area |
| GameFalls.FallsAtTheBottom | client/src/game_logic.c:305-312 | in every run a word on the screen is as many rows down as it has dropped, less than the height; it falls exactly at the drop whose number is the height, never earlier, and no drop follows |
| GameTheorems.AtMostOneLateEffect | client/src/game_logic.c:485-529 | game_is_over is never reset and lives never change after it; the steps that change the score and the words spawned from then on are at most one together; the main loop starts at most once more |
| GameTheorems.ScanForTarget | client/src/game_logic.c:495-511 | the scanning loop, by priority number and row, finds the matching active slot that no other outranks: kill before bonus before normal, then lowest on the screen, then lowest index; -1 exactly if none matches |
| GameTheorems.TargetIsUnique | client/src/game_logic.c:495-511 | those rules determine the slot |
| GameTheorems.InputFits | client/src/game_logic.c:493-539 | in every run the input line leaves room for its NUL and holds only printable bytes other than a blank |
| GamePlay.KeyedWord | client/src/game_logic.c:536-539 | typing the bytes of any such line one after the other on an empty line leaves that line |
| GamePlay.BackspaceUndoes | client/src/game_logic.c:534-539 | each of the three backspace codes takes back the last byte typed and does nothing on an empty line; a full line takes no more bytes |
| GamePlay.WordCanBeSpawned | client/src/game_logic.c:335-378 | when nothing else moves, every listed word that is not in the table can come up, with any type, in the first free slot, cut to 29 bytes, on row 0 and in the table |
| GamePlay.WordCanBeTyped | client/src/game_logic.c:485-529 | when nothing else moves, every word on the screen can be typed: one slot with that text goes off the screen, the text leaves the table, and the score grows by its length, by 50 more for a bonus word, or the game is over for a kill word |
| GamePlay.MissIsCleared | client/src/game_logic.c:493-532 | a submitted line that is the text of no word on the screen is cleared and changes nothing else |
| GamePlay.WordCanFall | client/src/game_logic.c:276-322 | when nothing else moves, every word on the screen can drop to the bottom: it goes off the screen and out of the table and costs a life unless it is a kill word; the game is over exactly if no life is left |
| Game.FreeSlotFrom | client/src/game_logic.c:341-345 | the spawn takes the first slot whose thread is gone or marked for removal, and skips none |
| GameIndex.TableIsSound | client/src/game_logic.c:304-377 | whenever words_mutex is free every text in the table is the text of a word on the screen, in every run |
| GameIndex.TableIsExact | client/src/game_logic.c:304-377 | the two sets are equal in every run in which no word is placed while its text is in use by a slot whose thread has not run its exit removal, and node allocation succeeds |
| GameStale.StaleSpawnLosesWord | client/src/game_logic.c:347-366 | whenever a word is placed while its text is in use, some continuation takes it out of the table while it is on the screen |
| GameStale.LostNodeLosesWord | client/src/game_logic.c:183-188 | and so does a failed allocation |
| GameExamples.StalePlaceReachable | client/src/game_logic.c:350-354 | such a placement is reachable: the fallback after too many tries picks a word that is on the screen |
| GameStale.LateExitLosesWord | client/src/game_logic.c:326-331 | while the game is on and no signal was sent: whenever a word is placed that reads the same as one off the screen whose thread has not removed it yet, that thread can take the new word's text out of the table, and the game is still on |
| GameStale.TypingTwinLosesWord | client/src/game_logic.c:495-522 | whenever the submitted line is the text of two words on the screen, typing it leaves one of them there and its text gone from the table, with no signal and without ending the game |
| GameExamples.TwinTypedReachable | client/src/game_logic.c:350-511 | a submission of a text that two words have is reachable with the game on and no signal sent |
| GameExamples.TypedPlaceReachable | client/src/game_logic.c:340-366 | such a placement is reachable without the fallback: the word has been typed and is picked again before its thread moves |
| ActiveWords.HashFunction | client/src/game_logic.c:126-133 | the loop over wrapping 32-bit unsigned arithmetic, with plain char signed or not, computes the unbounded polynomial hash modulo 64 |
| ActiveWords.Table.constructor | client/src/game_logic.c:135-146 | 64 empty buckets, count 0, the empty set |
| ActiveWords.Table.IsWordInTable | client/src/game_logic.c:230-248 | true exactly for the stored texts |
| ActiveWords.Table.Add | client/src/game_logic.c:166-198 | a new text is added cut to 29 bytes, a text already there or an allocation failure changes nothing; for texts that fit, chains stay without duplicates, every node in its own bucket, and the count is the size of the set; for a longer one exactly if its cut text hashes to the same bucket and is not stored |
| ActiveWords.Table.Remove | client/src/game_logic.c:200-228 | removes exactly the text, reports whether it was there, keeps the same invariant |
| Lines.Reader.ReadLine | server/src/db_handler.c:24-48 | the byte loop returns the next line cut at the buffer limit and leaves the rest; the newline is consumed only if it was seen within the limit |
| Lines.LineEnds | server/src/db_handler.c:29-44 | a line holds no newline and is short only because of a newline or the end of the file |
| Lines.AppendKeepsLine | server/src/db_handler.c:24-48 | appending to a file of whole lines changes neither the next line nor, but for the appended bytes, the rest |
| RecordFiles.ReadsPieces | server/src/db_handler.c:24-48 | of a file of lines of any length, the first max records on the pieces before the first blank piece are read and no other; a line is cut into pieces of the buffer limit, and its last piece is blank if its length is a multiple of the limit |
| RecordFiles.ReadsAnyFile | server/src/db_handler.c:24-48 | the same for every file whatever, ended by a newline or not |
| SkippedLines.SkipsMalformedIff | server/src/db_handler.c:276-281 | for any parser of lines, and any lines: if no piece of an over-long line that is read parses, the first max records of the lines that fit are read, for every max, exactly when none of them comes after a line with a blank piece; if none does, exactly when no such piece parses |
| SkippedLines.ForEverIff | server/src/db_handler.c:276-281 | those records are read whatever ordinary lines are appended later, if and only if no line has a blank piece and no piece of an over-long line parses |
| SkippedLines.FragmentStandsIn | server/src/db_handler.c:276-281 | where both conditions fail the records can still be right by chance: a piece of an over-long line stands for a record that is hidden |
| Accounts.UserFile.FindUser | server/src/db_handler.c:108-164 | the loop returns the password of the first line that parses to the name; lines without a colon or with too long fields are skipped, an empty line ends the search |
| Accounts.UserFile.Register | server/src/auth_manager.c:19-61 | succeeds exactly for a name of 1 to 31 bytes that is not found, a password of 1 to 71 bytes and a write that is confirmed; the file grows by the line name:password exactly if such a write reaches it |
| Accounts.UserFile.Login | server/src/auth_manager.c:63-100 | succeeds exactly when the looked-up password is the one given; the session name is set or cleared accordingly |
| Accounts.FoundNamesAreClean | server/src/db_handler.c:134-154 | whatever the file holds, a name that can be looked up has at most 31 bytes and no colon, newline or NUL |
| Accounts.ParseUserIff | server/src/db_handler.c:133-146 | a line is an account exactly if it is a name of at most 31 bytes without a colon, a colon and a password of at most 71 bytes |
| Accounts.LookupStable | server/src/db_handler.c:108-207 | appending never changes the answer for a name that has one |
| Accounts.RegisterThenLookup | server/src/auth_manager.c:31-60 | after an accepted registration, in any file of whole lines, the name yields its password if and only if one line can carry the two (no newline, no colon in the name) and no blank line stops the lookup; for such names every other answer is unchanged; 31 + 1 + 71 bytes fit the line buffer |
| Accounts.RegisterInHistory | server/src/auth_manager.c:19-61 | the same exact condition after any sequence of registrations whatever |
| Accounts.HistoryReadsOn | server/src/auth_manager.c:19-61 | registrations without newlines, colons allowed, never stop a lookup |
| Accounts.StoppedForEver | server/src/db_handler.c:132-155 | once a blank line stops the lookups, no later registration is ever found |
| Accounts.BlankLineInName | server/src/db_handler.c:184-184 | one accepted name with a blank line inside is enough to stop them |
| Accounts.EmptyNameRegistered | server/src/db_handler.c:184-184 | a name that ends in a newline is accepted and registers the empty name with its password |
| LoginTable.Table.constructor | server/src/server_network.c:134-141 | 100 inactive entries |
| LoginTable.Table.Find | server/src/server_network.c:89-100 | the index of the first active entry with the name, or -1 exactly if there is none |
| LoginTable.Table.Add | server/src/server_network.c:103-118 | the first inactive entry takes the name; fails, without change, exactly when the table is full |
| LoginTable.Table.Remove | server/src/server_network.c:121-131 | the first active entry with the name becomes inactive and nothing else changes |
| LoginTable.ReplacedCounts | server/src/server_network.c:103-131 | adding or removing moves exactly one entry: no other name gains or loses one |
| Sessions.StepConserves | server/src/server_network.c:143-318 | for every name, every step of every handler changes the entries for it and the sessions logged in under it together, except a step that strands an entry: the check of another login has been passed by a session that is logged in, whatever the password, or the name added is empty |
| Sessions.EntriesAccounted | server/src/server_network.c:200-317 | in every run, for every name, its entries are one for each session logged in under it, and the stranded ones |
| SessionRuns.ConservedIff | server/src/server_network.c:200-317 | entries and logged-in sessions agree on every name if and only if no entry was ever stranded |
| SessionRuns.LeftAfterAllClosed | server/src/server_network.c:310-317 | when all handlers have exited, the entries left for a name are exactly the stranded ones |
| SessionRuns.LostNameLockedOut | server/src/server_network.c:205-208 | a stranded entry stays whatever happens, and its name is refused at every later login |
| SessionRuns.EmptyNameNeverLeaves | server/src/server_network.c:310-310 | the entries of the empty name never become fewer: each one ever added stays |
| SessionExamples.ReloginLeaks | server/src/server_network.c:209-216 | for any two registered nonempty names there is a run that loses the first: log in, log in as the other, hang up |
| SessionExamples.WrongPasswordLeaks | server/src/server_network.c:222-224 | and one that loses a nonempty registered name by a login under any other name with a wrong password |
| SessionExamples.EmptyNameLeaks | server/src/server_network.c:200-317 | a client registers a name that ends in a newline, logs in under the empty name and hangs up: nobody is connected and the empty name is in the table for ever |
| SessionRuns.LoginsUnique | server/src/server_network.c:205-221 | if no two sessions are ever between check and add for one name, both with the right password, no name is ever in the table twice; overlaps with a wrong password do no harm |
| SessionExamples.OverlapDoubles | server/src/server_network.c:205-221 | conversely, from any state with two such sessions and two free entries the name can get into the table twice |
| SessionExamples.DoubleLogin | server/src/server_network.c:205-221 | that is reachable for every registered name |
| SessionRequests.LoginChecked | server/src/server_network.c:200-208 | however others move in between: a login is refused exactly if its name is in the table when its turn comes, and nothing else changes |
| SessionRequests.LoginEnters | server/src/server_network.c:209-224 | a login that passed goes in under its name, with one entry of it more, exactly if the password found is the one given and an entry is free when its turn comes; otherwise the session is not logged in and nothing else changes |
| SessionRequests.LogoutLeaves | server/src/server_network.c:268-284 | in every run, a logout by a logged-in session ends with that session logged out, exactly one entry of its name gone and all else unchanged; if that was the only one, the check of a new login for the name passes |
| SessionRequests.HangupLeaves | server/src/server_network.c:307-317 | the same for a connection that is lost, while reading a request or while answering |
| SessionRequests.ClosedForEver | server/src/server_network.c:307-317 | a closed session does nothing any more |
| SessionRequests.RegisterChecked | server/src/auth_manager.c:19-45 | a registration goes on exactly for a name of 1 to 31 bytes that is not found when its turn comes and a password of 1 to 71 bytes; nothing else changes |
| SessionRequests.RegisterStores | server/src/db_handler.c:166-207 | it then appends the one line name:password, if the write succeeds, and nothing else changes |
| SessionRequests.SubmitStores | server/src/server_network.c:233-249 | a submission by a logged-in session stores exactly that score under its name as one more line, if the write succeeds; otherwise, or if the session is not logged in, nothing is stored |
| SessionRequests.NothingChanges | server/src/server_network.c:251-280 | a logout without a login, and the reading requests, change nothing |
| SessionRuns.FirstRegistrationWins | server/src/auth_manager.c:31-60 | in every run, once a name has a password it keeps it, whatever registrations follow or race |
| SessionRuns.SubmissionsLoad | server/src/server_network.c:233-249 | from an empty score file, loading returns exactly the first max submitted scores in order, whatever names clients registered; each was submitted under a registered name |
| Scores.StrtolReadsDecimal | server/src/db_handler.c:291-294 | strtol reads back every long printed with %d and stops at its end |
| Scores.StrtolReads | server/src/db_handler.c:291-294 | of white space, a sign or none, digits and a rest, strtol returns the signed number clamped to a long, and the rest |
| Scores.StrtolParts | server/src/db_handler.c:291-294 | and it accepts nothing that is not of that form |
| Scores.ParseScoreIff | server/src/db_handler.c:278-298 | a line is a record exactly if it is a name of at most 31 bytes without a colon, a colon and something strtol reads whole; its score is the low 32 bits |
| Scores.ParsePrinted | server/src/db_handler.c:227-298 | a printed record of a clean name and a 32-bit score fits the line buffer and parses to itself |
| Scores.LoadPrinted | server/src/db_handler.c:252-305 | a file of such records loads as its first max records, in order |
| Scores.LoadedAreWellFormed | server/src/db_handler.c:276-299 | whatever the file holds, loaded records have clean names and 32-bit scores |
| Scores.ScoreFile.Submit | server/src/score_manager.c:12-28 | refuses an empty name without change; otherwise the file grows by exactly the printed record if the write reaches it, and success is reported only if it is confirmed |
| Scores.ScoreFile.LoadAll | server/src/db_handler.c:252-305 | -1 without change when the file cannot be read; otherwise the array starts with the loaded records |
| Scores.MalformedSkippedIff | server/src/db_handler.c:276-299 | for any lines: if no piece of a line over 47 bytes that is read looks like a record, malformed lines are skipped, for every size of the array, exactly when no record comes after a blank line or one of a multiple of 47 bytes; if none does, exactly when no such piece looks like a record |
| Scores.LoadsRightForEverIff | server/src/db_handler.c:276-299 | they are skipped whatever is appended later, if and only if no line has a length that is a multiple of 47 and no piece of a line over 47 bytes looks like a record |
| Scores.RecordAfterBlankLost | server/src/db_handler.c:276-276 | of two records with a blank line between them only the first is ever loaded |
| Scores.BlankLineExample | server/src/db_handler.c:276-276 | the file a:1, blank line, b:2 loads as the one score of a |
| Scores.FullLineHidesAll | server/src/db_handler.c:24-48 | 47 bytes without a colon, a newline and a record: nothing is loaded |
| Scores.LongLineLoadsTail | server/src/db_handler.c:24-48 | 47 bytes without a colon and a record on the same line: the record is loaded, although the line is malformed |
| Leaderboard.BeforeIff | server/src/score_manager.c:34-34 | strcmp puts a before b exactly if, after a common beginning, a ends first or has the smaller byte |
| Leaderboard.LeqTotal | server/src/score_manager.c:30-49 | both comparators order any two records |
| Leaderboard.LeqTransitive | server/src/score_manager.c:30-49 | and are transitive, as qsort requires |
| Leaderboard.Qsort | server/src/score_manager.c:62-62 | the array becomes a sorted permutation of itself and the rest is untouched; nothing is promised about ties, as in section 7.20.5.2 of ISO/IEC 9899:1999 |
| Leaderboard.FirstsMeaning | server/src/score_manager.c:64-88 | on sorted records the grouping loop keeps, for the alphabetically first users, each one's best record |
| Leaderboard.KeepFirsts | server/src/score_manager.c:64-88 | the loop with last_processed_user and *final_count computes that grouping |
| Leaderboard.GetLeaderboard | server/src/score_manager.c:51-93 | distinct named users, each with the maximum of its loaded scores, in non-increasing order; a user is left out only when the list is full and all listed names come before it; -1 exactly when the file cannot be read |
| Ranking.ListedIff | server/src/score_manager.c:66-88 | a user is listed if and only if fewer than max users have names that come first in byte order |
| Ranking.SizeIsMin | server/src/score_manager.c:68-77 | the length is the smaller of max and the number of named users |
| Ranking.TopIffFewUsers | server/src/score_manager.c:51-93 | of the records that were loaded, the list is the ranking of the best users for all scores if and only if there are at most max users |
| Ranking.BestLeftOut | server/src/score_manager.c:68-77 | with more users than places the alphabetically last one can hold the best score and be left out |
| Ranking.TrueIff | server/src/score_manager.c:51-93 | for scores submitted by given users in a given order, the list shows true bests of the best users, whatever the scores, if and only if there are at most max names and at most 500 submissions |
| Ranking.BestScoreUnseen | server/src/db_handler.c:272-276 | one user, 500 scores of 1 and then a 9: the list shows a 1 |
| Ranking.OrderIrrelevant | server/src/score_manager.c:51-93 | the same records in any order, with any tie-breaking, give the same entries and the same scores from top to bottom |
| Ranking.AddedRecords | server/src/score_manager.c:51-93 | more records never lower the score of a user who stays listed, and never list a user who had records and was left out |
| Ranking.SubmissionOrder | server/src/db_handler.c:272-304 | up to 500 well-formed submissions in two orders give the same list up to ties |
| Ranking.LateSubmissionsIgnored | server/src/db_handler.c:272-276 | once 500 well-formed scores are stored, no later submission changes what is loaded |
| Framing.HeaderRoundTrip | common/include/protocol.h:38-41 | type and length come back from the packed header; the length if and only if it fits 16 bits |
| Framing.Socket.SendAll | server/src/server_network.c:30-46 | 0 means exactly the buffer was sent, anything else that a proper prefix was, however the calls split, fail or are interrupted; the client's copy of the loop also stops at a signal |
| Framing.Socket.RecvAll | server/src/server_network.c:49-65 | 0 means exactly the next len bytes were taken from the stream, anything else that fewer were |
| Framing.Socket.SendResponse | server/src/server_network.c:68-86 | header and body are sent as one frame, or a proper prefix of it and -1 |
| ClientNetwork.Client.Drain | client/src/client_network.c:158-169 | the discarding loop takes exactly the body, or the client is disconnected |
| ClientNetwork.Client.Exchange | client/src/client_network.c:90-188 | success means the request went out whole and the response is exactly the next frame, of the expected type and fitting; for every other code how much of the request went out; whatever fails, where the stream stands as long as the client is connected: past the response after 0 and -5, right after its header after -6, anywhere in the error body after -4, before the response or its body after a signal; without errors or signals the answer code and the bytes consumed are determined by the response header |
| Lockstep.LockstepHolds | server/src/server_network.c:152-307 | in every run, however bytes are split, whenever the client is free to ask again both directions are empty, every request was served with exactly its bytes and every answer received with exactly the bytes sent, of the expected type and size |
| Lockstep.NeverBroken | client/src/client_network.c:154-177 | the client never meets an unexpected answer and the handler never drops a request as too large |
| Lockstep.NeverStuck | client/src/client_network.c:90-188 | client and handler never wait for each other: until the exchange is over some step is possible |
| Lockstep.StepAdvances | client/src/client_network.c:90-188 | during an exchange every step that changes anything lowers a number, so no split of the bytes makes it go on for ever |
| Lockstep.RequestIsAnswered | server/src/server_network.c:152-307 | whenever the client is free, every request can be made, is served, and its answer of the expected type comes back |
| Lockstep.TypesDiffer | common/include/protocol.h:14-35 | no two kinds of messages, requests or responses, have the same type, and none has that of an error |
| Lockstep.LengthsFit | common/include/protocol.h:49-90 | every response length fits the 16-bit field, every request the handler's limit, every answer the client's buffer |
| WordList.WordFile.ReadWords | server/src/word_manager.c:127-144 | the loop fills the list with the first 256 words of the file |
| WordList.WordFile.WriteDefaults | server/src/word_manager.c:57-78 | success leaves exactly the default words, one on each line |
| WordList.WordFile.Load | server/src/word_manager.c:96-157 | ends after at most one rewrite; succeeds exactly if the file can be opened and a word is read from it or it can be rewritten; the list is then the words read; the file is unchanged if a word was read from it at first, and overwritten with the defaults otherwise, whatever words it held beyond the point where the reading ended; -1 in every other case |
| WordList.ParseWordIff | server/src/word_manager.c:133-141 | a line holds exactly the word it starts with, up to the first CR, LF or NUL or its end, if that has 1 to 31 bytes |
| WordList.NoWordsIff | server/src/word_manager.c:131-151 | a file of lines of any length counts as holding no word, and is overwritten, if and only if there is no word on the pieces before its first blank one, lines being read in pieces of 33 bytes |
| WordList.BlankFirstLineHidesAll | server/src/word_manager.c:131-151 | whatever words follow, a file that starts with a blank line counts as holding none |
| WordList.FullFirstLineHidesAll | server/src/word_manager.c:131-151 | and so does one that starts with a line of exactly 33 bytes, although that is not blank |
| WordList.WordsAreWords | server/src/word_manager.c:131-142 | whatever the file holds, every loaded word is nonempty, at most 31 bytes, and free of CR, LF and NUL |
| WordList.WordsReadBack | server/src/word_manager.c:131-142 | a file with one such word on each line loads as its first 256 lines, in order |
| WordList.CrlfReadsBack | server/src/word_manager.c:131-142 | and so does one with CRLF line ends |
| WordList.DefaultWordsQualify | server/src/word_manager.c:24-26 | the built-in words can be written and read back |

## Left out

- Screen drawing, menus, key prompts, colours and the placement of words in x: user interface. Of `draw_game_screen` only the nesting of its mutexes is modelled.
- Score thresholds for level and drop interval: single-branch tables. The mutexes taken to read the score are modelled, the time until the next drop is arbitrary.
- Real time and `rand`: timers, picked words and word types are free choices of the environment.
- 32-bit overflow of the score and of `total_count`: the score and the count are unbounded integers in the game model.
- The flags `sigint_received` and `sigint_game_exit_requested` are one flag that a signal may set at any moment: the game treats them alike.
- Failures of `pthread_join` and of mutex initialisation, and repeated runs in one process: one game from its first to its last step.
- Freed memory: a removed table node is unlinked; that no reference to it is kept is not modelled.
- SHA-256 hashing in the client: a hashed password is any string.
- Socket setup, the accept loop, signal installation, directory creation, `fsync` and all message texts: plumbing around the modelled logic.
- Request bodies shorter than their structure, or without a NUL: names and passwords in requests are C strings.
- Partial writes: the bytes of one append reach the file all together or not at all.
- Read errors in the middle of a file, which end a search like the end of the file.
- Copying the text of an error response into the caller's structure (client_network.c:131-148).
- Wrap-around of the response length in `send_response`: stated only through Framing.HeaderRoundTrip, since no response is that long.
- Lockstep covers runs without I/O errors or signals; what each end does on an error is in Framing and ClientNetwork.
