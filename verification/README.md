# ZMUX: a verified model

ZMUX is a terminal for Android: it installs an Alpine root file system and
Python packages, runs a real PTY or a small host console, shows it in tabs over a
WebSocket, and builds and inspects the ELF binaries this needs. The project models
the parts that keep state across steps or transform bytes, and proves what they
promise. `dafny verify dfyconfig.toml` checks all of it.

| file | what it models |
|---|---|
| `Packages.dfy`, `PackageState.dfy`, `Installs.dfy`, `LeftBehind.dfy`, `Transactions.dfy` | `zpip`: wheel checks, commit and rollback, recursive install, uninstall, over an arbitrary universe of manifests, any answers and fetches, and any fault in any commit |
| `ControlFilter.dfy`, `TerminalOutput.dfy` | the streaming filter for the private storage control, the capped scrollback |
| `Sessions.dfy` | the tabs and what the client's screen shows |
| `PtyOwnership.dfy` | who owns the PTY: spawning, reader threads, exit callbacks, toggle, stop |
| `LineEditing.dfy`, `Console.dfy` | keys, history, submitted lines, the worker, type-ahead, the interrupt latch |
| `WebSocketFrames.dfy` | the frame writers and the frame reader over a socket that splits bytes anywhere (RFC 6455) |
| `Elf.dfy`, `ElfEncoding.dfy`, `Talloc.dfy`, `TallocImage.dfy` | the ELF dynamic-section reader, the headers it reads as the System V gABI lays them out, the in-place `libtalloc.so.2` rewrite seen through it, and a small image it applies to |
| `StreamingWriter.dfy` | the stdout proxy with CR LF line ends |
| `RootfsInstall.dfy` | the staged root file system install, stopped anywhere |
| `Pipelines.dfy`, `Listing.dfy` | the pipeline and redirection parser; `ls -R` with an explicit stack |
| `Sequences.dfy` | searching, replacing, numbers in both byte orders, `str.strip` |

Where the source updates an object in place there is a class with its fields, whose
methods are proved equal to a specification function on the object's value; what
the source promises is proved about those functions, over every run. What comes from
outside, such as the resolver's answers, the fetches, where commits are stopped and
how the steps of a root file system install end, is input that is taken in turn.

A step is what one thread does without being interleaved: a method under its lock,
a character, one stage of the worker's or a reader's loop. `shell.interrupt()`,
`clear_interrupt` and `_finish_command` are one step each, and so is the reset with
the replay when tabs are switched.

## Where the code does less than it says

- A control interrupted by whole controls comes out of the filter
  (app/zmux/pty_session.py:68-70 say it is consumed before the terminal sees it).
  Exactly when that happens: `ControlFilter.ControlSurvives`; an example at every
  split: `ControlFilter.NestedControlSurvives`.
- Closing the only tab sends the client no reset. The old screen then stays under
  the fresh session's output unless it was empty, until the session has filled its
  scrollback: `SessionModel.ClosedOnlyAgrees`; a run, `SessionModel.ClosedOnlyCanDisagree`.
- Ctrl+C between a command's epoch snapshot and `_busy.set()` is no interrupt
  (app/zmux/pty_session.py:680-682 count it as one): it is one exactly while the
  session is busy, `ConsoleModel.CtrlCInterruptsTheBusy`; a run in which it is
  missed, `ConsoleModel.CtrlCCanBeMissed`.
- Up and Down restore the line being typed only from that line; what was changed in
  a recalled line is gone: `LineEditing.UpsThenDownsFromRecalled`.
- A PTY whose child ends before the session has taken it keeps being the current
  one: `PtyModel.CallbackCanBeLost`, `PtyModel.FinishedCurrent`.
- A failed package install always reports `rolled_back`, also when its commit had
  already deleted obsolete files. The tree is restored exactly when no obsolete file
  that was there had been deleted (`PackageState.FaultRestores`), whatever the fault
  exactly when there is none to lose (`PackageState.CommitAlwaysRestores`), and every
  recorded file stays exactly when the commit stopped before its first deletion
  (`PackageState.StoppedKeepsPresent`).
- Packages brought in below the direct requirements outlast a failed install: a run,
  `LeftBehind.LeavesB`; exactly which, and exactly when the database is as before,
  `InstallModel.FailureLeaves`; for the caller, `InstallModel.FailureRestores`.
- An Alpine archive without `bin/busybox` installs with `ok` and is not installed:
  `RootfsInstall.BootstrapMeans`. What an uninstall leaves passes for installed and
  is not whole exactly when the two files looked at are there and another is
  missing: `RootfsInstall.LeftoverPassesForInstalled`.
- Every flush between a CR and its LF adds one CR to the streamed text:
  `StreamingWriters.StreamedText`.

## Model

| member | source | states |
|---|---|---|
| Transactions.Zpip.Install | app/zmux/zpip.py:637-792 | the state and the report are those of `Installed`: resolution, requirements, artifact, and on any failure the dependencies taken out again; what success comes to is `InstalledDelivers` |
| Transactions.Zpip.InstallDependencies | app/zmux/zpip.py:659-690 | the requirements in turn, looked up in the stale snapshot |
| Transactions.Zpip.InstallArtifact | app/zmux/zpip.py:691-763 | one fetch, the wheel checks, one commit |
| Transactions.Zpip.Commit | app/zmux/zpip.py:702-763 | nothing when a file is another package's; else the tree and database of this commit and this fault |
| Transactions.Zpip.ReplaceFiles | app/zmux/zpip.py:716-784 | outcome and tree are those of a commit of this wheel, these obsolete files and this fault |
| Transactions.Zpip.CommitFiles | app/zmux/zpip.py:718-737 | stopped anywhere, tree and backup are those of that many files put in place |
| Transactions.Zpip.RestoreFiles | app/zmux/zpip.py:778-784 | the tree with the committed files put back, the last one first |
| Transactions.Zpip.DeleteFiles | app/zmux/zpip.py:738-741 | exactly the obsolete files before the fault are gone, in whatever order the walk takes |
| Transactions.Zpip.Uninstall | app/zmux/zpip.py:795-817 | the record and exactly the package's files go; unknown packages change nothing |
| Transactions.Zpip.UninstallAll | app/zmux/zpip.py:785-786 | the listed packages go one by one, with their files, the last one first |
| Transactions.Zpip.Perform | app/zmux/zpip.py:637-817 | the state after one command, and whether it succeeded |
| Transactions.Zpip.Resolve | app/zmux/zpip.py:658 | takes the next answer, if it is a manifest of the package |
| Transactions.ManifestRequirements | app/zmux/zpip.py:615-625 | unreadable and inapplicable dependency lines are skipped, the rest kept in order |
| InstallModel.RequirementsOfBoth | app/zmux/zpip.py:615-625 | the requirements of some lines and more are those of the first, then those of the others |
| InstallModel.RequirementOfLine | app/zmux/zpip.py:615-625 | an applicable line gives its requirement, any other none |
| InstallModel.LineAsRequirement | app/zmux/zpip.py:615-625 | the last line of its name is the last requirement of that name, in its place |
| InstallModel.InstalledKeeps | app/zmux/zpip.py:637-792 | at any recursion depth and whatever comes from outside: no file gets two owners; every other package there was keeps its record and the contents of all its files; what is new is not explicit and is needed by the package, after a failure only through others; on failure the package's record is unchanged and its files are as before or gone; on success its flag is set iff it was or it was asked for by name; nothing being installed further up is brought in |
| InstallModel.InstalledLeavesNone | app/zmux/zpip.py:637-817 | whatever fails, a file that belongs to no package was there before, belonged to none, and is as it was: the files of dependencies taken out are deleted |
| InstallModel.InstalledCareful | app/zmux/zpip.py:716-787 | every recorded file keeps existing while no commit on the way is stopped after deleting a file that was there; the files a failed package is missing are ones such a commit lost |
| InstallModel.InstalledDelivers | app/zmux/zpip.py:637-776 | on success the manifest taken is installed: every file with its content, no obsolete file, and the record with its version, the names of its files and the flag kept or set; every applicable dependency line holds in the final database, in the version its specifier accepts, but for the package's own name and lines a later one of the same name took over from; the reported dependencies are new, needed and there |
| InstallModel.InstalledIsStraight | app/zmux/zpip.py:637-776 | an install succeeds iff the form without failure handling goes through, every resolution, requirement, fetch and commit on its way succeeding, and then does the same |
| InstallModel.DeliveringIff | app/zmux/zpip.py:691-763 | an artifact is committed iff it is fetched and sound, none of its files is another package's, and the commit is not stopped |
| InstallModel.LeafSucceeds | app/zmux/zpip.py:637-776 | with every applicable line met already, an install succeeds iff the package is not being installed further up, the answer is a manifest of it, the artifact is fetched and sound, its files are free and the commit is not stopped; nothing else comes in |
| InstallModel.SatisfiesMeans | app/zmux/zpip.py:660-663 | a requirement is satisfied iff its package is installed in a version the specifier accepts |
| InstallModel.AllHold | app/zmux/zpip.py:660-664 | requirements met in the snapshot are passed over |
| InstallModel.RecordMeans | app/zmux/zpip.py:747-762 | a record has the version, exactly the names of the wheel's files, and the flag iff it was set or the package was asked for by name |
| InstallModel.FailureLeaves | app/zmux/zpip.py:778-788 | a failed install leaves exactly what was brought in for the requirements less the packages installed directly, with their records; the database is as before iff these were all |
| InstallModel.FailureRestores | app/zmux/zpip.py:778-788 | for a caller: when all it requires through others is there, a failed install leaves the database as it was, and in a tree that only packages own every file but those a commit lost |
| LeftBehind.LeavesB | app/zmux/zpip.py:637-792 | `a` requires `c`, `c` requires `b`, the third commit is stopped at its first file: the install reports `rolled_back`, and `b` stays |
| InstallModel.LeftDecreases | app/zmux/zpip.py:647-649 | the recursion terminates: names on the stack are distinct, so fewer packages of the universe are left |
| InstallModel.DependenciesKeep | app/zmux/zpip.py:659-690 | working on the requirements changes nothing that was there; what it installs is new, needed, not explicit and not on the stack |
| InstallModel.DependenciesMeet | app/zmux/zpip.py:659-690 | although the snapshot is never refreshed, the requirements worked through stay satisfied while later ones install |
| InstallModel.DependenciesLeaveNone | app/zmux/zpip.py:659-690 | and leave no file behind |
| InstallModel.DependenciesCareful | app/zmux/zpip.py:659-690 | and lose no recorded file unless a commit does |
| InstallModel.MetStep | app/zmux/zpip.py:660-690 | installing for the next requirement keeps the earlier ones satisfied, except one of the same name |
| InstallModel.MetDirectly | app/zmux/zpip.py:659-690 | the commit keeps every direct requirement satisfied but one naming the package itself |
| InstallModel.DeliveringKeeps | app/zmux/zpip.py:691-784 | a commit, stopped or not, keeps ownership exclusive, touches no other package and leaves no file behind |
| InstallModel.DeliveringLoses | app/zmux/zpip.py:738-784 | after a failed commit exactly the files it lost are missing |
| InstallModel.UninstalledAllKeeps | app/zmux/zpip.py:785-786 | exactly the listed packages go, and no file of theirs is left |
| InstallModel.RunKeeps | app/zmux/zpip.py:637-817 | over any run of installs and uninstalls, in terms of the commands and which succeeded: a package is explicit iff it was and was not uninstalled, or an install by name succeeded and it was not uninstalled since; packages no command names keep record and files; a package not uninstalled stays; ownership stays exclusive; no file is left behind; recorded files exist while no commit loses one |
| InstallModel.PerformedMeans | app/zmux/zpip.py:637-817 | what one command does to flags, records and files; an uninstalled package's files are gone |
| InstallModel.FlaggedStep | app/zmux/zpip.py:744-762 | how one more command changes which packages are to be explicit |
| PackageState.CommitKeeps | app/zmux/zpip.py:705-762 | a commit into free paths keeps ownership exclusive and recorded files present, and leaves every other package intact |
| PackageState.CommitLeavesNone | app/zmux/zpip.py:718-762 | and no file that belongs to no package |
| PackageState.RemoveKeeps | app/zmux/zpip.py:795-815 | so does a removal |
| PackageState.TreeRestored | app/zmux/zpip.py:778-787 | with the database as before, a tree that only packages own has its old files but those missing |
| PackageState.ContentsByIndex | app/zmux/zpip.py:718-726 | each file of a wheel with its content |
| PackageState.CommitStep | app/zmux/zpip.py:718-737 | backing up and replacing one more file |
| PackageState.RestoreStep | app/zmux/zpip.py:779-784 | putting back the last committed file undoes exactly its step |
| PackageState.PlacedMeans | app/zmux/zpip.py:718-737 | the first files in place: the old tree with exactly these, and the backup holds what they replaced |
| PackageState.PutBackMeans | app/zmux/zpip.py:778-784 | putting them back gives the old tree, less what was deleted meanwhile |
| PackageState.AttemptMeans | app/zmux/zpip.py:716-784 | a commit that is not stopped has all of the wheel and no obsolete file; one that is leaves the old tree less the obsolete files deleted by then |
| PackageState.FaultRestores | app/zmux/zpip.py:738-784 | a stopped commit restores the tree iff no obsolete file that was there had been deleted before the fault |
| PackageState.EveryFaultRestores | app/zmux/zpip.py:738-784 | whatever the fault, the tree is restored: iff no obsolete file is there; failing to save loses all that are |
| PackageState.CommitAlwaysRestores | app/zmux/zpip.py:738-784 | the same for a caller: iff the installed version has no file left that the wheel has not |
| PackageState.StoppedKeepsPresent | app/zmux/zpip.py:738-784 | a stopped commit leaves every recorded file in place iff it stopped before the first deletion |
| Wheels.SafeMembers | app/zmux/zpip.py:321-343 | accepts an archive iff no name escapes or repeats a file before it, no file and no total is too large, and both metadata files are there; returns its files in order |
| Wheels.FilesDistinct | app/zmux/zpip.py:329-338 | accepted files have distinct names and are all the files there are |
| Wheels.FilesOfBoth | app/zmux/zpip.py:329-338 | files and sizes of two lists: those of the first, then those of the second |
| Wheels.UnsafeMeans | app/zmux/zpip.py:326-328 | refused are exactly absolute names and those with an empty part or a `..` |
| Wheels.SafeStaysInside | app/zmux/zpip.py:326-328 | a name let through leads below the directory, and every beginning of it, by an independent walk along its parts |
| ControlFilter.ScanAppend | app/zmux/pty_session.py:303-323 | chunk independence: filtering two chunks gives the output, the held-back tail and the control count of one pass over both |
| ControlFilter.ScanDeletes | app/zmux/pty_session.py:303-323 | output and tail are the input with its leftmost non-overlapping controls deleted |
| ControlFilter.ScanHoldsBack | app/zmux/pty_session.py:294-301 | the tail is a proper beginning of a control at the end of the input |
| ControlFilter.ScanConserves | app/zmux/pty_session.py:303-323 | every byte is let through, held back, or part of a counted control |
| ControlFilter.ScanFinds | app/zmux/pty_session.py:309-314 | searching for the next whole control is the byte-by-byte reference scan |
| ControlFilter.ScanKeeps | app/zmux/pty_session.py:315-322 | without one, the longest possible beginning is what the reference holds back |
| ControlFilter.NestedControlSurvives | app/zmux/pty_session.py:303-323 | in particular a control split anywhere around another comes out whole |
| ControlFilter.ControlSurvives | app/zmux/pty_session.py:303-323 | for every input: the output contains the control iff the input has one that is interrupted, after its first byte, by whole controls only |
| ControlFilter.StorageControlSurvives | app/zmux/pty_session.py:68-71 | the same of the storage-setup control |
| TerminalOutput.ChunkingDoesNotMatter | app/zmux/pty_session.py:345-368 | however the PTY's output is cut, all chunks together show what one filter pass over the whole lets through, the scrollback is the last mebibyte of it, and the controls counted are those of that pass |
| TerminalOutput.EmittedRecords | app/zmux/pty_session.py:345-368 | one emit keeps that |
| TerminalOutput.LineStartMeans | app/zmux/pty_session.py:357-367 | at the start of a line after LF, a cleared screen or a move home; CR leaves it as it was; any other output does not |
| TerminalOutput.PossibleControlPrefix | app/zmux/pty_session.py:294-301 | finds the longest suffix that properly begins the control |
| TerminalOutput.TerminalSession.FilterPtyControls | app/zmux/pty_session.py:303-323 | equals the reference scan of the old tail and the data |
| TerminalOutput.TerminalSession.Emit | app/zmux/pty_session.py:345-368 | what goes to the client, and tail, scrollback, line start and control count afterwards |
| TerminalOutput.TerminalSession.AppendScrollback | app/zmux/pty_session.py:352-355 | the scrollback keeps the last mebibyte |
| SessionModel.ClientShowsActiveSession | app/zmux/sessions.py:64-164 | over every run that never closes the only tab, what the client got since its last reset, cut to the cap, is the last mebibyte of all the active session ever emitted, controls taken out |
| SessionModel.RunKeeps | app/zmux/sessions.py:60-185 | over every run: the order list enumerates the map in creation order without repeats, at most 8 tabs, the active one exists whenever any does and has the window's geometry, no number comes back; and the client's screen agrees unless the only tab was closed |
| SessionModel.StepKeeps | app/zmux/sessions.py:76-185 | each operation keeps that |
| SessionModel.RunRecords | app/zmux/pty_session.py:345-368 | every session's scrollback, in the background or not, is the last mebibyte of what it showed |
| SessionModel.CreatedUpToTheCap | app/zmux/sessions.py:76-99 | a tab is refused exactly when there are 8 |
| SessionModel.AddedKeeps | app/zmux/sessions.py:80-98 | a new tab keeps order and screen agreement, activated or not |
| SessionModel.SwitchedKeeps | app/zmux/sessions.py:118-135 | switching repaints: whatever the client showed before, it then agrees with the target |
| SessionModel.ClosedKeeps | app/zmux/sessions.py:137-164 | closing hands over to the tab `ClosedByIndex` names if the closed one was on screen, repaints, and leaves at least one |
| SessionModel.ClosedByIndex | app/zmux/sessions.py:137-164 | by index: just the closed tab is taken out; if it was on screen, the tab to its right comes on screen, or the one to its left when there is none |
| SessionModel.SuccessorByIndex | app/zmux/sessions.py:146-149 | the tab that takes over: the next one, else the one before, else none |
| SessionModel.CreatedMeans | app/zmux/sessions.py:76-99 | a new tab has the next number, comes last, is fresh, has the window's geometry, and is on screen if asked for or if none was |
| SessionModel.ResizedMeans | app/zmux/sessions.py:172-185 | a real size becomes the window's and that of the tab on screen; any other changes nothing |
| SessionModel.SessionsAreApart | app/zmux/sessions.py:64-185 | a session that neither emits nor is closed keeps what it recorded, whatever is done to others |
| SessionModel.ClosedOnlyReopens | app/zmux/sessions.py:156-159 | closing the only tab opens a fresh one |
| SessionModel.ClosedOnlyAgrees | app/zmux/sessions.py:90-96 | then screen and session agree iff the old screen was empty or the fresh scrollback is full, whatever the session emits |
| SessionModel.ClosedOnlyCanDisagree | app/zmux/sessions.py:137-159 | a run from the start after which the client shows what the fresh session never did |
| SessionModel.EmitKeeps | app/zmux/sessions.py:64-73 | output of any session, shown or in the background, keeps the agreement |
| SessionModel.ResizedKeeps | app/zmux/sessions.py:172-185 | a resize reaches the session on screen only and keeps its geometry the window's |
| SessionModel.AscendingMeans | app/zmux/sessions.py:60-62 | earlier tabs have smaller numbers |
| Sessions.SessionManager.EmitFor | app/zmux/sessions.py:64-73 | the manager after an emit of any session, open or closed |
| Sessions.SessionManager.Create | app/zmux/sessions.py:76-99 | refused with nothing changed, or the manager with the new tab |
| Sessions.SessionManager.Switch | app/zmux/sessions.py:118-135 | the manager after a switch; false iff the tab is unknown |
| Sessions.SessionManager.Close | app/zmux/sessions.py:137-164 | the manager after a close; false iff the tab is unknown |
| Sessions.SessionManager.Remove | app/zmux/sessions.py:140-151 | takes the tab out and picks the successor: the right neighbour, else the left one, else none |
| Sessions.SessionManager.Resize | app/zmux/sessions.py:172-185 | non-positive sizes change nothing |
| PtyModel.RunKeeps | app/zmux/pty_session.py:540-638 | in every run every PTY that is not the session's is killed or reaped, and the session's is neither killed nor given up |
| PtyModel.AtMostOneAlive | app/zmux/pty_session.py:540-638 | no two PTYs are ever alive together, and none once stopped |
| PtyModel.CurrentChangesHands | app/zmux/pty_session.py:596-628 | the current PTY is given up exactly by a stop, a toggle or its own callback; an older PTY's callback never changes it |
| PtyModel.EntersWhen | app/zmux/pty_session.py:540-589 | a PTY is spawned and then current iff the session runs, is idle and has none, and nothing fails; a start enters iff Alpine is ready, a toggle without a PTY always |
| PtyModel.ShellIsReplaced | app/zmux/pty_session.py:596-615 | a shell that ends while the session runs is replaced by a fresh one, then the current one |
| PtyModel.ExitCodeMeans | app/zmux/realpty.py:165-186 | the exit code is the status waited for, of a survivor the one after the kill, else none |
| PtyModel.ReadersInOrder | app/zmux/realpty.py:143-186 | in every run each PTY's record is a beginning of: spawned, ended, reaped, callback fired; each once |
| PtyModel.QuietUntilStart | app/zmux/pty_session.py:263-272 | after a stop nothing is spawned or owned until the next start |
| PtyModel.StopEndsAll | app/zmux/pty_session.py:263-272 | stopping leaves no process that is not killed or reaped |
| PtyModel.FinishedCurrent | app/zmux/pty_session.py:570-589 | a reader that is done leaves its PTY current iff its callback was lost, and then only a toggle or a stop gives it up |
| PtyModel.CallbackCanBeLost | app/zmux/pty_session.py:571-585 | a run in which that happens |
| PtyModel.StepKeeps | app/zmux/pty_session.py:540-638 | each step keeps the ownership invariant |
| PtyOwnership.PtySession.StartSession | app/zmux/pty_session.py:202-221 | the state after a start |
| PtyOwnership.PtySession.EnterLinuxPty | app/zmux/pty_session.py:549-589 | spawns only when running, idle and without a PTY, and when nothing fails |
| PtyOwnership.PtySession.AdoptPty | app/zmux/pty_session.py:583-589 | the spawned PTY becomes the current one |
| PtyOwnership.PtySession.PtyExited | app/zmux/pty_session.py:596-606 | clears the current PTY only when it is the exact one; a callback before the PTY is known is lost |
| PtyOwnership.PtySession.ReplacePty | app/zmux/pty_session.py:607-615 | a fresh shell takes the place of the exited one |
| PtyOwnership.PtySession.LeaveLinuxPty | app/zmux/pty_session.py:617-623 | the current PTY is given up and killed |
| PtyOwnership.PtySession.TogglePty | app/zmux/pty_session.py:630-638 | leaves or enters; nothing while stopped |
| PtyOwnership.PtySession.StopSession | app/zmux/pty_session.py:263-270 | the state after a stop; every process killed or reaped |
| PtyOwnership.PtySession.Kill | app/zmux/realpty.py:215-236 | killed, its master closed, so its reader ends |
| PtyOwnership.PtySession.ReaderEnds | app/zmux/realpty.py:143-157 | the loop's end sets `exited` |
| PtyOwnership.PtySession.ReapChild | app/zmux/realpty.py:165-186 | a surviving child is killed and waited for; the exit code is known iff a wait gave a status |
| LineEditing.UpsThenDowns | app/zmux/pty_session.py:452-466 | from the line being typed, `k` Ups and `j` Downs bring it back iff `j` is at least `min(k, history length)`; otherwise exactly which recalled line shows |
| LineEditing.UpsThenDownsFromRecalled | app/zmux/pty_session.py:452-466 | from a recalled line any such keys show a recalled line as recorded or the line put aside, never the edited one |
| LineEditing.Ups | app/zmux/pty_session.py:452-466 | `k` Ups stop at the oldest line and put the typed one aside once |
| LineEditing.Downs | app/zmux/pty_session.py:452-466 | `j` Downs end at the line put aside |
| LineEditing.BrowseKeeps | app/zmux/pty_session.py:452-470 | the history position is none or in range |
| LineEditing.RememberKeeps | app/zmux/pty_session.py:472-476 | at most 500 entries, none blank or padded, no two alike in a row |
| LineEditing.RememberMeans | app/zmux/pty_session.py:472-476 | the line comes last, the oldest goes at 500; a blank or repeated line is not put there; browsing ends |
| LineEditing.StripSettles | app/zmux/pty_session.py:484 | a stripped line is left alone by stripping again |
| LineEditing.StripIsPart | app/zmux/pty_session.py:484 | stripping leaves a part of the line, and takes off nothing but white space at its ends |
| ConsoleModel.FeedReadsKeys | app/zmux/pty_session.py:405-450 | reading any text character by character equals reading the keys of an independent grammar of escape sequences: nothing in a sequence reaches the line |
| ConsoleModel.CsiSwallows | app/zmux/pty_session.py:443-450 | a CSI sequence swallows all up to its first final byte |
| ConsoleModel.ArrowsRestoreTheLine | app/zmux/pty_session.py:427-466 | the Up and Down result on the characters `ESC [ A` and `ESC [ B`; nothing else of the session changes |
| ConsoleModel.FeedApplicationArrow | app/zmux/pty_session.py:431-442 | so do `ESC O A` and `ESC O B` |
| ConsoleModel.OtherSequencesAreIgnored | app/zmux/pty_session.py:443-449 | any other control sequence changes nothing |
| ConsoleModel.TypedText | app/zmux/pty_session.py:405-425 | text typed goes to the end of the line, in order, and changes nothing else |
| ConsoleModel.EnterSubmitsTheLine | app/zmux/pty_session.py:419-422 | Enter after it submits exactly what stood in the line with the text after it, and empties the line |
| ConsoleModel.TypedLineIsQueued | app/zmux/pty_session.py:405-510 | so an ordinary line typed in an idle session is queued as typed, last, in the current mode |
| ConsoleModel.TypedAheadWaits | app/zmux/pty_session.py:479-483 | and while a command runs waits, last, as typed |
| ConsoleModel.EraseTakesBack | app/zmux/pty_session.py:415-418 | DEL or BS after a character leaves the session as it was, and on an empty line does nothing |
| ConsoleModel.ControlKeys | app/zmux/pty_session.py:410-425 | Ctrl+D leaves the interpreter iff the line is empty and the session idle; other controls do nothing |
| ConsoleModel.ArrowsWaitForTheCommand | app/zmux/pty_session.py:452-454 | while a command runs the arrows do nothing |
| ConsoleModel.RunKeepsEditor | app/zmux/pty_session.py:405-510 | in every run no line, stash, history entry or typed-ahead line holds a control character, the history is orderly, its position in range |
| ConsoleModel.FinishSeesInterrupts | app/zmux/pty_session.py:679-701 | whatever comes between the epoch snapshot and the finish, the flag is seen there iff an interrupt came in between or the exception was caught |
| ConsoleModel.RunKeepsLatch | app/zmux/python_shell.py:112-159 | in every run the latch is never wiped by the tagged clear after an interrupt, and the epoch counts the interrupts |
| ConsoleModel.StepKeepsLatch | app/zmux/python_shell.py:112-159 | each step keeps that |
| ConsoleModel.CtrlCInterruptsTheBusy | app/zmux/pty_session.py:641-653 | Ctrl+C is an interrupt iff the session is busy, which it is not before the command is marked |
| ConsoleModel.CtrlCCanBeMissed | app/zmux/pty_session.py:679-701 | a run from the start in which a Ctrl+C after the snapshot leaves the flag unset at the finish, and the line typed ahead becomes the next command |
| ConsoleModel.InterruptDecides | app/zmux/pty_session.py:679-779 | from snapshot to finish, whatever comes between: after an interrupt in between, or one caught, all that is then typed ahead is discarded and nothing submitted; else it waits for the hand-off or is submitted, in order; before the finish a line leaves only through `input()` |
| ConsoleModel.FinishDecides | app/zmux/pty_session.py:764-779 | interrupted: type-ahead discarded and latch reset; hand-off: left waiting, and Alpine entered; else all submitted in order by an idle session |
| ConsoleModel.RunConserves | app/zmux/pty_session.py:479-510 | over every run, in typing order, each line waiting at first or typed while busy is read by `input()`, submitted or discarded exactly once, or still waiting |
| ConsoleModel.StepConserves | app/zmux/pty_session.py:764-788 | each step keeps that |
| ConsoleModel.DiscardedWhenInterrupted | app/zmux/pty_session.py:764-771 | lines are discarded only where a command finishes interrupted since its snapshot |
| ConsoleModel.OrdinaryLinesAreQueued | app/zmux/pty_session.py:776-779 | ordinary lines typed ahead become the next commands, in order and in the current mode |
| ConsoleModel.RunServesInOrder | app/zmux/pty_session.py:667-678 | over every run commands are taken in the order they were queued, each once |
| ConsoleModel.TakesTheOldest | app/zmux/pty_session.py:667-678 | the worker takes the oldest command, no other step takes any; it runs it, or ends at the poison pill or once stopped |
| ConsoleModel.OrdersAreObeyed | app/zmux/pty_session.py:484-510 | what an idle session makes of the words that are orders: the mode changes or the PTY is entered, and nothing is queued |
| ConsoleModel.SetupIsTaken | app/zmux/pty_session.py:494-500 | while Alpine is awaited, of lines that are not blank `linux-setup` alone is queued |
| ConsoleModel.SetupOpensAlpine | app/zmux/pty_session.py:752-775 | when the setup finds Alpine ready, its finish enters Alpine, and type-ahead is left for it |
| ConsoleModel.EntersPty | app/zmux/pty_session.py:549-588 | the PTY is entered iff the session runs, is idle and has none, and the spawn succeeds |
| ConsoleModel.BlocksGrowAndClose | app/zmux/pty_session.py:713-725 | an unfinished line joins the open block and ends the command; a result closes the block |
| ConsoleModel.StopMeans | app/zmux/pty_session.py:263-272 | stopping gives up line, block and screen, interrupts, and ends the worker |
| ConsoleModel.ToggleMeans | app/zmux/pty_session.py:596-638 | the toggle leaves the PTY or enters it; a PTY that ends gives up the screen or is replaced; line and commands are untouched |
| ConsoleModel.RunIsGated | app/zmux/pty_session.py:494-500 | while Alpine is awaited only `linux-setup` and blank lines are ever queued or run, in shell mode, and waiting never comes back |
| ConsoleModel.SessionsKeep | app/zmux/pty_session.py:138-200 | all of these hold of every run from the start |
| Consoles.ConsoleSession.BrowseHistory | app/zmux/pty_session.py:452-466 | one step of the history, none while busy |
| Consoles.ConsoleSession.RecordHistory | app/zmux/pty_session.py:472-476 | the history after a submitted line |
| Consoles.ConsoleSession.SubmitLine | app/zmux/pty_session.py:479-510 | the session after a line |
| Consoles.ConsoleSession.DispatchLine | app/zmux/pty_session.py:494-510 | commands queued, and orders to the session itself |
| Consoles.ConsoleSession.EnterAlpine | app/zmux/pty_session.py:549-589 | what entering does to mode and screen ownership |
| Consoles.ConsoleSession.HandleChar | app/zmux/pty_session.py:405-425 | the session after a character |
| Consoles.ConsoleSession.HandleEscapeChar | app/zmux/pty_session.py:427-450 | the session after a character of an escape sequence |
| Consoles.ConsoleSession.InterruptCommand | app/zmux/pty_session.py:641-653 | the session after Ctrl+C |
| Consoles.ConsoleSession.InterruptShell | app/zmux/python_shell.py:120-121 | epoch and flag after an interrupt |
| Consoles.ConsoleSession.WriteInput | app/zmux/pty_session.py:387-403 | input is fed character by character unless stopped or a PTY owns the screen |
| Consoles.ConsoleSession.TakeCommand | app/zmux/pty_session.py:669-678 | the next command, or the worker's end |
| Consoles.ConsoleSession.NoteEpoch | app/zmux/pty_session.py:682 | the snapshot |
| Consoles.ConsoleSession.BecomeBusy | app/zmux/pty_session.py:683 | the command is marked |
| Consoles.ConsoleSession.ClearInterrupt | app/zmux/python_shell.py:152-159 | the latch is cleared only when no interrupt came since the snapshot |
| Consoles.ConsoleSession.ReadLine | app/zmux/pty_session.py:84-101 | gives the oldest line typed ahead, none once interrupted or stopped |
| Consoles.ConsoleSession.AwaitBlock | app/zmux/pty_session.py:719-723 | an open block is extended and the session is no longer busy |
| Consoles.ConsoleSession.RenderResult | app/zmux/pty_session.py:724-761 | the block is closed; Alpine ready arms the hand-off |
| Consoles.ConsoleSession.CatchInterrupt | app/zmux/pty_session.py:687-693 | a caught interrupt sets the flag |
| Consoles.ConsoleSession.FinishCommand | app/zmux/pty_session.py:764-779 | the session after a command |
| Consoles.ConsoleSession.StopSession | app/zmux/pty_session.py:263-272 | stopping interrupts and poisons the worker |
| WebSocketFrames.FramesRoundTrip | app/zmux/ws_server.py:343-369 | any list of frames from either side, followed by at most part of another, is read back frame by frame |
| WebSocketFrames.ServerRoundTrip | app/zmux/ws_server.py:392-406 | a server frame is read back, never from fewer bytes; its opcode survives iff it is below 16 |
| WebSocketFrames.ClientRoundTrip | scripts/e2e_pty_smoke.py:55-68 | text masked with any key is read back unmasked, never from fewer bytes |
| WebSocketFrames.HeaderRoundTrip | app/zmux/ws_server.py:344-357 | opcode, mask bit and length survive in each of the three length forms |
| WebSocketFrames.MaskTwice | app/zmux/ws_server.py:366-367 | masking twice with one key restores the payload |
| WebSocketFrames.MaskedBitByBit | app/zmux/ws_server.py:366-367 | a bit of the masked payload is set iff that of the payload and that of the key byte `i % 4` differ |
| WebSocketFrames.StandardExamples | app/zmux/ws_server.py:343-406 | the examples of section 5.7 of RFC 6455: the masked "Hello" is written and read, the unmasked one, and the headers for 256 bytes and 64 KiB |
| WebSocketFrames.FirstBytes | app/zmux/ws_server.py:393-406 | a frame the server writes has the final bit and its opcode, is unmasked, and ends in its payload |
| WebSocketFrames.XorTwice | app/zmux/ws_server.py:367 | so does exclusive or on numbers of any width |
| WebSocketFrames.XorBit | app/zmux/ws_server.py:367 | exclusive or bit by bit, for numbers of any width |
| WebSocketFrames.ShortestForm | app/zmux/ws_server.py:396-404 | no bytes that read as the same frame are fewer than the writer's |
| WebSocketFrames.RecvExact | app/zmux/ws_server.py:334-341 | however the socket splits the bytes, exactly that many are taken, or the connection ended first |
| WebSocketFrames.ReadHeaderFrom | app/zmux/ws_server.py:344-357 | the header read from a splitting socket is the one its bytes spell |
| WebSocketFrames.ReadFrameFrom | app/zmux/ws_server.py:343-369 | the frame read is the one the bytes spell, and exactly its bytes are consumed |
| WebSocketFrames.ReadAll | app/zmux/ws_server.py:343-369 | repeated reading yields every frame in order |
| WebSocketFrames.SendFrame | app/zmux/ws_server.py:392-406 | appends the frame's bytes, or nothing when opcode or length do not fit |
| WebSocketFrames.SendText | scripts/e2e_pty_smoke.py:55-68 | appends the masked frame's bytes |
| Octets.BigEndianRoundTrip | app/zmux/ws_server.py:401-404 | a number survives its big-endian field iff it fits |
| Octets.LittleEndianRoundTrip | app/zmux/elfscan.py:48-77 | so in the other byte order |
| Octets.EndiansByIndex | app/zmux/ws_server.py:401-404 | each byte, in both orders |
| Elf.ElfDynamicNeeded | app/zmux/elfscan.py:33-123 | the needed names, or the error, of any byte string |
| Elf.FindSections | app/zmux/elfscan.py:86-100 | the section loop, its errors included, keeps the first dynamic and the last `.dynstr` section |
| Elf.LayoutMeans | app/zmux/elfscan.py:91-100 | from any section on, the loop ends with the first dynamic one and the last `.dynstr` of all |
| ElfEncoding.HeaderReadsBack | app/zmux/elfscan.py:44-65 | for both classes and both byte orders: of a file header laid out as the System V gABI has it, the fields encoded are read back, whatever stands in the others and after it; it raises iff one of the three is zero |
| ElfEncoding.SectionReadsBack | app/zmux/elfscan.py:67-79 | of a section header anywhere in the file, name, type, offset and size, whatever stands in the others |
| ElfEncoding.EntryReadsBack | app/zmux/elfscan.py:109-112 | of a dynamic entry, tag and value |
| ElfEncoding.FileReadsBack | app/zmux/elfscan.py:52-79 | of a file with its header and, where that says, its section headers, each of these by its index |
| ElfEncoding.EntriesReadBack | app/zmux/elfscan.py:105-112 | of a dynamic section that holds encoded entries, their number, and each by its index |
| ElfEncoding.OthersAreRefused | app/zmux/elfscan.py:44-50 | no ELF file, or one of neither class, is refused |
| Elf.ReadNeeded | app/zmux/elfscan.py:105-123 | the names up to the null entry, entries outside the string table skipped |
| Elf.NeededByIndex | app/zmux/elfscan.py:109-123 | by index: the result is, in order, the names of the DT_NEEDED entries before the first null one whose value lies within the string table; it raises iff an entry before that is cut short or such a name is not terminated |
| Elf.Terminator | app/zmux/elfscan.py:81-84 | the first zero byte in the range, or none |
| TallocRead.RewriteCommutesWithReading | scripts/build_proot_android.py:307-325 | when occurrences keep clear of headers, section names, dynamic entries and the beginnings of needed names, reading the rewritten image gives the same names in order, each cut after the `libtalloc.so` of its first `libtalloc.so.2`; the length is unchanged |
| TallocRead.CutNameMeans | scripts/build_proot_android.py:77-78 | the versioned name becomes the plain one; a name changes iff it contains the needle; no cut name contains it |
| TallocImage.ImageIsRewritten | scripts/build_proot_android.py:307-325 | an image that meets those conditions and contains the needle: rewritten, it needs plain `libtalloc.so` |
| TallocRead.NameIsCut | app/zmux/elfscan.py:120-122 | a name read from the rewritten image is the name, cut |
| TallocRead.EntriesAreCut | app/zmux/elfscan.py:109-123 | entry by entry |
| TallocRead.NamesAreCut | app/zmux/elfscan.py:109-123 | hence the whole list |
| TallocRead.SameLayout | app/zmux/elfscan.py:86-103 | both sections are found where they were |
| TallocPatch.PatchBytes | scripts/build_proot_android.py:315 | replacing keeps every offset and zeroes exactly the last two bytes of each occurrence |
| TallocPatch.OccurrencesApart | scripts/build_proot_android.py:311 | occurrences cannot overlap |
| TallocPatch.NoNeedleLeft | scripts/build_proot_android.py:315 | no needle remains |
| TallocPatch.PatchUnchanged | scripts/build_proot_android.py:311-315 | the image is unchanged iff it has no needle; rewriting again changes nothing |
| TallocBuild.Output.PatchTallocNames | scripts/build_proot_android.py:293-325 | every file is there and rewritten; the size check never fails |
| StreamingWriters.StreamedText | app/zmux/streams.py:56-82 | the kept text is exact, no pending text holds LF, and emitted plus rewritten pending text is the rewritten whole iff no flush parted CR from LF, one character more per such flush |
| StreamingWriters.RunStreams | app/zmux/streams.py:56-77 | that invariant over any run |
| StreamingWriters.WrittenMeans | app/zmux/streams.py:56-70 | after a write all up to the last LF is out; what follows it, or a text without LF, is pending; but a text without LF of 256 characters or more goes out |
| StreamingWriters.FlushedMeans | app/zmux/streams.py:72-77 | a flush sends what is pending |
| StreamingWriters.ValueIsText | app/zmux/streams.py:80-82 | `getvalue` is the exact concatenation |
| LineEnds.CrlfIsOnePass | app/zmux/streams.py:66 | two replacements are one pass that adds a CR to lone LFs |
| LineEnds.CrlfSplits | app/zmux/streams.py:66-75 | rewriting piecewise is rewriting the whole but for one CR at a cut CR LF |
| LineEnds.CrlfSettles | app/zmux/streams.py:66 | every LF follows a CR, and rewriting again changes nothing |
| StreamingWriters.StreamingWriter.WriteText | app/zmux/streams.py:56-70 | the writer after a write |
| StreamingWriters.StreamingWriter.FlushText | app/zmux/streams.py:72-77 | the writer after a flush |
| StreamingWriters.StreamingWriter.GetValue | app/zmux/streams.py:80-82 | the text written so far |
| RootfsInstall.CallsKeep | app/zmux/linuxenv.py:527-597 | after any number of calls, each stopped anywhere, a root that passes for installed is exactly the bootstrapped extraction of a digest-verified archive |
| RootfsInstall.LeftKeeps | app/zmux/linuxenv.py:527-597 | one call keeps that |
| RootfsInstall.RemainsUninstalled | app/zmux/linuxenv.py:141-144 | what a broken-off removal leaves never passes for installed where the whole did not |
| RootfsInstall.BootstrapMeans | app/zmux/linuxenv.py:635-659 | file by file what the first run decides; nothing else is touched; installed afterwards iff busybox was extracted |
| RootfsInstall.BootstrapSettles | app/zmux/linuxenv.py:635-659 | a second first run changes nothing |
| RootfsInstall.UninstallMayLeaveLessThanARoot | app/zmux/linuxenv.py:662-666 | from every complete root an uninstall may leave one that passes for installed and is not complete |
| RootfsInstall.LeftoverPassesForInstalled | app/zmux/linuxenv.py:662-666 | what an uninstall leaves of a complete root passes for installed and is not complete iff the two files looked at are there and some other is missing, given one verified archive |
| RootfsInstall.Rootfs.Install | app/zmux/linuxenv.py:527-597 | the live root is untouched, has lost files while not installed, or is the complete new one; untouched whenever the archive is not verified and extractable; success means complete and no leftovers; when no step fails, it succeeds iff what is announced and downloaded is within the limit, verified and extractable |
| RootfsInstall.Rootfs.Download | app/zmux/linuxenv.py:545-578 | what is verified is what was written, piece by piece and within the limit |
| RootfsInstall.Rootfs.SafeExtract | app/zmux/linuxenv.py:605-632 | nothing is written unless the whole list is acceptable |
| RootfsInstall.Rootfs.CheckEntries | app/zmux/linuxenv.py:608-617 | accepts iff no name escapes and the files fit the limit |
| RootfsInstall.UnsafeMeans | app/zmux/linuxenv.py:612-613 | refused are exactly names that begin at the root or have a part `..` |
| RootfsInstall.ExtractMeans | app/zmux/linuxenv.py:627-632 | the paths extracted are those of files, each with the content of its last entry |
| RootfsInstall.SizesAddUp | app/zmux/linuxenv.py:614-617 | sizes add up over the files |
| RootfsInstall.Rootfs.ExtractAll | app/zmux/linuxenv.py:627-632 | all entries, or some in staging only |
| RootfsInstall.Rootfs.Bootstrap | app/zmux/linuxenv.py:635-659 | the staged tree gets its first-run files |
| RootfsInstall.Rootfs.Stage | app/zmux/linuxenv.py:586-592 | the swap is made only with a complete staged tree and an empty target |
| RootfsInstall.Rootfs.RemoveTree | app/zmux/linuxenv.py:583-595 | a removal that ignores errors leaves some of the files, unchanged, and none when no step fails |
| Pipelines.ParsesExactlyRenderings | app/zmux/python_shell.py:986-1013 | the parser accepts exactly the renderings of pipelines with redirections at their edges, anywhere in their stage and as often as one likes, and gives what they mean; all else is an error |
| Pipelines.RenderThenParse | app/zmux/python_shell.py:986-1013 | rendering and parsing gives back stages, targets and the append flag |
| Pipelines.ParseThenRender | app/zmux/python_shell.py:986-1013 | what parses is the rendering of a proper pipeline |
| Pipelines.SplitJoin | app/zmux/python_shell.py:986-990 | splitting at bars undoes joining |
| Pipelines.JoinSplit | app/zmux/python_shell.py:986-990 | and joining undoes splitting |
| Pipelines.ParsePipeline | app/zmux/python_shell.py:986-1013 | the two loops compute the parse, every error included |
| Pipelines.ParseStage | app/zmux/python_shell.py:999-1012 | the loop over one stage |
| Pipelines.StageErrors | app/zmux/python_shell.py:1001-1012 | after any arguments and redirections: an operator at the end misses its target, one away from its edge is refused, and a stage without arguments is invalid |
| Pipelines.EmptyStages | app/zmux/python_shell.py:986-991 | a pipeline is invalid iff one of its stages is empty |
| Pipelines.CatAndGrep | app/zmux/python_shell.py:992-1013 | two stages with an input and an output redirection, as in the parser's own comment, and what they are parsed to |
| Listing.WalkDirectory | app/zmux/python_shell.py:410-417 | the explicit stack terminates on every finite tree and yields exactly the recursive depth-first preorder |
| Listing.LsRecursive | app/zmux/python_shell.py:405-417 | every target in turn; a file or a link gives its name only |
| Listing.TargetsInTurn | app/zmux/python_shell.py:405-417 | the sections of some targets and more are those of the first, then those of the others |
| Listing.DirectoryFirst | app/zmux/python_shell.py:411-414 | a directory comes first, with its entries |
| Listing.EntriesInTurn | app/zmux/python_shell.py:415-417 | then the directories below it, in the order of the entries |
| Listing.PreorderReaches | app/zmux/python_shell.py:411-417 | a section is listed iff it is that of a directory reached through visible real directories, links not entered |
| Listing.OneSectionEach | app/zmux/python_shell.py:411-417 | one section per visible real directory |
| Listing.PopStep | app/zmux/python_shell.py:412-414 | popping lists one section and leaves the walk below it |
| Listing.PushDirs | app/zmux/python_shell.py:415-417 | pushing in reverse keeps the entry order |
| DirectoryOrder.SortedMeans | app/zmux/python_shell.py:374 | the sort is ordered, a permutation and stable, reversed or not |
| DirectoryOrder.EntriesMeans | app/zmux/python_shell.py:369-375 | a directory lists exactly its visible children, in order |
| DirectoryOrder.EntriesInOrder | app/zmux/python_shell.py:365-375 | by name or newest first, `-r` the other way |
| DirectoryOrder.AtMostMeans | app/zmux/python_shell.py:365-374 | names compare by their first characters that differ; a beginning comes first |
| DirectoryOrder.VisibleMeans | app/zmux/python_shell.py:370 | a name with a dot in front is listed iff all are |

## Left out

- Transitive requirements: only direct ones are satisfied on success, because the snapshot is never refreshed (app/zmux/zpip.py:659); requirements of the package's own name, and all but the last for one name, are not claimed either.
- Failures inside a rollback or an uninstall, and of writing the database half-way: a save happens or it does not. A fault while a file is backed up counts as one before it is in place.
- Canonical names, version specifiers, the resolver, PyPI and the smoke import: arbitrary answers, download and smoke import being one fetch; a name nothing canonical can be made of, the one failure not reported as rolled back, is not an input; a record keeps version, files and the explicit flag.
- Path aliasing, directories, permissions: normalised paths in a flat file map, for packages and for the root file system, whose links are left out too.
- ELF names are byte strings, not decoded; the file is one byte string.
- Execution of lines by the worker: only its steps on the session's own state. Echo, prompts and banners are not modelled.
- A console started again after a stop, which would have two workers: a run of the console has one start.
- Finer interleavings: a test and the clearing after it, an emit between reset and replay, and an exception delivered inside `_finish_command` or between `_busy.set()` and the `try`.
- Liveness of the current PTY, and the kernel's delivery of signals: a kill is taken to kill.
- Sessions.SessionManager.Create: holds its sessions as values in a map, so aliasing of session objects is not captured; the same holds of the PTYs in PtyOwnership. Whether a session is busy is input to the PTY model; the console model sets it.
- Shutting all sessions down, the storage worker thread and the requests dropped while one is pending, tab snapshots, the legacy rc file.
- Handshake, ping, close and text decoding of the WebSocket server; sending is one step.
- Download progress, time limits, directories of the cache, and roots changed by anything but installation and removal.
- Listing.LsRecursive: rendering of sections to text and the long format, and a tree that changes during the walk.
- Lexing of command lines before the pipeline parser, resolving of redirection targets against the working directory, and running the stages.
