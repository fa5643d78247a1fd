# Verified model of pod_installer

pod_installer installs Podman Quadlets for a user: it checks a Quadlet against a policy, writes it by
temporary file and rename under a per-unit lock, asks the user's systemd to reload and restart, and puts the
old file back when that fails. This project models those parts in Dafny and proves what callers rely on.

`dafny verify dfyconfig.toml` checks everything.

## The deployment transaction

`Disk` is a file system in two layers: what is visible now (names to inodes, inodes to bytes) and what a power
cut may leave (older directory entries until the directory is fsynced, arbitrary bytes in inodes that were not
fsynced). `Machine` is a step relation over any number of deployments, each a program counter in
`DeploymentOrchestrator::deploy`, with lock files, flock ownership, one single-threaded manager per user whose
daemon-reload takes time (it reads files one by one, then swaps them in and replies), process crashes at any
point and system crashes at any point. `Safety` proves the invariant of that relation, `Serial` that every
path holds what running the deployments one at a time in lock order leaves, and `Guarantees` what follows for
callers: mutual exclusion, the exact contents of the path for each way of returning, what the manager has
loaded from a reload until the path changes, and that only policy-approved contents ever appear. `Durability`
states exactly which texts a crash may bring back, when a deployment is atomic under crashes, and what is never
lost; `Leftovers` states exactly which temporary files remain; `Story` states exactly what every call does to its
path and asks of the manager, in which order, for each way it can end. `Solo` runs one deployment alone and shows that every way to end is reached; from that `SerialRuns`
builds, for every concurrent run without a system crash, a serial run of the same machine with the same ends
and files, and `Witnesses` shows that the exceptions below are real.

The same transaction is written a second time as programs. `Environment.Host` is the operating system as one
deployment sees it: every system call may fail, be interrupted or transfer less than asked, and before each
one any number of steps of other deployments and managers may happen; each is proved to be a run of the
machine. `Installer` and `Deployment` are the loops and branches of `atomic_write_file`, `write_all`, the
snapshot and restore calls, `lock_deployment`, `rollback_error` and `deploy` over those calls;
`Deployment.Deploy` states the exact outcome for each result, what the call has done by then, and that every
failure has a cause: the host counts the calls that failed, the temporary names found taken and the units that
did not come up, but neither signals nor short transfers. Loops that retry on EINTR end because each object
carries the number of signals still to come.

Three places where a hopeful statement would be false are stated exactly. A directory fsync that fails after
the installing rename returns an error with the new Quadlet in place and no rollback (`InstallUnsynced`), and a
crash may then still bring the old file back. A restore may likewise report failure after its rename took
effect (`RestoreFailed(false)`), or before it (`RestoreFailed(true)`). Runs to each of these ends from every
initial state are in `Witnesses`, with the exact condition under which an error leaves the path alone.

Crash atomicity, too, fails in one case: when an earlier deployment of the unit crashed or returned with its
directory fsync failed, a crash during the next one may bring back a text older than both
(`Witnesses.SomeCrashIsNotAtomic`). `Durability.AtomicExactly` gives the condition as an equivalence on the
history of the path, and `Durability.CrashAtomic` in terms of how the earlier deployments ended.
Durability is relative to a user directory whose own entry is already durable.

## The Quadlet language, the policy and the codecs

`Quadlet` and `QuadletLaws` are the line parser and its laws, and `Lines` says line by line, without the parser,
which texts are refused, where and why, and what the others say; `PodmanArgs` is the shell-like tokenizer;
`Policy` and `PolicyLaws` the policy decision, `Denials` the denied options, written out, and `Acceptance` the
decision said of the lines of a text. Each imperative routine is a method proved against a specification
function, and the laws (composition, round trips, exact image, monotonicity, order independence) are lemmas
about those functions. `Percent`, `Query`, `ContainerSpec`, `SpecLaws` and `Filters` are the encoders and
decoders; JSON correctness is stated against `Json`, an independent reader of the grammar in sections 2 to 7
of RFC 8259 taken bytewise. `StagedPath`, `Transfer` and `JobWait` are the two staged-path normalisers, the
archive upload callback and the wait for a systemd job.

One property that one would expect is false: `filters_query` escapes only quotation marks and backslashes, so
its parameter is JSON exactly when no filter contains a control character (`Filters.FilterJsonIsExact`; a
concrete filter is in `Filters.LineFeedBreaksTheFilter`).

Strings are sequences of characters that stand for bytes; only percent coding needs them to be below 256.
`std::map` arguments appear in their iteration order, as strictly sorted sequences. A `std::filesystem::path`
is its root directory, file names and trailing separator.

## Model

| member | source | states |
|---|---|---|
| `Serial.Serialisable` | src/deployment.cpp:348-413 | in every reachable state, crashes included, each Quadlet path holds what running the deployments since the last reboot one at a time in lock order leaves, each counting as a whole or not at all |
| `Serial.FoundInOrder` | src/deployment.cpp:348-374 | every deployment that got a lock, returned since or not, found exactly what those before it in lock order leave |
| `SerialRuns.SerialRunExists` | src/deployment.cpp:348-413 | for every run without a system crash after which nobody holds a lock there is a run of the same machine, from the same start, with the deployments strictly one after the other in lock order: each ends the same way having found the same file, and every Quadlet path holds the same |
| `Serial.CleanRunsAreSerial` | src/deployment.cpp:348-413 | when all calls have returned without crashes, directory-fsync failures or failed restores, only the successful ones count: every failed deployment was a no-op, whatever the interleaving |
| `Safety.StepKeepsInv` | src/deployment.cpp:348-413 | every system call of every deployment, every step of a manager, every process crash and every system crash keeps the invariant on locks, temporary files, windows, durability and loaded units |
| `Safety.RunKeepsInv` | src/deployment.cpp:348-413 | hence the invariant holds after every run of any number of deployments |
| `Safety.WindowStep` | src/deployment.cpp:372-413 | each step keeps the window: the path shows the entry or the bundle as the program point says, and a crash can bring back only what could survive at lock time or the complete bundle |
| `Safety.TempsApart` | src/quadlet.cpp:338-352 | the temporary file a deployment is writing is known under its temporary name alone, and no other lock holder works on that name or that file |
| `Safety.CreatedIsPrivate` | src/quadlet.cpp:338-343 | a file created under a name that did not exist, as O_EXCL ensures, is empty and nobody else's |
| `Guarantees.OneDeploymentPerUnit` | src/deployment.cpp:194-246 | at most one deployment is between lock and return per user and unit |
| `Guarantees.LockInodeStays` | src/deployment.cpp:226-246 | a lock name, once created, names the same inode until the system goes down |
| `Guarantees.WindowHolds` | src/deployment.cpp:372-404 | from lock to return the path holds what was found there or the bundle, and the snapshot is what was found |
| `Guarantees.OutcomeIsExact` | src/deployment.cpp:254-274 | for each way of returning, exactly which contents the path has: bundle on success, the entry after a completed rollback or an early error, the bundle after a failed install fsync, either after a failed restore, told apart |
| `Story.EveryCallsTale` | src/deployment.cpp:254-274 | over every run, a call that has returned has done to its path and asked of the manager exactly what its outcome says: among others, a rollback begun after a failed restart, with a file to restore and its reload answered, restarts the unit exactly once more, and no other rollback does |
| `Guarantees.OwnReloadLoadsTheFile` | src/deployment.cpp:384-388 | when the manager answers a deployment's own daemon-reload, it has loaded the file at the path, and no reload in progress disagrees |
| `Guarantees.LoadedUntilOwnChange` | src/deployment.cpp:254-274 | from that answer until the deployment's own next rename or unlink at its path, or its return, the manager has loaded what is at the path, over every run of everybody else |
| `Guarantees.LoadedUntilChanged` | src/deployment.cpp:384-413 | and beyond the return, for as long as no deployment changes the path |
| `Guarantees.RestartRunsTheDisk` | src/deployment.cpp:389-403 | every restart, forward or in a rollback, runs exactly the file on disk: the bundle or the snapshot |
| `Guarantees.OthersReloadsAgree` | src/deployment.cpp:384-403 | between the answer and the own change of the path, failed restarts and begun rollbacks included, no event of anybody else changes what is loaded or what is at the path |
| `Guarantees.CrashLeavesCompleteFiles` | src/quadlet.cpp:326-373 | after a crash at any instant a Quadlet path is absent or holds one complete allowed text |
| `Guarantees.CrashInWindow` | src/quadlet.cpp:326-373 | a crash while a deployment has its lock leaves the complete bundle or a complete text that could survive already at the lock, never a part |
| `Durability.CrashBringsBackExactly` | src/quadlet.cpp:318-373 | after any run a crash may leave a text at a Quadlet path if and only if the path has held that text since the last fsync of its directory or the last crash |
| `Durability.AtomicExactly` | src/quadlet.cpp:326-373 | from the lock on, every crash until the return leaves what was found or the bundle if and only if the path has held nothing else since the last fsync of its directory |
| `Durability.SettledUnlessLoose` | src/quadlet.cpp:364-372 | nothing but the visible file can be at a Quadlet path after a crash, unless some deployment of the path is between its change and its directory fsync, crashed, or ended with that fsync failed |
| `Durability.CrashAtomic` | src/quadlet.cpp:326-373 | unless another deployment of the path crashed or ended with its directory fsync failed, a crash at any step of an install or restore leaves the complete contents found at the lock or the complete bundle |
| `Witnesses.CrashBringsBackThirdText` | src/deployment.cpp:377-380 | after an install whose directory fsync failed, the next deployment of the path gets its lock, and a crash then can bring back the text from before both |
| `Witnesses.SomeCrashIsNotAtomic` | src/deployment.cpp:377-380 | one such run in full, from an empty system, with the crash that leaves neither what the second deployment found nor what it brings |
| `Guarantees.ReturnIsDurable` | src/quadlet.cpp:364-372 | at the moment of a reported success or completed rollback every crash leaves the bundle, or the old state |
| `Durability.DurableUntilChanged` | src/quadlet.cpp:364-372 | after a reported success or completed rollback the path reads the bundle, or the old state, over every run in which nobody renames to or unlinks it, through any number of system crashes |
| `Durability.NothingCommittedIsLost` | src/deployment.cpp:348-413 | after a reported success, over every run with any number of system crashes, the path reads that bundle or one of a deployment that took the lock later; nothing from before returns |
| `Leftovers.TemporaryFilesExactly` | src/quadlet.cpp:335-369 | after any run without a system crash a name that is no Quadlet name exists if and only if it did at first, a deployment is at work on it, or one left it there by a failed unlink or a process crash |
| `Solo.EveryEndHappens` | src/deployment.cpp:309-413 | from any calm state a deployment alone can reach every end: early error, success, completed rollback, failed install fsync, failed restore of both kinds, crash before and after the rename, each leaving its file and no temporary one |
| `Witnesses.StartExists` | src/deployment.cpp:309-331 | for any number of jobs with valid Quadlet names there is an initial state from which each may be installed, so what is proved of initial states is not empty |
| `Witnesses.EveryOutcomeIsReached` | src/deployment.cpp:372-413 | from every initial state with an acceptable job, a snapshot within the size limit and a free temporary name, each outcome is reached, with the path as the outcome says |
| `Witnesses.ErrorLeavesPath` | src/deployment.cpp:254-274 | an error return leaves the path as at the lock if and only if it is neither a failed install fsync nor a restore that failed before its change, unless the bundle was there already |
| `Witnesses.UnsyncedInstallMayBeLost` | src/quadlet.cpp:364-372 | there is a run to the failed install fsync with the bundle visible, and a crash after it that brings the old state back |
| `Guarantees.OnlyAllowedFiles` | src/deployment.cpp:372-380 | every Quadlet path is absent, as it was at first, or holds a text the policy accepts within the size limit |
| `PolicyLaws.PolicySafety` | src/quadlet.cpp:645-735 | the same with `validate_quadlet_policy` itself as the policy, before and after a crash in every reachable state |
| `Environment.ForeignSpares` | src/deployment.cpp:348-413 | what steps of others can never change for a deployment: its own state, the file it is writing, the reload that serves it |
| `Environment.Host.Write` | src/quadlet.cpp:303-316 | one write transfers some non-empty part of the rest, is interrupted or fails; the file then holds what it held and that part |
| `Environment.Host.ManagerReplies` | src/deployment.cpp:384-388 | at the reply to the own daemon-reload the manager has loaded the file at the path, and a return then is durable |
| `Installer.WriteAll` | src/quadlet.cpp:303-316 | the file ends as a prefix of the contents, and as all of them exactly on success; it fails exactly when a write failed, never for a short write or EINTR |
| `Installer.OpenTemp` | src/quadlet.cpp:335-352 | a temporary file is created unless an open fails or a hundred names are taken |
| `Installer.AtomicWriteFile` | src/quadlet.cpp:326-373 | success exactly with text renamed in and directory fsynced; each failure leaves its own outcome and has its cause |
| `Installer.ReadWhole` | src/quadlet.cpp:375-411 | the complete contents; an error only for a failed read or a file over the size limit, never for a short read or EINTR |
| `Installer.SnapshotForUser` | src/quadlet.cpp:661-692 | the snapshot is absence or the complete contents found at the lock |
| `Installer.UnlinkQuadletFile` | src/quadlet.cpp:413-426 | restoring an absence ends durable, or in a failed restore |
| `Installer.RestoreForUser` | src/quadlet.cpp:694-709 | the snapshot, including absence, is put back durably or the restore has failed |
| `Deployment.LockDeployment` | src/deployment.cpp:194-246 | returns with the lock held, or with the path untouched after a call that failed, over any number of EINTRs |
| `Deployment.RollbackError` | src/deployment.cpp:254-274 | the message says rolled back exactly when the old state is back, rollback failed exactly when the restore failed; it has put the old state back, synced, reloaded as reported, and restarted the unit once, with the reported result, exactly when the reload was answered after a failed restart and there is a file to run |
| `Deployment.Prepare` | src/deployment.cpp:309-345 | the checks before the lock blame the first fault there is, change nothing else, and pass only when all is there |
| `Deployment.Transact` | src/deployment.cpp:372-413 | from snapshot to return: success exactly when the bundle is committed, else an error that explains what became of the path and has its cause |
| `Deployment.LoadImage` | src/deployment.cpp:353-371 | passes exactly when no archive is wanted or the socket is trusted and the image loads; else the path is untouched |
| `Deployment.UnderLock` | src/deployment.cpp:353-413 | from the lock on, every error message is true of the path, and success means committed |
| `Deployment.Deploy` | src/deployment.cpp:309-413 | success: everything asked for beforehand was there, bundle in place for good and a restarted unit loaded and active; error reporting a rollback: the path is as at the lock, for good; any other error: unchanged, save for the two named fsync cases; what was done and asked is what the result reports, and every failure under the lock has its cause; the stage an error names is at fault and nothing checked before it |
| `Names.LockNamesAgree` | src/deployment.cpp:230 | two deployments have one lock name if and only if they have one Quadlet path |
| `Names.TempNameInjective` | src/quadlet.cpp:338 | temporary names are injective in final name, process id and attempt |
| `Names.TempNameIsHidden` | src/quadlet.cpp:477-493 | no temporary name is a valid Quadlet name |
| `Names.DerivedUnitIsSafe` | src/systemd.cpp:29-39 | every unit name derived from a valid Quadlet name passes `validate_systemd_unit_name` |
| `Names.UnitDeterminesFile` | src/quadlet.cpp:495-502 | the derived unit name determines the Quadlet name |
| `Names.FileNamesExactly` | src/quadlet.cpp:477-493 | the valid Quadlet names, letter by letter |
| `Names.UnitOfContainer` | src/quadlet.cpp:495-502 | the unit of `X.container` is `X.service` |
| `Names.DemoIsValid` | src/quadlet.cpp:477-502 | `demo.container` is valid and its unit is `demo.service` |
| `Names.UnitNamesExactly` | src/systemd.cpp:29-39 | the unit names the systemd layer accepts, letter by letter |
| `Quadlet.ParseQuadlet` | src/quadlet.cpp:504-549 | the line loop over mutable sections yields the multimap of `Parse`, or its error with the same line |
| `Lines.ReadExactly` | src/quadlet.cpp:504-549 | a text is read if and only if every line, trimmed, is blank, a comment, a header with a name, or an assignment to a key below some header; what is read is what the assignments say, in order; else the error has the number and the fault of the first other line |
| `Quadlet.ParsedQuadlet.Insert` | src/quadlet.cpp:473-475 | a value goes to the end of its key's list; nothing else changes; the section exists from its first key on |
| `QuadletLaws.Composition` | src/quadlet.cpp:504-549 | reading a text, a newline and another text is reading the first and then the second from the line and section where the first ended |
| `QuadletLaws.ParseComposes` | src/quadlet.cpp:504-549 | the same for the resulting multimaps, with errors of the first text first |
| `QuadletLaws.CommentInFront` | src/quadlet.cpp:513-516 | a blank line or comment before a text changes nothing but the line of an error, by exactly one |
| `QuadletLaws.Congruence` | src/quadlet.cpp:504-549 | texts that read alike up to the line of an error may replace each other after any text, so comments may be inserted anywhere; errors of the text before are not affected |
| `QuadletLaws.CommentAtEnd` | src/quadlet.cpp:513-516 | a blank line or comment after a text changes nothing at all |
| `QuadletLaws.NumberingIsIrrelevant` | src/quadlet.cpp:504-549 | the line number a reading starts from shows in errors only: the same error, shifted by exactly the difference |
| `QuadletLaws.CrlfIsIgnored` | src/quadlet.cpp:50-58 | turning every LF into CRLF changes neither the result nor an error's line |
| `QuadletLaws.PrintThenParse` | src/quadlet.cpp:504-549 | parsing the canonical text of any well-formed entries gives exactly their multimap |
| `QuadletLaws.ScanIsWellFormed` | src/quadlet.cpp:504-549 | every entry of every successful reading is trimmed, without newline, its key without `=`, no comment and no header |
| `QuadletLaws.ScanPrintScan` | src/quadlet.cpp:504-549 | reading, printing and reading again gives the same entries and multimap |
| `QuadletLaws.ExactImage` | src/quadlet.cpp:456-475 | a multimap is the result of some text if and only if it has no empty section, no key without a value and well-formed parts only |
| `Text.TrimUnique` | src/quadlet.cpp:50-58 | a trimmed text between any two runs of white space is what `trim` returns |
| `PodmanArgs.SplitPodmanArgs` | src/quadlet.cpp:86-127 | the quote and escape loop computes the tokens the lexer specifies |
| `PodmanArgs.TokensReadBack` | src/quadlet.cpp:86-127 | every list of non-empty tokens comes back, however each character is written: raw, behind a backslash, in single or double quotes, with any gaps |
| `PodmanArgs.RenderingIsIrrelevant` | src/quadlet.cpp:86-127 | two renderings of one token list are split alike |
| `PodmanArgs.TokensAreBounded` | src/quadlet.cpp:86-127 | no token is empty and together they are no longer than the value |
| `PodmanArgs.UnfinishedEnds` | src/quadlet.cpp:86-127 | a backslash at the very end, or all that follows an open quote, belongs to the last token |
| `Policy.DeniedPodmanArg` | src/quadlet.cpp:144-179 | true exactly if some token, read with its successor, asks for something the policy withholds |
| `Denials.DeniedExactly` | src/quadlet.cpp:129-179 | a token list is denied if and only if it contains a withheld option or gives a withheld one the value `host`, options and spellings written out |
| `Denials.CaseOfOptions` | src/quadlet.cpp:136-142 | `--network host`, `--Network HOST` and `--network=Host` are denied alike |
| `Denials.CaseBeforeEquals` | src/quadlet.cpp:129-142 | the one place where case matters: `--NETWORK=host` passes |
| `PolicyLaws.OneVerdictPerTokens` | src/quadlet.cpp:144-179 | the verdict on a `PodmanArgs` value depends on its tokens only, never on quoting or spacing |
| `Policy.IsHostMount` | src/quadlet.cpp:192-213 | the field loop answers true exactly if some comma-separated field asks for a bind or names a host path |
| `Policy.AnyHostFieldMeans` | src/quadlet.cpp:192-213 | that answer does not depend on the order of the fields |
| `Acceptance.HostFieldExactly` | src/quadlet.cpp:192-213 | the fields of a mount that name the host, keys and paths written out |
| `Acceptance.VolumeSourceExactly` | src/quadlet.cpp:181-190 | the source of a volume is what stands before its first colon |
| `Acceptance.KeyAndValueExactly` | src/quadlet.cpp:428-447 | the key and the value of a field or label stand before and after its first equals sign, trimmed |
| `Policy.ValidateManagedLabel` | src/quadlet.cpp:428-447 | passes exactly if one label and no other has the managed key, and it has the managed value |
| `Policy.ValidateAllowedKeys` | src/quadlet.cpp:222-254 | passes exactly if every section is known, every key allowed in it, and no dangerous service key is present |
| `Acceptance.ListedIsHarmless` | src/quadlet.cpp:215-254 | no dangerous service key is on the list of allowed keys, so the list alone decides |
| `Policy.ValidateQuadletPolicy` | src/quadlet.cpp:551-636 | accepts exactly the files the declarative predicate admits, and tells unreadable from forbidden |
| `Acceptance.LinesDecide` | src/quadlet.cpp:551-636 | a Quadlet is accepted if and only if its name is valid, its text is readable, non-empty and free of zero bytes, every line has a listed key and asks for nothing withheld, and the required lines are there |
| `Acceptance.BadLineIsRefused` | src/quadlet.cpp:551-636 | one line with an unlisted key, or with a withheld key and value, keeps a text from being accepted |
| `Acceptance.PodmanArgsLineIsRefused` | src/quadlet.cpp:144-179 | so does a `PodmanArgs` line that asks for what is withheld, however quoted, spaced and spelled |
| `Policy.ExpectedInstall` | src/quadlet.cpp:645-659 | accepts exactly the admissible files within the size limit, and names the target path and a unit systemd accepts |
| `PolicyLaws.AcceptanceIsMonotone` | src/quadlet.cpp:551-636 | raising allow flags or lowering require flags never turns an acceptance into a refusal |
| `PolicyLaws.PermissionIsUnordered` | src/quadlet.cpp:551-636 | permuting the values within the keys of a multimap never changes what is permitted, the exactly-one label rule included |
| `PolicyLaws.DecisionIsUnordered` | src/quadlet.cpp:551-636 | readable files of one name whose multimaps agree up to the order of values get the same decision |
| `PolicyLaws.LabelByMultiset` | src/quadlet.cpp:428-447 | the exactly-one label rule is a statement about the multiset of labels alone |
| `Percent.UrlEncodeComponent` | src/http.cpp:44-56 | the byte loop produces the specified encoding |
| `Percent.UrlDecodeComponent` | src/http.cpp:58-89 | the index loop produces the specified decoding or its error |
| `Percent.DecodeEncode` | src/http.cpp:44-89 | decoding inverts encoding on all byte strings, under both plus modes |
| `Percent.DecodesExactly` | src/http.cpp:58-89 | a text can be decoded if and only if every percent sign is followed by two hex digits |
| `Percent.PlusIsSpace` | src/http.cpp:58-89 | decoding with plus as space is decoding the text with spaces for its plus signs |
| `Percent.EncodedAlphabet` | src/http.cpp:44-56 | encodings consist of percent signs, and the unreserved characters of section 2.3 of RFC 3986 |
| `Percent.EncodeInjective` | src/http.cpp:44-56 | different byte strings have different encodings |
| `Percent.UnreservedExactly` | src/http.cpp:44-56 | the characters that stay as they are, those of section 2.3 of RFC 3986 |
| `Percent.EscapesAreUpperCase` | src/http.cpp:44-56 | any other byte becomes a percent sign and two upper-case hex digits |
| `Query.ParseQuery` | examples/orchestrator_service.cpp:137-169 | the loop over the remaining text builds the specified path and parameter lists or reports the first bad part |
| `Query.PairsRead` | examples/orchestrator_service.cpp:137-169 | encoded pairs joined by `=` and `&` are read back one by one, empty ones included |
| `Query.KeyAlone` | examples/orchestrator_service.cpp:137-169 | a part without an equals sign is a key with an empty value |
| `Query.EmptyPart` | examples/orchestrator_service.cpp:137-169 | an empty part counts as the empty key with an empty value |
| `Query.QueryReadsBack` | examples/orchestrator_service.cpp:137-169 | the path and, per key, the list of values in order come back from the encoded target |
| `ContainerSpec.AppendJsonString` | src/container_spec.cpp:42-64 | appends the quoted text and nothing else |
| `ContainerSpec.AppendField` | src/container_spec.cpp:67-75 | one more member, with a comma exactly when it is not the first |
| `ContainerSpec.JsonStringArray` | src/container_spec.cpp:83-95 | prints the array of the strings |
| `ContainerSpec.JsonStringMap` | src/container_spec.cpp:97-111 | prints the object of the bindings |
| `ContainerSpec.ResourceLimitsJson` | src/container_spec.cpp:113-161 | prints the object of exactly the limits that are set |
| `ContainerSpec.ToPodmanCreateJson` | src/container_spec.cpp:222-257 | refuses what validation refuses, and else prints the tree the specification means |
| `JsonText.PrintReadsBack` | src/container_spec.cpp:42-161 | every printable tree is read back from its text by the RFC 8259 reader |
| `SpecLaws.SpecReadsBack` | src/container_spec.cpp:164-257 | for every accepted specification the text is JSON, denotes exactly the intended tree and has no duplicate name |
| `SpecLaws.FieldsAreExact` | src/container_spec.cpp:222-257 | required fields have the values of the specification; optional ones are present exactly when set |
| `SpecLaws.LimitsAreExact` | src/container_spec.cpp:113-161 | each limit is in its group exactly when set, each group exactly when set, with its value |
| `SpecLaws.IntegersReadBack` | src/container_spec.cpp:113-161 | integers are read back from their digits |
| `SpecLaws.TextDeterminesSpec` | src/container_spec.cpp:222-257 | two accepted specifications with the same text are equal: the printer loses and confuses nothing |
| `SpecLaws.ContainerNamesExactly` | src/container_spec.cpp:10-40 | the valid container names, letter by letter |
| `SpecLaws.CpusetsExactly` | src/container_spec.cpp:10-40 | the valid processor lists, letter by letter |
| `SpecLaws.AcceptedExactly` | src/container_spec.cpp:164-220 | which specifications are accepted, and which kind of error the others get |
| `Filters.FiltersQuery` | src/podman_client.cpp:159-183 | no filters give no parameter, else the percent-encoded filter text |
| `Filters.FilterJsonIsExact` | src/podman_client.cpp:159-183 | the filter text means the filters if no filter has a control character, and is no JSON at all otherwise |
| `Filters.LineFeedBreaksTheFilter` | src/podman_client.cpp:159-183 | a filter with a line feed yields a parameter that is not JSON |
| `StagedPath.StagedRelativePath` | examples/orchestrator_service.cpp:252-280 | the iterator loops compute the specified result or refusal |
| `StagedPath.RelativeStagedPath` | src/deployment.cpp:52-87 | likewise for the deployment library |
| `StagedPath.DotsCancel` | examples/orchestrator_service.cpp:252-253 | in a normal form a name followed by `..` cancels out, and `.` does too |
| `StagedPath.NormalHasNoDots` | examples/orchestrator_service.cpp:252-253 | the normal form of an absolute path is absolute and has no dots left |
| `StagedPath.FixedPoint` | src/deployment.cpp:52-87 | whatever the service accepts, the library accepts and leaves as it is, for every root |
| `StagedPath.AcceptedShape` | examples/orchestrator_service.cpp:252-280 | accepted results have only safe components, and the normalised root followed by the result is the normalised path |
| `StagedPath.AbsoluteAccepted` | examples/orchestrator_service.cpp:252-280 | an absolute path is accepted if and only if it lies properly below the root through safe names |
| `StagedPath.RelativeAccepted` | examples/orchestrator_service.cpp:252-280 | a path that is relative once normalised is accepted if and only if names are left, all of them safe |
| `StagedPath.AcceptedIsRelative` | examples/orchestrator_service.cpp:252-280 | accepted results are relative for every root but the empty one |
| `StagedPath.LibraryAccepts` | src/deployment.cpp:52-87 | the library accepts a path if and only if all its components are safe and, when absolute, it extends the normalised root |
| `StagedPath.TrailingRootAcceptsNothing` | examples/orchestrator_service.cpp:252-280 | a root written with a trailing separator refuses every absolute path |
| `Transfer.FdUpload.ReadFdUpload` | src/podman_client.cpp:106-127 | each call hands out the next bytes of the file, no more than asked for; none exactly at the end or when nothing is asked for in the arithmetic of size_t; an abort changes nothing and comes only from a failed read, never from EINTR |
| `Transfer.FdUpload.Send` | src/podman_client.cpp:106-127 | over any sequence of call sizes, short reads and EINTRs the chunks are the file in order up to the offset, and all of it after enough calls |
| `Transfer.LoadImageArchiveFd` | src/podman_client.cpp:338-386 | an upload starts exactly for an open regular file at least as long as the size, within the signed range |
| `JobWait.Wait.OnJobRemoved` | src/systemd_sdbus.cpp:57-68 | the promise is set only once, and only by a signal of the expected job |
| `JobWait.Wait.Dispatch` | src/systemd_sdbus.cpp:57-80 | after each signal the promise holds the first result of the own job among the signals handled |
| `JobWait.Wait.Drain` | src/systemd_sdbus.cpp:73-80 | once the queue is empty no signal is lost, those from before the reply included |
| `JobWait.UnitJobAndWait` | src/systemd_sdbus.cpp:43-85 | the unit has finished only if the first result of the own job is `done`, and any other result is reported; it times out only if no signal of the own job came in time, and with as many turns as signals before the reply, one of those always decides |
| `JobWait.Wait.Await` | src/systemd_sdbus.cpp:74-80 | every signal that has come by some turn is handled after as many turns as signals came before it |
| `JobWait.OthersDoNotMatter` | src/systemd_sdbus.cpp:57-68 | signals of other jobs, wherever they come, do not change the result |
| `JobWait.FirstResultKeeps` | src/systemd_sdbus.cpp:57-68 | a result once reported is not changed by later signals |
| `JobWait.QueueingMatters` | src/systemd_sdbus.cpp:70-75 | handling signals before the reply would give the same result if and only if none of them is the own job's or a later one repeats it |

## Left out

- Two installers with different policies or directories, and the public installer calls made outside `deploy`: all deployments share one layout and all changes go through `deploy`.
- Deployment.Deploy: the state after return is that of the last step, before the status query that follows a reload when no restart is wanted; the lock is modelled as released one query early, which only allows more interleavings.
- Deployment.Deploy: `ensure_admin_tree`, ownership, modes and umask are one step that may fail and changes no Quadlet; the user directory's own entry is taken as durable, because it is created without an fsync of its parent.
- SerialRuns.SerialRunExists: compares files, outcomes and what each deployment found; what the managers have loaded after the two runs may differ, and a deployment that never got a lock has no block in the serial run.
- Deployment.RollbackError: of the error message only the stage and whether it reports a rollback or a failed rollback are kept.
- Disk.SyncDirectory: one fsync covers one user's directory as a whole; torn directory blocks are not modelled.
- Installer.ReadWhole: Quadlet paths are regular files; the symbolic link and file type checks are not part of the model.
- Environment.Host.Write: a write never transfers zero bytes, as for regular files.
- Transfer.FdUpload.ReadFdUpload: the archive does not change while it is read.
- JobWait.UnitJobAndWait: the connection queues signals until the event loop starts, and the thread of the loop is interleaved with the caller step by step.
- StagedPath.RelativeStagedPath: how `std::filesystem::path` splits a text into components is not modelled; `lexically_normal` follows its definition in the C++ standard.
- The descent to a staged archive or file by `openat` with O_NOFOLLOW, and the example service's socket, argument and response code.
- curl, HTTP transport and Podman itself; an image load is one step before the snapshot that may fail and is never undone.
- Starting `systemctl`, its argument vectors and the parsing of its output: a manager is reload, restart and status with arbitrary outcomes.
- User lookup, socket checks, bundle verification (a stub that always succeeds), slice policy, `versioned_path` and response headers.
- What systemd or Podman would read from a Quadlet: only this program's parser and policy.
