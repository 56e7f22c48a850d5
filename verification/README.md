# Yntra Vault: verified models

This project models the parts of Yntra Vault that are easiest to get wrong by reading them, and proves what
they are for. Each module stands beside one source file; `Bits`, `Text`, `Unicode` and `Results` hold what
they share.

| module | subject |
|---|---|
| `Gf256`, `Sharing` | 2-of-3 recovery shares: the field of 256 elements, splitting, interpolation, and the printed form of a share |
| `YubiKeyCrc`, `YubiKeyTwoBits` | the checksum of YubiKey responses and what it detects |
| `Unicode`, `Clipboard` | the hash that decides clipboard ownership, and ownership over every run of copies, timers, clears and writes by others |
| `MetadataStore`, `JsonCodec`, `AppMetadata` | the file of application settings, a witness that what it assumes of JSON can be met, and the write-behind cache over it with its queue, sticky failure and flush |
| `SshWire`, `SshKeyParser`, `SshAgent`, `SshIdentities` | the SSH wire format, the `openssh-key-v1` reader, agent packets, and the two key searches of the session |
| `VaultSession` | the vault manager as a session: changes that save themselves or are taken back, and saves that may only replace the revision they know |
| `VaultTrash` | live and deleted entries over every run of adding, deleting, restoring and deleting permanently |
| `IpcMutation`, `IpcRuns` | adding, editing and deleting through the session daemon or straight on the file, with lost, late and wrong replies; and runs of many commands and daemons over the files they share |
| `GitCredential` | the git credential helper: bounded reading, choice of an entry, reply |
| `ReviewedSync` | the dialogue that reviews synchronization changes, over every script of answers |

Loops and objects of the source are methods and classes here, proved against functions; the theorems are about
those functions, over every input or every reachable state. What the outside world does (random bytes, the
operating system, the network, the URL parser, base64 and JSON text) comes in as parameters.

## What the proofs found

- A YubiKey answers in reports of seven bytes. Three reports make 21 bytes, which the response check accepts
  without looking at a checksum; the checksum guards acceptance exactly from four reports on
  (`YubiKeyCrc.GuardedIffFourReports`).
- Two wrong bits in a message go unseen exactly when their distance is a multiple of 32767; up to 4095 bytes, so
  in every response, no error of one to three bits does (`YubiKeyTwoBits.TwoBitsUnseenIff`,
  `YubiKeyTwoBits.FewErrorsChangeCrc`).
- The clipboard hash of a copy and the hash recomputed from the Windows clipboard agree for every text without
  U+0000, and can differ for a text with it: such a copy is then not found again by its own timer
  (`Clipboard.BlockHashOfText`, `Clipboard.NulBreaksAgreement`, `Clipboard.HeldTextIsClearedIff`).
- `flush` takes a falsy rejection for no failure and then returns normally although a write is lost
  (`AppMetadata.FalsyErrorDefeatsFlush`); its guarantee holds over every run exactly when no admitted rejection is
  falsy (`AppMetadata.FlushIsTruthfulIff`). The rejections of the Tauri commands are non-empty strings.
- A setting written while the cache starts is lost from its values unless it reaches readable browser storage
  before the first store call returns, for a key the store lacks (`AppMetadata.WriteWhileStartingMattersIff`).
- The client asks no more of a daemon's reply than its kind, and that goes wrong in two ways. A success of the
  right kind in place of the answer of a daemon that changed nothing is reported although nothing changed
  (`IpcMutation.SuccessWithoutChangeIff`, `IpcMutation.AddCanBeMisled`). An entry in place of the one the daemon
  resolved sends the edit or the deletion to another entry, and the success is genuine
  (`IpcMutation.DeleteCanBeMisdirected`). A reported success is the change asked for, made once on the resolved
  entry, if and only if neither happened, in one command (`IpcMutation.SuccessIsAsAskedIff`) and over every run
  (`IpcRuns.SuccessIsOnceIff`).
- The daemon ignores the outcome of the save behind a mutation, and nothing is lost by it: over every run a change
  that was kept stays on disk (`IpcRuns.KeptChangesStay`), and every success on a true reply or on the file is
  such a change (`IpcRuns.SuccessIsDurable`), for a mutation has saved itself before it succeeds
  (`VaultSession.KeptIffSaved`). The same second save on the direct path makes a command fail whose change is on
  disk (`IpcRuns.ErrorHidesChangeIff`), and a deletion print success as well (`IpcMutation.SaidButFailedIff`).
- Deleting an entry permanently removes it from the trash and from nowhere else, and the lookup in front of it
  finds live entries only. Through a daemon, or by title, it therefore reports success and leaves the entry where
  it is (`VaultTrash.LookedUpIsNotPurged`, `VaultTrash.PermanentDeleteMattersIff`).
- A daemon never reloads its vault. Any write to the file by another session, as the direct path makes when a
  daemon's lookup finds nothing, leaves it behind, and from then on it refuses every change of content until it
  is restarted (`IpcRuns.FallbackStrandsDaemon`, `IpcRuns.StaleDaemonRefuses`, `IpcRuns.StaleForever`).
- A listed SSH identity is refused by signing exactly when it is the public half of a passkey that has no usable
  private half and no other stored key has that blob (`SshIdentities.ListedButNotSignableIff`).
- A synchronization review can decide something else of an entry kept as both exactly when the entry has two
  password changes and the later one offers to keep both (`ReviewedSync.DecidedBesideIffTwoPasswords`).
- A P-256 scalar survives the mpint form exactly when it is not zero (`SshKeyParser.ScalarReadsBackIffNonZero`).

## Model

| member | source | states |
|---|---|---|
| `Gf256.GfMul` | crates/crypto/src/sharing.rs:17-25 | the eight masked rounds compute the field product |
| `Gf256.MulIsPolynomialProduct` | crates/crypto/src/sharing.rs:16-25 | a byte is the product exactly when it is congruent to the polynomial product modulo x^8+x^4+x^3+x+1, the multiplication of FIPS 197 section 4.2 |
| `Gf256.MulComm` | crates/crypto/src/sharing.rs:17-25 | multiplication is commutative |
| `Gf256.MulAssoc` | crates/crypto/src/sharing.rs:17-25 | multiplication is associative |
| `Gf256.Distributes` | crates/crypto/src/sharing.rs:6-25 | multiplication distributes over exclusive or |
| `Gf256.IdempotentsAreTrivial` | crates/crypto/src/sharing.rs:17-25 | only 0 and 1 are their own squares, so the ring is a field |
| `Gf256.PowerInverts` | crates/crypto/src/sharing.rs:27-32 | the 254th power of every non-zero byte is its inverse |
| `Gf256.GfDiv` | crates/crypto/src/sharing.rs:27-32 | fails exactly for divisor zero; otherwise the result times the divisor is the dividend |
| `Gf256.DivUndoesMul` | crates/crypto/src/sharing.rs:27-32 | division and multiplication by a non-zero byte undo each other |
| `Gf256.CancelFactor` | crates/crypto/src/sharing.rs:17-25 | a non-zero factor cancels: there are no zero divisors |
| `Sharing.SplitSecret` | crates/crypto/src/sharing.rs:36-70 | accepts exactly 1 to 1024 bytes and prints the three points of each byte's line |
| `Sharing.Interpolate` | crates/crypto/src/sharing.rs:129-157 | the interpolation loop with its two refusals computes the intercepts |
| `Sharing.InterceptOfLine` | crates/crypto/src/sharing.rs:144-155 | two distinct points of a line give back its value at zero |
| `Sharing.InterpolatesLines` | crates/crypto/src/sharing.rs:141-157 | two shares of a split interpolate to the secret, whatever slopes were drawn |
| `Sharing.SlopeIsUnique` | crates/crypto/src/sharing.rs:47-62 | through a share's point and a candidate secret byte goes exactly one line |
| `Sharing.OneShareFitsEverySecret` | crates/crypto/src/sharing.rs:47-62 | for every share and every candidate secret of its length, exactly one vector of slopes explains both |
| `Sharing.UnHexOfHex` | crates/crypto/src/sharing.rs:64-69 | decoding undoes lower-case hexadecimal encoding |
| `Sharing.HexOfUnHex` | crates/crypto/src/sharing.rs:107-111 | what decodes is the lower-case encoding of what it decodes to |
| `Sharing.ParseAcceptsExactlyPrints` | crates/crypto/src/sharing.rs:73-120 | a text parses to a share exactly when it shows that share in any letter case, under either prefix, between any white space, within the length limits |
| `Sharing.PrintFits` | crates/crypto/src/sharing.rs:64-74 | every printed share of at most 1024 bytes passes the 2080-byte gate |
| `Sharing.ReconstructSecret` | crates/crypto/src/sharing.rs:123-158 | parses both texts, refuses equal coordinates and unequal lengths, and interpolates |
| `Sharing.ReconstructsIff` | crates/crypto/src/sharing.rs:123-140 | two texts reconstruct something exactly when both parse to shares of different coordinates and equal lengths |
| `Sharing.TwoSharesReconstruct` | crates/crypto/src/sharing.rs:36-158 | any two distinct shares of any secret give it back, in either order and in any accepted spelling |
| `Sharing.PrintedSharesReconstruct` | crates/crypto/src/sharing.rs:36-158 | the strings printed by a split reconstruct the secret |
| `YubiKeyCrc.YubikeyCrc` | crates/crypto/src/hardware2fa.rs:604-617 | the two nested loops compute the bit-serial register of RFC 1662 appendix C.2 over the message, lowest bit first, without the final complement |
| `YubiKeyCrc.ShiftsFeed` | crates/crypto/src/hardware2fa.rs:607-614 | folding a byte in and shifting it out is feeding its bits one by one |
| `YubiKeyCrc.SameCrcIffErrorVanishes` | crates/crypto/src/hardware2fa.rs:604-617 | equal-length messages share a checksum exactly when their difference empties an empty register |
| `YubiKeyCrc.EmptiedByItself` | crates/crypto/src/hardware2fa.rs:604-617 | at most sixteen bits empty the register exactly when they spell its content |
| `YubiKeyCrc.ResidueZeroIffChecksum` | crates/crypto/src/hardware2fa.rs:765-768 | two appended bytes leave residue zero exactly when they are the checksum, low byte first |
| `YubiKeyCrc.BurstChangesCrc` | crates/crypto/src/hardware2fa.rs:604-617 | at every length, a difference within sixteen consecutive bits changes the checksum |
| `YubiKeyCrc.GeneratorGoesUnseen` | crates/crypto/src/hardware2fa.rs:604-617 | sixteen is the exact limit: a seventeen-bit error spelling the generator is never seen |
| `YubiKeyCrc.OddErrorsChangeCrc` | crates/crypto/src/hardware2fa.rs:604-617 | an odd number of wrong bits anywhere changes the checksum |
| `YubiKeyCrc.AcceptedIffResidueZero` | crates/crypto/src/hardware2fa.rs:765-778 | with 22 bytes or more a response is accepted exactly when the first 22 leave residue zero and the first 20 are not all zero |
| `YubiKeyCrc.ReturnedIff` | crates/crypto/src/hardware2fa.rs:756-778 | what is accepted and returned, for every input: the first twenty bytes, when one of them is not zero and the two behind them, if both are there, are their checksum |
| `YubiKeyCrc.DamagedResponseRefused` | crates/crypto/src/hardware2fa.rs:756-778 | a damaged copy of an accepted response of 22 bytes or more is refused for every burst of sixteen bits and every odd error in those first 22 |
| `YubiKeyCrc.GuardedIffFourReports` | crates/crypto/src/hardware2fa.rs:735-785 | acceptance implies a matching checksum exactly when at least four reports arrived |
| `YubiKeyTwoBits.BackIff` | crates/crypto/src/hardware2fa.rs:608-613 | the inner loop brings its register back to the one it started from, the polynomial one, exactly after the multiples of 32767 rounds |
| `YubiKeyTwoBits.TwoBitsUnseenIff` | crates/crypto/src/hardware2fa.rs:604-617 | at every length, two wrong bits leave the checksum as it was exactly when their distance is a multiple of 32767 |
| `YubiKeyTwoBits.FewErrorsChangeCrc` | crates/crypto/src/hardware2fa.rs:604-617 | one to three wrong bits anywhere change the checksum of a message of at most 4095 bytes |
| `YubiKeyTwoBits.FewErrorsRefused` | crates/crypto/src/hardware2fa.rs:756-778 | a copy of an accepted response with one to three wrong bits among the first 22 bytes is refused |
| `Unicode.DecodeInvertsUtf16` | crates/crypto/src/clipboard.rs:255 | decoding a text's UTF-16 units, as RFC 2781 defines them, gives the text |
| `Unicode.LoneSurrogateIsReplaced` | crates/crypto/src/clipboard.rs:348-353 | a surrogate without its partner is read as U+FFFD |
| `Unicode.Utf8ReadsBack` | crates/crypto/src/clipboard.rs:27 | a character's UTF-8 bytes are a lead and tail bytes, as few as RFC 3629 allows, and read back as the character whatever follows |
| `Clipboard.ComputeTextHash` | crates/crypto/src/clipboard.rs:25-32 | the byte loop is 64-bit FNV-1a over the UTF-8 bytes of RFC 3629; what the hash depends on is stated by the three rows below |
| `Clipboard.OneByteChangesHash` | crates/crypto/src/clipboard.rs:25-32 | from any start, two byte strings of one length that differ in one byte have different hashes |
| `Clipboard.PrimeCancels` | crates/crypto/src/clipboard.rs:29 | multiplying by the prime is injective modulo 2^64 |
| `Clipboard.HashOfLetterA` | crates/crypto/src/clipboard.rs:25-32 | the hash of the text "a" is the published one, which fixes basis and prime |
| `Clipboard.WindowsClipboardHash` | crates/crypto/src/clipboard.rs:329-360 | stops at the first zero unit inside the allocation, decodes, and hashes each character's UTF-8 bytes; no hash without a zero unit |
| `Clipboard.BlockHashOfText` | crates/crypto/src/clipboard.rs:254-360 | the block written for any text, with any trailing memory, hashes like the text up to its first U+0000 |
| `Clipboard.HashesAgree` | crates/crypto/src/clipboard.rs:25-360 | for every text without U+0000 both hashes are equal |
| `Clipboard.NulBreaksAgreement` | crates/crypto/src/clipboard.rs:343-346 | the text of one U+0000 has two different hashes |
| `Clipboard.Desktop.WriteDefended` | crates/crypto/src/clipboard.rs:203-274 | the clipboard after a defended write, step by step of failure |
| `Clipboard.Desktop.WritePlain` | crates/crypto/src/clipboard.rs:277-303 | the clipboard after a plain write, which reports success once the clipboard opens |
| `Clipboard.Desktop.Copy` | crates/crypto/src/clipboard.rs:35-74 | counter, write, tracking and timer of a copy as one new state |
| `Clipboard.Desktop.ClearIfMatching` | crates/crypto/src/clipboard.rs:306-317 | compares and clears under one lock |
| `Clipboard.Desktop.ClearOwned` | crates/crypto/src/clipboard.rs:78-96 | clears only the tracked copy asked for, and keeps tracking when clearing fails |
| `Clipboard.Desktop.Wake` | crates/crypto/src/clipboard.rs:128-134 | a timer clears with its own transaction and hash |
| `Clipboard.RunsKeepInv` | crates/crypto/src/clipboard.rs:35-134 | in every run the tracked copy is the last successful one and timers belong to copies made |
| `Clipboard.OldTimersChangeNothing` | crates/crypto/src/clipboard.rs:87-134 | in every run a timer of an older copy changes nothing |
| `Clipboard.ClearsExactlyOwnedText` | crates/crypto/src/clipboard.rs:76-96 | in every run a clear empties the clipboard exactly when it concerns the tracked copy, the content hashes like its text and the system lets it; tracking ends exactly when it concerned the copy and did not fail |
| `Clipboard.ForeignTextStays` | crates/crypto/src/clipboard.rs:76-134 | in every run a text of another program that differs from the tracked one in one byte survives every clear |
| `Clipboard.CopySucceedsIff` | crates/crypto/src/clipboard.rs:35-74 | a sensitive copy succeeds exactly when its text is stored, and then the clipboard holds it; a plain one exactly when the clipboard opens; a failed one keeps the tracked copy and starts no timer |
| `Clipboard.PlainTextStays` | crates/crypto/src/clipboard.rs:72-96 | after a plain copy no clear empties the clipboard |
| `Clipboard.CopyStartsItsTimerIff` | crates/crypto/src/clipboard.rs:65-71 | a successful sensitive copy starts a timer of its own exactly for a positive delay |
| `Clipboard.TimerSleepsUntilItWakes` | crates/crypto/src/clipboard.rs:128-134 | a sleeping timer sleeps on until it wakes |
| `Clipboard.ClearedTextIsGone` | crates/crypto/src/clipboard.rs:76-96 | after a successful clear of the tracked copy the clipboard does not hold its text |
| `Clipboard.TimerFindsItsText` | crates/crypto/src/clipboard.rs:65-70 | a timer finds and removes its own text while the clipboard holds it |
| `Clipboard.HeldTextIsClearedIff` | crates/crypto/src/clipboard.rs:76-134 | in every run a clear of the tracked text that is held and can be emptied removes it exactly when its hash is that of the part before U+0000, and leaves it otherwise |
| `Clipboard.CopyThenClear` | crates/crypto/src/clipboard.rs:35-96 | a copy cleared at once is gone exactly when its hash is that of the part before U+0000 |
| `MetadataStore.Sanitize` | src-tauri/src/commands/metadata.rs:14-57 | the loop accepts and rewrites exactly the sanitised values |
| `MetadataStore.CleanValueIsFixed` | src-tauri/src/commands/metadata.rs:18-55 | sanitising a sanitised value changes nothing |
| `MetadataStore.AcceptedIff` | src-tauri/src/commands/metadata.rs:18-54 | which pairs of key and text are accepted, for every key |
| `MetadataStore.RecentVaultsStay` | src-tauri/src/commands/metadata.rs:19-35 | every recent vault stays in its place with its identifier, name and path, and nothing else |
| `MetadataStore.AllowedSettingsStay` | src-tauri/src/commands/metadata.rs:36-50 | every allowed setting stays with its value, and no other |
| `MetadataStore.ThemeAndFlagStay` | src-tauri/src/commands/metadata.rs:51-52 | a theme and the flag stay as they are |
| `MetadataStore.SanitizedIff` | src-tauri/src/commands/metadata.rs:14-57 | values are sanitised one by one, all or none, up to 256 KiB |
| `MetadataStore.SanitizedIsFixed` | src-tauri/src/commands/metadata.rs:14-57 | all of a sanitised map's values are fixed by sanitising |
| `MetadataStore.StoredIsFixed` | src-tauri/src/commands/metadata.rs:59-71 | what a file yields is fixed by sanitising |
| `MetadataStore.StoredIff` | src-tauri/src/commands/metadata.rs:59-71 | a file yields exactly the sanitised values of a document of schema 1, written as named fields or as a pair, within 256 KiB |
| `MetadataStore.MergedIsFixed` | src-tauri/src/commands/metadata.rs:77-80 | merging keeps that, whichever side wins |
| `MetadataStore.Merge` | src-tauri/src/commands/metadata.rs:77-80 | the loop computes the merge, old values winning when initialising |
| `MetadataStore.MergedIff` | src-tauri/src/commands/metadata.rs:77-80 | each key of either side, with the new value or the stored one, the stored one first when initialising |
| `MetadataStore.ToWriteIff` | src-tauri/src/commands/metadata.rs:73-90 | what is written, and that it is refused exactly when file or values are, or the result is too large |
| `MetadataStore.Store.Read` | src-tauri/src/commands/metadata.rs:59-71 | succeeds exactly on a missing file or a readable one of schema 1 within the limit whose values sanitise |
| `MetadataStore.Store.Write` | src-tauri/src/commands/metadata.rs:73-90 | fails leaving the file as it was, or leaves a file that reads back as the old values merged with the sanitised new ones |
| `MetadataStore.WrittenReadsBack` | src-tauri/src/commands/metadata.rs:59-90 | no successful write makes the store unreadable through its size limits or its validation |
| `MetadataStore.StoreYieldsOnlyKnown` | src-tauri/src/commands/metadata.rs:14-71 | whatever a file contains, the store yields only the four keys, with allowed settings, at most ten vaults of exactly three fields, a theme or a flag |
| `JsonCodec.LawfulCodecExists` | src-tauri/src/commands/metadata.rs:14-90 | some reader and writer of JSON values meet everything the store assumes of theirs |
| `AppMetadata.Cache.constructor` | src/lib/appMetadata.ts:16-20 | a new cache is empty and not yet native |
| `AppMetadata.Cache.Initialize` | src/lib/appMetadata.ts:22-41 | when it succeeds: the store can be read, written and read back, and the migrated values are acceptable; then the cache shows the store migrated from browser storage as it stood when the first store call returned, sanitised, and browser storage mirrors it, whatever was written there meanwhile; on failure nothing is adopted |
| `AppMetadata.WriteWhileStartingMattersIff` | src/lib/appMetadata.ts:22-41 | a write made while the store is first read matters to the values exactly when storage is readable, the store lacks the key and no later write follows |
| `AppMetadata.Migrate` | src/lib/appMetadata.ts:24-30 | stored values first, browser values for the missing keys |
| `AppMetadata.Cache.GetItem` | src/lib/appMetadata.ts:43-47 | the cache answers once native, browser storage before that |
| `AppMetadata.Cache.SetItem` | src/lib/appMetadata.ts:48-54 | sets, mirrors and enqueues; before that it writes browser storage or fails |
| `AppMetadata.Cache.RemoveItem` | src/lib/appMetadata.ts:55-64 | stores the key's reset value and removes it from browser storage |
| `AppMetadata.Cache.TaskStarts` | src/lib/appMetadata.ts:70-72 | a queued task takes the pending values as its snapshot, or finishes when there are none |
| `AppMetadata.Cache.TaskSaved` | src/lib/appMetadata.ts:73-79 | a saved snapshot is durable, leaves pending what changed since, and clears the failure |
| `AppMetadata.DropSaved` | src/lib/appMetadata.ts:75-77 | drops from pending exactly the snapshot entries still unchanged |
| `AppMetadata.TasksFinish` | src/lib/appMetadata.ts:68-82 | a task with something to save awaits the store and is finished by its answer; one with nothing is finished at once |
| `AppMetadata.QueueRunsEmpty` | src/lib/appMetadata.ts:68-92 | from every reachable state the queue can run empty, even when the store refuses everything, so no flush waits for ever |
| `AppMetadata.Cache.TaskRejected` | src/lib/appMetadata.ts:80 | a rejected save may have stored any part, keeps everything pending and records the failure |
| `AppMetadata.RejectedMayStoreAnyPart` | src/lib/appMetadata.ts:73-80 | a rejected save may have stored any storable part of its snapshot, and nothing else |
| `AppMetadata.Cache.FlushResumes` | src/lib/appMetadata.ts:83-92 | after its first await a flush retries one pending key after a failure, or answers |
| `AppMetadata.FlushRetries` | src/lib/appMetadata.ts:83-89 | a waiting flush that finds a failure and something pending writes one pending key again in a new task, and waits for that task |
| `AppMetadata.FlushThrowsOnlyAfterRetry` | src/lib/appMetadata.ts:83-92 | in every run a flush returns when the last save did not fail, retries once when it did, and throws only when the save failed after its own retry |
| `AppMetadata.RetriedFlushReturns` | src/lib/appMetadata.ts:83-92 | in every run with a quiet queue, a flush whose retry the store saves returns normally, and every value is durable then |
| `AppMetadata.RunsKeepInv` | src/lib/appMetadata.ts:48-82 | the invariant of keys, writes and queue holds in every interleaving of writes, task starts, saves, rejections and flushes |
| `AppMetadata.NothingIsLost` | src/lib/appMetadata.ts:48-82 | in every run each key is durable or pending with its current value, and pending values mean a task is queued or a failure recorded |
| `AppMetadata.RunsKeepPromises` | src/lib/appMetadata.ts:68-92 | in every run with truthy rejections every flush so far is truthful |
| `AppMetadata.FlushedWritesAreDurable` | src/lib/appMetadata.ts:83-92 | once a flush has returned normally, every write made before its call is durable, or a later write to that key is |
| `AppMetadata.FalsyErrorDefeatsFlush` | src/lib/appMetadata.ts:80-91 | after a falsy rejection a flush can return normally with the write lost |
| `AppMetadata.FlushIsTruthfulIff` | src/lib/appMetadata.ts:80-92 | the guarantee of flush holds over every run with rejections of an admitted kind exactly when none of them is falsy |
| `AppMetadata.SaveIsStoreWrite` | src-tauri/src/commands/metadata.rs:73-90 | a save accepted by the store file has exactly the effect the runs give it |
| `AppMetadata.InitializeOnlyAdds` | src/lib/appMetadata.ts:22-34 | initialising keeps every stored value and adds exactly the missing keys the browser has, sanitised |
| `AppMetadata.InitializeTwice` | src/lib/appMetadata.ts:22-34 | a second initialisation changes nothing and cannot be refused |
| `AppMetadata.ResetIsClean` | src/lib/appMetadata.ts:59-60 | every reset value passes sanitising unchanged |
| `AppMetadata.RemovedStaysRemoved` | src/lib/appMetadata.ts:55-64 | once a removal is saved, every later start over any stale browser contents yields the reset value |
| `SshWire.EncodeSshString` | crates/crypto/src/ssh.rs:18-23 | a string is its length as 32 bits, big end first, and its bytes |
| `SshWire.ReadU32` | crates/crypto/src/ssh.rs:318-326 | reads a word if four bytes are left; the cursor only grows and stays inside |
| `SshWire.ReadSshString` | crates/crypto/src/ssh.rs:328-337 | reads a string if it fits; on any bytes the cursor only grows and stays inside |
| `SshWire.WordReadsBack` | crates/crypto/src/ssh.rs:20 | a written length is read back modulo 2^32 |
| `SshWire.WordIsBigEndian` | crates/crypto/src/ssh.rs:20 | below 2^32 a length's four bytes, read as a big-endian number, are the length |
| `SshWire.StringIsTaken` | crates/crypto/src/ssh.rs:18-23 | a string shorter than 4 GiB is read back and exactly it is consumed |
| `SshWire.TakenStringWasThere` | crates/crypto/src/ssh.rs:328-337 | what is read is a string that stood at the cursor |
| `SshWire.StringsDelimitThemselves` | crates/crypto/src/ssh.rs:16-23 | no buffer starts with two different strings |
| `SshWire.EncodeSshMpint` | crates/crypto/src/ssh.rs:28-56 | the loop strips leading zeros and pads a set top bit |
| `SshWire.MpintKeepsValue` | crates/crypto/src/ssh.rs:25-56 | read as two's complement or unsigned, the encoding is the unsigned value of the scalar, at any length |
| `SshWire.MpintIsShortest` | crates/crypto/src/ssh.rs:25-56 | every two's complement string of that value is longer, or the same string |
| `SshWire.MpintsEqualIffValuesEqual` | crates/crypto/src/ssh.rs:28-56 | encodings are equal exactly when the values are, at any two lengths |
| `SshWire.EncodeEd25519Pubkey` | crates/crypto/src/ssh.rs:58-65 | two strings, 51 bytes |
| `SshWire.EncodeP256Pubkey` | crates/crypto/src/ssh.rs:70-76 | three strings, 104 bytes for a 65-byte point |
| `SshWire.PointReadsBack` | crates/crypto/src/ssh.rs:70-76 | a P-256 key blob reads back as type, curve and point, with nothing left |
| `SshWire.EncodeP256Signature` | crates/crypto/src/ssh.rs:89-98 | type and a string of the two mpints |
| `SshWire.SignatureReadsBack` | crates/crypto/src/ssh.rs:87-98 | a signature blob reads back as its type and both numbers, with nothing left |
| `SshKeyParser.ParseOpensshV1Block` | crates/crypto/src/ssh.rs:241-316 | the cursor-moving parser computes the layered reading of the layout |
| `SshKeyParser.ParseFields` | crates/crypto/src/ssh.rs:277-315 | the fields of each key type, with the fall to a public key alone |
| `SshKeyParser.NormaliseScalar` | crates/crypto/src/ssh.rs:294-305 | the three accepted scalar lengths, always giving 32 bytes |
| `SshKeyParser.NormalisedKeepsValue` | crates/crypto/src/ssh.rs:294-305 | normalising keeps the number and refuses exactly the empty string and those too long |
| `SshKeyParser.ScalarReadsBackIffNonZero` | crates/crypto/src/ssh.rs:28-305 | a 32-byte scalar survives mpint and normalising exactly when it is not zero |
| `SshKeyParser.OpenedIffWritten` | crates/crypto/src/ssh.rs:244-264 | the envelope is read exactly from its written form |
| `SshKeyParser.SectionOpenedIffWritten` | crates/crypto/src/ssh.rs:268-277 | the private section is read exactly from its written form |
| `SshKeyParser.Ed25519BlockParses` | crates/crypto/src/ssh.rs:241-289 | every unencrypted single-key Ed25519 block gives its public blob and the first 32 private bytes |
| `SshKeyParser.P256BlockParses` | crates/crypto/src/ssh.rs:241-311 | every unencrypted single-key P-256 block with a non-zero scalar gives its public blob and that scalar |
| `SshKeyParser.Ed25519IffLaidOut` | crates/crypto/src/ssh.rs:241-289 | an Ed25519 key is returned exactly for the blocks laid out as one |
| `SshKeyParser.P256IffLaidOut` | crates/crypto/src/ssh.rs:241-311 | a P-256 key is returned exactly for the blocks laid out as one |
| `SshKeyParser.EncryptedBlockGivesPublicKey` | crates/crypto/src/ssh.rs:266-316 | every encrypted block of one key gives the public key alone |
| `SshKeyParser.ShortSeedGivesPublicKey` | crates/crypto/src/ssh.rs:278-289 | an Ed25519 block whose private field is shorter than 32 bytes gives the public key alone |
| `SshKeyParser.OtherSections` | crates/crypto/src/ssh.rs:272-316 | a section whose check words differ gives nothing, and one of another key type the public key alone |
| `SshKeyParser.SeveralKeysRefused` | crates/crypto/src/ssh.rs:257-261 | a block of several keys gives nothing |
| `SshAgent.HandlePacket` | crates/cli/src/ssh_agent.rs:127-182 | every packet is answered by the list, a signature or the failure message, as the session decides |
| `SshAgent.OtherPacketsFail` | crates/cli/src/ssh_agent.rs:127-182 | every packet that is neither asking for the list nor a whole request to sign is answered by the failure message |
| `SshAgent.ListPacket` | crates/cli/src/ssh_agent.rs:140-154 | the loop writes count and pairs |
| `SshAgent.SignDecodedIff` | crates/cli/src/ssh_agent.rs:156-167 | a packet asks to sign exactly when it holds key and data as strings; missing flags are zero |
| `SshAgent.SignRequestReadsBack` | crates/cli/src/ssh_agent.rs:157-167 | a request built from key, data and flags reads back as the same three |
| `SshAgent.ClientReadsIdentities` | crates/cli/src/ssh_agent.rs:134-154 | a client reads exactly the session's identities, to the last byte; none from a session that refuses |
| `SshAgent.ClientReadsSignature` | crates/cli/src/ssh_agent.rs:156-178 | a client reads exactly the session's signature for what it sent, or the failure message |
| `SshIdentities.ListIdentities` | crates/cli/src/ipc.rs:406-506 | the listing loops compute the list, with the candidate rule above 200 entries |
| `SshIdentities.ListPlaces` | crates/cli/src/ipc.rs:447-501 | a signing key in a text is listed unless its blob already is |
| `SshIdentities.Sign` | crates/cli/src/ipc.rs:507-577 | the signing loops sign with the first key found, or report it missing |
| `SshIdentities.AdvertisedIffOffered` | crates/cli/src/ipc.rs:406-506 | a blob is listed exactly when an inspected entry shows or holds it |
| `SshIdentities.ListedIffHeld` | crates/cli/src/ipc.rs:406-506 | told from the fields of the entries: a blob is listed exactly when an inspected entry has it as a passkey, or holds its private key in the password, the notes, a custom field, or a readable attachment named like a key file |
| `SshIdentities.FoundIffCanSign` | crates/cli/src/ipc.rs:507-577 | told from the fields: a key is found for signing exactly when some entry, inspected or not, holds both halves of its passkey or its private key in one of those places |
| `SshIdentities.LooksLikeKeyFileIff` | crates/cli/src/ipc.rs:485-486 | a file name is a key's exactly when, in any letter case, it contains id_ or ssh or ends in .pem or .key |
| `SshIdentities.CandidateIff` | crates/cli/src/ipc.rs:411-423 | which entries are inspected in a large vault, by kind, passkey, words of the title and words of the tags |
| `SshIdentities.ListedNamesItsEntry` | crates/cli/src/ipc.rs:432-500 | every listed identity stands beside the title and user, or the title and file name, of an inspected entry that has it |
| `SshIdentities.ListedOnce` | crates/cli/src/ipc.rs:447-501 | a blob that no entry shows as a passkey is listed at most once |
| `SshIdentities.FirstUsableSigns` | crates/cli/src/ipc.rs:513-575 | signing uses the first entry with a usable key for the blob, and finds none exactly when there is none |
| `SshIdentities.FoundKeyMatches` | crates/cli/src/ipc.rs:519-574 | the key used has exactly the blob asked for, and private material |
| `SshIdentities.ListedButNotSignableIff` | crates/cli/src/ipc.rs:406-577 | a listed blob is refused exactly when it is shown by a passkey without a usable private half and no usable key has it |
| `SshIdentities.ListedIsSignable` | crates/cli/src/ipc.rs:406-577 | where shown passkeys are whole, every listed blob is answered with the result of a matching stored key |
| `SshIdentities.SignableButNotListedIff` | crates/cli/src/ipc.rs:425-429 | a usable blob is missing from the list exactly when there are more than 200 entries and no candidate holds or shows it |
| `SshIdentities.LockedVaultIsSilent` | crates/cli/src/ipc.rs:406-511 | a locked vault lists nothing and answers signing with its message |
| `SshIdentities.RefusedSigningFails` | crates/cli/src/ssh_agent.rs:168-178 | a client whose signing is not granted, for whatever reason, reads the failure message |
| `SshIdentities.ClientCanUseEveryListedKey` | crates/cli/src/ssh_agent.rs:127-182 | through the agent's packets, every identity a client reads can be signed with |
| `VaultSession.Manager.SaveVault` | crates/core/src/vault/manager.rs:371-453 | a save replaces the file by memory, and only the revision the session knows; an error may come before or after |
| `VaultSession.Manager.Change` | crates/core/src/vault/manager.rs:83-95 | a change saves itself and is taken back from memory when that save fails |
| `VaultSession.ManageIsSound` | crates/core/src/vault/manager.rs:435-453 | a change and its saves replace the file only from a current session and only by its memory |
| `VaultSession.KeptIffSaved` | crates/core/src/vault/manager.rs:83-95 | a change that saves itself succeeds exactly when that save did, whatever the caller's save does; and then file and memory hold it |
| `VaultSession.SaveStrandsItselfIff` | crates/core/src/vault/manager.rs:435-453 | a save of a current session leaves it behind its own file exactly when the error came between replacing the file and noting the revision |
| `VaultSession.StaleSessionIsHarmless` | crates/core/src/vault/manager.rs:439-441 | a session left behind by another write changes nothing and refuses every change that saves itself |
| `VaultTrash.Bin.Delete` | crates/core/src/vault/entry.rs:767-790 | moves a live entry to the end of the trash, or reports that there is none |
| `VaultTrash.Bin.Restore` | crates/core/src/vault/trash.rs:69-97 | moves an entry of the trash to the end of the live ones, or reports that there is none |
| `VaultTrash.Bin.PermanentDelete` | crates/core/src/vault/trash.rs:105-112 | drops the entry from the trash; live entries stay, and a missing one is no error |
| `VaultTrash.RunsKeepInv` | crates/core/src/vault/trash.rs:65-112 | in every run no entry is there twice, or both live and deleted |
| `VaultTrash.AddedIsLive` | crates/core/src/vault/entry.rs:360-477 | in every run a new entry is live beside all that were |
| `VaultTrash.DeletedIsTrashed` | crates/core/src/vault/entry.rs:767-790 | in every run deleting succeeds exactly for a live entry, which is then in the trash and live no more, and nothing else moves |
| `VaultTrash.RestoredIsLive` | crates/core/src/vault/trash.rs:69-97 | in every run restoring succeeds exactly for an entry in the trash, which is then live and in the trash no more, and nothing else moves |
| `VaultTrash.PermanentDeleteMattersIff` | crates/core/src/vault/trash.rs:105-112 | a permanent deletion changes something exactly when the entry is in the trash |
| `VaultTrash.LookedUpIsNotPurged` | crates/cli/src/ipc.rs:356-398 | in every run a permanent deletion of an entry that a lookup has just found leaves everything as it is |
| `VaultTrash.TrashedThenPurged` | crates/core/src/vault/trash.rs:105-112 | in every run moving an entry to the trash and then deleting it permanently takes away exactly that entry, and leaves the trash as it was |
| `IpcMutation.Machine.ManageChange` | crates/cli/src/ipc.rs:371-398 | the manager's change followed by the caller's save |
| `IpcMutation.Machine.AcceptRequest` | crates/cli/src/ipc.rs:296-346 | token, vault scope, request and vault session decide the response and the change made |
| `IpcMutation.OnlyTheTokenIsServed` | crates/cli/src/ipc.rs:239-251 | whatever is sent without the daemon's token, or to a daemon without one, changes nothing and is answered by an error |
| `IpcMutation.AnswersPingIff` | crates/cli/src/ipc.rs:239-251 | a daemon is reached exactly with its token, which is not empty |
| `IpcMutation.OnlyItsVaultIsServed` | crates/cli/src/ipc.rs:334-346 | a request for a vault is served like the bare one exactly by a daemon of that very file, and otherwise changes nothing and is answered by an error |
| `IpcMutation.Machine.TryIpcRequest` | crates/cli/src/ipc.rs:99-141 | nothing exactly when no connection was made; otherwise the reply, or the unconfirmed error |
| `IpcMutation.Machine.TryIpcMutation` | crates/cli/src/ipc.rs:143-160 | only the success of the very kind of mutation counts; errors and other replies stop the command |
| `IpcMutation.Machine.OpenAndChange` | crates/cli/src/main.rs:1029-1034 | the direct path of the three commands, with a deletion's message before the last save |
| `IpcMutation.Machine.HandleAdd` | crates/cli/src/main.rs:1023-1034 | the command's effects, result and messages |
| `IpcMutation.Machine.HandleEdit` | crates/cli/src/main.rs:1070-1083 | the command's effects, result and messages |
| `IpcMutation.Machine.HandleDelete` | crates/cli/src/main.rs:1092-1115 | the command's effects, result and messages |
| `IpcMutation.ServiceIsTruthful` | crates/cli/src/ipc.rs:296-398 | a daemon answers success exactly when its manager kept the change, changes only for its token and its vault, and leaves everything as it is exactly when it is idle: not authorized, another vault, a refusal, or a file it cannot replace |
| `IpcMutation.RouteTaken` | crates/cli/src/main.rs:1023-1115 | the file is used exactly when the lookup gave no entry or the mutation was never sent |
| `IpcMutation.CommandOnce` | crates/cli/src/main.rs:1023-1115 | a command makes the change it chose, on the entry its lookup gave, once, or sent it once unheard, or changed nothing; success means once, or nothing when misled |
| `IpcMutation.SuccessWithoutChangeIff` | crates/cli/src/ipc.rs:143-156 | success without any change happens exactly when a success of the right kind replaced the answer of an idle daemon |
| `IpcMutation.AddCanBeMisled` | crates/cli/src/ipc.rs:143-156 | whatever daemon and identifier, an add that was refused can be reported a success |
| `IpcMutation.ActsAsAskedIff` | crates/cli/src/main.rs:1070-1100 | a command acts on the entry its query was resolved to exactly when no other entry replaced the answer to its lookup |
| `IpcMutation.PingAndLockNeedNoVault` | crates/cli/src/ipc.rs:99-141 | asking whether a daemon is there, and locking it, work whatever vault the command line names |
| `IpcMutation.ServedContent` | crates/cli/src/ipc.rs:371-398 | which changes made by a daemon differ in content |
| `IpcMutation.DirectSucceedsIff` | crates/cli/src/main.rs:1029-1115 | when the direct path succeeds, from its inputs alone |
| `IpcMutation.AskedForSpelledOut` | crates/cli/src/main.rs:1023-1115 | the change asked for carries the entry, the changes or the permanence of the command line, and the identifier that the daemon or the file resolved |
| `IpcMutation.SuccessIsAsAskedIff` | crates/cli/src/main.rs:1023-1115 | a command that reports success has made the change it was asked for, on the entry the daemon or the file resolved, exactly when it was neither misled nor misdirected |
| `IpcMutation.DeleteCanBeMisdirected` | crates/cli/src/main.rs:1092-1100 | with a daemon the client may use, a deletion can report success having deleted another entry than the one the daemon resolved |
| `IpcMutation.SuccessIsKept` | crates/cli/src/ipc.rs:371-398 | a success on a true reply or on the file is a change the manager kept |
| `IpcMutation.SaidButFailedIff` | crates/cli/src/main.rs:1106-1115 | success is printed by a failing command exactly for a deletion on the file whose own save works and whose last save fails |
| `IpcMutation.ChangedButFailedIff` | crates/cli/src/ipc.rs:137-160 | a command that made its change reports an error exactly when the daemon's reply was lost, of another kind, or told of a save that failed after replacing the file; or a save on the file failed |
| `IpcRuns.FilesHoldExactly` | crates/core/src/vault/manager.rs:371-453 | over every run a file holds a change exactly when it differs in content and was kept, or is what a failed save left behind and its daemon has not written since |
| `IpcRuns.KeptChangesStay` | crates/core/src/vault/manager.rs:435-453 | over every run no later write of any session loses a change that was kept |
| `IpcRuns.WritingStrandsOthers` | crates/core/src/vault/manager.rs:439-441 | any write to a file leaves every other daemon on it behind |
| `IpcRuns.FallbackStrandsDaemon` | crates/cli/src/main.rs:1070-1083 | a command that succeeds on the file leaves behind a daemon that has that vault unlocked |
| `IpcRuns.StaleDaemonRefuses` | crates/cli/src/ipc.rs:371-398 | a daemon left behind answers every change but an empty edit with an error and changes nothing |
| `IpcRuns.StaleDaemonAcceptsEmptyEdit` | crates/cli/src/ipc.rs:380-388 | an edit that changes nothing is reported done even by a daemon left behind |
| `IpcRuns.StaleForever` | crates/cli/src/ipc.rs:334-398 | from then on it makes no change of content and replaces no file, in every continuation |
| `IpcRuns.AtMostOnce` | crates/cli/src/ipc.rs:98-160 | over every run each command's change is made at most once, by daemon and file together, late service included |
| `IpcRuns.SuccessIsOnceIff` | crates/cli/src/main.rs:1023-1115 | over every run a reported success is the change asked for, made exactly once on the resolved entry, then and ever after, if and only if it was neither misled nor misdirected; otherwise never |
| `IpcRuns.SuccessIsDurable` | crates/cli/src/ipc.rs:371-398 | over every run the change of a success on its own reply or on the file is kept and, if it changed content, on disk, then and after any further steps |
| `IpcRuns.ChangesWereAskedFor` | crates/cli/src/ipc.rs:334-398 | over every run each change, late ones included, is the one its command chose, the one asked for unless misdirected, on the vault that its command line named, or, on the file, the usual one when it named none |
| `IpcRuns.DaemonChangesNeedItsToken` | crates/cli/src/ipc.rs:239-251 | over every run, late service included, a daemon's changes come only from commands that hold that daemon's token |
| `IpcRuns.ErrorHidesChangeIff` | crates/cli/src/ipc.rs:98-160 | over every run, late service included, a command reported an error although its change was made exactly when its request was still waiting, its reply was lost, of another kind or told of a failed save, or a save on the file failed |
| `GitCredential.ReadLine` | crates/cli/src/git_credential.rs:34-37 | a line that fits the budget is read whole; another is cut to exactly the budget or fails |
| `GitCredential.StoreField` | crates/cli/src/git_credential.rs:42-49 | refuses exactly a known field seen before, and stores the others |
| `GitCredential.ReadFields` | crates/cli/src/git_credential.rs:27-50 | terminates with a positive budget at every turn and gathers the fields from whole lines only |
| `GitCredential.AcceptedFitsBudget` | crates/cli/src/git_credential.rs:34-38 | what was read of an accepted request is whole lines within 16 KiB, without U+0000, and nothing of a broken end |
| `GitCredential.OrderDoesNotMatter` | crates/cli/src/git_credential.rs:34-50 | the fields gathered do not depend on the order of the lines |
| `GitCredential.RequestIgnoresOrder` | crates/cli/src/git_credential.rs:27-63 | nor does the request |
| `GitCredential.RequestReadsBack` | crates/cli/src/git_credential.rs:27-50 | a request written as lines of known names, each once, and a blank one is read as exactly those fields, whatever stands behind |
| `GitCredential.OtherNamesArePassedOver` | crates/cli/src/git_credential.rs:48 | a line with another name is passed over |
| `GitCredential.RepeatedNameIsRefused` | crates/cli/src/git_credential.rs:47 | a name that comes again is refused |
| `GitCredential.InterpretedIff` | crates/cli/src/git_credential.rs:51-62 | fields make a request exactly when protocol and host come together as plain HTTPS and all addresses given have that one origin |
| `GitCredential.HttpsOriginIff` | crates/cli/src/git_credential.rs:20-25 | an address has an origin exactly when it parses as HTTPS with a host and without user information, and has neither control characters nor backslashes |
| `GitCredential.PlainHostIff` | crates/cli/src/git_credential.rs:53 | a host is plain exactly when it is not empty and has no white space and none of five signs |
| `GitCredential.HostRequestIsUnderstood` | crates/cli/src/git_credential.rs:27-63 | a request for an HTTPS host, its lines in any order, is understood as that host's origin and the user named |
| `GitCredential.AddressRequestIsUnderstood` | crates/cli/src/git_credential.rs:27-63 | and so is one that names an address instead |
| `GitCredential.ReadRequest` | crates/cli/src/git_credential.rs:27-63 | the request of the gathered fields: HTTPS host or address, all given addresses of one origin |
| `GitCredential.SelectEntry` | crates/cli/src/git_credential.rs:65-74 | chooses an entry exactly when one and only one matches |
| `GitCredential.MatchesIff` | crates/cli/src/git_credential.rs:66-70 | an entry matches with the origin asked for and, when a user is asked for, with that user name, or that mail address where it has no user name |
| `GitCredential.ResponseReadsBack` | crates/cli/src/git_credential.rs:76-79 | a reply is read back as exactly its user name and password |
| `GitCredential.SendableIff` | crates/cli/src/git_credential.rs:77 | a reply is made exactly when neither text has a line break or U+0000 |
| `GitCredential.HandleGitGet` | crates/cli/src/git_credential.rs:81-102 | prints only the credential of the only matching entry, whose address is HTTPS with a host and no user information and still has the origin and user asked for; and prints it unless the entry changed or cannot be sent |
| `ReviewedSync.SortSorts` | crates/cli/src/reviewed_sync.rs:97-99 | the sort orders by entry with the password first, and permutes |
| `ReviewedSync.SortOrders` | crates/cli/src/reviewed_sync.rs:97-99 | entries in rising order, and each entry's password before its other fields |
| `ReviewedSync.SortIsStable` | crates/cli/src/reviewed_sync.rs:97-99 | changes that rank alike keep their order |
| `ReviewedSync.Ask` | crates/cli/src/reviewed_sync.rs:19-27 | one trimmed answer, or none at the end of the input |
| `ReviewedSync.AskChange` | crates/cli/src/reviewed_sync.rs:116-164 | the inner loop over answers ends in a decision, the proposal or a stop |
| `ReviewedSync.FirstAnswerCounts` | crates/cli/src/reviewed_sync.rs:116-157 | the dialogue passes over the lines that repeat its question; the next line decides: l, r, b, e, Enter, a failing v, or q |
| `ReviewedSync.ReviewChanges` | crates/cli/src/reviewed_sync.rs:94-182 | the whole dialogue with its skip set and final approval |
| `ReviewedSync.ApprovalIsExplicit` | crates/cli/src/reviewed_sync.rs:116-170 | decisions are handed on only after a final yes, and no answer behind it is read |
| `ReviewedSync.DecisionsAreAnswers` | crates/cli/src/reviewed_sync.rs:100-165 | each decision handed on is the answer to the question about its change: the line that ends the question is the letter of the choice, an edited text is the line behind it, and the questions stand in the order of the sorted changes |
| `ReviewedSync.NothingToReview` | crates/cli/src/reviewed_sync.rs:166-170 | without changes nothing is asked |
| `ReviewedSync.OneDecisionEach` | crates/cli/src/reviewed_sync.rs:100-165 | each change has at most one decision, and only choices it offers |
| `ReviewedSync.EveryChangeIsSettled` | crates/cli/src/reviewed_sync.rs:100-165 | an undecided change has a proposal or belongs to an entry kept as both |
| `ReviewedSync.NothingElseOfAKeptEntry` | crates/cli/src/reviewed_sync.rs:97-157 | after keeping both of an entry's password nothing else of it is decided |
| `ReviewedSync.DecidedBesideIffTwoPasswords` | crates/cli/src/reviewed_sync.rs:97-157 | some answers break that exactly when an entry has two password changes and the later offers both |

## Left out

- The vault manager beyond changing and saving, the `.vdb` format, the merge and review engines, TOTP, the importer and the search index.
- Cryptographic primitives: signing, key generation and encryption are parameters or absent.
- Memory locking, sockets, pipes, file locks, real time and the HID reads of the YubiKey: nondeterministic
  outcomes stand in for them where a property needs them.
- The macOS and Linux clipboard: comparing and clearing are separate processes there.
- Tauri command wrappers, React pages, Android plugins, display formatting: plumbing and user interface.
- Base64 and the text of keys outside the decoded block, hexadecimal seeds and public key lines: reading key text
  is a parameter of `SshIdentities`, and `SshKeyParser` starts from decoded bytes.
- JSON text: parsing undoes printing, wrapping a map makes its text longer, and the empty list and object print as
  usual. For doubles the first is an assumption that the JSON library does not promise as it is used here, without
  its exact parsing of doubles (the feature `float_roundtrip`). Duplicate keys and the order of fields are not part
  of the model.
- Poisoned mutexes and panics.
- Clipboard.Desktop.Copy: the transaction counter does not wrap at 2^64.
- Clipboard.Desktop.ClearIfMatching: a text on the clipboard that cannot be read at that moment counts as no text;
  the source then reports the clear a success, and tracking ends.
- Clipboard.Desktop.Wake: timers wake at any later moment; their delay is not modelled.
- AppMetadata.Cache.Initialize: the loss of a reply after a stored initialisation is one of the failures that
  leave the cache as it was.
- AppMetadata.FlushedWritesAreDurable: assumes truthy rejections; `AppMetadata.FlushIsTruthfulIff` says what that
  assumption is worth.
- VaultSession.Manager.SaveVault: a save also drops what has been in the trash for thirty days; nothing is on the
  clock here.
- VaultTrash.RunsKeepInv: new identifiers are not in use yet, where the source draws random ones. Emptying the
  trash, its expiry and merging are not modelled.
- VaultSession.Manager.Change: what a change does to entries, encryption and the search index is not modelled;
  a change is a number that content holds or not. Revisions are counted where the source compares hashes.
- IpcRuns.AtMostOnce: a command is one step of a run, so other commands and late service happen between
  commands and not inside one; nothing in the counts depends on that order. A file that changes between opening
  and saving on the direct path is one of the ways that save can fail.
- IpcMutation.Machine.AcceptRequest: listing, searching, auditing and the SSH requests change nothing and are
  left out; the inactivity lock and process exit are too, a locked vault being a refusal of the manager. The two
  copies of the daemon loop, for Windows and for Unix sockets, do the same and are modelled once.
- IpcMutation.Machine.OpenAndChange: the source writes out the direct path in each of the three handlers.
- SshIdentities.ListPlaces: the source repeats the same search for password, notes, custom fields and
  attachments; the model searches one list of those places in that order.
- SshIdentities.ClientCanUseEveryListedKey: the vault does not change between listing and signing.
- GitCredential.OrderDoesNotMatter: the lines permuted are complete lines in front of the blank line or the end
  of the input.
- GitCredential.ReadRequest: the URL parser is a parameter.
- ReviewedSync.ReviewChanges: showing changes, the terminal check and applying the decisions are left out;
  showing both sides is a parameter that may fail.
