# ota-fetch: a verified model

`ota-fetch` downloads a signed manifest, verifies it, downloads the payload the manifest offers to
this device, checks its digest, hands it to RAUC and keeps the manifest as the current one. It also
reads an INI configuration, enrolls a device identity and draws progress on a terminal. This project
models the parts of it whose correctness spans several functions or whole runs, and proves what they
promise.

Bytes are `char`. Whatever the program does not decide itself (server replies, I/O failures, clocks,
exit codes, the termination flag) is an argument, called a script, that every method takes; a contract
for all scripts is a contract for all surroundings. OpenSSL, the digest and the JSON parser are
function values in an environment record.

## The main results

**INI parser and configuration** (`Text`, `CString`, `IniSpec`, `IniParser`, `IniRoundTrip`, `Config`,
`ConfigRoundTrip`). The parser works in place on a 200-byte buffer that a reader fills in pieces.
`IniSpec` says what it should do in terms of physical lines only. `IniParser.ParseStream` is proved to
make exactly the handler calls of that specification, for every NUL-free text and every handler, and
to return the number of the first rejected line or 0. The calls do not depend on the handler's answers
or on earlier errors: the specification's `Events` takes neither. A pair line reads back as
written exactly if its value is clean (`EntryRead`, both directions); documents of clean headings,
pairs, continuation lines, comments and blank lines round-trip, and so does every expressible
configuration through `OtaConfig.Load`.

**Update run** (`Paths`, `Manifest`, `Hash`, `Verify`, `UpdateTrace`, `Update`). Files are kept by the
place a path leads to, walked name by name ("", "." and ".." included), not by its text. Each step of
an attempt is an event. A monitor, `UpdateTrace.Next`, says which event may follow in which phase. The
class `Updater` follows the code and is proved to produce only accepted traces; the safety theorems
are about every prefix of every accepted trace, so about a stop after any step, also between the
`unlink` and the `rename` that promote a manifest. They say that the current manifest is absent,
unchanged, or the exact bytes of a manifest that one attempt downloaded and verified, chose a file
from, and whose payload it downloaded, hash-matched and applied; that each RAUC run is justified the
same way and happens at most once per attempt; and that a device converges once the server keeps
serving the same manifest.

The safety of the current manifest is false of the code as it stands: a manifest may name its file
`manifest.json`, `./manifest.json` or `../current/manifest.json`, and the payload is then stored over
one of the two manifests. `CurrentManifestSafe` asks that no manifest which the run verified
`Collides`, that is, offers this device a complete file that would be stored over the current
manifest, or over the one in the inbox with a known type and some other bytes of the promised digest.
`SafeExactlyIf` shows, for each manifest, that this is exact: every run that verifies only this one is
safe after every event if and only if it does not collide. `StoredOverCurrent` and `StoredOverInbox`
show the failures in the code itself: one attempt of a fresh `Updater` under a script in which the
server simply serves that manifest. Convergence has its exact condition in the same way
(`ConvergesExactlyIf`).

**Power loss during an update** (`Disk`, `PowerLoss`). The same traces are replayed on a disk with a
volatile and a durable side. Nothing of an update is synced before the `sync` that precedes the reboot,
so a power loss may leave any bytes as the current manifest. `PowerLossExactlyIf` says that what it
leaves is safe if and only if every promotion so far was followed by a sync; for a file of type
`rauc_bundle_test` that never happens within the attempt.

**Enrollment** (`Disk`, `AtomicWrite`, `Token`, `Enroll`). A crash may keep any binding a directory
entry has had since its directory was last synced, and any bytes of a file that was not synced.
`WriteFileAtomic` leaves the old or the complete new bytes at every point, and on success the new bytes
are what every crash leaves exactly if the path names its directory and that directory is itself
durable: for a path in the root or without a slash the code syncs nothing and still returns 0.
`Enroll.Enroll` passes through four situations in order, for a running program and after any crash.
Whether a missing token proves that key and certificate are the new ones after every crash depends on
the directories: `TokenTellsExactlyIf` gives the exact condition, and `AllLost` the crash of a first
enrollment into directories that it made itself.

**Progress output** (`Terminal`, `Progress`). After any operations on a terminal each row is one whole
message plus blanks. Milestones and redraws are bounded over every sequence of callbacks of a
transfer, and the 64-bit percentage is right exactly while bytes times 100 fits 64 bits.

## Where code and documentation differ

- `src/ini.h:143-144` asks for a buffer three bytes longer than the longest line; the code takes lines
  of 199 bytes including the newline, and a last line of 199 bytes without one.
- `src/manifest.h:89-92` describes selection by a non-NULL device id; the code treats an empty id like
  a missing one.
- The one-shot loop returns 0 when termination is seen after a failed attempt that is not the last
  allowed one, although nothing was updated (`src/ota_fetch.c:1147-1148`).

## Model

| member | source | states |
|---|---|---|
| Text.SpaceCodes | src/ini.c:53-67 | Whitespace is exactly the six characters of the "C" locale. |
| CString.RStripInPlace | src/ini.c:53-59 | The buffer's string becomes its longest prefix not ending in whitespace; no byte outside the old string changes. |
| CString.LSkip | src/ini.c:62-67 | The returned pointer starts the longest suffix not starting with whitespace. |
| CString.FindCharsOrComment | src/ini.c:72-87 | The returned pointer is the first character of the set or first ';' after whitespace, or the terminator. |
| CString.StrNCpy0 | src/ini.c:91-99 | The destination holds the source cut to size - 1 bytes, terminated. |
| IniSpec.LinesPartition | src/ini.c:294-317 | Splitting loses nothing; every piece is one physical line and all but the last end in a newline. |
| IniSpec.LinesOfConcat | src/ini.c:294-317 | Ended lines written one after the other are split back into themselves. |
| IniSpec.FirstErrorMeans | src/ini.c:166-263 | The result is 0 exactly if every line has at most 199 bytes, is not malformed and has its call accepted; otherwise it is the first other line. |
| IniSpec.OverlongRead | src/ini.c:143-176 | Of a longer line the first 199 bytes are read as if they were all. |
| IniSpec.MarkSkipped | src/ini.c:178-184 | On the first line a byte order mark changes nothing. |
| IniSpec.CommentTransparent | src/ini.c:188-190 | A blank or comment line put anywhere after the first line changes no handler call and does not end a continuation. |
| IniParser.StringReader.Read | src/ini.c:294-317 | A read hands out the rest of the line or num - 1 bytes of it, whichever is less, terminated, and fails exactly at the end of the text or for num below 2. |
| IniParser.Discard | src/ini.c:168-176 | The 15-byte discard loop ends exactly after the current line and reports whether there was anything left of it. |
| IniParser.NextLine | src/ini.c:143-176 | One turn consumes exactly one physical line, keeps exactly its first 199 bytes and flags it exactly if something, even just the newline, was left over. |
| IniParser.Isolate | src/ini.c:178-186 | Only the first line loses a byte order mark; the text is trimmed in place; the start pointer has moved exactly if the line is indented or had the mark. |
| IniParser.ReadContinuation | src/ini.c:192-198 | A continuation value is the text before an inline comment, right-trimmed. |
| IniParser.ReadHeader | src/ini.c:205-223 | A closed header sets the section, cut to 49 bytes, and clears the continued name; an unclosed one changes neither. |
| IniParser.ReadPair | src/ini.c:224-237 | In-place splitting yields the specified name and value, and fails exactly for a line without separator before a comment. |
| IniParser.HandlePair | src/ini.c:239-256 | A pair makes one call and keeps its name, cut to 49 bytes, for continuation; a line without separator is malformed. |
| IniParser.HandleLine | src/ini.c:178-257 | A line in the buffer makes the calls, leaves the section and continued name, and is malformed, exactly as the line-level specification says. |
| IniParser.Turn | src/ini.c:143-263 | One turn of the outer loop keeps the scanning invariant for one more line and makes progress exactly if text is left. |
| IniParser.ParseStream | src/ini.c:102-270 | For every NUL-free text and handler the calls are those of the specification and the result is the first rejected line number, or 0. |
| IniRoundTrip.HeadRead | src/ini.c:205-213 | A written heading is read as its section, cut to 49 bytes, after any line. |
| IniRoundTrip.UnclosedHead | src/ini.c:205-223 | A heading without its bracket is malformed. |
| IniRoundTrip.NoteRead | src/ini.c:188-190 | A line that starts with ';' or '#' is ignored. |
| IniRoundTrip.BlankRead | src/ini.c:188-190 | A blank line is ignored. |
| IniRoundTrip.MoreRead | src/ini.c:192-203 | After a pair an indented line is a continuation with exactly its text as value, even if it looks like a heading or a pair. |
| IniRoundTrip.MoreAlone | src/ini.c:192-203 | Without a pair to continue, the same line is read as if it were not indented. |
| IniRoundTrip.EntryRead | src/ini.c:224-245 | `name = value` is read as that pair if and only if the value has no outer whitespace and no ';' at its start or after whitespace. |
| IniRoundTrip.CommentCut | src/ini.c:224-237 | A ';' after whitespace and what follows it are no part of the value. |
| IniRoundTrip.ColonRead | src/ini.c:224-237 | `name:value` is read as that pair. |
| IniRoundTrip.NoSeparator | src/ini.c:246-256 | A line with neither separator is malformed. |
| IniRoundTrip.DocumentRoundTrip | src/ini.c:143-257 | Any document of clean headings, pairs, continuation lines, comments and blank lines, written and parsed, makes exactly the calls of its pairs and continuation lines, and no error if the handler accepts them. |
| IniRoundTrip.ParseDocument | src/ini.c:102-270 | The same of the parser itself. |
| Config.OtaConfig.Handle | src/config.c:30-71 | A call sets exactly the field its section and name stand for. |
| Config.AssignGet | src/config.c:30-71 | Field by field: a call that names the key sets it to the converted value, any other leaves it. |
| Config.NetworkFields | src/config.c:35-44 | Each name of the network section sets its own string. |
| Config.TimeoutFields | src/config.c:45-48 | Each name of a timeout sets its own number. |
| Config.NumberFields | src/config.c:49-54 | Each name of the other numbers sets its own number. |
| Config.DirectoryFields | src/config.c:55-60 | The interval and the two manifest directories set their own fields. |
| Config.SystemFields | src/config.c:61-66 | The other names of the system section set their own fields. |
| Config.LastWriteWins | src/config.c:30-71 | After all calls each field is what the last call naming it says, or zero. |
| Config.ContinuationReplaces | src/ini.c:192-203 | After a pair line for a key, any comment, blank and continuation lines and then a continuation line, the field is exactly the value of that last line. |
| Config.OtaConfig.Load | src/config.c:74-101 | Loading returns 0 exactly if the file opens, no line is rejected and all seven required strings of the last-write-wins fold are not empty; with a rejected line it returns the number of the first one, otherwise -1. |
| ConfigRoundTrip.AtoiRoundTrip | src/config.c:46-57 | Reading a decimal rendering of an integer gives the integer. |
| ConfigRoundTrip.AtoiLenient | src/config.c:46-57 | Leading whitespace, a plus sign and what follows the digits do not change the number. |
| ConfigRoundTrip.LoadOfWritten | src/config.c:30-101 | Any complete configuration with clean values and fitting lines, written out, loads without error as itself. |
| ConfigRoundTrip.Reload | src/config.c:74-101 | The same through the loader object: result 0 and the same settings. |
| ConfigRoundTrip.ContinuedInFile | src/ini.c:192-203 | In a written file a continuation line replaces the value of its key, over comments, blank lines and earlier continuation lines. |
| Paths.TmpAt | src/ota_fetch.c:444-450 | The temporary file lies in the directory the path leads to, under the name with ".tmp" added, and is never the file itself. |
| Paths.JoinAt | src/ota_fetch.c:275-288 | A joined path leads to the name in the place of its directory. |
| Paths.AbsoluteOrNot | src/ota_fetch.c:275-288 | A path from the root does not depend on the working directory; one without a slash lies in it. |
| Paths.Dots | src/ota_fetch.c:275-288 | Doubled slashes and "." change nothing; ".." goes up, at most to the root. |
| Paths.DirOfAt | src/enroll.c:127-169 | The directory cut off at the last slash is the one the file is in. |
| Hash.AbsorbConcat | src/hash.c:67-73 | Absorbing two pieces equals absorbing their concatenation. |
| Hash.AbsorbByte | src/hash.c:67-73 | Absorbing nothing changes nothing and absorbing a byte is one step; with the law of concatenation this fixes what is absorbed. |
| Hash.DigestSteps | src/hash.c:61-85 | A digest goes from the initial state through one step per byte to the result. |
| Hash.Sha256SumFile | src/hash.c:36-97 | Success yields the digest of the whole file however reads split it, in particular of an empty and a one-byte file; a clean reading of an existing file succeeds. |
| Hash.HexEncode | src/hash.c:100-113 | The buffer gets the lowercase digits and a terminator exactly if it is large enough, else nothing changes. |
| Hash.HexRoundTrip | src/hash.c:106-111 | A lowercase form of the Base16 decoding of section 8 of RFC 4648 undoes the encoding. |
| Hash.UnhexHex | src/hash.c:106-111 | Whatever decodes is the encoding of what it decodes to. |
| Hash.HexSample | src/hash.c:106-111 | The high digit comes first, in lowercase. |
| Hash.HexInjective | src/hash.c:106-111 | Different digests have different texts. |
| Hash.HexRing.Format | src/hash.c:116-134 | A call writes exactly one slot of the ring and advances the wrapping counter. |
| Hash.ResultSurvives | src/hash.c:116-134 | Each result stays intact through the next three calls, also when the 32-bit counter wraps. |
| Hash.NewestSlot | src/hash.c:116-134 | After any calls the newest result is in the slot of the counter modulo four, so a fifth call reuses the slot of the first. |
| Manifest.LoadManifest | src/manifest.c:106-212 | Array positions are kept: entry i comes from element i, and an element that is not an object leaves a blank entry. |
| Manifest.MemberFirst | src/manifest.c:106-212 | Of members with the same name the first counts. |
| Manifest.FileMembers | src/manifest.c:183-205 | Each field of a file comes from the member of its name, if that is a string. |
| Manifest.ReleaseMembers | src/manifest.c:140-182 | The same for a release and its files. |
| Manifest.ManifestMembers | src/manifest.c:115-139 | The same for the manifest and its releases. |
| Manifest.SelectRelease | src/manifest.c:275-298 | The chosen release is the first exact device match, else the first "default"; none is returned exactly if there is none. |
| Manifest.OwnBeforeDefault | src/manifest.c:275-298 | The device's own release is taken before a "default"; the "default" for a device without a name or without a release. |
| Manifest.EmptyIsNone | src/manifest.c:275-298 | An empty device name is like none. |
| Manifest.FirstOfMany | src/manifest.c:275-298 | Of several releases for a device the first is taken. |
| Manifest.ChosenUnique | src/manifest.c:275-298 | At most one release can be the chosen one. |
| Verify.VerifyRsaEcdsa | src/verify_libcrypto.c:586-658 | The signature is checked over the whole data file however it is read in pieces; a reading that breaks off or an update that fails never verifies. |
| Verify.VerifySignatureWithCert | src/verify_libcrypto.c:661-750 | Whatever fails, only authentic data passes; with nothing failing all authentic data passes. |
| Verify.AuthenticMeans | src/verify_libcrypto.c:687-732 | Authentic data has a readable certificate that chains to the trusted one, whose key is of a known kind and verifies the signature, within the sizes allowed; and conversely. |
| Verify.FormatErrors | src/verify_libcrypto.c:39-60 | The buffer holds the joined messages cut to what fits with a terminator. |
| Verify.JoinedThree | src/verify_libcrypto.c:39-60 | Messages are joined by a semicolon and a space. |
| UpdateTrace.MatchMeansDigest | src/ota_fetch.c:944-955 | The hash matches if and only if the manifest's text decodes to the payload's digest. |
| UpdateTrace.PicksFirst | src/ota_fetch.c:871-878 | The file is the first one of the chosen release, if and only if it has all four fields. |
| UpdateTrace.SoundStep | src/ota_fetch.c:1081-1115 | From verification to promotion the inbox holds the verified bytes, or the payload if its name leads there, whatever event comes. |
| UpdateTrace.CurrentStep | src/ota_fetch.c:824-845 | An event leaves the current manifest alone, removes it, or replaces it by verified bytes of an applied release. |
| UpdateTrace.PhaseEvidence | src/ota_fetch.c:1069-1120 | In every accepted trace each phase is backed by earlier events of the same attempt, in order: manifest downloaded, verified, file chosen, payload downloaded, matched, applied. |
| UpdateTrace.CurrentManifestSafe | src/ota_fetch.c:824-845 | If no manifest verified so far collides, after every event of every run the current manifest is absent, as before the run, or the exact bytes of a manifest that one attempt downloaded and verified and whose payload it downloaded, matched and applied. |
| UpdateTrace.SafeExactlyIf | src/ota_fetch.c:853-907 | For every manifest: all runs that verify only this one are safe after every event if and only if it does not collide. |
| UpdateTrace.RunOverCurrent | src/ota_fetch.c:886-907 | A payload stored over the current manifest makes an accepted run end with unverified bytes there. |
| UpdateTrace.RunOverInbox | src/ota_fetch.c:886-907 | A payload of other bytes stored over the inbox manifest makes an accepted run promote it. |
| UpdateTrace.PlainName | src/ota_fetch.c:886-887 | A file name without a slash can be stored, never meets the current manifest, and meets the inbox manifest exactly if it is "manifest.json". |
| UpdateTrace.NotStorable | src/ota_fetch.c:519-531 | A name with a trailing slash, or one through the manifest in the inbox, cannot be stored. |
| UpdateTrace.PlainNamesSafe | src/ota_fetch.c:886-887 | A manifest whose file has a name without a slash other than "manifest.json" does not collide. |
| UpdateTrace.DotName | src/ota_fetch.c:886-887 | The name "./manifest.json" is stored over the inbox manifest. |
| UpdateTrace.NeighbourName | src/ota_fetch.c:886-887 | If the two directories are neighbours, "../", the name of the other one and "/manifest.json" is stored over the current manifest. |
| UpdateTrace.AttemptManifest | src/ota_fetch.c:1077-1115 | An attempt verifies at most one manifest and goes on with that one. |
| UpdateTrace.InstallJustified | src/ota_fetch.c:988-1030 | Each install follows, in its own attempt, download and verification of the manifest, choice of the file, and download and hash match of the very bytes at the payload path, with no earlier install. |
| UpdateTrace.OneInstallPerAttempt | src/ota_fetch.c:1069-1120 | Between two installs a new attempt begins. |
| Update.DestinationUntouched | src/ota_fetch.c:427-553 | Until the last event of a download its destination is untouched, and that event is the rename exactly if it succeeds. |
| Update.SafePrefixes | src/ota_fetch.c:1053-1152 | If no manifest that an accepted run verified collides, every prefix of it is safe. |
| Update.Updater.Receive | src/ota_fetch.c:109-119 | The temporary file holds the concatenation of all chunks if every write is complete; the first short write fails. |
| Update.BodyConcat | src/ota_fetch.c:109-119 | A body is its chunks one after the other. |
| Update.Updater.FetchFile | src/ota_fetch.c:427-553 | Returns 0 exactly if every step succeeded and a file can be stored there; then the destination is the whole body, else it is unchanged; other files are unchanged; the temporary file is gone if the directory step worked and it was renamed or could be unlinked. |
| Update.Updater.CleanInbox | src/ota_fetch.c:647-699 | Exactly the three inbox files and the listed ".tmp" names that can be unlinked are gone; every other file is as before. |
| Update.Updater.FetchNewManifest | src/ota_fetch.c:707-766 | Returns 0 exactly if all three downloads succeed, with their bodies in place. |
| Update.Updater.ValidateNewManifest | src/ota_fetch.c:774-786 | Success means the inbox manifest is authentic; an authentic one succeeds when nothing fails. |
| Update.Updater.CompareManifests | src/ota_fetch.c:351-381 | Equal means equal digests and different means different ones or no current manifest, which always counts as different. |
| Update.Updater.LoadInbox | src/manifest.c:79-112 | A manifest loaded from a possibly short read is the manifest of the whole file. |
| Update.Updater.ChooseFile | src/ota_fetch.c:853-878 | The file is the first of the chosen release with all fields the runtime needs, and is found whenever it exists. |
| Update.Updater.FetchPayload | src/ota_fetch.c:880-918 | The choice is recorded; success exactly if the body is delivered and can be stored under the name, and then the payload path holds it; the inbox manifest changes only if the name leads there. |
| Update.Updater.ValidateRelease | src/ota_fetch.c:926-959 | Success only if the payload's digest text equals the manifest's, and always then with a clean reading. |
| Update.Updater.MakeNewManifestCurrent | src/ota_fetch.c:824-845 | Success moves the inbox manifest over the current one; a failed rename leaves the current one removed if it could be unlinked. |
| Update.Updater.Simulate | src/ota_fetch.c:981-986 | The simulated install succeeds exactly if the promotion does and ends with it. |
| Update.Updater.HandToRauc | src/ota_fetch.c:988-1041 | The real one returns -1 unless RAUC exits with 0, 1 if then the promotion fails, and on success ends with the sync. |
| Update.Updater.ApplyRelease | src/ota_fetch.c:969-1050 | Returns 0 exactly if the type is known, RAUC (where asked for) exits with 0 and the promotion works; then the current manifest is what the inbox held, and the last thing done is the sync for a real install and the promotion for a simulated one; the other results are 1 and -1 as in the source. |
| Update.Updater.Attempt | src/ota_fetch.c:1069-1120 | One attempt is accepted by the monitor, removes what the cleanup is for, and verifies only the served manifest; it succeeds quietly on an up-to-date device; when it updates, the payload was delivered in this attempt and the served manifest becomes current, or the payload if its name leads to the inbox manifest, and for a real install it ends with the sync; it updates when everything works and never installs when the served manifest has the current digest. |
| Update.Updater.RunLoop | src/ota_fetch.c:1053-1152 | The whole run is one accepted trace made of its attempts; it is safe after every event if no manifest it verified collides, and so if none that was served does; daemon mode returns only after termination is seen, with 0; one-shot mode makes at most max(1, retries) attempts, exactly that many before it returns a failure, and returns 0 exactly if its last attempt succeeded or termination was seen after a failed one that was not the last allowed. |
| Update.Converges | src/ota_fetch.c:1085-1094 | After a successful attempt that left the digest it was served, attempts that are served the same manifest download and install nothing, leave the current manifest, and succeed if their reads do. |
| Update.ConvergesExactlyIf | src/ota_fetch.c:1085-1115 | When everything works and the same manifest is served again, the next attempt has nothing to do if and only if the last one left its digest as current. |
| Update.PlainUpdate | src/ota_fetch.c:1069-1120 | A device without a current manifest or with one of another digest, served an authentic manifest whose file is stored apart from it and the payload it promises, is updated to it. |
| Update.StoredOverCurrent | src/ota_fetch.c:886-907 | One attempt of the code on a fresh device, served an authentic manifest whose file leads to the current manifest, ends with unverified bytes there. |
| Update.StoredOverInbox | src/ota_fetch.c:886-907 | Served one whose file leads to the inbox manifest, it ends with the payload as current manifest. |
| PowerLoss.FaithfulStep | src/ota_fetch.c:519-531 | On the two-layer disk a running program sees after each event exactly the files of the run. |
| PowerLoss.PowerLossExactlyIf | src/ota_fetch.c:824-845 | If no manifest verified so far collides, after every event of every run a power loss leaves no current manifest or a safe one if and only if every promotion so far was followed by a sync. |
| PowerLoss.SafeOnceSynced | src/ota_fetch.c:1039-1041 | Right after the sync that precedes the reboot it does. |
| PowerLoss.TestNeverSafe | src/ota_fetch.c:981-986 | After the promotion of a file that only simulates an install, until the next attempt, it may leave any bytes. |
| PowerLoss.UpdateAndLosePower | src/ota_fetch.c:969-1050 | At the end of a successful update by the code a power loss leaves a safe current manifest if and only if the install was a real one. |
| AtomicWrite.Machine.WriteAll | src/enroll.c:171-186 | For every pattern of short writes and interrupts, 0 exactly if all bytes get written, and then the file holds them all. |
| AtomicWrite.WritesThroughIff | src/enroll.c:171-186 | The answers of `write` suffice if and only if they take all the bytes before any error; interrupts do not count. |
| AtomicWrite.Machine.FsyncParentDir | src/enroll.c:127-169 | Syncs the directory a path names; a path in the root or without a directory returns 0 with nothing synced. |
| AtomicWrite.Machine.WriteFileAtomic | src/enroll.c:188-264 | At every point a running program and any crash find the old or the complete new bytes; 0 exactly if every call worked; then every crash leaves the new bytes exactly if the path names a durable directory, and exactly the entries of the directory it names are settled. |
| AtomicWrite.BeforeMeans | src/enroll.c:213-239 | Before the rename the target survives any crash as it was. |
| AtomicWrite.AfterMeans | src/enroll.c:241-251 | From the rename on the target survives as it was or complete. |
| AtomicWrite.DurableWhenSynced | src/enroll.c:247-253 | Success is durable if and only if the path names its directory and that directory is durable. |
| Token.ReadAll | src/enroll.c:286-302 | All bytes are read, length stays below capacity, and capacity is at most max(256, 2 * bytes). |
| Token.ReadToken | src/enroll.c:266-340 | The token is the file trimmed at both ends; it fails exactly if nothing is left. |
| Enroll.CombinedIs | src/enroll.c:508-575 | The certificate file is the certificate, then a non-empty chain on a line of its own, with nothing or one newline between them. |
| Enroll.KeyStage | src/enroll.c:727-730 | While the key is written, certificate and token are as before and the key is old or new. |
| Enroll.CertStage | src/enroll.c:732-735 | While the certificate is written, the key is the new one and the token is still there. |
| Enroll.TokenStage | src/enroll.c:737-741 | When the token goes, key and certificate are both new, after any crash. |
| Enroll.TokenGoneMeansEnrolled | src/enroll.c:727-744 | If a crash leaves no token, it leaves the key and certificate of this enrollment. |
| Enroll.TokenTellsExactlyIf | src/enroll.c:727-744 | After an enrollment that changed both files, a missing token means both new files after every crash if and only if both directories are durable, the certificate's path names its directory, and the key's does or it is the same directory. |
| Enroll.AllLost | src/enroll.c:96-125 | If neither directory is durable, a crash after the enrollment may leave no key, no certificate and no token. |
| Enroll.Enroll | src/enroll.c:664-755 | At every point the three files are in one of the four ordered situations; 0 exactly if every step worked, and then the key file holds the generated key and the certificate file the server's certificate and chain; a missing token can be trusted exactly under the condition above; without force an existing key or certificate is left untouched. |
| Terminal.Logger.RenderProgress | src/log.c:43-74 | On a terminal the row becomes the new text plus blanks, whatever was there; a final line finishes the row. |
| Terminal.Logger.ClearProgress | src/log.c:201-217 | The live line is blanked without wrapping and the cursor is back at the start. |
| Terminal.Logger.WriteLine | src/log.c:130-147 | An enabled message replaces a live line by one whole finished line; a disabled one changes nothing. |
| Terminal.Logger.Execute | src/log.c:130-217 | After any operations every finished row is one whole message plus blanks and the active row is the latest progress text plus blanks. |
| Terminal.OverDisplays | src/log.c:55-61 | Text and padding printed over an older text leave the text and blanks only. |
| Terminal.WriteShown | src/log.c:130-147 | A message of level 1 to the threshold is shown after its level, whole up to 1023 bytes; any other not at all. |
| Terminal.LevelNames | src/log.c:76-89 | The names of the four levels. |
| Terminal.ProgressShown | src/log.c:43-74 | From level 3 on, progress is the live line on a terminal and a line of its own elsewhere. |
| Progress.PercentExact | src/ota_fetch.c:133-146 | For a running transfer the 64-bit percentage is the true one if and only if bytes times 100 fits. |
| Progress.EmitsWhen | src/log.c:285-309 | A redraw is due the first time, 500 ms after the last one, and 200 ms after it if the percentage changed; never sooner. |
| Progress.ReportRules | src/ota_fetch.c:193-266 | Nothing is reported before the first and after the last byte; a terminal is redrawn exactly when due, and time and percentage are remembered. |
| Progress.DownloadProgress.Callback | src/ota_fetch.c:193-266 | A call reports, and updates its state, as the rules `Report` and `After` say; when disabled only the byte counts change. |
| Progress.KnownTotalReports | src/ota_fetch.c:221-234 | For every call sequence with growing bytes and fixed total, reports are strictly increasing tens from 10 to 90, at most nine, and during the transfer the last one is the current ten. |
| Progress.UnknownTotalReports | src/ota_fetch.c:235-247 | With unknown total, reports are strictly increasing, the last one is the number of whole 5 MiB intervals received, and there are no more of them than that. |
| Progress.RedrawsApart | src/log.c:285-309 | On a terminal with a growing clock, consecutive redraws are at least 200 ms apart. |
| Progress.RedrawsBounded | src/log.c:285-309 | The number of redraws is bounded by the time that passed. |
| Progress.RunTransfer | src/ota_fetch.c:193-266 | The callback object, run over all calls of a transfer, makes exactly the reports of the rules, with the bounds on lines and redraws. |

## Left out

- libcurl, TLS and HTTP: a reply is a list of chunks, a status and failure flags.
- OpenSSL internals, SHA-256 itself, key and CSR generation: function values or script answers.
- JSON parsing and printing: the model starts from a parsed tree and takes for granted that a shorter read of the same bytes parses to the same tree or not at all (`PrefixStable`); file sizes (`json_u64`) are not modelled.
- Symbolic and hard links: two paths are the same file exactly if they lead to the same place name by name.
- Directories as such: a download whose name leads through one of the inbox files or through itself fails; other paths through a file, and a directory made where the current manifest belongs, are not told apart from working ones.
- Other processes: no one else changes the files of a run; what RAUC does beyond its exit status, and `reboot`, are not modelled.
- Allocation failures, except where they are one of the script's failure flags; memory release and the leak of repeated keys in `config_handler`.
- `atoi` outside the range of a C `int`, which C leaves undefined.
- INI build switches other than the defaults, and NUL bytes in INI text.
- File modes; directories that `mkdir_p` creates, which only count as not durable until a `sync`.
- Config.OtaConfig.Load: the handler runs after the parse on the collected calls instead of during it; the order of calls is the same.
- Update.Updater.RunLoop: `turns` bounds how much of an endless daemon run one call shows; every finite part is covered, and nothing is said about termination.
- Update.Updater.Receive: stdio buffering is not modelled; each write is visible in the temporary file at once.
- Terminal.Logger.Execute: messages are single lines without control characters and, on a terminal, narrower than the row; the log file and text formatting (speeds, sizes, remaining time) are not modelled.
- `manifest_release_select_file`, option parsing in `main.c`, printing of configuration and manifest: not on the paths above or plain plumbing.
