# Gas Can: a verified model

Gas Can runs sandboxes on a container runtime. This project models the parts of it whose correctness is about whole
runs, whole inputs or several functions together, and proves what they promise:

- the life of runtime resources: the proof cache of the Apple backend, its create saga and removals, and the in-memory
  runtime with rollback and container-only replacement;
- bundles and layers: the tar walker, the manifest check, two-pass extraction, the directories a layer needs, and the
  hand-written ustar, gzip and CRC-32 writers;
- policy: compiling a specification to a create request, replacing its SSH transport, translating it for two runtimes,
  recognising SSH keys, and canonical image references;
- streams: the exec pumps of both backends and the piping of a secret;
- staged installation of the engine's boot artifacts, and one-pass classification of signed package indexes.

Code that updates state is a class or a method with loops, proved against functions and predicates; code made of
expressions is functions and lemmas. What lies outside is a parameter: the runtime's answers and other tasks' actions
(`AppleSaga.Runtime`), the scheduler (the sequences of events in `AppleExec` and `ArcaExec`), tools and the file
system (`Fetch.World`), SHA-256, JSON decoding, stanza parsing and path canonicalisation. A removal proof is a number
never handed out twice. Integers are unbounded except where a width is written out (16-, 32- and 64-bit values).

Where a promise is not true of the code without a condition, the condition is stated exactly and an input outside it is
given:

- proofs are kept exactly by listings that say one thing of each identity (`AppleCache.RepeatKeepsProofsIffRowsAgree`,
  and `AppleCache.DisagreeingRepeat` for every listing that says two);
- extraction succeeds exactly when no file lies above another entry (`Extraction.ExtractValidated`,
  `Extraction.FileBelowFileIsRefused`);
- a file finds every directory on its way in a layer archive of its own exactly when its path has no trailing slash and
  no doubled one before its last name (`Layer.FindsAloneIffClean`, `Layer.DoubledSlashIsMissed`);
- the tar walker accepts a written archive exactly when it needed no record padding
  (`Ustar.WholeArchiveAcceptedIffUnpadded`, `Ustar.EmptyLayer`);
- canonical image references keep their identity exactly for names with a slash or at most one colon
  (`ImageReference.CanonicalKeepsIdentity`, `ImageReference.PortAndTagIsUnstable`);
- replacing an SSH transport agrees with compiling afresh exactly when port 22 is not declared, loopback publishing is
  available and the manifest's own host port is not contradicted (`Policy.PatchableIsExact`,
  `Policy.DeclaredPort22IsLost`);
- a fetched kernel verifies exactly unless the vminit asset is named like the staged kernel and differs from it
  (`Fetch.Run`, `Fetch.NameClashInstallsWrongKernel`);
- once the engine has ended its stream and what it said has been drained, the Arca pump is over, and a caller
  that keeps its session and whose input does not fail has been given a terminal exactly when the engine sent one
  (`ArcaExec.Session`, `ArcaExec.SilentEnd`).

Module order: `Wrappers`, `Bytes`, `Text`; `Resources`, `AppleCache`, `AppleSaga`, `AppleBackend`, `FakeRuntime`;
`BundleManifest`, `BundleExtract`, `Extraction`, `Tar`, `Ustar`, `Layer`, `Crc`, `Gzip`; `ImageReference`, `Base64`,
`SshKey`, `Policy`, `Translate`, `Lifecycle`; `ExecPump`, `AppleExec`, `ArcaExec`, `SecretInput`; `Fetch`;
`PackageIndex`.
`dafny verify dfyconfig.toml` checks all of it.

## Model

| member | source | states |
|---|---|---|
| AppleCache.ProofContinuity | crates/gascan-apple/src/backend.rs:131-155 | over any trace of inventories, commands, failures and removals whose listings do not contradict themselves, two inventories report an identity with the same proof if and only if every successful inventory between saw it with the same labels and nothing dropped it; then they report the same resource |
| AppleCache.ContinuousKeepsProof | crates/gascan-apple/src/backend.rs:139-155 | while observation is uninterrupted the cache holds the very observation made first |
| AppleCache.InterruptedLosesProof | crates/gascan-apple/src/backend.rs:139-155 | once interrupted, the identity is absent or carries a proof handed out later |
| AppleCache.ObserveAgreeing | crates/gascan-apple/src/backend.rs:138-155 | on a listing whose rows of one identity agree, each returned row is the cached observation if its labels agree and a new one otherwise, and exactly the returned rows stay cached |
| AppleCache.RepeatKeepsProofsIffRowsAgree | crates/gascan-apple/src/backend.rs:138-155 | after any trace, listing the same rows twice keeps every proof if and only if rows of one identity agree in their labels |
| AppleCache.DisagreeingRepeat | crates/gascan-apple/src/backend.rs:138-155 | from any cache and for every listing with two rows of one identity that disagree, the first row of that identity is given another proof the second time, although it never went away |
| AppleBackend.AppleBackend.Observe | crates/gascan-apple/src/backend.rs:131-155 | the loop over a listing is one step of the cache's trace and returns what that step reports |
| AppleBackend.AppleBackend.CurrentFor | crates/gascan-apple/src/backend.rs:158-167 | the first resource of an identity that the runtime's next listing returns, none, or that listing's error |
| AppleBackend.AppleBackend.ReconcileCreated | crates/gascan-apple/src/backend.rs:169-199 | one more listing, and exactly what it adds: each resource it returns that is owned, absent at the start, named in the request and not yet known; a listing that fails adds nothing |
| AppleBackend.AppleBackend.Create | crates/gascan-apple/src/backend.rs:238-391 | against any runtime, with other tasks acting before every operation: the operations made are the starting listing and then each planned command followed by the listing that confirms it, up to the first that fails or is not confirmed; the log holds nothing else of this call, and what is reported is exactly what those operations determine |
| AppleBackend.AppleBackend.CreateAll | crates/gascan-apple/src/backend.rs:253-375 | the plan in order: a command is issued only when the one before it did not fail and the very next listing showed what it makes as the sandbox's own; then the outcome is checked as a whole |
| AppleBackend.AppleBackend.CreateContainer | crates/gascan-apple/src/backend.rs:397-453 | the starting listing, the container's command only if that listing allows it, and one look after it only if the command may have taken effect; what is reported is exactly what these determine |
| AppleBackend.AppleBackend.Remove | crates/gascan-apple/src/backend.rs:486-534 | for each resource in the order containers, volumes, networks: a listing, the delete on its strength, and forgetting the entry, up to the first resource that is not current or whose delete fails; what is reported is exactly what these determine |
| AppleSaga.DeletedOnlyWhatWasContinuouslyObserved | crates/gascan-apple/src/backend.rs:486-534 | a resource recorded by one inventory and deleted on the strength of another was there, unchanged and undeleted, at every successful inventory between |
| AppleSaga.CheckPrecedesDelete | crates/gascan-apple/src/backend.rs:486-534 | in every log the backend can produce, each delete comes after the inventory it names, and that inventory reported the resource with its proof |
| AppleSaga.PlanMakesTopology | crates/gascan-apple/src/backend.rs:238-391 | the planned commands make the request's topology and nothing else |
| AppleSaga.WholePlanMade | crates/gascan-apple/src/backend.rs:238-391 | what the whole plan made is the topology, exactly once unless the request repeats a volume |
| AppleSaga.CreateSucceedsIff | crates/gascan-apple/src/backend.rs:238-391 | create succeeds if and only if the starting listing answers without a clash, the container's command can be built, no volume is repeated, and each command in turn succeeds and is confirmed by the very next listing; it then reports what those listings showed: the whole topology, once each, new |
| AppleSaga.EvidenceWasSeen | crates/gascan-apple/src/backend.rs:238-391 | whatever a create reports, on success or failure, a listing of this call returned, proof included; it is of the request's topology, owned by its sandbox, and absent at the start |
| AppleSaga.FailureIsHonest | crates/gascan-apple/src/backend.rs:169-199 | a failed create reports everything confirmed, each identity once, and after one more listing that answered everything newly present of the topology; it lists once more exactly when a command may have taken effect although it failed or did not fail and was not confirmed |
| AppleSaga.RecreateMeans | crates/gascan-apple/src/backend.rs:397-453 | a recreation succeeds if and only if the starting listing returns every retained resource with its proof and no such container, the command can be built and succeeds, and the next listing shows the container as the sandbox's own; whatever it reports is that container as a listing after the command returned it |
| AppleSaga.RemoveMeans | crates/gascan-apple/src/backend.rs:486-534 | a removal succeeds if and only if each resource in turn is Gas Can's own, is returned as recorded by the listing made for it, and its delete does not fail; nothing but the requested resources is deleted |
| AppleSaga.AppearedMeans | crates/gascan-apple/src/backend.rs:169-199 | what one more look adds was in that listing, is owned and was absent at the start, and nothing newly present of the topology is missing |
| Resources.ValidateRetainedResources | crates/gascan-core/src/runtime.rs:893-925 | counting distinct allowed identities accepts exactly evidence that is the requested volumes and network, each once and owned |
| Resources.ValidateCreatedResources | crates/gascan-core/src/runtime.rs:949-993 | accepts exactly owned, distinct evidence inside the topology, with container and network when required |
| Resources.FromCreatedEvidence | crates/gascan-core/src/runtime.rs:824-856 | the loop keeps the first qualifying observation of each identity, in order |
| Resources.KeptIsExactEvidence | crates/gascan-core/src/runtime.rs:824-856 | what is kept is valid evidence, taken from the input, covering every qualifying identity, and valid evidence is kept whole |
| Resources.SandboxIdIsValidName | crates/gascan-core/src/sandbox.rs:168-199 | every well-formed sandbox id is a well-formed resource name |
| Resources.RemovalOrderIsPermutation | crates/gascan-apple/src/backend.rs:486-534 | grouping a removal by kind keeps every resource as often as it occurs |
| FakeRuntime.FakeRuntime.Plant | crates/gascan-core/src/fake_runtime.rs:199-216 | each seed adds exactly its resource under a new proof, and a container seed its sandbox |
| FakeRuntime.FakeRuntime.Create | crates/gascan-core/src/fake_runtime.rs:668-780 | succeeds exactly when no fault is pending, the sandbox is new and its own, its network is free, its volumes are free or its own, and no fault is met on the way; on every exit nothing present is touched, only the topology is added, and for well-formed names the map grows by exactly the disjoint reported evidence; the sandbox is recorded exactly when its container is |
| FakeRuntime.FakeRuntime.PrepareImage | crates/gascan-core/src/fake_runtime.rs:782-802 | succeeds exactly when no failure is injected and an injected change finds a sandbox; the change alters one sandbox's image and nothing else, and is used up unless the call failed first |
| FakeRuntime.FakeRuntime.CreateContainer | crates/gascan-core/src/fake_runtime.rs:804-879 | a container is made exactly when no fault is pending, the sandbox is new and every retained resource is present unchanged; it is new, under a new proof, and reported on every exit; the call then succeeds exactly without a later fault |
| FakeRuntime.FakeRuntime.ReplaceContainer | crates/gascan-core/src/fake_runtime.rs:804-956 | removing only the container and recreating it leaves each retained resource with its identical proof on every exit, and succeeds exactly when the container is present with its proof, everything retained is, the sandbox is the container's own or new, and no fault is pending |
| FakeRuntime.FakeRuntime.Start | crates/gascan-core/src/fake_runtime.rs:881-897 | succeeds exactly for a known sandbox without an injected failure and changes only its state |
| FakeRuntime.FakeRuntime.Stop | crates/gascan-core/src/fake_runtime.rs:899-910 | succeeds exactly for a known sandbox without an injected failure and changes only its state |
| FakeRuntime.FakeRuntime.Inject | crates/gascan-core/src/fake_runtime.rs:187-277 | each injected fault is added to its own queue and touches nothing else |
| FakeRuntime.FakeRuntime.Remove | crates/gascan-core/src/fake_runtime.rs:912-956 | all or nothing; succeeds exactly when every resource is present with its recorded proof, and removes exactly those and their sandboxes |
| FakeRuntime.FakeRuntime.Run | crates/gascan-core/src/fake_runtime.rs:668-956 | any sequence of calls, with any faults injected between them, goes through states that follow one another by exactly those calls, keeps the invariants and never removes or overwrites a foreign or mismatched resource |
| FakeRuntime.SeedAndRun | crates/gascan-core/src/fake_runtime.rs:335-399 | from any seeding of an empty runtime, after any run of calls and faults that starts there, a sandbox is present if and only if its container resource is, and every foreign resource of that seeding is untouched |
| FakeRuntime.LastSeedStands | crates/gascan-core/src/fake_runtime.rs:335-399 | a seeding leaves each identity it names as the last seed to name it described it |
| FakeRuntime.CreateAndRollBack | crates/gascan-core/src/fake_runtime.rs:701-779 | whatever create's outcome, which is the one its success condition gives, removing its reported evidence restores both maps exactly |
| Lifecycle.CompileCreateAndRollBack | crates/gascan-core/src/fake_runtime.rs:701-779 | for anything that compiles, with its transport replaced or not, create succeeds on its stated condition and removal of its evidence restores the runtime; what does not compile is refused with the compiler's error |
| Lifecycle.Prepare | crates/gascan-core/src/policy.rs:126-253 | what is sent to the runtime is the compiled or restored request, keeps the sandbox's id and has well-formed resource names |
| BundleManifest.RelativePathIsPlain | scripts/src/bundle.rs:893-924 | the path tests accept exactly paths whose every piece is a plain name |
| BundleManifest.DescendantIsBelow | scripts/src/bundle.rs:653-657 | the textual test is being strictly below in the tree |
| BundleManifest.ValidateLink | scripts/src/bundle.rs:926-943 | accepts exactly relative targets that never climb above the bundle root, prefix by prefix |
| BundleManifest.ForwardScanIsComplete | scripts/src/bundle.rs:615-651 | with strict order between neighbours, looking only forward for entries below a symlink finds them all, and paths are distinct |
| BundleManifest.ValidateManifest | scripts/src/bundle.rs:604-651 | accepts exactly canonical manifests within the limits, defined without reference to checking order |
| BundleExtract.ValidatePayload | scripts/src/bundle.rs:574-602 | accepts exactly archives whose entries correspond one to one to the manifest, with the declared kinds, sizes and digests |
| BundleExtract.ValidateExpandedArchive | scripts/src/bundle.rs:548-602 | accepts exactly bundles: a leading manifest that decodes and is canonical, then its entries |
| Extraction.ExactIsUnique | scripts/src/bundle.rs:703-743 | there is only one tree with exactly the given items and their parent directories, so entry order cannot matter |
| Extraction.Staging.EnsureDirectoryPath | scripts/src/bundle.rs:765-780 | succeeds exactly when no non-directory is in the way, and adds exactly the missing directories |
| Extraction.Staging.PlaceNode | scripts/src/bundle.rs:782-813 | writes a file or link exactly where nothing is, with its parents |
| Extraction.Staging.ExtractPass | scripts/src/bundle.rs:713-743 | one pass over the archive places exactly the selected entries, and succeeds exactly when they do not conflict |
| Extraction.ConflictsAreFilesAbove | scripts/src/bundle.rs:703-813 | entries of a validated bundle conflict exactly when a file is listed above another entry |
| Extraction.ExtractValidated | scripts/src/bundle.rs:703-711 | both passes succeed exactly when no file lies above another entry, and then the tree is precisely the manifest's entries and their parent directories |
| Extraction.ManifestMayPutFileBelowFile | scripts/src/bundle.rs:604-651 | validation alone accepts a manifest with a file below a file |
| Extraction.FileBelowFileIsRefused | scripts/src/bundle.rs:703-813 | a whole bundle of that kind passes validation, whatever the hash, and its extraction fails |
| Tar.ValidateTarLayout | scripts/src/bundle.rs:490-530 | accepts exactly headers with padded payloads closed by two zero blocks at the end of the file, with one reading; no 64-bit operation overflows |
| Tar.WalkIsComplete | scripts/src/bundle.rs:490-530 | every layout is read back as the members it was made of |
| Tar.WalkIsSound | scripts/src/bundle.rs:490-530 | whatever the walk reads is a layout of the bytes |
| Ustar.OctalReadsBack | crates/gascan-oci-fixture/src/lib.rs:296-318 | a number printed in octal at a width that fits reads back |
| Ustar.HeaderReadsBack | crates/gascan-oci-fixture/src/lib.rs:296-318 | a written header is a nonzero block whose size field reads back |
| Ustar.KindReadsBack | crates/gascan-oci-fixture/src/lib.rs:296-318 | its type flag and the low twelve bits of its mode read back |
| Ustar.ChecksumIsCorrect | crates/gascan-oci-fixture/src/lib.rs:296-318 | the checksum field holds the sum of the header with that field as spaces |
| Ustar.UstarHeader | crates/gascan-oci-fixture/src/lib.rs:296-318 | the in-place writer produces that header |
| Ustar.WriteLayer | crates/gascan-oci-fixture/src/lib.rs:269-294 | cut at its terminator the archive is a layout whose members are the given directories and files with their kinds, names, modes, sizes and contents; the rest is zero padding to a record |
| Layer.DerivedMeans | crates/gascan-oci-fixture/src/lib.rs:208-267 | the derived directories are exactly those some entry names or lies in, each with the mode the last entry to name it gave, and 0755 if none did |
| Layer.PushAncestors | crates/gascan-oci-fixture/src/lib.rs:231-256 | one walk down a path adds exactly its missing directories and sets the mode of the last one only for a named directory |
| Layer.Directories | crates/gascan-oci-fixture/src/lib.rs:227-267 | each derived directory is listed once, and none before one it lies in |
| Layer.FileFindsItsDirectories | crates/gascan-oci-fixture/src/lib.rs:208-267 | a file whose path has no trailing slash and no doubled one before its last name finds every directory on its way in the archive |
| Layer.FindsAloneIffClean | crates/gascan-oci-fixture/src/lib.rs:208-267 | alone in its archive, a file finds every directory on its way if and only if its path is clean in that sense |
| Layer.DoubledSlashIsMissed | crates/gascan-oci-fixture/src/lib.rs:208-267 | a file at `a//b` is archived under that name without the directory `a//` |
| Layer.Archive | crates/gascan-oci-fixture/src/lib.rs:227-294 | the whole archive of a list of entries: the derived directories in that order, then the files, all read back by the walker |
| Ustar.WholeArchiveAcceptedIffUnpadded | scripts/src/bundle.rs:490-530 | the walker accepts a whole written archive exactly when it needed no record padding |
| Ustar.EmptyLayer | scripts/src/bundle.rs:490-530 | the empty layer is padded to one record and the walker refuses it |
| Crc.Crc32 | crates/gascan-oci-fixture/src/lib.rs:354-367 | the nested loops compute the bit-by-bit checksum |
| Crc.PolynomialValue | crates/gascan-oci-fixture/src/lib.rs:359-360 | the constant, written as bits, is 0xedb88320 |
| Crc.BitwiseIsTableForm | crates/gascan-oci-fixture/src/lib.rs:354-367 | for every message it equals the table form of section 8 of RFC 1952 |
| Crc.OneByteChangesCrc | crates/gascan-oci-fixture/src/lib.rs:354-367 | changing any one byte of any message changes the checksum |
| Gzip.Gzip | crates/gascan-oci-fixture/src/lib.rs:327-348 | the chunk loop writes a member that a reader for section 2.3 of RFC 1952 and section 3.2.4 of RFC 1951 turns back into the input |
| Gzip.InflateRecovers | crates/gascan-oci-fixture/src/lib.rs:331-341 | reading the blocks returns the data and stops exactly where they end, at the one final block |
| Gzip.GunzipRecovers | crates/gascan-oci-fixture/src/lib.rs:327-348 | the round trip holds for every byte string |
| Gzip.DamageIsRefused | crates/gascan-oci-fixture/src/lib.rs:342-347 | stored data that differs in one byte from what was checksummed is refused |
| ImageReference.CanonicalKeepsIdentity | crates/gascan-core/src/runtime.rs:704-715 | splitting and reassembling an accepted reference keeps its identity, and is then a fixed point, exactly when its name is stable |
| ImageReference.Reassembled | crates/gascan-arca/src/translate.rs:403-414 | a valid repository and digest put together are accepted exactly when the repository is itself a valid name, and split back at the same place |
| ImageReference.StripTagIsFinal | crates/gascan-core/src/runtime.rs:717-770 | stripping the tag leaves nothing that reads as a tag exactly for names with a slash or at most one colon |
| ImageReference.PortAndTagIsUnstable | crates/gascan-core/src/runtime.rs:704-715 | for every host, port and tag, `host:port:tag` is accepted, and its canonical form is taken for another repository, or is not acceptable at all when the port is longer than a tag may be |
| ImageReference.SameImageSameSpelling | crates/gascan-core/src/runtime.rs:688-696 | two accepted references are the same image exactly when their canonical spellings are equal |
| ImageReference.RepositoryOfAgrees | crates/gascan-oci-fixture/src/lib.rs:515-521 | the fixture's splitter agrees with the core's on every accepted reference |
| Base64.DecodesIffEncoded | crates/gascan-core/src/policy.rs:347-349 | the strict decoder accepts a text as some bytes exactly when it is their encoding by section 4 of RFC 4648 |
| SshKey.WireReadsBack | crates/gascan-core/src/policy.rs:359-363 | reading a string of section 5 of RFC 4251 gives its content and what follows |
| SshKey.WireWritesBack | crates/gascan-core/src/policy.rs:359-363 | whatever is read is what such a string and its rest spell |
| SshKey.AcceptedIffPrinted | crates/gascan-core/src/policy.rs:335-357 | a text is accepted if and only if it is `ssh-ed25519`, one space and the base 64 of the blob of section 4 of RFC 8709 for some 32-byte key, and that key is unique |
| Policy.LoadSsh | crates/gascan-core/src/manifest.rs:477-496 | SSH is on where asked for and, by default, with a network; loading refuses exactly SSH without a network, a host port without SSH, and a host port below 1024 |
| Policy.CompilePorts | crates/gascan-core/src/policy.rs:431-467 | the pass with a set of used ports computes the ports or the first reason against them |
| Policy.DeclaredPortsMeaning | crates/gascan-core/src/policy.rs:439-456 | declared ports compile exactly when nonzero and distinct, each to itself in order |
| Policy.RestoreSshTransport | crates/gascan-core/src/policy.rs:126-171 | the in-place edits compute the restored request or the first error |
| Policy.PatchingEqualsRecompiling | crates/gascan-core/src/policy.rs:126-253 | for a manifest with SSH enabled, restoring any transport onto a request compiled with any other equals compiling with it, errors included |
| Policy.PatchableIsExact | crates/gascan-core/src/policy.rs:126-253 | when a restoration succeeds, that equality holds exactly on the stated condition |
| Policy.DeclaredPort22IsLost | crates/gascan-core/src/policy.rs:126-171 | with port 22 declared and no transport before or after, compiling and restoring both succeed, and restoring loses the port |
| Policy.LastRestorationWins | crates/gascan-core/src/policy.rs:126-171 | on any request the last restoration wins; restoring twice is restoring once |
| Policy.WorkspaceLeavesSshAlone | crates/gascan-core/src/policy.rs:274-333 | the workspace variables do not name the SSH key |
| Policy.CompiledIsSealed | crates/gascan-core/src/policy.rs:173-253 | every compiled request has an accepted image, the one writable workspace mount, its three owned volumes, good loopback ports, limits, init and ownership |
| Policy.RestoredIsSealed | crates/gascan-core/src/policy.rs:126-171 | restoring a transport keeps all of that |
| Policy.SealedHasValidNames | crates/gascan-core/src/policy.rs:493-517 | every resource name of such a request is well formed, which rollback relies on |
| Translate.PortMappings | crates/gascan-arca/src/translate.rs:96-131 | accepts exactly loopback, nonzero ports with distinct host ports |
| Translate.RuntimePorts | crates/gascan-arca/src/translate.rs:419-455 | accepts exactly real ports with distinct host ports and restores the loopback address |
| Translate.PortsRoundTrip | crates/gascan-arca/src/translate.rs:416-455 | to the wire and back is the identity, order included |
| Translate.WireRoundTrip | crates/gascan-arca/src/translate.rs:416-455 | from the wire and back is the identity, order included |
| Translate.ArcaCreate | crates/gascan-arca/src/translate.rs:190-211 | translates exactly the expressible requests |
| Translate.SealedSurvivesTheWire | crates/gascan-arca/src/translate.rs:190-211 | every compiled or restored request is expressible, and the wire form loses only the image's tag |
| Translate.RemovalOwner | crates/gascan-arca/src/translate.rs:234-268 | a removal translates exactly when it is not empty and one sandbox owns all of it |
| Translate.ValidateView | crates/gascan-apple/src/translate.rs:172-248 | the Apple checks accept exactly the stated requests |
| Translate.SealedPassesApple | crates/gascan-apple/src/translate.rs:172-248 | a compiled or restored request passes exactly for the workspace user and a canonical mount source |
| Translate.TranslationIsTotal | crates/gascan-core/src/policy.rs:173-253 | whatever compiles translates for both runtimes, also after its transport was replaced |
| ExecPump.Pump.Begin | crates/gascan-apple/src/backend.rs:551-563 | the initial write: when it fails the error is the only thing reported and the pump is over |
| ExecPump.Pump.Step | crates/gascan-apple/src/backend.rs:564-617 | one pass of the select in each branch: what is taken, delivered, answered, and when the pump ends |
| AppleExec.Attachment.ReadLine | crates/gascan-apple/src/attach.rs:308-369 | one pass of the reader: exactly the meaning of each line until the first terminal, and a terminal before it stops |
| AppleExec.Session | crates/gascan-apple/src/backend.rs:551-620 | for every interleaving the caller sees helper output in order with at most one terminal, last; failed input ends the pump; if the session is held, exactly what the helper said, exactly one terminal when the pump ends, and nothing missing once drained |
| ArcaExec.Session | crates/gascan-arca/src/backend.rs:291-393 | the same for the engine stream: failed input ends the pump, and so does a stream that has ended and been drained; a caller that keeps its session and whose input does not fail has then been given a terminal exactly when the engine sent one |
| ArcaExec.SilentEnd | crates/gascan-arca/src/backend.rs:291-393 | an engine that ends its stream at once ends the pump with nothing delivered |
| SecretInput.Stream.Poll | crates/gascan/src/guest.rs:330-360 | one poll gives the next frame of what remains |
| SecretInput.FramesCarrySecret | crates/gascan/src/guest.rs:330-360 | the frames are within the limit and together are the secret |
| SecretInput.Binder.ValidateFrame | crates/gascan-proto/src/lib.rs:265-276 | the first nonempty token binds and every later frame must carry it |
| SecretInput.PollToEnd | crates/gascan/src/guest.rs:303-360 | polling ends; frames within the limit carry the secret and exactly one close comes last; no secret and an empty secret differ; a binder accepts every frame exactly when the token is not empty |
| Fetch.RequireFile | crates/gascan-core/src/engine_artifacts.rs:438-455 | accepts exactly a present file of the expected length and digest |
| Fetch.RequireOciManifest | crates/gascan-core/src/engine_artifacts.rs:465-518 | accepts exactly a layout whose index names the one expected manifest and whose blob of that name matches it |
| Fetch.VerifyInstalled | crates/gascan-core/src/engine_artifacts.rs:647-659 | accepts exactly an installed kernel and layout that match the pin |
| Fetch.Installer.StageKernel | crates/gascan-core/src/engine_artifacts.rs:571-597 | makes exactly the staging operations of the kernel and succeeds exactly when both files arrive as pinned |
| Fetch.Installer.StageVminit | crates/gascan-core/src/engine_artifacts.rs:599-626 | makes exactly the staging operations of vminit and succeeds exactly when the asset arrives as pinned and unpacks to a good layout |
| Fetch.Installer.Promote | crates/gascan-core/src/engine_artifacts.rs:628-637 | makes exactly the four operations of promotion in their order, stopping at a rename that fails, and succeeds exactly when both renames happen |
| Fetch.Run | crates/gascan-core/src/engine_artifacts.rs:539-638 | a whole fetch is exactly its operations in order, and the disk is what they make of the old one; cut off after any of them it leaves a safe disk; it succeeds if and only if everything arrives, verifies and can be moved, and then the installation verifies, with the exact exception; staging is removed |
| Fetch.CrashSafe | crates/gascan-core/src/engine_artifacts.rs:539-638 | after every prefix of the operations: if the fetch never promotes, nothing live has changed; otherwise each live path holds its old content, nothing, or what was verified |
| Fetch.NothingLiveIsStaged | crates/gascan-core/src/engine_artifacts.rs:565-626 | no prefix of the operations before promotion changes anything live |
| Fetch.PromotedIsVerified | crates/gascan-core/src/engine_artifacts.rs:565-626 | whenever promotion begins, the staged kernel and layout verify against what they were last checked with |
| Fetch.PromotionInstalls | crates/gascan-core/src/engine_artifacts.rs:628-638 | a completed promotion leaves an installation that verifies unless the vminit asset is named like the staged kernel and is not that kernel |
| Fetch.NameClashInstallsWrongKernel | crates/gascan-core/src/engine_artifacts.rs:600-606 | whatever the digest function, with the vminit asset named `vmlinux` every step can succeed and the installed kernel not verify |
| PackageIndex.SignedRecords | scripts/ubuntu-package-cache.py:39-71 | one pass: a group is usable if and only if it occurs, no index holds it twice and all its stanzas are identical, and its record is that stanza's |
| PackageIndex.OrderDoesNotMatter | scripts/ubuntu-package-cache.py:39-71 | which groups agree, and on what, is the same for any order of indexes |
| PackageIndex.ReadInTwoOrders | scripts/ubuntu-package-cache.py:115-123 | reading the indexes in two orders accepts the same groups with the same records |

## Left out

- FakeRuntime.FakeRuntime.Run: does not say when a create uses up the fault injected after so many mutations, nor how many proofs it issues; every other part of each state is fixed by the state before it and the call.
- ExecPump.Pump.Step: channel capacities are not modelled, so waiting for room is not a separate outcome of a send.
- Listing and parsing of runtime records before the proof cache sees them, and the lock itself: cache events are taken in lock order.
- Persistence, gates, logs, hang injection and exec results of the in-memory runtime.
- The helpers that edit one map of the in-memory runtime alone (`set_sandbox_ports`, `seed_container_resource`, `forget_resource`); the last two break the correspondence of sandboxes and containers on purpose.
- Zstandard, SHA-256, inode and device identity, permission bits and symlink races of bundles; resolution of symlink chains after extraction.
- The encoding of layer paths as bytes is a parameter of `Layer.Archive`; reading of host files into layer entries is not part of this model.
- The Apple command line built from an accepted request, whose members would only restate the format.
- Asset names that are not plain file names, two fetches at once, and a crash inside one file system operation other than a removal.
- Encoding of helper frames and the writer task's acknowledgements: a write succeeds, fails or is interrupted.
- `AttachSession::exit`, `read_until`, bounded capture of guest output and wiping of secret memory.
- Field parsing of package stanzas, package file checks and the copying of cached files.
- The daemon, its protocol records, the command line, diagnostics and error code tables.
