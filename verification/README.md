# The Secrets Store Sync Controller, verified

The controller keeps a Kubernetes `Secret` equal to what a secret provider serves for a `SecretSync`
object. This project models its reconciler, its two caches, its PEM and secret-data builder, its
periodic resynchronisation and its generated deep copies, and proves what they keep over all runs.

`dafny verify dfyconfig.toml` checks everything.

## How the program maps to the model

| module | what it holds | source |
|---|---|---|
| `Clusters` | API objects, conditions, compare-and-swap status writes, the unconditional patch | `internal/controller/conditions.go`, `api/v1alpha1/secretsync_types.go` |
| `Reconciliation` | one reconciliation as a function of the cluster and of what each call in it returns | `internal/controller/secretsync_controller.go:111-276` |
| `Runs` | reconciliations interleaved with users who create, change and delete the object; the invariant | the same |
| `Guarantees` | what every run keeps: stored hashes, latched failures, quiescence | the same |
| `Agreement` | when a stored hash can be trusted, exactly, and which reconciliations keep it so | `internal/controller/secretsync_controller.go:159-214` |
| `Refinement` | which runs end up to date; skipping refines the reconciler that always patches | `internal/controller/secretsync_controller.go:159-211` |
| `Examples` | runs from an empty cluster where a tidier claim is false | `internal/controller/secretsync_controller.go:111-218` |
| `Controller` | the imperative reconciler, proved equal to `Reconciliation.Reconcile` | `internal/controller/secretsync_controller.go`, `internal/controller/conditions.go` |
| `Text`, `Json`, `StateHash` | numerals, JSON and base64 text with left inverses, and the hash preimage | `internal/controller/secretsync_controller.go:368-401` |
| `SecretData`, `Extraction` | certificate and key extraction, the map of target keys; what they give for streams, bundles and files | `pkg/util/secretutil/secret.go` |
| `Tokens`, `TokenRuns`, `TokenKeys`, `TokenManager` | refresh arithmetic and cache key, the concurrent cache, what the key must distinguish, the object that owns the cache | `pkg/token/token_manager.go` |
| `ProviderRuns`, `ProviderClients` | the concurrent client cache at its lock points, the object that owns it, a provider's answer | `pkg/provider/provider_client.go` |
| `Polling` | the resynchronisation loop over everything its selects may find | `internal/controller/secretsync_controller.go:454-493` |
| `DeepCopy` | the generated copies on a heap, and the patch that writes a label into one | `api/v1alpha1/zz_generated.deepcopy.go` |
| `Consistency` | codecs and a key derivation that satisfy all laws assumed elsewhere | none |

**The cluster.** A `Cluster` holds the stored SecretSync, every version of it that was ever stored, the
Secret, and a log of all patches that took effect. A read returns the current object, *any* older
version, or an error. A status write is accepted only if the version it was read at is still stored; the
patch is unconditional. Each write has one of three outcomes: it takes effect and says so, it has no
effect, or it takes effect although it reports an error. Which one is part of the reconciliation's
inputs, and theorems quantify over them. A reconciliation is one step of a run. A user's change in the
middle of one shows in two ways that the inputs cover: the read was of an older version, or a later
status write is lost because the version has moved on.

**The two main results about the reconciler.** `Runs.ReachableInv` holds for every run, whatever fails
and however stale the reads are; `Guarantees.StoredVersionsAreSound` draws from it that a stored hash
is the hash of a patch that was applied and reported. `Refinement.SkippingRefinesAlwaysPatching`
compares two reconcilers event by event, and `Refinement.EndsUpToDate` says that one that ends well,
by patching or by skipping, leaves the Secret that the current object and the provider's current data
describe. Both rest on the hash preimage being uniquely decodable (`StateHash.DecodePreimageInverse`)
and on the key derivation having no collision among the finitely many states that the run plans.

Both also need *agreement* (`Agreement.Agrees`): if a hash is stored, no failure is latched, and a patch
of the current generation has that hash, then the Secret is still that patch.
`Agreement.AgreementIsExact` shows that this is exactly what makes every skip right, and
`Agreement.AgreementKeptExactly` is the if-and-only-if for one reconciliation, with stale reads and lost
writes, by guards that hold or fail before it. A creation, a change of the spec and a recorded success
establish agreement whatever was lost before (`Agreement.AgreementEstablished`), so a user's change in the
middle of a reconciliation does no harm (`Refinement.ChangeForgivesLoss`). Runs with fresh reads whose
patch outcomes are recorded always keep it (`Refinement.CarefulRunsKeep`). `Examples.LostRecordExample`
and `Examples.StaleReadExample` are runs that break it and end with the wrong Secret.

**Methods and functions.** Code that updates state is a class with methods (`Controller`,
`TokenManager.Manager`, `ProviderClients.PluginClientBuilder`, `DeepCopy`, the loops of `SecretData` and
`Polling`). Each is proved equal to, or a step of, the function about which the theorems speak.

### What the code does that its documentation, or a reader, may not expect

- The comment on `SyncHash` (`api/v1alpha1/secretsync_types.go:122-134`) promises HMAC with bcrypt and
  a check that a rotation is due. The code derives a PBKDF2 key and looks at no time
  (`internal/controller/secretsync_controller.go:168-181`, `394-400`). The model follows the code.
- In the update phase a patch that succeeds with an unchanged hash does not clear the failure that forced
  it, so each further reconciliation patches and writes again (`Guarantees.QuiescentExactly`,
  `Guarantees.StuckForever`, and `Examples.StuckExample` for a run that gets there).
- A failed create still stores SecretUpdated as true and up to date (`Guarantees.PatchFailureRecorded`,
  `Examples.FailedCreateExample`).
- If the status write after a patch is lost and the provider then returns to its earlier answer, the
  earlier hash matches and the wrong Secret stays (`Examples.LostRecordMisleads`). A stale read has the
  same effect (`Examples.StaleReadMisleads`).
- A token with no stated lifetime is served after it expired, and then the collector is visible
  (`Tokens.ServedUnexpiredExactly`, `TokenRuns.CollectorShowsWithoutLifetime`).
- A request that loses the race to dial a provider neither uses nor closes its connection, and no later
  clean-up does (`ProviderRuns.RaceAbandons`, `ProviderRuns.AbandonedExactly`).
- If no parser accepts a private key the result is an empty block labelled `PRIVATE KEY` and no error
  (`SecretData.RenderedKeyKeepsTheKey`, `Consistency.UnknownKeyIsEmptied`).
- With a `|` in a UID two states would share a preimage (`StateHash.SeparatorInUidCollides`). UIDs are
  UUIDs, so the type `Clusters.Uid` excludes it.

## Model

| member | source | states |
|---|---|---|
| Runs.ReachableInv | internal/controller/secretsync_controller.go:111-218 | In every run from an empty cluster, with failing or misreported calls and stale reads: versions are unique, UID and generation determine the spec, each stored status is consistent, each stored hash is that of an applied and reported patch, and the Secret is the last applied patch |
| Runs.ReconcileKeepsInv | internal/controller/secretsync_controller.go:111-218 | One reconciliation keeps that invariant, for every choice of outcomes and for the variant that always patches |
| Runs.InitialConditionsOk | internal/controller/conditions.go:99-117 | Initialisation stores exactly SecretCreated and SecretUpdated, both unknown, in that order, and no hash |
| Runs.FailureOk | internal/controller/conditions.go:71-97 | A failure set under the current phase keeps hash and time, is found by the retry search, and never takes back a successful create |
| Runs.MarkedConditions | internal/controller/secretsync_controller.go:183-188 | Which conditions the success marks leave: both in the create phase, SecretUpdated if the hash changed, else the old ones |
| Runs.SuccessOk | internal/controller/secretsync_controller.go:183-196 | The status after a success is consistent: two conditions, hash and time set together, create recorded as successful |
| Runs.PatchFailureOk | internal/controller/secretsync_controller.go:190-208 | Rolling back hash and time restores a consistent status with the failure recorded, while a failed create leaves SecretUpdated true |
| Guarantees.StoredVersionsAreSound | internal/controller/secretsync_controller.go:190-214 | The stored hash never leads the Secret: every stored non-empty hash is that of a patch applied, reported as successful and built from a version of the same object that is not newer; no stored status is half-written |
| Guarantees.StatusNeverRegresses | internal/controller/secretsync_controller.go:122-134 | Between any two points of a run, for the same object: the hash stays set, a successful create stays, the sync time and the generation do not decrease, conditions are not lost |
| Guarantees.FailureIsLatched | internal/controller/secretsync_controller.go:170-206 | A step from a stored failure to none is a reconciliation that applied one patch reported as successful |
| Guarantees.OnlySuccessClearsFailure | internal/controller/secretsync_controller.go:170-211 | Over runs: between a failing moment and a later one without a failure, for the same object, lies such a reconciliation |
| Guarantees.SameObjectBefore | internal/controller/secretsync_controller.go:381-390 | An object stored at two moments of a run was stored at every moment between, since UIDs are never reused |
| Guarantees.FailureForcesAttempt | internal/controller/secretsync_controller.go:170-181 | While a failure is stored, a reconciliation that gets past the hash attempts the patch even if the hash is unchanged; otherwise it ends with the refusal's reason |
| Guarantees.FreshStep | internal/controller/secretsync_controller.go:115-134 | On a fresh read a reconciliation is either a failed initialisation or the action on the object with both conditions and the same spec, hash and failures |
| Guarantees.SuccessRecorded | internal/controller/secretsync_controller.go:183-214 | A recorded success stores the hash of its own plan and the current time, applies exactly one patch, and leaves a failure exactly if there was one and the hash is unchanged |
| Guarantees.RefusalRecorded | internal/controller/secretsync_controller.go:139-165 | A refusal stores its reason under the current phase, keeps hash and time, and touches no Secret |
| Guarantees.PatchFailureRecorded | internal/controller/secretsync_controller.go:199-208 | A failed patch stores the failure, restores hash and time, changes the Secret only if the call took effect unreported, and leaves SecretUpdated true if and only if no hash was stored, that is, after a failed create |
| Guarantees.QuiescentExactly | internal/controller/secretsync_controller.go:167-188 | After a recorded success the next reconciliation with the same answers does nothing if and only if the hash was new when that success began, by the guard of the source, and attempts the patch again if and only if it was not |
| Guarantees.QuiescentForever | internal/controller/secretsync_controller.go:167-181 | After a recorded success with a new hash, any number of reconciliations with the same answers leave everything but the clock as it was |
| Guarantees.UnchangedHashIsStuck | internal/controller/secretsync_controller.go:183-188 | A recorded success leaves a latched failure if and only if the hash was not new when it began |
| Guarantees.StuckForever | internal/controller/secretsync_controller.go:183-188 | Such a failure outlives any number of successful, recorded patches with the same answers, each of which patches once more |
| Guarantees.ReconcileKeepsSpec | internal/controller/secretsync_controller.go:111-218 | No reconciliation changes UID, generation or spec, or creates or deletes the object |
| Guarantees.OnlySpecChangesRequeue | internal/controller/secretsync_controller.go:403-428 | The update predicate passes exactly changes of the spec, so none of the controller's own writes, and those change nothing that is hashed |
| Guarantees.PlannedExactly | internal/controller/secretsync_controller.go:136-165 | A patch is planned exactly if the reserved key is neither a label with a value nor an annotation, both reads, the provider, every entry and the hash succeed; its data has the content of the last entry for each key |
| Guarantees.ReservedMetadata | internal/controller/secretsync_controller.go:220-232 | The reserved key is refused as a label with a value, and as an annotation with or without one, and nothing else is |
| Guarantees.RefusalsHaveReasons | internal/controller/secretsync_controller.go:139-165 | Each cause of a refusal gives its reason: invalid label, invalid annotation, no provider class or client, no parameters, provider error, incomplete files, no hash; an earlier one hides a later one |
| Guarantees.PatchKeepsUserMetadata | internal/controller/secretsync_controller.go:326-350 | A planned patch has the object's type, annotations and UID, keeps every label of the user and adds only the reserved one, empty |
| Refinement.SkippingRefinesAlwaysPatching | internal/controller/secretsync_controller.go:159-211 | Over every run that reads what is stored and keeps agreement, the Secret, the object and the number of conditions are those of the reconciler that ignores the hash and always patches, given no collision among the states the run plans |
| Refinement.CarefulRunsRefine | internal/controller/secretsync_controller.go:159-211 | In particular over every run with fresh reads whose patch outcomes are recorded |
| Refinement.CarefulRunsKeep | internal/controller/secretsync_controller.go:159-214 | Those runs keep agreement |
| Refinement.ChangeForgivesLoss | internal/controller/secretsync_controller.go:159-214 | After a change of the spec, whatever a reconciliation reads and whichever of its writes are lost, the next skip is right |
| Refinement.EndsUpToDate | internal/controller/secretsync_controller.go:159-211 | If agreement was established at some point of a run and kept since, then a reconciliation that skips or succeeds, and every fault-free one, ends with the Secret equal to the patch for the current spec and provider data |
| Refinement.SyncedSecret | internal/controller/secretsync_controller.go:318-364 | Every reconciliation that reports success, whatever it read, has written a Secret with the type, annotations and UID of the object it read, its labels and the reserved one, and for each key the content of its last entry |
| Refinement.UpToDateMeans | internal/controller/secretsync_controller.go:328-350 | The same field by field for every Secret that is up to date |
| Agreement.SkipIsRight | internal/controller/secretsync_controller.go:179-181 | Under agreement, where the hash makes it skip, the Secret already is what patching would make it |
| Agreement.AgreementIsExact | internal/controller/secretsync_controller.go:167-181 | Agreement holds if and only if every reconciliation of the current object that skips, whatever the provider answers, leaves the right Secret |
| Refinement.FaultFreeEndsWell | internal/controller/secretsync_controller.go:111-218 | A fault-free reconciliation skips or succeeds |
| Agreement.AgreementKeptExactly | internal/controller/secretsync_controller.go:111-218 | One reconciliation, whatever it reads and loses, keeps agreement if and only if it attempts no patch, the patch has no effect, the version read is still stored and the status write takes effect, the stored hash cannot make a run skip, no patch of the current generation has that hash, or the patch leaves the Secret as it is |
| Agreement.StaleStep | internal/controller/secretsync_controller.go:115-214 | A reader of a version that is no longer stored changes nothing but the Secret |
| Agreement.AttemptKept | internal/controller/secretsync_controller.go:183-214 | The same condition for the patch attempt alone |
| Agreement.AgreementEstablished | internal/controller/secretsync_controller.go:199-214 | A creation, a change of the spec, a deletion and a recorded success establish agreement whatever was lost before |
| Agreement.RunsAgree | internal/controller/secretsync_controller.go:159-214 | Agreement holds at the end of every run in which it was established at some point and kept since |
| Agreement.AppliedWerePlanned | internal/controller/secretsync_controller.go:159-199 | In every run each applied patch carries a state planned by one of its reconciliations, and could be planned again |
| Examples.LostRecordMisleads | internal/controller/secretsync_controller.go:210-214 | If the record of a successful patch is lost and the provider returns to its earlier answer, the next reconciliation skips and the Secret is wrong |
| Examples.LostRecordExample | internal/controller/secretsync_controller.go:210-214 | A run of three actions from an empty cluster that does this |
| Examples.StaleReadMisleads | internal/controller/secretsync_controller.go:115-120 | A stale read does the same although no call misreports: the patch is applied, its record is refused, and once the provider reverts the next reconciliation skips over the wrong Secret |
| Examples.StaleReadExample | internal/controller/secretsync_controller.go:115-120 | A run of three actions from an empty cluster that does this |
| Examples.StuckExample | internal/controller/secretsync_controller.go:183-188 | A run from an empty cluster that ends with a latched failure which no further success with the same answer clears |
| Examples.FailedCreateExample | internal/controller/secretsync_controller.go:183-208 | A run of two actions whose create patch never took effect ends with SecretUpdated true, no patch applied and no hash stored |
| Examples.CarefulRunSkips | internal/controller/secretsync_controller.go:179-181 | Such careful runs exist: creating an object and reconciling it twice skips the second time |
| Clusters.SetConditionMeaning | internal/controller/conditions.go:78-86 | The condition is set, those of other types stay, nothing else is added, and the list grows only for a new type |
| Runs.OneWriterWins | internal/controller/conditions.go:92-94 | Of two status writes from one version only the first accepted takes effect, and a write from a version that is no longer stored has none |
| Controller.Reconcile | internal/controller/secretsync_controller.go:111-218 | The imperative reconciler leaves the cluster and the verdict of the function `Reconciliation.Reconcile`, for every input |
| Controller.SyncSecret | internal/controller/secretsync_controller.go:183-217 | Marking success, setting hash and time in place, patching and rolling back compute the attempt on values |
| Controller.PlanSecret | internal/controller/secretsync_controller.go:136-165 | The refusals in the order of the source |
| Controller.FindFailure | internal/controller/secretsync_controller.go:170-177 | The loop finds a failed condition if and only if some condition has a retry reason |
| Controller.FetchSecretsFromProvider | internal/controller/secretsync_controller.go:234-276 | Each outcome of the provider's side gives its reason, and files give the data built from them |
| Controller.UpdateStatusConditions | internal/controller/conditions.go:71-97 | The condition is set in place; if asked for, the status is written, and the object in hand is then the stored one exactly if the write was accepted and reported |
| Controller.InitConditions | internal/controller/conditions.go:99-117 | Both conditions are set and written, and success means the write was accepted and reported |
| Controller.SyncObject.SetStatusCondition | internal/controller/conditions.go:86 | The in-place upsert computes `Clusters.SetCondition` |
| StateHash.DecodePreimageInverse | internal/controller/secretsync_controller.go:368-398 | The preimage is uniquely decodable: secret data, both UIDs and generations, and a ForceSynchronization text with any characters come back |
| StateHash.SyncHashInjective | internal/controller/secretsync_controller.go:394-400 | Equal stored hashes stand for equal states, given no collision of the key derivation among them |
| StateHash.HashText | internal/controller/secretsync_controller.go:394-400 | The stored text is `v1:` and two lower-case hexadecimal digits for each byte of the key derived from the preimage with the SecretSync's UID as salt |
| StateHash.SaltSeparatesObjects | internal/controller/secretsync_controller.go:394-398 | A derivation that keeps salts apart keeps the hashes of different objects apart |
| StateHash.PreimageExample | internal/controller/secretsync_controller.go:370-392 | The hashed bytes for one key with one byte |
| StateHash.SeparatorInUidCollides | internal/controller/secretsync_controller.go:380-392 | Two different states with one preimage when a UID contains the separator |
| Json.ParseMarshal | internal/controller/secretsync_controller.go:370-376 | The serialised data parses back to the same map for all keys and values; nil and empty maps and values stay apart |
| Json.ParseBase64Text | internal/controller/secretsync_controller.go:370 | Base64 text decodes to the bytes it was made from |
| Json.ParseEscaped | internal/controller/secretsync_controller.go:370 | An escaped key is recovered together with what follows its closing quote |
| Json.SortedKeys | internal/controller/secretsync_controller.go:370 | The keys of the map, each once, in strictly increasing order |
| Text.ParseIntText | internal/controller/secretsync_controller.go:376-387 | Decimal text determines the number, negative ones included |
| Text.TakeBytesOfPrefix | internal/controller/secretsync_controller.go:374-376 | The byte length in front of the data is where the data ends, whatever follows |
| Text.BytesHexInjective | internal/controller/secretsync_controller.go:400 | The hexadecimal text determines the derived key |
| Text.TrimSpaceMeaning | pkg/util/secretutil/secret.go:160-161 | Trimming removes white space at both ends, all of it, and nothing else |
| Text.SpacesOf | pkg/util/secretutil/secret.go:160-161 | The 25 code points that count as white space |
| SecretData.GetCert | pkg/util/secretutil/secret.go:52-83 | The loops over the shrinking PEM stream and the PKCS #12 blocks give the encodings of the certificate blocks, or the decoder's error |
| SecretData.Certificates | pkg/util/secretutil/secret.go:59-62 | A block is kept if and only if it occurs and is a certificate |
| SecretData.CertificatesOfConcat | pkg/util/secretutil/secret.go:54-64 | The filter distributes over concatenation, so it keeps order and multiplicity |
| Extraction.CertificatesOfStream | pkg/util/secretutil/secret.go:52-83 | A stream with a certificate yields exactly its certificates in order, a stream without one those of the PKCS #12 bundle that follows, nil if there are none, or the bundle's error |
| Extraction.StreamBlocks | pkg/util/secretutil/secret.go:54-64 | Decoding walks a stream block by block and leaves what is not PEM |
| SecretData.CertificatePartIdempotent | pkg/util/secretutil/secret.go:52-83 | The output is a PEM stream of exactly the emitted certificates, and extraction maps it to itself; of the PEM codec only certificates and key blocks without headers need to round-trip |
| SecretData.GetPrivateKey | pkg/util/secretutil/secret.go:86-153 | Both loops and the parser cascade compute the key of the last block that is not a certificate |
| Extraction.KeyOfStream | pkg/util/secretutil/secret.go:91-152 | The key is that of the last block of the stream that is not a certificate, whatever stands before and after it; otherwise that of the last private key of the PKCS #12 bundle that follows, an empty block if it has none, or the bundle's error. PKCS #1 and PKCS #8 RSA keys come out as PKCS #1, EC keys as SEC 1, by the parser that accepts them |
| Extraction.KeyIsKept | pkg/util/secretutil/secret.go:118-152 | The output is one block labelled as a private key that holds the key that was read |
| SecretData.RenderedKeyKeepsTheKey | pkg/util/secretutil/secret.go:118-152 | The label names the form of the bytes, the bytes parse to the key that was read, each error has its exact cause, and `PRIVATE KEY` means an empty block that no parser accepted |
| SecretData.RenderingIsStable | pkg/util/secretutil/secret.go:118-150 | A rendered key is rendered as itself |
| SecretData.PrivateKeyPartIdempotent | pkg/util/secretutil/secret.go:86-153 | Extraction maps its own output, a stream of one block, to itself, the empty block of an unknown key included |
| SecretData.GetCertPart | pkg/util/secretutil/secret.go:41-49 | Dispatch on the two TLS keys, an error for any other |
| SecretData.BuildKubeSecretData | pkg/util/secretutil/secret.go:157-183 | The loop with early exit computes the fold, and on failure returns the partial map of the source |
| SecretData.BuildMeaning | pkg/util/secretutil/secret.go:157-183 | On success every entry succeeds and each key has the content of the last entry for it; a failure is that of the first entry that fails |
| SecretData.BuiltIffAllOk | pkg/util/secretutil/secret.go:157-183 | The build succeeds if and only if every entry does |
| SecretData.TlsKeysOnly | pkg/util/secretutil/secret.go:174-180 | A TLS secret has no keys but tls.crt and tls.key |
| Extraction.TlsContents | pkg/util/secretutil/secret.go:41-49 | In a TLS Secret `tls.crt` decodes to exactly the certificates of its file, and `tls.key` to one private key block with the key of its file |
| Extraction.BuiltFromFiles | pkg/util/secretutil/secret.go:157-183 | Success means that every entry names a source, a key and an existing file; the keys are the trimmed target keys, and without TLS each has the file that its last entry names |
| Extraction.FailureNamesTheFault | pkg/util/secretutil/secret.go:163-178 | Each error has its cause in the first entry that fails: no source, no key, no file, or, for TLS alone, an unsupported key or a codec's error |
| SecretData.BuildIgnoresOrder | pkg/util/secretutil/secret.go:157-183 | If the keys of the entries are distinct, every permutation of them gives the same data with one key per entry, or fails as well |
| SecretData.BuildCounts | pkg/util/secretutil/secret.go:157-183 | With distinct keys there is one key per entry |
| Tokens.RefreshIsDue | pkg/token/token_manager.go:165-186 | In wrapping 64-bit arithmetic, for lifetimes up to 2^32 s either way: due if and only if the clock is past issue + min(86400, ttl - ttl*20/100) - jitter seconds |
| Tokens.RefreshIsDueInSeconds | pkg/token/token_manager.go:165-186 | In seconds, for lifetimes that are not negative: due once a day old or once a fifth of the lifetime is left, less a jitter below 10 s |
| Tokens.RefreshIsMonotone | pkg/token/token_manager.go:165-186 | Once due, due at every later time and every larger jitter |
| Tokens.ServedUnexpiredExactly | pkg/token/token_manager.go:159-186 | For lifetimes up to 2^32 s either way: no clock and no jitter let an expired token pass if and only if its lifetime is stated and above -5 s |
| Tokens.QuoteSplits | pkg/token/token_manager.go:200 | A quoted string at the front of a text is determined by the text, whatever the printable characters are |
| Tokens.KeyFuncInjective | pkg/token/token_manager.go:189-201 | Keys are equal if and only if name, namespace, audience list (nil and empty apart), effective expiry and effective reference are |
| TokenRuns.ReachableInv | pkg/token/token_manager.go:110-157 | Every reachable entry, cached or in a caller's hand, states a lifetime, and every answer given from the cache or as fallback was unexpired when it was decided |
| TokenRuns.NoExpiredToken | pkg/token/token_manager.go:110-134 | Under any interleaving of calls and collector, a token from the cache or as fallback had not expired at the clock reading that decided |
| TokenRuns.CollectorIsInvisible | pkg/token/token_manager.go:136-144 | A cache swept at arbitrary points stays alike to one that never is, on every interleaving |
| TokenRuns.SameAnswers | pkg/token/token_manager.go:110-144 | So each call gets the same answer from the same source at the same time, or the same refusal, with or without the collector |
| TokenRuns.CollectorShowsWithoutLifetime | pkg/token/token_manager.go:166-182 | For every token without a stated lifetime above -5 s, just after it expired the unswept cache serves it and the swept one fetches |
| TokenRuns.FetchesAreSpaced | pkg/token/token_manager.go:110-236 | In every run of the concurrent cache in which calls for one key do not overlap and its tokens expire 600 s after issue, tokens for that key are issued more than 471 s apart, with sweeps and calls for other keys at any moment, within a call included |
| TokenRuns.IssuesAreSpaced | pkg/token/token_manager.go:110-236 | The same for any two steps of such a run that issue tokens for the key |
| TokenRuns.ReachableProvenance | pkg/token/token_manager.go:110-157 | Under any interleaving with sweeps, each cached entry, each entry in a caller's hand, each token on its way into the cache and each answer was fetched by a call with that key |
| TokenManager.OneTokenUntilDue | pkg/token/token_manager.go:102-134 | From the moment a token was granted until it is due, all calls for its key get it, whatever calls for other keys come between and whatever the API server would answer |
| TokenManager.ServeMeaning | pkg/token/token_manager.go:102-134 | A granted token is the one in the cache, and is fresh or had not expired when handed out; a refusal means that nothing valid was left |
| TokenManager.KeysAreIndependent | pkg/token/token_manager.go:110-134 | Calls for two keys get the answers each would get alone and leave the same cache in either order |
| TokenManager.AnswersBelongToTheirRequests | pkg/token/token_manager.go:110-134 | Under any interleaving of calls and sweeps, a granted token was issued for the account and the request of the call that got it |
| TokenManager.EntriesBelongToTheirRequests | pkg/token/token_manager.go:110-157 | And every cached entry was issued for each request whose key would find it |
| TokenManager.ServeIsARun | pkg/token/token_manager.go:110-134 | An uninterrupted call is one of the interleavings of its steps |
| TokenKeys.PrintedKeysDistinguish | pkg/token/token_manager.go:189-201 | The printed key is a key function: equal exactly for equal requests |
| TokenManager.CachedForSameRequest | pkg/token/token_manager.go:110-117 | An entry under a request's key was issued for that very request |
| TokenManager.Manager.constructor | pkg/token/token_manager.go:83 | An empty cache, with nothing issued |
| TokenManager.Manager.Get | pkg/token/token_manager.go:146-151 | The entry for the key, if any |
| TokenManager.Manager.Set | pkg/token/token_manager.go:153-157 | The entry is stored and no other changes |
| TokenManager.Manager.Cleanup | pkg/token/token_manager.go:136-144 | Keeps exactly the entries whose expiry was not past when they were looked at, with one clock reading each, and changes none |
| TokenManager.Manager.GetServiceAccountToken | pkg/token/token_manager.go:110-134 | Cache and answer are those of `Serve`; a granted token was issued by the API server for this account and request |
| TokenManager.SecretProviderServiceAccountTokenAttrs | pkg/token/token_manager.go:215-247 | All or nothing, before printing: each audience gets a token issued for this name and namespace, for that audience alone, for 600 s and bound to no object; the first refusal ends it |
| TokenManager.RefusalEnds | pkg/token/token_manager.go:231-234 | Audiences after a refused one are not served |
| ProviderRuns.ReachableInv | pkg/provider/provider_client.go:111-184 | Under any interleaving: both maps have the same keys and matching entries, the log is a sequential get-or-create history that ends in the map, every dialed connection is exactly one of installed, closed, abandoned or in flight, and each call returned once |
| ProviderRuns.GetIsLinearizable | pkg/provider/provider_client.go:111-184 | Requests for one provider with no clean-up between return the same client, and none from before a clean-up is in the map after it |
| ProviderRuns.HistoryRespectsTime | pkg/provider/provider_client.go:111-170 | A request that returned before another one began precedes it in that history |
| ProviderRuns.CleanupsRespectTime | pkg/provider/provider_client.go:173-184 | A clean-up stands in that history after every request that had returned and before every request that had not begun |
| ProviderRuns.OneClientBetweenCleanups | pkg/provider/provider_client.go:111-170 | Sequential get-or-create returns one client per provider between clean-ups |
| ProviderRuns.NoClientSurvivesCleanup | pkg/provider/provider_client.go:173-184 | No client returned before a clean-up is in the map after it |
| ProviderRuns.CleanupClosesInstalled | pkg/provider/provider_client.go:158-184 | A clean-up closes exactly the installed connections and empties both maps, no other step closes any, and abandoned connections are never closed |
| ProviderRuns.AbandonedExactly | pkg/provider/provider_client.go:158-169 | A connection is abandoned if and only if a request with a dialed connection finds, under the write lock, a client for its provider; it is that request's connection |
| ProviderRuns.OpenAfterCleanup | pkg/provider/provider_client.go:158-184 | After a clean-up, a dialed connection that no request still holds is closed if and only if it was not abandoned |
| ProviderRuns.RaceAbandons | pkg/provider/provider_client.go:158-184 | Two racing requests and a clean-up: one connection is closed and the other stays open |
| ProviderClients.PluginClientBuilder.constructor | pkg/provider/provider_client.go:94-107 | Empty maps and the given paths |
| ProviderClients.PluginClientBuilder.FindSocket | pkg/provider/provider_client.go:126-147 | The first directory with a file named after the provider with the suffix `.sock`, or none if and only if no directory has one |
| ProviderClients.PluginClientBuilder.Lookup | pkg/provider/provider_client.go:114-120 | The section under the read lock is the looking step of the concurrent program: a known provider returns at once and nothing is dialed |
| ProviderClients.PluginClientBuilder.Install | pkg/provider/provider_client.go:158-169 | The section under the write lock is the installing step of the concurrent program: the client in the map wins |
| ProviderClients.PluginClientBuilder.Get | pkg/provider/provider_client.go:111-170 | A known provider keeps its client and nothing is dialed; a new one is dialed once if its name has at most 30 letters, digits, `_` and `-` and a socket exists; each error has its cause and changes nothing |
| ProviderClients.PluginClientBuilder.Cleanup | pkg/provider/provider_client.go:173-184 | The loop closes exactly the installed connections, as the clean-up step of the concurrent program does |
| ProviderClients.MountContent | pkg/provider/provider_client.go:220-273 | Each error in the order of the source; otherwise both maps hold the last entry for each key and nothing else |
| ProviderClients.LastValueMeaning | pkg/provider/provider_client.go:256-271 | The value that a map built in order holds for a key is that of the entry after which the key does not occur |
| Polling.SendsExactPasses | internal/controller/secretsync_controller.go:454-493 | At every moment the items sent are the complete lists of the finished passes and a prefix of the one in progress, and the channel is closed once, at the end |
| Polling.EndIsFinal | internal/controller/secretsync_controller.go:458-492 | Nothing is sent or closed after the end |
| Polling.EndsExactlyWhenCancelled | internal/controller/secretsync_controller.go:464-492 | With synchronised caches the loop ends, and the channel is closed, if and only if the context was cancelled |
| Polling.UnsyncedSendsNothing | internal/controller/secretsync_controller.go:458-462 | Without them nothing is ever sent and the channel is closed once |
| Polling.TickSendsTheList | internal/controller/secretsync_controller.go:470-482 | From waiting, a tick with a list and room for its items sends exactly that list and waits again; a failed list call changes nothing |
| Polling.Poll | internal/controller/secretsync_controller.go:457-492 | The loop reaches, on every sequence of choices, the state of the machine those two lemmas are about |
| Polling.SendItem | internal/controller/secretsync_controller.go:477-481 | Waits until the item is taken or the context ends; ticks in between are ignored |
| Polling.SendItems | internal/controller/secretsync_controller.go:476-482 | A list is sent to its end, or the loop ends within it |
| DeepCopy.StringMap.Copy | api/v1alpha1/zz_generated.deepcopy.go:36-49 | The loop fills a fresh map with equal entries |
| DeepCopy.SecretObject.DeepCopyInto | api/v1alpha1/zz_generated.deepcopy.go:29-50 | The copy is equal, and its data, labels and annotations are fresh and separate |
| DeepCopy.SecretSyncSpec.DeepCopyInto | api/v1alpha1/zz_generated.deepcopy.go:137-140 | The same for the spec and what it embeds |
| DeepCopy.SecretSyncStatus.DeepCopyInto | api/v1alpha1/zz_generated.deepcopy.go:153-166 | The same for the time pointer and the conditions |
| DeepCopy.SecretSync.DeepCopyInto | api/v1alpha1/zz_generated.deepcopy.go:78-84 | The same for the whole object |
| DeepCopy.SecretSync.DeepCopy | api/v1alpha1/zz_generated.deepcopy.go:87-94 | A fresh object that is equal and shares nothing |
| DeepCopy.SameMeansEqual | api/v1alpha1/zz_generated.deepcopy.go:29-166 | Equal objects agree in every field, through all embedded structs, with nil apart from empty |
| DeepCopy.FootprintMeans | api/v1alpha1/zz_generated.deepcopy.go:29-166 | What a copy owns includes each of its structs, maps, slices and pointers |
| DeepCopy.SecretSyncList.DeepCopyInto | api/v1alpha1/zz_generated.deepcopy.go:105-116 | Every item is copied and equal; all that can be written through a copy, its embedded structs included, is fresh and belongs to that copy alone; nil stays nil |
| DeepCopy.CopyItems | api/v1alpha1/zz_generated.deepcopy.go:109-115 | The loop that does this |
| DeepCopy.ServerSidePatchSecret | internal/controller/secretsync_controller.go:318-350 | The patch for the object and the data, with no existing object written, whatever the SecretSync shares with others |
| Consistency.CodecLawsCanHold | pkg/util/secretutil/secret.go:52-153 | Codecs exist that satisfy all the laws assumed of PEM, PKCS #1, PKCS #8 and SEC 1 |
| Consistency.CertificatesCanBeExtracted | pkg/util/secretutil/secret.go:52-83 | Under those codecs certificates are extracted from PEM and from PKCS #12, and both meet the hypotheses of idempotence |
| Consistency.KeysCanBeExtracted | pkg/util/secretutil/secret.go:118-150 | PKCS #8 keys of both kinds are rendered in their own form and an unsupported one is refused |
| Consistency.UnknownKeyIsEmptied | pkg/util/secretutil/secret.go:118-152 | An input for which extraction gives an empty block labelled `PRIVATE KEY` and no error |
| Consistency.CollisionFreeCanHold | internal/controller/secretsync_controller.go:394-398 | A key derivation exists that has no collision among any states |

## Left out

- TokenManager.SecretProviderServiceAccountTokenAttrs: gives the map from audience to token status; the JSON text that is printed from it, with the expiry in RFC 3339 form, is not modelled.
- DeepCopy.SecretSync.DeepCopyInto: of the object's metadata only UID, generation and version are modelled; the maps and slices of `ObjectMeta` are copied by a library.
- DeepCopy.SecretSync.DeepCopy: the same.
- DeepCopy.CopyItems: the same, for each item.
- `prepareCSIProviderParams`: only its success or failure is an input. With nil parameters in the provider class the source writes to a nil map; parameters are taken to be non-nil.
- The Mount, Version and HealthCheck calls, dialing and the file system are inputs; matching of message-size errors and its log line are not modelled.
- PBKDF2 (section 5.2 of RFC 8018), X.509 and PKCS #12 parsing are parameters. The laws assumed of them are `StateHash.CollisionFree`, `SecretData.Shrinking`, `SecretData.PemLaws` and `SecretData.KeyLaws`.
- The work queue, informers, leader election and manager setup. A run may reconcile at any moment.
- Merging by server-side apply: with the controller as the only writer the applied configuration is the Secret. Edits or deletion of the Secret by others, and garbage collection of it when its owner is deleted, are not modelled; the controller does not watch Secrets.
- Reading the environment in the middle of a reconciliation: it is one step of a run, so a change of the SecretSync within it is seen only as a stale read or a lost write.
- Condition and error texts, transition times of conditions, events, logs, metrics, flags, charts, admission policies.
- `secretSyncControllerName`, names and namespaces: one SecretSync is modelled, and its Secret has its name.
- Text that is not valid UTF-8: strings are sequences of code points, and byte lengths are computed from them.
- SecretData.CertificatePartIdempotent: blocks made from PKCS #12 are required to round-trip through PEM, because attribute headers with line breaks would not; blocks that were PEM in the input need no such condition.
- ProviderClients.MountContent: an empty list of object versions stands for the nil list, which is what an empty repeated field decodes to.
- ProviderClients.PluginClientBuilder.FindSocket: the second look at the path on Windows is not modelled; the directories are taken to be clean paths, which joining leaves as they are.
- ProviderClients.PluginClientBuilder.Get: states the uninterrupted call; interleavings are those of `ProviderRuns`, whose steps `Lookup`, `Install` and `Cleanup` are.
- TokenRuns.FetchesAreSpaced: calls for one key do not overlap, since two concurrent calls may both fetch.
- Refinement.SkippingRefinesAlwaysPatching: reads are fresh or fail, because the two reconcilers store different versions; for stale reads see `Refinement.EndsUpToDate`.
- TokenRuns.NoExpiredToken: requires that the API server states a lifetime on each token, because the claim is false without (`Tokens.ServedUnexpiredExactly`).
- TokenManager.CachedForSameRequest: is about the manager's own log; for interleaved calls see `TokenManager.EntriesBelongToTheirRequests`.
- Tokens.RefreshIsDue: times are unbounded integers in nanoseconds; only durations wrap around at 64 bits.
- DeepCopy.SecretSyncList.DeepCopyInto: slices are copied whole; capacity and overlapping slices are not modelled, nor are `ListMeta` and the items' `ObjectMeta`.
