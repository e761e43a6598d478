# Verified model of the passport prover and petition server

This project models the parts of the passport-proof system in which a mistake would be silent: the
hand-written reader of a passport's security object and machine-readable zone, the protocol by which
many aggregate requests share a database and a prover, the circuit registry and its local cache, the
two planners and the naming chain between them, the choice of a country certificate, and the text
codecs at the edges. Every property is stated over all inputs, all runs or all reachable states.

`dafny verify dfyconfig.toml` checks the whole project.

## How it is organised

| files | content |
|---|---|
| `Wrappers`, `Bytes`, `Text`, `Hex`, `Lexicographic`, `Picking`, `Json` | results, big-endian numbers, decimal and hexadecimal numerals, string order, selection by flags, JSON values |
| `Der`, `Oid`, `RsaKey`, `Walk` | tag-length-value headers, object identifiers, RSA key sizes, sibling walks with and without overflow checks |
| `Cms`, `Sod`, `SodRoundTrip`, `Chains`, `Release`, `ReleaseEnds` | CMS values with their DER encodings; the reader of the security object; the proof that it inverts the encoding; its loops as functions of one sibling walk; the reader in a build whose sums wrap, and when it ends |
| `Mrz`, `MrzLayout` | the machine-readable zone; the ICAO layouts and the proof that the parser inverts them |
| `Disclosure`, `Store`, `Slots`, `Protocol`, `ProtocolSafety`, `Answers`, `Runs`, `Server` | the aggregate endpoint: its pieces, a transition system over any number of requests, its invariants, the HTTP answers, runs built step by step, and the handler as a refinement of them |
| `Registry`, `Materialize`, `ArtifactStore` | snapshots of the registry, copying them into a directory, and the cache against the registry |
| `CircuitNames`, `Planning`, `Classification` | circuit names, the Rust and JavaScript planners, and the script that recovers roles from names |
| `Certificates`, `Fields`, `Base64`, `Presets` | certificate choice, field texts and addresses, payload decoding, country presets |

Rust functions that slice or add can panic, so they return `Outcome`: done, failed, a slice out of
range, or a sum that overflows. Loops of the source are methods with loops, proved equal to a function;
the theorems are about the function. Position sums are checked in these functions; the workspace's
default release profile wraps them, and `Release` and `ReleaseEnds` prove exactly when that makes no
difference and when that build ends.
What the program cannot know is a parameter: the X.509 library (`CertificateParser`), the prover's
answer, database failures before or after a command takes effect, and the disk running full.

## Results that differ from what the code's own texts promise

- A lost insert race is meant to be answered with a conflict, but the handler looks for a word that
  the storage error does not contain (`Answers.LostRaceIsConflictIff`), and such a race is reachable
  (`Runs.LostRaceHappens`). The store itself never keeps two signatures for one pair
  (`ProtocolSafety.StepIsSafe`).
- Different object identifiers can print alike, exactly when `Oid.PrintAlikeIff` says so: 2.48 and
  2.16304 do (`Oid.LongHeadsPrintAlike`), and so do 1.2.0 and 1.2.2^64 (`Oid.WideArcsPrintAlike`). So a
  table entry also matches identifiers that differ from it by multiples of 2^64 (`Oid.TableMatchIff`,
  `Oid.WrongArcMatchesTable`).
- The two planners disagree on some queries, exactly those of `Planning.PlannersAgreeIff`.
- A cache directory hides the version argument (`ArtifactStore.OtherVersionsAgreeIff`), and a write
  cut in half makes it differ from the registry (`ArtifactStore.CacheIsTransparentIff`).
- Where sums wrap, there is a file that the reader never finishes (`Release.ReleaseNeverEnds`). Both
  builds agree exactly on the files on which the checked one meets no overflow
  (`Release.ReleaseReadsTheSameIff`), and the wrapping one ends exactly on the files on which it has
  ended after a stated number of rounds (`ReleaseEnds.ReaderEndsIff`).
- A card whose document code begins with P is read as a passport (`MrzLayout.Td1RoundTripIff`), and a
  zone of 128 bytes or more is not found (`MrzLayout.Dg1RoundTripIff`).
- Line breaks in a base64 payload change the padding that the handler adds; it rejects exactly the
  payloads for which they do (`Base64.PayloadIsReadIff`).

## Model

| member | source | states |
|---|---|---|
| Der.ParseTlv | crates/prover-core/src/analysis.rs:542-574 | a header is read exactly when tag, length byte and all announced length bytes are in the buffer and the form is definite; the content starts inside the buffer, at least two bytes on |
| Der.ReadTlv | crates/prover-core/src/analysis.rs:542-574 | the loop with its 64-bit shifts computes that header, for every buffer and offset |
| Der.WordShift | crates/prover-core/src/analysis.rs:564 | shifting a digit into a machine word loses only bits above the word |
| Der.ParseInvertsEncode | crates/prover-core/src/analysis.rs:542-574 | at any offset of any buffer the reader inverts the definite-length encoder of X.690 and finds the content |
| Walk.SiblingsFillTheRange | crates/prover-core/src/analysis.rs:379-419 | a walk that completes has visited adjoining values that cover its range without a gap |
| Walk.SiblingsAreDisjoint | crates/prover-core/src/analysis.rs:379-419 | of two values of a walk the earlier one ends, at least two bytes on, before the later begins |
| Walk.NarrowLengthAdvances | crates/prover-core/src/analysis.rs:417 | a length field of at most seven bytes never overflows the position and advances it by at least two |
| Walk.NarrowWalkIsSafe | crates/prover-core/src/analysis.rs:379-419 | with such fields a walk over arbitrary bytes terminates without an overflow |
| Walk.TraceIsLinked | crates/prover-core/src/analysis.rs:379-419 | completed or not, a walk reads adjoining headers that start in the buffer |
| Walk.SiblingsAreTrace | crates/prover-core/src/analysis.rs:379-419 | a walk that completes has read exactly the values it visited |
| Chains.FindContextReadsTrace | crates/prover-core/src/analysis.rs:357-364 | the search for [0] answers with the first such header of the walk, and fails only if the walk has none |
| Chains.SignerWalkReadsTrace | crates/prover-core/src/analysis.rs:465-482 | the SignerInfo loop reads the identifier behind the first SEQUENCE of the walk from the fourth field on, and fails only if there is none |
| Chains.SignedDataVisitsSiblings | crates/prover-core/src/analysis.rs:379-419 | the SignedData loop succeeds exactly when the walk completes and every visit does, and gives the visits' result |
| Chains.NarrowFindContext | crates/prover-core/src/analysis.rs:357-364 | with narrow length fields the search for [0] never overflows |
| Chains.NarrowSignerWalk | crates/prover-core/src/analysis.rs:465-482 | nor does the SignerInfo loop: without a matching header it reports an error |
| Chains.NarrowSignedDataWalk | crates/prover-core/src/analysis.rs:379-419 | nor does the SignedData loop: it overflows, or slices out of range, only if one of its visits does |
| Chains.NarrowReaderNeverOverflows | crates/prover-core/src/analysis.rs:347-482 | with length fields of at most seven bytes the whole reader never overflows |
| Walk.WrappedStepPassesHeader | crates/prover-core/src/analysis.rs:363 | where sums wrap, a step moves past the header it read if and only if the sum fits the word |
| Walk.WrappedWalkIsSame | crates/prover-core/src/analysis.rs:357-364 | a wrapping loop, with its end test and whatever headers it returns at, steps over the same headers unless a sum overflows |
| Walk.WrappedWalkEnds | crates/prover-core/src/analysis.rs:357-364 | and then it ends |
| Walk.WrappedWalkPassesIff | crates/prover-core/src/analysis.rs:363 | each of its steps passes its header if and only if no sum of the loop overflows |
| Walk.WrappedWalkEndsIff | crates/prover-core/src/analysis.rs:357-364 | it ends if and only if it has ended after as many rounds as the buffer has bytes |
| ReleaseEnds.FindContextOverflowsIff | crates/prover-core/src/analysis.rs:357-364 | the checked search for [0] overflows exactly when such a loop that returns at [0] does |
| ReleaseEnds.FindContextRunsIff | crates/prover-core/src/analysis.rs:357-364 | the wrapping search is still running exactly while such a loop stands at a header |
| ReleaseEnds.FindContextEndsIff | crates/prover-core/src/analysis.rs:357-364 | the wrapping search ends if and only if it has ended after as many rounds as the buffer has bytes |
| ReleaseEnds.SignerWalkEndsIff | crates/prover-core/src/analysis.rs:465-482 | the wrapping SignerInfo loop: the same with three rounds more |
| ReleaseEnds.SignedDataEndsIff | crates/prover-core/src/analysis.rs:379-419 | the wrapping SignedData loop with its visits: the same with four rounds more |
| ReleaseEnds.ReaderEndsIff | crates/prover-core/src/analysis.rs:347-482 | the wrapping reader ends on a file if and only if it has ended after four rounds more than the file has bytes, and no other number of rounds gives another result |
| Release.ReleaseReadsTheSameIff | crates/prover-core/src/analysis.rs:347-482 | in a build without overflow checks the reader ends and returns what the checked build returns, errors and slices out of range included, if and only if the checked build meets no overflow |
| Release.ReleaseInvertsEncode | crates/prover-core/src/analysis.rs:347-482 | so every encoded SignedData comes back in that build too |
| Release.ReleaseNeverEnds | crates/prover-core/src/analysis.rs:357-364 | on a concrete file of twelve bytes the wrapping reader has not ended after any number of rounds |
| Oid.ReadOid | crates/prover-core/src/analysis.rs:494-512 | the loop over septets computes the arcs' text, with every arc cut to 64 bits |
| Oid.OidRoundTrip | crates/prover-core/src/analysis.rs:494-512 | for every object identifier, decoding its base-128 encoding prints its dotted form if and only if the second arc is below 40 and all later arcs are below 2^64 |
| Oid.DecodesAsReported | crates/prover-core/src/analysis.rs:494-512 | what is printed for any identifier: the first byte split at 40, the rest of a longer head as an arc of its own, all arcs modulo 2^64 |
| Oid.SeptetsDecode | crates/prover-core/src/analysis.rs:500-506 | any septets, fewest or not, give one arc: their number modulo 2^64 |
| Oid.UnfinishedArcIsDropped | crates/prover-core/src/analysis.rs:500-506 | bytes that all have the continuation bit give no arc |
| Oid.PrintAlikeIff | crates/prover-core/src/analysis.rs:494-512 | when two identifiers print alike |
| Oid.LongHeadsPrintAlike | crates/prover-core/src/analysis.rs:498 | 2.48 and 2.16304 print alike |
| Oid.WideArcsPrintAlike | crates/prover-core/src/analysis.rs:501 | 1.2.0 and 1.2.2^64 print alike |
| Oid.TableMatchIff | crates/prover-core/src/analysis.rs:190-199 | the text of any identifier equals a table entry exactly when the first two arcs are equal and the later ones are modulo 2^64 |
| Oid.WrongArcMatchesTable | crates/prover-core/src/analysis.rs:212 | an identifier that is not the one of P-256 and matches its entry |
| Oid.TextComparisonIsExact | crates/prover-core/src/analysis.rs:190-199 | comparing the text of any identifier with any entry is comparing the entry with the reported arcs, which are the identifier's own exactly for a second arc below 40 and later arcs below 2^64 |
| Oid.OidBytesRoundTrip | crates/prover-core/src/analysis.rs:484-492 | for every identifier, what is reported comes back through its own header, whatever follows it |
| RsaKey.SizeOfEncodedKey | crates/prover-core/src/analysis.rs:247-262 | for an encoded RSAPublicKey, with a leading sign byte or not, the result is eight times the modulus's bytes, cut to 32 bits |
| RsaKey.SizeOfAnyModulus | crates/prover-core/src/analysis.rs:247-262 | for any content of the modulus, minimal or not: eight bits for each byte but one leading zero, cut to 32 bits |
| RsaKey.KeySizeBoundsModulus | crates/prover-core/src/analysis.rs:247-262 | 2^(r-8) <= n < 2^r holds of the result exactly when the modulus has fewer than 2^29 bytes |
| RsaKey.KeySizeIsRoundedBitLength | crates/prover-core/src/analysis.rs:247-262 | the result is the modulus's bit length rounded up to a multiple of eight |
| Sod.ReadSod | crates/prover-core/src/analysis.rs:347-366 | the outer loop, with wrapper and early return, computes `ParseSod` on every buffer, including errors and panics, in a build with overflow checks |
| Sod.ReadSignedData | crates/prover-core/src/analysis.rs:368-432 | the field loop computes the fold over SignedData's fields with their index and tag tests |
| Sod.ReadEContentInfo | crates/prover-core/src/analysis.rs:434-452 | the loop that stops at the first content field computes eContent and its hash identifier |
| Sod.ReadLdsHashOid | crates/prover-core/src/analysis.rs:454-463 | the chain of four headers computes the LDS hash identifier |
| Sod.ReadSignerAlgorithm | crates/prover-core/src/analysis.rs:465-482 | the loop computes the identifier of the first SEQUENCE from the fourth field on |
| SodRoundTrip.SignerOid | crates/prover-core/src/analysis.rs:465-482 | with either form of signer identifier, with or without signed attributes, the signature algorithm is found |
| SodRoundTrip.EContentFound | crates/prover-core/src/analysis.rs:434-463 | the encapsulated LDS object comes back byte for byte, with its hash algorithm |
| SodRoundTrip.ParseSignedDataInverts | crates/prover-core/src/analysis.rs:368-432 | for every SignedData with a signer, with or without certificates, CRLs and digest algorithms and with any identifiers, reading its fields gives exactly the expected five facts or the expected error |
| SodRoundTrip.ParseSodInvertsEncode | crates/prover-core/src/analysis.rs:347-366 | the same for the whole file at the start of any buffer, with or without the 0x77 wrapper: success exactly when there is a certificate field and the X.509 library accepts its first certificate, or for an empty field what stands behind it |
| Mrz.ReadMrz | crates/prover-core/src/analysis.rs:264-276 | the loop gives the text behind the first tag whose announced bytes are there, or the whole data group if there is none, and fails exactly for bytes that are not ASCII |
| MrzLayout.NamesInvert | crates/prover-core/src/analysis.rs:281-302 | identifiers of any number of words come back from a name field with any run of trailing fillers, none included |
| MrzLayout.CleanIff | crates/prover-core/src/analysis.rs:279 | what is read is the text without its line breaks and spaces, and nothing else is taken out |
| MrzLayout.Td3RoundTrip | crates/prover-core/src/analysis.rs:278-303 | from any text that becomes the layout when line breaks and spaces are left out, wherever they stand, every field of a passport comes back; check digits and optional data are letters, digits, `<` or `_`, and number and expiry date may be filled up with either |
| MrzLayout.Td3LinesRoundTrip | crates/prover-core/src/analysis.rs:278-303 | in particular from the two lines with a line break between them, wherever the layout is cut |
| MrzLayout.Td1RoundTrip | crates/prover-core/src/analysis.rs:304-336 | the same for every field of a card, unless the document code begins with P |
| MrzLayout.Td1LinesRoundTrip | crates/prover-core/src/analysis.rs:304-336 | in particular from three lines with line breaks between them |
| MrzLayout.ShortZoneHasNoNames | crates/prover-core/src/analysis.rs:280-334 | a text of fewer than 90 characters, or of fewer than 88 if it begins with P, gives no names |
| MrzLayout.Td1RoundTripIff | crates/prover-core/src/analysis.rs:278-336 | for holders with a date of birth of digits and a surname that starts with a letter, the fields come back if and only if the code does not begin with P |
| MrzLayout.CardWithPIsMisread | crates/prover-core/src/analysis.rs:280-288 | such a card gets part of its surname for a date of birth |
| MrzLayout.Dg1RoundTripIff | crates/prover-core/src/analysis.rs:264-276 | the text wrapped as data group 1 is found again, at the start of any buffer, if and only if it has fewer than 128 bytes |
| MrzLayout.PassportRoundTrip | crates/prover-core/src/analysis.rs:264-336 | from the encoded data group to the holder's fields, passports |
| MrzLayout.CardRoundTrip | crates/prover-core/src/analysis.rs:264-336 | from the encoded data group to the holder's fields, cards: the text always, the fields unless the code begins with P |
| Disclosure.CollectDisclosedFields | server-go/api/server.go:320-336 | whatever the iteration order, each field is listed once for a true `disclose` and once more for `eq`, and nothing else is |
| Disclosure.ValidateDisclosedFields | server-go/api/server.go:389-411 | with the set built first, the loop lists exactly the required fields that were not provided, in the petition's order |
| Disclosure.MissingFields | server-go/api/server.go:389-411 | nothing is missing if and only if every required field is provided |
| Disclosure.VerdictIgnoresOrder | server-go/api/server.go:389-411 | the verdict depends on the two queries only, not on the order either map was read in |
| Disclosure.ExtractNullifier | server-go/api/server.go:341-353 | the answer is the seventh public input of the first proof that has a non-zero one there, never one of the spellings of zero, and empty exactly if none has |
| Store.MongoDb.CreatePetition | server-go/storage/mongodb.go:89-106 | under any fault: a new ID gets a document with count zero and the query's fields, all other petitions and the signatures stay, and nothing at all changes if the ID is taken or the insert is not applied; an empty ID is replaced |
| Store.MongoDb.GetPetition | server-go/storage/mongodb.go:108-118 | the stored petition, nothing, or the error of a failing lookup |
| Store.MongoDb.SignatureExists | server-go/storage/mongodb.go:198-207 | true exactly when the pair is in the collection, or the error of a failing count |
| Store.MongoDb.InsertOne | server-go/storage/mongodb.go:71 | the unique index admits a document exactly when its pair is new |
| Store.MongoDb.IncrementCount | server-go/storage/mongodb.go:158-165 | one more for the petition, if it exists and the command takes effect |
| Store.MongoDb.SaveSignature | server-go/storage/mongodb.go:147-168 | insert, then increment, under any fault of either command: new contents and result |
| Store.SaveChanges | server-go/storage/mongodb.go:147-168 | on the documents: the signature is appended exactly if the insert is applied and the pair is new, the counter grows by one exactly if the increment is then applied to an existing petition |
| Store.StoredAfterInsert | server-go/storage/mongodb.go:150 | an insert adds one to the stored signatures of its petition and of no other |
| Slots.ProvingService.constructor | server-go/proving/service.go:83-99 | capacity is max(1, configured), nothing is taken |
| Slots.ProvingService.Acquire | server-go/proving/service.go:251-259 | a call that returns has either taken and counted one free slot or was cancelled and changed nothing |
| Slots.ProvingService.Release | server-go/proving/service.go:261-267 | gives back one slot and discounts it; on an empty channel nothing changes |
| Protocol.StepKeepsSlots | server-go/proving/service.go:117-121 | in every interleaving, slots and counter equal the jobs that hold a slot and that are counted, never above capacity |
| Protocol.ReleaseFindsSlot | server-go/proving/service.go:261-267 | a job that releases finds a slot: the default branch is never taken |
| Protocol.CounterOffsets | server-go/proving/service.go:251-267 | counter = slots - (acquired, not yet counted) + (released, not yet discounted) |
| Protocol.TallyUpdate | server-go/api/server.go:188-318 | moving one request changes a count of requests by that request alone |
| Protocol.MoveOnly | server-go/api/server.go:188-318 | a step changes one request's phase and no request's input |
| ProtocolSafety.StepGrowsDb | server-go/storage/mongodb.go:147-168 | no step removes a signature or changes what a petition requires |
| ProtocolSafety.RequestBalance | server-go/storage/mongodb.go:147-168 | what a step adds to the collection it adds to the counter or to what its request still owes |
| ProtocolSafety.StepIsSafe | server-go/api/server.go:229-307 | every step of any number of interleaved requests keeps all invariants: unique pairs, each pair saved by at most one request, stored exactly what requests saved, counts balanced, lookups honoured, rejections justified, slots matched |
| ProtocolSafety.RunIsSafe | server-go/api/server.go:188-318 | every state of every run from a fresh service satisfies them |
| ProtocolSafety.InflightIsExact | server-go/proving/service.go:117-121 | slots never exceed capacity; the counter is exact up to half-done operations and never negative |
| ProtocolSafety.CountIsBounded | server-go/storage/mongodb.go:158-165 | the counter never exceeds the stored signatures, and equals them if and only if no increment is pending or missed |
| ProtocolSafety.SavedFieldsCoverPetition | server-go/api/server.go:236-247 | a signature from a request that found its petition is stored and carries all fields that the petition requires |
| ProtocolSafety.FinishedIsClean | server-go/proving/service.go:251-267 | when all requests have ended, slots and counter are zero and only missed increments separate counter and collection |
| ProtocolSafety.NoDeadlock | server-go/proving/service.go:251-259 | unless all requests have ended one of them can move without being cancelled |
| ProtocolSafety.StepsRunOut | server-go/api/server.go:188-318 | every step of a request lowers a measure |
| ProtocolSafety.RunIsBounded | server-go/api/server.go:188-318 | so all requests together take at most eight steps each |
| Answers.LostRaceIsConflictIff | server-go/api/server.go:288-296 | a lost race is answered 409 if and only if the nullifier or the petition's ID contains the word "duplicate" |
| Runs.LostRaceHappens | server-go/storage/mongodb.go:147-168 | for every petition and nullifier a run from a fresh service in which two requests pass the duplicate check and the second loses the race; its answer is 200 unless an identifier contains that word |
| Server.SavedConclusion | server-go/storage/mongodb.go:147-168 | saving in one call is the insert step followed, if it went well, by the increment step |
| Runs.ProvingReplays | server-go/proving/service.go:117-121 | taking a slot, counting, giving back and discounting are four enabled steps that restore the service |
| Server.HandledIsRun | server-go/api/server.go:188-318 | what `Handled` computes is a run of enabled steps, each of which takes exactly what the environment gives, refusals included |
| Server.AggregateServer.Admit | server-go/api/server.go:229-268 | on the store's documents: turned away for missing fields if and only if the lookup finds the petition and it requires a field that the request lacks; otherwise as a duplicate if and only if there is an inner nullifier, the check does not fail and the pair is stored; and the phase is the one that the steps compute |
| Server.AggregateServer.Aggregate | server-go/proving/service.go:101-121 | a valid request whose context is not done gets the prover's answer; slots and counter are left as found |
| Server.AggregateServer.Conclude | server-go/api/server.go:278-316 | the documents and the status on their own terms: which signature and count are added under the given faults, 400 without a proof, 409 for a lost race with "duplicate" in an identifier, else 200; and the new state is that of the insert and increment steps |
| Server.AggregateServer.Serve | server-go/api/server.go:229-318 | every call: 400 and no change for missing fields, 409 and no change for a known pair, 400 and no change if refused, else what `Conclude` states; slots and counter as found |
| Server.AggregateServer.HandleAggregate | server-go/api/server.go:188-318 | the same for the whole handler, from query and inner proofs to status: the input's fields and nullifier are those of the query and of the proofs, only a request whose context is done may be refused besides invalid ones, and the new state is `Handled` of the old one |
| Registry.SortDedup | crates/prover-core/src/registry.rs:113-115 | sorting and removing repeated neighbours, as two loops |
| Registry.SortDedupIsCanonical | crates/prover-core/src/registry.rs:113-115 | the result is the one strictly ascending list with the same names |
| Registry.SnapshotCircuits | crates/prover-core/src/registry.rs:107-145 | the loop with its early error computes the snapshot |
| Registry.SnapshotIgnoresOrder | crates/prover-core/src/registry.rs:107-145 | order and repetition of the requested names make no difference |
| Registry.SnapshotIsComplete | crates/prover-core/src/registry.rs:107-145 | a snapshot exists exactly when manifest and all named artifacts do; it has the manifest's version and root and lists each name once with the hash and size that the manifest lists and the versions and key hash of the artifact under that hash |
| Materialize.MaterializeSnapshot | crates/prover-core/src/registry.rs:147-230 | checks and writes in the source's order, on a disk that may fail at any write: directory, disk and ending are those of `CopySnapshot` |
| Materialize.OutputDirectory.WriteManifest | crates/prover-core/src/registry.rs:167-170 | a write succeeds, fails without trace or leaves a torn file |
| Materialize.OutputDirectory.WriteCircuit | crates/prover-core/src/registry.rs:219-226 | the same for one circuit, leaving all other files alone |
| Materialize.CheckIsFingerprint | crates/prover-core/src/registry.rs:178-217 | the comparisons accept exactly the fingerprint that a new snapshot would hold |
| Materialize.MaterializesIff | crates/prover-core/src/registry.rs:147-230 | a snapshot of any registry can be materialised from any other if and only if the live root is equal and taking the snapshot again gives the same circuits |
| ArtifactStore.AgreeIffMirrors | crates/prover-core/src/artifacts.rs:37-70 | the cache cannot be told from the registry exactly when no file in it contradicts the registry |
| ArtifactStore.CacheIsTransparentIff | crates/prover-core/src/artifacts.rs:37-70 | after materialising into an empty directory, however it ended, cache with fallback and registry agree on the manifest and on every circuit name if and only if no write was cut in half |
| ArtifactStore.CacheIsTransparentFor | crates/prover-core/src/registry.rs:147-230 | the same condition over the inputs: it agrees if and only if writes do not tear or the disk has room for every write of the copy, at most one more than the snapshot has circuits |
| ArtifactStore.ManifestComesFirst | crates/prover-core/src/registry.rs:147-230 | no copy, however it ended, has circuits without the manifest; a copy fails exactly when the disk has less room than it needs writes, and takes one unit for each |
| ArtifactStore.CacheStaysTransparent | crates/prover-core/src/artifacts.rs:37-70 | copying again, or another snapshot of the version, keeps that so |
| ArtifactStore.CompleteCopyStandsAlone | crates/prover-core/src/artifacts.rs:37-70 | a complete copy serves, without a registry, exactly the snapshot's circuits |
| ArtifactStore.OtherVersionsAgreeIff | crates/prover-core/src/artifacts.rs:37-43 | for another version a complete copy agrees with the registry if and only if the registry serves the same manifest for both |
| CircuitNames.ParseIff | crates/prover-core/src/resolution.rs:162-178 | a name can be read back: role, bucket, key and hash are recovered from exactly the names that the source builds |
| CircuitNames.NamesAreInjective | crates/prover-core/src/resolution.rs:92-133 | for all buckets, key sizes, curves and hashes two circuits have one name only if they are one circuit |
| CircuitNames.NamesByPiece | crates/prover-core/src/resolution.rs:162-178 | the names of one circuit of each role, written out piece by piece |
| CircuitNames.ResolveDocumentCircuits | crates/prover-core/src/resolution.rs:158-198 | succeeds exactly when all four names are in the manifest, and then returns names that read back as the context's circuits |
| Picking.PickIsInjective | crates/prover-core/src/planning.rs:53-93 | a list of chosen circuits tells which requirements were set |
| Planning.ResolveDisclosures | crates/prover-core/src/planning.rs:53-93 | the pushes select the circuits in table order by the six requirements |
| Planning.RustPlanByMembers | crates/prover-core/src/planning.rs:47-185 | by the query's members: which of the six names are planned, in which order, the default for no query or an empty one, the eleven keys, and when there is an error |
| Planning.BuildProofPlan | crates/prover-core/src/planning.rs:47-124 | a plan exists exactly for a valid fixture with a readable query and a non-empty selection; the limit of ten is never the reason; for one to six disclosures the outer circuit is outer_evm_count_4 to outer_evm_count_9 |
| Planning.PlanIsSmall | crates/prover-core/src/planning.rs:95-106 | one to six distinct circuits of the table |
| Planning.BuildDisclosurePlans | scripts/reference-inputs.cjs:175-272 | the JavaScript pushes, or the error, computed from the normalised query |
| Planning.JsPlanByMembers | scripts/reference-inputs.cjs:168-272 | the same for the JavaScript planner, by the members that are truthy or not null |
| Planning.ReadsAlikeIff | crates/prover-core/src/planning.rs:151-185 | the six flags of both languages are equal exactly when: an `eq` comes with a truthy `eq` or `disclose`, a truthy `disclose` comes with a true one or an `eq`, an age configuration with any of its members has a comparison that is not null or a truthy `disclose`, and no list is there but falsy |
| Planning.PlannersAgreeIff | scripts/reference-inputs.cjs:168-272 | for every JSON query, over its members: when the two planners give the same list or both fail |
| Planning.PlannersAgreeOnWellTyped | crates/prover-core/src/planning.rs:47-185 | on every well-typed query they agree |
| Planning.UndisclosedAgeSplitsPlanners | crates/prover-core/src/planning.rs:167-177 | a query that is one circuit in Rust and an error in JavaScript |
| Classification.CollectSolveJobs | crates/prover-cli/src/main.rs:1135-1164 | three base jobs, then the disclosure jobs in order, and so are their names in the summary |
| Classification.OuterCircuitName | scripts/outer-inputs.cjs:181 | the name is outer_evm_count_ and a decimal numeral, without leading zeros, of three more than the recovered disclosures |
| Classification.ClassifiesIff | scripts/outer-inputs.cjs:83-97 | for arbitrary disclosure names, classification recovers the base names and exactly those names if and only if there is one and none can be mistaken |
| Classification.PlannedAreUnmistakable | scripts/outer-inputs.cjs:87-93 | no planned circuit can be mistaken, whatever the document's circuits |
| Classification.PlannedIsClassified | scripts/outer-inputs.cjs:181 | from a query through planning and solving: the roles are recovered, and the script's outer circuit is the plan's if and only if both planners chose equally many |
| Classification.WellTypedPlanIsClassified | scripts/outer-inputs.cjs:83-97 | for a well-typed query the recovered circuits are the planned ones |
| Certificates.NormalizeHashIsIdempotent | crates/prover-core/src/certificates.rs:268-274 | for every text |
| Certificates.NormalizesEquallyIff | crates/prover-core/src/certificates.rs:268-274 | hexadecimal texts of any length normalise equally if and only if they denote the same number, in the same number of digits beyond 64 |
| Certificates.SameNumberIff | crates/prover-core/src/certificates.rs:268-274 | two hexadecimal identifiers, each with or without 0x, normalise equally exactly when their digits denote one number (and are equally many beyond 64) |
| Certificates.SortCandidateCertificates | crates/prover-core/src/certificates.rs:253-266 | the array is sorted in place and stably: matching algorithms first, each part in its old order |
| Certificates.RankedHead | crates/prover-core/src/certificates.rs:253-266 | after the sort the first match leads, or the old head if there is none |
| Certificates.FilterAllFirst | crates/prover-core/src/certificates.rs:174-199 | the head of filtered filters is the first certificate that passes every test |
| Certificates.ResolveCsca | crates/prover-core/src/certificates.rs:169-210 | the choice is the first in file order of the best rank (key and algorithm, key, algorithm, any) among certificates of the country, and none exactly when there is none; for hexadecimal key identifiers that is stated by the numbers that they denote and by names that are alike but for case |
| Certificates.ChoiceIsPreferred | crates/prover-core/src/certificates.rs:174-199 | the choice by rank is the first certificate with key and algorithm, or else with the key, or else with the algorithm, or else of the country |
| Hex.HexIsInjective | crates/prover-core/src/certificates.rs:272-274 | of one length and in lower case a number has one numeral |
| Fields.BytesToHex | crates/prover-cli/src/main.rs:1195-1202 | the loop prints two lower-case digits for each byte |
| Fields.BytesHexValue | crates/prover-cli/src/main.rs:1195-1202 | the text denotes the big-endian number of the bytes |
| Fields.ParseInvertsBytesHex | crates/prover-cli/src/main.rs:1195-1202 | the bytes can be read back from the text |
| Fields.SplitHexFieldsIsLossless | crates/prover-cli/src/main.rs:1166-1178 | succeeds exactly for multiples of 32 bytes, gives length/32 texts of 66 characters, and the bytes can be read back |
| Fields.SplitFieldBuffer | scripts/outer-inputs.cjs:50-63 | the JavaScript loop agrees with the Rust function on every buffer, errors included |
| Fields.OuterNullifierIsPenultimate | crates/prover-cli/src/main.rs:1187-1193 | the nullifier is the hexadecimal text of bytes [len-64, len-32), if there are 64 |
| Fields.AddressIsModulo | server-go/api/server.go:375-387 | with 0x in front or without, the address denotes the field element modulo 2^160 |
| Fields.NormalizeEthAddressIsIdempotent | server-go/api/server.go:375-387 | normalising twice changes nothing |
| Fields.NormalizeEthAddress | server-go/api/server.go:375-387 | 42 characters that begin with 0x, for every input |
| Base64.DecodePayload | server-go/api/request.go:82-98 | translation, padding by length, standard decoding; whatever was encoded, in either alphabet, with or without padding and with any line breaks put in, is decoded if the breaks do not change the padding, and rejected otherwise |
| Base64.NormalizedIsStandard | server-go/api/request.go:84-92 | all four ways to write bytes normalise to the standard padded text |
| Base64.DecodeInvertsEncode | server-go/api/request.go:93 | standard decoding inverts standard padded encoding |
| Base64.SymbolsByLetter | server-go/api/request.go:64 | the two alphabets, letter by letter |
| Base64.QuantumIsNumber | server-go/api/request.go:64 | four characters are the digits of three bytes in base 64, most significant first |
| Base64.DecodesIff | server-go/api/request.go:93 | text is accepted exactly if it is a multiple of four symbols of which the last one or two may be padding |
| Base64.PayloadIsReadIff | server-go/api/request.go:82-98 | for every byte string, alphabet, padding and placement of line breaks: decoded exactly if the padding computed from the length is the one of the text without breaks |
| Base64.PayloadRoundTrip | server-go/api/request.go:82-98 | for every byte string, in either alphabet and with or without padding, the handler decodes what was encoded (the encoder is used at lines 64 and 132) |
| Presets.GetPresetByCountry | server-go/presets/presets.go:97-123 | in whatever order the map is visited, the result lists the country and no listing preset has fewer countries or as many and a smaller ID; the generic preset if none lists it |
| Presets.AnswerIsLeast | server-go/presets/presets.go:102-105 | if a preset lists the country, the answer lists it too and has fewer countries, or as many and an ID that is no greater |
| Presets.AnswerIsUnique | server-go/presets/presets.go:102-105 | with distinct IDs there is only one such result |
| Lexicographic.BelowIff | server-go/presets/presets.go:105 | the smaller string ends first or has the smaller character where the two first differ |

## Left out

- HTTP, QR images, templates, logging, command line and environment: no hard property.
- Witness solving, the `bb` and `node` subprocesses: proving is an arbitrary result.
- X.509 parsing: a function parameter. What it accepts and the certificate's own fields are not modelled.
- Sod.ReadSod: the loops as methods are those of a build with overflow checks, because the wrapping loops need not end; that build is modelled on values with a bound on rounds, in `Release`.
- Bytes outside ASCII in the machine-readable zone: the source accepts UTF-8 and could then slice inside a character.
- TD2 documents and TD1 document numbers of more than nine characters: the parser has no branch for them.
- MrzLayout.Td1RoundTripIff: it is about holders as documents are printed (`Dated`); for others with a code that begins with P nothing is claimed.
- SodRoundTrip.ParseSignedDataInverts: without a signer the reader takes what stands behind the file for one; nothing is stated then.
- The order of elements inside a DER SET OF: the encoded order is the order of the list.
- Tables of identifiers, hash names and curve names (`hash_from_oid`, `normalize`, `from_zkpassport_name`) and the key choice of `derive_document_circuit_context`: one-branch facts.
- Answers.LostRaceIsConflictIff: other database errors are assumed not to contain "duplicate"; their texts come from the driver.
- Slots.ProvingService.Acquire: a call that blocks is not a return; blocking is modelled in `Protocol`, where a waiting request has no enabled push.
- Server.AggregateServer.HandleAggregate: the two early answers (no proving service, undecodable body) are left out, and the call is one request by itself; interleavings are those of `Protocol`.
- Signer address, proof hash, version and times of a signature; how the fresh ID of a petition is made.
- Deleting or editing documents by other programs, and MongoDB's replication.
- JSON text: a file or response is the value that it decodes to, so serde's round trip is assumed; gzip likewise.
- Path separators in circuit names: `circuits/<name>.json` is one file per name.
- JSON numbers are reals: JavaScript rounds a number too small for a double to zero, which is falsy.
- ListPresets and the other listing functions of `presets.go`: presentation only.
