# Post-quantum account authorization on Soroban: a verified model

The repository lets a Soroban contract account be authorized by an ML-DSA signature. A client builds a
payload from a network id, a nonce, an expiry ledger and a call tree, signs its digest under a
domain-separation context, and submits an authorization entry; the host recomputes the payload from the
entry's own fields and asks the account contract, which checks the signature against the key it stores.
Two tools also report how many such authorizations fit into a ledger. This project models those parts in
Dafny 4.11 and proves what they promise.

| file | content |
|---|---|
| `Xdr.dfy`, `ContractTypes.dfy`, `CallTrees.dfy`, `Payload.dfy` | RFC 4506 primitives, addresses and other leaf types, contract values and call trees, the authorization preimage: encoder, strict decoder, both directions of the round trip, lengths |
| `Framing.dfy`, `Traits.dfy` | the FIPS 204 message framing, the trait layer as a record of functions with its contract `Lawful`, and the buffer-writing trait methods |
| `Packing.dfy`, `Hints.dfy`, `MlDsa.dfy` | FIPS 204 sections 7.1 and 7.2: bit packing, hint packing, key and signature encodings, and the ML-DSA scheme over an abstract lattice core |
| `Auth.dfy`, `Account.dfy`, `Verifier.dfy` | the client functions, the account contract as a class with storage, the verifier contract with its fixed buffers |
| `Host.dfy`, `Client.dfy`, `EndToEnd.dfy` | the protocol as a state machine over steps, the nonces and expiries of the tools, the whole path at ML-DSA-65 |
| `WireExamples.dfy` | the wire format in literal bytes: every union tag, the order of fields and elements, one whole call tree |
| `StandIns.dfy` | concrete schemes that meet, or deliberately exceed, the contracts assumed elsewhere |
| `Throughput.dfy` | the CAP-0063 ledger limit as a scheduling problem, and the reported closed form as its optimum |

## Assumptions

SHA-256 is an arbitrary function from byte strings to 32 bytes. Where a result needs it not to collide,
the hypothesis names only the payloads that the account's own key signs in the run at hand;
`DigestBindsEveryField` states the collision as an alternative instead. Lattice arithmetic is a record of
functions (`Lattice`) with the condition `Sound`. Unforgeability is a hypothesis on one submission of one
run: the message the account accepts is in the log of messages signed with its key so far
(`AcceptedWasSigned`), or, for the stronger `AcceptedSignatureWasProduced`, the signature is.
`HonestRunMeetsHypotheses` shows that the hypotheses hold of the honest run under any lawful scheme, when
the entry is in time and its signature has the full length, and `HypothesesAreSatisfiable` gives a concrete world, ML-DSA-65 over a computable core, in which they do.

The Stellar XDR definitions are not part of the repository. `ContractTypes.dfy` and `CallTrees.dfy` list
every union arm that is modelled, with its tag: all 22 value types, five kinds of address, and the three
kinds of authorized function.

## Where the code, or its promise, is narrower than its documentation

- The account's header says its logic is written against the traits rather than the scheme. It compares
  the signature length with the declared length, so this is true of fixed-length schemes. The trait layer
  also admits schemes with shorter signatures; `HonestEntryOutcome` and `AgreementNeedsFullLength` give the
  exact condition and `ShortSignatureIsRefused` a concrete scheme.
- `init` says it rejects a key that will not decode. For ML-DSA every string of the right length decodes
  (`KeysCanonical`), so `init` takes exactly the strings of 1952 bytes (`InitTakesEveryFullLengthKey`).
- `init` asks for no authorization and may be repeated. `HonestClientSucceeds` therefore speaks of runs
  that keep the key (`KeepsKey`); `LastInitDecides` states what happens in the others.
- A nonce is documented as unique per account. A host that drops expired records may accept a nonce again;
  nothing that was signed executes twice on that account all the same, because the new entry must expire
  later (`ReuseNeedsEviction`, `EvictionAllowsReuse`, `NothingExecutesTwice`).
- A signature is documented as impossible to replay at all, and the context as preventing replay from
  other contracts that use the same key. The payload does not name the account, and all instances of this
  contract share one context. So where one call asks two accounts that hold one key, one signature serves
  both; `OneSignatureTwoAccounts` is an input. The tool derives every key it stores from one fixed seed
  (`SharedKeySharesSignatures`). `MovesExactlyWhen` and `ReplaysExactlyWhen` give the exact condition and
  `OneSigningOneKey` shows that a shared key is needed. `protected` names its account, so a payload for it
  executes once over all accounts (`ProtectedOnceEverywhere`), and other contexts do separate
  (`ContextSeparates`).
- `MalformedEncoding` is documented for bad hints and out-of-range responses; `verify` reports those as
  `VerificationFailed`, and nothing on the verification path reports `MalformedEncoding`
  (`RefusalsAreCoarse`; `OneFillerByteIsRefused` is an input).
- `bench` prints that the transaction cap binds for no row. `CapDoesNotBind` gives the exact cost at which
  that becomes true, and `ZeroCost` when the guarded formula is right for a row of cost zero.
- `latest + 1000` is `u32` arithmetic, which wraps in a release build within the last 1000 ledger numbers
  (`ExpiryIsAhead`, `ExpiryCanWrap`).

## Model

| member | source | states |
|---|---|---|
| Payload.PreimageRoundTrip | crates/pq-stellar/src/payload.rs:63-74 | A byte string parses to a payload and a rest exactly when it is that payload's preimage followed by that rest: decoding undoes encoding for every tree, and only canonical bytes decode |
| Payload.PreimagePrefixFree | crates/pq-stellar/src/payload.rs:63-74 | Preimages followed by anything agree only if the payloads and what follows agree |
| Payload.DigestBindsEveryField | crates/pq-stellar/src/payload.rs:19-24 | Two payloads have the same signature payload exactly when network id, nonce, expiry and whole call tree agree, or their preimages are a hash collision |
| Payload.DigestIsHashOfPreimage | crates/pq-stellar/src/payload.rs:63-74 | Whatever bytes parse to a payload, its signature payload is the hash of exactly those bytes |
| Payload.GoldenDigest | crates/pq-stellar/tests/payload_golden.rs:27-58 | The signature payload of the pinned payload is the hash of 112 literal bytes, for every hash and both ids |
| Payload.GoldenPreimage | crates/pq-stellar/tests/payload_golden.rs:27-58 | All 112 bytes of the preimage that the golden vector pins, field by field as literals |
| Payload.PreimageLength | crates/pq-stellar/src/payload.rs:70-72 | The preimage of any tree is a whole number of four-byte blocks, the number computed recursively from the tree |
| Payload.OpaquePaddingIsZero | crates/pq-stellar/src/payload.rs:70-72 | Bytes after opaque data or a string are zero and fewer than four |
| CallTrees.DecEncTree | crates/pq-stellar/src/payload.rs:64-72 | Decoding a call tree's encoding followed by any bytes gives the tree and those bytes, at any depth and width |
| CallTrees.DecTreeSound | crates/pq-stellar/src/payload.rs:64-72 | What decodes to a call tree, contract creations included, is exactly that tree's encoding followed by the rest |
| CallTrees.DecEncVal | crates/pq-stellar/src/payload.rs:64-72 | The same round trip for contract values of every type, with nested vectors, maps and instance storage |
| CallTrees.DecValSound | crates/pq-stellar/src/payload.rs:64-72 | Contract values decode only from their canonical encoding |
| WireExamples.ValueTags | crates/pq-stellar/src/payload.rs:64-72 | The first four bytes of every contract value, as a literal tag for each of the 22 types |
| WireExamples.ValuesInOrder | crates/pq-stellar/src/payload.rs:64-72 | The encoding of a list of values is that of its elements in their own order |
| WireExamples.EntriesInOrder | crates/pq-stellar/src/payload.rs:64-72 | The same for map entries, each key before its value |
| WireExamples.TreesInOrder | crates/pq-stellar/src/payload.rs:64-72 | The same for sub-calls |
| WireExamples.ContainerBytes | crates/pq-stellar/src/payload.rs:64-72 | Literal flags and counts of vectors and maps, present and absent |
| WireExamples.FunctionBytes | crates/pq-stellar/src/payload.rs:64-72 | The fields of the three authorized functions in order, under literal tags, and a tree around one |
| WireExamples.TransferTreeBytes | crates/pq-stellar/src/payload.rs:21-24 | Every byte of a call with two different arguments, one of them negative and one a map, and a sub-call |
| Framing.FrameRoundTrip | crates/pq-core/src/traits.rs:67-72 | Framed bytes read back as a context and a message exactly when they are the frame of a context of at most 255 bytes and that message |
| Framing.FrameLayout | crates/pq-core/src/traits.rs:67-72 | A zero byte, the length of the context, the context, the message, at those places |
| Framing.FrameInjective | crates/pq-core/src/traits.rs:67-72 | For contexts that pass the length check, the framed bytes determine context and message |
| Framing.WrappedLengthByteIsAmbiguous | crates/pq-core/src/traits.rs:111-118 | A 256-byte context is refused, and framing it with a wrapped length byte would equal another frame |
| Traits.FromSeed | crates/pq-core/src/schemes/mldsa.rs:236-243 | A seed of the declared length gives the keypair of exactly that seed; every other is `InvalidLength` with both lengths, never padded or truncated |
| Traits.WriteTo | crates/pq-core/src/schemes/mldsa.rs:85-91 | The canonical encoding becomes a prefix of the buffer, the rest keeps its bytes; a short buffer is an error and stays unchanged |
| Traits.SignInto | crates/pq-core/src/schemes/mldsa.rs:183-202 | On success the signature is a prefix of the buffer and the rest keeps its bytes; which error comes when, and that no error changes the buffer |
| Packing.ChopSpread | crates/pq-core/src/schemes/mldsa.rs:111-123 | Numbers of one width survive conversion to bits and back |
| Packing.SpreadChop | crates/pq-core/src/schemes/mldsa.rs:111-123 | Bits survive conversion to numbers and back, with the count of numbers fixed |
| Packing.PackingKeepsTheNumber | crates/pq-core/src/schemes/mldsa.rs:111-123 | Coefficients as base-2^width digits and packed bytes as base-256 digits are the same number, least significant digit first |
| Packing.UnpackPackVector | crates/pq-core/src/schemes/mldsa.rs:111-123 | Unpacking a packed vector of polynomials returns it |
| Packing.PackUnpackVector | crates/pq-core/src/schemes/mldsa.rs:111-123 | Re-packing any unpacked byte string returns it |
| Hints.HintsCanonical | crates/pq-core/src/schemes/mldsa.rs:111-123 | Hint bytes unpack to a hint vector exactly when it is within the weight limit and they are its packed form |
| MlDsa.DeclaredLengths | crates/pq-core/src/schemes/mldsa.rs:257-275 | The lengths computed from the parameter sets are the declared 1312, 2420, 1952 and 3309 |
| MlDsa.KeysCanonical | crates/pq-core/src/schemes/mldsa.rs:80-99 | Every string of the declared length decodes to a key and no other; decoding and encoding are inverse both ways |
| MlDsa.KeyLayout | crates/pq-core/src/schemes/mldsa.rs:85-91 | Bytes 0 to 31 of a key are rho; each polynomial of t1 follows in its own 320 bytes, in order, the same number in base 1024 as the bytes in base 256 |
| MlDsa.SignaturesCanonical | crates/pq-core/src/schemes/mldsa.rs:111-123 | A string of the declared length decodes to a signature exactly when the signature is valid and the string is its encoding |
| MlDsa.SignatureLayout65 | crates/pq-core/src/schemes/mldsa.rs:111-123 | In an ML-DSA-65 signature bytes 0 to 47 are the challenge, coefficient z of response polynomial i is the base-2^20 digit 524,288 - z of the 640 bytes from 48 + 640 i, and the hints begin at 3248 |
| MlDsa.SignatureLayout44 | crates/pq-core/src/schemes/mldsa.rs:111-123 | The same for ML-DSA-44: 32, base 2^18, 131,072, 576 and 2336 |
| Hints.HintLayout | crates/pq-core/src/schemes/mldsa.rs:111-123 | Byte omega + i tells where the positions of hint polynomial i end; they are exactly the places of its ones in increasing order; the positions behind the last are zero |
| MlDsa.DecodesWhenInRange | crates/pq-core/src/schemes/mldsa.rs:111-123 | A string of the declared length decodes exactly if its hint bytes do and every response digit lies strictly between beta and 2 gamma1 - beta |
| MlDsa.ResponseBounds | crates/pq-core/src/schemes/mldsa.rs:111-123 | In figures: a response is in range exactly if every coefficient is below 524,092 in absolute value at ML-DSA-65, and below 130,994 at ML-DSA-44 |
| MlDsa.AcceptedIsCanonical | crates/pq-core/src/schemes/mldsa.rs:101-131 | `verify` accepts exactly the canonical encodings of values that the core accepts for the framed message, under a context of at most 255 bytes |
| MlDsa.RefusalsAreCoarse | crates/pq-core/src/schemes/mldsa.rs:108-129 | Refusals are a long context, then a wrong length, then one undifferentiated failure |
| MlDsa.MalformedHintsAreRefused | crates/pq-core/src/schemes/mldsa.rs:111-123 | A full-length signature with a nonzero byte among its unused hint positions is refused as `VerificationFailed`, whatever the core says |
| MlDsa.OneFillerByteIsRefused | crates/pq-core/src/schemes/mldsa.rs:111-123 | An ML-DSA-65 input of that kind: 3309 zero bytes but for the one at 3248 |
| MlDsa.OneFillerByteIsRefused44 | crates/pq-core/src/schemes/mldsa.rs:111-123 | The same at ML-DSA-44, with the byte at 2336 |
| MlDsa.LongResponsesAreRefused65 | crates/pq-core/src/schemes/mldsa.rs:111-123 | An ML-DSA-65 signature one of whose base-2^20 response digits is at most 196 or at least 1,048,380 is refused as `VerificationFailed`, whatever the core says |
| MlDsa.LongResponsesAreRefused44 | crates/pq-core/src/schemes/mldsa.rs:111-123 | The same at ML-DSA-44 with 78 and 262,066 |
| MlDsa.MlDsaLawful | crates/pq-core/src/traits.rs:49-109 | The scheme the macro builds meets the whole trait contract and has fixed-length signatures, for every parameter set and sound core |
| MlDsa.SeedKeysSign | crates/pq-core/src/schemes/mldsa.rs:183-202 | A seed-derived key signs under a context exactly when it has at most 255 bytes, always at the declared length |
| MlDsa.SeedsHave32Bytes | crates/pq-core/src/schemes/mldsa.rs:236-243 | At both parameter sets a seed makes a keypair exactly if it has 32 bytes, and is otherwise refused with 32 and its length |
| StandIns.HypothesesAreSatisfiable | contracts/pq-account/src/lib.rs:66-110 | In a concrete ML-DSA-65 world the honest run over any payload is accepted and meets all hypotheses of the soundness theorems together |
| StandIns.OneSignatureTwoAccounts | crates/pq-stellar/src/payload.rs:19-24 | An input on which one signature is accepted twice: two accounts keyed from one seed |
| StandIns.ShortSignatureIsRefused | contracts/pq-account/src/lib.rs:93-95 | Under a lawful variable-length scheme the client accepts an honest signature, over any payload, that the contract refuses as `BadSigLen` |
| Auth.SignAuthorization | crates/pq-stellar/src/auth.rs:21-31 | Exactly the bytes the signer produced for the payload's digest, nothing left of the scratch buffer, for fixed- and variable-length schemes |
| Auth.BuildAuthEntry | crates/pq-stellar/src/auth.rs:39-55 | An entry with the account, the payload's nonce, expiry and call tree, and that signature as bytes, or the error of the failing part |
| Auth.EncodeVerifyingKey | crates/pq-stellar/src/auth.rs:61-66 | Exactly the canonical key bytes |
| Auth.EntryIsSelfConsistent | crates/pq-stellar/tests/roundtrip.rs:72-94 | An entry carries the account, nonce, expiry and call tree it was built for and the signature that was made, which verifies against those fields |
| Auth.ClientErrors | crates/pq-stellar/src/auth.rs:21-55 | Which errors the client functions report: a long context, what signer or verifier report on the framed digest, a signature too long for XDR |
| Account.PqAccount.Init | contracts/pq-account/src/lib.rs:52-64 | Stores exactly an admissible key and otherwise changes nothing; which result is returned; storage stays well formed |
| Account.PqAccount.CheckAuth | contracts/pq-account/src/lib.rs:78-110 | Passes exactly when the stored key verifies a full-length signature under the account's context; `NotInited` on empty storage, `BadPubKeyLen` on a stored key of the wrong length, then `BadSigLen`, then `BadPubKeyLen` on a key that does not decode, and else `SigVerifyFailed` |
| Account.StorageIsLastAdmissible | contracts/pq-account/src/lib.rs:52-64 | After any calls, storage is empty exactly if every `init` failed, and holds a key, which decodes, exactly if the last `init` that succeeded had it as its argument |
| Account.InitializedRefusals | contracts/pq-account/src/lib.rs:84-109 | Once an `init` has succeeded, only `BadSigLen` and `SigVerifyFailed` remain, and which is which |
| Account.UninitializedRefusals | contracts/pq-account/src/lib.rs:84-88 | After any calls, `__check_auth` fails with `NotInited` exactly if no `init` has succeeded, for every digest and signature |
| Account.ContextText | contracts/pq-account/src/lib.rs:24-28 | The context is the thirteen characters `pq-account-v1` |
| Account.AgreementNeedsFullLength | contracts/pq-account/src/lib.rs:4-12 | At the declared length contract and client agree on every signature, and the contract refuses every other length; so they disagree exactly on a signature of another length that the client accepts, and never for fixed-length schemes |
| Verifier.Verify65 | contracts/pq-verifier/src/lib.rs:25-41 | The generic verdict on messages of at most 8192 bytes, and false on longer ones |
| Verifier.Verify44 | contracts/pq-verifier/src/lib.rs:44-60 | The same at ML-DSA-44 |
| Verifier.Decode65 | contracts/pq-verifier/src/lib.rs:64-69 | True exactly for 1952 bytes, because every such string is a key |
| Verifier.Decode44 | contracts/pq-verifier/src/lib.rs:71-76 | True exactly for 1312 bytes |
| Verifier.AdapterMeaning | crates/pq-core/src/schemes/slhdsa_sketch.rs:107-113 | The generic verdict is true exactly when the key string encodes a valid key and the signature string a valid signature that the core accepts under the empty context |
| Host.NonceRecords | crates/pq-stellar/src/payload.rs:10-24 | In every run a nonce is on record with an expiry exactly when an accepted entry used it with that expiry and its record was not evicted since |
| Host.ReuseNeedsEviction | crates/pq-stellar/src/payload.rs:10-24 | If an account accepts one nonce twice, its record was evicted in between, after the first entry had expired |
| Host.EvictionAllowsReuse | crates/pq-stellar/src/payload.rs:13 | An honest entry reusing a nonce whose recorded expiry has passed is refused before the eviction and accepted after it |
| Host.NothingExecutesTwice | crates/pq-stellar/src/payload.rs:13 | Whatever records are evicted when, no payload is accepted twice on one account: a second entry with the nonce expires later. Two accounts can accept one payload, for the same call |
| Host.ProtectedOnceEverywhere | contracts/pq-account/src/lib.rs:66-70 | A payload for `protected` executes at most once over all accounts together |
| Host.ReplaysExactlyWhen | crates/pq-stellar/src/payload.rs:19-24 | An accepted entry, readdressed to any account with the same key, is accepted in a later state exactly when it is in time and its nonce not on record there |
| Host.MovesExactlyWhen | crates/pq-stellar/src/payload.rs:63-69 | Right after it was accepted on one account, an entry is accepted on another with the same key exactly when that one has not recorded the nonce |
| Host.OneSigningOneKey | crates/pq-stellar/src/payload.rs:19-24 | Without forgery, two accepted calls share a once-signed payload only on two accounts that held the same key, for the same call |
| Host.ContextSeparates | contracts/pq-account/src/lib.rs:24-28 | A signature is one for an entry exactly if its key signed that payload's digest under `pq-account-v1`: signatures under other contexts never are, the account plays no part |
| Host.DeadAfterExpiry | crates/pq-stellar/src/payload.rs:14 | Once the ledger has passed an entry's expiry, the entry authorizes no call in any continuation of the run |
| Host.SuccessIsAddressed | contracts/pq-account/src/lib.rs:66-110 | A submission succeeds only with an entry addressed to the account that is asked, for the call that asks, in time, with an unrecorded nonce and a signature the account accepts for the hash of the entry's own fields |
| Host.KeyIsFromLastInit | contracts/pq-account/src/lib.rs:52-64 | In every run an account's key is that of its contract under the calls the run makes on it, hence the argument of the last `init` on it that succeeded |
| Host.AcceptedWasSigned | crates/pq-stellar/src/payload.rs:19-24 | Whenever an account authorizes a call, any call, an earlier step signed exactly that network id, nonce, expiry and call tree, rooted in that call, under `pq-account-v1`, with the key stored by the last successful `init` |
| Host.AcceptedSignatureWasProduced | crates/pq-stellar/src/payload.rs:19-24 | Under strong unforgeability the accepted signature is the very one that step produced |
| Host.GuardedAcceptsOnlySigned | crates/pq-stellar/src/payload.rs:19-24 | In a run without forgery everything an account authorizes was signed before with the key that guards it at that point, whatever others sign or submit |
| Host.AcceptedCallsAreSignedSeparately | crates/pq-stellar/src/payload.rs:19-24 | Two accepted calls on one account come from two different signing steps; no step signed for both |
| Host.HonestEntryOutcome | contracts/pq-account/src/lib.rs:66-110 | For any lawful scheme and any call, an honest entry authorizes its call exactly when it is in time, its nonce not on record and its signature full-length; otherwise which error |
| Host.HonestRunMeetsHypotheses | contracts/pq-account/src/lib.rs:66-110 | For any payload, if the ledger is within the expiry and the signature full-length, the run that stores a key, signs and submits succeeds and satisfies every hypothesis of both soundness theorems |
| Client.NoncesAreFresh | crates/pq-cli/src/bin/authorize.rs:54-59 | Over all u32 ledgers and both tools, nonces fit in i64 and are equal only for the same tool at the same ledger |
| Client.GoldenRun | crates/pq-stellar/tests/payload_golden.rs:27-41 | The nonce, expiry and call tree pinned there are what the older tool derives at ledger 4,217,130; the newer tool's nonce is twelve more |
| Client.UsedNonceMeansSameToolRun | phase0/harness/src/bin/submit.rs:62-63 | If what an account authorized so far came from tool runs, a nonce a tool derives is on record for it only if it is that of the same tool at the same ledger |
| Client.HolderDecides | crates/pq-cli/src/bin/authorize.rs:54-66 | It is enough that the holders of the account's keys sign under its context only in tool runs: what strangers sign and submit makes no difference |
| Client.ExpiryIsAhead | crates/pq-cli/src/bin/authorize.rs:57 | The derived expiry is not behind the ledger exactly when the u32 addition does not wrap |
| Client.ExpiryCanWrap | crates/pq-cli/src/bin/authorize.rs:57 | A ledger number at which it wraps to zero |
| EndToEnd.InitTakesEveryFullLengthKey | contracts/pq-account/src/lib.rs:52-64 | At ML-DSA-65, `init` takes exactly the strings of 1952 bytes |
| EndToEnd.ContractAgreesWithClient | contracts/pq-account/src/lib.rs:4-12 | At ML-DSA-65, contract and client agree for every storable key, payload and byte string of any length |
| EndToEnd.CheckAuthMeaning | contracts/pq-account/src/lib.rs:78-110 | `__check_auth` passes at ML-DSA-65 exactly if the stored bytes encode a valid key and the signature a valid value that the core accepts for 0, 13, the thirteen context bytes and the digest |
| EndToEnd.ClientCheckMeaning | crates/pq-stellar/src/auth.rs:72-81 | `verify_authorization` passes exactly if the core accepts the decoded signature for 0, the context's length, the context and the hash of the preimage |
| EndToEnd.SigningMeaning | crates/pq-stellar/src/auth.rs:21-31 | `sign_authorization` returns exactly the encoding of what the core signs for those same bytes |
| EndToEnd.HonestClientSucceeds | crates/pq-cli/src/bin/authorize.rs:36-72 | After any run, an `init` with a seed's key, and any further run that keeps it, the client's entry for any payload exists and authorizes its call exactly when in time with a nonce not on record |
| EndToEnd.LastInitDecides | contracts/pq-account/src/lib.rs:52-64 | Whatever key was stored before, an `init` with another seed's key puts it in force, and that seed's entries authorize calls from then on |
| EndToEnd.SharedKeySharesSignatures | crates/pq-cli/src/bin/authorize.rs:22-41 | After any run in which one seed's key guards two accounts, an honest entry accepted on the one is then accepted on the other exactly when that one has not recorded the nonce |
| EndToEnd.AuthorizeToolSucceeds | crates/pq-cli/src/bin/authorize.rs:54-72 | The tool's own nonce and expiry make `protected` execute, up to 1000 ledgers later, if what the account authorized before came from other tool runs |
| EndToEnd.AuthorizeToolSucceedsAmongStrangers | crates/pq-cli/src/bin/authorize.rs:54-72 | The same if only the holders of the account's keys keep to other tool runs, with no condition on what others sign or submit short of a forgery |
| EndToEnd.InitSignCheck | crates/pq-cli/src/bin/authorize.rs:32-66 | The flow through the methods themselves: the account ends up holding the seed's key and accepts the entry's signature |
| Throughput.PerLedgerIsOptimum | phase0/harness/src/bin/simulate.rs:262-282 | The closed form is attained by a schedule of identical transactions, and no schedule of any number of stages holds more transactions of at least that cost |
| Throughput.PhaseHolds | phase0/harness/src/bin/simulate.rs:262-268 | Any multi-stage schedule holds at most clusters times the number that fits into its critical path |
| Throughput.OptimumIsUnique | crates/pq-cli/src/bin/bench.rs:98-107 | Only one figure can be such an optimum |
| Throughput.ZeroCost | crates/pq-cli/src/bin/bench.rs:99-100 | The guarded formula is the optimum at cost zero exactly when the cap is within clusters times limit |
| Throughput.RoundingLoss | crates/pq-cli/src/bin/bench.rs:99-100 | Rounding per cluster loses less than one transaction per cluster |
| Throughput.PerLedgerMonotone | crates/pq-cli/src/bin/bench.rs:99-100 | The reported figure never rises with the cost |
| Throughput.CapDoesNotBind | crates/pq-cli/src/bin/bench.rs:108 | With the network's figures the cap does not bind exactly from a cost of 579,421 on |
| Throughput.ThroughputTable | crates/pq-cli/src/bin/bench.rs:98-104 | One line per row, in order. The parallel figure is the optimum for two clusters under the cap, free rows included; the sequential figure is the guarded quotient and, for rows that cost something, the optimum for one cluster |
| Throughput.SimulatedTable | phase0/harness/src/bin/simulate.rs:278-285 | A row is listed exactly if it succeeded at a nonzero cost, rows keep their order, and each line holds the optimal figures of its row |
| Throughput.FiguresOfTwoRows | crates/pq-cli/src/bin/bench.rs:98-104 | The figures printed for a free row and for one of five million instructions |

## Left out

- Lattice arithmetic, key expansion and rejection sampling: they live in a dependency that is not part of this model.
- SHA-256, Ed25519 and secp256r1, and the verifier's entry points for the latter two: foreign functions.
- Encoding and decoding of expanded signing keys: what the dependency does with malformed ones is its own.
- The `Xdr` error of `signature_payload`: values within the bounds of the Rust vector types always encode, and the model's call trees carry those bounds.
- Host rules beyond the ones described at the payload: limits on how far ahead an expiry may lie, which calls of a tree ask for an authorization and which accounts they ask, fees and resource limits.
- Scheme discriminants and names, display strings, RPC, transaction assembly, submission and polling, and every printed percentage, fee or slope.
- Instruction counts are unbounded integers; the products here stay far below the u64 range the tools compute in.
