/** The whole path at the parameter set the account uses, ML-DSA-65, with no condition on the scheme left. */
module EndToEnd {
  import opened Wrappers
  import opened Bytes
  import opened ContractTypes
  import opened CallTrees
  import opened Payload
  import opened Framing
  import opened Traits
  import opened MlDsa
  import opened Auth
  import opened Account
  import opened Host
  import opened Client

  function World65<SK>(core: Lattice<SK>, hash: HashFunction, networkId: Digest): World<VerifyingKey, SK> {
    World(MlDsaScheme(ML_DSA_65, core), hash, networkId)
  }

  /** The key a client stores for a seed. */
  function KeyOf<SK>(core: Lattice<SK>, seed: seq<byte>): seq<byte> {
    EncodeKey(ML_DSA_65, core.publicKey(core.expand(seed)))
  }

  /**
   `init` takes exactly the byte strings of the declared length: its decode check never refuses a
   string that its length check has let through.
   */
  lemma InitTakesEveryFullLengthKey<SK>(core: Lattice<SK>, pubkey: seq<byte>)
    ensures Admissible(MlDsaScheme(ML_DSA_65, core), pubkey) <==> |pubkey| == 1952
  {
    DeclaredLengths();
  }

  /**
   Contract and client agree: for every stored key `init` would take, every payload and every byte
   string of any length, `__check_auth` passes exactly when the client's check passes.
   */
  lemma ContractAgreesWithClient<SK(!new)>(core: Lattice<SK>, hash: HashFunction, stored: seq<byte>,
                                           payload: AuthorizationPayload, signature: seq<byte>)
    requires Sound(ML_DSA_65, core) && |stored| == 1952
    ensures var s := MlDsaScheme(ML_DSA_65, core);
      Authorizes(s, Some(stored), SignaturePayload(hash, payload), signature) <==>
      VerifyAuthorization(s, hash, DecodeKey(ML_DSA_65, stored).value, payload, CONTEXT, signature).Ok?
  {
    InitTakesEveryFullLengthKey(core, stored);
    MlDsaLawful(ML_DSA_65, core);
    AgreementNeedsFullLength(MlDsaScheme(ML_DSA_65, core), hash, stored, payload, signature);
  }

  /** This signature string encodes a valid value that the core accepts for exactly these bytes. */
  ghost predicate CoreAccepts<SK>(p: Params, core: Lattice<SK>, vk: VerifyingKey, bytes: seq<byte>,
                                  signature: seq<byte>) {
    exists sig :: ValidSignature(p, sig) && signature == EncodeSignature(p, sig) && core.verify(vk, bytes, sig)
  }

  /** What `sign_authorization` hands to the core, byte for byte, and what it returns. */
  lemma SigningMeaning<SK>(p: Params, core: Lattice<SK>, hash: HashFunction, sk: SK, payload: AuthorizationPayload,
                           context: seq<byte>, signature: seq<byte>)
    ensures AuthorizationSignature(MlDsaScheme(p, core), hash, sk, payload, context) == Ok(signature) <==>
      && |context| <= 255
      && var signed := core.sign(sk, [0, |context|] + (context + hash(Preimage(payload))));
         signed.Some? && ValidSignature(p, signed.value) && signature == EncodeSignature(p, signed.value)
  {
    hide ValidSignature, EncodeSignature, Preimage;
  }

  /** When `verify_authorization` passes: the bytes the core is asked about are the same. */
  lemma ClientCheckMeaning<SK>(p: Params, core: Lattice<SK>, hash: HashFunction, vk: VerifyingKey,
                               payload: AuthorizationPayload, context: seq<byte>, signature: seq<byte>)
    ensures VerifyAuthorization(MlDsaScheme(p, core), hash, vk, payload, context, signature).Ok? <==>
      && |context| <= 255
      && CoreAccepts(p, core, vk, [0, |context|] + (context + hash(Preimage(payload))), signature)
  {
    hide ValidSignature, EncodeSignature, Preimage, VerifyFramed, CoreAccepts, Opens;
    AcceptedIsCanonical(p, core, vk, SignaturePayload(hash, payload), context, signature);
    OkIsUnit(Verify(MlDsaScheme(p, core), vk, SignaturePayload(hash, payload), context, signature));
    if |context| <= 255 {
      CoreAcceptsOpened(p, core, vk, Frame(context, SignaturePayload(hash, payload)), signature);
    }
  }

  lemma OkIsUnit<E>(r: Result<(), E>)
    ensures r.Ok? <==> r == Ok(())
  {
    if r.Ok? { assert r.value == (); }
  }

  lemma CoreAcceptsOpened<SK>(p: Params, core: Lattice<SK>, vk: VerifyingKey, m: seq<byte>, signature: seq<byte>)
    ensures CoreAccepts(p, core, vk, m, signature) <==> exists sig :: Opens(p, core, vk, m, signature, sig)
  {
    hide ValidSignature, EncodeSignature;
    if CoreAccepts(p, core, vk, m, signature) {
      var sig :| ValidSignature(p, sig) && signature == EncodeSignature(p, sig) && core.verify(vk, m, sig);
      assert Opens(p, core, vk, m, signature, sig);
    }
  }

  /**
   When `__check_auth` passes at ML-DSA-65: what is stored encodes a valid key, and the core accepts the
   signature under it for 0, 13, the thirteen letters of `pq-account-v1` and the digest.
   */
  lemma CheckAuthMeaning<SK>(core: Lattice<SK>, stored: seq<byte>, digest: Digest, signature: seq<byte>)
    ensures Authorizes(MlDsaScheme(ML_DSA_65, core), Some(stored), digest, signature) <==>
      exists vk :: ValidKey(ML_DSA_65, vk) && stored == EncodeKey(ML_DSA_65, vk) &&
        CoreAccepts(ML_DSA_65, core, vk,
          [0, 13] + ([112, 113, 45, 97, 99, 99, 111, 117, 110, 116, 45, 118, 49] + digest), signature)
  {
    hide ValidSignature, EncodeSignature, VerifyFramed, ValidKey, EncodeKey, DecodeKey, CoreAccepts, Opens;
    var s := MlDsaScheme(ML_DSA_65, core);
    DeclaredLengths();
    assert Frame(CONTEXT, digest) ==
           [0, 13] + ([112, 113, 45, 97, 99, 99, 111, 117, 110, 116, 45, 118, 49] + digest);
    forall vk
      ensures DecodeKey(ML_DSA_65, stored) == Ok(vk) <==> ValidKey(ML_DSA_65, vk) && stored == EncodeKey(ML_DSA_65, vk)
    {
      KeysCanonical(ML_DSA_65, stored, vk);
    }
    if DecodeKey(ML_DSA_65, stored).Ok? {
      var vk := DecodeKey(ML_DSA_65, stored).value;
      KeysCanonical(ML_DSA_65, stored, vk);
      AcceptedIsCanonical(ML_DSA_65, core, vk, digest, CONTEXT, signature);
      OkIsUnit(Verify(s, vk, digest, CONTEXT, signature));
      CoreAcceptsOpened(ML_DSA_65, core, vk, Frame(CONTEXT, digest), signature);
      AcceptedLength(core, vk, Frame(CONTEXT, digest), signature);
    }
  }

  lemma AcceptedLength<SK>(core: Lattice<SK>, vk: VerifyingKey, m: seq<byte>, signature: seq<byte>)
    ensures CoreAccepts(ML_DSA_65, core, vk, m, signature) ==> |signature| == 3309
  {
    DeclaredLengths();
  }

  /** Steps in which the account's key is not replaced. */
  ghost predicate KeepsKey<VK, SK>(w: World<VK, SK>, steps: seq<Step<SK>>, account: ScAddress) {
    forall i :: 0 <= i < |steps| && steps[i].Init? && steps[i].account == account ==>
      !Admissible(w.scheme, steps[i].pubkey)
  }

  lemma {:induction false} KeyIsKept<VK, SK>(w: World<VK, SK>, ledger: nat, before: seq<Step<SK>>,
                                             after: seq<Step<SK>>, account: ScAddress)
    requires KeepsKey(w, after, account)
    ensures StoredKey(Run(w, Initial(ledger), before + after), account) ==
            StoredKey(Run(w, Initial(ledger), before), account)
  {
    hide Next, StoredKey;
    if after == [] {
      assert before + after == before;
    } else {
      var n := |after| - 1;
      assert (before + after)[..|before| + n] == before + after[..n];
      KeyIsKept(w, ledger, before, after[..n], account);
      StorageStep(w, Run(w, Initial(ledger), before + after[..n]), after[n], account);
    }
  }

  /** A stored key stays in force until an `init` on the same account replaces it. */
  lemma KeyInForce<SK(!new)>(core: Lattice<SK>, w: World<VerifyingKey, SK>, ledger: nat, before: seq<Step<SK>>,
                             after: seq<Step<SK>>, account: ScAddress, key: seq<byte>)
    requires w.scheme == MlDsaScheme(ML_DSA_65, core) && |key| == 1952
    requires KeepsKey(w, after, account)
    ensures StoredKey(Run(w, Initial(ledger), before + [Step.Init(account, key)] + after), account) == Some(key)
  {
    hide Next;
    var stored := before + [Step.Init(account, key)];
    assert stored[..|before|] == before;
    InitTakesEveryFullLengthKey(core, key);
    StorageStep(w, Run(w, Initial(ledger), before), Step.Init(account, key), account);
    KeyIsKept(w, ledger, stored, after, account);
  }

  /** A seed's key is 1952 bytes, and every payload can be signed with it. */
  lemma SeedKeysBuildEntries<SK(!new)>(core: Lattice<SK>, hash: HashFunction, account: ScAddress, seed: seq<byte>,
                                       payload: AuthorizationPayload)
    requires Sound(ML_DSA_65, core) && |seed| == SEED_LEN
    ensures |KeyOf(core, seed)| == 1952
    ensures var entry := AuthEntryFor(MlDsaScheme(ML_DSA_65, core), hash, account, core.expand(seed), payload, CONTEXT);
      entry.Ok? && entry.value.credentials.AddressCredentials? && entry.value.credentials.signature.Bytes? &&
      |entry.value.credentials.signature.bytes| == 3309
  {
    hide EncodeKey, DecodeKey, ValidKey, SignFramed, EncodeSignature, DecodeSignature, ValidSignature;
    DeclaredLengths();
    KeysCanonical(ML_DSA_65, KeyOf(core, seed), core.publicKey(core.expand(seed)));
    SeedKeysSign(ML_DSA_65, core, seed, SignaturePayload(hash, payload), CONTEXT);
  }

  /**
   End to end. After any run, store a seed's key with `init`; after any further run that does not
   replace that key, the entry the client builds for a payload exists, and it authorizes the payload's
   call exactly when the ledger is within the expiry and the nonce is not on record.
   */
  lemma HonestClientSucceeds<SK(!new)>(
    core: Lattice<SK>, hash: HashFunction, networkId: Digest, ledger: nat, before: seq<Step<SK>>,
    after: seq<Step<SK>>, account: ScAddress, seed: seq<byte>, payload: AuthorizationPayload)
    requires Sound(ML_DSA_65, core) && |seed| == SEED_LEN && payload.networkId == networkId
    requires KeepsKey(World65(core, hash, networkId), after, account)
    ensures BytesToScVal(KeyOf(core, seed)) == Ok(ScVal.Bytes(KeyOf(core, seed)))
    ensures var w := World65(core, hash, networkId);
      var st := Run(w, Initial(ledger), before + [Step.Init(account, KeyOf(core, seed))] + after);
      var entry := AuthEntryFor(w.scheme, hash, account, core.expand(seed), payload, CONTEXT);
      entry.Ok? &&
      Authorize(w, st, account, payload.invocation.call, entry.value) ==
        if st.ledger > payload.expirationLedger then Err(Expired)
        else if Recorded(st, account, payload.nonce) then Err(NonceUsed)
        else Ok(())
  {
    hide Authorize, Run, AuthEntryFor, Lawful, EncodeKey;
    var w := World65(core, hash, networkId);
    DeclaredLengths();
    MlDsaLawful(ML_DSA_65, core);
    SeedKeysBuildEntries(core, hash, account, seed, payload);
    KeyInForce(core, w, ledger, before, after, account, KeyOf(core, seed));
    HonestEntryOutcome(w, Run(w, Initial(ledger), before + [Step.Init(account, KeyOf(core, seed))] + after),
                       account, seed, payload);
  }

  /**
   `init` asks for no authorization and may be repeated, so the last `init` decides: whichever key was
   stored before, and whatever happened since, an `init` with another seed's key puts that key in force,
   and from then on that seed's entries authorize calls.
   */
  lemma LastInitDecides<SK(!new)>(
    core: Lattice<SK>, hash: HashFunction, networkId: Digest, ledger: nat, before: seq<Step<SK>>,
    account: ScAddress, oldSeed: seq<byte>, between: seq<Step<SK>>, seed: seq<byte>, payload: AuthorizationPayload)
    requires Sound(ML_DSA_65, core) && |oldSeed| == SEED_LEN && |seed| == SEED_LEN
    requires payload.networkId == networkId
    requires var w := World65(core, hash, networkId);
      var st := Run(w, Initial(ledger), before + [Step.Init(account, KeyOf(core, oldSeed))] + between);
      st.ledger <= payload.expirationLedger && !Recorded(st, account, payload.nonce)
    ensures var w := World65(core, hash, networkId);
      var history := before + [Step.Init(account, KeyOf(core, oldSeed))] + between;
      var st := Run(w, Initial(ledger), history + [Step.Init(account, KeyOf(core, seed))]);
      var entry := AuthEntryFor(w.scheme, hash, account, core.expand(seed), payload, CONTEXT);
      StoredKey(st, account) == Some(KeyOf(core, seed)) &&
      entry.Ok? && Authorize(w, st, account, payload.invocation.call, entry.value) == Ok(())
  {
    hide Authorize, AuthEntryFor, EncodeKey;
    var w := World65(core, hash, networkId);
    var history := before + [Step.Init(account, KeyOf(core, oldSeed))] + between;
    var steps := history + [Step.Init(account, KeyOf(core, seed))];
    assert steps + [] == steps && steps[..|history|] == history;
    RunSnoc(w, Initial(ledger), steps, |history|);
    assert steps[..|history| + 1] == steps;
    SeedKeysBuildEntries(core, hash, account, seed, payload);
    KeyInForce(core, w, ledger, history, [], account, KeyOf(core, seed));
    HonestClientSucceeds(core, hash, networkId, ledger, history, [], account, seed, payload);
  }

  /**
   The tool derives every key it stores from one seed. Whenever a seed's key guards two accounts, after
   any run, an entry in time with a nonce not on record for the one is accepted there, and then for the
   other, unless that one has the nonce on record.
   */
  lemma SharedKeySharesSignatures<SK(!new)>(
    core: Lattice<SK>, hash: HashFunction, networkId: Digest, ledger: nat, before: seq<Step<SK>>,
    after: seq<Step<SK>>, account: ScAddress, other: ScAddress, seed: seq<byte>, payload: AuthorizationPayload)
    requires Sound(ML_DSA_65, core) && |seed| == SEED_LEN && payload.networkId == networkId
    requires account != other
    requires KeepsKey(World65(core, hash, networkId), after, account)
    requires KeepsKey(World65(core, hash, networkId), after, other)
    requires var st := Run(World65(core, hash, networkId), Initial(ledger),
                           before + BothKeyed(account, other, KeyOf(core, seed)) + after);
      st.ledger <= payload.expirationLedger && !Recorded(st, account, payload.nonce)
    ensures var w := World65(core, hash, networkId);
      var st := Run(w, Initial(ledger), before + BothKeyed(account, other, KeyOf(core, seed)) + after);
      var built := AuthEntryFor(w.scheme, hash, account, core.expand(seed), payload, CONTEXT);
      built.Ok? && built.value.credentials.AddressCredentials? &&
      var call, entry := payload.invocation.call, built.value;
      && Authorize(w, st, account, call, entry) == Ok(())
      && (Authorize(w, Next(w, st, Submit(account, call, entry)), other, call, Readdressed(entry, other)).Ok? <==>
          !Recorded(st, other, payload.nonce))
  {
    hide Authorize, Run, Next, AuthEntryFor, EncodeKey, Lawful;
    var w, key := World65(core, hash, networkId), KeyOf(core, seed);
    var steps := before + BothKeyed(account, other, key) + after;
    var st := Run(w, Initial(ledger), steps);
    assert steps == before + [Step.Init(account, key)] + ([Step.Init(other, key)] + after);
    assert steps == (before + [Step.Init(account, key)]) + [Step.Init(other, key)] + after;
    SeedKeysBuildEntries(core, hash, account, seed, payload);
    EntryCarriesPayload(core, hash, account, seed, payload);
    var later := [Step.Init(other, key)] + after;
    HonestClientSucceeds(core, hash, networkId, ledger, before, later, account, seed, payload);
    KeyInForce(core, w, ledger, before, later, account, key);
    KeyInForce(core, w, ledger, before + [Step.Init(account, key)], after, other, key);
    MovesExactlyWhen(w, st, account, payload.invocation.call,
                     AuthEntryFor(w.scheme, hash, account, core.expand(seed), payload, CONTEXT).value, other);
  }

  /** One key stored on two accounts. */
  function BothKeyed<SK>(account: ScAddress, other: ScAddress, key: seq<byte>): seq<Step<SK>> {
    [Step.Init(account, key), Step.Init(other, key)]
  }

  lemma EntryCarriesPayload<SK(!new)>(core: Lattice<SK>, hash: HashFunction, account: ScAddress, seed: seq<byte>,
                                      payload: AuthorizationPayload)
    requires Sound(ML_DSA_65, core) && |seed| == SEED_LEN
    ensures var entry := AuthEntryFor(MlDsaScheme(ML_DSA_65, core), hash, account, core.expand(seed), payload, CONTEXT);
      entry.Ok? && entry.value.credentials.AddressCredentials? &&
      EntryPayload(payload.networkId, entry.value) == payload
  {
    hide AuthEntryFor, Lawful;
    SeedKeysBuildEntries(core, hash, account, seed, payload);
    MlDsaLawful(ML_DSA_65, core);
    EntryIsSelfConsistent(MlDsaScheme(ML_DSA_65, core), hash, account, seed, payload, CONTEXT);
  }

  /**
   The tool's own flow: `authorize ... init`, then `authorize ... auth`. If everything the account
   authorized before came from some other tool run, it succeeds at any ledger up to 1000 after the one
   it read.
   */
  lemma AuthorizeToolSucceeds<SK(!new)>(
    core: Lattice<SK>, hash: HashFunction, networkId: Digest, ledger: nat, before: seq<Step<SK>>,
    after: seq<Step<SK>>, runs: set<(Tool, u32)>, account: ScAddress, seed: seq<byte>, latest: u32)
    requires Sound(ML_DSA_65, core) && |seed| == SEED_LEN
    requires KeepsKey(World65(core, hash, networkId), after, account)
    requires var steps := before + [Step.Init(account, KeyOf(core, seed))] + after;
      var w := World65(core, hash, networkId);
      && AcceptedFrom(w, ledger, steps, account, runs) && (AuthorizeTool, latest) !in runs
      && Run(w, Initial(ledger), steps).ledger <= latest + 1000 < 0x1_0000_0000
    ensures var w := World65(core, hash, networkId);
      var st := Run(w, Initial(ledger), before + [Step.Init(account, KeyOf(core, seed))] + after);
      var entry := AuthEntryFor(w.scheme, hash, account, core.expand(seed),
                                ClientPayload(AuthorizeTool, networkId, latest, account), CONTEXT);
      entry.Ok? && Protected(w, st, account, entry.value) == Ok(42)
  {
    hide Authorize, Run, AuthEntryFor;
    var w := World65(core, hash, networkId);
    var steps := before + [Step.Init(account, KeyOf(core, seed))] + after;
    HonestClientSucceeds(core, hash, networkId, ledger, before, after, account, seed,
                         ClientPayload(AuthorizeTool, networkId, latest, account));
    UsedNonceMeansSameToolRun(w, ledger, steps, runs, account, AuthorizeTool, latest);
  }

  /**
   Nobody else can make the tool fail. It is enough that the holders of the account's keys sign under
   its context only in other tool runs: strangers may sign what they like and submit what they like, on
   any account, as long as they forge nothing.
   */
  lemma AuthorizeToolSucceedsAmongStrangers<SK(!new)>(
    core: Lattice<SK>, hash: HashFunction, networkId: Digest, ledger: nat, before: seq<Step<SK>>,
    after: seq<Step<SK>>, runs: set<(Tool, u32)>, account: ScAddress, seed: seq<byte>, latest: u32)
    requires Sound(ML_DSA_65, core) && |seed| == SEED_LEN
    requires KeepsKey(World65(core, hash, networkId), after, account)
    requires var steps := before + [Step.Init(account, KeyOf(core, seed))] + after;
      var w := World65(core, hash, networkId);
      && Guarded(w, ledger, steps, account)
      && HolderSignsFor(w, steps, account, runs) && (AuthorizeTool, latest) !in runs
      && Run(w, Initial(ledger), steps).ledger <= latest + 1000 < 0x1_0000_0000
    ensures var w := World65(core, hash, networkId);
      var st := Run(w, Initial(ledger), before + [Step.Init(account, KeyOf(core, seed))] + after);
      var entry := AuthEntryFor(w.scheme, hash, account, core.expand(seed),
                                ClientPayload(AuthorizeTool, networkId, latest, account), CONTEXT);
      entry.Ok? && Protected(w, st, account, entry.value) == Ok(42)
  {
    hide Protected, Run, AuthEntryFor, Guarded, HolderSignsFor, AcceptedFrom;
    var w := World65(core, hash, networkId);
    var steps := before + [Step.Init(account, KeyOf(core, seed))] + after;
    HolderDecides(w, ledger, steps, account, runs);
    AuthorizeToolSucceeds(core, hash, networkId, ledger, before, after, runs, account, seed, latest);
  }

  /** What the contract's check makes of an honest entry under the seed's key. */
  lemma HonestSignatureAuthorizes<SK(!new)>(core: Lattice<SK>, hash: HashFunction, account: ScAddress,
                                            seed: seq<byte>, payload: AuthorizationPayload)
    requires Sound(ML_DSA_65, core) && |seed| == SEED_LEN
    requires AuthorizationSignature(MlDsaScheme(ML_DSA_65, core), hash, core.expand(seed), payload, CONTEXT).Ok?
    ensures var s := MlDsaScheme(ML_DSA_65, core);
      Authorizes(s, Some(KeyOf(core, seed)), SignaturePayload(hash, payload),
                 AuthorizationSignature(s, hash, core.expand(seed), payload, CONTEXT).value)
  {
    hide EncodeKey, DecodeKey, ValidKey, SignFramed, VerifyFramed, EncodeSignature, DecodeSignature, ValidSignature;
    var s := MlDsaScheme(ML_DSA_65, core);
    MlDsaLawful(ML_DSA_65, core);
    SeedKeysBuildEntries(core, hash, account, seed, payload);
    KeysCanonical(ML_DSA_65, KeyOf(core, seed), core.publicKey(core.expand(seed)));
    EntryIsSelfConsistent(s, hash, account, seed, payload, CONTEXT);
    DeclaredLengths();
  }

  /**
   The same flow through the contract and the client methods themselves: derive the keys, store the
   verifying key, build the entry, and let the account check the signature the entry carries.
   */
  method InitSignCheck<SK(!new)>(core: Lattice<SK>, hash: HashFunction, networkId: Digest, latest: u32,
                                 address: ScAddress, account: PqAccount<VerifyingKey, SK>, seed: seq<byte>)
    returns (r: Result<(), ContractError>)
    requires Sound(ML_DSA_65, core) && |seed| == SEED_LEN
    requires account.scheme == MlDsaScheme(ML_DSA_65, core)
    modifies account
    ensures r.Ok?
    ensures account.pubKey == Some(KeyOf(core, seed))
  {
    hide EncodeKey, ValidKey, AuthorizationSignature, Authorizes, Admissible, Lawful;
    var scheme := MlDsaScheme(ML_DSA_65, core);
    var payload := ClientPayload(AuthorizeTool, networkId, latest, address);
    DeclaredLengths();
    MlDsaLawful(ML_DSA_65, core);
    SeedKeysBuildEntries(core, hash, address, seed, payload);
    InitTakesEveryFullLengthKey(core, KeyOf(core, seed));
    HonestSignatureAuthorizes(core, hash, address, seed, payload);

    var keys := FromSeed(scheme, seed);
    var stored := EncodeVerifyingKey(scheme, keys.value.verifying);
    var initialized := account.Init(stored.value.bytes);
    var entry := BuildAuthEntry(scheme, hash, address, keys.value.signing, payload, CONTEXT);
    r := account.CheckAuth(SignaturePayload(hash, payload), entry.value.credentials.signature.bytes);
  }
}
