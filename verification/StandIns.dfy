/** Concrete schemes, showing that the contracts assumed elsewhere can be met. */
module StandIns {
  import opened Wrappers
  import opened Bytes
  import opened Framing
  import opened Traits
  import opened Packing
  import opened Hints
  import opened MlDsa
  import opened ContractTypes
  import opened Payload
  import opened Auth
  import opened Account
  import opened Host
  import opened EndToEnd

  /** A checksum of key and message, standing in for the commitment hash. */
  function Checksum(rho: seq<byte>, m: seq<byte>): byte {
    if m == [] then (if rho == [] then 0 else (rho[0] as int + Checksum(rho[1..], m) as int) % 256)
    else (m[0] as int + Checksum(rho, m[1..]) as int) % 256
  }

  function ZeroPolys(count: nat): (ws: seq<seq<int>>)
    ensures |ws| == count && forall i :: 0 <= i < count ==> |ws[i]| == N && forall j :: 0 <= j < N ==> ws[i][j] == 0
  {
    seq(count, _ => seq(N, _ => 0))
  }

  function BlankHints(count: nat): (hs: seq<Hint>)
    ensures |hs| == count && forall i :: 0 <= i < count ==> forall x :: 0 <= x < 256 ==> !hs[i][x]
  {
    seq(count, _ => seq(256, _ => false))
  }

  function StandInSignature(p: Params, rho: seq<byte>, m: seq<byte>): Signature {
    Signature(seq(p.challengeLen, _ => Checksum(rho, m)), ZeroPolys(p.l),
              BlankHints(p.k))
  }

  datatype StandInKey = StandInKey(seed: Digest)

  /** A core whose keys are their seeds and whose one signature per message is a checksum. */
  function StandInCore(p: Params): Lattice<StandInKey> {
    Lattice(
      seed => StandInKey(if |seed| == 32 then seed else Zeros(32)),
      (sk: StandInKey) => VerifyingKey(sk.seed, ZeroPolys(p.k)),
      (sk: StandInKey, m) => Some(StandInSignature(p, sk.seed, m)),
      (vk: VerifyingKey, m, sig) => sig == StandInSignature(p, vk.rho, m))
  }

  lemma {:induction false} BlankRow(h: Hint, j: nat)
    requires j <= 256 && forall x :: 0 <= x < 256 ==> !h[x]
    ensures Positions(h, j) == []
    decreases 256 - j
  {
    if j < 256 { BlankRow(h, j + 1); }
  }

  lemma {:induction false} BlankHintsWeighNothing(hs: seq<Hint>)
    requires forall i :: 0 <= i < |hs| ==> forall x :: 0 <= x < 256 ==> !hs[i][x]
    ensures Weight(hs) == 0
  {
    if hs != [] {
      BlankRow(hs[0], 0);
      BlankHintsWeighNothing(hs[1..]);
    }
  }

  /** So the soundness condition on a core is met, at both parameter sets. */
  lemma StandInCoreIsSound(p: Params)
    requires p.beta < Gamma1(p)
    ensures Sound(p, StandInCore(p))
  {
    var core := StandInCore(p);
    forall sk: StandInKey
      ensures ValidKey(p, core.publicKey(sk))
    {
    }
    forall sk: StandInKey, m
      ensures ValidSignature(p, core.sign(sk, m).value)
    {
      BlankHintsWeighNothing(core.sign(sk, m).value.hints);
    }
  }

  /** At ML-DSA-65, the parameter set of the account. */
  lemma StandInCoreIsSound65()
    ensures Sound(ML_DSA_65, StandInCore(ML_DSA_65))
  {
    PowersUsed();
    StandInCoreIsSound(ML_DSA_65);
  }

  /** A world in which every signature can be computed: ML-DSA-65 over the stand-in core. */
  function StandInWorld(hash: HashFunction, networkId: Digest): World<VerifyingKey, StandInKey> {
    World65(StandInCore(ML_DSA_65), hash, networkId)
  }

  /** The entry an honest client builds there, under the all-zero seed. */
  function StandInEntry(hash: HashFunction, account: ScAddress, payload: AuthorizationPayload)
    : Result<AuthorizationEntry, StellarError>
  {
    AuthEntryFor(MlDsaScheme(ML_DSA_65, StandInCore(ML_DSA_65)), hash, account, StandInKey(Zeros(32)), payload, CONTEXT)
  }

  /**
   A world that satisfies every hypothesis of the soundness theorems together: for every hash, account,
   payload and call, the honest run over the stand-in core succeeds, meets what `AcceptedWasSigned` and
   `AcceptedSignatureWasProduced` ask for at its submission, and is `Guarded` throughout.
   */
  lemma HypothesesAreSatisfiable(hash: HashFunction, account: ScAddress, payload: AuthorizationPayload)
    ensures var w := StandInWorld(hash, payload.networkId);
      var entry := StandInEntry(hash, account, payload);
      entry.Ok? &&
      var run := HonestRun(w, account, StandInKey(Zeros(32)), payload, entry.value);
      MeetsHypotheses(w, 0, run, 2, SignerKey(w, StandInKey(Zeros(32)))) && Guarded(w, 0, run, account)
  {
    hide AuthorizationSignature, Lawful, MeetsHypotheses, Guarded, Sound, EncodeKey;
    var core := StandInCore(ML_DSA_65);
    var w := StandInWorld(hash, payload.networkId);
    var seed, sk := Zeros(32), StandInKey(Zeros(32));
    assert core.expand(seed) == sk;
    StandInCoreIsSound65();
    MlDsaLawful(ML_DSA_65, core);
    SeedKeysBuildEntries(core, hash, account, seed, payload);
    DeclaredLengths();
    var entry := StandInEntry(hash, account, payload).value;
    var sig := entry.credentials.signature.bytes;
    HonestRunMeetsHypotheses(w, 0, account, seed, payload, sig, entry);
    HonestRunIsGuarded(w, 0, account, sk, payload, entry, SignerKey(w, sk));
  }

  /**
   An input on which one signature executes twice: two accounts hold the key of one seed, and an entry
   built for the first is accepted for it and then, readdressed, for the second.
   */
  lemma OneSignatureTwoAccounts(hash: HashFunction, account: ScAddress, other: ScAddress,
                                payload: AuthorizationPayload)
    requires account != other
    ensures var w := StandInWorld(hash, payload.networkId);
      var st := Run(w, Initial(0), BothKeyed(account, other, KeyOf(StandInCore(ML_DSA_65), Zeros(32))));
      var built := StandInEntry(hash, account, payload);
      built.Ok? && built.value.credentials.AddressCredentials? &&
      var call, entry := payload.invocation.call, built.value;
      && Authorize(w, st, account, call, entry).Ok?
      && Authorize(w, Next(w, st, Submit(account, call, entry)), other, call, Readdressed(entry, other)).Ok?
  {
    hide Authorize, Authorizes, Sound, EncodeKey, AuthEntryFor;
    var core := StandInCore(ML_DSA_65);
    var keyed: seq<Step<StandInKey>> := BothKeyed(account, other, KeyOf(core, Zeros(32)));
    assert [] + keyed + [] == keyed && core.expand(Zeros(32)) == StandInKey(Zeros(32));
    StandInCoreIsSound65();
    BothKeyedState(StandInWorld(hash, payload.networkId), account, other, KeyOf(core, Zeros(32)));
    SharedKeySharesSignatures(core, hash, payload.networkId, 0, [], [], account, other, Zeros(32), payload);
  }

  lemma BothKeyedState<VK, SK>(w: World<VK, SK>, account: ScAddress, other: ScAddress, key: seq<byte>)
    ensures var st := Run(w, Initial(0), BothKeyed(account, other, key)); st.ledger == 0 && st.nonces == map[]
  {
    var steps: seq<Step<SK>> := BothKeyed(account, other, key);
    assert steps[..1] == [steps[0]] && steps[..1][..0] == [];
    assert Run(w, Initial(0), steps[..1]) == Next(w, Initial(0), steps[0]);
  }

  // ---- A variable-length scheme ---------------------------------------------------------------

  datatype OneKey = OneKey

  function VerifyShort(signature: seq<byte>): Result<(), PqError> {
    if signature == [7] then Ok(()) else Err(VerificationFailed)
  }

  function DecodeOneKey(b: seq<byte>): Result<OneKey, PqError> {
    if b == [] then Ok(OneKey) else Err(InvalidLength(0, |b|))
  }

  /** At most two bytes of signature, always one used, as the trait allows for compressed signatures. */
  function ShortScheme(): Scheme<OneKey, OneKey> {
    Scheme(0, 2, 0, vk => true, vk => [], b => DecodeOneKey(b), seed => OneKey, sk => OneKey,
           (sk, m) => Ok([7]), (vk, m, signature) => VerifyShort(signature))
  }

  lemma ShortSchemeIsLawful()
    ensures Lawful(ShortScheme()) && !FixedLength(ShortScheme())
  {
    var s := ShortScheme();
    assert s.verifyFramed(OneKey, [], [7]).Ok?;
    forall key: OneKey
      ensures s.decodeKey(s.encodeKey(key)) == Ok(key)
    {
      assert key == OneKey;
    }
    assert CanonicalKeys(s) && BoundedSignatures(s) && Complete(s);
  }

  /**
   The account's logic carries over to other fixed-length schemes only. Under this one the client's own
   check accepts the signature the client built, and the contract refuses it as `BadSigLen`.
   */
  lemma ShortSignatureIsRefused(hash: HashFunction, ledger: nat, account: ScAddress, payload: AuthorizationPayload)
    requires ledger <= payload.expirationLedger
    ensures VerifyAuthorization(ShortScheme(), hash, OneKey, payload, CONTEXT, [7]) == Ok(())
    ensures var entry := AuthEntryFor(ShortScheme(), hash, account, OneKey, payload, CONTEXT);
      var w := World(ShortScheme(), hash, payload.networkId);
      var st := State(ledger, map[account := []], map[], []);
      entry.Ok? && Authorize(w, st, account, payload.invocation.call, entry.value) == Err(Refused(BadSigLen))
  {
    ShortSchemeIsLawful();
    var st: State<OneKey> := State(ledger, map[account := []], map[], []);
    HonestEntryOutcome(World(ShortScheme(), hash, payload.networkId), st, account, [], payload);
  }
}
