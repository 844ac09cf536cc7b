/**
 The protocol around the account: clients sign, anyone submits, and the Soroban host recomputes the
 payload from an entry's own fields and its own network id, checks expiry and nonce, and asks the
 account. A run is any finite interleaving of steps.
 */
module Host {
  import opened Wrappers
  import opened Bytes
  import opened ContractTypes
  import opened CallTrees
  import opened Payload
  import opened Framing
  import opened Traits
  import opened Auth
  import opened Account

  datatype World<!VK, !SK> = World(scheme: Scheme<VK, SK>, hash: HashFunction, networkId: Digest)

  /** A signature that was produced: by which key, over which message, under which context. */
  datatype Signing<+SK> = Signing(sk: SK, message: seq<byte>, context: seq<byte>, signature: seq<byte>)

  /** `nonces` holds each recorded nonce with the expiry of the entry that used it. */
  datatype State<+SK> = State(
    ledger: nat,
    accounts: map<ScAddress, seq<byte>>,
    nonces: map<(ScAddress, i64), u32>,
    signings: seq<Signing<SK>>)

  datatype Step<+SK> =
    | CloseLedgers(count: nat)
    | Init(account: ScAddress, pubkey: seq<byte>)
    | SignEntry(sk: SK, payload: AuthorizationPayload, context: seq<byte>)
    | SignElsewhere(sk: SK, message: seq<byte>, context: seq<byte>)
    | Submit(account: ScAddress, call: AuthorizedFn, entry: AuthorizationEntry)
    | EvictNonce(account: ScAddress, nonce: i64)

  datatype HostError =
    | WrongCredentials
    | WrongInvocation
    | Expired
    | NonceUsed
    | WrongSignatureType
    | Refused(error: ContractError)

  function Initial<SK>(ledger: nat): State<SK> {
    State(ledger, map[], map[], [])
  }

  function StoredKey<SK>(st: State<SK>, account: ScAddress): Storage {
    if account in st.accounts then Some(st.accounts[account]) else None
  }

  /** The payload as the host recomputes it. */
  function EntryPayload(networkId: Digest, entry: AuthorizationEntry): AuthorizationPayload
    requires entry.credentials.AddressCredentials?
  {
    AuthorizationPayload(networkId, entry.credentials.nonce, entry.credentials.expirationLedger,
                         entry.rootInvocation)
  }

  /** `account.require_auth()` inside `call`, answered with this entry. */
  function Authorize<VK, SK>(w: World<VK, SK>, st: State<SK>, account: ScAddress, call: AuthorizedFn,
                             entry: AuthorizationEntry): Result<(), HostError> {
    if !entry.credentials.AddressCredentials? || entry.credentials.address != account then Err(WrongCredentials)
    else if entry.rootInvocation.call != call then Err(WrongInvocation)
    else if st.ledger > entry.credentials.expirationLedger then Err(Expired)
    else if Recorded(st, account, entry.credentials.nonce) then Err(NonceUsed)
    else if !entry.credentials.signature.Bytes? then Err(WrongSignatureType)
    else
      var digest := SignaturePayload(w.hash, EntryPayload(w.networkId, entry));
      var signature := entry.credentials.signature.bytes;
      if !Authorizes(w.scheme, StoredKey(st, account), digest, signature) then
        Err(Refused(Refusal(w.scheme, StoredKey(st, account), signature)))
      else Ok(())
  }

  /** `protected()` on the account itself. */
  function ProtectedCall(account: ScAddress): AuthorizedFn {
    ContractFn(account, PROTECTED, [])
  }

  /** A transaction calling `protected` on `account` with this entry: its return value or its failure. */
  function Protected<VK, SK>(w: World<VK, SK>, st: State<SK>, account: ScAddress,
                             entry: AuthorizationEntry): Result<u32, HostError> {
    match Authorize(w, st, account, ProtectedCall(account), entry)
    case Err(e) => Err(e)
    case Ok(_) => Ok(42)
  }

  predicate Recorded<SK>(st: State<SK>, account: ScAddress, nonce: i64) {
    (account, nonce) in st.nonces
  }

  /**
   One step. A failed `init`, signing or transaction changes nothing. The record of a nonce may be
   evicted, at any time or never, once the expiry of the entry that used it has passed.
   */
  function Next<VK, SK>(w: World<VK, SK>, st: State<SK>, step: Step<SK>): State<SK> {
    match step
    case CloseLedgers(count) => st.(ledger := st.ledger + count)
    case Init(account, pubkey) =>
      (match AfterInit(w.scheme, StoredKey(st, account), pubkey)
       case None => st
       case Some(key) => st.(accounts := st.accounts[account := key]))
    case SignEntry(sk, payload, context) =>
      (match AuthorizationSignature(w.scheme, w.hash, sk, payload, context)
       case Err(_) => st
       case Ok(sig) => st.(signings := st.signings + [Signing(sk, SignaturePayload(w.hash, payload), context, sig)]))
    case SignElsewhere(sk, message, context) =>
      (match SignedBytes(w.scheme, sk, message, context)
       case Err(_) => st
       case Ok(sig) => st.(signings := st.signings + [Signing(sk, message, context, sig)]))
    case Submit(account, call, entry) =>
      (match Authorize(w, st, account, call, entry)
       case Err(_) => st
       case Ok(_) =>
         st.(nonces := st.nonces[(account, entry.credentials.nonce) := entry.credentials.expirationLedger]))
    case EvictNonce(account, nonce) =>
      if Recorded(st, account, nonce) && st.nonces[(account, nonce)] < st.ledger then
        st.(nonces := st.nonces - {(account, nonce)})
      else st
  }

  function Run<VK, SK>(w: World<VK, SK>, st: State<SK>, steps: seq<Step<SK>>): State<SK> {
    if steps == [] then st else Next(w, Run(w, st, steps[..|steps| - 1]), steps[|steps| - 1])
  }

  lemma RunSnoc<VK, SK>(w: World<VK, SK>, st: State<SK>, steps: seq<Step<SK>>, i: nat)
    requires i < |steps|
    ensures Run(w, st, steps[..i + 1]) == Next(w, Run(w, st, steps[..i]), steps[i])
  {
    assert steps[..i + 1][..i] == steps[..i];
  }

  /** Step `i` of a run from `ledger` is a call that its entry authorizes. */
  ghost predicate Succeeds<VK, SK>(w: World<VK, SK>, ledger: nat, steps: seq<Step<SK>>, i: nat) {
    i < |steps| && steps[i].Submit? &&
    Authorize(w, Run(w, Initial(ledger), steps[..i]), steps[i].account, steps[i].call, steps[i].entry).Ok?
  }

  /**
   A submission succeeds only with an entry that is addressed to the account that is asked, for the very
   call that asks, in time, under a nonce not on record, and with the bytes of a signature that the account
   accepts for the hash of the entry's own fields under the host's network.
   */
  lemma SuccessIsAddressed<VK, SK>(w: World<VK, SK>, ledger: nat, steps: seq<Step<SK>>, i: nat)
    requires Succeeds(w, ledger, steps, i)
    ensures var st, entry := Run(w, Initial(ledger), steps[..i]), steps[i].entry;
      && entry.credentials.AddressCredentials? && entry.credentials.address == steps[i].account
      && entry.rootInvocation.call == steps[i].call
      && st.ledger <= entry.credentials.expirationLedger
      && (steps[i].account, entry.credentials.nonce) !in st.nonces
      && entry.credentials.signature.Bytes? && steps[i].account in st.accounts
      && Authorizes(w.scheme, Some(st.accounts[steps[i].account]),
           w.hash(Preimage(AuthorizationPayload(w.networkId, entry.credentials.nonce,
                                                entry.credentials.expirationLedger, entry.rootInvocation))),
           entry.credentials.signature.bytes)
  {
    hide Run, Verify, Admissible, Preimage;
  }

  // ---- Replay and expiry ---------------------------------------------------------------------

  lemma LedgerStep<VK, SK>(w: World<VK, SK>, st: State<SK>, step: Step<SK>)
    ensures Next(w, st, step).ledger == st.ledger + if step.CloseLedgers? then step.count else 0
  {
    hide Authorize, StoredKey, AuthorizationSignature, SignedBytes;
  }

  lemma {:induction false} LedgerGrows<VK, SK>(w: World<VK, SK>, st: State<SK>, steps: seq<Step<SK>>, i: nat, j: nat)
    requires i <= j <= |steps|
    ensures Run(w, st, steps[..i]).ledger <= Run(w, st, steps[..j]).ledger
    decreases j
  {
    hide Next;
    if i < j {
      LedgerGrows(w, st, steps, i, j - 1);
      RunSnoc(w, st, steps, j - 1);
      LedgerStep(w, Run(w, st, steps[..j - 1]), steps[j - 1]);
    }
  }

  /** Step `i` used this nonce on `account`, in an entry that expires at `expiry`. */
  ghost predicate Uses<VK, SK>(w: World<VK, SK>, ledger: nat, steps: seq<Step<SK>>, i: nat, account: ScAddress,
                               nonce: i64, expiry: u32) {
    && Succeeds(w, ledger, steps, i) && steps[i].account == account
    && steps[i].entry.credentials.nonce == nonce && steps[i].entry.credentials.expirationLedger == expiry
  }

  /** The nonce is recorded with this expiry. */
  ghost predicate OnRecord<SK>(st: State<SK>, account: ScAddress, nonce: i64, expiry: u32) {
    Recorded(st, account, nonce) && st.nonces[(account, nonce)] == expiry
  }

  /** Step `m` evicts the record of `nonce` on `account`, whose expiry has passed. */
  ghost predicate Evicts<VK, SK>(w: World<VK, SK>, ledger: nat, steps: seq<Step<SK>>, m: nat, account: ScAddress,
                                 nonce: i64, expiry: u32) {
    && m < |steps| && steps[m] == EvictNonce(account, nonce)
    && expiry < Run(w, Initial(ledger), steps[..m]).ledger
  }

  /** What step `i` recorded is still there at the end of the run. */
  ghost predicate RecordedBy<VK, SK>(w: World<VK, SK>, ledger: nat, steps: seq<Step<SK>>, i: nat,
                                     account: ScAddress, nonce: i64, expiry: u32) {
    && Uses(w, ledger, steps, i, account, nonce, expiry)
    && forall m: nat :: i < m ==> !Evicts(w, ledger, steps, m, account, nonce, expiry)
  }

  lemma RecordsSplit<VK, SK>(w: World<VK, SK>, ledger: nat, steps: seq<Step<SK>>, n: nat, i: nat,
                             account: ScAddress, nonce: i64, expiry: u32)
    requires n == |steps| - 1
    ensures RecordedBy(w, ledger, steps, i, account, nonce, expiry) <==>
      || (i == n && Uses(w, ledger, steps, n, account, nonce, expiry))
      || (RecordedBy(w, ledger, steps[..n], i, account, nonce, expiry) &&
          !Evicts(w, ledger, steps, n, account, nonce, expiry))
  {
    hide Run, Uses, Evicts;
    forall m: nat { PrefixSteps(w, ledger, steps, n, m, account, nonce, expiry); }
  }

  /** One step's effect on one nonce. */
  lemma NonceStep<VK, SK>(w: World<VK, SK>, st: State<SK>, step: Step<SK>, account: ScAddress, nonce: i64,
                          expiry: u32)
    ensures OnRecord(Next(w, st, step), account, nonce, expiry) <==>
      || (step.Submit? && step.account == account && Authorize(w, st, account, step.call, step.entry).Ok? &&
          step.entry.credentials.nonce == nonce && step.entry.credentials.expirationLedger == expiry)
      || (OnRecord(st, account, nonce, expiry) && !(step == EvictNonce(account, nonce) && expiry < st.ledger))
  {
    hide Authorizes, AuthorizationSignature, SignedBytes, Admissible;
  }

  lemma LastNonceStep<VK, SK>(w: World<VK, SK>, ledger: nat, steps: seq<Step<SK>>, n: nat, account: ScAddress,
                              nonce: i64, expiry: u32)
    requires n == |steps| - 1
    ensures OnRecord(Run(w, Initial(ledger), steps), account, nonce, expiry) <==>
      || Uses(w, ledger, steps, n, account, nonce, expiry)
      || (OnRecord(Run(w, Initial(ledger), steps[..n]), account, nonce, expiry) &&
          !Evicts(w, ledger, steps, n, account, nonce, expiry))
  {
    hide Next, Authorize, OnRecord;
    NonceStep(w, Run(w, Initial(ledger), steps[..n]), steps[n], account, nonce, expiry);
  }

  /** A nonce is recorded, with an expiry, exactly when some step used it and none evicted it since. */
  lemma {:induction false} NonceRecords<VK, SK>(w: World<VK, SK>, ledger: nat, steps: seq<Step<SK>>,
                                                 account: ScAddress, nonce: i64, expiry: u32)
    ensures OnRecord(Run(w, Initial(ledger), steps), account, nonce, expiry) <==>
            exists i :: RecordedBy(w, ledger, steps, i, account, nonce, expiry)
  {
    if steps != [] {
      hide Run, Uses, Evicts, OnRecord, RecordedBy;
      var n := |steps| - 1;
      NonceRecords(w, ledger, steps[..n], account, nonce, expiry);
      LastNonceStep(w, ledger, steps, n, account, nonce, expiry);
      RecordsSplit(w, ledger, steps, n, n, account, nonce, expiry);
      if i: nat :| RecordedBy(w, ledger, steps[..n], i, account, nonce, expiry) {
        RecordsSplit(w, ledger, steps, n, i, account, nonce, expiry);
      }
      if i: nat :| RecordedBy(w, ledger, steps, i, account, nonce, expiry) {
        RecordsSplit(w, ledger, steps, n, i, account, nonce, expiry);
      }
    }
  }

  /**
   Replay. If an account accepts one nonce twice, then in between its record was evicted, after the
   first entry had expired.
   */
  lemma ReuseNeedsEviction<VK, SK>(w: World<VK, SK>, ledger: nat, steps: seq<Step<SK>>, i: nat, j: nat)
    requires i < j && Succeeds(w, ledger, steps, i) && Succeeds(w, ledger, steps, j)
    requires steps[i].account == steps[j].account
    requires steps[i].entry.credentials.nonce == steps[j].entry.credentials.nonce
    ensures exists m | i < m < j ::
      Evicts(w, ledger, steps, m, steps[i].account, steps[i].entry.credentials.nonce,
             steps[i].entry.credentials.expirationLedger)
  {
    var account, c := steps[i].account, steps[i].entry.credentials;
    hide Run, Authorize;
    AcceptedNonceIsFree(w, ledger, steps, j, c.expirationLedger);
    EvictedInBetween(w, ledger, steps, i, j, account, c.nonce, c.expirationLedger);
  }

  lemma AcceptedNonceIsFree<VK, SK>(w: World<VK, SK>, ledger: nat, steps: seq<Step<SK>>, j: nat, expiry: u32)
    requires Succeeds(w, ledger, steps, j)
    ensures !OnRecord(Run(w, Initial(ledger), steps[..j]), steps[j].account, steps[j].entry.credentials.nonce, expiry)
  {
    hide Run;
  }

  lemma EvictedInBetween<VK, SK>(w: World<VK, SK>, ledger: nat, steps: seq<Step<SK>>, i: nat, j: nat,
                                 account: ScAddress, nonce: i64, expiry: u32)
    requires i < j < |steps| && Uses(w, ledger, steps, i, account, nonce, expiry)
    requires !OnRecord(Run(w, Initial(ledger), steps[..j]), account, nonce, expiry)
    ensures exists m | i < m < j :: Evicts(w, ledger, steps, m, account, nonce, expiry)
  {
    hide Run, Authorize, Uses, Evicts, OnRecord;
    NonceRecords(w, ledger, steps[..j], account, nonce, expiry);
    assert !RecordedBy(w, ledger, steps[..j], i, account, nonce, expiry);
    PrefixSteps(w, ledger, steps, j, i, account, nonce, expiry);
    var m: nat :| i < m && Evicts(w, ledger, steps[..j], m, account, nonce, expiry);
    PrefixSteps(w, ledger, steps, j, m, account, nonce, expiry);
  }

  /** What a step does to a nonce depends on the steps before it alone. */
  lemma PrefixSteps<VK, SK>(w: World<VK, SK>, ledger: nat, steps: seq<Step<SK>>, j: nat, i: nat,
                            account: ScAddress, nonce: i64, expiry: u32)
    requires j <= |steps|
    ensures Uses(w, ledger, steps[..j], i, account, nonce, expiry) <==>
            i < j && Uses(w, ledger, steps, i, account, nonce, expiry)
    ensures Evicts(w, ledger, steps[..j], i, account, nonce, expiry) <==>
            i < j && Evicts(w, ledger, steps, i, account, nonce, expiry)
    ensures Uses(w, ledger, steps, i, account, nonce, expiry) || Evicts(w, ledger, steps, i, account, nonce, expiry) ==>
              i < |steps|
  {
    hide Run, Authorize;
    if i < j { assert steps[..j][i] == steps[i] && steps[..j][..i] == steps[..i]; }
  }

  /**
   So nothing that was signed executes twice on one account, whatever is evicted when: of two accepted
   entries with one nonce, the second expires later. Two accounts can accept one payload, in answer to
   the same call.
   */
  lemma NothingExecutesTwice<VK, SK>(w: World<VK, SK>, ledger: nat, steps: seq<Step<SK>>, i: nat, j: nat)
    requires i < j && Succeeds(w, ledger, steps, i) && Succeeds(w, ledger, steps, j)
    ensures EntryPayload(w.networkId, steps[i].entry) == EntryPayload(w.networkId, steps[j].entry) ==>
      steps[i].account != steps[j].account && steps[i].call == steps[j].call
    ensures steps[i].account == steps[j].account &&
            steps[i].entry.credentials.nonce == steps[j].entry.credentials.nonce ==>
      steps[i].entry.credentials.expirationLedger < steps[j].entry.credentials.expirationLedger
  {
    if steps[i].account == steps[j].account && steps[i].entry.credentials.nonce == steps[j].entry.credentials.nonce {
      ReuseNeedsEviction(w, ledger, steps, i, j);
      var m :| i < m < j && Evicts(w, ledger, steps, m, steps[i].account, steps[i].entry.credentials.nonce,
                                   steps[i].entry.credentials.expirationLedger);
      LedgerGrows(w, Initial(ledger), steps, m, j);
    }
  }

  /** `protected` names its account, so a payload for it executes once over all accounts together. */
  lemma ProtectedOnceEverywhere<VK, SK>(w: World<VK, SK>, ledger: nat, steps: seq<Step<SK>>, i: nat, j: nat)
    requires i < j && Succeeds(w, ledger, steps, i) && Succeeds(w, ledger, steps, j)
    requires steps[i].call == ProtectedCall(steps[i].account) && steps[j].call == ProtectedCall(steps[j].account)
    ensures EntryPayload(w.networkId, steps[i].entry) != EntryPayload(w.networkId, steps[j].entry)
  {
    NothingExecutesTwice(w, ledger, steps, i, j);
  }

  /** Once the ledger has passed an entry's expiry, the entry authorizes nothing however the run goes on. */
  lemma DeadAfterExpiry<VK, SK>(w: World<VK, SK>, ledger: nat, steps: seq<Step<SK>>, i: nat, j: nat)
    requires i <= j && Succeeds(w, ledger, steps, j)
    ensures Run(w, Initial(ledger), steps[..i]).ledger <= steps[j].entry.credentials.expirationLedger
  {
    LedgerGrows(w, Initial(ledger), steps, i, j);
  }

  // ---- One signature on two accounts ---------------------------------------------------------

  /** The same entry, signature included, presented for another account. */
  function Readdressed(entry: AuthorizationEntry, account: ScAddress): AuthorizationEntry
    requires entry.credentials.AddressCredentials?
  {
    entry.(credentials := entry.credentials.(address := account))
  }

  /**
   The payload does not name the account. So an accepted entry is accepted again, on any account and in
   any later state where that account holds the key it was accepted under, exactly when it is still in
   time and its nonce is not on record for that account.
   */
  lemma ReplaysExactlyWhen<VK, SK>(w: World<VK, SK>, st: State<SK>, account: ScAddress, call: AuthorizedFn,
                                   entry: AuthorizationEntry, later: State<SK>, other: ScAddress)
    requires Authorize(w, st, account, call, entry).Ok?
    requires StoredKey(later, other) == StoredKey(st, account)
    ensures EntryPayload(w.networkId, Readdressed(entry, other)) == EntryPayload(w.networkId, entry)
    ensures Authorize(w, later, other, call, Readdressed(entry, other)).Ok? <==>
      later.ledger <= entry.credentials.expirationLedger && !Recorded(later, other, entry.credentials.nonce)
  {
    hide StoredKey, Authorizes;
  }

  /** In particular right after it was accepted: only the other account's own record can stop it. */
  lemma MovesExactlyWhen<VK, SK>(w: World<VK, SK>, st: State<SK>, account: ScAddress, call: AuthorizedFn,
                                 entry: AuthorizationEntry, other: ScAddress)
    requires Authorize(w, st, account, call, entry).Ok?
    requires account != other && StoredKey(st, other) == StoredKey(st, account)
    ensures Authorize(w, Next(w, st, Submit(account, call, entry)), other, call, Readdressed(entry, other)).Ok? <==>
            !Recorded(st, other, entry.credentials.nonce)
  {
    ReplaysExactlyWhen(w, st, account, call, entry, Next(w, st, Submit(account, call, entry)), other);
  }

  // ---- Which key guards an account -----------------------------------------------------------

  lemma StorageStep<VK, SK>(w: World<VK, SK>, st: State<SK>, step: Step<SK>, account: ScAddress)
    ensures StoredKey(Next(w, st, step), account) ==
            if step.Init? && step.account == account then AfterInit(w.scheme, StoredKey(st, account), step.pubkey)
            else StoredKey(st, account)
  {
    hide Authorize, AuthorizationSignature, SignedBytes, Admissible;
  }

  /** What a run calls on one account's contract, step by step. */
  function CallsOn<SK>(steps: seq<Step<SK>>, account: ScAddress): (calls: seq<ContractCall>)
    ensures |calls| == |steps|
  {
    seq(|steps|, i requires 0 <= i < |steps| =>
      if steps[i].Init? && steps[i].account == account then InitCall(steps[i].pubkey) else OtherCall)
  }

  /** Whatever else happens, an account's storage is that of its contract under those calls. */
  lemma {:induction false} StorageFollowsCalls<VK, SK>(w: World<VK, SK>, ledger: nat, steps: seq<Step<SK>>,
                                                        account: ScAddress)
    ensures StoredKey(Run(w, Initial(ledger), steps), account) == AfterCalls(w.scheme, None, CallsOn(steps, account))
  {
    hide Next, StoredKey, AfterInit;
    if steps == [] {
      NothingStored<SK>(ledger, account);
    } else {
      var n := |steps| - 1;
      StorageFollowsCalls(w, ledger, steps[..n], account);
      StorageStep(w, Run(w, Initial(ledger), steps[..n]), steps[n], account);
      assert CallsOn(steps, account)[..n] == CallsOn(steps[..n], account);
    }
  }

  /** Step `k` stored the key that guards `account` at the end of the run: no later `init` replaced it. */
  ghost predicate StoredBy<VK, SK>(w: World<VK, SK>, steps: seq<Step<SK>>, account: ScAddress, k: nat, key: seq<byte>) {
    k < |steps| && steps[k] == Step.Init(account, key) && LastStore(w.scheme, CallsOn(steps, account), k, key)
  }

  /** An account's key is the argument of the last `init` on it that succeeded. */
  lemma KeyIsFromLastInit<VK, SK>(w: World<VK, SK>, ledger: nat, steps: seq<Step<SK>>, account: ScAddress,
                                  key: seq<byte>)
    ensures StoredKey(Run(w, Initial(ledger), steps), account) == Some(key) <==>
            exists k :: StoredBy(w, steps, account, k, key)
  {
    hide Run, StoredKey, AfterCalls;
    StorageFollowsCalls(w, ledger, steps, account);
    StorageIsLastAdmissible(w.scheme, CallsOn(steps, account));
    assert forall k: nat :: LastStore(w.scheme, CallsOn(steps, account), k, key) ==>
      StoredBy(w, steps, account, k, key);
  }

  lemma NothingStored<SK>(ledger: nat, account: ScAddress)
    ensures StoredKey(Initial<SK>(ledger), account) == None
  {
  }

  // ---- Soundness -----------------------------------------------------------------------------

  /** The encoded verifying key of a signing key. */
  function SignerKey<VK, SK>(w: World<VK, SK>, sk: SK): seq<byte> {
    w.scheme.encodeKey(w.scheme.publicKey(sk))
  }

  /** A logged signature is one under this encoded key for this framed message. */
  ghost predicate Covers<VK, SK>(w: World<VK, SK>, s: Signing<SK>, key: seq<byte>, framed: seq<byte>) {
    SignerKey(w, s.sk) == key && CheckContext(s.context).Ok? && Frame(s.context, s.message) == framed
  }

  /** What the account has to verify before it accepts an entry. */
  function FramedPayload<VK, SK>(w: World<VK, SK>, entry: AuthorizationEntry): seq<byte>
    requires entry.credentials.AddressCredentials?
  {
    Frame(CONTEXT, SignaturePayload(w.hash, EntryPayload(w.networkId, entry)))
  }

  /** An entry is accepted only if its message has been signed with the account's key: no forgery here. */
  ghost predicate UnforgedAt<VK, SK>(w: World<VK, SK>, st: State<SK>, step: Step<SK>) {
    step.Submit? && Authorize(w, st, step.account, step.call, step.entry).Ok? ==>
      exists s :: s in st.signings && Covers(w, s, StoredKey(st, step.account).value, FramedPayload(w, step.entry))
  }

  /** The same for the signature itself, not only for the message: no new signature for an old message. */
  ghost predicate StronglyUnforgedAt<VK, SK>(w: World<VK, SK>, st: State<SK>, step: Step<SK>) {
    step.Submit? && Authorize(w, st, step.account, step.call, step.entry).Ok? ==>
      exists s :: s in st.signings && Covers(w, s, StoredKey(st, step.account).value, FramedPayload(w, step.entry)) &&
                  s.signature == step.entry.credentials.signature.bytes
  }

  /**
   A logged signature is one for an entry exactly if its key signed that payload's digest under the
   account's context. What another protocol signed under another context never is; nothing in the
   condition tells apart two accounts with one key.
   */
  lemma ContextSeparates<VK, SK>(w: World<VK, SK>, s: Signing<SK>, key: seq<byte>, entry: AuthorizationEntry)
    requires entry.credentials.AddressCredentials?
    ensures Covers(w, s, key, FramedPayload(w, entry)) <==>
      && SignerKey(w, s.sk) == key && s.context == CONTEXT
      && s.message == SignaturePayload(w.hash, EntryPayload(w.networkId, entry))
  {
    var digest := SignaturePayload(w.hash, EntryPayload(w.networkId, entry));
    if Covers(w, s, key, FramedPayload(w, entry)) {
      FrameInjective(s.context, s.message, CONTEXT, digest);
    }
  }

  /**
   This key signs for other protocols only under other contexts. Other instances of this contract are no
   such protocol: they share the context, and signing for them is `SignEntry`.
   */
  ghost predicate ContextReserved<VK, SK>(w: World<VK, SK>, steps: seq<Step<SK>>, key: seq<byte>) {
    forall i :: 0 <= i < |steps| && steps[i].SignElsewhere? && SignerKey(w, steps[i].sk) == key ==>
      steps[i].context != CONTEXT
  }

  /** The hash does not confuse a payload signed with this key in this run with the one being submitted. */
  ghost predicate NoCollisionWith<VK, SK>(w: World<VK, SK>, steps: seq<Step<SK>>, key: seq<byte>,
                                          p: AuthorizationPayload) {
    forall i :: 0 <= i < |steps| && steps[i].SignEntry? && SignerKey(w, steps[i].sk) == key ==>
      !Collision(w.hash, steps[i].payload, p)
  }

  /** `step` is the act of signing that this logged signature records. */
  ghost predicate Records<VK, SK>(w: World<VK, SK>, step: Step<SK>, s: Signing<SK>) {
    match step
    case SignEntry(sk, payload, context) =>
      AuthorizationSignature(w.scheme, w.hash, sk, payload, context).Ok? &&
      s == Signing(sk, SignaturePayload(w.hash, payload), context,
                   AuthorizationSignature(w.scheme, w.hash, sk, payload, context).value)
    case SignElsewhere(sk, message, context) =>
      SignedBytes(w.scheme, sk, message, context).Ok? &&
      s == Signing(sk, message, context, SignedBytes(w.scheme, sk, message, context).value)
    case _ => false
  }

  lemma {:induction false} LogRecordsSteps<VK, SK>(w: World<VK, SK>, ledger: nat, steps: seq<Step<SK>>, s: Signing<SK>)
    requires s in Run(w, Initial(ledger), steps).signings
    ensures exists i :: 0 <= i < |steps| && Records(w, steps[i], s)
  {
    var n := |steps| - 1;
    if Records(w, steps[n], s) {
    } else {
      LogRecordsSteps(w, ledger, steps[..n], s);
      var i :| 0 <= i < n && Records(w, steps[..n][i], s);
      assert Records(w, steps[i], s);
    }
  }

  /** `step` signs this payload under the account's context. */
  predicate Signed<SK>(step: Step<SK>, p: AuthorizationPayload) {
    step.SignEntry? && step.payload == p && step.context == CONTEXT
  }

  /** `step` signs exactly this payload, under the account's context, with this key. */
  ghost predicate Signs<VK, SK>(w: World<VK, SK>, step: Step<SK>, key: seq<byte>, p: AuthorizationPayload) {
    && Signed(step, p) && SignerKey(w, step.sk) == key
    && AuthorizationSignature(w.scheme, w.hash, step.sk, p, CONTEXT).Ok?
  }

  /** The step behind a logged signature for a payload: it signed that very payload. */
  lemma SigningStep<VK, SK>(w: World<VK, SK>, ledger: nat, steps: seq<Step<SK>>, key: seq<byte>,
                            p: AuthorizationPayload, s: Signing<SK>)
    requires s in Run(w, Initial(ledger), steps).signings
    requires Covers(w, s, key, Frame(CONTEXT, SignaturePayload(w.hash, p)))
    requires ContextReserved(w, steps, key) && NoCollisionWith(w, steps, key, p)
    ensures exists j | 0 <= j < |steps| ::
      && Signs(w, steps[j], key, p)
      && AuthorizationSignature(w.scheme, w.hash, steps[j].sk, p, CONTEXT) == Ok(s.signature)
  {
    hide Run;
    LogRecordsSteps(w, ledger, steps, s);
    var j: nat :| j < |steps| && Records(w, steps[j], s);
    FrameInjective(s.context, s.message, CONTEXT, SignaturePayload(w.hash, p));
    if steps[j].SignEntry? {
      DigestBindsEveryField(w.hash, steps[j].payload, p);
    }
    assert Signs(w, steps[j], key, p);
  }

  /**
   Soundness over every run. Whenever an account authorizes a call, an earlier step signed exactly this
   network id, nonce, expiry and whole call tree, rooted in this call, under the account's context, with
   the signing half of the key that the last successful `init` on the account stored.
   */
  lemma AcceptedWasSigned<VK, SK>(w: World<VK, SK>, ledger: nat, steps: seq<Step<SK>>, i: nat, key: seq<byte>)
    requires Succeeds(w, ledger, steps, i)
    requires StoredKey(Run(w, Initial(ledger), steps[..i]), steps[i].account) == Some(key)
    requires UnforgedAt(w, Run(w, Initial(ledger), steps[..i]), steps[i])
    requires ContextReserved(w, steps[..i], key)
    requires NoCollisionWith(w, steps[..i], key, EntryPayload(w.networkId, steps[i].entry))
    ensures exists k :: StoredBy(w, steps[..i], steps[i].account, k, key)
    ensures exists j | 0 <= j < i ::
      && Signs(w, steps[j], key, EntryPayload(w.networkId, steps[i].entry))
      && steps[j].payload.invocation.call == steps[i].call
  {
    var st, p := Run(w, Initial(ledger), steps[..i]), EntryPayload(w.networkId, steps[i].entry);
    KeyIsFromLastInit(w, ledger, steps[..i], steps[i].account, key);
    var s :| s in st.signings && Covers(w, s, key, Frame(CONTEXT, SignaturePayload(w.hash, p)));
    SigningStep(w, ledger, steps[..i], key, p, s);
    var j :| 0 <= j < i && Signs(w, steps[..i][j], key, p);
    assert Signs(w, steps[j], key, p);
  }

  /** Under the stronger assumption the signature in the entry is the very one that step produced. */
  lemma AcceptedSignatureWasProduced<VK, SK>(w: World<VK, SK>, ledger: nat, steps: seq<Step<SK>>, i: nat,
                                             key: seq<byte>)
    requires Succeeds(w, ledger, steps, i)
    requires StoredKey(Run(w, Initial(ledger), steps[..i]), steps[i].account) == Some(key)
    requires StronglyUnforgedAt(w, Run(w, Initial(ledger), steps[..i]), steps[i])
    requires ContextReserved(w, steps[..i], key)
    requires NoCollisionWith(w, steps[..i], key, EntryPayload(w.networkId, steps[i].entry))
    ensures var p, signature := EntryPayload(w.networkId, steps[i].entry), steps[i].entry.credentials.signature.bytes;
      exists j | 0 <= j < i ::
        Signs(w, steps[j], key, p) &&
        AuthorizationSignature(w.scheme, w.hash, steps[j].sk, p, CONTEXT) == Ok(signature)
  {
    var st, p := Run(w, Initial(ledger), steps[..i]), EntryPayload(w.networkId, steps[i].entry);
    var s :| s in st.signings && Covers(w, s, key, Frame(CONTEXT, SignaturePayload(w.hash, p))) &&
             s.signature == steps[i].entry.credentials.signature.bytes;
    SigningStep(w, ledger, steps[..i], key, p, s);
    var j :| 0 <= j < i && Signs(w, steps[..i][j], key, p) &&
             AuthorizationSignature(w.scheme, w.hash, steps[..i][j].sk, p, CONTEXT) == Ok(s.signature);
    assert Signs(w, steps[j], key, p);
  }

  /** Some `init` of the run named this key for the account. */
  ghost predicate NamedOn<SK>(steps: seq<Step<SK>>, account: ScAddress, key: seq<byte>) {
    exists k :: 0 <= k < |steps| && steps[k] == Step.Init(account, key)
  }

  /** What `AcceptedWasSigned` asks for, at every call that the account authorizes in the run. */
  ghost predicate Guarded<VK, SK>(w: World<VK, SK>, ledger: nat, steps: seq<Step<SK>>, account: ScAddress) {
    && (forall i: nat :: Succeeds(w, ledger, steps, i) && steps[i].account == account ==>
          UnforgedAt(w, Run(w, Initial(ledger), steps[..i]), steps[i]))
    && (forall key :: NamedOn(steps, account, key) ==> ContextReserved(w, steps, key))
    && (forall i: nat, key ::
          NamedOn(steps, account, key) && Succeeds(w, ledger, steps, i) && steps[i].account == account ==>
            NoCollisionWith(w, steps, key, EntryPayload(w.networkId, steps[i].entry)))
  }

  /** Step `m` signs this payload with a key that some `init` named for the account. */
  ghost predicate SignsNamed<VK, SK>(w: World<VK, SK>, steps: seq<Step<SK>>, account: ScAddress, m: nat,
                                     p: AuthorizationPayload) {
    m < |steps| && steps[m].SignEntry? && NamedOn(steps, account, SignerKey(w, steps[m].sk)) &&
    Signs(w, steps[m], SignerKey(w, steps[m].sk), p)
  }

  /** Then everything the account authorizes was signed before, with the key that guards it at that point. */
  lemma GuardedAcceptsOnlySigned<VK, SK>(w: World<VK, SK>, ledger: nat, steps: seq<Step<SK>>, account: ScAddress,
                                         i: nat)
    requires Guarded(w, ledger, steps, account)
    requires Succeeds(w, ledger, steps, i) && steps[i].account == account
    ensures exists m | 0 <= m < i ::
      && SignsNamed(w, steps, account, m, EntryPayload(w.networkId, steps[i].entry))
      && StoredKey(Run(w, Initial(ledger), steps[..i]), account) == Some(SignerKey(w, steps[m].sk))
  {
    hide Run, Verify, SignaturePayload, Collision, CheckContext, Frame;
    var p := EntryPayload(w.networkId, steps[i].entry);
    var key := StoredKey(Run(w, Initial(ledger), steps[..i]), account).value;
    KeyIsFromLastInit(w, ledger, steps[..i], account, key);
    var k: nat :| StoredBy(w, steps[..i], account, k, key);
    assert steps[k] == steps[..i][k];
    assert NamedOn(steps, account, key);
    AcceptedWasSigned(w, ledger, steps, i, key);
    var m :| 0 <= m < i && Signs(w, steps[m], key, p);
    assert SignsNamed(w, steps, account, m, p);
  }

  /**
   Two accepted calls on one account come from two signing steps: none of the steps that signed for the
   one signed for the other.
   */
  lemma AcceptedCallsAreSignedSeparately<VK, SK>(w: World<VK, SK>, ledger: nat, steps: seq<Step<SK>>,
                                                 account: ScAddress, i: nat, j: nat)
    requires Guarded(w, ledger, steps, account)
    requires i < j && Succeeds(w, ledger, steps, i) && Succeeds(w, ledger, steps, j)
    requires steps[i].account == account && steps[j].account == account
    ensures exists m, n | 0 <= m < i && 0 <= n < j ::
      && m != n
      && SignsNamed(w, steps, account, m, EntryPayload(w.networkId, steps[i].entry))
      && SignsNamed(w, steps, account, n, EntryPayload(w.networkId, steps[j].entry))
    ensures forall m :: 0 <= m < |steps| ==>
      !(SignsNamed(w, steps, account, m, EntryPayload(w.networkId, steps[i].entry)) &&
        SignsNamed(w, steps, account, m, EntryPayload(w.networkId, steps[j].entry)))
  {
    hide Run, Authorizes, SignaturePayload, Guarded;
    NothingExecutesTwice(w, ledger, steps, i, j);
    GuardedAcceptsOnlySigned(w, ledger, steps, account, i);
    GuardedAcceptsOnlySigned(w, ledger, steps, account, j);
    var m :| 0 <= m < i && SignsNamed(w, steps, account, m, EntryPayload(w.networkId, steps[i].entry));
    var n :| 0 <= n < j && SignsNamed(w, steps, account, n, EntryPayload(w.networkId, steps[j].entry));
    assert m != n;
  }

  /**
   Two accounts accept one payload that was signed in one step only if they hold one key, the signer's;
   `MovesExactlyWhen` says when that is also enough.
   */
  lemma OneSigningOneKey<VK, SK>(w: World<VK, SK>, ledger: nat, steps: seq<Step<SK>>, i: nat, j: nat)
    requires i < j && Succeeds(w, ledger, steps, i) && Succeeds(w, ledger, steps, j)
    requires Guarded(w, ledger, steps, steps[i].account) && Guarded(w, ledger, steps, steps[j].account)
    requires var p := EntryPayload(w.networkId, steps[i].entry);
      && EntryPayload(w.networkId, steps[j].entry) == p
      && forall m, n | 0 <= m < |steps| && 0 <= n < |steps| :: Signed(steps[m], p) && Signed(steps[n], p) ==> m == n
    ensures steps[i].account != steps[j].account && steps[i].call == steps[j].call
    ensures StoredKey(Run(w, Initial(ledger), steps[..i]), steps[i].account) ==
            StoredKey(Run(w, Initial(ledger), steps[..j]), steps[j].account)
  {
    hide Run, Authorizes, SignaturePayload, Guarded;
    NothingExecutesTwice(w, ledger, steps, i, j);
    GuardedAcceptsOnlySigned(w, ledger, steps, steps[i].account, i);
    GuardedAcceptsOnlySigned(w, ledger, steps, steps[j].account, j);
  }

  // ---- Completeness --------------------------------------------------------------------------

  /**
   What an honest client builds for any call, the account accepts for that call, under conditions the
   client can check beforehand: the ledger is within the expiry, the nonce is not on record, and the
   signature has the full declared length. For a variable-length scheme the last can fail, and then the
   contract reports `BadSigLen`.
   */
  lemma HonestEntryOutcome<VK(!new), SK(!new)>(
    w: World<VK, SK>, st: State<SK>, account: ScAddress, seed: seq<byte>, payload: AuthorizationPayload)
    requires Lawful(w.scheme) && |seed| == w.scheme.seedLen
    requires payload.networkId == w.networkId
    requires StoredKey(st, account) == Some(SignerKey(w, w.scheme.expand(seed)))
    requires AuthEntryFor(w.scheme, w.hash, account, w.scheme.expand(seed), payload, CONTEXT).Ok?
    ensures var entry := AuthEntryFor(w.scheme, w.hash, account, w.scheme.expand(seed), payload, CONTEXT).value;
      Authorize(w, st, account, payload.invocation.call, entry) ==
        if st.ledger > payload.expirationLedger then Err(Expired)
        else if Recorded(st, account, payload.nonce) then Err(NonceUsed)
        else if |entry.credentials.signature.bytes| != w.scheme.signatureLen then Err(Refused(BadSigLen))
        else Ok(())
  {
    var sk := w.scheme.expand(seed);
    EntryIsSelfConsistent(w.scheme, w.hash, account, seed, payload, CONTEXT);
    var entry := AuthEntryFor(w.scheme, w.hash, account, sk, payload, CONTEXT).value;
    assert EntryPayload(w.networkId, entry) == payload;
    assert w.scheme.validKey(w.scheme.publicKey(sk));
  }

  /**
   Eviction is also enough for a nonce to be taken again: an honest entry that reuses an expired one is
   refused while its record is there and accepted once the record is gone.
   */
  lemma EvictionAllowsReuse<VK(!new), SK(!new)>(
    w: World<VK, SK>, st: State<SK>, account: ScAddress, seed: seq<byte>, payload: AuthorizationPayload)
    requires Lawful(w.scheme) && |seed| == w.scheme.seedLen && payload.networkId == w.networkId
    requires StoredKey(st, account) == Some(SignerKey(w, w.scheme.expand(seed)))
    requires AuthEntryFor(w.scheme, w.hash, account, w.scheme.expand(seed), payload, CONTEXT).Ok?
    requires var signed := AuthorizationSignature(w.scheme, w.hash, w.scheme.expand(seed), payload, CONTEXT);
      signed.Ok? && |signed.value| == w.scheme.signatureLen
    requires Recorded(st, account, payload.nonce)
    requires st.nonces[(account, payload.nonce)] < st.ledger <= payload.expirationLedger
    ensures var entry := AuthEntryFor(w.scheme, w.hash, account, w.scheme.expand(seed), payload, CONTEXT).value;
      var evicted := Next(w, st, EvictNonce(account, payload.nonce));
      && Authorize(w, st, account, payload.invocation.call, entry) == Err(NonceUsed)
      && Authorize(w, evicted, account, payload.invocation.call, entry) == Ok(())
  {
    hide Authorize, Lawful, AuthorizationSignature;
    HonestEntryOutcome(w, st, account, seed, payload);
    HonestEntryOutcome(w, Next(w, st, EvictNonce(account, payload.nonce)), account, seed, payload);
  }

  /** The state after an admissible key is stored and a payload signed, from nothing. */
  lemma StoreThenSign<VK, SK>(w: World<VK, SK>, ledger: nat, account: ScAddress, key: seq<byte>, sk: SK,
                              payload: AuthorizationPayload, sig: seq<byte>)
    requires Admissible(w.scheme, key)
    requires AuthorizationSignature(w.scheme, w.hash, sk, payload, CONTEXT) == Ok(sig)
    ensures Run(w, Initial(ledger), [Step.Init(account, key), SignEntry(sk, payload, CONTEXT)]) ==
            State(ledger, map[account := key], map[], [Signing(sk, SignaturePayload(w.hash, payload), CONTEXT, sig)])
  {
    hide Admissible, AuthorizationSignature;
    var steps := [Step.Init(account, key), SignEntry(sk, payload, CONTEXT)];
    assert steps[..1] == [steps[0]] && steps[..1][..0] == [];
    assert Run(w, Initial(ledger), steps[..1]) == Next(w, Initial(ledger), steps[0]);
  }

  /** In that state, submitting what was signed succeeds, with the signature already in the log. */
  lemma SubmitSigned<VK(!new), SK(!new)>(
    w: World<VK, SK>, st: State<SK>, account: ScAddress, seed: seq<byte>, payload: AuthorizationPayload,
    sig: seq<byte>, entry: AuthorizationEntry)
    requires Lawful(w.scheme) && |seed| == w.scheme.seedLen && payload.networkId == w.networkId
    requires AuthorizationSignature(w.scheme, w.hash, w.scheme.expand(seed), payload, CONTEXT) == Ok(sig)
    requires AuthEntryFor(w.scheme, w.hash, account, w.scheme.expand(seed), payload, CONTEXT) == Ok(entry)
    requires |sig| == w.scheme.signatureLen && st.ledger <= payload.expirationLedger
    requires StoredKey(st, account) == Some(SignerKey(w, w.scheme.expand(seed)))
    requires !Recorded(st, account, payload.nonce)
    requires Signing(w.scheme.expand(seed), SignaturePayload(w.hash, payload), CONTEXT, sig) in st.signings
    ensures Authorize(w, st, account, payload.invocation.call, entry).Ok?
    ensures StronglyUnforgedAt(w, st, Submit(account, payload.invocation.call, entry))
    ensures entry.credentials.AddressCredentials? && EntryPayload(w.networkId, entry) == payload
  {
    HonestEntryOutcome(w, st, account, seed, payload);
    hide Authorize, Lawful, AuthorizationSignature;
    var s := Signing(w.scheme.expand(seed), SignaturePayload(w.hash, payload), CONTEXT, sig);
    assert EntryPayload(w.networkId, entry) == payload;
    assert Covers(w, s, StoredKey(st, account).value, FramedPayload(w, entry));
  }

  /** The run of an honest client: store the key, sign, submit. */
  function HonestRun<VK, SK>(w: World<VK, SK>, account: ScAddress, sk: SK, payload: AuthorizationPayload,
                             entry: AuthorizationEntry): seq<Step<SK>> {
    [Step.Init(account, SignerKey(w, sk)), SignEntry(sk, payload, CONTEXT),
     Submit(account, payload.invocation.call, entry)]
  }

  /**
   The hypotheses of both soundness theorems are met by the plain honest run. That run also succeeds,
   whenever the signature is full-length and the entry has not expired.
   */
  lemma HonestRunMeetsHypotheses<VK(!new), SK(!new)>(
    w: World<VK, SK>, ledger: nat, account: ScAddress, seed: seq<byte>, payload: AuthorizationPayload,
    sig: seq<byte>, entry: AuthorizationEntry)
    requires Lawful(w.scheme) && |seed| == w.scheme.seedLen && payload.networkId == w.networkId
    requires AuthorizationSignature(w.scheme, w.hash, w.scheme.expand(seed), payload, CONTEXT) == Ok(sig)
    requires AuthEntryFor(w.scheme, w.hash, account, w.scheme.expand(seed), payload, CONTEXT) == Ok(entry)
    requires |sig| == w.scheme.signatureLen && ledger <= payload.expirationLedger
    ensures MeetsHypotheses(w, ledger, HonestRun(w, account, w.scheme.expand(seed), payload, entry), 2,
                            SignerKey(w, w.scheme.expand(seed)))
  {
    hide Authorize, Run, AuthorizationSignature, SignaturePayload, AuthEntryFor, StronglyUnforgedAt, UnforgedAt;
    hide Lawful, SignerKey, Admissible;
    var sk := w.scheme.expand(seed);
    var key := SignerKey(w, sk);
    var steps := HonestRun(w, account, sk, payload, entry);
    SignerKeyAdmissible(w, sk);
    assert steps[..2] == [steps[0], steps[1]];
    StoreThenSign(w, ledger, account, key, sk, payload, sig);
    var st := Run(w, Initial(ledger), steps[..2]);
    SubmitSigned(w, st, account, seed, payload, sig, entry);
    StrongImpliesWeak(w, st, steps[2]);
  }

  lemma SignerKeyAdmissible<VK(!new), SK(!new)>(w: World<VK, SK>, sk: SK)
    requires Lawful(w.scheme)
    ensures Admissible(w.scheme, SignerKey(w, sk))
  {
    assert w.scheme.validKey(w.scheme.publicKey(sk));
  }

  lemma StrongImpliesWeak<VK, SK>(w: World<VK, SK>, st: State<SK>, step: Step<SK>)
    requires StronglyUnforgedAt(w, st, step)
    ensures UnforgedAt(w, st, step)
  {
  }

  /** Step `i` succeeds, and everything `AcceptedSignatureWasProduced` and `AcceptedWasSigned` ask for holds. */
  ghost predicate MeetsHypotheses<VK, SK>(w: World<VK, SK>, ledger: nat, steps: seq<Step<SK>>, i: nat,
                                          key: seq<byte>) {
    && Succeeds(w, ledger, steps, i)
    && StoredKey(Run(w, Initial(ledger), steps[..i]), steps[i].account) == Some(key)
    && UnforgedAt(w, Run(w, Initial(ledger), steps[..i]), steps[i])
    && StronglyUnforgedAt(w, Run(w, Initial(ledger), steps[..i]), steps[i])
    && ContextReserved(w, steps[..i], key)
    && NoCollisionWith(w, steps[..i], key, EntryPayload(w.networkId, steps[i].entry))
  }

  /** So are those that `GuardedAcceptsOnlySigned` makes about a whole run. */
  lemma HonestRunIsGuarded<VK, SK>(w: World<VK, SK>, ledger: nat, account: ScAddress, sk: SK,
                                   payload: AuthorizationPayload, entry: AuthorizationEntry, key: seq<byte>)
    requires MeetsHypotheses(w, ledger, HonestRun(w, account, sk, payload, entry), 2, key)
    requires EntryPayload(w.networkId, entry) == payload
    ensures Guarded(w, ledger, HonestRun(w, account, sk, payload, entry), account)
  {
    hide Run, UnforgedAt, StronglyUnforgedAt, SignaturePayload, SignerKey;
    var steps := HonestRun(w, account, sk, payload, entry);
    assert forall i: nat :: Succeeds(w, ledger, steps, i) ==> i == 2;
  }
}
