/** The client half: signing payloads, building authorization entries, storing keys, checking signatures. */
module Auth {
  import opened Wrappers
  import opened Bytes
  import opened ContractTypes
  import opened CallTrees
  import opened Payload
  import opened Framing
  import opened Traits

  /** A `pq-core` failure, or a byte string too long for XDR. */
  datatype StellarError = Pq(error: PqError) | Encoding

  datatype Credentials =
    | SourceAccount
    | AddressCredentials(address: ScAddress, nonce: i64, expirationLedger: u32, signature: ScVal)

  datatype AuthorizationEntry = AuthorizationEntry(credentials: Credentials, rootInvocation: Invocation)

  function BytesToScVal(b: seq<byte>): (r: Result<ScVal, StellarError>)
    ensures r.Ok? <==> |b| <= 0xFFFF_FFFF
    ensures r.Ok? ==> r.value.Bytes? && r.value.bytes == b
    ensures r.Err? ==> r.error == Encoding
  {
    if |b| < 0x1_0000_0000 then Ok(ScVal.Bytes(b)) else Err(Encoding)
  }

  /** What `sign_authorization` must return: the signer's bytes, no more and no fewer. */
  function AuthorizationSignature<VK, SK>(s: Scheme<VK, SK>, hash: HashFunction, sk: SK,
                                          payload: AuthorizationPayload, context: seq<byte>)
    : Result<seq<byte>, StellarError>
  {
    match SignedBytes(s, sk, SignaturePayload(hash, payload), context)
    case Err(e) => Err(Pq(e))
    case Ok(sig) => Ok(sig)
  }

  /** `sign_authorization`: scratch buffer of the maximal length, filled in place, then truncated. */
  method SignAuthorization<VK(!new), SK(!new)>(s: Scheme<VK, SK>, hash: HashFunction, sk: SK,
                                               payload: AuthorizationPayload, context: seq<byte>)
    returns (r: Result<seq<byte>, StellarError>)
    requires Lawful(s)
    ensures r == AuthorizationSignature(s, hash, sk, payload, context)
  {
    var sig := new byte[s.signatureLen](_ => 0);
    var n := SignInto(s, sk, SignaturePayload(hash, payload), context, sig);
    match n {
      case Err(e) => return Err(Pq(e));
      case Ok(count) => return Ok(sig[..count]);
    }
  }

  /** What `build_auth_entry` must return. */
  function AuthEntryFor<VK, SK>(s: Scheme<VK, SK>, hash: HashFunction, account: ScAddress, sk: SK,
                                payload: AuthorizationPayload, context: seq<byte>)
    : Result<AuthorizationEntry, StellarError>
  {
    match AuthorizationSignature(s, hash, sk, payload, context)
    case Err(e) => Err(e)
    case Ok(sig) =>
      match BytesToScVal(sig)
      case Err(e) => Err(e)
      case Ok(v) =>
        Ok(AuthorizationEntry(AddressCredentials(account, payload.nonce, payload.expirationLedger, v),
                              payload.invocation))
  }

  method BuildAuthEntry<VK(!new), SK(!new)>(s: Scheme<VK, SK>, hash: HashFunction, account: ScAddress,
                                            sk: SK, payload: AuthorizationPayload, context: seq<byte>)
    returns (r: Result<AuthorizationEntry, StellarError>)
    requires Lawful(s)
    ensures r == AuthEntryFor(s, hash, account, sk, payload, context)
  {
    var signed := SignAuthorization(s, hash, sk, payload, context);
    if signed.Err? {
      return Err(signed.error);
    }
    var v := BytesToScVal(signed.value);
    if v.Err? {
      return Err(v.error);
    }
    return Ok(AuthorizationEntry(
      AddressCredentials(account, payload.nonce, payload.expirationLedger, v.value), payload.invocation));
  }

  /** `encode_verifying_key`: the canonical key bytes, with nothing left of the scratch buffer. */
  method EncodeVerifyingKey<VK(!new), SK(!new)>(s: Scheme<VK, SK>, vk: VK)
    returns (r: Result<ScVal, StellarError>)
    requires Lawful(s) && s.validKey(vk)
    ensures r == BytesToScVal(s.encodeKey(vk))
  {
    var buf := new byte[s.verifyingKeyLen](_ => 0);
    var n := WriteTo(s, vk, buf);
    match n {
      case Err(e) => return Err(Pq(e));
      case Ok(count) => r := BytesToScVal(buf[..count]);
    }
  }

  /** `verify_authorization`. */
  function VerifyAuthorization<VK, SK>(s: Scheme<VK, SK>, hash: HashFunction, vk: VK,
                                       payload: AuthorizationPayload, context: seq<byte>,
                                       signature: seq<byte>): Result<(), StellarError> {
    match Verify(s, vk, SignaturePayload(hash, payload), context, signature)
    case Err(e) => Err(Pq(e))
    case Ok(_) => Ok(())
  }

  /** An entry carries the payload's own fields, and its signature verifies against them. */
  lemma EntryIsSelfConsistent<VK(!new), SK(!new)>(
    s: Scheme<VK, SK>, hash: HashFunction, account: ScAddress, seed: seq<byte>,
    payload: AuthorizationPayload, context: seq<byte>)
    requires Lawful(s) && |seed| == s.seedLen
    requires AuthEntryFor(s, hash, account, s.expand(seed), payload, context).Ok?
    ensures var e := AuthEntryFor(s, hash, account, s.expand(seed), payload, context).value;
      && e.credentials.AddressCredentials? && e.credentials.signature.Bytes?
      && e.credentials.address == account
      && e.credentials.nonce == payload.nonce && e.credentials.expirationLedger == payload.expirationLedger
      && e.rootInvocation == payload.invocation
      && AuthorizationSignature(s, hash, s.expand(seed), payload, context) == Ok(e.credentials.signature.bytes)
      && VerifyAuthorization(s, hash, s.publicKey(s.expand(seed)),
           AuthorizationPayload(payload.networkId, e.credentials.nonce, e.credentials.expirationLedger,
                                e.rootInvocation),
           context, e.credentials.signature.bytes) == Ok(())
  {
    assert CheckContext(context).Ok?;
    assert s.signFramed(s.expand(seed), Frame(context, SignaturePayload(hash, payload))).Ok?;
  }

  /**
   The errors a client sees: a context of more than 255 bytes fails everything with that error; what the
   signer itself reports is passed on; a signature too long for XDR is an encoding error.
   */
  lemma ClientErrors<VK, SK>(s: Scheme<VK, SK>, hash: HashFunction, account: ScAddress, sk: SK, vk: VK,
                             payload: AuthorizationPayload, context: seq<byte>, signature: seq<byte>)
    ensures |context| > 255 ==>
      && AuthorizationSignature(s, hash, sk, payload, context) == Err(Pq(ContextTooLong(|context|)))
      && AuthEntryFor(s, hash, account, sk, payload, context) == Err(Pq(ContextTooLong(|context|)))
      && VerifyAuthorization(s, hash, vk, payload, context, signature) == Err(Pq(ContextTooLong(|context|)))
    ensures |context| <= 255 ==>
      var framed := [0, |context|] + (context + hash(Preimage(payload)));
      && (s.signFramed(sk, framed).Err? ==>
            AuthEntryFor(s, hash, account, sk, payload, context) == Err(Pq(s.signFramed(sk, framed).error)))
      && (s.signFramed(sk, framed).Ok? ==>
            (AuthEntryFor(s, hash, account, sk, payload, context) == Err(Encoding) <==>
             |s.signFramed(sk, framed).value| > 0xFFFF_FFFF))
      && (s.verifyFramed(vk, framed, signature).Err? ==>
            VerifyAuthorization(s, hash, vk, payload, context, signature) ==
            Err(Pq(s.verifyFramed(vk, framed, signature).error)))
  {
  }
}
