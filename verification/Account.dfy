/** The account contract: instance storage, `init`, and `__check_auth`. */
module Account {
  import opened Wrappers
  import opened Bytes
  import opened Payload
  import opened Traits
  import opened Auth

  datatype ContractError = NotInited | BadPubKeyLen | BadSigLen | SigVerifyFailed

  /** `b"pq-account-v1"`, the domain-separation context, as bytes. */
  const CONTEXT: seq<byte> := [112, 113, 45, 97, 99, 99, 111, 117, 110, 116, 45, 118, 49]

  /** The value under `DataKey::PubKey`, if any. */
  type Storage = Option<seq<byte>>

  /** When `init` takes a key. */
  predicate Admissible<VK, SK>(s: Scheme<VK, SK>, pubkey: seq<byte>) {
    |pubkey| == s.verifyingKeyLen && s.decodeKey(pubkey).Ok?
  }

  /** Storage is empty or holds a key that `init` takes; nothing else is ever written. */
  predicate WellFormed<VK, SK>(s: Scheme<VK, SK>, storage: Storage) {
    storage.None? || Admissible(s, storage.value)
  }

  /** The storage after `init`: the argument, or, if it is refused, what was there before. */
  function AfterInit<VK, SK>(s: Scheme<VK, SK>, storage: Storage, pubkey: seq<byte>): Storage {
    if Admissible(s, pubkey) then Some(pubkey) else storage
  }

  /** When `__check_auth` passes: the stored key decodes and verifies a full-length signature. */
  predicate Authorizes<VK, SK>(s: Scheme<VK, SK>, storage: Storage, digest: Digest, signature: seq<byte>) {
    storage.Some? && Admissible(s, storage.value) && |signature| == s.signatureLen &&
    Verify(s, s.decodeKey(storage.value).value, digest, CONTEXT, signature).Ok?
  }

  /** Which error a failing `__check_auth` reports. */
  function Refusal<VK, SK>(s: Scheme<VK, SK>, storage: Storage, signature: seq<byte>): ContractError {
    if storage.None? then NotInited
    else if |storage.value| != s.verifyingKeyLen then BadPubKeyLen
    else if |signature| != s.signatureLen then BadSigLen
    else if s.decodeKey(storage.value).Err? then BadPubKeyLen
    else SigVerifyFailed
  }

  class PqAccount<VK(!new), SK(!new)> {
    const scheme: Scheme<VK, SK>
    var pubKey: Storage

    constructor (scheme: Scheme<VK, SK>)
      ensures this.scheme == scheme && pubKey == None
    {
      this.scheme := scheme;
      pubKey := None;
    }

    method Init(pubkey: seq<byte>) returns (r: Result<(), ContractError>)
      modifies this
      ensures pubKey == AfterInit(scheme, old(pubKey), pubkey)
      ensures r == if Admissible(scheme, pubkey) then Ok(()) else Err(BadPubKeyLen)
      ensures old(WellFormed(scheme, pubKey)) ==> WellFormed(scheme, pubKey)
    {
      if |pubkey| != scheme.verifyingKeyLen {
        return Err(BadPubKeyLen);
      }
      var buf := new byte[scheme.verifyingKeyLen](_ => 0);
      CopyPrefix(pubkey, buf);
      assert buf[..] == pubkey;
      var decoded := scheme.decodeKey(buf[..]);
      if decoded.Err? {
        return Err(BadPubKeyLen);
      }
      pubKey := Some(pubkey);
      return Ok(());
    }

    method CheckAuth(signaturePayload: Digest, signature: seq<byte>) returns (r: Result<(), ContractError>)
      ensures r.Ok? <==> Authorizes(scheme, pubKey, signaturePayload, signature)
      ensures r.Err? ==> r.error == Refusal(scheme, pubKey, signature)
      ensures pubKey == None ==> r == Err(NotInited)
      ensures forall stored :: pubKey == Some(stored) ==>
        && (|stored| != scheme.verifyingKeyLen ==> r == Err(BadPubKeyLen))
        && (|stored| == scheme.verifyingKeyLen && |signature| != scheme.signatureLen ==> r == Err(BadSigLen))
        && (|stored| == scheme.verifyingKeyLen && |signature| == scheme.signatureLen && r.Err? ==>
              r.error == if scheme.decodeKey(stored).Err? then BadPubKeyLen else SigVerifyFailed)
    {
      if pubKey.None? {
        return Err(NotInited);
      }
      var stored := pubKey.value;
      if |stored| != scheme.verifyingKeyLen {
        return Err(BadPubKeyLen);
      }
      if |signature| != scheme.signatureLen {
        return Err(BadSigLen);
      }
      var vkBuf := new byte[scheme.verifyingKeyLen](_ => 0);
      CopyPrefix(stored, vkBuf);
      assert vkBuf[..] == stored;
      var sigBuf := new byte[scheme.signatureLen](_ => 0);
      CopyPrefix(signature, sigBuf);
      assert sigBuf[..] == signature;
      var msg := new byte[32](_ => 0);
      CopyPrefix(signaturePayload, msg);
      assert msg[..] == signaturePayload;
      var vk := scheme.decodeKey(vkBuf[..]);
      if vk.Err? {
        return Err(BadPubKeyLen);
      }
      var verdict := Verify(scheme, vk.value, msg[..], CONTEXT, sigBuf[..]);
      return if verdict.Ok? then Ok(()) else Err(SigVerifyFailed);
    }
  }

  // ---- All call sequences --------------------------------------------------------------------

  /** A call of the contract. `protected` and `__check_auth` leave storage alone. */
  datatype ContractCall = InitCall(pubkey: seq<byte>) | OtherCall

  function AfterCalls<VK, SK>(s: Scheme<VK, SK>, storage: Storage, calls: seq<ContractCall>): Storage {
    if calls == [] then storage
    else
      var before := AfterCalls(s, storage, calls[..|calls| - 1]);
      match calls[|calls| - 1]
      case InitCall(pubkey) => AfterInit(s, before, pubkey)
      case OtherCall => before
  }

  /** Call `i` is an `init` that succeeds. */
  predicate StoresAt<VK, SK>(s: Scheme<VK, SK>, calls: seq<ContractCall>, i: nat) {
    i < |calls| && calls[i].InitCall? && Admissible(s, calls[i].pubkey)
  }

  /** Call `i` stores `key`, and no later call stores anything. */
  ghost predicate LastStore<VK, SK>(s: Scheme<VK, SK>, calls: seq<ContractCall>, i: nat, key: seq<byte>) {
    StoresAt(s, calls, i) && calls[i].pubkey == key && forall j: nat :: i < j ==> !StoresAt(s, calls, j)
  }

  /**
   From empty storage, whatever was called: storage is empty exactly when every `init` failed, and holds a
   key exactly when the last `init` that succeeded had it as its argument. That key decodes.
   */
  lemma {:induction false} StorageIsLastAdmissible<VK, SK>(s: Scheme<VK, SK>, calls: seq<ContractCall>)
    ensures var storage := AfterCalls(s, None, calls);
      && WellFormed(s, storage)
      && (storage.None? <==> forall i: nat :: !StoresAt(s, calls, i))
      && (forall key :: storage == Some(key) <==> exists i :: LastStore(s, calls, i, key))
  {
    if calls != [] {
      hide Admissible;
      var n := |calls| - 1;
      var before := calls[..n];
      StorageIsLastAdmissible(s, before);
      assert forall i: nat :: StoresAt(s, calls, i) <==> StoresAt(s, before, i) || (i == n && StoresAt(s, calls, n));
      if StoresAt(s, calls, n) {
        assert LastStore(s, calls, n, calls[n].pubkey);
      } else {
        assert forall i: nat, key :: LastStore(s, calls, i, key) <==> LastStore(s, before, i, key);
      }
    }
  }

  /** As long as every `init` has failed, and only then, `__check_auth` fails with `NotInited`. */
  lemma UninitializedRefusals<VK, SK>(s: Scheme<VK, SK>, calls: seq<ContractCall>, digest: Digest,
                                      signature: seq<byte>)
    ensures var storage := AfterCalls(s, None, calls);
      !Authorizes(s, storage, digest, signature) && Refusal(s, storage, signature) == NotInited <==>
        forall i: nat :: !StoresAt(s, calls, i)
  {
    StorageIsLastAdmissible(s, calls);
  }

  /** The context is the text `pq-account-v1`. */
  lemma ContextText()
    ensures |CONTEXT| == 13 && forall i :: 0 <= i < 13 ==> CONTEXT[i] == "pq-account-v1"[i] as int
  {
  }

  /** Once any `init` has succeeded, only the signature itself can make `__check_auth` fail. */
  lemma InitializedRefusals<VK, SK>(s: Scheme<VK, SK>, calls: seq<ContractCall>, i: nat, digest: Digest,
                                    signature: seq<byte>)
    requires StoresAt(s, calls, i)
    ensures var storage := AfterCalls(s, None, calls);
      !Authorizes(s, storage, digest, signature) ==>
        Refusal(s, storage, signature) == if |signature| != s.signatureLen then BadSigLen else SigVerifyFailed
  {
    StorageIsLastAdmissible(s, calls);
  }

  // ---- Contract and client agree -------------------------------------------------------------

  /**
   For a stored key that decodes, contract and client agree on every signature of the declared length, and
   the contract refuses every other. So on each input they agree unless the client accepts a signature of
   some other length, and for a fixed-length scheme they agree on every input, wrong-length signatures
   included.
   */
  lemma AgreementNeedsFullLength<VK(!new), SK(!new)>(
    s: Scheme<VK, SK>, hash: HashFunction, stored: seq<byte>, payload: AuthorizationPayload, signature: seq<byte>)
    requires Lawful(s) && s.decodeKey(stored).Ok?
    ensures var contract := Authorizes(s, Some(stored), SignaturePayload(hash, payload), signature);
      var client := VerifyAuthorization(s, hash, s.decodeKey(stored).value, payload, CONTEXT, signature).Ok?;
      && ((contract <==> client) <==> (|signature| != s.signatureLen ==> !client))
      && (|signature| == s.signatureLen ==> (contract <==> client))
      && (|signature| != s.signatureLen ==> !contract)
      && (FixedLength(s) ==> (contract <==> client))
  {
    assert FixedLength(s) ==> forall m ::
      s.verifyFramed(s.decodeKey(stored).value, m, signature).Ok? ==> |signature| == s.signatureLen;
  }
}
