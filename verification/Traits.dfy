/**
 The scheme-agnostic layer. A scheme is a record of functions, `Lawful` is the contract the Rust
 traits state in prose, and the buffer-writing trait methods are methods over it.
 */
module Traits {
  import opened Wrappers
  import opened Bytes
  import opened Framing

  datatype Keypair<+VK, +SK> = Keypair(signing: SK, verifying: VK)

  /**
   `PqScheme` with its key types. `verifyFramed` and `signFramed` are the internal algorithms on a
   framed message; `Verify` and `SignedBytes` below are the external interface every caller uses.
   */
  datatype Scheme<!VK, !SK> = Scheme(
    verifyingKeyLen: nat,
    signatureLen: nat,
    seedLen: nat,
    validKey: VK -> bool,
    encodeKey: VK -> seq<byte>,
    decodeKey: seq<byte> -> Result<VK, PqError>,
    expand: seq<byte> -> SK,
    publicKey: SK -> VK,
    signFramed: (SK, seq<byte>) -> Result<seq<byte>, PqError>,
    verifyFramed: (VK, seq<byte>, seq<byte>) -> Result<(), PqError>)

  /** `from_bytes` and `write_to` are inverse, and a wrong length is `InvalidLength`. */
  ghost predicate CanonicalKeys<VK(!new), SK(!new)>(s: Scheme<VK, SK>) {
    && (forall vk :: s.validKey(vk) ==>
          |s.encodeKey(vk)| == s.verifyingKeyLen && s.decodeKey(s.encodeKey(vk)) == Ok(vk))
    && (forall b :: s.decodeKey(b).Ok? ==>
          s.validKey(s.decodeKey(b).value) && s.encodeKey(s.decodeKey(b).value) == b)
    && (forall b :: |b| != s.verifyingKeyLen ==> s.decodeKey(b) == Err(InvalidLength(s.verifyingKeyLen, |b|)))
    && (forall sk :: s.validKey(s.publicKey(sk)))
  }

  /** `sign_into` never needs more room than the declared length. */
  ghost predicate BoundedSignatures<VK(!new), SK(!new)>(s: Scheme<VK, SK>) {
    forall sk, m :: s.signFramed(sk, m).Ok? ==> |s.signFramed(sk, m).value| <= s.signatureLen
  }

  /** What a seed-derived key signs, its verifying key accepts. */
  ghost predicate Complete<VK(!new), SK(!new)>(s: Scheme<VK, SK>) {
    forall seed, m | |seed| == s.seedLen && s.signFramed(s.expand(seed), m).Ok? ::
      s.verifyFramed(s.publicKey(s.expand(seed)), m, s.signFramed(s.expand(seed), m).value) == Ok(())
  }

  ghost predicate Lawful<VK(!new), SK(!new)>(s: Scheme<VK, SK>) {
    CanonicalKeys(s) && BoundedSignatures(s) && Complete(s)
  }

  /** Every accepted signature has the declared length, as for ML-DSA and SLH-DSA but not Falcon. */
  ghost predicate FixedLength<VK(!new), SK(!new)>(s: Scheme<VK, SK>) {
    forall vk, m, sig :: s.verifyFramed(vk, m, sig).Ok? ==> |sig| == s.signatureLen
  }

  /** `PqVerifier::verify`. */
  function Verify<VK, SK>(s: Scheme<VK, SK>, vk: VK, message: seq<byte>, context: seq<byte>,
                          signature: seq<byte>): Result<(), PqError> {
    match CheckContext(context)
    case Err(e) => Err(e)
    case Ok(_) => s.verifyFramed(vk, Frame(context, message), signature)
  }

  /** The bytes `PqSigner::sign_into` produces, leaving its output buffer aside. */
  function SignedBytes<VK, SK>(s: Scheme<VK, SK>, sk: SK, message: seq<byte>,
                               context: seq<byte>): Result<seq<byte>, PqError> {
    match CheckContext(context)
    case Err(e) => Err(e)
    case Ok(_) => s.signFramed(sk, Frame(context, message))
  }

  /** The keypair a seed stands for, or the refusal of a seed of the wrong length. */
  function KeypairFor<VK, SK>(s: Scheme<VK, SK>, seed: seq<byte>): Result<Keypair<VK, SK>, PqError> {
    match CheckLen(|seed|, s.seedLen)
    case Err(e) => Err(e)
    case Ok(_) => Ok(Keypair(s.expand(seed), s.publicKey(s.expand(seed))))
  }

  /** `PqKeypair::from_seed`. */
  method FromSeed<VK, SK>(s: Scheme<VK, SK>, seed: seq<byte>) returns (r: Result<Keypair<VK, SK>, PqError>)
    ensures r == KeypairFor(s, seed)
    ensures |seed| != s.seedLen ==> r == Err(InvalidLength(s.seedLen, |seed|))
    ensures |seed| == s.seedLen ==> r == Ok(Keypair(s.expand(seed), s.publicKey(s.expand(seed))))
  {
    if |seed| != s.seedLen {
      return Err(InvalidLength(s.seedLen, |seed|));
    }
    var buffer := new byte[s.seedLen](_ => 0);
    CopyPrefix(seed, buffer);
    assert buffer[..] == seed;
    var signing := s.expand(buffer[..]);
    return Ok(Keypair(signing, s.publicKey(signing)));
  }

  /** `PqEncode::write_to`: the canonical encoding in front, everything else untouched. */
  method WriteTo<VK(!new), SK(!new)>(s: Scheme<VK, SK>, vk: VK, out: array<byte>)
    returns (r: Result<nat, PqError>)
    requires Lawful(s) && s.validKey(vk)
    modifies out
    ensures r == if out.Length < s.verifyingKeyLen
                 then Err(BufferTooSmall(s.verifyingKeyLen, out.Length))
                 else Ok(s.verifyingKeyLen)
    ensures r.Ok? ==> out[..] == s.encodeKey(vk) + old(out[s.verifyingKeyLen..])
    ensures r.Err? ==> out[..] == old(out[..])
  {
    if out.Length < s.verifyingKeyLen {
      return Err(BufferTooSmall(s.verifyingKeyLen, out.Length));
    }
    CopyPrefix(s.encodeKey(vk), out);
    return Ok(s.verifyingKeyLen);
  }

  /**
   `PqSigner::sign_into`. On success the signature is a prefix of the buffer and the rest is
   untouched; on any error, a long context, a short buffer or a failed signing, nothing is.
   */
  method SignInto<VK(!new), SK(!new)>(s: Scheme<VK, SK>, sk: SK, message: seq<byte>,
                                      context: seq<byte>, out: array<byte>)
    returns (r: Result<nat, PqError>)
    requires Lawful(s)
    modifies out
    ensures r.Ok? ==>
              var signed := SignedBytes(s, sk, message, context);
              signed.Ok? && r.value == |signed.value| <= s.signatureLen <= out.Length &&
              out[..] == signed.value + old(out[..])[r.value..]
    ensures r.Err? ==> out[..] == old(out[..])
    ensures r.Err? <==> SignedBytes(s, sk, message, context).Err? || out.Length < s.signatureLen
    ensures r.Err? ==>
              r.error == if |context| > MAX_CONTEXT_LEN then ContextTooLong(|context|)
                         else if out.Length < s.signatureLen then BufferTooSmall(s.signatureLen, out.Length)
                         else SignedBytes(s, sk, message, context).error
  {
    if |context| > MAX_CONTEXT_LEN {
      return Err(ContextTooLong(|context|));
    }
    if out.Length < s.signatureLen {
      return Err(BufferTooSmall(s.signatureLen, out.Length));
    }
    match s.signFramed(sk, Frame(context, message)) {
      case Err(e) =>
        return Err(e);
      case Ok(sig) =>
        CopyPrefix(sig, out);
        return Ok(|sig|);
    }
  }
}
