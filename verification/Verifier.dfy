/** The verifier contract: fixed-buffer entry points, against the generic function they should compute. */
module Verifier {
  import opened Bytes
  import opened Framing
  import opened Traits
  import opened MlDsa

  /** `adapter_shaped_function`: decode the key, verify under the empty context, collapse errors. */
  function Adapter<VK, SK>(s: Scheme<VK, SK>, key: seq<byte>, message: seq<byte>, signature: seq<byte>): bool {
    match s.decodeKey(key)
    case Err(_) => false
    case Ok(vk) => Verify(s, vk, message, [], signature).Ok?
  }

  lemma AdapterLengths<SK>(p: Params, core: Lattice<SK>, key: seq<byte>, message: seq<byte>, signature: seq<byte>)
    ensures Adapter(MlDsaScheme(p, core), key, message, signature) ==>
            |key| == VerifyingKeyLen(p) && |signature| == SignatureLen(p)
  {
  }

  const MESSAGE_CAPACITY := 8192

  /** `verify65`: the generic verdict, for every message that fits; never the padding behind it. */
  method Verify65<SK>(core: Lattice<SK>, pk: seq<byte>, msg: seq<byte>, sig: seq<byte>) returns (ok: bool)
    ensures ok <==> |msg| <= 8192 && Adapter(MlDsaScheme(ML_DSA_65, core), pk, msg, sig)
  {
    hide DecodeKey, VerifyFramed;
    DeclaredLengths();
    AdapterLengths(ML_DSA_65, core, pk, msg, sig);
    var scheme := MlDsaScheme(ML_DSA_65, core);
    var pkBuf := new byte[1952](_ => 0);
    if |pk| != 1952 {
      return false;
    }
    CopyPrefix(pk, pkBuf);
    assert pkBuf[..] == pk;
    var sigBuf := new byte[3309](_ => 0);
    if |sig| != 3309 {
      return false;
    }
    CopyPrefix(sig, sigBuf);
    assert sigBuf[..] == sig;
    var m := new byte[MESSAGE_CAPACITY](_ => 0);
    var n := |msg|;
    if n > MESSAGE_CAPACITY {
      return false;
    }
    CopyPrefix(msg, m);
    match scheme.decodeKey(pkBuf[..]) {
      case Ok(vk) =>
        var verdict := Verify(scheme, vk, m[..n], [], sigBuf[..]);
        return verdict.Ok?;
      case Err(_) =>
        return false;
    }
  }

  /** `verify44`, with the smaller buffers. */
  method Verify44<SK>(core: Lattice<SK>, pk: seq<byte>, msg: seq<byte>, sig: seq<byte>) returns (ok: bool)
    ensures ok <==> |msg| <= 8192 && Adapter(MlDsaScheme(ML_DSA_44, core), pk, msg, sig)
  {
    hide DecodeKey, VerifyFramed;
    DeclaredLengths();
    AdapterLengths(ML_DSA_44, core, pk, msg, sig);
    var scheme := MlDsaScheme(ML_DSA_44, core);
    var pkBuf := new byte[1312](_ => 0);
    if |pk| != 1312 {
      return false;
    }
    CopyPrefix(pk, pkBuf);
    assert pkBuf[..] == pk;
    var sigBuf := new byte[2420](_ => 0);
    if |sig| != 2420 {
      return false;
    }
    CopyPrefix(sig, sigBuf);
    assert sigBuf[..] == sig;
    var m := new byte[MESSAGE_CAPACITY](_ => 0);
    var n := |msg|;
    if n > MESSAGE_CAPACITY {
      return false;
    }
    CopyPrefix(msg, m);
    match scheme.decodeKey(pkBuf[..]) {
      case Ok(vk) =>
        var verdict := Verify(scheme, vk, m[..n], [], sigBuf[..]);
        return verdict.Ok?;
      case Err(_) =>
        return false;
    }
  }

  /** `decode65`: every key of the right length decodes, so the length is all it reports. */
  method Decode65<SK>(core: Lattice<SK>, pk: seq<byte>) returns (ok: bool)
    ensures ok <==> |pk| == 1952
  {
    DeclaredLengths();
    var pkBuf := new byte[1952](_ => 0);
    if |pk| != 1952 {
      return false;
    }
    CopyPrefix(pk, pkBuf);
    var decoded := MlDsaScheme(ML_DSA_65, core).decodeKey(pkBuf[..]);
    return decoded.Ok?;
  }

  /** `decode44`. */
  method Decode44<SK>(core: Lattice<SK>, pk: seq<byte>) returns (ok: bool)
    ensures ok <==> |pk| == 1312
  {
    DeclaredLengths();
    var pkBuf := new byte[1312](_ => 0);
    if |pk| != 1312 {
      return false;
    }
    CopyPrefix(pk, pkBuf);
    var decoded := MlDsaScheme(ML_DSA_44, core).decodeKey(pkBuf[..]);
    return decoded.Ok?;
  }

  /**
   What a true verdict means, in terms of values rather than bytes: the key string encodes a valid key,
   and the signature string encodes a valid signature that the core accepts for the message framed
   under the empty context.
   */
  lemma AdapterMeaning<SK>(p: Params, core: Lattice<SK>, key: seq<byte>, message: seq<byte>, signature: seq<byte>)
    ensures Adapter(MlDsaScheme(p, core), key, message, signature) <==>
            exists vk, sig :: ValidKey(p, vk) && key == EncodeKey(p, vk) &&
                              Opens(p, core, vk, Frame([], message), signature, sig)
  {
    hide EncodeKey, ValidKey, Opens, DecodeKey;
    var decoded := DecodeKey(p, key);
    if decoded.Ok? {
      KeysCanonical(p, key, decoded.value);
      AcceptedIsCanonical(p, core, decoded.value, message, [], signature);
    }
    if vk, sig :| ValidKey(p, vk) && key == EncodeKey(p, vk) &&
                  Opens(p, core, vk, Frame([], message), signature, sig) {
      KeysCanonical(p, key, vk);
      AcceptedIsCanonical(p, core, vk, message, [], signature);
    }
  }
}
