/**
 The ML-DSA binding: key and signature encodings of FIPS 204 (section 7.2), and the scheme the macro
 builds from them for each parameter set. Lattice arithmetic enters as a `Lattice` record.
 */
module MlDsa {
  import opened Wrappers
  import opened Bytes
  import opened Framing
  import opened Traits
  import opened Packing
  import opened Hints

  /**
   `zWidth` is bitlen(2 * gamma1 - 1), so gamma1 is 2^(zWidth - 1); `challengeLen` is lambda / 4; `beta`
   is tau * eta.
   */
  datatype RawParams = RawParams(k: nat, l: nat, zWidth: nat, challengeLen: nat, omega: nat, beta: nat)

  type Params = p: RawParams | p.zWidth > 0 && p.omega < 256 witness RawParams(0, 0, 1, 0, 0, 0)

  const ML_DSA_44: Params := RawParams(4, 4, 18, 32, 80, 78)
  const ML_DSA_65: Params := RawParams(6, 5, 20, 48, 55, 196)

  const SEED_LEN := 32
  const T1_WIDTH := 10

  function VerifyingKeyLen(p: Params): nat {
    32 + VectorLen(p.k, T1_WIDTH)
  }

  /** Where the hint bytes of a signature begin. */
  function HintStart(p: Params): nat {
    p.challengeLen + VectorLen(p.l, p.zWidth)
  }

  function SignatureLen(p: Params): nat {
    HintStart(p) + (p.omega + p.k)
  }

  /** The lengths the macro is instantiated with are those of the encodings. */
  lemma DeclaredLengths()
    ensures VerifyingKeyLen(ML_DSA_44) == 1312 && SignatureLen(ML_DSA_44) == 2420
    ensures VerifyingKeyLen(ML_DSA_65) == 1952 && SignatureLen(ML_DSA_65) == 3309
  {
  }

  // ---- Verifying keys (pkEncode, pkDecode: Algorithms 22 and 23) -----------------------------

  datatype VerifyingKey = VerifyingKey(rho: seq<byte>, t1: seq<seq<int>>)

  predicate ValidKey(p: Params, vk: VerifyingKey) {
    |vk.rho| == 32 && |vk.t1| == p.k && AllFitting(vk.t1, T1_WIDTH)
  }

  function EncodeKey(p: Params, vk: VerifyingKey): seq<byte> {
    if ValidKey(p, vk) then vk.rho + PackVector(vk.t1, T1_WIDTH) else []
  }

  /** `VerifyingKey::from_bytes`: past the length check, every byte string is some key. */
  function DecodeKey(p: Params, b: seq<byte>): Result<VerifyingKey, PqError> {
    match CheckLen(|b|, VerifyingKeyLen(p))
    case Err(e) => Err(e)
    case Ok(_) => Ok(VerifyingKey(b[..32], UnpackVector(b[32..], T1_WIDTH, p.k)))
  }

  /**
   Key encoding is a bijection between valid keys and all byte strings of the declared length. So a
   key decodes exactly when its length is right, decoding what was stored gives back the key, and
   re-encoding what was decoded gives back the bytes.
   */
  lemma KeysCanonical(p: Params, b: seq<byte>, vk: VerifyingKey)
    ensures DecodeKey(p, b).Ok? <==> |b| == VerifyingKeyLen(p)
    ensures DecodeKey(p, b) == Ok(vk) <==> ValidKey(p, vk) && b == EncodeKey(p, vk)
  {
    if |b| == VerifyingKeyLen(p) {
      PackUnpackVector(b[32..], T1_WIDTH, p.k);
      assert b == b[..32] + b[32..];
    }
    if ValidKey(p, vk) {
      UnpackPackVector(vk.t1, T1_WIDTH);
      var enc := EncodeKey(p, vk);
      assert enc[..32] == vk.rho && enc[32..] == PackVector(vk.t1, T1_WIDTH);
    }
  }

  /**
   The layout of a key: 32 bytes of rho, then each polynomial of t1 in 320 bytes, in order, as one number
   with base-1024 digits.
   */
  lemma KeyLayout(p: Params, vk: VerifyingKey, i: nat)
    requires ValidKey(p, vk) && i < p.k
    ensures var b := EncodeKey(p, vk);
      && |b| == 32 + 320 * p.k && b[..32] == vk.rho
      && Number(b[32 + 320 * i..352 + 320 * i], 8) == Number(vk.t1[i], 10)
  {
    hide Number, SimpleBitPack;
    VectorLens(i);
    VectorLens(i + 1);
    VectorLens(p.k);
    PackedAt(vk.t1, T1_WIDTH, i);
    PackingKeepsTheNumber(vk.t1[i], T1_WIDTH);
    SliceAfter(vk.rho, PackVector(vk.t1, T1_WIDTH), [], 320 * i, 320 * i + 320);
    SplitParts(vk.rho, PackVector(vk.t1, T1_WIDTH), []);
    assert EncodeKey(p, vk) == vk.rho + PackVector(vk.t1, T1_WIDTH) + [];
  }

  /** A slice of the middle one of three byte strings. */
  lemma SliceAfter(front: seq<byte>, middle: seq<byte>, back: seq<byte>, lo: nat, hi: nat)
    requires lo <= hi <= |middle|
    ensures (front + middle + back)[|front| + lo..|front| + hi] == middle[lo..hi]
  {
  }

  // ---- Signatures (sigEncode, sigDecode: Algorithms 26 and 27) -------------------------------

  datatype Signature = Signature(challenge: seq<byte>, z: seq<seq<int>>, hints: seq<Hint>)

  function Gamma1(p: Params): nat {
    Pow2(p.zWidth - 1)
  }

  /** The response bound: every coefficient is below gamma1 - beta in absolute value. */
  predicate Short(p: Params, z: seq<seq<int>>) {
    forall i, j :: 0 <= i < |z| && 0 <= j < |z[i]| ==> -(Gamma1(p) - p.beta) < z[i][j] < Gamma1(p) - p.beta
  }

  predicate ValidSignature(p: Params, sig: Signature) {
    && |sig.challenge| == p.challengeLen
    && |sig.z| == p.l && AllPolys(sig.z) && Short(p, sig.z)
    && |sig.hints| == p.k && Weight(sig.hints) <= p.omega
  }

  /** BitPack(w, a, b) packs b - w, and unpacking applies the same reflection. */
  function Reflect(w: seq<int>, b: int): (r: seq<int>)
    ensures |r| == |w|
  {
    seq(|w|, i requires 0 <= i < |w| => b - w[i])
  }

  function ReflectAll(ws: seq<seq<int>>, b: int): (r: seq<seq<int>>)
    ensures |r| == |ws| && forall i :: 0 <= i < |ws| ==> r[i] == Reflect(ws[i], b)
  {
    seq(|ws|, i requires 0 <= i < |ws| => Reflect(ws[i], b))
  }

  lemma ReflectTwice(ws: seq<seq<int>>, b: int)
    ensures ReflectAll(ReflectAll(ws, b), b) == ws
  {
    forall i | 0 <= i < |ws|
      ensures ReflectAll(ReflectAll(ws, b), b)[i] == ws[i]
    {
      assert Reflect(Reflect(ws[i], b), b) == ws[i];
    }
  }

  function EncodeSignature(p: Params, sig: Signature): (bytes: seq<byte>)
    requires ValidSignature(p, sig)
    ensures |bytes| == SignatureLen(p)
  {
    sig.challenge + PackVector(ReflectAll(sig.z, Gamma1(p)), p.zWidth) + HintBitPack(sig.hints, p.omega)
  }

  /** The response as its bytes stand for it, in range or not. */
  function ReadResponse(p: Params, bytes: seq<byte>): (z: seq<seq<int>>)
    requires |bytes| == SignatureLen(p)
    ensures |z| == p.l && AllPolys(z)
  {
    ReflectAll(UnpackVector(bytes[p.challengeLen..HintStart(p)], p.zWidth, p.l), Gamma1(p))
  }

  /** A malformed hint section or a response out of range is refused. */
  function DecodeSignature(p: Params, bytes: seq<byte>): Option<Signature>
    requires |bytes| == SignatureLen(p)
  {
    var z := ReadResponse(p, bytes);
    match HintBitUnpack(bytes[HintStart(p)..], p.omega)
    case None => None
    case Some(hints) => if Short(p, z) then Some(Signature(bytes[..p.challengeLen], z, hints)) else None
  }

  lemma ShortPacks(p: Params, z: seq<seq<int>>)
    requires AllPolys(z) && Short(p, z)
    ensures AllFitting(ReflectAll(z, Gamma1(p)), p.zWidth)
  {
    var g := Gamma1(p);
    assert Pow2(p.zWidth) == 2 * g;
    forall i | 0 <= i < |z|
      ensures Fitting(ReflectAll(z, g)[i], p.zWidth)
    {
      forall j | 0 <= j < N
        ensures 0 <= Reflect(z[i], g)[j] < Pow2(p.zWidth)
      {
        assert -(g - p.beta) < z[i][j] < g - p.beta;
      }
    }
  }

  lemma DecodeEncodeSignature(p: Params, sig: Signature)
    requires ValidSignature(p, sig)
    ensures DecodeSignature(p, EncodeSignature(p, sig)) == Some(sig)
  {
    var g := Gamma1(p);
    var packed, y := PackVector(ReflectAll(sig.z, g), p.zWidth), HintBitPack(sig.hints, p.omega);
    var bytes := EncodeSignature(p, sig);
    var zEnd := p.challengeLen + |packed|;
    assert bytes[..p.challengeLen] == sig.challenge;
    assert bytes[p.challengeLen..zEnd] == packed;
    assert bytes[zEnd..] == y;
    ShortPacks(p, sig.z);
    UnpackPackVector(ReflectAll(sig.z, g), p.zWidth);
    ReflectTwice(sig.z, g);
    HintsCanonical(y, p.omega, sig.hints);
  }

  lemma EncodeDecodeSignature(p: Params, bytes: seq<byte>)
    requires |bytes| == SignatureLen(p) && DecodeSignature(p, bytes).Some?
    ensures var sig := DecodeSignature(p, bytes).value;
      ValidSignature(p, sig) && EncodeSignature(p, sig) == bytes
  {
    hide HintBitUnpack, HintBitPack, UnpackVector, PackVector, Short, Gamma1;
    var zEnd := HintStart(p);
    var zBytes, y := bytes[p.challengeLen..zEnd], bytes[zEnd..];
    var ws := UnpackVector(zBytes, p.zWidth, p.l);
    var hints := HintBitUnpack(y, p.omega).value;
    HintsCanonical(y, p.omega, hints);
    ReflectTwice(ws, Gamma1(p));
    PackUnpackVector(zBytes, p.zWidth, p.l);
    assert bytes == bytes[..p.challengeLen] + zBytes + y;
  }

  /** Decoding accepts exactly the encodings of valid signatures, each with its own value. */
  lemma SignaturesCanonical(p: Params, bytes: seq<byte>, sig: Signature)
    requires |bytes| == SignatureLen(p)
    ensures DecodeSignature(p, bytes) == Some(sig) <==> ValidSignature(p, sig) && bytes == EncodeSignature(p, sig)
  {
    if DecodeSignature(p, bytes) == Some(sig) {
      EncodeDecodeSignature(p, bytes);
    }
    if ValidSignature(p, sig) && bytes == EncodeSignature(p, sig) {
      DecodeEncodeSignature(p, sig);
    }
  }

  /** In figures: a response may be 196, or 78, short of gamma1, and no more. */
  lemma ResponseBounds(z: seq<seq<int>>)
    ensures Short(ML_DSA_65, z) <==>
            forall i, j :: 0 <= i < |z| && 0 <= j < |z[i]| ==> -524_092 < z[i][j] < 524_092
    ensures Short(ML_DSA_44, z) <==>
            forall i, j :: 0 <= i < |z| && 0 <= j < |z[i]| ==> -130_994 < z[i][j] < 130_994
  {
    PowersUsed();
  }

  /** Where the bytes of response polynomial `i` begin; those of the next begin where they end. */
  function ResponseStart(p: Params, i: nat): nat {
    p.challengeLen + VectorLen(i, p.zWidth)
  }

  lemma ResponsePlace(p: Params, i: nat)
    requires i < p.l
    ensures ResponseStart(p, i) + 32 * p.zWidth == ResponseStart(p, i + 1) <= HintStart(p) <= SignatureLen(p)
  {
    UnpackedAt(Zeros(VectorLen(p.l, p.zWidth)), p.zWidth, p.l, i);
  }

  /** The digit that the bytes of a signature hold for coefficient `j` of response polynomial `i`. */
  function ResponseDigit(p: Params, bytes: seq<byte>, i: nat, j: nat): int
    requires |bytes| == SignatureLen(p) && i < p.l
  {
    ResponsePlace(p, i);
    Digit(Number(bytes[ResponseStart(p, i)..ResponseStart(p, i + 1)], 8), p.zWidth, j)
  }

  /**
   The layout of a signature: the challenge; then coefficient z of each response polynomial, in order, as
   the base-2^zWidth digit gamma1 - z; then the hint bytes.
   */
  lemma SignatureLayout(p: Params, sig: Signature, i: nat, j: nat)
    requires ValidSignature(p, sig) && i < p.l && j < N
    ensures var bytes := EncodeSignature(p, sig);
      && bytes[..p.challengeLen] == sig.challenge
      && ResponseDigit(p, bytes, i, j) == Gamma1(p) - sig.z[i][j]
      && bytes[HintStart(p)..] == HintBitPack(sig.hints, p.omega)
  {
    hide HintBitPack, Digit, Number, SimpleBitPack, Weight;
    var bytes, ws := EncodeSignature(p, sig), ReflectAll(sig.z, Gamma1(p));
    var packed, y := PackVector(ws, p.zWidth), HintBitPack(sig.hints, p.omega);
    ResponsePlace(p, i);
    ShortPacks(p, sig.z);
    PackedAt(ws, p.zWidth, i);
    PackedDigit(ws[i], p.zWidth, j);
    SliceAfter(sig.challenge, packed, y, VectorLen(i, p.zWidth), VectorLen(i + 1, p.zWidth));
    SplitParts(sig.challenge, packed, y);
  }

  lemma SplitParts(a: seq<byte>, b: seq<byte>, c: seq<byte>)
    ensures (a + b + c)[..|a|] == a && (a + b + c)[|a| + |b|..] == c
  {
  }

  /** The same in the figures of ML-DSA-65. */
  lemma SignatureLayout65(sig: Signature, i: nat, j: nat)
    requires ValidSignature(ML_DSA_65, sig) && i < 5 && j < 256
    ensures var bytes := EncodeSignature(ML_DSA_65, sig);
      && |bytes| == 3309 && bytes[..48] == sig.challenge
      && Digit(Number(bytes[48 + 640 * i..688 + 640 * i], 8), 20, j) == 524_288 - sig.z[i][j]
      && bytes[3248..] == HintBitPack(sig.hints, 55)
  {
    hide HintBitPack, Digit, Number, EncodeSignature;
    DeclaredLengths();
    PowersUsed();
    VectorLens(i);
    VectorLens(i + 1);
    SignatureLayout(ML_DSA_65, sig, i, j);
  }

  /** And of ML-DSA-44. */
  lemma SignatureLayout44(sig: Signature, i: nat, j: nat)
    requires ValidSignature(ML_DSA_44, sig) && i < 4 && j < 256
    ensures var bytes := EncodeSignature(ML_DSA_44, sig);
      && |bytes| == 2420 && bytes[..32] == sig.challenge
      && Digit(Number(bytes[32 + 576 * i..608 + 576 * i], 8), 18, j) == 131_072 - sig.z[i][j]
      && bytes[2336..] == HintBitPack(sig.hints, 80)
  {
    hide HintBitPack, Digit, Number, EncodeSignature;
    DeclaredLengths();
    PowersUsed();
    VectorLens(i);
    VectorLens(i + 1);
    SignatureLayout(ML_DSA_44, sig, i, j);
  }

  /** Every response digit lies more than beta inside the range from 0 to 2 * gamma1. */
  ghost predicate ResponsesInRange(p: Params, bytes: seq<byte>)
    requires |bytes| == SignatureLen(p)
  {
    forall i, j | 0 <= i < p.l && 0 <= j < N :: p.beta < ResponseDigit(p, bytes, i, j) < 2 * Gamma1(p) - p.beta
  }

  lemma ShortWhenInRange(p: Params, bytes: seq<byte>)
    requires |bytes| == SignatureLen(p)
    ensures Short(p, ReadResponse(p, bytes)) <==> ResponsesInRange(p, bytes)
  {
    hide ReadResponse, ResponseDigit, Gamma1;
    var z := ReadResponse(p, bytes);
    forall i, j | 0 <= i < p.l && 0 <= j < N
      ensures z[i][j] == Gamma1(p) - ResponseDigit(p, bytes, i, j)
    {
      ResponseRead(p, bytes, i, j);
    }
    if Short(p, z) {
      forall i, j | 0 <= i < p.l && 0 <= j < N
        ensures p.beta < ResponseDigit(p, bytes, i, j) < 2 * Gamma1(p) - p.beta
      {
        assert -(Gamma1(p) - p.beta) < z[i][j] < Gamma1(p) - p.beta;
      }
    }
  }

  /** A string decodes exactly if its hint bytes do and every response digit is in range. */
  lemma DecodesWhenInRange(p: Params, bytes: seq<byte>)
    requires |bytes| == SignatureLen(p)
    ensures DecodeSignature(p, bytes).Some? <==>
            HintBitUnpack(bytes[HintStart(p)..], p.omega).Some? && ResponsesInRange(p, bytes)
  {
    hide HintBitUnpack, ReadResponse, Short, ResponsesInRange;
    ShortWhenInRange(p, bytes);
  }

  /** Coefficient `j` of response polynomial `i` is read from its digit. */
  lemma ResponseRead(p: Params, bytes: seq<byte>, i: nat, j: nat)
    requires |bytes| == SignatureLen(p) && i < p.l && j < N
    ensures ReadResponse(p, bytes)[i][j] == Gamma1(p) - ResponseDigit(p, bytes, i, j)
  {
    hide SimpleBitUnpack, Digit, Number, UnpackVector, VectorLen, Gamma1;
    ResponsePlace(p, i);
    var c, end := p.challengeLen, HintStart(p);
    var lo, hi := VectorLen(i, p.zWidth), VectorLen(i + 1, p.zWidth);
    UnpackedAt(bytes[c..end], p.zWidth, p.l, i);
    SliceOfSlice(bytes, c, end, lo, hi);
    UnpackedDigit(bytes[c + lo..c + hi], p.zWidth, j);
  }

  // ---- The scheme ----------------------------------------------------------------------------

  /** The arithmetic of the dependency: key expansion, and the internal signer and verifier. */
  datatype Lattice<!SK> = Lattice(
    expand: seq<byte> -> SK,
    publicKey: SK -> VerifyingKey,
    sign: (SK, seq<byte>) -> Option<Signature>,
    verify: (VerifyingKey, seq<byte>, Signature) -> bool)

  /** What FIPS 204 promises of it: values in range, and what an expanded seed signs verifies. */
  ghost predicate Sound<SK(!new)>(p: Params, core: Lattice<SK>) {
    && (forall sk :: ValidKey(p, core.publicKey(sk)))
    && (forall sk, m :: core.sign(sk, m).Some? ==> ValidSignature(p, core.sign(sk, m).value))
    && (forall seed, m | |seed| == SEED_LEN ::
          core.sign(core.expand(seed), m).Some? &&
          core.verify(core.publicKey(core.expand(seed)), m, core.sign(core.expand(seed), m).value))
  }

  function SignFramed<SK>(p: Params, core: Lattice<SK>, sk: SK, m: seq<byte>): Result<seq<byte>, PqError> {
    match core.sign(sk, m)
    case None => Err(SigningFailed)
    case Some(sig) => if ValidSignature(p, sig) then Ok(EncodeSignature(p, sig)) else Err(SigningFailed)
  }

  function VerifyFramed<SK>(p: Params, core: Lattice<SK>, vk: VerifyingKey, m: seq<byte>,
                            signature: seq<byte>): Result<(), PqError> {
    match CheckLen(|signature|, SignatureLen(p))
    case Err(e) => Err(e)
    case Ok(_) =>
      match DecodeSignature(p, signature)
      case None => Err(VerificationFailed)
      case Some(sig) => if core.verify(vk, m, sig) then Ok(()) else Err(VerificationFailed)
  }

  function MlDsaScheme<SK>(p: Params, core: Lattice<SK>): Scheme<VerifyingKey, SK> {
    Scheme(
      VerifyingKeyLen(p), SignatureLen(p), SEED_LEN,
      vk => ValidKey(p, vk),
      vk => EncodeKey(p, vk),
      b => DecodeKey(p, b),
      core.expand,
      core.publicKey,
      (sk, m) => SignFramed(p, core, sk, m),
      (vk, m, signature) => VerifyFramed(p, core, vk, m, signature))
  }

  lemma MlDsaKeys<SK(!new)>(p: Params, core: Lattice<SK>)
    requires Sound(p, core)
    ensures CanonicalKeys(MlDsaScheme(p, core))
  {
    var s := MlDsaScheme(p, core);
    hide EncodeKey, ValidKey;
    forall vk | s.validKey(vk)
      ensures |s.encodeKey(vk)| == s.verifyingKeyLen && s.decodeKey(s.encodeKey(vk)) == Ok(vk)
    {
      KeysCanonical(p, EncodeKey(p, vk), vk);
    }
    forall b | s.decodeKey(b).Ok?
      ensures s.validKey(s.decodeKey(b).value) && s.encodeKey(s.decodeKey(b).value) == b
    {
      KeysCanonical(p, b, DecodeKey(p, b).value);
    }
  }

  lemma MlDsaCompletes<SK(!new)>(p: Params, core: Lattice<SK>)
    requires Sound(p, core)
    ensures Complete(MlDsaScheme(p, core))
  {
    var s := MlDsaScheme(p, core);
    hide DecodeSignature, EncodeSignature, ValidSignature;
    forall seed, m | |seed| == s.seedLen && s.signFramed(s.expand(seed), m).Ok?
      ensures s.verifyFramed(s.publicKey(s.expand(seed)), m, s.signFramed(s.expand(seed), m).value) == Ok(())
    {
      DecodeEncodeSignature(p, core.sign(core.expand(seed), m).value);
    }
  }

  /** The macro's scheme meets the trait contract, for every parameter set and every sound core. */
  lemma MlDsaLawful<SK(!new)>(p: Params, core: Lattice<SK>)
    requires Sound(p, core)
    ensures Lawful(MlDsaScheme(p, core)) && FixedLength(MlDsaScheme(p, core))
  {
    hide DecodeKey, EncodeKey, ValidKey, DecodeSignature, EncodeSignature, ValidSignature;
    MlDsaKeys(p, core);
    MlDsaCompletes(p, core);
  }

  /** Only seeds of 32 bytes make a key, at either parameter set. */
  lemma SeedsHave32Bytes<SK>(core: Lattice<SK>, seed: seq<byte>)
    ensures var keys := if |seed| == 32 then Ok(Keypair(core.expand(seed), core.publicKey(core.expand(seed))))
                        else Err(InvalidLength(32, |seed|));
      KeypairFor(MlDsaScheme(ML_DSA_44, core), seed) == keys && KeypairFor(MlDsaScheme(ML_DSA_65, core), seed) == keys
  {
  }

  /** A seed-derived key signs under every context the standard allows, and under no other. */
  lemma SeedKeysSign<SK(!new)>(p: Params, core: Lattice<SK>, seed: seq<byte>, message: seq<byte>, context: seq<byte>)
    requires Sound(p, core) && |seed| == SEED_LEN
    ensures SignedBytes(MlDsaScheme(p, core), core.expand(seed), message, context).Ok? <==> |context| <= MAX_CONTEXT_LEN
    ensures |context| <= MAX_CONTEXT_LEN ==>
              |SignedBytes(MlDsaScheme(p, core), core.expand(seed), message, context).value| == SignatureLen(p)
  {
    hide ValidSignature;
    if |context| <= MAX_CONTEXT_LEN {
      assert core.sign(core.expand(seed), Frame(context, message)).Some?;
    }
  }

  ghost predicate Opens<SK>(p: Params, core: Lattice<SK>, vk: VerifyingKey, m: seq<byte>,
                            signature: seq<byte>, sig: Signature) {
    ValidSignature(p, sig) && signature == EncodeSignature(p, sig) && core.verify(vk, m, sig)
  }

  /**
   `verify` accepts exactly the canonical encodings of the signature values the core accepts for the
   framed message. Hence accepted strings have the declared length, and one signature value is never
   accepted under two encodings.
   */
  lemma AcceptedIsCanonical<SK>(p: Params, core: Lattice<SK>, vk: VerifyingKey, message: seq<byte>,
                                context: seq<byte>, signature: seq<byte>)
    ensures Verify(MlDsaScheme(p, core), vk, message, context, signature) == Ok(()) <==>
            |context| <= MAX_CONTEXT_LEN && exists sig :: Opens(p, core, vk, Frame(context, message), signature, sig)
  {
    hide EncodeSignature, DecodeSignature, ValidSignature;
    if |context| <= MAX_CONTEXT_LEN {
      var m := Frame(context, message);
      if |signature| == SignatureLen(p) && DecodeSignature(p, signature).Some? {
        var sig := DecodeSignature(p, signature).value;
        SignaturesCanonical(p, signature, sig);
        assert core.verify(vk, m, sig) ==> Opens(p, core, vk, m, signature, sig);
      }
      if sig :| Opens(p, core, vk, m, signature, sig) {
        SignaturesCanonical(p, signature, sig);
      }
    }
  }

  /** Which error a refusal is: context first, then length; everything cryptographic is one error. */
  lemma RefusalsAreCoarse<SK>(p: Params, core: Lattice<SK>, vk: VerifyingKey, message: seq<byte>,
                              context: seq<byte>, signature: seq<byte>)
    ensures var r := Verify(MlDsaScheme(p, core), vk, message, context, signature);
      r.Err? ==> r.error == if |context| > MAX_CONTEXT_LEN then ContextTooLong(|context|)
                            else if |signature| != SignatureLen(p) then InvalidLength(SignatureLen(p), |signature|)
                            else VerificationFailed
  {
  }

  /**
   A malformed hint section is one of those failures, whatever the core would say: here, a nonzero byte
   among the unused positions.
   */
  lemma MalformedHintsAreRefused<SK>(p: Params, core: Lattice<SK>, vk: VerifyingKey, message: seq<byte>,
                                     context: seq<byte>, signature: seq<byte>, t: nat)
    requires |context| <= MAX_CONTEXT_LEN && |signature| == SignatureLen(p)
    requires t < p.omega && signature[HintStart(p) + t] != 0
    requires forall j :: HintStart(p) + p.omega <= j < |signature| ==> signature[j] <= t
    ensures Verify(MlDsaScheme(p, core), vk, message, context, signature) == Err(VerificationFailed)
  {
    FillerIsChecked(signature[HintStart(p)..], p.omega, t);
  }

  /** For example, at ML-DSA-65, all zero bytes but for the first position byte. */
  lemma OneFillerByteIsRefused<SK>(core: Lattice<SK>, vk: VerifyingKey, message: seq<byte>)
    ensures HintStart(ML_DSA_65) == 3248
    ensures Verify(MlDsaScheme(ML_DSA_65, core), vk, message, [], Zeros(3309)[3248 := 1]) == Err(VerificationFailed)
  {
    DeclaredLengths();
    assert HintStart(ML_DSA_65) == 3248;
    MalformedHintsAreRefused(ML_DSA_65, core, vk, message, [], Zeros(3309)[3248 := 1], 0);
  }

  /** At ML-DSA-44 the hint bytes begin at 2336. */
  lemma OneFillerByteIsRefused44<SK>(core: Lattice<SK>, vk: VerifyingKey, message: seq<byte>)
    ensures HintStart(ML_DSA_44) == 2336
    ensures Verify(MlDsaScheme(ML_DSA_44, core), vk, message, [], Zeros(2420)[2336 := 1]) == Err(VerificationFailed)
  {
    DeclaredLengths();
    assert HintStart(ML_DSA_44) == 2336;
    MalformedHintsAreRefused(ML_DSA_44, core, vk, message, [], Zeros(2420)[2336 := 1], 0);
  }

  /**
   A response out of range is one of those failures too, whatever the core would say. In figures, over the
   bytes of an ML-DSA-65 signature: a base-2^20 digit of at most 196, or of at least 1,048,380.
   */
  lemma LongResponsesAreRefused65<SK>(core: Lattice<SK>, vk: VerifyingKey, message: seq<byte>, context: seq<byte>,
                                      signature: seq<byte>, i: nat, j: nat)
    requires |context| <= 255 && |signature| == 3309 && i < 5 && j < 256
    requires var d := Digit(Number(signature[48 + 640 * i..688 + 640 * i], 8), 20, j); d <= 196 || d >= 1_048_380
    ensures Verify(MlDsaScheme(ML_DSA_65, core), vk, message, context, signature) == Err(VerificationFailed)
  {
    hide Digit, Number, HintBitUnpack, DecodeSignature;
    DeclaredLengths();
    PowersUsed();
    VectorLens(i);
    VectorLens(i + 1);
    DecodesWhenInRange(ML_DSA_65, signature);
    assert ResponseDigit(ML_DSA_65, signature, i, j) ==
           Digit(Number(signature[ResponseStart(ML_DSA_65, i)..ResponseStart(ML_DSA_65, i + 1)], 8), 20, j);
  }

  /** And over the bytes of an ML-DSA-44 signature: a base-2^18 digit of at most 78, or of at least 262,066. */
  lemma LongResponsesAreRefused44<SK>(core: Lattice<SK>, vk: VerifyingKey, message: seq<byte>, context: seq<byte>,
                                      signature: seq<byte>, i: nat, j: nat)
    requires |context| <= 255 && |signature| == 2420 && i < 4 && j < 256
    requires var d := Digit(Number(signature[32 + 576 * i..608 + 576 * i], 8), 18, j); d <= 78 || d >= 262_066
    ensures Verify(MlDsaScheme(ML_DSA_44, core), vk, message, context, signature) == Err(VerificationFailed)
  {
    hide Digit, Number, HintBitUnpack, DecodeSignature;
    DeclaredLengths();
    PowersUsed();
    VectorLens(i);
    VectorLens(i + 1);
    DecodesWhenInRange(ML_DSA_44, signature);
    assert ResponseDigit(ML_DSA_44, signature, i, j) ==
           Digit(Number(signature[ResponseStart(ML_DSA_44, i)..ResponseStart(ML_DSA_44, i + 1)], 8), 18, j);
  }
}
