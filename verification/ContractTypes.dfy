/**
 The types of the Stellar contract XDR that nest no contract value: addresses, errors, executables, and
 the preimages of contract ids. Each has an encoder and a strict decoder, inverse in both directions.
 */
module ContractTypes {
  import opened Bytes
  import opened Xdr

  type Symbol = s: seq<byte> | |s| <= 32

  type AssetCode4 = s: seq<byte> | |s| == 4 witness seq(4, _ => 0)
  type AssetCode12 = s: seq<byte> | |s| == 12 witness seq(12, _ => 0)

  datatype ScAddress =
    | Account(ed25519: Digest)
    | Contract(id: Digest)
    | Muxed(subAccount: u64, muxedKey: Digest)
    | ClaimableBalance(balance: Digest)
    | LiquidityPool(pool: Digest)

  /** Kinds 1 to 9 are the host's own error types; each carries one of ten codes. */
  type HostErrorKind = k: int | 1 <= k <= 9 witness 1
  type HostErrorCode = c: int | 0 <= c <= 9

  datatype ScError = ContractCode(code: u32) | HostCode(kind: HostErrorKind, reason: HostErrorCode)

  datatype Executable = Wasm(hash: Digest) | StellarAsset

  datatype Asset =
    | Native
    | AlphaNum4(code4: AssetCode4, issuer: Digest)
    | AlphaNum12(code12: AssetCode12, issuer: Digest)

  datatype IdPreimage = FromAddress(deployer: ScAddress, salt: Digest) | FromAsset(asset: Asset)

  // ---- Encoders -----------------------------------------------------------------------------

  /** A union whose one arm has tag 0 and holds 32 bytes: an account id or a claimable balance id. */
  function EncKeyed(d: Digest): seq<byte> {
    EncU32(0) + d
  }

  function EncAddress(a: ScAddress): seq<byte> {
    match a
    case Account(k) => EncU32(0) + EncKeyed(k)
    case Contract(id) => EncU32(1) + id
    case Muxed(sub, k) => EncU32(2) + (EncU64(sub) + k)
    case ClaimableBalance(h) => EncU32(3) + EncKeyed(h)
    case LiquidityPool(h) => EncU32(4) + h
  }

  function EncError(e: ScError): seq<byte> {
    match e
    case ContractCode(code) => EncU32(0) + EncU32(code)
    case HostCode(kind, reason) => EncU32(kind) + EncU32(reason)
  }

  function EncExecutable(x: Executable): seq<byte> {
    match x
    case Wasm(h) => EncU32(0) + h
    case StellarAsset => EncU32(1)
  }

  function EncAsset(a: Asset): seq<byte> {
    match a
    case Native => EncU32(0)
    case AlphaNum4(code, issuer) => EncU32(1) + (code + EncKeyed(issuer))
    case AlphaNum12(code, issuer) => EncU32(2) + (code + EncKeyed(issuer))
  }

  function EncIdPreimage(p: IdPreimage): seq<byte> {
    match p
    case FromAddress(a, salt) => EncU32(0) + (EncAddress(a) + salt)
    case FromAsset(a) => EncU32(1) + EncAsset(a)
  }

  // ---- Decoders -----------------------------------------------------------------------------

  /** Fixed-length opaque data (RFC 4506 section 4.9) of a length that needs no padding. */
  function DecFixed(n: nat, b: seq<byte>): (r: Parsed<seq<byte>>)
    ensures r.Got? ==> |r.value| == n && |r.rest| <= |b|
  {
    if |b| < n then Bad else Got(b[..n], b[n..])
  }

  function DecKeyed(b: seq<byte>): (r: Parsed<Digest>)
    ensures r.Got? ==> |r.rest| < |b|
  {
    match DecU32(b)
    case Bad => Bad
    case Got(tag, b1) => if tag == 0 then DecDigest(b1) else Bad
  }

  function DecAddress(b: seq<byte>): (r: Parsed<ScAddress>)
    ensures r.Got? ==> |r.rest| < |b|
  {
    match DecU32(b)
    case Bad => Bad
    case Got(tag, b1) =>
      match tag
      case 0 => (match DecKeyed(b1) case Bad => Bad case Got(k, b2) => Got(Account(k), b2))
      case 1 => (match DecDigest(b1) case Bad => Bad case Got(id, b2) => Got(Contract(id), b2))
      case 2 =>
        (match DecU64(b1)
         case Bad => Bad
         case Got(sub, b2) => match DecDigest(b2) case Bad => Bad case Got(k, b3) => Got(Muxed(sub, k), b3))
      case 3 => (match DecKeyed(b1) case Bad => Bad case Got(h, b2) => Got(ClaimableBalance(h), b2))
      case 4 => (match DecDigest(b1) case Bad => Bad case Got(h, b2) => Got(LiquidityPool(h), b2))
      case _ => Bad
  }

  function DecSymbol(b: seq<byte>): (r: Parsed<Symbol>)
    ensures r.Got? ==> |r.rest| < |b|
  {
    match DecOpaque(b)
    case Bad => Bad
    case Got(s, b1) => if |s| > 32 then Bad else Got(s, b1)
  }

  function DecError(b: seq<byte>): (r: Parsed<ScError>)
    ensures r.Got? ==> |r.rest| < |b|
  {
    match DecU32(b)
    case Bad => Bad
    case Got(kind, b1) =>
      match DecU32(b1)
      case Bad => Bad
      case Got(code, b2) =>
        if kind == 0 then Got(ContractCode(code), b2)
        else if kind <= 9 && code <= 9 then Got(HostCode(kind, code), b2)
        else Bad
  }

  function DecExecutable(b: seq<byte>): (r: Parsed<Executable>)
    ensures r.Got? ==> |r.rest| < |b|
  {
    match DecU32(b)
    case Bad => Bad
    case Got(tag, b1) =>
      if tag == 0 then match DecDigest(b1) case Bad => Bad case Got(h, b2) => Got(Wasm(h), b2)
      else if tag == 1 then Got(StellarAsset, b1)
      else Bad
  }

  function DecAsset(b: seq<byte>): (r: Parsed<Asset>)
    ensures r.Got? ==> |r.rest| < |b|
  {
    match DecU32(b)
    case Bad => Bad
    case Got(tag, b1) =>
      match tag
      case 0 => Got(Native, b1)
      case 1 =>
        (match DecFixed(4, b1)
         case Bad => Bad
         case Got(code, b2) => match DecKeyed(b2) case Bad => Bad case Got(k, b3) => Got(AlphaNum4(code, k), b3))
      case 2 =>
        (match DecFixed(12, b1)
         case Bad => Bad
         case Got(code, b2) => match DecKeyed(b2) case Bad => Bad case Got(k, b3) => Got(AlphaNum12(code, k), b3))
      case _ => Bad
  }

  function DecIdPreimage(b: seq<byte>): (r: Parsed<IdPreimage>)
    ensures r.Got? ==> |r.rest| < |b|
  {
    match DecU32(b)
    case Bad => Bad
    case Got(tag, b1) =>
      match tag
      case 0 =>
        (match DecAddress(b1)
         case Bad => Bad
         case Got(a, b2) => match DecDigest(b2) case Bad => Bad case Got(salt, b3) => Got(FromAddress(a, salt), b3))
      case 1 => (match DecAsset(b1) case Bad => Bad case Got(a, b2) => Got(FromAsset(a), b2))
      case _ => Bad
  }

  // ---- Soundness: a decoder accepts only the encoding of the value it returns ----------------

  lemma Assoc2(a: seq<byte>, b: seq<byte>, rest: seq<byte>)
    ensures a + (b + rest) == (a + b) + rest
  {
  }

  lemma Assoc3(a: seq<byte>, b: seq<byte>, c: seq<byte>, rest: seq<byte>)
    ensures a + (b + (c + rest)) == (a + (b + c)) + rest
  {
  }

  lemma Assoc4(a: seq<byte>, b: seq<byte>, c: seq<byte>, d: seq<byte>, rest: seq<byte>)
    ensures a + (b + (c + (d + rest))) == (a + (b + (c + d))) + rest
  {
  }

  lemma DecKeyedSound(b: seq<byte>)
    ensures var r := DecKeyed(b); r.Got? ==> b == EncKeyed(r.value) + r.rest
  {
    hide EncU32, DecU32, DecDigest;
    PrimitivesSound();
    var r := DecKeyed(b);
    if r.Got? { Assoc2(EncU32(0), r.value, r.rest); }
  }

  lemma DecAddressSound(b: seq<byte>)
    ensures var r := DecAddress(b); r.Got? ==> b == EncAddress(r.value) + r.rest
  {
    hide EncU32, DecU32, EncU64, DecU64, DecDigest, EncKeyed, DecKeyed;
    PrimitivesSound();
    var r := DecAddress(b);
    if r.Got? {
      DecKeyedSound(DecU32(b).rest);
      match r.value {
        case Account(k) => Assoc2(EncU32(0), EncKeyed(k), r.rest);
        case Contract(id) => Assoc2(EncU32(1), id, r.rest);
        case Muxed(sub, k) => Assoc3(EncU32(2), EncU64(sub), k, r.rest);
        case ClaimableBalance(h) => Assoc2(EncU32(3), EncKeyed(h), r.rest);
        case LiquidityPool(h) => Assoc2(EncU32(4), h, r.rest);
      }
    }
  }

  lemma DecErrorSound(b: seq<byte>)
    ensures var r := DecError(b); r.Got? ==> b == EncError(r.value) + r.rest
  {
    hide EncU32, DecU32;
    PrimitivesSound();
    var r := DecError(b);
    if r.Got? { Assoc2(EncU32(DecU32(b).value), EncU32(DecU32(DecU32(b).rest).value), r.rest); }
  }

  lemma DecExecutableSound(b: seq<byte>)
    ensures var r := DecExecutable(b); r.Got? ==> b == EncExecutable(r.value) + r.rest
  {
    hide EncU32, DecU32, DecDigest;
    PrimitivesSound();
    var r := DecExecutable(b);
    if r.Got? && r.value.Wasm? { Assoc2(EncU32(0), r.value.hash, r.rest); }
  }

  lemma DecAssetSound(b: seq<byte>)
    ensures var r := DecAsset(b); r.Got? ==> b == EncAsset(r.value) + r.rest
  {
    hide EncU32, DecU32, EncKeyed, DecKeyed;
    PrimitivesSound();
    var r := DecAsset(b);
    if r.Got? {
      var b1 := DecU32(b).rest;
      match r.value {
        case Native =>
        case AlphaNum4(code, k) =>
          DecKeyedSound(b1[4..]);
          Assoc3(EncU32(1), code, EncKeyed(k), r.rest);
        case AlphaNum12(code, k) =>
          DecKeyedSound(b1[12..]);
          Assoc3(EncU32(2), code, EncKeyed(k), r.rest);
      }
    }
  }

  lemma DecIdPreimageSound(b: seq<byte>)
    ensures var r := DecIdPreimage(b); r.Got? ==> b == EncIdPreimage(r.value) + r.rest
  {
    hide EncU32, DecU32, DecDigest, EncAddress, DecAddress, EncAsset, DecAsset;
    PrimitivesSound();
    var r := DecIdPreimage(b);
    if r.Got? {
      DecAddressSound(DecU32(b).rest);
      DecAssetSound(DecU32(b).rest);
      match r.value {
        case FromAddress(a, salt) => Assoc3(EncU32(0), EncAddress(a), salt, r.rest);
        case FromAsset(a) => Assoc2(EncU32(1), EncAsset(a), r.rest);
      }
    }
  }

  // ---- Completeness: decoding undoes encoding, whatever bytes follow ------------------------

  /** Strips a union tag, or a count, from the front of an encoding. */
  lemma DecTag(tag: u32, body: seq<byte>, rest: seq<byte>)
    ensures DecU32((EncU32(tag) + body) + rest) == Got(tag, body + rest)
  {
    hide EncU32, DecU32;
    Assoc2(EncU32(tag), body, rest);
    DecEncU32(tag, body + rest);
  }

  lemma DecEncFixed(s: seq<byte>, rest: seq<byte>)
    ensures DecFixed(|s|, s + rest) == Got(s, rest)
  {
  }

  lemma DecEncKeyed(d: Digest, rest: seq<byte>)
    ensures DecKeyed(EncKeyed(d) + rest) == Got(d, rest)
  {
    hide EncU32, DecU32, DecDigest;
    DecTag(0, d, rest);
    DecEncDigest(d, rest);
  }

  lemma DecEncAddress(a: ScAddress, rest: seq<byte>)
    ensures DecAddress(EncAddress(a) + rest) == Got(a, rest)
  {
    hide EncU32, DecU32, EncU64, DecU64, DecDigest, EncKeyed, DecKeyed;
    match a {
      case Account(k) =>
        DecTag(0, EncKeyed(k), rest);
        DecEncKeyed(k, rest);
      case Contract(id) =>
        DecTag(1, id, rest);
        DecEncDigest(id, rest);
      case Muxed(sub, k) =>
        DecTag(2, EncU64(sub) + k, rest);
        Assoc2(EncU64(sub), k, rest);
        DecEncU64(sub, k + rest);
        DecEncDigest(k, rest);
      case ClaimableBalance(h) =>
        DecTag(3, EncKeyed(h), rest);
        DecEncKeyed(h, rest);
      case LiquidityPool(h) =>
        DecTag(4, h, rest);
        DecEncDigest(h, rest);
    }
  }

  lemma DecEncError(e: ScError, rest: seq<byte>)
    ensures DecError(EncError(e) + rest) == Got(e, rest)
  {
    hide EncU32, DecU32;
    match e {
      case ContractCode(code) =>
        DecTag(0, EncU32(code), rest);
        DecEncU32(code, rest);
      case HostCode(kind, reason) =>
        DecTag(kind, EncU32(reason), rest);
        DecEncU32(reason, rest);
    }
  }

  lemma DecEncExecutable(x: Executable, rest: seq<byte>)
    ensures DecExecutable(EncExecutable(x) + rest) == Got(x, rest)
  {
    hide EncU32, DecU32, DecDigest;
    match x {
      case Wasm(h) =>
        DecTag(0, h, rest);
        DecEncDigest(h, rest);
      case StellarAsset => DecEncU32(1, rest);
    }
  }

  lemma DecEncAsset(a: Asset, rest: seq<byte>)
    ensures DecAsset(EncAsset(a) + rest) == Got(a, rest)
  {
    hide EncU32, DecU32, EncKeyed, DecKeyed, DecFixed;
    match a {
      case Native => DecEncU32(0, rest);
      case AlphaNum4(code, k) =>
        DecTag(1, code + EncKeyed(k), rest);
        Assoc2(code, EncKeyed(k), rest);
        DecEncFixed(code, EncKeyed(k) + rest);
        DecEncKeyed(k, rest);
      case AlphaNum12(code, k) =>
        DecTag(2, code + EncKeyed(k), rest);
        Assoc2(code, EncKeyed(k), rest);
        DecEncFixed(code, EncKeyed(k) + rest);
        DecEncKeyed(k, rest);
    }
  }

  lemma DecEncIdPreimage(p: IdPreimage, rest: seq<byte>)
    ensures DecIdPreimage(EncIdPreimage(p) + rest) == Got(p, rest)
  {
    hide EncU32, DecU32, DecDigest, EncAddress, DecAddress, EncAsset, DecAsset;
    match p {
      case FromAddress(a, salt) =>
        DecTag(0, EncAddress(a) + salt, rest);
        Assoc2(EncAddress(a), salt, rest);
        DecEncAddress(a, salt + rest);
        DecEncDigest(salt, rest);
      case FromAsset(a) =>
        DecTag(1, EncAsset(a), rest);
        DecEncAsset(a, rest);
    }
  }
}
