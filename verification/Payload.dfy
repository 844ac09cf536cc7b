/** The Soroban authorization payload: its preimage, the preimage's byte form, and what a digest binds. */
module Payload {
  import opened Bytes
  import opened Xdr
  import opened ContractTypes
  import opened CallTrees

  /** What one Soroban authorization is for: which network, which use, until when, and which calls. */
  datatype AuthorizationPayload = AuthorizationPayload(
    networkId: Digest, nonce: i64, expirationLedger: u32, invocation: Invocation)

  /** `ENVELOPE_TYPE_SOROBAN_AUTHORIZATION`, the tag of this arm of `HashIdPreimage`. */
  const ENVELOPE_TYPE: u32 := 9

  /** XDR of `HashIdPreimage::SorobanAuthorization`. */
  function Preimage(p: AuthorizationPayload): seq<byte> {
    EncU32(ENVELOPE_TYPE) +
    (p.networkId + (EncI64(p.nonce) + (EncU32(p.expirationLedger) + EncTree(p.invocation))))
  }

  /** SHA-256 is a parameter: any function from byte strings to digests. */
  type HashFunction = seq<byte> -> Digest

  /** The 32 bytes the signer signs and the host passes to `__check_auth`. */
  function SignaturePayload(hash: HashFunction, p: AuthorizationPayload): Digest {
    hash(Preimage(p))
  }

  function ParsePreimage(b: seq<byte>): (r: Parsed<AuthorizationPayload>) {
    match DecU32(b)
    case Bad => Bad
    case Got(tag, b1) =>
      if tag != ENVELOPE_TYPE then Bad
      else
        match DecDigest(b1)
        case Bad => Bad
        case Got(networkId, b2) =>
          match DecI64(b2)
          case Bad => Bad
          case Got(nonce, b3) =>
            match DecU32(b3)
            case Bad => Bad
            case Got(expiry, b4) =>
              match DecTree(b4)
              case Bad => Bad
              case Got(t, b5) =>
                DecTreeSound(b4);
                Got(AuthorizationPayload(networkId, nonce, expiry, t), b5)
  }

  /** Both directions at once: the parser accepts exactly the encodings, each with its own rest. */
  lemma PreimageRoundTrip(p: AuthorizationPayload, b: seq<byte>, rest: seq<byte>)
    ensures ParsePreimage(b) == Got(p, rest) <==> b == Preimage(p) + rest
  {
    if b == Preimage(p) + rest {
      ParseEncoded(p, rest);
    }
    if ParsePreimage(b) == Got(p, rest) {
      ParsedIsCanonical(b);
    }
  }

  lemma ParseEncoded(p: AuthorizationPayload, rest: seq<byte>)
    ensures ParsePreimage(Preimage(p) + rest) == Got(p, rest)
  {
    hide EncU32, DecU32, EncI64, DecI64, DecDigest, EncTree, DecTree, TreeFits;
    var b4 := EncTree(p.invocation) + rest;
    var b3 := EncU32(p.expirationLedger) + b4;
    var b2 := EncI64(p.nonce) + b3;
    assert Preimage(p) + rest == EncU32(ENVELOPE_TYPE) + (p.networkId + b2);
    DecEncU32(ENVELOPE_TYPE, p.networkId + b2);
    DecEncDigest(p.networkId, b2);
    DecEncI64(p.nonce, b3);
    DecEncU32(p.expirationLedger, b4);
    DecEncTree(p.invocation, rest);
  }

  lemma ParsedIsCanonical(b: seq<byte>)
    ensures var r := ParsePreimage(b); r.Got? ==> b == Preimage(r.value) + r.rest
  {
    hide EncU32, DecU32, EncI64, DecI64, DecDigest, EncTree, DecTree, TreeFits;
    PrimitivesSound();
    var r := ParsePreimage(b);
    if r.Got? {
      var p := r.value;
      var b4 := EncTree(p.invocation) + r.rest;
      DecTreeSound(DecU32(DecI64(DecDigest(DecU32(b).rest).rest).rest).rest);
      assert b == EncU32(ENVELOPE_TYPE) + (p.networkId + (EncI64(p.nonce) + (EncU32(p.expirationLedger) + b4)));
    }
  }

  /** No preimage is a proper prefix of another, so the bytes determine every field. */
  lemma PreimagePrefixFree(p: AuthorizationPayload, q: AuthorizationPayload, s: seq<byte>, t: seq<byte>)
    requires Preimage(p) + s == Preimage(q) + t
    ensures p == q && s == t
  {
    ParseEncoded(p, s);
    ParseEncoded(q, t);
  }

  const PROTECTED: Symbol := [112, 114, 111, 116, 101, 99, 116, 101, 100]

  lemma GoldenWords()
    ensures EncU32(9) == [0, 0, 0, 9] && EncU32(0) == [0, 0, 0, 0] && EncU32(1) == [0, 0, 0, 1]
    ensures EncI64(4_217_142_651_407) == [0, 0, 3, 213, 225, 74, 42, 15]
    ensures EncU32(4_218_130) == [0, 64, 93, 18]
    ensures EncOpaque(PROTECTED) == [0, 0, 0, 9] + PROTECTED + [0, 0, 0]
  {
  }

  lemma GoldenTree(call: AuthorizedFn)
    requires call.ContractFn? && call.args == []
    ensures TreeFits(CallTree(call, []))
    ensures EncTree(CallTree(call, [])) ==
            EncU32(0) + (EncAddress(call.contract) + (EncOpaque(call.name) + (EncU32(0) + []))) + (EncU32(0) + [])
  {
  }

  /** Twelve words with two ids and the name `protected` among them. */
  function GoldenBytes(networkId: Digest, id: Digest): seq<byte> {
    [0, 0, 0, 9] + networkId + [0, 0, 3, 213, 225, 74, 42, 15] + [0, 64, 93, 18] +
    [0, 0, 0, 0] + [0, 0, 0, 1] + id +
    [0, 0, 0, 9] + [112, 114, 111, 116, 101, 99, 116, 101, 100] + [0, 0, 0] +
    [0, 0, 0, 0] + [0, 0, 0, 0]
  }

  /**
   The layout in full, on the payload whose acceptance by the network the golden test records: 112
   bytes, of which the network id and the contract id are left symbolic.
   */
  lemma GoldenPreimage(networkId: Digest, id: Digest, tree: Invocation)
    requires tree == CallTree(ContractFn(Contract(id), [112, 114, 111, 116, 101, 99, 116, 101, 100], []), [])
    ensures Preimage(AuthorizationPayload(networkId, 4_217_142_651_407, 4_218_130, tree)) ==
            GoldenBytes(networkId, id)
  {
    hide EncU32, EncI64, EncOpaque, EncTree, TreeFits;
    GoldenWords();
    GoldenTree(tree.call);
  }

  /** What is signed is the hash itself of the bytes that parse to the payload, whole and unchanged. */
  lemma DigestIsHashOfPreimage(hash: HashFunction, p: AuthorizationPayload, b: seq<byte>)
    requires ParsePreimage(b) == Got(p, [])
    ensures SignaturePayload(hash, p) == hash(b)
  {
    PreimageRoundTrip(p, b, []);
    assert Preimage(p) + [] == Preimage(p);
  }

  /** On the golden payload: the hash of its 112 bytes. */
  lemma GoldenDigest(hash: HashFunction, networkId: Digest, id: Digest, tree: Invocation)
    requires tree == CallTree(ContractFn(Contract(id), [112, 114, 111, 116, 101, 99, 116, 101, 100], []), [])
    ensures |GoldenBytes(networkId, id)| == 112
    ensures SignaturePayload(hash, AuthorizationPayload(networkId, 4_217_142_651_407, 4_218_130, tree)) ==
            hash(GoldenBytes(networkId, id))
  {
    GoldenPreimage(networkId, id, tree);
  }

  /** Two different payloads that hash alike, which would be a SHA-256 collision. */
  ghost predicate Collision(hash: HashFunction, p: AuthorizationPayload, q: AuthorizationPayload) {
    Preimage(p) != Preimage(q) && hash(Preimage(p)) == hash(Preimage(q))
  }

  /**
   The digest binds every field: payloads sign alike exactly when they agree on the network, the
   nonce, the expiry and the whole call tree, unless their two preimages collide.
   */
  lemma DigestBindsEveryField(hash: HashFunction, p: AuthorizationPayload, q: AuthorizationPayload)
    ensures SignaturePayload(hash, p) == SignaturePayload(hash, q) <==>
            Collision(hash, p, q) ||
            (p.networkId == q.networkId && p.nonce == q.nonce &&
             p.expirationLedger == q.expirationLedger && p.invocation == q.invocation)
  {
    if Preimage(p) == Preimage(q) {
      PreimagePrefixFree(p, q, [], []);
    }
  }

  // ---- Length: computed from the tree, in whole four-byte blocks -----------------------------

  function OpaqueBlocks(n: nat): nat {
    1 + (n + 3) / 4
  }

  function AddressBlocks(a: ScAddress): nat {
    match a
    case Account(_) => 10
    case Contract(_) => 9
    case Muxed(_, _) => 11
    case ClaimableBalance(_) => 10
    case LiquidityPool(_) => 9
  }

  function ExecutableBlocks(x: Executable): nat {
    if x.Wasm? then 9 else 1
  }

  function AssetBlocks(a: Asset): nat {
    match a
    case Native => 1
    case AlphaNum4(_, _) => 11
    case AlphaNum12(_, _) => 13
  }

  function IdPreimageBlocks(p: IdPreimage): nat {
    match p
    case FromAddress(a, _) => 9 + AddressBlocks(a)
    case FromAsset(a) => 1 + AssetBlocks(a)
  }

  function ValBlocks(v: ScVal): nat
    decreases v, 1
  {
    1 + ArmBlocks(v)
  }

  function ArmBlocks(v: ScVal): nat
    decreases v, 0
  {
    match v
    case Bool(_) => 1
    case Void => 0
    case Error(_) => 2
    case U32(_) => 1
    case I32(_) => 1
    case U64(_) => 2
    case I64(_) => 2
    case Timepoint(_) => 2
    case Duration(_) => 2
    case U128(_, _) => 4
    case I128(_, _) => 4
    case U256(_, _, _, _) => 8
    case I256(_, _, _, _) => 8
    case Bytes(s) => OpaqueBlocks(|s|)
    case String(s) => OpaqueBlocks(|s|)
    case Symbol(s) => OpaqueBlocks(|s|)
    case NoVec => 1
    case Vec(vs) => 2 + ValsBlocks(vs)
    case NoMap => 1
    case Map(es) => 2 + EntriesBlocks(es)
    case Address(a) => AddressBlocks(a)
    case BareInstance(x) => ExecutableBlocks(x) + 1
    case Instance(x, es) => ExecutableBlocks(x) + 2 + EntriesBlocks(es)
    case LedgerKeyInstance => 0
    case LedgerKeyNonce(_) => 2
  }

  function ValsBlocks(vs: seq<ScVal>): nat
    decreases vs
  {
    if vs == [] then 0 else ValBlocks(vs[0]) + ValsBlocks(vs[1..])
  }

  function EntryBlocks(e: ScMapEntry): nat
    decreases e
  {
    ValBlocks(e.key) + ValBlocks(e.val)
  }

  function EntriesBlocks(es: seq<ScMapEntry>): nat
    decreases es
  {
    if es == [] then 0 else EntryBlocks(es[0]) + EntriesBlocks(es[1..])
  }

  function FnBlocks(f: AuthorizedFn): nat {
    match f
    case ContractFn(a, name, args) => 2 + AddressBlocks(a) + OpaqueBlocks(|name|) + ValsBlocks(args)
    case CreateContract(from, code) => 1 + IdPreimageBlocks(from) + ExecutableBlocks(code)
    case CreateContractV2(from, code, args) =>
      2 + IdPreimageBlocks(from) + ExecutableBlocks(code) + ValsBlocks(args)
  }

  function TreeBlocks(t: CallTree): nat
    decreases t
  {
    1 + FnBlocks(t.call) + TreesBlocks(t.subs)
  }

  function TreesBlocks(ts: seq<CallTree>): nat
    decreases ts
  {
    if ts == [] then 0 else TreeBlocks(ts[0]) + TreesBlocks(ts[1..])
  }

  lemma OpaqueLength(s: VarOpaque)
    ensures |EncOpaque(s)| == 4 * OpaqueBlocks(|s|)
  {
    hide EncU32;
    var n := |s|;
    var q, r := n / 4, n % 4;
    assert n == 4 * q + r;
    assert (n + 3) / 4 == if r == 0 then q else q + 1;
  }

  lemma AddressLength(a: ScAddress)
    ensures |EncAddress(a)| == 4 * AddressBlocks(a)
  {
    hide EncU32, EncU64;
  }

  lemma ExecutableLength(x: Executable)
    ensures |EncExecutable(x)| == 4 * ExecutableBlocks(x)
  {
    hide EncU32;
  }

  lemma IdPreimageLength(p: IdPreimage)
    ensures |EncIdPreimage(p)| == 4 * IdPreimageBlocks(p)
  {
    hide EncU32, EncAddress, AddressBlocks;
    if p.FromAddress? { AddressLength(p.deployer); }
  }

  lemma {:induction false} ValLength(v: ScVal)
    requires Fits(v)
    ensures |EncVal(v)| == 4 * ValBlocks(v)
    decreases v, 1
  {
    hide EncU32, EncArm, ArmBlocks, Fits;
    ArmLength(v);
  }

  lemma {:induction false} ArmLength(v: ScVal)
    requires Fits(v)
    ensures |EncArm(v)| == 4 * ArmBlocks(v)
    decreases v, 0
  {
    hide EncU32, EncI32, EncU64, EncI64, EncOpaque, OpaqueBlocks, EncAddress, AddressBlocks;
    hide EncExecutable, ExecutableBlocks;
    match v {
      case Bytes(s) => OpaqueLength(s);
      case String(s) => OpaqueLength(s);
      case Symbol(s) => OpaqueLength(s);
      case Vec(vs) => ValsLength(vs);
      case Map(es) => EntriesLength(es);
      case Address(a) => AddressLength(a);
      case BareInstance(x) => ExecutableLength(x);
      case Instance(x, es) =>
        ExecutableLength(x);
        EntriesLength(es);
      case _ =>
    }
  }

  lemma {:induction false} ValsLength(vs: seq<ScVal>)
    requires AllFit(vs)
    ensures |EncVals(vs)| == 4 * ValsBlocks(vs)
    decreases vs
  {
    hide EncVal, ValBlocks, Fits;
    if vs != [] {
      ValLength(vs[0]);
      ValsLength(vs[1..]);
    }
  }

  lemma {:induction false} EntriesLength(es: seq<ScMapEntry>)
    requires EntriesFit(es)
    ensures |EncEntries(es)| == 4 * EntriesBlocks(es)
    decreases es
  {
    hide EncEntry, EntryBlocks, EntryFits;
    if es != [] {
      EntryLength(es[0]);
      EntriesLength(es[1..]);
    }
  }

  lemma {:induction false} EntryLength(e: ScMapEntry)
    requires EntryFits(e)
    ensures |EncEntry(e)| == 4 * EntryBlocks(e)
    decreases e
  {
    hide EncVal, ValBlocks, Fits;
    ValLength(e.key);
    ValLength(e.val);
  }

  lemma ArgsLength(args: seq<ScVal>)
    requires |args| < 0x1_0000_0000 && AllFit(args)
    ensures |EncArgs(args)| == 4 * (1 + ValsBlocks(args))
  {
    hide EncU32, EncVals, ValsBlocks, AllFit;
    ValsLength(args);
  }

  lemma FnLength(f: AuthorizedFn)
    requires FnFits(f)
    ensures |EncFn(f)| == 4 * FnBlocks(f)
  {
    hide EncU32, EncOpaque, OpaqueBlocks, EncArgs, ValsBlocks, AllFit, EncAddress, AddressBlocks;
    hide EncIdPreimage, IdPreimageBlocks, EncExecutable, ExecutableBlocks;
    match f {
      case ContractFn(a, name, args) =>
        AddressLength(a);
        OpaqueLength(name);
        ArgsLength(args);
      case CreateContract(from, code) =>
        IdPreimageLength(from);
        ExecutableLength(code);
      case CreateContractV2(from, code, args) =>
        IdPreimageLength(from);
        ExecutableLength(code);
        ArgsLength(args);
    }
  }

  lemma {:induction false} TreeLength(t: CallTree)
    requires TreeFits(t)
    ensures |EncTree(t)| == 4 * TreeBlocks(t)
    decreases t
  {
    hide EncU32, EncFn, FnBlocks, FnFits;
    FnLength(t.call);
    TreesLength(t.subs);
  }

  lemma {:induction false} TreesLength(ts: seq<CallTree>)
    requires TreesFit(ts)
    ensures |EncTrees(ts)| == 4 * TreesBlocks(ts)
    decreases ts
  {
    hide EncTree, TreeBlocks, TreeFits;
    if ts != [] {
      TreeLength(ts[0]);
      TreesLength(ts[1..]);
    }
  }

  /** Twelve blocks for tag, network id, nonce and expiry, then those of the tree. */
  lemma PreimageLength(p: AuthorizationPayload)
    ensures |Preimage(p)| == 4 * (12 + TreeBlocks(p.invocation))
  {
    hide EncU32, EncI64, EncTree, TreeBlocks, TreeFits;
    TreeLength(p.invocation);
  }

  /** Every residual byte after opaque data or a string is zero, and there are fewer than four. */
  lemma OpaquePaddingIsZero(s: VarOpaque, i: nat)
    requires 4 + |s| <= i < |EncOpaque(s)|
    ensures EncOpaque(s)[i] == 0 && |EncOpaque(s)| - (4 + |s|) < 4 && EncOpaque(s)[4..4 + |s|] == s
  {
    assert EncOpaque(s)[4..] == s + Zeros(Pad(|s|));
  }
}
