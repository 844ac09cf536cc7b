/**
 Contract values and call trees as they appear in an authorization preimage, with the union tags of
 the Stellar contract XDR, their encoder, and a strict decoder.
 */
module CallTrees {
  import opened Bytes
  import opened Xdr
  import opened ContractTypes

  /**
   `Vec`, `Map` and the storage of an instance hold an optional value in the XDR; `NoVec`, `NoMap` and
   `BareInstance` are its absence.
   */
  datatype ScVal =
    | Bool(b: bool)
    | Void
    | Error(error: ScError)
    | U32(u32: u32)
    | I32(i32: i32)
    | U64(u64: u64)
    | I64(i64: i64)
    | Timepoint(time: u64)
    | Duration(seconds: u64)
    | U128(high: u64, low: u64)
    | I128(hi: i64, lo: u64)
    | U256(hiHi: u64, hiLo: u64, loHi: u64, loLo: u64)
    | I256(top: i64, hiLo: u64, loHi: u64, loLo: u64)
    | Bytes(bytes: VarOpaque)
    | String(str: VarOpaque)
    | Symbol(sym: Symbol)
    | NoVec
    | Vec(vec: seq<ScVal>)
    | NoMap
    | Map(entries: seq<ScMapEntry>)
    | Address(address: ScAddress)
    | BareInstance(executable: Executable)
    | Instance(executable: Executable, storage: seq<ScMapEntry>)
    | LedgerKeyInstance
    | LedgerKeyNonce(keyNonce: i64)

  datatype ScMapEntry = ScMapEntry(key: ScVal, val: ScVal)

  /** `SorobanAuthorizedFunction`: a call of a contract, or the creation of one. */
  datatype AuthorizedFn =
    | ContractFn(contract: ScAddress, name: Symbol, args: seq<ScVal>)
    | CreateContract(from: IdPreimage, code: Executable)
    | CreateContractV2(from: IdPreimage, code: Executable, constructorArgs: seq<ScVal>)

  /** `SorobanAuthorizedInvocation`: a call and the sub-calls it is authorized to make. */
  datatype CallTree = CallTree(call: AuthorizedFn, subs: seq<CallTree>)

  // ---- The bounds the Rust vector types carry: every length is a u32 ------------------------

  predicate Fits(v: ScVal)
    decreases v
  {
    match v
    case Vec(vs) => |vs| < 0x1_0000_0000 && AllFit(vs)
    case Map(es) => |es| < 0x1_0000_0000 && EntriesFit(es)
    case Instance(_, es) => |es| < 0x1_0000_0000 && EntriesFit(es)
    case _ => true
  }

  predicate AllFit(vs: seq<ScVal>)
    decreases vs
  {
    vs == [] || (Fits(vs[0]) && AllFit(vs[1..]))
  }

  predicate EntriesFit(es: seq<ScMapEntry>)
    decreases es
  {
    es == [] || (EntryFits(es[0]) && EntriesFit(es[1..]))
  }

  predicate EntryFits(e: ScMapEntry)
    decreases e
  {
    Fits(e.key) && Fits(e.val)
  }

  predicate FnFits(f: AuthorizedFn) {
    match f
    case ContractFn(_, _, args) => |args| < 0x1_0000_0000 && AllFit(args)
    case CreateContract(_, _) => true
    case CreateContractV2(_, _, args) => |args| < 0x1_0000_0000 && AllFit(args)
  }

  predicate TreeFits(t: CallTree)
    decreases t
  {
    FnFits(t.call) && |t.subs| < 0x1_0000_0000 && TreesFit(t.subs)
  }

  predicate TreesFit(ts: seq<CallTree>)
    decreases ts
  {
    ts == [] || (TreeFits(ts[0]) && TreesFit(ts[1..]))
  }

  const LEAF := CallTree(ContractFn(Contract(Zeros(32)), [], []), [])

  /** A call tree as the Rust types admit it. */
  type Invocation = t: CallTree | TreeFits(t) witness LEAF

  // ---- Encoders -----------------------------------------------------------------------------

  function Tag(v: ScVal): u32 {
    match v
    case Bool(_) => 0
    case Void => 1
    case Error(_) => 2
    case U32(_) => 3
    case I32(_) => 4
    case U64(_) => 5
    case I64(_) => 6
    case Timepoint(_) => 7
    case Duration(_) => 8
    case U128(_, _) => 9
    case I128(_, _) => 10
    case U256(_, _, _, _) => 11
    case I256(_, _, _, _) => 12
    case Bytes(_) => 13
    case String(_) => 14
    case Symbol(_) => 15
    case NoVec => 16
    case Vec(_) => 16
    case NoMap => 17
    case Map(_) => 17
    case Address(_) => 18
    case BareInstance(_) => 19
    case Instance(_, _) => 19
    case LedgerKeyInstance => 20
    case LedgerKeyNonce(_) => 21
  }

  /** A union (RFC 4506 section 4.15): the tag, then the arm. */
  function EncVal(v: ScVal): seq<byte>
    requires Fits(v)
    decreases v, 1
  {
    EncU32(Tag(v)) + EncArm(v)
  }

  function EncArm(v: ScVal): seq<byte>
    requires Fits(v)
    decreases v, 0
  {
    match v
    case Bool(b) => EncU32(if b then 1 else 0)
    case Void => []
    case Error(e) => EncError(e)
    case U32(n) => EncU32(n)
    case I32(n) => EncI32(n)
    case U64(n) => EncU64(n)
    case I64(n) => EncI64(n)
    case Timepoint(n) => EncU64(n)
    case Duration(n) => EncU64(n)
    case U128(hi, lo) => EncU64(hi) + EncU64(lo)
    case I128(hi, lo) => EncI64(hi) + EncU64(lo)
    case U256(a, b, c, d) => EncU64(a) + (EncU64(b) + (EncU64(c) + EncU64(d)))
    case I256(a, b, c, d) => EncI64(a) + (EncU64(b) + (EncU64(c) + EncU64(d)))
    case Bytes(s) => EncOpaque(s)
    case String(s) => EncOpaque(s)
    case Symbol(s) => EncOpaque(s)
    case NoVec => EncU32(0)
    case Vec(vs) => EncU32(1) + (EncU32(|vs|) + EncVals(vs))
    case NoMap => EncU32(0)
    case Map(es) => EncU32(1) + (EncU32(|es|) + EncEntries(es))
    case Address(a) => EncAddress(a)
    case BareInstance(x) => EncExecutable(x) + EncU32(0)
    case Instance(x, es) => EncExecutable(x) + (EncU32(1) + (EncU32(|es|) + EncEntries(es)))
    case LedgerKeyInstance => []
    case LedgerKeyNonce(n) => EncI64(n)
  }

  /** The elements of a variable-length array (section 4.13), after its length. */
  function EncVals(vs: seq<ScVal>): seq<byte>
    requires AllFit(vs)
    decreases vs
  {
    if vs == [] then [] else EncVal(vs[0]) + EncVals(vs[1..])
  }

  function EncEntries(es: seq<ScMapEntry>): seq<byte>
    requires EntriesFit(es)
    decreases es
  {
    if es == [] then [] else EncEntry(es[0]) + EncEntries(es[1..])
  }

  function EncEntry(e: ScMapEntry): seq<byte>
    requires EntryFits(e)
    decreases e
  {
    EncVal(e.key) + EncVal(e.val)
  }

  function EncFn(f: AuthorizedFn): seq<byte>
    requires FnFits(f)
  {
    match f
    case ContractFn(a, name, args) => EncU32(0) + (EncAddress(a) + (EncOpaque(name) + EncArgs(args)))
    case CreateContract(from, code) => EncU32(1) + (EncIdPreimage(from) + EncExecutable(code))
    case CreateContractV2(from, code, args) =>
      EncU32(2) + (EncIdPreimage(from) + (EncExecutable(code) + EncArgs(args)))
  }

  /** A variable-length array of values (section 4.13). */
  function EncArgs(args: seq<ScVal>): seq<byte>
    requires |args| < 0x1_0000_0000 && AllFit(args)
  {
    EncU32(|args|) + EncVals(args)
  }

  function EncTree(t: CallTree): seq<byte>
    requires TreeFits(t)
    decreases t
  {
    EncFn(t.call) + (EncU32(|t.subs|) + EncTrees(t.subs))
  }

  function EncTrees(ts: seq<CallTree>): seq<byte>
    requires TreesFit(ts)
    decreases ts
  {
    if ts == [] then [] else EncTree(ts[0]) + EncTrees(ts[1..])
  }

  // ---- Decoders -----------------------------------------------------------------------------

  /** The arm of a number. */
  function DecNumber(tag: u32, b: seq<byte>): (r: Parsed<ScVal>)
    ensures r.Got? ==> |r.rest| <= |b|
  {
    match tag
    case 3 => (match DecU32(b) case Bad => Bad case Got(n, b1) => Got(U32(n), b1))
    case 4 => (match DecI32(b) case Bad => Bad case Got(n, b1) => Got(I32(n), b1))
    case 5 => (match DecU64(b) case Bad => Bad case Got(n, b1) => Got(U64(n), b1))
    case 6 => (match DecI64(b) case Bad => Bad case Got(n, b1) => Got(I64(n), b1))
    case 7 => (match DecU64(b) case Bad => Bad case Got(n, b1) => Got(Timepoint(n), b1))
    case 8 => (match DecU64(b) case Bad => Bad case Got(n, b1) => Got(Duration(n), b1))
    case _ => Bad
  }

  /** The arm of a number wider than 64 bits: its parts, most significant first. */
  function DecWide(tag: u32, b: seq<byte>): (r: Parsed<ScVal>)
    ensures r.Got? ==> |r.rest| <= |b|
  {
    match tag
    case 9 =>
      (match DecU64(b)
       case Bad => Bad
       case Got(hi, b1) => match DecU64(b1) case Bad => Bad case Got(lo, b2) => Got(U128(hi, lo), b2))
    case 10 =>
      (match DecI64(b)
       case Bad => Bad
       case Got(hi, b1) => match DecU64(b1) case Bad => Bad case Got(lo, b2) => Got(I128(hi, lo), b2))
    case 11 =>
      (match DecU64(b)
       case Bad => Bad
       case Got(a, b1) => match DecThree(b1) case Bad => Bad case Got(w, b2) => Got(U256(a, w.0, w.1, w.2), b2))
    case 12 =>
      (match DecI64(b)
       case Bad => Bad
       case Got(a, b1) => match DecThree(b1) case Bad => Bad case Got(w, b2) => Got(I256(a, w.0, w.1, w.2), b2))
    case _ => Bad
  }

  function DecThree(b: seq<byte>): (r: Parsed<(u64, u64, u64)>)
    ensures r.Got? ==> |r.rest| <= |b|
  {
    match DecU64(b)
    case Bad => Bad
    case Got(x, b1) =>
      match DecU64(b1)
      case Bad => Bad
      case Got(y, b2) => match DecU64(b2) case Bad => Bad case Got(z, b3) => Got((x, y, z), b3)
  }

  /** The arm of any other value that nests no value. */
  function DecScalar(tag: u32, b: seq<byte>): (r: Parsed<ScVal>)
    ensures r.Got? ==> |r.rest| <= |b|
  {
    match tag
    case 0 =>
      (match DecU32(b)
       case Bad => Bad
       case Got(n, b1) => if n == 0 then Got(Bool(false), b1) else if n == 1 then Got(Bool(true), b1) else Bad)
    case 1 => Got(Void, b)
    case 2 => (match DecError(b) case Bad => Bad case Got(e, b1) => Got(Error(e), b1))
    case 13 => (match DecOpaque(b) case Bad => Bad case Got(s, b1) => Got(Bytes(s), b1))
    case 14 => (match DecOpaque(b) case Bad => Bad case Got(s, b1) => Got(String(s), b1))
    case 15 => (match DecSymbol(b) case Bad => Bad case Got(s, b1) => Got(Symbol(s), b1))
    case 18 => (match DecAddress(b) case Bad => Bad case Got(a, b1) => Got(Address(a), b1))
    case 20 => Got(LedgerKeyInstance, b)
    case 21 => (match DecI64(b) case Bad => Bad case Got(n, b1) => Got(LedgerKeyNonce(n), b1))
    case _ => Bad
  }

  function DecVal(b: seq<byte>): (r: Parsed<ScVal>)
    ensures r.Got? ==> |r.rest| < |b|
    decreases |b|, 0
  {
    match DecU32(b)
    case Bad => Bad
    case Got(tag, b1) =>
      if tag == 16 then DecVec(b1)
      else if tag == 17 then DecMap(b1)
      else if tag == 19 then DecInstance(b1)
      else if 3 <= tag <= 8 then DecNumber(tag, b1)
      else if 9 <= tag <= 12 then DecWide(tag, b1)
      else DecScalar(tag, b1)
  }

  function DecVec(b: seq<byte>): (r: Parsed<ScVal>)
    ensures r.Got? ==> |r.rest| <= |b|
    decreases |b|, 3
  {
    match DecU32(b)
    case Bad => Bad
    case Got(present, b1) =>
      if present == 0 then Got(NoVec, b1)
      else if present != 1 then Bad
      else
        match DecU32(b1)
        case Bad => Bad
        case Got(n, b2) => match DecVals(n, b2) case Bad => Bad case Got(vs, b3) => Got(Vec(vs), b3)
  }

  function DecMap(b: seq<byte>): (r: Parsed<ScVal>)
    ensures r.Got? ==> |r.rest| <= |b| && (r.value.NoMap? || r.value.Map?)
    decreases |b|, 3
  {
    match DecU32(b)
    case Bad => Bad
    case Got(present, b1) =>
      if present == 0 then Got(NoMap, b1)
      else if present != 1 then Bad
      else
        match DecU32(b1)
        case Bad => Bad
        case Got(n, b2) => match DecEntries(n, b2) case Bad => Bad case Got(es, b3) => Got(Map(es), b3)
  }

  /** An executable, then storage in the form of an optional map. */
  function DecInstance(b: seq<byte>): (r: Parsed<ScVal>)
    ensures r.Got? ==> |r.rest| <= |b|
    decreases |b|, 4
  {
    match DecExecutable(b)
    case Bad => Bad
    case Got(x, b1) =>
      match DecMap(b1)
      case Bad => Bad
      case Got(v, b2) => Got(if v.Map? then Instance(x, v.entries) else BareInstance(x), b2)
  }

  function DecVals(n: nat, b: seq<byte>): (r: Parsed<seq<ScVal>>)
    ensures r.Got? ==> |r.value| == n && |r.rest| <= |b|
    decreases |b|, 1
  {
    if n == 0 then Got([], b)
    else
      match DecVal(b)
      case Bad => Bad
      case Got(v, b1) => match DecVals(n - 1, b1) case Bad => Bad case Got(vs, b2) => Got([v] + vs, b2)
  }

  function DecEntries(n: nat, b: seq<byte>): (r: Parsed<seq<ScMapEntry>>)
    ensures r.Got? ==> |r.value| == n && |r.rest| <= |b|
    decreases |b|, 2
  {
    if n == 0 then Got([], b)
    else
      match DecEntry(b)
      case Bad => Bad
      case Got(e, b1) => match DecEntries(n - 1, b1) case Bad => Bad case Got(es, b2) => Got([e] + es, b2)
  }

  function DecEntry(b: seq<byte>): (r: Parsed<ScMapEntry>)
    ensures r.Got? ==> |r.rest| < |b|
    decreases |b|, 1
  {
    match DecVal(b)
    case Bad => Bad
    case Got(k, b1) => match DecVal(b1) case Bad => Bad case Got(v, b2) => Got(ScMapEntry(k, v), b2)
  }

  function DecArgs(b: seq<byte>): (r: Parsed<seq<ScVal>>)
    ensures r.Got? ==> |r.value| < 0x1_0000_0000 && |r.rest| < |b|
  {
    match DecU32(b) case Bad => Bad case Got(n, b1) => DecVals(n, b1)
  }

  function DecCall(b: seq<byte>): (r: Parsed<AuthorizedFn>)
    ensures r.Got? ==> |r.rest| < |b|
  {
    match DecAddress(b)
    case Bad => Bad
    case Got(a, b1) =>
      match DecSymbol(b1)
      case Bad => Bad
      case Got(name, b2) =>
        match DecArgs(b2) case Bad => Bad case Got(args, b3) => Got(ContractFn(a, name, args), b3)
  }

  function DecCreate(b: seq<byte>): (r: Parsed<AuthorizedFn>)
    ensures r.Got? ==> |r.rest| < |b| && r.value.CreateContract?
  {
    match DecIdPreimage(b)
    case Bad => Bad
    case Got(from, b1) =>
      match DecExecutable(b1) case Bad => Bad case Got(x, b2) => Got(CreateContract(from, x), b2)
  }

  function DecFn(b: seq<byte>): (r: Parsed<AuthorizedFn>)
    ensures r.Got? ==> |r.rest| < |b|
  {
    match DecU32(b)
    case Bad => Bad
    case Got(tag, b1) =>
      match tag
      case 0 => DecCall(b1)
      case 1 => DecCreate(b1)
      case 2 =>
        (match DecCreate(b1)
         case Bad => Bad
         case Got(f, b2) =>
           match DecArgs(b2) case Bad => Bad case Got(args, b3) => Got(CreateContractV2(f.from, f.code, args), b3))
      case _ => Bad
  }

  function DecTree(b: seq<byte>): (r: Parsed<CallTree>)
    ensures r.Got? ==> |r.rest| < |b|
    decreases |b|, 0
  {
    match DecFn(b)
    case Bad => Bad
    case Got(f, b1) =>
      match DecU32(b1)
      case Bad => Bad
      case Got(n, b2) => match DecTrees(n, b2) case Bad => Bad case Got(ts, b3) => Got(CallTree(f, ts), b3)
  }

  function DecTrees(n: nat, b: seq<byte>): (r: Parsed<seq<CallTree>>)
    ensures r.Got? ==> |r.value| == n && |r.rest| <= |b|
    decreases |b|, 1
  {
    if n == 0 then Got([], b)
    else
      match DecTree(b)
      case Bad => Bad
      case Got(t, b1) => match DecTrees(n - 1, b1) case Bad => Bad case Got(ts, b2) => Got([t] + ts, b2)
  }

  // ---- Soundness: a decoder accepts only the encoding of the value it returns ----------------
  //
  // The proofs hide the bodies of the pieces they compose: what a piece is made of does not matter to
  // the record around it.

  lemma DecThreeSound(b: seq<byte>)
    ensures var r := DecThree(b);
      r.Got? ==> b == EncU64(r.value.0) + (EncU64(r.value.1) + (EncU64(r.value.2) + r.rest))
  {
    hide EncU64, DecU64;
    PrimitivesSound();
  }

  lemma DecNumberSound(tag: u32, b: seq<byte>)
    ensures var r := DecNumber(tag, b);
      r.Got? ==> Fits(r.value) && Tag(r.value) == tag && b == EncArm(r.value) + r.rest
  {
    hide EncU32, DecU32, EncI32, DecI32, EncU64, DecU64, EncI64, DecI64, EncOpaque, DecOpaque, DecDigest;
    PrimitivesSound();
  }

  lemma DecWideSound(tag: u32, b: seq<byte>)
    ensures var r := DecWide(tag, b);
      r.Got? ==> Fits(r.value) && Tag(r.value) == tag && b == EncArm(r.value) + r.rest
  {
    hide EncU32, DecU32, EncI32, DecI32, EncU64, DecU64, EncI64, DecI64, EncOpaque, DecOpaque, DecDigest;
    hide DecThree;
    PrimitivesSound();
    var r := DecWide(tag, b);
    if r.Got? {
      match r.value {
        case U128(hi, lo) => Assoc2(EncU64(hi), EncU64(lo), r.rest);
        case I128(hi, lo) => Assoc2(EncI64(hi), EncU64(lo), r.rest);
        case U256(x, y, z, w) =>
          DecThreeSound(DecU64(b).rest);
          Assoc4(EncU64(x), EncU64(y), EncU64(z), EncU64(w), r.rest);
        case I256(x, y, z, w) =>
          DecThreeSound(DecI64(b).rest);
          Assoc4(EncI64(x), EncU64(y), EncU64(z), EncU64(w), r.rest);
        case _ =>
      }
    }
  }

  lemma DecScalarSound(tag: u32, b: seq<byte>)
    ensures var r := DecScalar(tag, b);
      r.Got? ==> Fits(r.value) && Tag(r.value) == tag && b == EncArm(r.value) + r.rest
  {
    hide EncU32, DecU32, EncI32, DecI32, EncU64, DecU64, EncI64, DecI64, EncOpaque, DecOpaque, DecDigest;
    PrimitivesSound();
    hide DecAddress, EncAddress, DecError, EncError;
    if tag == 2 { DecErrorSound(b); }
    if tag == 18 { DecAddressSound(b); }
  }

  lemma {:induction false} DecValSound(b: seq<byte>)
    ensures var r := DecVal(b); r.Got? ==> Fits(r.value) && b == EncVal(r.value) + r.rest
    decreases |b|, 0
  {
    hide EncU32, DecU32, EncI32, DecI32, EncU64, DecU64, EncI64, DecI64, EncOpaque, DecOpaque, DecDigest;
    PrimitivesSound();
    hide DecNumber, DecWide, DecScalar, EncArm;
    var tag := DecU32(b);
    if tag.Got? {
      if tag.value == 16 {
        DecVecSound(tag.rest);
      } else if tag.value == 17 {
        DecMapSound(tag.rest);
      } else if tag.value == 19 {
        DecInstanceSound(tag.rest);
      } else if 3 <= tag.value <= 8 {
        DecNumberSound(tag.value, tag.rest);
      } else if 9 <= tag.value <= 12 {
        DecWideSound(tag.value, tag.rest);
      } else {
        DecScalarSound(tag.value, tag.rest);
      }
      var r := DecVal(b);
      if r.Got? { Assoc2(EncU32(tag.value), EncArm(r.value), r.rest); }
    }
  }

  lemma {:induction false} DecVecSound(b: seq<byte>)
    ensures var r := DecVec(b); r.Got? ==> Fits(r.value) && Tag(r.value) == 16 && b == EncArm(r.value) + r.rest
    decreases |b|, 3
  {
    hide EncU32, DecU32, EncI32, DecI32, EncU64, DecU64, EncI64, DecI64, EncOpaque, DecOpaque, DecDigest;
    PrimitivesSound();
    var present := DecU32(b);
    if present.Got? && present.value == 1 {
      var n := DecU32(present.rest);
      if n.Got? {
        DecValsSound(n.value, n.rest);
        var r := DecVals(n.value, n.rest);
        if r.Got? { Assoc3(EncU32(1), EncU32(n.value), EncVals(r.value), r.rest); }
      }
    }
  }

  lemma {:induction false} DecMapSound(b: seq<byte>)
    ensures var r := DecMap(b); r.Got? ==> Fits(r.value) && Tag(r.value) == 17 && b == EncArm(r.value) + r.rest
    decreases |b|, 3
  {
    hide EncU32, DecU32, EncI32, DecI32, EncU64, DecU64, EncI64, DecI64, EncOpaque, DecOpaque, DecDigest;
    PrimitivesSound();
    var present := DecU32(b);
    if present.Got? && present.value == 1 {
      var n := DecU32(present.rest);
      if n.Got? {
        DecEntriesSound(n.value, n.rest);
        var r := DecEntries(n.value, n.rest);
        if r.Got? { Assoc3(EncU32(1), EncU32(n.value), EncEntries(r.value), r.rest); }
      }
    }
  }

  lemma {:induction false} DecInstanceSound(b: seq<byte>)
    ensures var r := DecInstance(b); r.Got? ==> Fits(r.value) && Tag(r.value) == 19 && b == EncArm(r.value) + r.rest
    decreases |b|, 4
  {
    hide EncU32, DecExecutable, EncExecutable, DecMap, EncEntries;
    DecExecutableSound(b);
    var x := DecExecutable(b);
    if x.Got? {
      DecMapSound(x.rest);
      var v := DecMap(x.rest);
      if v.Got? { Assoc2(EncExecutable(x.value), EncArm(v.value), v.rest); }
    }
  }

  lemma {:induction false} DecValsSound(n: nat, b: seq<byte>)
    ensures var r := DecVals(n, b); r.Got? ==> AllFit(r.value) && b == EncVals(r.value) + r.rest
    decreases |b|, 1
  {
    hide EncVal, DecVal, Fits;
    if n > 0 {
      DecValSound(b);
      var first := DecVal(b);
      if first.Got? {
        DecValsSound(n - 1, first.rest);
        var r := DecVals(n - 1, first.rest);
        if r.Got? {
          assert ([first.value] + r.value)[1..] == r.value;
          Assoc2(EncVal(first.value), EncVals(r.value), r.rest);
        }
      }
    }
  }

  lemma {:induction false} DecEntriesSound(n: nat, b: seq<byte>)
    ensures var r := DecEntries(n, b); r.Got? ==> EntriesFit(r.value) && b == EncEntries(r.value) + r.rest
    decreases |b|, 2
  {
    hide EncEntry, DecEntry, EntryFits;
    if n > 0 {
      DecEntrySound(b);
      var first := DecEntry(b);
      if first.Got? {
        DecEntriesSound(n - 1, first.rest);
        var r := DecEntries(n - 1, first.rest);
        if r.Got? {
          assert ([first.value] + r.value)[1..] == r.value;
          Assoc2(EncEntry(first.value), EncEntries(r.value), r.rest);
        }
      }
    }
  }

  lemma {:induction false} DecEntrySound(b: seq<byte>)
    ensures var r := DecEntry(b); r.Got? ==> EntryFits(r.value) && b == EncEntry(r.value) + r.rest
    decreases |b|, 1
  {
    hide EncVal, DecVal, Fits;
    DecValSound(b);
    var k := DecVal(b);
    if k.Got? {
      DecValSound(k.rest);
      var v := DecVal(k.rest);
      if v.Got? { Assoc2(EncVal(k.value), EncVal(v.value), v.rest); }
    }
  }

  lemma DecArgsSound(b: seq<byte>)
    ensures var r := DecArgs(b); r.Got? ==> AllFit(r.value) && b == EncArgs(r.value) + r.rest
  {
    hide EncU32, DecU32, EncI32, DecI32, EncU64, DecU64, EncI64, DecI64, EncOpaque, DecOpaque, DecDigest;
    PrimitivesSound();
    hide DecVals, EncVals, AllFit;
    var n := DecU32(b);
    if n.Got? {
      DecValsSound(n.value, n.rest);
      var r := DecVals(n.value, n.rest);
      if r.Got? { Assoc2(EncU32(n.value), EncVals(r.value), r.rest); }
    }
  }

  lemma DecCreateSound(b: seq<byte>)
    ensures var r := DecCreate(b);
      r.Got? ==> b == EncIdPreimage(r.value.from) + (EncExecutable(r.value.code) + r.rest)
  {
    hide DecIdPreimage, EncIdPreimage, DecExecutable, EncExecutable;
    DecIdPreimageSound(b);
    if DecIdPreimage(b).Got? { DecExecutableSound(DecIdPreimage(b).rest); }
  }

  lemma DecCallSound(b: seq<byte>)
    ensures var r := DecCall(b);
      r.Got? ==> r.value.ContractFn? && FnFits(r.value) && EncU32(0) + b == EncFn(r.value) + r.rest
  {
    hide EncU32, DecU32, EncI32, DecI32, EncU64, DecU64, EncI64, DecI64, EncOpaque, DecOpaque, DecDigest;
    PrimitivesSound();
    hide DecAddress, EncAddress, DecArgs, EncArgs, AllFit;
    var r := DecCall(b);
    if r.Got? {
      var a := DecAddress(b);
      var name := DecSymbol(a.rest);
      DecAddressSound(b);
      DecArgsSound(name.rest);
      Assoc4(EncU32(0), EncAddress(a.value), EncOpaque(name.value), EncArgs(r.value.args), r.rest);
    }
  }

  lemma DecFnSound(b: seq<byte>)
    ensures var r := DecFn(b); r.Got? ==> FnFits(r.value) && b == EncFn(r.value) + r.rest
  {
    hide EncU32, DecU32, EncI32, DecI32, EncU64, DecU64, EncI64, DecI64, EncOpaque, DecOpaque, DecDigest;
    PrimitivesSound();
    hide DecCall, DecCreate, EncIdPreimage, EncExecutable, DecArgs, EncArgs, AllFit;
    var r := DecFn(b);
    if r.Got? {
      var b1 := DecU32(b).rest;
      match DecU32(b).value {
        case 0 => DecCallSound(b1);
        case 1 =>
          DecCreateSound(b1);
          Assoc3(EncU32(1), EncIdPreimage(r.value.from), EncExecutable(r.value.code), r.rest);
        case _ =>
          DecCreateSound(b1);
          DecArgsSound(DecCreate(b1).rest);
          Assoc4(EncU32(2), EncIdPreimage(r.value.from), EncExecutable(r.value.code),
                 EncArgs(r.value.constructorArgs), r.rest);
      }
    }
  }

  lemma {:induction false} DecTreeSound(b: seq<byte>)
    ensures var r := DecTree(b); r.Got? ==> TreeFits(r.value) && b == EncTree(r.value) + r.rest
    decreases |b|, 0
  {
    hide EncU32, DecU32, EncI32, DecI32, EncU64, DecU64, EncI64, DecI64, EncOpaque, DecOpaque, DecDigest;
    PrimitivesSound();
    hide EncFn, DecFn, FnFits;
    DecFnSound(b);
    var f := DecFn(b);
    if f.Got? {
      var n := DecU32(f.rest);
      if n.Got? {
        DecTreesSound(n.value, n.rest);
        var r := DecTrees(n.value, n.rest);
        if r.Got? { Assoc3(EncFn(f.value), EncU32(n.value), EncTrees(r.value), r.rest); }
      }
    }
  }

  lemma {:induction false} DecTreesSound(n: nat, b: seq<byte>)
    ensures var r := DecTrees(n, b); r.Got? ==> TreesFit(r.value) && b == EncTrees(r.value) + r.rest
    decreases |b|, 1
  {
    hide EncTree, DecTree, TreeFits;
    if n > 0 {
      DecTreeSound(b);
      var first := DecTree(b);
      if first.Got? {
        DecTreesSound(n - 1, first.rest);
        var r := DecTrees(n - 1, first.rest);
        if r.Got? {
          assert ([first.value] + r.value)[1..] == r.value;
          Assoc2(EncTree(first.value), EncTrees(r.value), r.rest);
        }
      }
    }
  }

  // ---- Completeness: decoding undoes encoding, whatever bytes follow ------------------------

  lemma DecEncNumber(v: ScVal, rest: seq<byte>)
    requires Fits(v) && 3 <= Tag(v) <= 8
    ensures DecNumber(Tag(v), EncArm(v) + rest) == Got(v, rest)
  {
    hide EncU32, DecU32, EncI32, DecI32, EncU64, DecU64, EncI64, DecI64, EncOpaque, DecOpaque, DecDigest;
    match v {
      case U32(n) => DecEncU32(n, rest);
      case I32(n) => DecEncI32(n, rest);
      case U64(n) => DecEncU64(n, rest);
      case I64(n) => DecEncI64(n, rest);
      case Timepoint(n) => DecEncU64(n, rest);
      case Duration(n) => DecEncU64(n, rest);
    }
  }

  lemma DecEncThree(x: u64, y: u64, z: u64, rest: seq<byte>)
    ensures DecThree(EncU64(x) + (EncU64(y) + (EncU64(z) + rest))) == Got((x, y, z), rest)
  {
    hide EncU64, DecU64;
    DecEncU64(x, EncU64(y) + (EncU64(z) + rest));
    DecEncU64(y, EncU64(z) + rest);
    DecEncU64(z, rest);
  }

  lemma DecEncWide(v: ScVal, rest: seq<byte>)
    requires Fits(v) && 9 <= Tag(v) <= 12
    ensures DecWide(Tag(v), EncArm(v) + rest) == Got(v, rest)
  {
    hide EncU32, DecU32, EncI32, DecI32, EncU64, DecU64, EncI64, DecI64, EncOpaque, DecOpaque, DecDigest;
    hide DecThree;
    match v {
      case U128(hi, lo) =>
        Assoc2(EncU64(hi), EncU64(lo), rest);
        DecEncU64(hi, EncU64(lo) + rest);
        DecEncU64(lo, rest);
      case I128(hi, lo) =>
        Assoc2(EncI64(hi), EncU64(lo), rest);
        DecEncI64(hi, EncU64(lo) + rest);
        DecEncU64(lo, rest);
      case U256(x, y, z, w) =>
        Assoc4(EncU64(x), EncU64(y), EncU64(z), EncU64(w), rest);
        DecEncU64(x, EncU64(y) + (EncU64(z) + (EncU64(w) + rest)));
        DecEncThree(y, z, w, rest);
      case I256(x, y, z, w) =>
        Assoc4(EncI64(x), EncU64(y), EncU64(z), EncU64(w), rest);
        DecEncI64(x, EncU64(y) + (EncU64(z) + (EncU64(w) + rest)));
        DecEncThree(y, z, w, rest);
    }
  }

  lemma DecEncScalar(v: ScVal, rest: seq<byte>)
    requires Fits(v) && (Tag(v) < 3 || Tag(v) > 12) && Tag(v) !in {16, 17, 19}
    ensures DecScalar(Tag(v), EncArm(v) + rest) == Got(v, rest)
  {
    hide EncU32, DecU32, EncI32, DecI32, EncU64, DecU64, EncI64, DecI64, EncOpaque, DecOpaque, DecDigest;
    hide DecAddress, EncAddress, DecError, EncError;
    match v {
      case Bool(b) => DecEncU32(if b then 1 else 0, rest);
      case Void => assert [] + rest == rest;
      case Error(e) => DecEncError(e, rest);
      case Bytes(s) => DecEncOpaque(s, rest);
      case String(s) => DecEncOpaque(s, rest);
      case Symbol(s) => DecEncOpaque(s, rest);
      case Address(a) => DecEncAddress(a, rest);
      case LedgerKeyInstance => assert [] + rest == rest;
      case LedgerKeyNonce(n) => DecEncI64(n, rest);
    }
  }

  /** The storage of an instance reads back as an optional map. */
  lemma DecEncInstance(x: Executable, storage: seq<byte>, rest: seq<byte>)
    ensures DecExecutable((EncExecutable(x) + storage) + rest) == Got(x, storage + rest)
  {
    hide DecExecutable, EncExecutable;
    Assoc2(EncExecutable(x), storage, rest);
    DecEncExecutable(x, storage + rest);
  }

  lemma {:induction false} DecEncVal(v: ScVal, rest: seq<byte>)
    requires Fits(v)
    ensures DecVal(EncVal(v) + rest) == Got(v, rest)
    decreases v
  {
    hide EncU32, DecU32, EncI32, DecI32, EncU64, DecU64, EncI64, DecI64, EncOpaque, DecOpaque, DecDigest;
    hide DecNumber, DecWide, DecScalar, DecVec, EncVals, DecMap, EncEntries, DecExecutable, EncExecutable;
    DecTag(Tag(v), EncArm(v), rest);
    match v {
      case NoVec => DecEncNoVec(rest);
      case Vec(vs) => DecEncVec(vs, rest);
      case NoMap => DecEncNoMap(rest);
      case Map(es) => DecEncMap(es, rest);
      case BareInstance(x) =>
        DecEncInstance(x, EncU32(0), rest);
        DecEncNoMap(rest);
      case Instance(x, es) =>
        DecEncInstance(x, EncU32(1) + (EncU32(|es|) + EncEntries(es)), rest);
        DecEncMap(es, rest);
      case _ =>
        if Tag(v) < 3 || Tag(v) > 12 {
          DecEncScalar(v, rest);
        } else if Tag(v) <= 8 {
          DecEncNumber(v, rest);
        } else {
          DecEncWide(v, rest);
        }
    }
  }

  lemma DecEncNoVec(rest: seq<byte>)
    ensures DecVec(EncU32(0) + rest) == Got(NoVec, rest)
  {
    hide EncU32, DecU32;
    DecEncU32(0, rest);
  }

  lemma {:induction false} DecEncVec(vs: seq<ScVal>, rest: seq<byte>)
    requires |vs| < 0x1_0000_0000 && AllFit(vs)
    ensures DecVec((EncU32(1) + (EncU32(|vs|) + EncVals(vs))) + rest) == Got(Vec(vs), rest)
    decreases vs, 1
  {
    hide EncU32, DecU32;
    DecTag(1, EncU32(|vs|) + EncVals(vs), rest);
    DecTag(|vs|, EncVals(vs), rest);
    DecEncVals(vs, rest);
  }

  lemma DecEncNoMap(rest: seq<byte>)
    ensures DecMap(EncU32(0) + rest) == Got(NoMap, rest)
  {
    hide EncU32, DecU32;
    DecEncU32(0, rest);
  }

  lemma {:induction false} DecEncMap(es: seq<ScMapEntry>, rest: seq<byte>)
    requires |es| < 0x1_0000_0000 && EntriesFit(es)
    ensures DecMap((EncU32(1) + (EncU32(|es|) + EncEntries(es))) + rest) == Got(Map(es), rest)
    decreases es, 1
  {
    hide EncU32, DecU32;
    DecTag(1, EncU32(|es|) + EncEntries(es), rest);
    DecTag(|es|, EncEntries(es), rest);
    DecEncEntries(es, rest);
  }

  lemma {:induction false} DecEncVals(vs: seq<ScVal>, rest: seq<byte>)
    requires AllFit(vs)
    ensures DecVals(|vs|, EncVals(vs) + rest) == Got(vs, rest)
    decreases vs, 0
  {
    hide EncVal, DecVal, Fits;
    if vs == [] {
      assert EncVals(vs) + rest == rest;
    } else {
      assert [vs[0]] + vs[1..] == vs;
      Assoc2(EncVal(vs[0]), EncVals(vs[1..]), rest);
      DecEncVal(vs[0], EncVals(vs[1..]) + rest);
      DecEncVals(vs[1..], rest);
    }
  }

  lemma {:induction false} DecEncEntries(es: seq<ScMapEntry>, rest: seq<byte>)
    requires EntriesFit(es)
    ensures DecEntries(|es|, EncEntries(es) + rest) == Got(es, rest)
    decreases es, 0
  {
    hide EncEntry, DecEntry, EntryFits;
    if es == [] {
      assert EncEntries(es) + rest == rest;
    } else {
      assert [es[0]] + es[1..] == es;
      Assoc2(EncEntry(es[0]), EncEntries(es[1..]), rest);
      DecEncEntry(es[0], EncEntries(es[1..]) + rest);
      DecEncEntries(es[1..], rest);
    }
  }

  lemma {:induction false} DecEncEntry(e: ScMapEntry, rest: seq<byte>)
    requires EntryFits(e)
    ensures DecEntry(EncEntry(e) + rest) == Got(e, rest)
    decreases e
  {
    hide EncVal, DecVal, Fits;
    Assoc2(EncVal(e.key), EncVal(e.val), rest);
    DecEncVal(e.key, EncVal(e.val) + rest);
    DecEncVal(e.val, rest);
  }

  lemma DecEncArgs(args: seq<ScVal>, rest: seq<byte>)
    requires |args| < 0x1_0000_0000 && AllFit(args)
    ensures DecArgs(EncArgs(args) + rest) == Got(args, rest)
  {
    DecTag(|args|, EncVals(args), rest);
    DecEncVals(args, rest);
  }

  lemma DecEncCall(a: ScAddress, name: Symbol, args: seq<ScVal>, rest: seq<byte>)
    requires |args| < 0x1_0000_0000 && AllFit(args)
    ensures DecCall(EncAddress(a) + (EncOpaque(name) + (EncArgs(args) + rest))) == Got(ContractFn(a, name, args), rest)
  {
    hide EncAddress, DecAddress, EncOpaque, DecOpaque, EncArgs, DecArgs;
    DecEncAddress(a, EncOpaque(name) + (EncArgs(args) + rest));
    DecEncOpaque(name, EncArgs(args) + rest);
    DecEncArgs(args, rest);
  }

  lemma DecEncCreate(from: IdPreimage, code: Executable, rest: seq<byte>)
    ensures DecCreate(EncIdPreimage(from) + (EncExecutable(code) + rest)) == Got(CreateContract(from, code), rest)
  {
    hide EncIdPreimage, DecIdPreimage, EncExecutable, DecExecutable;
    DecEncIdPreimage(from, EncExecutable(code) + rest);
    DecEncExecutable(code, rest);
  }

  lemma DecEncFn(f: AuthorizedFn, rest: seq<byte>)
    requires FnFits(f)
    ensures DecFn(EncFn(f) + rest) == Got(f, rest)
  {
    hide EncU32, DecU32, EncOpaque, EncAddress, EncIdPreimage, EncExecutable, EncArgs, DecArgs, DecCall, DecCreate;
    match f {
      case ContractFn(a, name, args) =>
        DecTag(0, EncAddress(a) + (EncOpaque(name) + EncArgs(args)), rest);
        Assoc3(EncAddress(a), EncOpaque(name), EncArgs(args), rest);
        DecEncCall(a, name, args, rest);
      case CreateContract(from, code) =>
        DecTag(1, EncIdPreimage(from) + EncExecutable(code), rest);
        Assoc2(EncIdPreimage(from), EncExecutable(code), rest);
        DecEncCreate(from, code, rest);
      case CreateContractV2(from, code, args) =>
        DecTag(2, EncIdPreimage(from) + (EncExecutable(code) + EncArgs(args)), rest);
        Assoc3(EncIdPreimage(from), EncExecutable(code), EncArgs(args), rest);
        DecEncCreate(from, code, EncArgs(args) + rest);
        DecEncArgs(args, rest);
    }
  }

  lemma {:induction false} DecEncTree(t: CallTree, rest: seq<byte>)
    requires TreeFits(t)
    ensures DecTree(EncTree(t) + rest) == Got(t, rest)
    decreases t
  {
    hide EncU32, DecU32, EncFn, DecFn, FnFits, EncTrees, DecTrees, TreesFit;
    var b2 := EncTrees(t.subs) + rest;
    Assoc3(EncFn(t.call), EncU32(|t.subs|), EncTrees(t.subs), rest);
    DecEncFn(t.call, EncU32(|t.subs|) + b2);
    DecEncU32(|t.subs|, b2);
    DecEncTrees(t.subs, rest);
  }

  lemma {:induction false} DecEncTrees(ts: seq<CallTree>, rest: seq<byte>)
    requires TreesFit(ts)
    ensures DecTrees(|ts|, EncTrees(ts) + rest) == Got(ts, rest)
    decreases ts
  {
    hide EncTree, DecTree, TreeFits;
    if ts == [] {
      assert EncTrees(ts) + rest == rest;
    } else {
      assert [ts[0]] + ts[1..] == ts;
      Assoc2(EncTree(ts[0]), EncTrees(ts[1..]), rest);
      DecEncTree(ts[0], EncTrees(ts[1..]) + rest);
      DecEncTrees(ts[1..], rest);
    }
  }
}
