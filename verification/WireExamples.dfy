/**
 The wire format in literal bytes: every union tag of the contract XDR, the order of fields and elements,
 and one whole call tree. The round trips elsewhere hold of any encoding that reads back; these fix which.
 */
module WireExamples {
  import opened Bytes
  import opened Xdr
  import opened ContractTypes
  import opened CallTrees

  /** Big-endian, as a weighted sum over the four bytes. */
  lemma U32IsBigEndian(n: u32)
    ensures var b := EncU32(n);
      |b| == 4 && b[0] as int * 0x100_0000 + b[1] as int * 0x1_0000 + b[2] as int * 0x100 + b[3] as int == n
  {
  }

  lemma NumberBytes()
    ensures EncU32(0x0102_0304) == [1, 2, 3, 4]
    ensures EncI32(-2) == [255, 255, 255, 254] && EncI32(5) == [0, 0, 0, 5]
    ensures EncU64(0x0102_0304_0506_0708) == [1, 2, 3, 4, 5, 6, 7, 8]
    ensures EncI64(-2) == [255, 255, 255, 255, 255, 255, 255, 254] && EncI64(5) == [0, 0, 0, 0, 0, 0, 0, 5]
  {
    hide EncU64, EncI64;
    Halves();
  }

  lemma Halves()
    ensures EncU64(0x0102_0304_0506_0708) == EncU32(0x0102_0304) + EncU32(0x0506_0708)
    ensures EncI64(-2) == EncU32(0xFFFF_FFFF) + EncU32(0xFFFF_FFFE) && EncI64(5) == EncU32(0) + EncU32(5)
  {
    hide EncU32;
  }

  lemma OpaqueBytes()
    ensures EncOpaque([7, 8, 9, 10, 11]) == [0, 0, 0, 5, 7, 8, 9, 10, 11, 0, 0, 0]
    ensures EncOpaque([7, 8, 9, 10]) == [0, 0, 0, 4, 7, 8, 9, 10] && EncOpaque([]) == [0, 0, 0, 0]
  {
    hide EncOpaque;
    OpaqueParts([7, 8, 9, 10, 11]);
    OpaqueParts([7, 8, 9, 10]);
    OpaqueParts([]);
  }

  lemma OpaqueParts(s: VarOpaque)
    ensures EncOpaque(s) == EncU32(|s|) + s + Zeros((4 - |s| % 4) % 4)
  {
  }

  /** The tag of every kind of value, and what follows it where that is a fixed number of words. */
  lemma ValueTags(v: ScVal)
    requires Fits(v)
    ensures |EncVal(v)| >= 4 && EncVal(v)[..3] == [0, 0, 0]
    ensures EncVal(v)[3] ==
      match v
      case Bool(_) => 0
      case Void => 1
      case Error(_) => 2
      case U32(_) => 3
      case I32(_) => 4
      case U64(_) => 5
      case I64(_) => 6
      case Timepoint(_) => 7
      case Duration(_) => 8
      case U128(_, _) => 9
      case I128(_, _) => 10
      case U256(_, _, _, _) => 11
      case I256(_, _, _, _) => 12
      case Bytes(_) => 13
      case String(_) => 14
      case Symbol(_) => 15
      case NoVec => 16
      case Vec(_) => 16
      case NoMap => 17
      case Map(_) => 17
      case Address(_) => 18
      case BareInstance(_) => 19
      case Instance(_, _) => 19
      case LedgerKeyInstance => 20
      case LedgerKeyNonce(_) => 21
  {
    hide EncArm, Fits;
    assert EncVal(v)[..3] == EncU32(Tag(v))[..3] && EncVal(v)[3] == EncU32(Tag(v))[3];
  }

  /** The words used as tags, flags and counts. */
  lemma Words()
    ensures forall n: u32 :: n < 256 ==> EncU32(n) == [0, 0, 0, n]
  {
  }

  lemma Tagged(v: ScVal)
    requires Fits(v)
    ensures EncVal(v) == [0, 0, 0, Tag(v)] + EncArm(v)
  {
    hide EncU32, EncArm, Fits;
    Words();
  }

  /** Values without values in them, one by one. */
  lemma ScalarBytes(b: bool, s: VarOpaque, name: Symbol)
    ensures EncVal(Bool(b)) == [0, 0, 0, 0] + [0, 0, 0, if b then 1 else 0]
    ensures EncVal(Void) == [0, 0, 0, 1] + [] && EncVal(LedgerKeyInstance) == [0, 0, 0, 20] + []
    ensures EncVal(Bytes(s)) == [0, 0, 0, 13] + EncOpaque(s) && EncVal(String(s)) == [0, 0, 0, 14] + EncOpaque(s)
    ensures EncVal(Symbol(name)) == [0, 0, 0, 15] + EncOpaque(name)
  {
    hide EncVal, EncU32, EncOpaque;
    Words();
    Tagged(Bool(b));
    Tagged(Void);
    Tagged(LedgerKeyInstance);
    Tagged(Bytes(s));
    Tagged(String(s));
    Tagged(Symbol(name));
  }

  lemma IntegerBytes(n: u32, i: i32, x: u64, y: i64)
    ensures EncVal(U32(n)) == [0, 0, 0, 3] + EncU32(n) && EncVal(I32(i)) == [0, 0, 0, 4] + EncI32(i)
    ensures EncVal(U64(x)) == [0, 0, 0, 5] + EncU64(x) && EncVal(I64(y)) == [0, 0, 0, 6] + EncI64(y)
    ensures EncVal(Timepoint(x)) == [0, 0, 0, 7] + EncU64(x) && EncVal(Duration(x)) == [0, 0, 0, 8] + EncU64(x)
    ensures EncVal(LedgerKeyNonce(y)) == [0, 0, 0, 21] + EncI64(y)
  {
    hide EncVal, EncU32, EncI32, EncU64, EncI64;
    Tagged(U32(n));
    Tagged(I32(i));
    Tagged(U64(x));
    Tagged(I64(y));
    Tagged(Timepoint(x));
    Tagged(Duration(x));
    Tagged(LedgerKeyNonce(y));
  }

  /** Wide integers, most significant part first. */
  lemma WideBytes(a: u64, b: u64, c: u64, d: u64, s: i64)
    ensures EncVal(U128(a, b)) == [0, 0, 0, 9] + (EncU64(a) + EncU64(b))
    ensures EncVal(I128(s, b)) == [0, 0, 0, 10] + (EncI64(s) + EncU64(b))
    ensures EncVal(U256(a, b, c, d)) == [0, 0, 0, 11] + (EncU64(a) + (EncU64(b) + (EncU64(c) + EncU64(d))))
    ensures EncVal(I256(s, b, c, d)) == [0, 0, 0, 12] + (EncI64(s) + (EncU64(b) + (EncU64(c) + EncU64(d))))
  {
    hide EncVal, EncU64, EncI64;
    Tagged(U128(a, b));
    Tagged(I128(s, b));
    Tagged(U256(a, b, c, d));
    Tagged(I256(s, b, c, d));
  }

  lemma ErrorBytes(code: u32, kind: HostErrorKind, reason: HostErrorCode)
    ensures EncVal(Error(ContractCode(code))) == [0, 0, 0, 2] + ([0, 0, 0, 0] + EncU32(code))
    ensures EncVal(Error(HostCode(kind, reason))) == [0, 0, 0, 2] + ([0, 0, 0, kind as int] + [0, 0, 0, reason as int])
  {
    hide EncVal, EncU32;
    Words();
    Tagged(Error(ContractCode(code)));
    Tagged(Error(HostCode(kind, reason)));
  }

  lemma AddressBytes(a: ScAddress, d: Digest, sub: u64)
    ensures EncAddress(Account(d)) == [0, 0, 0, 0] + ([0, 0, 0, 0] + d)
    ensures EncAddress(Contract(d)) == [0, 0, 0, 1] + d
    ensures EncAddress(Muxed(sub, d)) == [0, 0, 0, 2] + (EncU64(sub) + d)
    ensures EncAddress(ClaimableBalance(d)) == [0, 0, 0, 3] + ([0, 0, 0, 0] + d)
    ensures EncAddress(LiquidityPool(d)) == [0, 0, 0, 4] + d
    ensures EncVal(Address(a)) == [0, 0, 0, 18] + EncAddress(a)
  {
    hide EncVal, EncU32, EncU64;
    Words();
    Tagged(Address(a));
  }

  /** Optional lists: a flag, a count, the elements. */
  lemma ContainerBytes(vs: seq<ScVal>, es: seq<ScMapEntry>)
    requires |vs| < 256 && AllFit(vs) && |es| < 256 && EntriesFit(es)
    ensures EncVal(NoVec) == [0, 0, 0, 16] + [0, 0, 0, 0] && EncVal(NoMap) == [0, 0, 0, 17] + [0, 0, 0, 0]
    ensures EncVal(Vec(vs)) == [0, 0, 0, 16] + ([0, 0, 0, 1] + ([0, 0, 0, |vs|] + EncVals(vs)))
    ensures EncVal(Map(es)) == [0, 0, 0, 17] + ([0, 0, 0, 1] + ([0, 0, 0, |es|] + EncEntries(es)))
  {
    hide EncVal, EncU32, EncVals, EncEntries, AllFit, EntriesFit;
    Words();
    Tagged(NoVec);
    Tagged(NoMap);
    Tagged(Vec(vs));
    Tagged(Map(es));
  }

  lemma InstanceBytes(x: Executable, es: seq<ScMapEntry>)
    requires |es| < 256 && EntriesFit(es)
    ensures EncVal(BareInstance(x)) == [0, 0, 0, 19] + (EncExecutable(x) + [0, 0, 0, 0])
    ensures EncVal(Instance(x, es)) ==
            [0, 0, 0, 19] + (EncExecutable(x) + ([0, 0, 0, 1] + ([0, 0, 0, |es|] + EncEntries(es))))
  {
    hide EncVal, EncU32, EncExecutable, EncEntries, EntriesFit;
    Words();
    Tagged(BareInstance(x));
    Tagged(Instance(x, es));
  }

  /** Elements stand in their own order, and so do keys before their values. */
  lemma {:induction false} ValuesInOrder(vs: seq<ScVal>, ws: seq<ScVal>)
    requires AllFit(vs) && AllFit(ws)
    ensures AllFit(vs + ws) && EncVals(vs + ws) == EncVals(vs) + EncVals(ws)
    ensures forall v :: Fits(v) ==> AllFit([v]) && EncVals([v]) == EncVal(v)
  {
    hide EncVal, Fits;
    forall v | Fits(v)
      ensures AllFit([v]) && EncVals([v]) == EncVal(v)
    {
      assert [v][1..] == [];
    }
    if vs == [] {
      assert vs + ws == ws && EncVals(vs) + EncVals(ws) == EncVals(ws);
    } else {
      assert (vs + ws)[0] == vs[0] && (vs + ws)[1..] == vs[1..] + ws;
      ValuesInOrder(vs[1..], ws);
      Assoc2(EncVal(vs[0]), EncVals(vs[1..]), EncVals(ws));
    }
  }

  lemma {:induction false} EntriesInOrder(es: seq<ScMapEntry>, fs: seq<ScMapEntry>)
    requires EntriesFit(es) && EntriesFit(fs)
    ensures EntriesFit(es + fs) && EncEntries(es + fs) == EncEntries(es) + EncEntries(fs)
    ensures forall k, v :: Fits(k) && Fits(v) ==>
              EntriesFit([ScMapEntry(k, v)]) && EncEntries([ScMapEntry(k, v)]) == EncVal(k) + EncVal(v)
  {
    hide EncVal, Fits;
    forall k, v | Fits(k) && Fits(v)
      ensures EntriesFit([ScMapEntry(k, v)]) && EncEntries([ScMapEntry(k, v)]) == EncVal(k) + EncVal(v)
    {
      assert [ScMapEntry(k, v)][1..] == [];
      assert EncEntry(ScMapEntry(k, v)) + [] == EncVal(k) + EncVal(v);
    }
    if es == [] {
      assert es + fs == fs && EncEntries(es) + EncEntries(fs) == EncEntries(fs);
    } else {
      assert (es + fs)[0] == es[0] && (es + fs)[1..] == es[1..] + fs;
      EntriesInOrder(es[1..], fs);
      Assoc2(EncEntry(es[0]), EncEntries(es[1..]), EncEntries(fs));
    }
  }

  lemma {:induction false} TreesInOrder(ts: seq<CallTree>, us: seq<CallTree>)
    requires TreesFit(ts) && TreesFit(us)
    ensures TreesFit(ts + us) && EncTrees(ts + us) == EncTrees(ts) + EncTrees(us)
    ensures forall t :: TreeFits(t) ==> TreesFit([t]) && EncTrees([t]) == EncTree(t)
  {
    hide EncTree, TreeFits;
    forall t | TreeFits(t)
      ensures TreesFit([t]) && EncTrees([t]) == EncTree(t)
    {
      assert [t][1..] == [];
    }
    if ts == [] {
      assert ts + us == us && EncTrees(ts) + EncTrees(us) == EncTrees(us);
    } else {
      assert (ts + us)[0] == ts[0] && (ts + us)[1..] == ts[1..] + us;
      TreesInOrder(ts[1..], us);
      Assoc2(EncTree(ts[0]), EncTrees(ts[1..]), EncTrees(us));
    }
  }

  /** The three kinds of authorized function, and a tree around one. */
  lemma FunctionBytes(a: ScAddress, name: Symbol, args: seq<ScVal>, from: IdPreimage, code: Executable,
                      subs: seq<CallTree>)
    requires |args| < 256 && AllFit(args) && |subs| < 256 && TreesFit(subs)
    ensures EncFn(ContractFn(a, name, args)) ==
            [0, 0, 0, 0] + (EncAddress(a) + (EncOpaque(name) + ([0, 0, 0, |args|] + EncVals(args))))
    ensures EncFn(CreateContract(from, code)) == [0, 0, 0, 1] + (EncIdPreimage(from) + EncExecutable(code))
    ensures EncFn(CreateContractV2(from, code, args)) ==
            [0, 0, 0, 2] + (EncIdPreimage(from) + (EncExecutable(code) + ([0, 0, 0, |args|] + EncVals(args))))
    ensures EncTree(CallTree(ContractFn(a, name, args), subs)) ==
            EncFn(ContractFn(a, name, args)) + ([0, 0, 0, |subs|] + EncTrees(subs))
  {
    hide EncU32, EncAddress, EncOpaque, EncIdPreimage, EncExecutable, EncVals, EncTrees, AllFit, TreesFit;
    Words();
  }

  lemma CreationBytes(a: ScAddress, d: Digest, salt: Digest, four: AssetCode4, twelve: AssetCode12)
    ensures EncExecutable(Wasm(d)) == [0, 0, 0, 0] + d && EncExecutable(StellarAsset) == [0, 0, 0, 1]
    ensures EncIdPreimage(FromAddress(a, salt)) == [0, 0, 0, 0] + EncAddress(a) + salt
    ensures EncIdPreimage(FromAsset(Native)) == [0, 0, 0, 1] + [0, 0, 0, 0]
    ensures EncIdPreimage(FromAsset(AlphaNum4(four, d))) == [0, 0, 0, 1] + [0, 0, 0, 1] + four + [0, 0, 0, 0] + d
    ensures EncIdPreimage(FromAsset(AlphaNum12(twelve, d))) ==
            [0, 0, 0, 1] + [0, 0, 0, 2] + twelve + [0, 0, 0, 0] + d
  {
    hide EncU32, EncAddress;
    Words();
  }

  // ---- One whole tree ------------------------------------------------------------------------

  /** A number below zero and a map: -2 and [1 -> true, 2 -> void]. */
  const MINUS_TWO: ScVal := I64(-2)
  const ONE_TRUE := ScMapEntry(U32(1), Bool(true))
  const TWO_VOID := ScMapEntry(U32(2), Void)
  const SMALL_MAP: ScVal := Map([ONE_TRUE, TWO_VOID])

  lemma MinusTwoBytes()
    ensures EncVal(MINUS_TWO) == [0, 0, 0, 6, 255, 255, 255, 255, 255, 255, 255, 254]
  {
    hide EncVal, EncI64;
    NumberBytes();
    IntegerBytes(0, 0, 0, -2);
  }

  lemma EntryBytes()
    ensures EncVal(U32(1)) + EncVal(Bool(true)) == [0, 0, 0, 3, 0, 0, 0, 1, 0, 0, 0, 0, 0, 0, 0, 1]
    ensures EncVal(U32(2)) + EncVal(Void) == [0, 0, 0, 3, 0, 0, 0, 2, 0, 0, 0, 1]
  {
    hide EncVal, EncU32;
    Words();
    IntegerBytes(1, 0, 0, 0);
    IntegerBytes(2, 0, 0, 0);
    ScalarBytes(true, [], []);
  }

  lemma SmallMapBytes()
    ensures Fits(SMALL_MAP)
    ensures EncVal(SMALL_MAP) ==
            [0, 0, 0, 17] + ([0, 0, 0, 1] + ([0, 0, 0, 2] +
              ([0, 0, 0, 3, 0, 0, 0, 1, 0, 0, 0, 0, 0, 0, 0, 1] + [0, 0, 0, 3, 0, 0, 0, 2, 0, 0, 0, 1])))
  {
    hide EncVal, EncEntries, EntriesFit;
    EntryBytes();
    NoElements();
    EntriesInOrder([], []);
    EntriesInOrder([ONE_TRUE], [TWO_VOID]);
    assert [ONE_TRUE] + [TWO_VOID] == [ONE_TRUE, TWO_VOID];
    ContainerBytes([], [ONE_TRUE, TWO_VOID]);
  }

  lemma ArgumentBytes()
    ensures Fits(MINUS_TWO) && Fits(SMALL_MAP) && AllFit([MINUS_TWO, SMALL_MAP])
    ensures EncVals([MINUS_TWO, SMALL_MAP]) == EncVal(MINUS_TWO) + EncVal(SMALL_MAP)
  {
    hide EncVal, EncVals, AllFit;
    SmallMapBytes();
    NoElements();
    ValuesInOrder([], []);
    ValuesInOrder([MINUS_TWO], [SMALL_MAP]);
    assert [MINUS_TWO] + [SMALL_MAP] == [MINUS_TWO, SMALL_MAP];
  }

  /** The sub-call `f()` of one contract. */
  function SubCall(other: Digest): CallTree {
    CallTree(ContractFn(Contract(other), [102], []), [])
  }

  lemma SubCallBytes(other: Digest)
    ensures TreeFits(SubCall(other))
    ensures EncTree(SubCall(other)) ==
            [0, 0, 0, 0] + (([0, 0, 0, 1] + other) + ([0, 0, 0, 1, 102, 0, 0, 0] + ([0, 0, 0, 0] + []))) +
            ([0, 0, 0, 0] + [])
  {
    hide EncTree, EncFn, EncVals, EncOpaque, EncAddress, EncTrees;
    NameBytes();
    AddressBytes(Contract(other), other, 0);
    NoElements();
    FunctionBytes(Contract(other), [102], [], FromAsset(Native), StellarAsset, []);
  }

  /** `transfer(-2, [1 -> true, 2 -> void])` on one contract, with that sub-call of another. */
  function TransferTree(id: Digest, other: Digest): CallTree {
    CallTree(ContractFn(Contract(id), [116, 114, 97, 110, 115, 102, 101, 114], [MINUS_TWO, SMALL_MAP]),
             [SubCall(other)])
  }

  /** With `SubCallBytes`, `MinusTwoBytes` and `SmallMapBytes`, every byte of it. */
  lemma TransferTreeBytes(id: Digest, other: Digest)
    ensures Fits(MINUS_TWO) && Fits(SMALL_MAP) && TreeFits(TransferTree(id, other)) && TreeFits(SubCall(other))
    ensures EncTree(TransferTree(id, other)) ==
            [0, 0, 0, 0] + (([0, 0, 0, 1] + id) + ([0, 0, 0, 8, 116, 114, 97, 110, 115, 102, 101, 114] +
              ([0, 0, 0, 2] + (EncVal(MINUS_TWO) + EncVal(SMALL_MAP))))) +
            ([0, 0, 0, 1] + EncTree(SubCall(other)))
  {
    hide EncTree, EncFn, EncVals, EncOpaque, EncAddress, EncTrees, EncVal, TreesFit, AllFit, MINUS_TWO, SMALL_MAP;
    hide SubCall;
    var name, args, sub := [116, 114, 97, 110, 115, 102, 101, 114], [MINUS_TWO, SMALL_MAP], SubCall(other);
    ArgumentBytes();
    NameBytes();
    AddressBytes(Contract(id), id, 0);
    NoElements();
    TreesInOrder([], []);
    SubCallBytes(other);
    FunctionBytes(Contract(id), name, args, FromAsset(Native), StellarAsset, [sub]);
  }

  lemma NameBytes()
    ensures EncOpaque([116, 114, 97, 110, 115, 102, 101, 114]) == [0, 0, 0, 8, 116, 114, 97, 110, 115, 102, 101, 114]
    ensures EncOpaque([102]) == [0, 0, 0, 1, 102, 0, 0, 0]
  {
    hide EncOpaque;
    OpaqueParts([116, 114, 97, 110, 115, 102, 101, 114]);
    OpaqueParts([102]);
  }

  lemma NoElements()
    ensures AllFit([]) && EncVals([]) == [] && EntriesFit([]) && TreesFit([]) && EncTrees([]) == []
  {
  }
}
