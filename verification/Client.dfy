/** The two command-line clients: the nonces and expiries they derive, and the entry they sign. */
module Client {
  import opened Bytes
  import opened ContractTypes
  import opened CallTrees
  import opened Payload
  import opened Account
  import opened Host

  /** `authorize` and the older `submit` differ in the offset they add. */
  datatype Tool = AuthorizeTool | SubmitTool

  function Offset(tool: Tool): nat {
    match tool case AuthorizeTool => 29 case SubmitTool => 17
  }

  /** `(latest as i64) * 1_000_003 + offset`; that the result is an `i64` is part of what is proved. */
  function ClientNonce(tool: Tool, latest: u32): i64 {
    latest * 1_000_003 + Offset(tool)
  }

  /** `latest + 1000` in `u32`, as a release build computes it. */
  function ClientExpiry(latest: u32): u32 {
    (latest + 1000) % 0x1_0000_0000
  }

  /** Nonces of different runs differ: a nonce determines the tool and the ledger it was derived from. */
  lemma NoncesAreFresh(t1: Tool, l1: u32, t2: Tool, l2: u32)
    ensures ClientNonce(t1, l1) == ClientNonce(t2, l2) <==> t1 == t2 && l1 == l2
  {
    assert ClientNonce(t1, l1) % 1_000_003 == Offset(t1) && ClientNonce(t1, l1) / 1_000_003 == l1;
    assert ClientNonce(t2, l2) % 1_000_003 == Offset(t2) && ClientNonce(t2, l2) / 1_000_003 == l2;
  }

  /** The expiry lies ahead of the ledger it was derived from unless the addition wraps. */
  lemma ExpiryIsAhead(latest: u32)
    ensures ClientExpiry(latest) >= latest <==> latest <= 0xFFFF_FFFF - 1000
  {
  }

  lemma ExpiryCanWrap()
    ensures ClientExpiry(0xFFFF_FC18) == 0 && 0xFFFF_FC18 == 0xFFFF_FFFF - 999
  {
  }

  /** The payload both tools sign: a bare call of `protected` on the account. */
  function ClientPayload(tool: Tool, networkId: Digest, latest: u32, account: ScAddress): AuthorizationPayload {
    assert FnFits(ProtectedCall(account)) && TreesFit([]);
    AuthorizationPayload(networkId, ClientNonce(tool, latest), ClientExpiry(latest),
                         CallTree(ProtectedCall(account), []))
  }

  /**
   The run the golden test records: the older tool, at ledger 4,217,130, derives exactly the nonce and
   expiry pinned there, so `GoldenPreimage` spells out the bytes of its payload. The newer tool's nonce is
   twelve more.
   */
  lemma GoldenRun(networkId: Digest, id: Digest)
    ensures var tree: Invocation := ClientPayload(SubmitTool, networkId, 4_217_130, Contract(id)).invocation;
      && tree == CallTree(ContractFn(Contract(id), [112, 114, 111, 116, 101, 99, 116, 101, 100], []), [])
      && ClientPayload(SubmitTool, networkId, 4_217_130, Contract(id)) ==
         AuthorizationPayload(networkId, 4_217_142_651_407, 4_218_130, tree)
      && ClientPayload(AuthorizeTool, networkId, 4_217_130, Contract(id)) ==
         AuthorizationPayload(networkId, 4_217_142_651_419, 4_218_130, tree)
  {
  }

  // ---- The tools' nonces meet no record but their own ----------------------------------------

  /** A nonce that one of these tool runs derives. */
  ghost predicate DerivedIn(runs: set<(Tool, u32)>, nonce: i64) {
    exists tool, latest :: (tool, latest) in runs && nonce == ClientNonce(tool, latest)
  }

  /** Everything the account authorized in a run carries the nonce of one of these tool runs. */
  ghost predicate AcceptedFrom<VK, SK>(w: World<VK, SK>, ledger: nat, steps: seq<Step<SK>>, account: ScAddress,
                                       runs: set<(Tool, u32)>) {
    forall i: nat :: Succeeds(w, ledger, steps, i) && steps[i].account == account ==>
      DerivedIn(runs, steps[i].entry.credentials.nonce)
  }

  /**
   So a client never meets a nonce on record but its own: if what the account authorized so far came
   from some tool runs, a nonce recorded for it that a tool derives is that of one of those very runs.
   */
  lemma UsedNonceMeansSameToolRun<VK, SK>(
    w: World<VK, SK>, ledger: nat, steps: seq<Step<SK>>, runs: set<(Tool, u32)>, account: ScAddress,
    tool: Tool, latest: u32)
    requires AcceptedFrom(w, ledger, steps, account, runs)
    ensures Recorded(Run(w, Initial(ledger), steps), account, ClientNonce(tool, latest)) ==> (tool, latest) in runs
  {
    var nonce, st := ClientNonce(tool, latest), Run(w, Initial(ledger), steps);
    if Recorded(st, account, nonce) {
      var expiry := st.nonces[(account, nonce)];
      hide Run, Authorize;
      NonceRecords(w, ledger, steps, account, nonce, expiry);
      var i :| RecordedBy(w, ledger, steps, i, account, nonce, expiry);
      var t, l :| (t, l) in runs && nonce == ClientNonce(t, l);
      NoncesAreFresh(t, l, tool, latest);
    }
  }

  /** Under the account's context, keys that some `init` named for it sign only for these tool runs. */
  ghost predicate HolderSignsFor<VK, SK>(w: World<VK, SK>, steps: seq<Step<SK>>, account: ScAddress,
                                         runs: set<(Tool, u32)>) {
    forall j ::
      0 <= j < |steps| && steps[j].SignEntry? && steps[j].context == CONTEXT &&
      NamedOn(steps, account, SignerKey(w, steps[j].sk)) ==>
        DerivedIn(runs, steps[j].payload.nonce)
  }

  /** What anyone else signs or submits makes no difference: the holder's own signing decides. */
  lemma HolderDecides<VK, SK>(w: World<VK, SK>, ledger: nat, steps: seq<Step<SK>>, account: ScAddress,
                              runs: set<(Tool, u32)>)
    requires Guarded(w, ledger, steps, account) && HolderSignsFor(w, steps, account, runs)
    ensures AcceptedFrom(w, ledger, steps, account, runs)
  {
    forall i: nat | Succeeds(w, ledger, steps, i) && steps[i].account == account
      ensures DerivedIn(runs, steps[i].entry.credentials.nonce)
    {
      GuardedAcceptsOnlySigned(w, ledger, steps, account, i);
      var j :| 0 <= j < i && SignsNamed(w, steps, account, j, EntryPayload(w.networkId, steps[i].entry));
      assert steps[j].payload.nonce == steps[i].entry.credentials.nonce;
    }
  }
}
