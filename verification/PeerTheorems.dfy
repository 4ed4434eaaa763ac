/** The results about whole runs of the peer manager. */
module PeerTheorems {
  import opened Wrappers
  import opened KeyCodec
  import opened WgConfig
  import opened ConfEdits
  import opened ConfAppend
  import opened WgServer
  import opened LiveAgreement
  import opened Octets
  import opened Peers
  import opened PeerState
  import opened PeerRuns

  datatype Op = AddOp(name: string, key: seq<byte>, faults: Faults) | RemoveOp(index: int, faults: Faults)

  function StepOp(st: Store, op: Op): Store {
    match op
    case AddOp(name, key, faults) => AddStep(st, name, key, faults).0
    case RemoveOp(index, faults) => RemoveStep(st, index, faults).0
  }

  function LedgerOp(st: Store, led: Ledger, op: Op): Ledger {
    match op
    case AddOp(name, key, faults) => AddLedger(st, led, name, key, faults)
    case RemoveOp(index, faults) => RemoveLedger(st, led, index, faults)
  }

  function RunOps(st: Store, ops: seq<Op>): Store
    decreases |ops|
  {
    if ops == [] then st else RunOps(StepOp(st, ops[0]), ops[1..])
  }

  function RunLedger(st: Store, led: Ledger, ops: seq<Op>): Ledger
    decreases |ops|
  {
    if ops == [] then led else RunLedger(StepOp(st, ops[0]), LedgerOp(st, led, ops[0]), ops[1..])
  }

  /** What an `Add` relies on: a generated key not in use, and an address to hand out that is not listed yet. */
  predicate AdmissibleOp(st: Store, op: Op) {
    op.AddOp? ==> FreshKey(st, op.key) && FreshAddress(st)
  }

  predicate Admissible(st: Store, ops: seq<Op>)
    decreases |ops|
  {
    ops == [] || (AdmissibleOp(st, ops[0]) && Admissible(StepOp(st, ops[0]), ops[1..]))
  }

  lemma OpKeepsStep(st: Store, led: Ledger, op: Op)
    requires InStep(st, led) && AdmissibleOp(st, op)
    ensures InStep(StepOp(st, op), LedgerOp(st, led, op))
  {
    hide InStep, AddStep, RemoveStep, FreshKey, FreshAddress, AddLedger, RemoveLedger;
    match op {
      case AddOp(name, key, faults) => AddKeepsStep(st, led, name, key, faults);
      case RemoveOp(index, faults) => RemoveKeepsStep(st, led, index, faults);
    }
  }

  /**
   * Over every run, whatever steps fail: the file stays healthy, and live device and file differ only by the peers
   * on the ledger, those of a failed rollback and those of a failed rewrite after their revocation.
   */
  lemma {:induction false} RunsStayInStep(st: Store, led: Ledger, ops: seq<Op>)
    requires InStep(st, led) && Admissible(st, ops)
    ensures InStep(RunOps(st, ops), RunLedger(st, led, ops))
    decreases |ops|
  {
    hide InStep, StepOp, AdmissibleOp, LedgerOp;
    if ops != [] {
      OpKeepsStep(st, led, ops[0]);
      RunsStayInStep(StepOp(st, ops[0]), LedgerOp(st, led, ops[0]), ops[1..]);
    }
  }

  predicate DriftFree(op: Op) {
    !op.faults.rollback && !op.faults.rewrite
  }

  lemma DriftFreeLedger(st: Store, op: Op)
    requires InStep(st, BALANCED) && DriftFree(op)
    ensures LedgerOp(st, BALANCED, op) == BALANCED
  {
    hide WF, Parse, Tracks, AddStep, TunnelRemove, Sound, WithoutBlock;
    if op.RemoveOp? && 1 <= op.index <= |Parse(st.conf).value.peers| {
      HealthyDrop(st.conf, op.index - 1);
    }
  }

  lemma {:induction false} DriftFreeRun(st: Store, ops: seq<Op>)
    requires InStep(st, BALANCED) && Admissible(st, ops)
    requires forall i :: 0 <= i < |ops| ==> DriftFree(ops[i])
    ensures RunLedger(st, BALANCED, ops) == BALANCED
    decreases |ops|
  {
    hide InStep, StepOp, AdmissibleOp, LedgerOp, DriftFree;
    if ops != [] {
      OpKeepsStep(st, BALANCED, ops[0]);
      DriftFreeLedger(st, ops[0]);
      DriftFreeRun(StepOp(st, ops[0]), ops[1..]);
    }
  }

  /**
   * The live path refines the restart path: from a device built from the file, over every run in which no rollback
   * and no rewrite fails, the live device is the one a restart from the current file would bring up.
   */
  lemma LiveRefinesRestart(content: string, ops: seq<Op>)
    requires Healthy(content)
    requires Restart(content).Some? ==> Admissible(Store(content, Running(Restart(content).value)), ops)
    requires forall i :: 0 <= i < |ops| ==> DriftFree(ops[i])
    ensures Restart(content).Some?
    ensures var end := RunOps(Store(content, Running(Restart(content).value)), ops);
            end.live.Running? && Restart(end.conf) == Some(end.live.device)
  {
    hide Healthy, InStep, Admissible, RunOps, RunLedger, DriftFree, Restart;
    RestartedIsBalanced(content);
    var st := Store(content, Running(Restart(content).value));
    RunsStayInStep(st, BALANCED, ops);
    DriftFreeRun(st, ops);
    BalancedIsRestart(RunOps(st, ops));
    assert RunOps(st, ops).live.Running? by {
      StillRunning(RunOps(st, ops));
    }
  }

  lemma StillRunning(st: Store)
    requires InStep(st, BALANCED)
    ensures st.live.Running?
  {
    hide Healthy, Tracks;
  }

  // ---- what the results of the calls mean ----

  /** `Remove` returning nil means the peer is neither live nor in the file. */
  lemma RemovedMeansGone(st: Store, led: Ledger, index: int, faults: Faults)
    requires InStep(st, led) && RemoveStep(st, index, faults).1.Ok?
    ensures var st' := RemoveStep(st, index, faults).0;
            Parse(st'.conf).Ok? && st'.live.Running? &&
            TargetHex(st, index) !in Keys(Parse(st'.conf).value.peers) &&
            TargetHex(st, index) !in st'.live.device.peers
  {
    hide WF, Parse, Tracks, DeviceFor, Bootable, DisjointAddresses, UniqueKeys, HexOf, Keys, DropAt,
         WithoutBlock, LiveRemove;
    var cfg := Parse(st.conf).value;
    HealthyDrop(st.conf, index - 1);
    KeysDrop(cfg.peers, index - 1);
    LiveDropOf(st.live.device, cfg, index - 1);
  }

  /** A failed live revoke changes neither side; no failing `Remove` changes the file. */
  lemma FailedRemoveKeepsFile(st: Store, index: int, faults: Faults)
    requires RemoveStep(st, index, faults).1.Err?
    ensures RemoveStep(st, index, faults).0.conf == st.conf
    ensures RemoveStep(st, index, faults).1 != Err(RewriteFailed) ==> RemoveStep(st, index, faults).0 == st
  {
  }

  function Attempts(index: int, tries: seq<Faults>): seq<Op> {
    if tries == [] then [] else [RemoveOp(index, tries[0])] + Attempts(index, tries[1..])
  }

  predicate AllFail(st: Store, index: int, tries: seq<Faults>)
    decreases |tries|
  {
    tries == [] ||
    (RemoveStep(st, index, tries[0]).1.Err? && AllFail(RemoveStep(st, index, tries[0]).0, index, tries[1..]))
  }

  /** Failing attempts at one peer leave the file alone and put no other peer on the ledger. */
  lemma {:induction false} FailedAttempts(st: Store, led: Ledger, index: int, tries: seq<Faults>)
    requires InStep(st, led) && AllFail(st, index, tries)
    ensures var end := RunOps(st, Attempts(index, tries));
            var after := RunLedger(st, led, Attempts(index, tries));
            InStep(end, after) && end.conf == st.conf && after.ghosts == led.ghosts &&
            led.revenants <= after.revenants <= led.revenants + {TargetHex(st, index)}
    decreases |tries|
  {
    hide InStep, RemoveStep;
    if tries != [] {
      var st1, led1 := RemoveStep(st, index, tries[0]).0, RemoveLedger(st, led, index, tries[0]);
      RemoveKeepsStep(st, led, index, tries[0]);
      FailedRemoveKeepsFile(st, index, tries[0]);
      FailedAttempts(st1, led1, index, tries[1..]);
      assert Attempts(index, tries)[1..] == Attempts(index, tries[1..]);
    }
  }

  /**
   * Retrying a failed `Remove` until it succeeds settles that peer and nothing else: the ledger is what it was, less
   * the peer. With an empty ledger at the start that is full agreement.
   */
  lemma RetryRestores(st: Store, led: Ledger, index: int, tries: seq<Faults>, last: Faults)
    requires InStep(st, led) && AllFail(st, index, tries)
    requires RemoveStep(RunOps(st, Attempts(index, tries)), index, last).1.Ok?
    ensures var end := RemoveStep(RunOps(st, Attempts(index, tries)), index, last).0;
            InStep(end, led.(revenants := led.revenants - {TargetHex(st, index)})) &&
            (led.ghosts == {} && led.revenants <= {TargetHex(st, index)} ==>
               end.live.Running? && Restart(end.conf) == Some(end.live.device))
  {
    hide InStep, RemoveStep, Restart;
    FailedAttempts(st, led, index, tries);
    var mid := RunOps(st, Attempts(index, tries));
    var after := RunLedger(st, led, Attempts(index, tries));
    RemoveKeepsStep(mid, after, index, last);
    var settled := led.(revenants := led.revenants - {TargetHex(st, index)});
    assert RemoveLedger(mid, after, index, last) == settled;
    if led.ghosts == {} && led.revenants <= {TargetHex(st, index)} {
      assert settled == BALANCED;
      BalancedIsRestart(RemoveStep(mid, index, last).0);
      StillRunning(RemoveStep(mid, index, last).0);
    }
  }

  /** A failure after the commit is possible only without a usable server key, which no running server has. */
  lemma NoLateFailure(st: Store, led: Ledger, name: string, key: seq<byte>, faults: Faults)
    requires InStep(st, led)
    ensures AddStep(st, name, key, faults).1 != Err(NoServerKey)
  {
    hide WF, Tracks, B64ToHex, LegalName, Encode, TunnelAdd, TunnelRemove, Appended, NewAddress, KeysDecode, Unbroken;
  }

  // ---- addresses ----

  lemma ApartDrop(peers: seq<PeerConfig>, i: nat)
    requires OctetsApart(peers) && i < |peers|
    ensures OctetsApart(DropAt(peers, i))
  {
    hide OctetsIn;
  }

  ghost predicate ApartFile(content: string) {
    WF(content) && Parse(content).Ok? && OctetsApart(Parse(content).value.peers)
  }

  /** An `Add` at this point would find an octet nobody has. */
  ghost predicate OctetLeft(content: string) {
    Parse(content).Ok? && |Parse(content).value.peers| < MAX_PEERS ==> PoolOpen(UsedBy(Parse(content).value.peers))
  }

  /** For every tunnel: an `Add` that writes the file keeps the octets apart exactly if there was one left. */
  lemma AddApartExact(st: Store, name: string, key: seq<byte>, faults: Faults)
    requires ApartFile(st.conf) && |key| == KEY_LENGTH
    ensures AddStep(st, name, key, faults).0.conf == st.conf ||
            (ApartFile(AddStep(st, name, key, faults).0.conf) <==> OctetLeft(st.conf))
  {
    hide WF, Parse, OctetsApart, Appended, TunnelAdd, TunnelRemove, LegalName, Encode, B64ToHex, NewAddress,
         PoolOpen, UsedBy, PlainValue;
    var cfg := Parse(st.conf).value;
    if LegalName(name) && |cfg.peers| < MAX_PEERS {
      NameIsPlain(name);
      KeyIsPlain(key);
      NewAddressReads(cfg);
      AppendBlocks(st.conf, name, Encode(key), NewAddress(cfg));
      AppendParses(st.conf, name, Encode(key), NewAddress(cfg));
      NewOctetApart(cfg, Encode(key));
    }
  }

  lemma RemoveKeepsApart(st: Store, index: int, faults: Faults)
    requires ApartFile(st.conf)
    ensures ApartFile(RemoveStep(st, index, faults).0.conf)
  {
    hide WF, Parse, OctetsApart, WithoutBlock, TunnelRemove;
    var cfg := Parse(st.conf).value;
    if 1 <= index <= |cfg.peers| {
      RemovalCommutes(st.conf, index - 1);
      ApartDrop(cfg.peers, index - 1);
    }
  }

  ghost predicate OctetsLast(st: Store, ops: seq<Op>)
    decreases |ops|
  {
    ops == [] ||
    ((ops[0].AddOp? ==> |ops[0].key| == KEY_LENGTH && OctetLeft(st.conf)) && OctetsLast(StepOp(st, ops[0]), ops[1..]))
  }

  /**
   * Over every run, whatever fails and whether the device is running, stopped or absent: no two peers in the file
   * share a last octet and none has the server's, as long as each `Add` finds an octet left.
   */
  lemma {:induction false} AddressesStayApart(st: Store, ops: seq<Op>)
    requires ApartFile(st.conf) && OctetsLast(st, ops)
    ensures ApartFile(RunOps(st, ops).conf)
    decreases |ops|
  {
    hide AddStep, RemoveStep, ApartFile, OctetLeft;
    if ops != [] {
      match ops[0] {
        case AddOp(name, key, faults) => AddApartExact(st, name, key, faults);
        case RemoveOp(index, faults) => RemoveKeepsApart(st, index, faults);
      }
      AddressesStayApart(StepOp(st, ops[0]), ops[1..]);
    }
  }

  /** While octets last, the addresses handed out are fresh on the device too. */
  lemma OctetLeftIsFresh(st: Store)
    requires OctetLeft(st.conf)
    ensures FreshAddress(st)
  {
    hide Parse, PoolOpen, UsedBy, Listed, NewNet;
    if Parse(st.conf).Ok? && |Parse(st.conf).value.peers| < MAX_PEERS {
      OpenPoolFresh(Parse(st.conf).value);
    }
  }
}
