/**
 A single validator whose alias state changes only through its own blocks.  Transactions may arrive
 between the moment the production loop copies the mempool and the moment the block is added.
 */
module ValidatorRuns {
  import opened Prelude
  import opened Text
  import opened Ledger
  import LedgerAnswers
  import LedgerOrigins
  import LedgerRuns

  /** The ledger and the block under way, if the loop has taken its snapshot. */
  datatype Node = Node(ledger: State, pending: Option<Block>)

  datatype Event = Submit(tx: Transaction) | Snapshot(timestamp: int) | Commit

  function Step(env: Env, me: Self, n: Node, e: Event): Node {
    match e
    case Submit(tx) => n.(ledger := AddToMempool(env, n.ledger, tx).0)
    case Snapshot(timestamp) =>
      if n.pending.Some? then n else n.(pending := BuildBlock(env, me, n.ledger, timestamp))
    case Commit =>
      if n.pending.None? then n else Node(AddBlock(env, n.ledger, n.pending.value).0, None)
  }

  function Run(env: Env, me: Self, events: seq<Event>): Node {
    if events == [] then Node(EMPTY, None)
    else Step(env, me, Run(env, me, events[..|events| - 1]), events[|events| - 1])
  }

  predicate Valid(env: Env, s: State, tx: Transaction) {
    VerifyTransaction(env, s.names.aliases, tx).None?
  }

  ghost predicate MempoolOK(env: Env, s: State) {
    && (forall i :: 0 <= i < |s.mempool| ==> Valid(env, s, s.mempool[i]))
    && (forall i, j :: 0 <= i < j < |s.mempool| ==>
          s.mempool[i].alias != s.mempool[j].alias && s.mempool[i].txId != s.mempool[j].txId)
  }

  ghost predicate PendingOK(env: Env, s: State, b: Block) {
    && b.transactions <= s.mempool
    && VerifyHeader(env, b.header, s.latestHeight + 1, s.latestHash).None?
    && b.hash == BlockHash(env, b.header)
  }

  ghost predicate Inv(env: Env, n: Node) {
    && LedgerRuns.Inv(env, n.ledger)
    && MempoolOK(env, n.ledger)
    && (n.pending.Some? ==> PendingOK(env, n.ledger, n.pending.value))
  }

  // ---------------------------------------------------------------- submitting

  lemma {:induction false} NoClashMeansNew(mempool: seq<Transaction>, tx: Transaction)
    requires FindClash(mempool, tx).NoClash?
    ensures forall i :: 0 <= i < |mempool| ==> mempool[i].txId != tx.txId && mempool[i].alias != tx.alias
  {
    if mempool != [] {
      NoClashMeansNew(mempool[1..], tx);
      forall i | 0 <= i < |mempool|
        ensures mempool[i].txId != tx.txId && mempool[i].alias != tx.alias
      {
        if i > 0 {
          assert mempool[i] == mempool[1..][i - 1];
        }
      }
    }
  }

  lemma SubmitKeepsInv(env: Env, n: Node, tx: Transaction)
    requires Inv(env, n)
    ensures Inv(env, n.(ledger := AddToMempool(env, n.ledger, tx).0))
  {
    var s, s' := n.ledger, AddToMempool(env, n.ledger, tx).0;
    LedgerRuns.SubmitKeepsInv(env, s, tx);
    if s' != s {
      NoClashMeansNew(s.mempool, tx);
      assert s' == s.(mempool := s.mempool + [tx]);
      forall i | 0 <= i < |s'.mempool|
        ensures Valid(env, s', s'.mempool[i])
      {
        assert i < |s.mempool| ==> Valid(env, s, s.mempool[i]);
      }
      if n.pending.Some? {
        assert n.pending.value.transactions <= s'.mempool;
      }
    }
  }

  // ---------------------------------------------------------------- committing

  /** Taking the snapshot out of a mempool without repeated IDs leaves exactly what came after it. */
  lemma {:induction false} RemainingIsTail(mempool: seq<Transaction>, taken: nat)
    requires taken <= |mempool|
    requires forall i, j :: 0 <= i < j < |mempool| ==> mempool[i].txId != mempool[j].txId
    ensures Remaining(mempool, mempool[..taken]) == mempool[taken..]
    decreases |mempool|
  {
    if mempool != [] {
      var init, last := mempool[..|mempool| - 1], mempool[|mempool| - 1];
      if taken == |mempool| {
        assert mempool[..taken][taken - 1] == last;
        AllTaken(init, mempool);
        assert mempool[..taken] == mempool;
      } else {
        RemainingIsTail(init, taken);
        assert init[..taken] == mempool[..taken];
        assert mempool[taken..] == init[taken..] + [last];
      }
    }
  }

  lemma {:induction false} AllTaken(mempool: seq<Transaction>, txs: seq<Transaction>)
    requires forall i :: 0 <= i < |mempool| ==> mempool[i] in txs
    ensures Remaining(mempool, txs) == []
  {
    if mempool != [] {
      AllTaken(mempool[..|mempool| - 1], txs);
      var k :| 0 <= k < |txs| && txs[k] == mempool[|mempool| - 1];
      assert Contains(txs, mempool[|mempool| - 1].txId);
    }
  }

  /** Aliases that differ have different coordinates. */
  lemma CoordinatesDiffer(env: Env, s: State, a: Transaction, b: Transaction)
    requires LedgerRuns.Sound(env) && Valid(env, s, a) && Valid(env, s, b) && a.alias != b.alias
    ensures AliasCoordinate(env, a.alias) != AliasCoordinate(env, b.alias)
  {
    assert !LedgerRuns.Collide(env, a.alias, b.alias);
  }

  /** No transaction of the block speaks for a coordinate outside it. */
  lemma {:induction false} LastForNone(env: Env, txs: seq<Transaction>, c: string)
    requires forall i :: 0 <= i < |txs| ==> AliasCoordinate(env, txs[i].alias) != c
    ensures LedgerRuns.LastFor(env, txs, c).None?
  {
    if txs != [] {
      LastForNone(env, txs[..|txs| - 1], c);
    }
  }

  /** With distinct coordinates each transaction speaks for its own. */
  lemma {:induction false} LastForOwn(env: Env, txs: seq<Transaction>, k: nat)
    requires k < |txs|
    requires forall i :: 0 <= i < |txs| && i != k ==>
               AliasCoordinate(env, txs[i].alias) != AliasCoordinate(env, txs[k].alias)
    ensures LedgerRuns.LastFor(env, txs, AliasCoordinate(env, txs[k].alias)) == Some(txs[k])
  {
    if k < |txs| - 1 {
      LastForOwn(env, txs[..|txs| - 1], k);
    }
  }

  lemma PendingVerifies(env: Env, s: State, b: Block)
    requires MempoolOK(env, s) && PendingOK(env, s, b)
    ensures FirstBad(env, s.names.aliases, b.transactions).None? && VerifyBlock(env, s, b).None?
  {
    forall i | 0 <= i < |b.transactions|
      ensures VerifyTransaction(env, s.names.aliases, b.transactions[i]).None?
    {
      assert Valid(env, s, s.mempool[i]);
    }
    LedgerRuns.GoodIfAll(env, s.names.aliases, b.transactions);
  }

  /** The whole effect of adding the pending block. */
  lemma CommitEffect(env: Env, s: State, b: Block) returns (s': State)
    requires MempoolOK(env, s) && PendingOK(env, s, b)
    ensures AddBlock(env, s, b) == (s', None)
    ensures s'.latestHeight == s.latestHeight + 1 && s'.latestHash == b.hash
    ensures s'.mempool == s.mempool[|b.transactions|..]
    ensures s'.names == ApplyTransactions(env, s.names, b.transactions)
    ensures s.latestHeight + 1 in s'.blocks && s'.blocks[s.latestHeight + 1] == b
  {
    PendingVerifies(env, s, b);
    RemainingIsTail(s.mempool, |b.transactions|);
    assert s.mempool[..|b.transactions|] == b.transactions;
    s' := AddBlock(env, s, b).0;
  }

  /** No transaction of the snapshot speaks for the coordinate of one that came later. */
  lemma LaterIsUntouched(env: Env, s: State, b: Block, k: nat)
    requires LedgerRuns.Sound(env) && MempoolOK(env, s) && PendingOK(env, s, b)
    requires |b.transactions| <= k < |s.mempool|
    ensures LedgerRuns.LastFor(env, b.transactions, AliasCoordinate(env, s.mempool[k].alias)).None?
  {
    var tx := s.mempool[k];
    forall i | 0 <= i < |b.transactions|
      ensures AliasCoordinate(env, b.transactions[i].alias) != AliasCoordinate(env, tx.alias)
    {
      assert Valid(env, s, s.mempool[i]) && Valid(env, s, tx);
      CoordinatesDiffer(env, s, s.mempool[i], tx);
    }
    LastForNone(env, b.transactions, AliasCoordinate(env, tx.alias));
  }

  /** A transaction that came after the snapshot is as valid after the commit as before. */
  lemma LaterStaysValid(env: Env, s: State, b: Block, s': State, k: nat)
    requires LedgerRuns.Sound(env) && MempoolOK(env, s) && PendingOK(env, s, b)
    requires |b.transactions| <= k < |s.mempool|
    requires s'.names == ApplyTransactions(env, s.names, b.transactions)
    ensures Valid(env, s', s.mempool[k])
  {
    PendingVerifies(env, s, b);
    LaterIsUntouched(env, s, b, k);
    var c := AliasCoordinate(env, s.mempool[k].alias);
    LedgerRuns.BlockDecidesOwner(env, s.names, s.names.aliases, b.transactions, c);
    assert Valid(env, s, s.mempool[k]);
  }

  lemma RestOfMempoolOK(env: Env, s: State, b: Block, s': State)
    requires LedgerRuns.Sound(env) && MempoolOK(env, s) && PendingOK(env, s, b)
    requires s'.names == ApplyTransactions(env, s.names, b.transactions)
    requires s'.mempool == s.mempool[|b.transactions|..]
    ensures MempoolOK(env, s')
  {
    forall i | 0 <= i < |s'.mempool|
      ensures Valid(env, s', s'.mempool[i])
    {
      LaterStaysValid(env, s, b, s', |b.transactions| + i);
    }
  }

  lemma CommitKeepsInv(env: Env, n: Node)
    requires LedgerRuns.Sound(env) && Inv(env, n) && n.pending.Some?
    ensures Inv(env, Node(AddBlock(env, n.ledger, n.pending.value).0, None))
  {
    var s, b := n.ledger, n.pending.value;
    var s' := CommitEffect(env, s, b);
    LedgerRuns.BlockKeepsInv(env, s, b);
    RestOfMempoolOK(env, s, b, s');
  }

  lemma SnapshotKeepsInv(env: Env, me: Self, n: Node, timestamp: int)
    requires Trusted(env, me) && Inv(env, n) && n.pending.None?
    ensures Inv(env, n.(pending := BuildBlock(env, me, n.ledger, timestamp)))
  {
    var s := n.ledger;
    if s.mempool != [] {
      var unsigned := Header(s.latestHeight + 1, s.latestHash, timestamp, me.peerId, "");
      var header := unsigned.(signature := me.sign(SignedText(unsigned)));
      assert SignedText(header) == SignedText(unsigned);
      assert VerifyHeader(env, header, s.latestHeight + 1, s.latestHash).None?;
    }
  }

  lemma {:induction false} RunInv(env: Env, me: Self, events: seq<Event>)
    requires LedgerRuns.Sound(env) && Trusted(env, me)
    ensures Inv(env, Run(env, me, events))
  {
    if events != [] {
      RunInv(env, me, events[..|events| - 1]);
      var n := Run(env, me, events[..|events| - 1]);
      match events[|events| - 1] {
        case Submit(tx) => SubmitKeepsInv(env, n, tx);
        case Snapshot(timestamp) =>
          if n.pending.None? {
            SnapshotKeepsInv(env, me, n, timestamp);
          }
        case Commit =>
          if n.pending.Some? {
            CommitKeepsInv(env, n);
          }
      }
    }
  }

  // ---------------------------------------------------------------- main results

  /** In every reachable state each pending transaction still verifies, and no alias is pending twice. */
  lemma {:induction false} MempoolNeverStale(env: Env, me: Self, events: seq<Event>)
    requires LedgerRuns.Sound(env) && Trusted(env, me)
    ensures MempoolOK(env, Run(env, me, events).ledger)
  {
    RunInv(env, me, events);
  }

  /**
   Every production step succeeds: it stores the whole snapshot at the next height, binds each of its
   aliases to its claimant, and leaves in the mempool exactly the transactions added after the snapshot.
   */
  lemma {:induction false} CommitTakesWholeSnapshot(env: Env, me: Self, events: seq<Event>)
    requires LedgerRuns.Sound(env) && Trusted(env, me)
    requires Run(env, me, events).pending.Some?
    ensures var s, b := Run(env, me, events).ledger, Run(env, me, events).pending.value;
            var (s', error) := AddBlock(env, s, b);
            && error.None?
            && s'.latestHeight == s.latestHeight + 1
            && s.latestHeight + 1 in s'.blocks && s'.blocks[s.latestHeight + 1] == b
            && s.mempool == b.transactions + s'.mempool
            && forall i :: 0 <= i < |b.transactions| ==> Owns(env, s', b.transactions[i])
  {
    RunInv(env, me, events);
    var s, b := Run(env, me, events).ledger, Run(env, me, events).pending.value;
    var s' := CommitEffect(env, s, b);
    forall i | 0 <= i < |b.transactions|
      ensures Owns(env, s', b.transactions[i])
    {
      SnapshotOwns(env, s, b, s', i);
    }
  }

  /** The transaction's alias is recorded for its key and peer ID. */
  predicate Owns(env: Env, s: State, tx: Transaction) {
    var c := AliasCoordinate(env, tx.alias);
    KeyOf(env, tx).Some? && c in s.names.aliases
    && s.names.aliases[c] == AliasRecord(tx.ownerPeerId, KeyOf(env, tx).value)
  }

  lemma SnapshotOwns(env: Env, s: State, b: Block, s': State, k: nat)
    requires LedgerRuns.Sound(env) && MempoolOK(env, s) && PendingOK(env, s, b) && k < |b.transactions|
    requires s'.names == ApplyTransactions(env, s.names, b.transactions)
    ensures Owns(env, s', b.transactions[k])
  {
    PendingVerifies(env, s, b);
    forall i | 0 <= i < |b.transactions| && i != k
      ensures AliasCoordinate(env, b.transactions[i].alias) != AliasCoordinate(env, b.transactions[k].alias)
    {
      assert Valid(env, s, s.mempool[i]) && Valid(env, s, s.mempool[k]);
      CoordinatesDiffer(env, s, s.mempool[i], s.mempool[k]);
    }
    LastForOwn(env, b.transactions, k);
    LedgerRuns.BlockDecidesOwner(env, s.names, s.names.aliases, b.transactions,
                                 AliasCoordinate(env, b.transactions[k].alias));
  }

  // ---------------------------------------------------------------- what becomes of a submission

  lemma RunSnoc(env: Env, me: Self, events: seq<Event>, e: Event)
    ensures Run(env, me, events + [e]) == Step(env, me, Run(env, me, events), e)
  {
    assert (events + [e])[..|events|] == events;
  }

  /** A binding outlives every step. */
  lemma StepKeepsOwns(env: Env, me: Self, n: Node, e: Event, tx: Transaction)
    requires Inv(env, n) && Owns(env, n.ledger, tx)
    ensures Owns(env, Step(env, me, n, e).ledger, tx)
  {
    var c := AliasCoordinate(env, tx.alias);
    match e {
      case Submit(other) => LedgerRuns.StepKeepsOwner(env, n.ledger, LedgerRuns.Submit(other), c);
      case Snapshot(_) =>
      case Commit =>
        if n.pending.Some? {
          LedgerRuns.StepKeepsOwner(env, n.ledger, LedgerRuns.Full(n.pending.value), c);
        }
    }
  }

  /** A commit binds what its block holds and leaves the rest pending. */
  lemma CommitKeepsPending(env: Env, s: State, b: Block, tx: Transaction)
    requires LedgerRuns.Sound(env) && MempoolOK(env, s) && PendingOK(env, s, b) && tx in s.mempool
    ensures var s' := AddBlock(env, s, b).0;
            if tx in b.transactions then Owns(env, s', tx) else tx in s'.mempool
  {
    var s' := CommitEffect(env, s, b);
    if tx in b.transactions {
      var k :| 0 <= k < |b.transactions| && b.transactions[k] == tx;
      SnapshotOwns(env, s, b, s', k);
    } else {
      assert s.mempool == b.transactions + s'.mempool;
    }
  }

  /** A pending transaction stays pending until it is bound. */
  lemma StepKeepsPending(env: Env, me: Self, n: Node, e: Event, tx: Transaction)
    requires LedgerRuns.Sound(env) && Inv(env, n) && tx in n.ledger.mempool
    ensures tx in Step(env, me, n, e).ledger.mempool || Owns(env, Step(env, me, n, e).ledger, tx)
    ensures e == Commit && n.pending.Some? && tx in n.pending.value.transactions ==>
              Owns(env, Step(env, me, n, e).ledger, tx)
  {
    match e {
      case Submit(other) =>
      case Snapshot(_) =>
      case Commit =>
        if n.pending.Some? {
          CommitKeepsPending(env, n.ledger, n.pending.value, tx);
        }
    }
  }

  /** Over whole runs: what was ever pending is pending still or bound to its claimant, and never lost. */
  lemma {:induction false} PendingOrBound(env: Env, me: Self, events: seq<Event>, more: seq<Event>, tx: Transaction)
    requires LedgerRuns.Sound(env) && Trusted(env, me)
    requires tx in Run(env, me, events).ledger.mempool || Owns(env, Run(env, me, events).ledger, tx)
    ensures var s := Run(env, me, events + more).ledger;
            tx in s.mempool || Owns(env, s, tx)
    ensures Owns(env, Run(env, me, events).ledger, tx) ==> Owns(env, Run(env, me, events + more).ledger, tx)
  {
    if more == [] {
      assert events + more == events;
    } else {
      var init, last := more[..|more| - 1], more[|more| - 1];
      assert events + more == (events + init) + [last];
      RunSnoc(env, me, events + init, last);
      PendingOrBound(env, me, events, init, tx);
      RunInv(env, me, events + init);
      var n := Run(env, me, events + init);
      if Owns(env, n.ledger, tx) {
        StepKeepsOwns(env, me, n, last, tx);
      } else {
        StepKeepsPending(env, me, n, last, tx);
      }
    }
  }

  /** With no block under way a snapshot and a commit bind all that is pending. */
  lemma {:induction false} SnapshotThenCommit(env: Env, me: Self, events: seq<Event>, timestamp: int, tx: Transaction)
    requires LedgerRuns.Sound(env) && Trusted(env, me) && tx in Run(env, me, events).ledger.mempool
    requires Run(env, me, events).pending.None?
    ensures Owns(env, Run(env, me, events + [Snapshot(timestamp)] + [Commit]).ledger, tx)
  {
    var taken := events + [Snapshot(timestamp)];
    RunSnoc(env, me, events, Snapshot(timestamp));
    RunSnoc(env, me, taken, Commit);
    RunInv(env, me, taken);
    StepKeepsPending(env, me, Run(env, me, taken), Commit, tx);
  }

  /** A pending transaction is bound by the next snapshot and commit, once a block under way is out of the way. */
  lemma {:induction false} NextRoundBinds(env: Env, me: Self, events: seq<Event>, timestamp: int, tx: Transaction)
    requires LedgerRuns.Sound(env) && Trusted(env, me) && tx in Run(env, me, events).ledger.mempool
    ensures Owns(env, Run(env, me, events + [Commit, Snapshot(timestamp), Commit]).ledger, tx)
  {
    var one, rest := events + [Commit], [Snapshot(timestamp), Commit];
    assert events + [Commit, Snapshot(timestamp), Commit] == one + rest;
    RunSnoc(env, me, events, Commit);
    RunInv(env, me, events);
    StepKeepsPending(env, me, Run(env, me, events), Commit, tx);
    if tx in Run(env, me, one).ledger.mempool {
      SnapshotThenCommit(env, me, one, timestamp, tx);
      assert one + rest == one + [Snapshot(timestamp)] + [Commit];
    } else {
      PendingOrBound(env, me, one, rest, tx);
    }
  }

  /**
   A standing claim whose ID and alias are not pending, once submitted, is bound to its key and peer ID
   by the next block, whatever the run before, and stays so through every later event.
   */
  lemma {:induction false} SubmittedIsBound(env: Env, me: Self, events: seq<Event>, tx: Transaction,
                                            between: seq<Event>, timestamp: int, more: seq<Event>)
    requires LedgerRuns.Sound(env) && Trusted(env, me)
    requires var s := Run(env, me, events).ledger;
             && LedgerOrigins.ClaimStands(env, s.names.aliases, tx)
             && forall i :: 0 <= i < |s.mempool| ==> !LedgerAnswers.Clashes(s.mempool[i], tx)
    ensures var round := [Commit, Snapshot(timestamp), Commit];
            Owns(env, Run(env, me, events + [Submit(tx)] + between + round + more).ledger, tx)
  {
    var submitted := events + [Submit(tx)];
    var later := submitted + between;
    var round := later + [Commit, Snapshot(timestamp), Commit];
    RunSnoc(env, me, events, Submit(tx));
    LedgerAnswers.SubmissionExactly(env, Run(env, me, events).ledger, tx);
    PendingOrBound(env, me, submitted, between, tx);
    if tx in Run(env, me, later).ledger.mempool {
      NextRoundBinds(env, me, later, timestamp, tx);
    } else {
      PendingOrBound(env, me, later, [Commit, Snapshot(timestamp), Commit], tx);
    }
    PendingOrBound(env, me, round, more, tx);
  }
}
