/** What a caller of the ledger is told, and what it then finds: acceptance, refusal and effect, exactly. */
module LedgerAnswers {
  import opened Prelude
  import opened Text
  import opened Ledger
  import opened LedgerRuns
  import opened LedgerOrigins

  // ---------------------------------------------------------------- submissions

  predicate Clashes(pending: Transaction, tx: Transaction) {
    pending.txId == tx.txId || pending.alias == tx.alias
  }

  /** The i-th pending transaction is the first one with the ID or the alias of `tx`. */
  ghost predicate FirstClash(mempool: seq<Transaction>, tx: Transaction, i: int) {
    0 <= i < |mempool| && Clashes(mempool[i], tx) && forall j :: 0 <= j < i ==> !Clashes(mempool[j], tx)
  }

  lemma {:induction false} ClashExactly(mempool: seq<Transaction>, tx: Transaction)
    ensures FindClash(mempool, tx).NoClash? <==> forall i :: 0 <= i < |mempool| ==> !Clashes(mempool[i], tx)
    ensures forall i :: FirstClash(mempool, tx, i) ==>
              FindClash(mempool, tx) == if mempool[i].txId == tx.txId then SameId else SameAlias
  {
    if mempool != [] {
      var rest := mempool[1..];
      ClashExactly(rest, tx);
      assert forall i :: 0 <= i < |rest| ==> rest[i] == mempool[i + 1];
      forall i | FirstClash(mempool, tx, i) && i > 0
        ensures FindClash(mempool, tx) == if mempool[i].txId == tx.txId then SameId else SameAlias
      {
        assert !Clashes(mempool[0], tx);
        assert FirstClash(rest, tx, i - 1);
      }
      if FindClash(mempool, tx).NoClash? {
        forall i | 0 <= i < |mempool|
          ensures !Clashes(mempool[i], tx)
        {
          if i > 0 {
            assert !Clashes(rest[i - 1], tx);
          }
        }
      }
    }
  }

  /**
   A transaction is taken, at the end of the mempool, if and only if it is a standing claim and no pending
   one has its ID or its alias; of those that do the first one decides whether that is an error.  In every
   other case nothing changes.
   */
  lemma SubmissionExactly(env: Env, s: State, tx: Transaction)
    ensures var (s', error) := AddToMempool(env, s, tx);
            if !ClaimStands(env, s.names.aliases, tx) then
              s' == s && error.Some? && error.value.BadTransaction?
            else if forall i :: 0 <= i < |s.mempool| ==> !Clashes(s.mempool[i], tx) then
              s' == s.(mempool := s.mempool + [tx]) && error.None?
            else
              s' == s && exists i :: FirstClash(s.mempool, tx, i)
                                     && error == if s.mempool[i].txId == tx.txId then None else Some(AliasPending)
  {
    ValidExactly(env, s.names.aliases, tx);
    ClashExactly(s.mempool, tx);
    if i :| 0 <= i < |s.mempool| && Clashes(s.mempool[i], tx) {
      var k := FirstClashing(s.mempool, tx, i);
    }
  }

  lemma {:induction false} FirstClashing(mempool: seq<Transaction>, tx: Transaction, i: nat) returns (k: nat)
    requires i < |mempool| && Clashes(mempool[i], tx)
    ensures FirstClash(mempool, tx, k)
  {
    k := i;
    if j :| 0 <= j < i && Clashes(mempool[j], tx) {
      k := FirstClashing(mempool, tx, j);
    }
  }

  /** The order of the checks. */
  function Rank(e: TxError): nat {
    match e
    case BadType => 0
    case BadAlias => 1
    case BadKeyEncoding => 2
    case BadKey => 3
    case OwnerMismatch => 4
    case BadTxSigEncoding => 5
    case BadTxSignature => 6
    case LowDifficulty => 7
    case BadPoW => 8
    case BadTxId => 9
    case AliasTaken => 10
  }

  /** What each error says of the transaction. */
  ghost predicate Fails(env: Env, aliases: AliasStore, tx: Transaction, e: TxError) {
    match e
    case BadType => tx.txType != REGISTER_ALIAS
    case BadAlias => !HasPrefix(tx.alias, "@")
    case BadKeyEncoding => env.decodeB64(tx.pubKeyB64).None?
    case BadKey => KeyOf(env, tx).None?
    case OwnerMismatch => KeyOf(env, tx).Some? && env.peerIdOf(KeyOf(env, tx).value) != tx.ownerPeerId
    case BadTxSigEncoding => env.decodeB64(tx.signature).None?
    case BadTxSignature => KeyOf(env, tx).Some? && env.decodeB64(tx.signature).Some?
                           && !env.verify(KeyOf(env, tx).value, TxText(tx), env.decodeB64(tx.signature).value)
    case LowDifficulty => tx.powDifficulty < MIN_DIFFICULTY
    case BadPoW => !env.powSolved(TxBaseHash(env, tx), tx.powDifficulty, tx.powNonce)
    case BadTxId => tx.txId != TxId(env, tx)
    case AliasTaken => KeyOf(env, tx).Some? && AliasCoordinate(env, tx.alias) in aliases
                       && aliases[AliasCoordinate(env, tx.alias)].pubKey != KeyOf(env, tx).value
  }

  /** A transaction is refused with an error if and only if that check is the first one it fails. */
  lemma RefusedForFirstFailure(env: Env, aliases: AliasStore, tx: Transaction, e: TxError)
    ensures VerifyTransaction(env, aliases, tx) == Some(e)
            <==> Fails(env, aliases, tx, e) && forall f :: Rank(f) < Rank(e) ==> !Fails(env, aliases, tx, f)
  {
    var r := VerifyTransaction(env, aliases, tx);
    if r.Some? {
      assert Fails(env, aliases, tx, r.value);
      assert forall f :: Rank(f) < Rank(r.value) ==> !Fails(env, aliases, tx, f);
    }
  }

  // ---------------------------------------------------------------- headers

  /** The next header of a chain with this tip, made by a listed validator. */
  ghost predicate HeaderFits(env: Env, s: State, h: Header) {
    && h.height == s.latestHeight + 1 && h.prevHash == s.latestHash
    && Authorised(env, h) && env.decodesPeer(h.validator)
  }

  /**
   Above the tip a header is accepted if and only if it fits; then it is the new tip, stored without
   transactions, and names and mempool are as they were.  Otherwise nothing changes.
   */
  lemma HeaderAcceptedExactly(env: Env, s: State, h: Header)
    requires h.height > s.latestHeight
    ensures var (s', error) := AddHeader(env, s, h);
            && (error.None? <==> HeaderFits(env, s, h))
            && (error.Some? ==> s' == s)
            && (error == Some(InFuture) <==> h.height > s.latestHeight + 1)
            && (error.None? ==>
                  && s'.latestHeight == h.height && s'.latestHash == BlockHash(env, h)
                  && h.height in s'.blocks && s'.blocks[h.height] == Block(h, [], BlockHash(env, h))
                  && s'.names == s.names && s'.mempool == s.mempool)
  {
  }

  /**
   At or below the tip of a reachable ledger nothing changes, and double signing is reported if and only
   if the header's text is not that of the header stored there; ...
   */
  lemma {:induction false} HeaderComparedExactly(env: Env, events: seq<Event>, h: Header)
    requires Sound(env) && h.height <= Run(env, events).latestHeight
    ensures var s := Run(env, events);
            AddHeader(env, s, h)
            == (s, if h.height in s.blocks && HeaderText(s.blocks[h.height].header) != HeaderText(h)
                   then Some(DoubleSigning) else None)
  {
    RunInv(env, events);
    var s := Run(env, events);
    if h.height in s.blocks {
      assert RowOK(env, s.blocks, h.height);
      assert HashText(env.sha(HeaderText(s.blocks[h.height].header)));
      assert !Collide(env, HeaderText(s.blocks[h.height].header), HeaderText(h));
    }
  }

  /** ... for a header whose previous hash and validator have no colon, if and only if it is another header. */
  lemma {:induction false} DoubleSigningExactly(env: Env, events: seq<Event>, h: Header)
    requires Sound(env) && 0 <= h.height <= Run(env, events).latestHeight
    requires ':' !in h.prevHash && ':' !in h.validator
    ensures var s := Run(env, events);
            && h.height in s.blocks
            && AddHeader(env, s, h) == (s, if s.blocks[h.height].header != h then Some(DoubleSigning) else None)
  {
    RunInv(env, events);
    var s := Run(env, events);
    HeaderComparedExactly(env, events, h);
    assert RowOK(env, s.blocks, h.height);
    PrevHashHasNoColon(env, s, h.height);
    if HeaderText(s.blocks[h.height].header) == HeaderText(h) {
      HeaderTextInjective(s.blocks[h.height].header, h);
    }
  }

  /** The order of a header's checks, and what each error says. */
  function HeaderRank(e: Error): nat {
    match e
    case WrongHeight => 0
    case WrongPrev => 1
    case UnknownValidator => 2
    case BadValidatorId => 3
    case BadSigEncoding => 4
    case BadSignature => 5
    case _ => 6
  }

  ghost predicate HeaderFails(env: Env, h: Header, height: int, prevHash: string, e: Error) {
    match e
    case WrongHeight => h.height != height
    case WrongPrev => h.prevHash != prevHash
    case UnknownValidator => h.validator !in env.validators
    case BadValidatorId => !env.decodesPeer(h.validator)
    case BadSigEncoding => env.validatorKey(h.validator).Some? && env.decodeB64(h.signature).None?
    case BadSignature =>
      env.validatorKey(h.validator).Some? && env.decodeB64(h.signature).Some?
      && !env.verify(env.validatorKey(h.validator).value, SignedText(h), env.decodeB64(h.signature).value)
    case _ => false
  }

  /** A header is refused with an error if and only if that check is the first one it fails. */
  lemma HeaderRefusedForFirstFailure(env: Env, h: Header, height: int, prevHash: string, e: Error)
    ensures VerifyHeader(env, h, height, prevHash) == Some(e)
            <==> HeaderFails(env, h, height, prevHash, e)
                 && forall f :: HeaderRank(f) < HeaderRank(e) ==> !HeaderFails(env, h, height, prevHash, f)
  {
    var r := VerifyHeader(env, h, height, prevHash);
    if r.Some? {
      assert HeaderFails(env, h, height, prevHash, r.value);
      assert forall f :: HeaderRank(f) < HeaderRank(r.value) ==> !HeaderFails(env, h, height, prevHash, f);
    }
  }

  // ---------------------------------------------------------------- blocks

  /** The i-th transaction of a block is the first one that does not verify. */
  ghost predicate FirstRefused(env: Env, aliases: AliasStore, txs: seq<Transaction>, i: int) {
    && 0 <= i < |txs| && VerifyTransaction(env, aliases, txs[i]).Some?
    && forall j :: 0 <= j < i ==> VerifyTransaction(env, aliases, txs[j]).None?
  }

  lemma {:induction false} FirstBadExactly(env: Env, aliases: AliasStore, txs: seq<Transaction>, i: int)
    requires FirstRefused(env, aliases, txs, i)
    ensures FirstBad(env, aliases, txs) == VerifyTransaction(env, aliases, txs[i])
    decreases |txs|
  {
    if i > 0 {
      assert VerifyTransaction(env, aliases, txs[0]).None?;
      assert forall j :: 0 <= j < |txs[1..]| ==> txs[1..][j] == txs[j + 1];
      FirstBadExactly(env, aliases, txs[1..], i - 1);
    }
  }

  /** The next block with a good header and hash is refused for its first transaction that does not verify. */
  lemma {:induction false} BlockRefusedForFirstBad(env: Env, s: State, b: Block, i: int)
    requires HeaderFits(env, s, b.header) && FirstRefused(env, s.names.aliases, b.transactions, i)
    ensures AddBlock(env, s, b)
            == (s, Some(if b.hash != BlockHash(env, b.header) then BadHash
                        else BadTransaction(VerifyTransaction(env, s.names.aliases, b.transactions[i]).value)))
  {
    FirstBadExactly(env, s.names.aliases, b.transactions, i);
  }

  /** `kept` lists in order the places of exactly those transactions whose ID is not in the block; they make `rest`. */
  ghost predicate Keeps(mempool: seq<Transaction>, txs: seq<Transaction>, kept: seq<nat>, rest: seq<Transaction>) {
    && |rest| == |kept|
    && (forall j :: 0 <= j < |kept| ==> kept[j] < |mempool| && rest[j] == mempool[kept[j]])
    && (forall i, j :: 0 <= i < j < |kept| ==> kept[i] < kept[j])
    && (forall i: nat :: i in kept <==> i < |mempool| && !Contains(txs, mempool[i].txId))
  }

  lemma KeepsSnoc(mempool: seq<Transaction>, txs: seq<Transaction>, kept: seq<nat>, rest: seq<Transaction>,
                  tx: Transaction)
    requires Keeps(mempool, txs, kept, rest)
    ensures Contains(txs, tx.txId) ==> Keeps(mempool + [tx], txs, kept, rest)
    ensures !Contains(txs, tx.txId) ==> Keeps(mempool + [tx], txs, kept + [|mempool|], rest + [tx])
  {
    forall i: nat
      ensures i in kept + [|mempool|] <==> i in kept || i == |mempool|
    {
      assert (kept + [|mempool|])[|kept|] == |mempool|;
    }
  }

  /** What is left of the mempool: exactly the transactions whose ID is not in the block, in their order. */
  lemma {:induction false} RemainingExactly(mempool: seq<Transaction>, txs: seq<Transaction>) returns (kept: seq<nat>)
    ensures Keeps(mempool, txs, kept, Remaining(mempool, txs))
  {
    if mempool == [] {
      kept := [];
    } else {
      var init, last := mempool[..|mempool| - 1], mempool[|mempool| - 1];
      kept := RemainingExactly(init, txs);
      KeepsSnoc(init, txs, kept, Remaining(init, txs), last);
      assert mempool == init + [last];
      assert Remaining(init, txs) + [] == Remaining(init, txs);
      if !Contains(txs, last.txId) {
        kept := kept + [|init|];
      }
    }
  }

  /**
   The effect of an accepted block on everything but the names, and that a refused or old one has none.
   */
  lemma BlockEffect(env: Env, s: State, b: Block)
    ensures var (s', error) := AddBlock(env, s, b);
            if error.Some? || b.header.height <= s.latestHeight then s' == s
            else
              && s'.latestHeight == b.header.height && s'.latestHash == b.hash
              && b.header.height in s'.blocks && s'.blocks[b.header.height] == b
              && s'.mempool == Remaining(s.mempool, b.transactions)
              && s'.names == ApplyTransactions(env, s.names, b.transactions)
    ensures AddBlock(env, s, b).1 == Some(InFuture) <==> b.header.height > s.latestHeight + 1
  {
  }
}
