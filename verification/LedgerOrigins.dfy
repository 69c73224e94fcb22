/** What stands behind every stored header and every alias binding of a reachable ledger. */
module LedgerOrigins {
  import opened Prelude
  import opened Text
  import opened Ledger
  import opened LedgerRuns

  /** A listed validator stands behind the header: where its key is known, with a signature that verifies. */
  ghost predicate Authorised(env: Env, h: Header) {
    && h.validator in env.validators
    && (env.validatorKey(h.validator).Some? ==>
          env.decodeB64(h.signature).Some?
          && env.verify(env.validatorKey(h.validator).value, SignedText(h), env.decodeB64(h.signature).value))
  }

  /** The transaction claims `c` for the record's key, signed with that very key and paid for with work. */
  ghost predicate Claims(env: Env, tx: Transaction, c: string, r: AliasRecord) {
    && tx.txType == REGISTER_ALIAS && HasPrefix(tx.alias, "@") && AliasCoordinate(env, tx.alias) == c
    && KeyOf(env, tx) == Some(r.pubKey)
    && tx.ownerPeerId == r.peerId == env.peerIdOf(r.pubKey)
    && env.decodeB64(tx.signature).Some? && env.verify(r.pubKey, TxText(tx), env.decodeB64(tx.signature).value)
    && tx.powDifficulty >= MIN_DIFFICULTY && env.powSolved(TxBaseHash(env, tx), tx.powDifficulty, tx.powNonce)
    && tx.txId == TxId(env, tx)
  }

  /** Such a claim to an alias that is free, or bound to the claim's own key. */
  ghost predicate ClaimStands(env: Env, aliases: AliasStore, tx: Transaction) {
    var c := AliasCoordinate(env, tx.alias);
    exists r :: Claims(env, tx, c, r) && (c in aliases ==> aliases[c].pubKey == r.pubKey)
  }

  /** The checks one after the other come to just that. */
  lemma ValidExactly(env: Env, aliases: AliasStore, tx: Transaction)
    ensures VerifyTransaction(env, aliases, tx).None? <==> ClaimStands(env, aliases, tx)
  {
    if KeyOf(env, tx).Some? {
      var r := AliasRecord(tx.ownerPeerId, KeyOf(env, tx).value);
      assert VerifyTransaction(env, aliases, tx).None? ==> Claims(env, tx, AliasCoordinate(env, tx.alias), r);
    }
  }

  lemma {:induction false} AllStand(env: Env, aliases: AliasStore, txs: seq<Transaction>)
    ensures FirstBad(env, aliases, txs).None? <==> forall tx :: tx in txs ==> ClaimStands(env, aliases, tx)
    decreases |txs|
  {
    if txs != [] {
      AllStand(env, aliases, txs[1..]);
      ValidExactly(env, aliases, txs[0]);
      assert txs == [txs[0]] + txs[1..];
    }
  }

  /**
   A block is accepted if and only if it is the next one, made by a listed validator, correctly hashed,
   and each of its transactions is a signed and paid-for claim to a free alias or to one of its own.
   */
  lemma BlockAcceptedExactly(env: Env, s: State, b: Block)
    requires b.header.height > s.latestHeight
    ensures AddBlock(env, s, b).1.None? <==>
              && b.header.height == s.latestHeight + 1 && b.header.prevHash == s.latestHash
              && Authorised(env, b.header) && env.decodesPeer(b.header.validator)
              && b.hash == BlockHash(env, b.header)
              && forall tx :: tx in b.transactions ==> ClaimStands(env, s.names.aliases, tx)
  {
    AllStand(env, s.names.aliases, b.transactions);
  }

  ghost predicate ClaimedIn(env: Env, b: Block, c: string, r: AliasRecord) {
    exists tx :: tx in b.transactions && Claims(env, tx, c, r)
  }

  ghost predicate ClaimedSomewhere(env: Env, blocks: map<int, Block>, c: string, r: AliasRecord) {
    exists h :: h in blocks && ClaimedIn(env, blocks[h], c, r)
  }

  ghost predicate Origins(env: Env, s: State) {
    && (forall h :: h in s.blocks ==> Authorised(env, s.blocks[h].header))
    && (forall c :: c in s.names.aliases ==> ClaimedSomewhere(env, s.blocks, c, s.names.aliases[c]))
  }

  lemma {:induction false} LastForIn(env: Env, txs: seq<Transaction>, c: string)
    ensures LastFor(env, txs, c).Some? ==> LastFor(env, txs, c).value in txs
  {
    if txs != [] {
      LastForIn(env, txs[..|txs| - 1], c);
    }
  }

  /** A claim recorded by a block is one of the block's transactions. */
  lemma BlockClaims(env: Env, names: Names, b: Block, c: string)
    requires FirstBad(env, names.aliases, b.transactions).None?
    requires LastFor(env, b.transactions, c).Some?
    ensures var after := ApplyTransactions(env, names, b.transactions).aliases;
            c in after && ClaimedIn(env, b, c, after[c])
  {
    var tx := LastFor(env, b.transactions, c).value;
    BlockDecidesOwner(env, names, names.aliases, b.transactions, c);
    LastForIsGood(env, names.aliases, b.transactions, c);
    LastForIn(env, b.transactions, c);
    assert Claims(env, tx, c, AliasRecord(tx.ownerPeerId, KeyOf(env, tx).value));
  }

  /** Claims stay in the log when a row is added. */
  lemma ClaimKept(env: Env, blocks: map<int, Block>, height: int, b: Block, c: string, r: AliasRecord)
    requires height !in blocks
    requires ClaimedSomewhere(env, blocks, c, r) || ClaimedIn(env, b, c, r)
    ensures ClaimedSomewhere(env, blocks[height := b], c, r)
  {
    var after := blocks[height := b];
    if ClaimedIn(env, b, c, r) {
      assert after[height] == b;
    } else {
      var h :| h in blocks && ClaimedIn(env, blocks[h], c, r);
      assert after[h] == blocks[h];
    }
  }

  /** A new row at a free height, when each binding is an old one or claimed in that row. */
  lemma RowAdded(env: Env, s: State, b: Block, s': State)
    requires Origins(env, s) && b.header.height !in s.blocks && Authorised(env, b.header)
    requires s'.blocks == s.blocks[b.header.height := b]
    requires forall c :: c in s'.names.aliases ==>
               || ClaimedIn(env, b, c, s'.names.aliases[c])
               || (c in s.names.aliases && s.names.aliases[c] == s'.names.aliases[c])
    ensures Origins(env, s')
  {
    forall c | c in s'.names.aliases
      ensures ClaimedSomewhere(env, s'.blocks, c, s'.names.aliases[c])
    {
      ClaimKept(env, s.blocks, b.header.height, b, c, s'.names.aliases[c]);
    }
  }

  lemma FullStepKeepsOrigins(env: Env, s: State, b: Block)
    requires Sound(env) && Inv(env, s) && Origins(env, s)
    requires b.header.height == s.latestHeight + 1 && VerifyBlock(env, s, b).None?
    ensures Origins(env, AddBlock(env, s, b).0)
  {
    var s' := AddBlock(env, s, b).0;
    NothingEvicted(env, s, b);
    forall c | c in s'.names.aliases && !ClaimedIn(env, b, c, s'.names.aliases[c])
      ensures c in s.names.aliases && s.names.aliases[c] == s'.names.aliases[c]
    {
      BlockDecidesOwner(env, s.names, s.names.aliases, b.transactions, c);
      if LastFor(env, b.transactions, c).Some? {
        BlockClaims(env, s.names, b, c);
      }
    }
    RowAdded(env, s, b, s');
  }

  lemma HeaderStepKeepsOrigins(env: Env, s: State, hd: Header)
    requires Sound(env) && Inv(env, s) && Origins(env, s)
    requires hd.height == s.latestHeight + 1 && VerifyHeader(env, hd, s.latestHeight + 1, s.latestHash).None?
    ensures Origins(env, AddHeader(env, s, hd).0)
  {
    var b := Block(hd, [], BlockHash(env, hd));
    NothingEvicted(env, s, b);
    RowAdded(env, s, b, AddHeader(env, s, hd).0);
  }

  /**
   In every reachable ledger each stored header was made by a listed validator, and each alias goes
   back to a stored transaction signed by the very key it is bound to.
   */
  lemma {:induction false} EveryBindingHasItsClaim(env: Env, events: seq<Event>)
    requires Sound(env)
    ensures Origins(env, Run(env, events))
  {
    if events != [] {
      var init := events[..|events| - 1];
      var s, e := Run(env, init), events[|events| - 1];
      EveryBindingHasItsClaim(env, init);
      RunInv(env, init);
      if e.Full? && e.block.header.height == s.latestHeight + 1 && VerifyBlock(env, s, e.block).None? {
        FullStepKeepsOrigins(env, s, e.block);
      } else if e.HeaderOnly? && e.header.height == s.latestHeight + 1
                && VerifyHeader(env, e.header, s.latestHeight + 1, s.latestHash).None? {
        HeaderStepKeepsOrigins(env, s, e.header);
      }
    }
  }
}
