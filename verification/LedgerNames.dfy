/** The two tables of the alias state against each other: who owns an alias, and which alias a key stands for. */
module LedgerNames {
  import opened Prelude
  import opened Text
  import opened Ledger
  import opened LedgerRuns
  import opened LedgerClaims

  predicate Registers(env: Env, tx: Transaction) {
    tx.txType == REGISTER_ALIAS && KeyOf(env, tx).Some?
  }

  /** The key of a registration as the owner table spells it. */
  function KeyText(env: Env, tx: Transaction): string
    requires Registers(env, tx)
  {
    env.encodeB64(env.decodeB64(tx.pubKeyB64).value)
  }

  /** The last registration with this coordinate, and the last one with this key. */
  function LastClaim(env: Env, txs: seq<Transaction>, c: string): Option<Transaction> {
    if txs == [] then None
    else if Registers(env, txs[|txs| - 1]) && AliasCoordinate(env, txs[|txs| - 1].alias) == c then Some(txs[|txs| - 1])
    else LastClaim(env, txs[..|txs| - 1], c)
  }

  function LastOfKey(env: Env, txs: seq<Transaction>, k: string): Option<Transaction> {
    if txs == [] then None
    else if Registers(env, txs[|txs| - 1]) && KeyText(env, txs[|txs| - 1]) == k then Some(txs[|txs| - 1])
    else LastOfKey(env, txs[..|txs| - 1], k)
  }

  /**
   What any list of transactions, good or not, does to the two tables: an alias goes to the last
   registration of its coordinate, and a key stands for the alias of its own last registration; whatever
   is no registration, or does not decode, counts for nothing.
   */
  lemma {:induction false} NamesExactly(env: Env, names: Names, txs: seq<Transaction>, c: string, k: string)
    ensures var after := ApplyTransactions(env, names, txs).aliases;
            match LastClaim(env, txs, c)
            case Some(tx) => Registers(env, tx) && c in after
                             && after[c] == AliasRecord(tx.ownerPeerId, KeyOf(env, tx).value)
            case None => (c in after <==> c in names.aliases) && (c in after ==> after[c] == names.aliases[c])
    ensures var after := ApplyTransactions(env, names, txs).owners;
            match LastOfKey(env, txs, k)
            case Some(tx) => k in after && after[k] == tx.alias
            case None => (k in after <==> k in names.owners) && (k in after ==> after[k] == names.owners[k])
  {
    if txs != [] {
      NamesExactly(env, names, txs[..|txs| - 1], c, k);
    }
  }

  /** `k` is how the owner table spells the key. */
  ghost predicate Spells(env: Env, k: string, key: PubKey) {
    exists bytes :: env.encodeB64(bytes) == k && env.unmarshalKey(bytes) == Some(key)
  }

  /** The alias that a key stands for is the key's own. */
  ghost predicate OwnAlias(env: Env, names: Names, k: string) {
    k in names.owners ==>
      var c := AliasCoordinate(env, names.owners[k]);
      c in names.aliases && Spells(env, k, names.aliases[c].pubKey)
  }

  ghost predicate OwnersAgree(env: Env, names: Names) {
    forall k :: OwnAlias(env, names, k)
  }

  /** Base64 text determines the bytes, and so the key. */
  ghost predicate ExactBase64(env: Env) {
    forall b: string :: env.decodeB64(env.encodeB64(b)) == Some(b)
  }

  /** The last claim to the alias of a key's own last claim carries the same key. */
  ghost predicate KeepsItsAlias(env: Env, txs: seq<Transaction>, k: string) {
    match LastOfKey(env, txs, k)
    case None => true
    case Some(tx) =>
      var last := LastClaim(env, txs, AliasCoordinate(env, tx.alias));
      last.Some? && KeyOf(env, last.value) == KeyOf(env, tx)
  }

  lemma {:induction false} LastOnes(env: Env, txs: seq<Transaction>, c: string, k: string)
    ensures var tx := LastClaim(env, txs, c);
            tx.Some? ==> tx.value in txs && Registers(env, tx.value) && AliasCoordinate(env, tx.value.alias) == c
    ensures var tx := LastOfKey(env, txs, k);
            tx.Some? ==> tx.value in txs && Registers(env, tx.value) && KeyText(env, tx.value) == k
                         && LastClaim(env, txs, AliasCoordinate(env, tx.value.alias)).Some?
  {
    if txs != [] {
      LastOnes(env, txs[..|txs| - 1], c, k);
      assert forall tx :: tx in txs[..|txs| - 1] ==> tx in txs;
    }
  }

  lemma SpellsExactly(env: Env, tx: Transaction, key: PubKey)
    requires Registers(env, tx) && ExactBase64(env)
    ensures Spells(env, KeyText(env, tx), key) <==> KeyOf(env, tx) == Some(key)
  {
    var mine := env.decodeB64(tx.pubKeyB64).value;
    if bytes :| env.encodeB64(bytes) == KeyText(env, tx) && env.unmarshalKey(bytes) == Some(key) {
      assert env.decodeB64(env.encodeB64(bytes)) == env.decodeB64(env.encodeB64(mine));
    }
  }

  /** A verified registration of an alias that is taken carries the key it is bound to. */
  lemma {:induction false} VerifiedOnes(env: Env, aliases: AliasStore, txs: seq<Transaction>)
    requires FirstBad(env, aliases, txs).None?
    ensures forall tx :: tx in txs ==>
              var c := AliasCoordinate(env, tx.alias);
              Registers(env, tx) && (c in aliases ==> KeyOf(env, tx) == Some(aliases[c].pubKey))
  {
    forall tx | tx in txs
      ensures var c := AliasCoordinate(env, tx.alias);
              Registers(env, tx) && (c in aliases ==> KeyOf(env, tx) == Some(aliases[c].pubKey))
    {
      var i :| 0 <= i < |txs| && txs[i] == tx;
      AllGood(env, aliases, txs, i);
    }
  }

  /** One key of the owner table after a block. */
  lemma OwnAliasAfter(env: Env, names: Names, txs: seq<Transaction>, k: string)
    requires ExactBase64(env) && OwnAlias(env, names, k) && FirstBad(env, names.aliases, txs).None?
    ensures OwnAlias(env, ApplyTransactions(env, names, txs), k) <==> KeepsItsAlias(env, txs, k)
  {
    VerifiedOnes(env, names.aliases, txs);
    LastOnes(env, txs, "", k);
    match LastOfKey(env, txs, k) {
      case Some(tx) =>
        var c := AliasCoordinate(env, tx.alias);
        NamesExactly(env, names, txs, c, k);
        SpellsExactly(env, tx, KeyOf(env, LastClaim(env, txs, c).value).value);
      case None =>
        if k in names.owners {
          var c := AliasCoordinate(env, names.owners[k]);
          NamesExactly(env, names, txs, c, k);
          LastOnes(env, txs, c, k);
        } else {
          NamesExactly(env, names, txs, "", k);
        }
    }
  }

  /**
   An accepted block leaves the two tables in agreement, every key standing for an alias that is bound to
   it, if and only if the last claim to the alias of each key's last claim carries that key as well.
   */
  lemma OwnersAgreeExactly(env: Env, s: State, b: Block)
    requires ExactBase64(env) && OwnersAgree(env, s.names)
    requires AddBlock(env, s, b).1.None? && b.header.height > s.latestHeight
    ensures OwnersAgree(env, AddBlock(env, s, b).0.names) <==> forall k :: KeepsItsAlias(env, b.transactions, k)
  {
    forall k
      ensures OwnAlias(env, AddBlock(env, s, b).0.names, k) <==> KeepsItsAlias(env, b.transactions, k)
    {
      assert OwnAlias(env, s.names, k);
      OwnAliasAfter(env, s.names, b.transactions, k);
    }
  }

  /** All claims of the block to one alias carry one key. */
  ghost predicate OneKeyPerAlias(env: Env, txs: seq<Transaction>) {
    forall tx, other :: tx in txs && other in txs && AliasCoordinate(env, tx.alias) == AliasCoordinate(env, other.alias)
      ==> KeyOf(env, tx) == KeyOf(env, other)
  }

  /** Over whole runs whose blocks have one key for each alias, the two tables agree in every state. */
  lemma {:induction false} OwnersAgreeAlways(env: Env, events: seq<Event>)
    requires ExactBase64(env)
    requires forall i :: 0 <= i < |events| && events[i].Full? ==> OneKeyPerAlias(env, events[i].block.transactions)
    ensures OwnersAgree(env, Run(env, events).names)
  {
    if events != [] {
      var s, e := Run(env, events[..|events| - 1]), events[|events| - 1];
      OwnersAgreeAlways(env, events[..|events| - 1]);
      if e.Full? && e.block.header.height > s.latestHeight && AddBlock(env, s, e.block).1.None? {
        forall k
          ensures KeepsItsAlias(env, e.block.transactions, k)
        {
          OneKeyKeeps(env, e.block.transactions, k);
        }
        OwnersAgreeExactly(env, s, e.block);
      }
    }
  }

  lemma OneKeyKeeps(env: Env, txs: seq<Transaction>, k: string)
    requires OneKeyPerAlias(env, txs)
    ensures KeepsItsAlias(env, txs, k)
  {
    LastOnes(env, txs, "", k);
    match LastOfKey(env, txs, k) {
      case None =>
      case Some(tx) => LastOnes(env, txs, AliasCoordinate(env, tx.alias), k);
    }
  }

  lemma PlainOwners()
    ensures LastOfKey(PlainEnv(), PlainBlock().transactions, "first") == Some(PlainClaim("first"))
  {
    var env, txs := PlainEnv(), PlainBlock().transactions;
    assert txs[..1] == [PlainClaim("first")] && txs[1] == PlainClaim("second");
    assert "first"[0] != "second"[0];
    assert KeyText(env, txs[1]) == "second" && KeyText(env, txs[0]) == "first";
  }

  lemma PlainSpelling()
    ensures !Spells(PlainEnv(), "first", "second")
  {
    assert "first"[0] != "second"[0];
  }

  /** The first block of a ledger whose last claim for `k` has lost its alias to another key. */
  lemma LostAlias(env: Env, b: Block, k: string)
    requires AddBlock(env, EMPTY, b).1.None? && b.header.height >= 0 && LastOfKey(env, b.transactions, k).Some?
    requires var c := AliasCoordinate(env, LastOfKey(env, b.transactions, k).value.alias);
             c in Run(env, [Full(b)]).names.aliases && !Spells(env, k, Run(env, [Full(b)]).names.aliases[c].pubKey)
    ensures var names := Run(env, [Full(b)]).names;
            && !OwnersAgree(env, names)
            && k in names.owners && names.owners[k] == LastOfKey(env, b.transactions, k).value.alias
  {
    assert [] + [Full(b)] == [Full(b)];
    RunSnoc(env, [], Full(b));
    NamesExactly(env, EMPTY.names, b.transactions, "", k);
    assert !OwnAlias(env, Run(env, [Full(b)]).names, k);
  }

  /** One input where they do not: in the contested block the first claimant's key stands for the second one's alias. */
  lemma {:induction false} OwnersDisagreeExample()
    ensures ExactBase64(PlainEnv())
    ensures var names := Run(PlainEnv(), [Full(PlainBlock())]).names;
            && !OwnersAgree(PlainEnv(), names)
            && "first" in names.owners && names.owners["first"] == "@alice"
            && var c := AliasCoordinate(PlainEnv(), "@alice");
               c in names.aliases && names.aliases[c].pubKey == "second"
  {
    ContestedBlockExample([]);
    assert [Full(PlainBlock())] + [] == [Full(PlainBlock())];
    PlainOwners();
    PlainSpelling();
    LostAlias(PlainEnv(), PlainBlock(), "first");
  }
}
