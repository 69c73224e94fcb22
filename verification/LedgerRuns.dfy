/** Every run of the alias ledger: the linked log, replay, ownership, and the tip that fixes the past. */
module LedgerRuns {
  import opened Prelude
  import opened Text
  import opened Ledger

  datatype Event = Full(block: Block) | HeaderOnly(header: Header) | Submit(tx: Transaction)

  function Step(env: Env, s: State, e: Event): State {
    match e
    case Full(b) => AddBlock(env, s, b).0
    case HeaderOnly(h) => AddHeader(env, s, h).0
    case Submit(tx) => AddToMempool(env, s, tx).0
  }

  function Run(env: Env, events: seq<Event>): State {
    if events == [] then EMPTY
    else Step(env, Run(env, events[..|events| - 1]), events[|events| - 1])
  }

  predicate Collide(env: Env, x: string, y: string) {
    x != y && env.sha(x) == env.sha(y)
  }

  predicate HashText(s: string) {
    s != "" && ':' !in s
  }

  /**
   What is assumed of the libraries: SHA-256 has no collisions, its hexadecimal text is not empty and
   has no colon, and neither has a string that decodes as a peer ID.
   */
  ghost predicate Sound(env: Env) {
    && (forall x, y :: !Collide(env, x, y))
    && (forall x :: HashText(env.sha(x)))
    && (forall v :: env.decodesPeer(v) ==> ':' !in v)
  }

  // ---------------------------------------------------------------- the log

  ghost predicate RowOK(env: Env, blocks: map<int, Block>, h: int)
    requires h in blocks
  {
    var b := blocks[h];
    && b.header.height == h
    && b.hash == BlockHash(env, b.header)
    && ':' !in b.header.validator
    && b.header.prevHash == (if h == 0 then "" else if h - 1 in blocks then blocks[h - 1].hash else "?")
  }

  /** The stored log is linked from height 0 to the tip, with no gap and nothing beyond. */
  ghost predicate LogOK(env: Env, s: State) {
    && s.latestHeight >= -1
    && (forall h :: h in s.blocks <==> 0 <= h <= s.latestHeight)
    && (forall h {:trigger RowOK(env, s.blocks, h)} :: h in s.blocks ==> RowOK(env, s.blocks, h))
    && s.latestHash == (if s.latestHeight == -1 then "" else s.blocks[s.latestHeight].hash)
  }

  ghost predicate Inv(env: Env, s: State) {
    && LogOK(env, s)
    && s.names == Replayed(env, s.blocks, s.latestHeight + 1)
    && PeerIdsDerived(env, s.names.aliases)
  }

  /** The five fields of a header text, read back. */
  lemma HeaderTextReads(h: Header)
    requires ':' !in h.prevHash && ':' !in h.validator
    ensures SplitN(HeaderText(h), ':', 5)
         == [Decimal(h.height), h.prevHash, Decimal(h.timestamp), h.validator, h.signature]
  {
    var fields := [Decimal(h.height), h.prevHash, Decimal(h.timestamp), h.validator];
    DecimalHasNo(h.height, ':');
    DecimalHasNo(h.timestamp, ':');
    SplitFields(fields, ':', h.signature);
  }

  /** The colon-separated header text can be read back in one way only. */
  lemma HeaderTextInjective(a: Header, b: Header)
    requires HeaderText(a) == HeaderText(b)
    requires ':' !in a.prevHash && ':' !in a.validator && ':' !in b.prevHash && ':' !in b.validator
    ensures a == b
  {
    HeaderTextReads(a);
    HeaderTextReads(b);
    DecimalInjective(a.height, b.height);
    DecimalInjective(a.timestamp, b.timestamp);
  }

  lemma PrevHashHasNoColon(env: Env, s: State, h: int)
    requires Sound(env) && LogOK(env, s) && h in s.blocks
    ensures ':' !in s.blocks[h].header.prevHash
  {
    assert RowOK(env, s.blocks, h);
    if h > 0 {
      assert RowOK(env, s.blocks, h - 1);
    }
  }

  /** Storing an accepted block evicts no older row, although the hash column is unique. */
  lemma NothingEvicted(env: Env, s: State, b: Block)
    requires Sound(env) && LogOK(env, s)
    requires VerifyHeader(env, b.header, s.latestHeight + 1, s.latestHash).None? && b.hash == BlockHash(env, b.header)
    ensures SaveBlock(s.blocks, b) == s.blocks[b.header.height := b]
  {
    forall h | h in s.blocks
      ensures s.blocks[h].hash != b.hash
    {
      assert RowOK(env, s.blocks, h);
      PrevHashHasNoColon(env, s, h);
      if s.latestHeight >= 0 {
        assert RowOK(env, s.blocks, s.latestHeight);
      }
      assert !Collide(env, HeaderText(s.blocks[h].header), HeaderText(b.header));
      if s.blocks[h].hash == b.hash {
        HeaderTextInjective(s.blocks[h].header, b.header);
      }
    }
  }

  /** An accepted block or header extends the log by one row at the next height. */
  lemma ExtendsLog(env: Env, s: State, b: Block, names: Names, mempool: seq<Transaction>)
    requires Sound(env) && LogOK(env, s)
    requires VerifyHeader(env, b.header, s.latestHeight + 1, s.latestHash).None? && b.hash == BlockHash(env, b.header)
    ensures LogOK(env, State(b.header.height, b.hash, SaveBlock(s.blocks, b), names, mempool))
  {
    NothingEvicted(env, s, b);
    var blocks := s.blocks[b.header.height := b];
    forall h | h in blocks
      ensures RowOK(env, blocks, h)
    {
      RowStays(env, s, b, h);
    }
    RowsMakeLog(env, s, b, blocks, names, mempool);
  }

  lemma RowsMakeLog(env: Env, s: State, b: Block, blocks: map<int, Block>, names: Names, mempool: seq<Transaction>)
    requires LogOK(env, s) && b.header.height == s.latestHeight + 1 && blocks == s.blocks[b.header.height := b]
    requires forall h {:trigger RowOK(env, blocks, h)} :: h in blocks ==> RowOK(env, blocks, h)
    ensures LogOK(env, State(b.header.height, b.hash, blocks, names, mempool))
  {
  }

  lemma RowStays(env: Env, s: State, b: Block, h: int)
    requires Sound(env) && LogOK(env, s) && h in s.blocks[b.header.height := b]
    requires VerifyHeader(env, b.header, s.latestHeight + 1, s.latestHash).None? && b.hash == BlockHash(env, b.header)
    ensures RowOK(env, s.blocks[b.header.height := b], h)
  {
    if h <= s.latestHeight {
      assert RowOK(env, s.blocks, h);
    }
  }

  /** Every recorded peer ID is the one its recorded key derives. */
  ghost predicate PeerIdsDerived(env: Env, aliases: AliasStore) {
    forall c :: c in aliases ==> aliases[c].peerId == env.peerIdOf(aliases[c].pubKey)
  }

  lemma {:induction false} OwnersDerived(env: Env, names: Names, txs: seq<Transaction>, aliases: AliasStore)
    requires FirstBad(env, aliases, txs).None? && PeerIdsDerived(env, names.aliases)
    ensures PeerIdsDerived(env, ApplyTransactions(env, names, txs).aliases)
  {
    if txs != [] {
      AllGood(env, aliases, txs, |txs| - 1);
      AllGoodPrefix(env, aliases, txs);
      OwnersDerived(env, names, txs[..|txs| - 1], aliases);
      OwnerDerived(env, ApplyTransactions(env, names, txs[..|txs| - 1]), txs[|txs| - 1], aliases);
    }
  }

  lemma OwnerDerived(env: Env, names: Names, tx: Transaction, aliases: AliasStore)
    requires VerifyTransaction(env, aliases, tx).None? && PeerIdsDerived(env, names.aliases)
    ensures PeerIdsDerived(env, ApplyTransaction(env, names, tx).aliases)
  {
  }

  lemma {:induction false} AllGood(env: Env, aliases: AliasStore, txs: seq<Transaction>, i: nat)
    requires FirstBad(env, aliases, txs).None? && i < |txs|
    ensures VerifyTransaction(env, aliases, txs[i]).None?
  {
    if i > 0 {
      AllGood(env, aliases, txs[1..], i - 1);
    }
  }

  lemma {:induction false} GoodIfAll(env: Env, aliases: AliasStore, txs: seq<Transaction>)
    requires forall i :: 0 <= i < |txs| ==> VerifyTransaction(env, aliases, txs[i]).None?
    ensures FirstBad(env, aliases, txs).None?
  {
    if txs != [] {
      GoodIfAll(env, aliases, txs[1..]);
    }
  }

  lemma AllGoodPrefix(env: Env, aliases: AliasStore, txs: seq<Transaction>)
    requires FirstBad(env, aliases, txs).None? && txs != []
    ensures FirstBad(env, aliases, txs[..|txs| - 1]).None?
  {
    var init := txs[..|txs| - 1];
    forall i | 0 <= i < |init|
      ensures VerifyTransaction(env, aliases, init[i]).None?
    {
      AllGood(env, aliases, txs, i);
    }
    GoodIfAll(env, aliases, init);
  }

  /** The replayed alias state grows with the log. */
  lemma ReplayedSnoc(env: Env, blocks: map<int, Block>, n: nat, b: Block)
    requires forall h :: 0 <= h < n ==> h in blocks
    ensures Replayed(env, blocks[n := b], n + 1) == ApplyTransactions(env, Replayed(env, blocks, n), b.transactions)
  {
    ReplayedDepends(env, blocks, blocks[n := b], n);
  }

  lemma ReplayGrows(env: Env, s: State, b: Block)
    requires Sound(env) && LogOK(env, s) && s.names == Replayed(env, s.blocks, s.latestHeight + 1)
    requires VerifyHeader(env, b.header, s.latestHeight + 1, s.latestHash).None? && b.hash == BlockHash(env, b.header)
    ensures b.header.height == s.latestHeight + 1
    ensures SaveBlock(s.blocks, b) == s.blocks[b.header.height := b]
    ensures var blocks := s.blocks[b.header.height := b];
            && (forall h :: 0 <= h <= b.header.height ==> h in blocks)
            && Replayed(env, blocks, b.header.height + 1) == ApplyTransactions(env, s.names, b.transactions)
  {
    NothingEvicted(env, s, b);
    ReplayedSnoc(env, s.blocks, s.latestHeight + 1, b);
  }

  lemma BlockKeepsInv(env: Env, s: State, b: Block)
    requires Sound(env) && Inv(env, s)
    ensures Inv(env, AddBlock(env, s, b).0)
  {
    if s.latestHeight + 1 == b.header.height && VerifyBlock(env, s, b).None? {
      var names := ApplyTransactions(env, s.names, b.transactions);
      ExtendsLog(env, s, b, names, Remaining(s.mempool, b.transactions));
      ReplayGrows(env, s, b);
      OwnersDerived(env, s.names, b.transactions, s.names.aliases);
    }
  }

  lemma HeaderKeepsInv(env: Env, s: State, h: Header)
    requires Sound(env) && Inv(env, s)
    ensures Inv(env, AddHeader(env, s, h).0)
  {
    if s.latestHeight + 1 == h.height && VerifyHeader(env, h, s.latestHeight + 1, s.latestHash).None? {
      var b := Block(h, [], BlockHash(env, h));
      ExtendsLog(env, s, b, s.names, s.mempool);
      ReplayGrows(env, s, b);
    }
  }

  lemma RunSnoc(env: Env, events: seq<Event>, e: Event)
    ensures Run(env, events + [e]) == Step(env, Run(env, events), e)
  {
    assert (events + [e])[..|events|] == events;
  }

  lemma StepKeepsInv(env: Env, s: State, e: Event)
    requires Sound(env) && Inv(env, s)
    ensures Inv(env, Step(env, s, e))
  {
    match e {
      case Full(b) => BlockKeepsInv(env, s, b);
      case HeaderOnly(h) => HeaderKeepsInv(env, s, h);
      case Submit(tx) => SubmitKeepsInv(env, s, tx);
    }
  }

  lemma SubmitKeepsInv(env: Env, s: State, tx: Transaction)
    requires Inv(env, s)
    ensures Inv(env, AddToMempool(env, s, tx).0)
  {
    assert AddToMempool(env, s, tx).0.(mempool := s.mempool) == s;
  }

  lemma {:induction false} RunInv(env: Env, events: seq<Event>)
    requires Sound(env)
    ensures Inv(env, Run(env, events))
  {
    if events != [] {
      RunInv(env, events[..|events| - 1]);
      StepKeepsInv(env, Run(env, events[..|events| - 1]), events[|events| - 1]);
    }
  }

  // ---------------------------------------------------------------- main results

  /** After any mixed run of blocks, headers and submissions the stored log is linked to the tip. */
  lemma {:induction false} LogIsLinked(env: Env, events: seq<Event>)
    requires Sound(env)
    ensures LogOK(env, Run(env, events))
  {
    RunInv(env, events);
  }

  /** Replaying the block table gives back the very state the run had built step by step. */
  lemma {:induction false} ReplayRefinesRun(env: Env, events: seq<Event>)
    requires Sound(env)
    ensures GreatestHeight(Run(env, events).blocks) == Run(env, events).latestHeight >= -1
    ensures forall h :: 0 <= h <= Run(env, events).latestHeight ==> h in Run(env, events).blocks
    ensures Rebuilt(env, Run(env, events)) == Run(env, events)
  {
    RunInv(env, events);
    GreatestIsTip(env, Run(env, events));
  }

  lemma GreatestIsTip(env: Env, s: State)
    requires LogOK(env, s)
    ensures GreatestHeight(s.blocks) == s.latestHeight
  {
    var top := GreatestHeight(s.blocks);
    if s.blocks.Keys != {} {
      assert top in s.blocks;
    }
    if s.latestHeight >= 0 {
      assert s.latestHeight in s.blocks.Keys;
    }
  }

  lemma StepKeepsRows(env: Env, s: State, e: Event, h: int)
    requires Sound(env) && Inv(env, s) && h in s.blocks
    ensures h in Step(env, s, e).blocks && Step(env, s, e).blocks[h] == s.blocks[h]
  {
    match e {
      case Full(b) =>
        if s.latestHeight + 1 == b.header.height && VerifyBlock(env, s, b).None? {
          NothingEvicted(env, s, b);
        }
      case HeaderOnly(hd) =>
        if s.latestHeight + 1 == hd.height && VerifyHeader(env, hd, s.latestHeight + 1, s.latestHash).None? {
          NothingEvicted(env, s, Block(hd, [], BlockHash(env, hd)));
        }
      case Submit(_) =>
    }
  }

  /** A row once stored is never changed or removed. */
  lemma {:induction false} LogIsAppendOnly(env: Env, events: seq<Event>, more: seq<Event>, h: int)
    requires Sound(env) && h in Run(env, events).blocks
    ensures h in Run(env, events + more).blocks
    ensures Run(env, events + more).blocks[h] == Run(env, events).blocks[h]
  {
    if more == [] {
      assert events + more == events;
    } else {
      var init, last := more[..|more| - 1], more[|more| - 1];
      assert events + more == (events + init) + [last];
      RunSnoc(env, events + init, last);
      LogIsAppendOnly(env, events, init, h);
      RunInv(env, events + init);
      StepKeepsRows(env, Run(env, events + init), last, h);
    }
  }

  /** Equal hashes at two places of two linked logs: equal headers there, hence equal heights. */
  lemma SameHashSameHeader(env: Env, s: State, t: State, h: int, k: int)
    requires Sound(env) && LogOK(env, s) && LogOK(env, t)
    requires h in s.blocks && k in t.blocks && s.blocks[h].hash == t.blocks[k].hash
    ensures h == k && s.blocks[h].header == t.blocks[k].header
  {
    assert RowOK(env, s.blocks, h) && RowOK(env, t.blocks, k);
    PrevHashHasNoColon(env, s, h);
    PrevHashHasNoColon(env, t, k);
    assert !Collide(env, HeaderText(s.blocks[h].header), HeaderText(t.blocks[k].header));
    HeaderTextInjective(s.blocks[h].header, t.blocks[k].header);
  }

  lemma {:induction false} SameBelow(env: Env, s: State, t: State, top: int, h: int)
    requires Sound(env) && LogOK(env, s) && LogOK(env, t)
    requires top in s.blocks && top in t.blocks && s.blocks[top].hash == t.blocks[top].hash
    requires 0 <= h <= top
    ensures s.blocks[h].header == t.blocks[h].header
    decreases top
  {
    SameHashSameHeader(env, s, t, top, top);
    if h < top {
      assert RowOK(env, s.blocks, top) && RowOK(env, t.blocks, top);
      SameBelow(env, s, t, top - 1, h);
    }
  }

  /**
   Two nodes with the same tip hash hold the same header at every height, whatever their runs, their
   validator lists and the keys they know; only the hash function is common.
   */
  lemma {:induction false} TipFixesHistory(env: Env, events: seq<Event>, other: Env, others: seq<Event>)
    requires Sound(env) && Sound(other) && other.sha == env.sha
    requires Run(env, events).latestHash == Run(other, others).latestHash
    ensures var s, t := Run(env, events), Run(other, others);
            && s.latestHeight == t.latestHeight
            && s.blocks.Keys == t.blocks.Keys
            && forall h :: h in s.blocks ==> s.blocks[h].header == t.blocks[h].header
  {
    RunInv(env, events);
    RunInv(other, others);
    SameLog(other, env, Run(other, others));
    SameTip(env, Run(env, events), Run(other, others));
  }

  /** Being linked is a matter of the hash function alone. */
  lemma SameLog(other: Env, env: Env, t: State)
    requires LogOK(other, t) && other.sha == env.sha
    ensures LogOK(env, t)
  {
    forall h | h in t.blocks
      ensures RowOK(env, t.blocks, h)
    {
      assert RowOK(other, t.blocks, h);
    }
  }

  lemma SameTip(env: Env, s: State, t: State)
    requires Sound(env) && LogOK(env, s) && LogOK(env, t) && s.latestHash == t.latestHash
    ensures s.latestHeight == t.latestHeight
    ensures s.blocks.Keys == t.blocks.Keys
    ensures forall h :: h in s.blocks ==> s.blocks[h].header == t.blocks[h].header
  {
    if s.latestHeight >= 0 {
      assert RowOK(env, s.blocks, s.latestHeight);
    }
    if t.latestHeight >= 0 {
      assert RowOK(env, t.blocks, t.latestHeight);
    }
    if s.latestHeight >= 0 {
      SameHashSameHeader(env, s, t, s.latestHeight, t.latestHeight);
      forall h | h in s.blocks
        ensures s.blocks[h].header == t.blocks[h].header
      {
        SameBelow(env, s, t, s.latestHeight, h);
      }
    }
    assert forall h :: h in s.blocks.Keys <==> h in t.blocks.Keys;
  }

  // ---------------------------------------------------------------- ownership

  /** Within one block the last transaction for a coordinate decides; other coordinates keep their owner. */
  function LastFor(env: Env, txs: seq<Transaction>, c: string): Option<Transaction> {
    if txs == [] then None
    else if AliasCoordinate(env, txs[|txs| - 1].alias) == c then Some(txs[|txs| - 1])
    else LastFor(env, txs[..|txs| - 1], c)
  }

  /** The exact effect of an accepted block on the owner of a coordinate. */
  lemma {:induction false} BlockDecidesOwner(env: Env, names: Names, aliases: AliasStore, txs: seq<Transaction>,
                                             c: string)
    requires FirstBad(env, aliases, txs).None?
    ensures LastFor(env, txs, c).Some? ==> KeyOf(env, LastFor(env, txs, c).value).Some?
    ensures var after := ApplyTransactions(env, names, txs).aliases;
            match LastFor(env, txs, c)
            case Some(tx) => c in after && after[c] == AliasRecord(tx.ownerPeerId, KeyOf(env, tx).value)
            case None => (c in after <==> c in names.aliases) && (c in after ==> after[c] == names.aliases[c])
  {
    if txs != [] {
      AllGood(env, aliases, txs, |txs| - 1);
      AllGoodPrefix(env, aliases, txs);
      BlockDecidesOwner(env, names, aliases, txs[..|txs| - 1], c);
    }
  }

  lemma {:induction false} LastForIsGood(env: Env, aliases: AliasStore, txs: seq<Transaction>, c: string)
    requires FirstBad(env, aliases, txs).None? && LastFor(env, txs, c).Some?
    ensures var tx := LastFor(env, txs, c).value;
            AliasCoordinate(env, tx.alias) == c && VerifyTransaction(env, aliases, tx).None?
  {
    AllGood(env, aliases, txs, |txs| - 1);
    if AliasCoordinate(env, txs[|txs| - 1].alias) != c {
      AllGoodPrefix(env, aliases, txs);
      LastForIsGood(env, aliases, txs[..|txs| - 1], c);
    }
  }

  lemma StepKeepsOwner(env: Env, s: State, e: Event, c: string)
    requires Inv(env, s) && c in s.names.aliases
    ensures c in Step(env, s, e).names.aliases && Step(env, s, e).names.aliases[c] == s.names.aliases[c]
  {
    if e.Full? && s.latestHeight + 1 == e.block.header.height && VerifyBlock(env, s, e.block).None? {
      var txs := e.block.transactions;
      BlockDecidesOwner(env, s.names, s.names.aliases, txs, c);
      if LastFor(env, txs, c).Some? {
        LastForIsGood(env, s.names.aliases, txs, c);
      }
    }
  }

  /** Once bound, an alias keeps its key and its peer ID through every later event. */
  lemma {:induction false} FirstOwnerStays(env: Env, events: seq<Event>, more: seq<Event>, c: string)
    requires Sound(env) && c in Run(env, events).names.aliases
    ensures c in Run(env, events + more).names.aliases
    ensures Run(env, events + more).names.aliases[c] == Run(env, events).names.aliases[c]
  {
    if more == [] {
      assert events + more == events;
    } else {
      var init, last := more[..|more| - 1], more[|more| - 1];
      assert events + more == (events + init) + [last];
      RunSnoc(env, events + init, last);
      FirstOwnerStays(env, events, init, c);
      RunInv(env, events + init);
      StepKeepsOwner(env, Run(env, events + init), last, c);
    }
  }
}
