/**
 The alias ledger of pkg/protocol/blockchain.go and the block table of pkg/storage/db_blockchain.go.
 Libraries (hashing, base64, key handling, signatures, the proof-of-work test) are parameters.
 */
module Ledger {
  import opened Prelude
  import opened Text

  type PubKey = string

  datatype Env = Env(
    sha: string -> string,                         // SHA-256 in hexadecimal
    digest: string -> string,                      // SHA-256 as bytes
    bigEndian: (int, nat) -> string,               // a number in so many bytes
    decodeB64: string -> Option<string>,
    encodeB64: string -> string,
    unmarshalKey: string -> Option<PubKey>,
    peerIdOf: PubKey -> string,
    verify: (PubKey, string, string) -> bool,      // key, data, signature
    powSolved: (string, int, nat) -> bool,         // base hash, difficulty, nonce
    decodesPeer: string -> bool,
    validatorKey: string -> Option<PubKey>,        // from the peer store or the peer ID itself
    validators: seq<string>)

  const REGISTER_ALIAS := "REGISTER_ALIAS"
  const MIN_DIFFICULTY := 16

  datatype Transaction = Transaction(
    txId: string,
    txType: string,
    alias: string,
    ownerPeerId: string,
    pubKeyB64: string,
    timestamp: int,
    powNonce: nat,
    powDifficulty: int,
    signature: string)

  datatype Header = Header(height: int, prevHash: string, timestamp: int, validator: string, signature: string)

  datatype Block = Block(header: Header, transactions: seq<Transaction>, hash: string)

  datatype AliasRecord = AliasRecord(peerId: string, pubKey: PubKey)

  type AliasStore = map<string, AliasRecord>
  type OwnerStore = map<string, string>

  /** The alias state: who owns each alias coordinate, and which alias each key took last. */
  datatype Names = Names(aliases: AliasStore, owners: OwnerStore)

  datatype State = State(
    latestHeight: int,
    latestHash: string,
    blocks: map<int, Block>,
    names: Names,
    mempool: seq<Transaction>)

  const EMPTY := State(-1, "", map[], Names(map[], map[]), [])

  datatype TxError =
    | BadType | BadAlias | BadKeyEncoding | BadKey | OwnerMismatch | BadTxSigEncoding | BadTxSignature
    | LowDifficulty | BadPoW | BadTxId | AliasTaken

  datatype Error =
    | WrongHeight | WrongPrev | UnknownValidator | BadValidatorId | BadSigEncoding | BadSignature | BadHash
    | BadTransaction(reason: TxError) | InFuture | DoubleSigning | AliasPending

  // ---------------------------------------------------------------- transactions

  function AliasCoordinate(env: Env, alias: string): string {
    env.sha(if HasPrefix(alias, "@") then alias else "@" + alias)
  }

  function TxBaseHash(env: Env, tx: Transaction): string {
    env.digest(tx.txType + tx.alias + tx.ownerPeerId + tx.pubKeyB64 + env.bigEndian(tx.timestamp, 8))
  }

  function TxId(env: Env, tx: Transaction): string {
    env.sha(TxBaseHash(env, tx) + env.bigEndian(tx.powNonce, 8) + env.bigEndian(tx.powDifficulty, 4))
  }

  function TxText(tx: Transaction): string {
    WithFields([tx.txType, tx.alias, tx.ownerPeerId, tx.pubKeyB64], ':', Decimal(tx.timestamp))
  }

  /** The public key a transaction carries, when it decodes. */
  function KeyOf(env: Env, tx: Transaction): Option<PubKey> {
    match env.decodeB64(tx.pubKeyB64)
    case None => None
    case Some(bytes) => env.unmarshalKey(bytes)
  }

  /** `None` means the transaction is valid against this alias store. */
  function VerifyTransaction(env: Env, aliases: AliasStore, tx: Transaction): Option<TxError> {
    if tx.txType != REGISTER_ALIAS then Some(BadType)
    else if !HasPrefix(tx.alias, "@") then Some(BadAlias)
    else if env.decodeB64(tx.pubKeyB64).None? then Some(BadKeyEncoding)
    else if KeyOf(env, tx).None? then Some(BadKey)
    else
      var pubKey := KeyOf(env, tx).value;
      if env.peerIdOf(pubKey) != tx.ownerPeerId then Some(OwnerMismatch)
      else if env.decodeB64(tx.signature).None? then Some(BadTxSigEncoding)
      else if !env.verify(pubKey, TxText(tx), env.decodeB64(tx.signature).value) then Some(BadTxSignature)
      else if tx.powDifficulty < MIN_DIFFICULTY then Some(LowDifficulty)
      else if !env.powSolved(TxBaseHash(env, tx), tx.powDifficulty, tx.powNonce) then Some(BadPoW)
      else if tx.txId != TxId(env, tx) then Some(BadTxId)
      else
        var coord := AliasCoordinate(env, tx.alias);
        if coord in aliases && aliases[coord].pubKey != pubKey then Some(AliasTaken) else None
  }

  function ApplyTransaction(env: Env, names: Names, tx: Transaction): Names {
    if tx.txType != REGISTER_ALIAS || KeyOf(env, tx).None? then names
    else
      var bytes := env.decodeB64(tx.pubKeyB64).value;
      Names(names.aliases[AliasCoordinate(env, tx.alias) := AliasRecord(tx.ownerPeerId, KeyOf(env, tx).value)],
            names.owners[env.encodeB64(bytes) := tx.alias])
  }

  function ApplyTransactions(env: Env, names: Names, txs: seq<Transaction>): Names {
    if txs == [] then names
    else ApplyTransaction(env, ApplyTransactions(env, names, txs[..|txs| - 1]), txs[|txs| - 1])
  }

  // ---------------------------------------------------------------- headers and blocks

  function HeaderText(h: Header): string {
    WithFields([Decimal(h.height), h.prevHash, Decimal(h.timestamp), h.validator], ':', h.signature)
  }

  function SignedText(h: Header): string {
    WithFields([Decimal(h.height), h.prevHash, Decimal(h.timestamp)], ':', h.validator)
  }

  function BlockHash(env: Env, h: Header): string {
    env.sha(HeaderText(h))
  }

  /** A validator whose public key cannot be found has its signature taken on trust. */
  function VerifyHeader(env: Env, h: Header, height: int, prevHash: string): Option<Error> {
    if h.height != height then Some(WrongHeight)
    else if h.prevHash != prevHash then Some(WrongPrev)
    else if h.validator !in env.validators then Some(UnknownValidator)
    else if !env.decodesPeer(h.validator) then Some(BadValidatorId)
    else
      match env.validatorKey(h.validator)
      case None => None
      case Some(key) =>
        match env.decodeB64(h.signature)
        case None => Some(BadSigEncoding)
        case Some(sig) => if env.verify(key, SignedText(h), sig) then None else Some(BadSignature)
  }

  /** The first error among a block's transactions, all judged against the store before the block. */
  function FirstBad(env: Env, aliases: AliasStore, txs: seq<Transaction>): Option<TxError> {
    if txs == [] then None
    else
      match VerifyTransaction(env, aliases, txs[0])
      case Some(e) => Some(e)
      case None => FirstBad(env, aliases, txs[1..])
  }

  function VerifyBlock(env: Env, s: State, b: Block): Option<Error> {
    match VerifyHeader(env, b.header, s.latestHeight + 1, s.latestHash)
    case Some(e) => Some(e)
    case None =>
      if b.hash != BlockHash(env, b.header) then Some(BadHash)
      else
        match FirstBad(env, s.names.aliases, b.transactions)
        case Some(e) => Some(BadTransaction(e))
        case None => None
  }

  /** INSERT OR REPLACE on a table whose height is the primary key and whose hash column is unique. */
  function SaveBlock(blocks: map<int, Block>, b: Block): map<int, Block> {
    (map h | h in blocks && blocks[h].hash != b.hash :: blocks[h])[b.header.height := b]
  }

  predicate Contains(txs: seq<Transaction>, txId: string) {
    exists i :: 0 <= i < |txs| && txs[i].txId == txId
  }

  /** What is left of the mempool once a block's transactions are taken out. */
  function Remaining(mempool: seq<Transaction>, txs: seq<Transaction>): seq<Transaction> {
    if mempool == [] then []
    else
      var last := mempool[|mempool| - 1];
      Remaining(mempool[..|mempool| - 1], txs) + (if Contains(txs, last.txId) then [] else [last])
  }

  function AddBlock(env: Env, s: State, b: Block): (State, Option<Error>) {
    if b.header.height <= s.latestHeight then (s, None)
    else if b.header.height > s.latestHeight + 1 then (s, Some(InFuture))
    else
      match VerifyBlock(env, s, b)
      case Some(e) => (s, Some(e))
      case None =>
        (State(b.header.height, b.hash, SaveBlock(s.blocks, b), ApplyTransactions(env, s.names, b.transactions),
               Remaining(s.mempool, b.transactions)),
         None)
  }

  /** A header at or below the tip is only compared with what is stored there. */
  function AddHeader(env: Env, s: State, h: Header): (State, Option<Error>) {
    if h.height <= s.latestHeight then
      if h.height in s.blocks && s.blocks[h.height].hash != "" && s.blocks[h.height].hash != BlockHash(env, h)
      then (s, Some(DoubleSigning)) else (s, None)
    else if h.height > s.latestHeight + 1 then (s, Some(InFuture))
    else
      match VerifyHeader(env, h, s.latestHeight + 1, s.latestHash)
      case Some(e) => (s, Some(e))
      case None =>
        var b := Block(h, [], BlockHash(env, h));
        (s.(latestHeight := h.height, latestHash := b.hash, blocks := SaveBlock(s.blocks, b)), None)
  }

  datatype Clash = NoClash | SameId | SameAlias

  /** The first pending transaction with the same ID or the same alias decides. */
  function FindClash(mempool: seq<Transaction>, tx: Transaction): Clash {
    if mempool == [] then NoClash
    else if mempool[0].txId == tx.txId then SameId
    else if mempool[0].alias == tx.alias then SameAlias
    else FindClash(mempool[1..], tx)
  }

  function AddToMempool(env: Env, s: State, tx: Transaction): (State, Option<Error>) {
    match VerifyTransaction(env, s.names.aliases, tx)
    case Some(e) => (s, Some(BadTransaction(e)))
    case None =>
      match FindClash(s.mempool, tx)
      case SameId => (s, None)
      case SameAlias => (s, Some(AliasPending))
      case NoClash => (s.(mempool := s.mempool + [tx]), None)
  }

  /** A validator's own peer ID and its signing function, in base64. */
  datatype Self = Self(peerId: string, sign: string -> string)

  /** This validator is authorised and its own signatures verify. */
  ghost predicate Trusted(env: Env, me: Self) {
    && me.peerId in env.validators
    && env.decodesPeer(me.peerId)
    && (match env.validatorKey(me.peerId)
        case None => true
        case Some(key) => forall text :: env.decodeB64(me.sign(text)).Some?
                                      && env.verify(key, text, env.decodeB64(me.sign(text)).value))
  }

  /** The block the production loop builds from the whole mempool; an empty mempool yields none. */
  function BuildBlock(env: Env, me: Self, s: State, timestamp: int): Option<Block> {
    if s.mempool == [] then None
    else
      var unsigned := Header(s.latestHeight + 1, s.latestHash, timestamp, me.peerId, "");
      var header := unsigned.(signature := me.sign(SignedText(unsigned)));
      Some(Block(header, s.mempool, BlockHash(env, header)))
  }

  // ---------------------------------------------------------------- replay

  /** The alias state after the transactions of blocks `0 .. n - 1`. */
  function Replayed(env: Env, blocks: map<int, Block>, n: nat): Names
    requires forall h :: 0 <= h < n ==> h in blocks
  {
    if n == 0 then Names(map[], map[])
    else ApplyTransactions(env, Replayed(env, blocks, n - 1), blocks[n - 1].transactions)
  }

  /** The lowest height without a block. */
  ghost predicate StopsAt(blocks: map<int, Block>, gap: nat) {
    gap !in blocks && forall h :: 0 <= h < gap ==> h in blocks
  }

  /** Replaying looks at transactions only. */
  lemma {:induction false} ReplayedDepends(env: Env, blocks: map<int, Block>, others: map<int, Block>, n: nat)
    requires forall h :: 0 <= h < n ==> h in blocks && h in others && others[h].transactions == blocks[h].transactions
    ensures Replayed(env, blocks, n) == Replayed(env, others, n)
  {
    if n > 0 {
      ReplayedDepends(env, blocks, others, n - 1);
    }
  }

  lemma {:induction false} SomeIsGreatest(s: set<int>) returns (m: int)
    requires s != {}
    ensures m in s && forall k :: k in s ==> k <= m
  {
    assert (forall k :: k !in s) ==> s == {};
    m :| m in s;
    if s != {m} {
      var rest := s - {m};
      var r := SomeIsGreatest(rest);
      assert forall x :: x in s ==> x == m || x in rest;
      if r > m {
        m := r;
      }
    }
  }

  /** COALESCE(MAX(height), -1). */
  function GreatestHeight(blocks: map<int, Block>): int {
    if blocks.Keys == {} then -1
    else
      assert exists m :: m in blocks.Keys && forall k :: k in blocks.Keys ==> k <= m by {
        var m := SomeIsGreatest(blocks.Keys);
      }
      var m :| m in blocks.Keys && forall k :: k in blocks.Keys ==> k <= m;
      m
  }

  /** The state that a restart rebuilds from the block table. */
  function Rebuilt(env: Env, s: State): State
    requires forall h :: 0 <= h <= GreatestHeight(s.blocks) ==> h in s.blocks
  {
    var top := GreatestHeight(s.blocks);
    s.(latestHeight := top,
       latestHash := if top >= 0 then s.blocks[top].hash else "",
       names := Replayed(env, s.blocks, if top >= 0 then top + 1 else 0))
  }

  // ---------------------------------------------------------------- the mutable ledger

  class LedgerNode {
    const env: Env
    var latestHeight: int
    var latestHash: string
    var blocks: map<int, Block>
    var aliasStore: AliasStore
    var ownerStore: OwnerStore
    var mempool: seq<Transaction>

    ghost function View(): State
      reads this
    {
      State(latestHeight, latestHash, blocks, Names(aliasStore, ownerStore), mempool)
    }

    constructor (env: Env)
      ensures View() == EMPTY && this.env == env
    {
      this.env := env;
      latestHeight, latestHash, blocks := -1, "", map[];
      aliasStore, ownerStore, mempool := map[], map[], [];
    }

    method VerifyBlockHere(b: Block) returns (e: Option<Error>)
      ensures e == VerifyBlock(env, View(), b)
    {
      e := VerifyHeader(env, b.header, latestHeight + 1, latestHash);
      if e.Some? {
        return;
      }
      if b.hash != BlockHash(env, b.header) {
        return Some(BadHash);
      }
      for i := 0 to |b.transactions|
        invariant FirstBad(env, aliasStore, b.transactions) == FirstBad(env, aliasStore, b.transactions[i..])
      {
        var bad := VerifyTransaction(env, aliasStore, b.transactions[i]);
        assert b.transactions[i..][1..] == b.transactions[i + 1..];
        if bad.Some? {
          return Some(BadTransaction(bad.value));
        }
      }
      return None;
    }

    method ApplyBlockTransactions(txs: seq<Transaction>)
      modifies this`aliasStore, this`ownerStore
      ensures Names(aliasStore, ownerStore) == ApplyTransactions(env, old(Names(aliasStore, ownerStore)), txs)
    {
      ghost var before := Names(aliasStore, ownerStore);
      for i := 0 to |txs|
        invariant Names(aliasStore, ownerStore) == ApplyTransactions(env, before, txs[..i])
      {
        var tx := txs[i];
        assert txs[..i + 1][..i] == txs[..i];
        if tx.txType == REGISTER_ALIAS {
          var bytes := env.decodeB64(tx.pubKeyB64);
          if bytes.Some? {
            var pubKey := env.unmarshalKey(bytes.value);
            if pubKey.Some? {
              aliasStore := aliasStore[AliasCoordinate(env, tx.alias) := AliasRecord(tx.ownerPeerId, pubKey.value)];
              ownerStore := ownerStore[env.encodeB64(bytes.value) := tx.alias];
            }
          }
        }
      }
      assert txs[..|txs|] == txs;
    }

    method CleanMempool(txs: seq<Transaction>)
      modifies this`mempool
      ensures mempool == Remaining(old(mempool), txs)
    {
      var kept: seq<Transaction> := [];
      for i := 0 to |mempool|
        invariant mempool == old(mempool)
        invariant kept == Remaining(mempool[..i], txs)
      {
        var applied := false;
        var j := 0;
        while j < |txs| && !applied
          invariant 0 <= j <= |txs|
          invariant applied <==> exists k :: 0 <= k < j && txs[k].txId == mempool[i].txId
        {
          applied := mempool[i].txId == txs[j].txId;
          j := j + 1;
        }
        assert mempool[..i + 1][..i] == mempool[..i];
        if !applied {
          kept := kept + [mempool[i]];
        }
      }
      assert mempool[..|mempool|] == mempool;
      mempool := kept;
    }

    method VerifyAndAddBlock(b: Block) returns (e: Option<Error>)
      modifies this
      ensures (View(), e) == AddBlock(env, old(View()), b)
    {
      if b.header.height <= latestHeight {
        return None;
      }
      if b.header.height > latestHeight + 1 {
        return Some(InFuture);
      }
      e := VerifyBlockHere(b);
      if e.Some? {
        return;
      }
      blocks := SaveBlock(blocks, b);
      ApplyBlockTransactions(b.transactions);
      CleanMempool(b.transactions);
      latestHeight := b.header.height;
      latestHash := b.hash;
    }

    method VerifyAndAddHeader(h: Header) returns (e: Option<Error>)
      modifies this
      ensures (View(), e) == AddHeader(env, old(View()), h)
    {
      if h.height <= latestHeight {
        if h.height in blocks && blocks[h.height].hash != "" && blocks[h.height].hash != BlockHash(env, h) {
          return Some(DoubleSigning);
        }
        return None;
      }
      if h.height > latestHeight + 1 {
        return Some(InFuture);
      }
      e := VerifyHeader(env, h, latestHeight + 1, latestHash);
      if e.Some? {
        return;
      }
      var hash := BlockHash(env, h);
      blocks := SaveBlock(blocks, Block(h, [], hash));
      latestHeight := h.height;
      latestHash := hash;
    }

    method SubmitTransaction(tx: Transaction) returns (e: Option<Error>)
      modifies this`mempool
      ensures (View(), e) == AddToMempool(env, old(View()), tx)
    {
      var bad := VerifyTransaction(env, aliasStore, tx);
      if bad.Some? {
        return Some(BadTransaction(bad.value));
      }
      for i := 0 to |mempool|
        invariant mempool == old(mempool)
        invariant FindClash(mempool, tx) == FindClash(mempool[i..], tx)
      {
        assert mempool[i..][1..] == mempool[i + 1..];
        if mempool[i].txId == tx.txId {
          return None;
        }
        if mempool[i].alias == tx.alias {
          return Some(AliasPending);
        }
      }
      mempool := mempool + [tx];
      return None;
    }

    /**
     There is a block exactly when something is pending; it holds all of it, in order, comes next after
     the tip, is hashed and signed over its own header, and passes this very node's header check when
     the node is a trusted validator.
     */
    method SnapshotBlock(me: Self, timestamp: int) returns (b: Option<Block>)
      ensures b.Some? <==> mempool != []
      ensures b.Some? ==> b.value.transactions == mempool && b.value.header.timestamp == timestamp
      ensures b.Some? ==> b.value.hash == BlockHash(env, b.value.header)
      ensures b.Some? ==> b.value.header.signature == me.sign(SignedText(b.value.header))
      ensures b.Some? && Trusted(env, me) ==> VerifyHeader(env, b.value.header, latestHeight + 1, latestHash).None?
      ensures b == BuildBlock(env, me, View(), timestamp)
    {
      if |mempool| == 0 {
        return None;
      }
      var unsigned := Header(latestHeight + 1, latestHash, timestamp, me.peerId, "");
      var headerData := SignedText(unsigned);
      var header := unsigned.(signature := me.sign(headerData));
      return Some(Block(header, mempool, BlockHash(env, header)));
    }

    /** A missing height stops the replay with the alias state rebuilt only up to the gap. */
    method ReplayAllBlocks() returns (ok: bool)
      modifies this
      ensures blocks == old(blocks) && mempool == old(mempool)
      ensures ok <==> forall h :: 0 <= h <= GreatestHeight(blocks) ==> h in blocks
      ensures ok ==> View() == Rebuilt(env, old(View()))
      ensures !ok ==> latestHeight == old(latestHeight) && latestHash == old(latestHash)
      ensures !ok ==> exists gap: nat ::
                StopsAt(blocks, gap) && Names(aliasStore, ownerStore) == Replayed(env, blocks, gap)
    {
      var top := GreatestHeight(blocks);
      aliasStore, ownerStore := map[], map[];
      var h := 0;
      while h <= top
        invariant 0 <= h && (h <= top + 1 || h == 0)
        invariant forall k :: 0 <= k < h ==> k in blocks
        invariant Names(aliasStore, ownerStore) == Replayed(env, blocks, h)
        invariant blocks == old(blocks) && mempool == old(mempool)
        invariant latestHeight == old(latestHeight) && latestHash == old(latestHash)
      {
        if h !in blocks {
          assert StopsAt(blocks, h);
          return false;
        }
        ApplyBlockTransactions(blocks[h].transactions);
        h := h + 1;
      }
      latestHeight := top;
      latestHash := if top >= 0 then blocks[top].hash else "";
      return true;
    }
  }
}
