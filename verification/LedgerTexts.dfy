/** What the texts and hashes of the ledger commit to: which fields a signature, an ID or a coordinate fixes. */
module LedgerTexts {
  import opened Prelude
  import opened Text
  import opened Ledger
  import opened LedgerRuns

  // ---------------------------------------------------------------- what a claim signs

  /** Base64 text and peer IDs have no colon. */
  ghost predicate ColonFree(env: Env) {
    && (forall s :: env.decodeB64(s).Some? ==> ':' !in s)
    && (forall k :: ':' !in env.peerIdOf(k))
  }

  /** The signed text, field by field. */
  lemma TxTextIs(tx: Transaction)
    ensures TxText(tx) == tx.txType + [':'] + (tx.alias + [':'] + (tx.ownerPeerId + [':'] + (tx.pubKeyB64 + [':']
                          + Decimal(tx.timestamp))))
  {
    FourFields(tx.txType, tx.alias, tx.ownerPeerId, tx.pubKeyB64, ':', Decimal(tx.timestamp));
  }

  /** The same grouped from the other end. */
  lemma TxTextFromTheRight(tx: Transaction)
    ensures TxText(tx) == (((tx.txType + [':'] + tx.alias) + [':'] + tx.ownerPeerId) + [':'] + tx.pubKeyB64) + [':']
                          + Decimal(tx.timestamp)
  {
    TxTextIs(tx);
  }

  /**
   The signature of a transaction that verifies is for just its type, alias, owner, key and time: two of them
   have the same signed text if and only if they agree in all five, although an alias may hold any colons;
   neither ID, nonce, difficulty nor the signature itself plays a part.
   */
  lemma TxTextBindsExactly(env: Env, a: Transaction, b: Transaction, aliases: AliasStore, others: AliasStore)
    requires ColonFree(env)
    requires VerifyTransaction(env, aliases, a).None? && VerifyTransaction(env, others, b).None?
    ensures TxText(a) == TxText(b) <==>
              && a.txType == b.txType && a.alias == b.alias && a.ownerPeerId == b.ownerPeerId
              && a.pubKeyB64 == b.pubKeyB64 && a.timestamp == b.timestamp
  {
    if TxText(a) == TxText(b) {
      assert ':' !in a.ownerPeerId && ':' !in b.ownerPeerId && ':' !in a.pubKeyB64 && ':' !in b.pubKeyB64;
      FieldsFromTheRight(a, b);
    } else {
      TxTextIs(a);
      TxTextIs(b);
    }
  }

  lemma FieldsFromTheRight(a: Transaction, b: Transaction)
    requires TxText(a) == TxText(b) && a.txType == b.txType
    requires ':' !in a.ownerPeerId && ':' !in b.ownerPeerId && ':' !in a.pubKeyB64 && ':' !in b.pubKeyB64
    ensures a.alias == b.alias && a.ownerPeerId == b.ownerPeerId && a.pubKeyB64 == b.pubKeyB64
    ensures a.timestamp == b.timestamp
  {
    TxTextFromTheRight(a);
    TxTextFromTheRight(b);
    DecimalHasNo(a.timestamp, ':');
    DecimalHasNo(b.timestamp, ':');
    var named, named' := a.txType + [':'] + a.alias, b.txType + [':'] + b.alias;
    var owned, owned' := named + [':'] + a.ownerPeerId, named' + [':'] + b.ownerPeerId;
    var keyed, keyed' := owned + [':'] + a.pubKeyB64, owned' + [':'] + b.pubKeyB64;
    LastFieldApart(keyed, Decimal(a.timestamp), keyed', Decimal(b.timestamp), ':');
    LastFieldApart(owned, a.pubKeyB64, owned', b.pubKeyB64, ':');
    LastFieldApart(named, a.ownerPeerId, named', b.ownerPeerId, ':');
    assert a.alias == named[|a.txType| + 1..] && b.alias == named'[|b.txType| + 1..];
    DecimalInjective(a.timestamp, b.timestamp);
  }

  // ---------------------------------------------------------------- what an ID fixes

  /** SHA-256 as bytes has no collisions either, and numbers are written in a fixed number of bytes. */
  ghost predicate SoundBytes(env: Env) {
    && Sound(env)
    && (forall x, y :: env.digest(x) == env.digest(y) ==> x == y)
    && (forall n, k {:trigger env.bigEndian(n, k)} :: |env.bigEndian(n, k)| == k)
  }

  /** The four text fields as they are hashed, one after the other without a separator. */
  function Joined(tx: Transaction): string {
    tx.txType + tx.alias + tx.ownerPeerId + tx.pubKeyB64
  }

  /**
   Two transactions have the same ID if and only if their text fields give the same text when joined and
   their times, nonces and difficulties are the same in their eight, eight and four bytes.  In particular
   no one of the seven can be exchanged alone.
   */
  lemma TxIdBindsExactly(env: Env, a: Transaction, b: Transaction)
    requires SoundBytes(env)
    ensures TxId(env, a) == TxId(env, b) <==>
              && Joined(a) == Joined(b)
              && env.bigEndian(a.timestamp, 8) == env.bigEndian(b.timestamp, 8)
              && env.bigEndian(a.powNonce, 8) == env.bigEndian(b.powNonce, 8)
              && env.bigEndian(a.powDifficulty, 4) == env.bigEndian(b.powDifficulty, 4)
  {
    var x, y := TxBaseHash(env, a) + env.bigEndian(a.powNonce, 8), TxBaseHash(env, b) + env.bigEndian(b.powNonce, 8);
    if TxId(env, a) == TxId(env, b) {
      assert !Collide(env, x + env.bigEndian(a.powDifficulty, 4), y + env.bigEndian(b.powDifficulty, 4));
      TailsApart(x, env.bigEndian(a.powDifficulty, 4), y, env.bigEndian(b.powDifficulty, 4));
      TailsApart(TxBaseHash(env, a), env.bigEndian(a.powNonce, 8), TxBaseHash(env, b), env.bigEndian(b.powNonce, 8));
      TailsApart(Joined(a), env.bigEndian(a.timestamp, 8), Joined(b), env.bigEndian(b.timestamp, 8));
    }
  }

  /** An alias and the same alias with the leading sign have one coordinate, and no other two have. */
  lemma CoordinateExactly(env: Env, a: string, b: string)
    requires Sound(env)
    ensures AliasCoordinate(env, a) == AliasCoordinate(env, b)
            <==> a == b || (a == "@" + b && !HasPrefix(b, "@")) || (b == "@" + a && !HasPrefix(a, "@"))
  {
    var x, y := if HasPrefix(a, "@") then a else "@" + a, if HasPrefix(b, "@") then b else "@" + b;
    assert !Collide(env, x, y);
    assert ("@" + a)[1..] == a && ("@" + b)[1..] == b;
    assert HasPrefix("@" + a, "@") && HasPrefix("@" + b, "@");
  }

  // ---------------------------------------------------------------- what a validator signs

  /** The four fields of the signed text, read back. */
  lemma SignedTextReads(h: Header)
    requires ':' !in h.prevHash
    ensures SplitN(SignedText(h), ':', 4) == [Decimal(h.height), h.prevHash, Decimal(h.timestamp), h.validator]
  {
    DecimalHasNo(h.height, ':');
    DecimalHasNo(h.timestamp, ':');
    SplitFields([Decimal(h.height), h.prevHash, Decimal(h.timestamp)], ':', h.validator);
  }

  /** A validator's signature is for exactly the height, previous hash, time and validator of the header. */
  lemma SignedTextBindsExactly(a: Header, b: Header)
    requires ':' !in a.prevHash && ':' !in b.prevHash
    ensures SignedText(a) == SignedText(b) <==>
              && a.height == b.height && a.prevHash == b.prevHash
              && a.timestamp == b.timestamp && a.validator == b.validator
  {
    SignedTextReads(a);
    SignedTextReads(b);
    DecimalInjective(a.height, b.height);
    DecimalInjective(a.timestamp, b.timestamp);
  }

  /** How the two texts of a header are spelled: the hashed one is the signed one and the signature. */
  lemma HeaderTextsAre(h: Header)
    ensures SignedText(h)
         == Decimal(h.height) + [':'] + (h.prevHash + [':'] + (Decimal(h.timestamp) + [':'] + h.validator))
    ensures HeaderText(h) == SignedText(h) + [':'] + h.signature
  {
    ThreeFields(Decimal(h.height), h.prevHash, Decimal(h.timestamp), ':', h.validator);
    FourFields(Decimal(h.height), h.prevHash, Decimal(h.timestamp), h.validator, ':', h.signature);
  }
}
