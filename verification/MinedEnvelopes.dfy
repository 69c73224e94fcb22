/** The two envelopes that carry their own proof of work (types.go and mailbox_client.go). */
module MinedEnvelopes {
  import opened Prelude
  import opened ProofOfWork
  import opened Text

  class MessageEnvelope {
    var id: Bytes
    var kind: Bytes
    var content: Bytes
    var timestamp: i64
    var status: Bytes
    var refId: Bytes
    var sender: Bytes
    var signature: Bytes
    var powNonce: u64
    var powDiff: int

    constructor (id: Bytes, kind: Bytes, content: Bytes, timestamp: i64, status: Bytes, refId: Bytes, sender: Bytes,
                 signature: Bytes)
      ensures this.id == id && this.kind == kind && this.content == content && this.timestamp == timestamp
      ensures this.status == status && this.refId == refId && this.sender == sender && this.signature == signature
      ensures powNonce == 0 && powDiff == 0
    {
      this.id, this.kind, this.content, this.timestamp := id, kind, content, timestamp;
      this.status, this.refId, this.sender, this.signature := status, refId, sender, signature;
      powNonce, powDiff := 0, 0;
    }

    /** What the proof of work commits to: neither the nonce nor the difficulty. */
    function BaseHash(sha: Bytes -> Hash): Hash
      reads this`id, this`kind, this`content, this`sender, this`timestamp
    {
      sha(id + kind + content + sender + BigEndian(AsUint64(timestamp), 8))
    }

    ghost predicate Verifies(sha: Bytes -> Hash)
      reads this
    {
      Solves(sha, BaseHash(sha), powDiff, powNonce)
    }

    /** Clears the two fields, hashes, and puts them back. */
    method CalculateBaseHash(sha: Bytes -> Hash) returns (base: Hash)
      modifies this`powNonce, this`powDiff
      ensures base == BaseHash(sha)
      ensures powNonce == old(powNonce) && powDiff == old(powDiff)
    {
      var nonce, diff := powNonce, powDiff;
      powNonce, powDiff := 0, 0;
      base := sha(id + kind + content + sender + BigEndian(AsUint64(timestamp), 8));
      powNonce, powDiff := nonce, diff;
    }

    /** Mining writes the proof into the envelope, which then verifies exactly when some nonce in range solves it. */
    method MinePoW(sha: Bytes -> Hash, difficulty: int)
      modifies this`powNonce, this`powDiff
      ensures difficulty <= 0 ==> powNonce == old(powNonce) && powDiff == old(powDiff)
      ensures difficulty > 0 ==> powDiff == difficulty && (Verifies(sha) <==> Solvable(sha, BaseHash(sha), difficulty))
      ensures difficulty > 0 ==> forall k: u64 :: k < powNonce ==> !Solves(sha, BaseHash(sha), difficulty, k)
    {
      if difficulty <= 0 {
        return;
      }
      var baseHash := CalculateBaseHash(sha);
      powNonce := ProofOfWork.MinePoW(sha, baseHash, difficulty);
      powDiff := difficulty;
    }

    method VerifyPoW(sha: Bytes -> Hash) returns (ok: bool)
      modifies this`powNonce, this`powDiff
      ensures ok <==> Verifies(sha)
      ensures powNonce == old(powNonce) && powDiff == old(powDiff)
    {
      if powDiff <= 0 {
        return true;
      }
      var baseHash := CalculateBaseHash(sha);
      ok := ProofOfWork.VerifyPoW(sha, baseHash, powDiff, powNonce);
    }
  }

  lemma AsUint64Injective(a: i64, b: i64)
    ensures AsUint64(a) == AsUint64(b) ==> a == b
  {
  }

  /**
   What a mined envelope commits to: the base hash is the same whenever ID, kind, content and sender, joined
   without a separator, and the time are, whatever status, reference, signature and proof may be; and if it
   is the same otherwise, the hash function has a collision.
   */
  lemma BaseHashBindsExactly(sha: Bytes -> Hash, a: MessageEnvelope, b: MessageEnvelope) returns (x: Bytes, y: Bytes)
    ensures a.id + a.kind + a.content + a.sender == b.id + b.kind + b.content + b.sender && a.timestamp == b.timestamp
            ==> a.BaseHash(sha) == b.BaseHash(sha)
    ensures a.BaseHash(sha) == b.BaseHash(sha) ==>
              || (a.id + a.kind + a.content + a.sender == b.id + b.kind + b.content + b.sender
                  && a.timestamp == b.timestamp)
              || Collide(sha, x, y)
  {
    var s, t := a.id + a.kind + a.content + a.sender, b.id + b.kind + b.content + b.sender;
    var u, v := AsUint64(a.timestamp), AsUint64(b.timestamp);
    x, y := s + BigEndian(u, 8), t + BigEndian(v, 8);
    if x == y {
      TailsApart(s, BigEndian(u, 8), t, BigEndian(v, 8));
      EightBytes();
      BigEndianInjective(u, v, 8);
      AsUint64Injective(a.timestamp, b.timestamp);
    }
  }

  /** How many of the five fields are different. */
  ghost function Differences(a: MessageEnvelope, b: MessageEnvelope): nat
    reads a, b
  {
    (if a.id != b.id then 1 else 0) + (if a.kind != b.kind then 1 else 0) + (if a.content != b.content then 1 else 0)
    + (if a.sender != b.sender then 1 else 0) + (if a.timestamp != b.timestamp then 1 else 0)
  }

  /** So no single one of the five fields can be exchanged without changing the base hash, collisions apart. */
  lemma OneFieldChangesBaseHash(sha: Bytes -> Hash, a: MessageEnvelope, b: MessageEnvelope) returns (x: Bytes, y: Bytes)
    requires Differences(a, b) == 1 && a.BaseHash(sha) == b.BaseHash(sha)
    ensures Collide(sha, x, y)
  {
    x, y := BaseHashBindsExactly(sha, a, b);
    if a.id + a.kind + a.content + a.sender == b.id + b.kind + b.content + b.sender {
      JoinedApart(a.id, a.kind, a.content, a.sender, b.id, b.kind, b.content, b.sender);
    }
  }

  /** Four texts joined: exchanging a single one changes the whole. */
  lemma JoinedApart(a: Bytes, b: Bytes, c: Bytes, d: Bytes, e: Bytes, f: Bytes, g: Bytes, h: Bytes)
    requires a + b + c + d == e + f + g + h
    ensures b == f && c == g && d == h ==> a == e
    ensures a == e && c == g && d == h ==> b == f
    ensures a == e && b == f && d == h ==> c == g
    ensures a == e && b == f && c == g ==> d == h
  {
    if d == h {
      TailsApart(a + b + c, d, e + f + g, h);
      if c == g {
        TailsApart(a + b, c, e + f, g);
        if |b| == |f| {
          TailsApart(a, b, e, f);
        }
      } else if a == e && b == f {
        assert |a + b + c| == |e + f + g|;
        TailsApart(a + b, c, e + f, g);
      }
    } else if a == e && b == f && c == g {
      assert |a + b + c + d| == |e + f + g + h|;
      TailsApart(a + b + c, d, e + f + g, h);
    }
  }

  /** A boundary may move between two fields that stand next to each other: this is the whole ambiguity. */
  lemma BoundaryMayMove(sha: Bytes -> Hash, a: MessageEnvelope, b: MessageEnvelope)
    requires a.id == [1] && a.kind == [2] && b.id == [1, 2] && b.kind == []
    requires a.content == b.content && a.sender == b.sender && a.timestamp == b.timestamp
    ensures a.BaseHash(sha) == b.BaseHash(sha)
  {
    assert a.id + a.kind == b.id + b.kind;
  }

  const MAILBOX_DIFFICULTY := 16

  /** A payload signed and mined for a mailbox; the JSON encoding is taken to be exact. */
  datatype SignedMailboxEnvelope = SignedMailboxEnvelope(payload: Bytes, signature: Bytes, powNonce: u64, powDiff: int)

  datatype Signing = Signing(sign: Bytes -> Bytes, verify: (Bytes, Bytes) -> bool)

  method WrapEnvelopeWithSignature(sha: Bytes -> Hash, s: Signing, payload: Bytes) returns (env: SignedMailboxEnvelope)
    ensures env.payload == payload && env.signature == s.sign(payload) && env.powDiff == MAILBOX_DIFFICULTY
    ensures Solves(sha, sha(payload + env.signature), env.powDiff, env.powNonce)
            <==> Solvable(sha, sha(payload + env.signature), MAILBOX_DIFFICULTY)
  {
    var signature := s.sign(payload);
    var nonce := MinePoW(sha, sha(payload + signature), MAILBOX_DIFFICULTY);
    env := SignedMailboxEnvelope(payload, signature, nonce, MAILBOX_DIFFICULTY);
  }

  method VerifySignedEnvelope(sha: Bytes -> Hash, s: Signing,
                              env: SignedMailboxEnvelope) returns (payload: Option<Bytes>)
    ensures payload == if s.verify(env.payload, env.signature) && env.powDiff >= MAILBOX_DIFFICULTY
                          && Solves(sha, sha(env.payload + env.signature), env.powDiff, env.powNonce)
                       then Some(env.payload) else None
  {
    if !s.verify(env.payload, env.signature) {
      return None;
    }
    if env.powDiff < MAILBOX_DIFFICULTY {
      return None;
    }
    var ok := VerifyPoW(sha, sha(env.payload + env.signature), env.powDiff, env.powNonce);
    return if ok then Some(env.payload) else None;
  }

  /** A relay accepts what an honest sender wrapped, with the same payload, exactly when the search could succeed. */
  method WrapThenVerify(sha: Bytes -> Hash, s: Signing, payload: Bytes) returns (accepted: Option<Bytes>)
    requires s.verify(payload, s.sign(payload))
    ensures accepted == if Solvable(sha, sha(payload + s.sign(payload)), MAILBOX_DIFFICULTY) then Some(payload)
                        else None
  {
    var env := WrapEnvelopeWithSignature(sha, s, payload);
    accepted := VerifySignedEnvelope(sha, s, env);
  }
}
