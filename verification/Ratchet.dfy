/** The Double Ratchet session of pkg/crypto/ratchet.go. */
module Ratchet {
  import opened Prelude
  import opened SymbolicCrypto

  /** The persistent fields of a session. */
  datatype Session = Session(
    root: Key,
    send: Key,
    recv: Key,
    remotePub: KeyId,
    localPriv: KeyId,
    localPub: KeyId,
    n: u32,
    m: u32,
    pn: u32,
    outbound: u32)

  /** One wire message: ratchet public key, PN, N and the sealed payload. */
  datatype Packet = Packet(pub: KeyId, pn: u32, n: u32, box: Box)

  datatype SkippedKey = SkippedKey(pub: KeyId, counter: u32, key: Key)

  datatype Decryption = Decryption(session: Session, skipped: seq<SkippedKey>, plaintext: Option<string>)

  // ---------------------------------------------------------------- specification functions

  function EncryptPacket(s: Session, text: string): Packet {
    Packet(s.localPub, s.pn, s.n, Sealed(MessageKey(s.send), text))
  }

  function AfterEncrypt(s: Session): Session {
    s.(send := NextChain(s.send), n := Inc32(s.n), outbound := if s.outbound < 5 then s.outbound + 1 else s.outbound)
  }

  /** The keys of indices `m .. limit - 1` of a receive chain that stands at index `m`. */
  function SkippedRange(pub: KeyId, chain: Key, m: nat, limit: u32): (r: seq<SkippedKey>)
    decreases limit - m
  {
    if m >= limit then []
    else [SkippedKey(pub, m, MessageKey(chain))] + SkippedRange(pub, NextChain(chain), m + 1, limit)
  }

  /** Moves the receive chain forward to index `limit`; a chain already there stays put. */
  function SkipTo(s: Session, limit: u32): Session {
    if s.m >= limit then s else s.(recv := Advance(s.recv, limit - s.m), m := limit)
  }

  /** The Diffie-Hellman ratchet: a receive chain from the old local key, a send chain from a new one. */
  function DhStep(s: Session, pub: KeyId, newKey: KeyId): Session {
    s.(remotePub := pub, pn := s.n, n := 0, m := 0,
       recv := ChainOf(s.localPriv, pub),
       localPriv := newKey, localPub := newKey,
       root := RootHalf(DeriveSharedSecret(newKey, pub)),
       send := ChainOf(newKey, pub))
  }

  /** The session and the skipped keys when the packet's own message key comes up. */
  function BeforeOpen(s: Session, p: Packet, newKey: KeyId): (Session, seq<SkippedKey>) {
    if p.pub == s.remotePub then
      (SkipTo(s, p.n), SkippedRange(s.remotePub, s.recv, s.m, p.n))
    else
      var closed := SkipTo(s, p.pn);
      var stepped := DhStep(closed, p.pub, newKey);
      (SkipTo(stepped, p.n),
       SkippedRange(s.remotePub, s.recv, s.m, p.pn) + SkippedRange(p.pub, stepped.recv, 0, p.n))
  }

  function Decrypt(s: Session, p: Packet, newKey: KeyId): Decryption {
    var (ready, skipped) := BeforeOpen(s, p, newKey);
    var plaintext := Open(MessageKey(ready.recv), p.box);
    Decryption(
      ready.(recv := NextChain(ready.recv), m := Inc32(ready.m),
             outbound := if plaintext.Some? then 0 else ready.outbound),
      skipped,
      plaintext)
  }

  // ---------------------------------------------------------------- facts about the skip loop

  /** What the skip loop files: every index from `m` up to `limit`, in order, each with its own key. */
  lemma {:induction false} SkippedRangeContents(pub: KeyId, chain: Key, m: nat, limit: u32)
    ensures |SkippedRange(pub, chain, m, limit)| == if m < limit then limit - m else 0
    ensures forall k {:trigger SkippedRange(pub, chain, m, limit)[k]} ::
              0 <= k < |SkippedRange(pub, chain, m, limit)| ==>
              SkippedRange(pub, chain, m, limit)[k] == SkippedKey(pub, m + k, MessageKey(Advance(chain, k)))
    decreases limit - m
  {
    if m < limit {
      var rest := SkippedRange(pub, NextChain(chain), m + 1, limit);
      SkippedRangeContents(pub, NextChain(chain), m + 1, limit);
      forall k | 0 <= k < limit - m
        ensures SkippedRange(pub, chain, m, limit)[k] == SkippedKey(pub, m + k, MessageKey(Advance(chain, k)))
      {
        if k > 0 {
          assert SkippedRange(pub, chain, m, limit)[k] == rest[k - 1];
          AdvanceNext(chain, k - 1);
        }
      }
    }
  }

  /** One more turn of the skip loop appends exactly the next index. */
  lemma {:induction false} SkippedRangeSnoc(pub: KeyId, chain: Key, m: nat, limit: nat)
    requires m <= limit < U32_MAX
    ensures SkippedRange(pub, chain, m, limit + 1)
         == SkippedRange(pub, chain, m, limit) + [SkippedKey(pub, limit, MessageKey(Advance(chain, limit - m)))]
    decreases limit - m
  {
    if m < limit {
      SkippedRangeSnoc(pub, NextChain(chain), m + 1, limit);
      AdvanceNext(chain, limit - m - 1);
    } else {
      assert SkippedRange(pub, NextChain(chain), m + 1, limit + 1) == [];
    }
  }

  // ---------------------------------------------------------------- the mutable session

  class SessionState {
    var rootKey: Key
    var sendChainKey: Key
    var recvChainKey: Key
    var remoteRatchetPubkey: KeyId
    var localRatchetPrivkey: KeyId
    var localRatchetPubkey: KeyId
    var n: u32
    var m: u32
    var pn: u32
    var outboundMessagesSinceRatchet: u32

    ghost function State(): Session
      reads this
    {
      Session(rootKey, sendChainKey, recvChainKey, remoteRatchetPubkey, localRatchetPrivkey, localRatchetPubkey,
              n, m, pn, outboundMessagesSinceRatchet)
    }

    constructor (s: Session)
      ensures State() == s
    {
      rootKey, sendChainKey, recvChainKey := s.root, s.send, s.recv;
      remoteRatchetPubkey, localRatchetPrivkey, localRatchetPubkey := s.remotePub, s.localPriv, s.localPub;
      n, m, pn, outboundMessagesSinceRatchet := s.n, s.m, s.pn, s.outbound;
    }

    /** The session as a row to store. */
    method Export() returns (s: Session)
      ensures s == State()
    {
      s := Session(rootKey, sendChainKey, recvChainKey, remoteRatchetPubkey, localRatchetPrivkey, localRatchetPubkey,
                   n, m, pn, outboundMessagesSinceRatchet);
    }

    method EncryptWithRatchet(plaintext: string) returns (p: Packet)
      modifies this
      ensures p == EncryptPacket(old(State()), plaintext)
      ensures State() == AfterEncrypt(old(State()))
    {
      var msgKey := MessageKey(sendChainKey);
      sendChainKey := NextChain(sendChainKey);
      var headerN := n;
      var headerPN := pn;
      n := Inc32(n);
      if outboundMessagesSinceRatchet < 5 {
        outboundMessagesSinceRatchet := outboundMessagesSinceRatchet + 1;
      }
      p := Packet(localRatchetPubkey, headerPN, headerN, Sealed(msgKey, plaintext));
    }

    /** The loop that appears twice in `DecryptWithRatchet`. */
    method SkipMessageKeys(limit: u32, before: seq<SkippedKey>) returns (skipped: seq<SkippedKey>)
      modifies this
      ensures State() == SkipTo(old(State()), limit)
      ensures skipped == before + SkippedRange(old(remoteRatchetPubkey), old(recvChainKey), old(m), limit)
    {
      skipped := before;
      ghost var start := State();
      ghost var filed: seq<SkippedKey> := [];
      if m < limit {
        assert SkippedRange(start.remotePub, start.recv, start.m, start.m) == [];
      }
      while m < limit
        invariant start.m <= m && (m <= limit || m == start.m)
        invariant State() == start.(recv := Advance(start.recv, m - start.m), m := m)
        invariant filed == SkippedRange(start.remotePub, start.recv, start.m, m)
        invariant skipped == before + filed
        decreases limit - m
      {
        SkippedRangeSnoc(start.remotePub, start.recv, start.m, m);
        filed := filed + [SkippedKey(remoteRatchetPubkey, m, MessageKey(recvChainKey))];
        skipped := skipped + [SkippedKey(remoteRatchetPubkey, m, MessageKey(recvChainKey))];
        recvChainKey := NextChain(recvChainKey);
        m := m + 1;
      }
    }

    /** The Diffie-Hellman step of `DecryptWithRatchet`. */
    method AdvanceDhRatchet(pub: KeyId, newKey: KeyId)
      modifies this
      ensures State() == DhStep(old(State()), pub, newKey)
    {
      remoteRatchetPubkey := pub;
      pn := n;
      n := 0;
      m := 0;

      var sharedSecret := DeriveSharedSecret(localRatchetPrivkey, remoteRatchetPubkey);
      rootKey := RootHalf(sharedSecret);
      recvChainKey := ChainHalf(sharedSecret);

      localRatchetPrivkey := newKey;
      localRatchetPubkey := newKey;

      var sharedSecretSend := DeriveSharedSecret(localRatchetPrivkey, remoteRatchetPubkey);
      rootKey := RootHalf(sharedSecretSend);
      sendChainKey := ChainHalf(sharedSecretSend);
    }

    /** Everything up to the point where the packet's own message key comes up. */
    method CatchUp(p: Packet, newKey: KeyId) returns (skippedKeys: seq<SkippedKey>)
      modifies this
      ensures (State(), skippedKeys) == BeforeOpen(old(State()), p, newKey)
    {
      skippedKeys := [];
      if p.pub != remoteRatchetPubkey {
        skippedKeys := SkipMessageKeys(p.pn, skippedKeys);
        assert skippedKeys == SkippedRange(old(remoteRatchetPubkey), old(recvChainKey), old(m), p.pn);
        AdvanceDhRatchet(p.pub, newKey);
      }
      skippedKeys := SkipMessageKeys(p.n, skippedKeys);
      assert p.pub == old(remoteRatchetPubkey) ==>
          skippedKeys == SkippedRange(old(remoteRatchetPubkey), old(recvChainKey), old(m), p.n);
    }

    /** `newKey` is the key pair that `GenerateEphemeralKeypair` would return. */
    method DecryptWithRatchet(p: Packet, newKey: KeyId) returns (plaintext: Option<string>,
                              skippedKeys: seq<SkippedKey>)
      modifies this
      ensures Decryption(State(), skippedKeys, plaintext) == Decrypt(old(State()), p, newKey)
    {
      skippedKeys := CatchUp(p, newKey);
      var msgKey := MessageKey(recvChainKey);
      recvChainKey := NextChain(recvChainKey);
      m := Inc32(m);
      plaintext := Open(msgKey, p.box);
      if plaintext.Some? {
        outboundMessagesSinceRatchet := 0;
      }
    }
  }
}
