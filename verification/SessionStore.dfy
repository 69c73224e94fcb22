/**
 The session tables of pkg/storage/db_sessions.go and, around them, the synchronous part of
 PrepareSecureEnvelope (pkg/protocol/messaging_transmit.go) and of ProcessSecureEnvelope
 (pkg/protocol/messaging_receive.go).
 */
module SessionStore {
  import opened Prelude
  import opened SymbolicCrypto
  import opened Ratchet

  type PeerId = string
  const X3DH_COOLDOWN := 5_000_000_000      // nanoseconds

  type SkippedTable = map<(KeyId, u32), Key>

  /** What one node stores about one peer. */
  datatype Node = Node(session: Option<Session>, skipped: SkippedTable)

  datatype Envelope =
    | DR(packet: Packet)
    | X3DH(keyId: KeyId, ePub: KeyId, ratchetPub: KeyId, payload: Box)

  // ---------------------------------------------------------------- specification functions

  /** A row whose root key is empty counts as no session. */
  predicate Usable(node: Node) {
    node.session.Some? && node.session.value.root != Empty
  }

  /** An empty chain key is replaced by the root key when the session is loaded. */
  function OrRoot(chain: Key, root: Key): Key {
    if chain == Empty then root else chain
  }

  /** Sending: an existing session encrypts, otherwise a fetched pre-key starts a handshake. */
  function Prepare(node: Node, text: string, preKey: Option<KeyId>, ephemeral: KeyId, ratchet: KeyId): (Node,
                   Option<Envelope>)
  {
    if Usable(node) then
      var s := node.session.value;
      var loaded := s.(send := OrRoot(s.send, s.root));
      (node.(session := Some(AfterEncrypt(loaded))), Some(DR(EncryptPacket(loaded, text))))
    else if preKey.None? then
      (node, None)
    else
      var secret := DeriveSharedSecret(ratchet, preKey.value);
      (Node(Some(Session(RootHalf(secret), ChainHalf(secret), Empty, preKey.value, ratchet, ratchet, 0, 0, 0, 0)),
            map[]),
       Some(X3DH(preKey.value, ephemeral, ratchet, Sealed(DeriveSharedSecret(ephemeral, preKey.value), text))))
  }

  /** A handshake was begun less than five seconds ago. */
  predicate CoolingDown(begun: Option<int>, now: int) {
    begun.Some? && now - begun.value < X3DH_COOLDOWN
  }

  /** Sending with the cooldown; `begun` is when a handshake with the peer was last begun. */
  function PrepareAt(node: Node, begun: Option<int>, text: string, preKey: Option<KeyId>, ephemeral: KeyId,
                     ratchet: KeyId, now: int): (Node, Option<int>, Option<Envelope>)
  {
    if !Usable(node) && CoolingDown(begun, now) then (node, begun, None)
    else
      var (node', env) := Prepare(node, text, preKey, ephemeral, ratchet);
      (node', if Usable(node) then begun else Some(now), env)
  }

  function FileSkipped(table: SkippedTable, skipped: seq<SkippedKey>): SkippedTable {
    if skipped == [] then table
    else
      var last := skipped[|skipped| - 1];
      FileSkipped(table, skipped[..|skipped| - 1])[(last.pub, last.counter) := last.key]
  }

  /** The ratchet path: works on a copy of the session and stores it only on success. */
  function ReceiveByRatchet(node: Node, p: Packet, newKey: KeyId): (Node, Option<string>) {
    if !Usable(node) then (node, None)
    else
      var s := node.session.value;
      var d := Decrypt(s.(recv := OrRoot(s.recv, s.root)), p, newKey);
      if d.plaintext.None? then (node, None)
      else (Node(Some(d.session), FileSkipped(node.skipped, d.skipped)), d.plaintext)
  }

  /** The DR branch: the one-shot skipped-key table first, then the ratchet path. */
  function ReceiveDR(node: Node, p: Packet, newKey: KeyId): (Node, Option<string>) {
    var key := (p.pub, p.n);
    if key !in node.skipped then
      ReceiveByRatchet(node, p, newKey)
    else
      var rest := node.(skipped := node.skipped - {key});
      var unsealed := Open(node.skipped[key], p.box);
      if unsealed.Some? then (rest, unsealed) else ReceiveByRatchet(rest, p, newKey)
  }

  /** The X3DH branch; `preKeys` are the pre-keys whose private half this node still has. */
  function ReceiveX3DH(node: Node, preKeys: set<KeyId>, env: Envelope, newKey: KeyId): (Node, set<KeyId>,
                       Option<string>)
    requires env.X3DH?
  {
    if env.keyId !in preKeys then (node, preKeys, None)
    else
      var sendSecret := DeriveSharedSecret(newKey, env.ratchetPub);
      var s := Session(RootHalf(sendSecret), ChainHalf(sendSecret), ChainOf(env.keyId, env.ratchetPub),
                       env.ratchetPub, newKey, newKey, 0, 0, 0, 0);
      var unsealed := Open(DeriveSharedSecret(env.keyId, env.ePub), env.payload);
      if unsealed.None? then (Node(None, map[]), preKeys, None)
      else (Node(Some(s), map[]), preKeys - {env.keyId}, unsealed)
  }

  function Receive(node: Node, preKeys: set<KeyId>, env: Envelope, newKey: KeyId): (Node, set<KeyId>, Option<string>) {
    match env
    case DR(p) =>
      var (node', text) := ReceiveDR(node, p, newKey);
      (node', preKeys, text)
    case X3DH(_, _, _, _) => ReceiveX3DH(node, preKeys, env, newKey)
  }

  /**
   Whatever arrives, genuine or not, a message that fails to decrypt leaves the session row as it
   was, and of the skipped keys takes at most the one filed under the message's own epoch and counter.
   */
  lemma FailureKeepsSession(node: Node, p: Packet, newKey: KeyId)
    requires ReceiveDR(node, p, newKey).1.None?
    ensures ReceiveDR(node, p, newKey).0 == node.(skipped := node.skipped - {(p.pub, p.n)})
  {
    if (p.pub, p.n) !in node.skipped {
      assert node.skipped - {(p.pub, p.n)} == node.skipped;
    }
  }

  // ---------------------------------------------------------------- the mutable tables

  class Store {
    var sessions: map<PeerId, Session>
    var skippedKeys: map<PeerId, SkippedTable>
    var preKeys: set<KeyId>
    var x3dhInitiated: map<PeerId, int>      // when a handshake with a peer was last begun

    ghost function View(peer: PeerId): Node
      reads this
    {
      Node(if peer in sessions then Some(sessions[peer]) else None,
           if peer in skippedKeys then skippedKeys[peer] else map[])
    }

    function Begun(peer: PeerId): Option<int>
      reads this`x3dhInitiated
    {
      if peer in x3dhInitiated then Some(x3dhInitiated[peer]) else None
    }

    constructor ()
      ensures forall peer :: View(peer) == Node(None, map[])
      ensures preKeys == {} && x3dhInitiated == map[]
    {
      sessions, skippedKeys, preKeys, x3dhInitiated := map[], map[], {}, map[];
    }

    method SaveSession(peer: PeerId, s: Session)
      modifies this`sessions
      ensures View(peer) == old(View(peer)).(session := Some(s))
      ensures forall other | other != peer :: View(other) == old(View(other))
    {
      sessions := sessions[peer := s];
    }

    method SaveSkippedKey(peer: PeerId, k: SkippedKey)
      modifies this`skippedKeys
      ensures View(peer) == old(View(peer)).(skipped := old(View(peer)).skipped[(k.pub, k.counter) := k.key])
      ensures forall other | other != peer :: View(other) == old(View(other))
    {
      var table := if peer in skippedKeys then skippedKeys[peer] else map[];
      skippedKeys := skippedKeys[peer := table[(k.pub, k.counter) := k.key]];
    }

    /** Reads a skipped key and deletes its row. */
    method GetSkippedKey(peer: PeerId, pub: KeyId, counter: u32) returns (key: Option<Key>)
      modifies this`skippedKeys
      ensures var table := old(View(peer)).skipped;
              && key == (if (pub, counter) in table then Some(table[(pub, counter)]) else None)
              && View(peer) == old(View(peer)).(skipped := table - {(pub, counter)})
      ensures forall other | other != peer :: View(other) == old(View(other))
    {
      if peer !in skippedKeys || (pub, counter) !in skippedKeys[peer] {
        assert peer in skippedKeys ==> skippedKeys[peer] - {(pub, counter)} == skippedKeys[peer];
        ghost var none: SkippedTable := map[];
        assert none - {(pub, counter)} == none;
        return None;
      }
      key := Some(skippedKeys[peer][(pub, counter)]);
      skippedKeys := skippedKeys[peer := skippedKeys[peer] - {(pub, counter)}];
    }

    method ClearSkippedKeys(peer: PeerId)
      modifies this`skippedKeys
      ensures View(peer) == old(View(peer)).(skipped := map[])
      ensures forall other | other != peer :: View(other) == old(View(other))
    {
      skippedKeys := skippedKeys - {peer};
    }

    method DeleteSession(peer: PeerId)
      modifies this`sessions, this`skippedKeys
      ensures View(peer) == Node(None, map[])
      ensures forall other | other != peer :: View(other) == old(View(other))
    {
      sessions := sessions - {peer};
      ClearSkippedKeys(peer);
    }

    method PrepareSecureEnvelope(target: PeerId, text: string, preKey: Option<KeyId>, ephemeral: KeyId,
                                 ratchet: KeyId, now: int)
      returns (env: Option<Envelope>)
      modifies this`sessions, this`skippedKeys, this`x3dhInitiated
      ensures (View(target), Begun(target), env)
              == PrepareAt(old(View(target)), old(Begun(target)), text, preKey, ephemeral, ratchet, now)
      ensures forall other | other != target :: View(other) == old(View(other)) && Begun(other) == old(Begun(other))
    {
      if target in sessions && sessions[target].root != Empty {
        var s := sessions[target];
        var session := new SessionState(s.(send := if s.send == Empty then s.root else s.send));
        var p := session.EncryptWithRatchet(text);
        var saved := session.Export();
        SaveSession(target, saved);
        return Some(DR(p));
      }
      if target in x3dhInitiated && now - x3dhInitiated[target] < X3DH_COOLDOWN {
        return None;
      }
      x3dhInitiated := x3dhInitiated[target := now];
      if preKey.None? {
        return None;
      }
      var aesKey := DeriveSharedSecret(ephemeral, preKey.value);
      var sharedSecret := DeriveSharedSecret(ratchet, preKey.value);
      ClearSkippedKeys(target);
      SaveSession(target,
        Session(RootHalf(sharedSecret), ChainHalf(sharedSecret), Empty, preKey.value, ratchet, ratchet, 0, 0, 0, 0));
      return Some(X3DH(preKey.value, ephemeral, ratchet, Sealed(aesKey, text)));
    }

    method SaveSkippedKeys(peer: PeerId, skipped: seq<SkippedKey>)
      modifies this`skippedKeys
      ensures View(peer) == old(View(peer)).(skipped := FileSkipped(old(View(peer)).skipped, skipped))
      ensures forall other | other != peer :: View(other) == old(View(other))
    {
      for i := 0 to |skipped|
        invariant View(peer) == old(View(peer)).(skipped := FileSkipped(old(View(peer)).skipped, skipped[..i]))
        invariant forall other | other != peer :: View(other) == old(View(other))
      {
        SaveSkippedKey(peer, skipped[i]);
        assert skipped[..i + 1][..i] == skipped[..i];
      }
      assert skipped[..|skipped|] == skipped;
    }

    method ProcessDR(sender: PeerId, p: Packet, newKey: KeyId) returns (plaintext: Option<string>)
      modifies this`sessions, this`skippedKeys
      ensures (View(sender), plaintext) == ReceiveDR(old(View(sender)), p, newKey)
      ensures forall other | other != sender :: View(other) == old(View(other))
    {
      ghost var before := View(sender);
      var skippedKey := GetSkippedKey(sender, p.pub, p.n);
      if skippedKey.Some? {
        plaintext := Open(skippedKey.value, p.box);
        if plaintext.Some? {
          return;
        }
      } else {
        assert before.skipped - {(p.pub, p.n)} == before.skipped;
      }
      if sender !in sessions || sessions[sender].root == Empty {
        return None;
      }
      var s := sessions[sender];
      var session := new SessionState(s.(recv := if s.recv == Empty then s.root else s.recv));
      var skipped;
      plaintext, skipped := session.DecryptWithRatchet(p, newKey);
      if plaintext.None? {
        return;
      }
      var saved := session.Export();
      SaveSession(sender, saved);
      SaveSkippedKeys(sender, skipped);
    }

    method ProcessX3DH(sender: PeerId, env: Envelope, newKey: KeyId) returns (plaintext: Option<string>)
      requires env.X3DH?
      modifies this
      ensures (View(sender), preKeys, plaintext) == ReceiveX3DH(old(View(sender)), old(preKeys), env, newKey)
      ensures forall other | other != sender :: View(other) == old(View(other))
    {
      if env.keyId !in preKeys {
        return None;
      }
      var aesKey := DeriveSharedSecret(env.keyId, env.ePub);
      var recvChainSecret := DeriveSharedSecret(env.keyId, env.ratchetPub);
      var sharedSecretSend := DeriveSharedSecret(newKey, env.ratchetPub);
      ClearSkippedKeys(sender);
      SaveSession(sender,
        Session(RootHalf(sharedSecretSend), ChainHalf(sharedSecretSend), ChainHalf(recvChainSecret),
                env.ratchetPub, newKey, newKey, 0, 0, 0, 0));
      plaintext := Open(aesKey, env.payload);
      if plaintext.None? {
        DeleteSession(sender);
        return;
      }
      preKeys := preKeys - {env.keyId};
    }

    method ProcessSecureEnvelope(sender: PeerId, env: Envelope, newKey: KeyId) returns (plaintext: Option<string>)
      modifies this
      ensures (View(sender), preKeys, plaintext) == Receive(old(View(sender)), old(preKeys), env, newKey)
      ensures forall other | other != sender :: View(other) == old(View(other))
    {
      match env {
        case DR(p) => plaintext := ProcessDR(sender, p, newKey);
        case X3DH(_, _, _, _) => plaintext := ProcessX3DH(sender, env, newKey);
      }
    }
  }
}
