/**
 A two-party session over a network that loses, reorders and repeats messages, and may bring foreign
 ones.  The world below is built only from `Prepare` and `Receive`; a run is any sequence of sends,
 deliveries and injections.
 */
module TwoParty {
  import opened Prelude
  import opened SymbolicCrypto
  import opened Ratchet
  import opened SessionStore

  datatype Side = Alice | Bob {
    function Other(): Side {
      if this == Alice then Bob else Alice
    }
  }

  datatype Sent = Sent(from: Side, env: Envelope, text: string)

  /**
   Both nodes, the pre-keys each still holds, everything ever sent, and the envelopes whose keys are
   spent: decrypted, or lost to an injected packet.  `aliceKeys` and `bobKeys` list the ratchet public
   keys each side has had; `wiped` names the sides whose session an injected handshake has destroyed.
   */
  datatype World = World(
    alice: Node,
    bob: Node,
    aliceKeys: seq<KeyId>,
    bobKeys: seq<KeyId>,
    alicePreKeys: set<KeyId>,
    bobPreKeys: set<KeyId>,
    nextKey: KeyId,
    net: seq<Sent>,
    spent: set<nat>,
    wiped: set<Side>)
  {
    function At(side: Side): Node {
      if side == Alice then alice else bob
    }

    function KeysOf(side: Side): seq<KeyId> {
      if side == Alice then aliceKeys else bobKeys
    }

    function PreKeysOf(side: Side): set<KeyId> {
      if side == Alice then alicePreKeys else bobPreKeys
    }

    function With(side: Side, node: Node): World {
      if side == Alice then this.(alice := node, aliceKeys := Track(aliceKeys, alice, node))
      else this.(bob := node, bobKeys := Track(bobKeys, bob, node))
    }

    function WithPreKeys(side: Side, preKeys: set<KeyId>): World {
      if side == Alice then this.(alicePreKeys := preKeys) else this.(bobPreKeys := preKeys)
    }
  }

  /** Adds the node's ratchet public key to the list when it is a new one. */
  function Track(keys: seq<KeyId>, before: Node, node: Node): seq<KeyId> {
    if node.session.None? || (before.session.Some? && before.session.value.localPub == node.session.value.localPub)
    then keys
    else keys + [node.session.value.localPub]
  }

  /**
   `Deliver(i)` hands the i-th envelope ever sent to its addressee, for the first time or again;
   `Inject` hands a side an envelope that the other side did not send in this form; `Stock` adds a
   pre-key to a side's supply.
   */
  datatype Event =
    | Send(from: Side, text: string)
    | Deliver(index: nat)
    | Inject(to: Side, env: Envelope)
    | Stock(side: Side)

  function BoxOf(env: Envelope): Box {
    match env
    case DR(p) => p.box
    case X3DH(_, _, _, payload) => payload
  }

  /** Any header, over a payload that no key of the session opens, such as one garbled on the way. */
  predicate Foreign(env: Envelope) {
    !BoxOf(env).key.MessageKey? && !BoxOf(env).key.Shared?
  }

  /** An injected envelope carries the header of message `i` while the key of `i` is stored. */
  predicate Hits(w: World, to: Side, env: Envelope, i: nat)
    requires i < |w.net|
  {
    && env.DR? && w.net[i].env.DR? && w.net[i].from == to.Other()
    && (w.net[i].env.packet.pub, w.net[i].env.packet.n) == (env.packet.pub, env.packet.n)
    && (env.packet.pub, env.packet.n) in w.At(to).skipped
  }

  function Struck(w: World, to: Side, env: Envelope): set<nat> {
    set i | 0 <= i < |w.net| && Hits(w, to, env, i)
  }

  /** A handshake that names a pre-key its receiver holds replaces the session before its payload is opened. */
  predicate NamesPreKey(w: World, to: Side, env: Envelope) {
    env.X3DH? && env.keyId in w.PreKeysOf(to)
  }

  predicate Wipes(w: World, to: Side, env: Envelope) {
    NamesPreKey(w, to, env) && w.At(to).session.Some?
  }

  /**
   The first message, the pre-key of Bob's it is sealed for, Alice's two new key pairs, the pre-keys either
   side has besides, and the next new key pair.
   */
  datatype Opening = Opening(text: string, preKey: KeyId, ephemeral: KeyId, ratchet: KeyId,
                             alicePreKeys: set<KeyId>, bobPreKeys: set<KeyId>, nextKey: KeyId)

  type Setup = o: Opening | o.preKey != o.ratchet && o.preKey < o.nextKey && o.ratchet < o.nextKey
    witness Opening("", 0, 1, 2, {}, {}, 3)

  /** Alice has just started the handshake for a pre-key that Bob holds. */
  function Start(setup: Setup): World {
    var (alice, env) := Prepare(Node(None, map[]), setup.text, Some(setup.preKey), setup.ephemeral, setup.ratchet);
    World(alice, Node(None, map[]), [setup.ratchet], [setup.preKey], setup.alicePreKeys,
          setup.bobPreKeys + {setup.preKey}, setup.nextKey, [Sent(Alice, env.value, setup.text)], {}, {})
  }

  /** What the addressee of envelope `i` makes of it now. */
  function Reception(w: World, i: nat): (Node, set<KeyId>, Option<string>)
    requires i < |w.net|
  {
    var to := w.net[i].from.Other();
    Receive(w.At(to), w.PreKeysOf(to), w.net[i].env, w.nextKey)
  }

  /** Nodes without a session do not send, and nobody sends more than 2^32-1 messages in one epoch. */
  predicate CanSend(node: Node) {
    Usable(node) && node.session.value.n < U32_MAX
  }

  function Step(w: World, e: Event): World {
    match e
    case Send(from, text) =>
      if !CanSend(w.At(from)) then w
      else
        var (node, env) := Prepare(w.At(from), text, None, 0, 0);
        w.With(from, node).(net := w.net + [Sent(from, env.value, text)])
    case Deliver(i) =>
      if i >= |w.net| then w
      else
        var (node, preKeys, text) := Reception(w, i);
        var to := w.net[i].from.Other();
        w.With(to, node).WithPreKeys(to, preKeys).(
          nextKey := w.nextKey + 1,
          spent := if text.Some? then w.spent + {i} else w.spent)
    case Inject(to, env) =>
      if !Foreign(env) then w
      else
        var (node, preKeys, _) := Receive(w.At(to), w.PreKeysOf(to), env, w.nextKey);
        w.With(to, node).WithPreKeys(to, preKeys).(
          nextKey := w.nextKey + 1,
          spent := w.spent + Struck(w, to, env),
          wiped := if Wipes(w, to, env) then w.wiped + {to} else w.wiped)
    case Stock(side) => w.WithPreKeys(side, w.PreKeysOf(side) + {w.nextKey}).(nextKey := w.nextKey + 1)
  }

  function Run(setup: Setup, events: seq<Event>): World {
    if events == [] then Start(setup)
    else Step(Run(setup, events[..|events| - 1]), events[|events| - 1])
  }

  // ---------------------------------------------------------------- history

  /**
   All ratchet key pairs in the order of their creation: Bob's pre-key, then Alice's and Bob's in
   turn.  Chain `c` is the one its owner sends on while holding `keys[c]`; `at[c][k]` is the place in
   the network of its k-th message and `chain[i]` the chain of the i-th envelope.
   */
  datatype History = History(keys: seq<KeyId>, at: seq<seq<nat>>, chain: seq<nat>)

  function Owner(c: nat): Side {
    if c % 2 == 1 then Alice else Bob
  }

  ghost function Chain(h: History, c: nat): Key
    requires 1 <= c < |h.keys|
  {
    ChainOf(h.keys[c], h.keys[c - 1])
  }

  ghost predicate Shape(h: History, net: seq<Sent>, nextKey: KeyId) {
    && |h.keys| == |h.at| >= 2
    && |h.chain| == |net| >= 1
    && h.at[0] == []
    && Distinct(h.keys)
    && (forall c :: 0 <= c < |h.keys| ==> h.keys[c] < nextKey)
    && (forall c :: 0 <= c < |h.at| ==> |h.at[c]| <= U32_MAX)
    && (forall i :: 1 <= i < |net| ==> 1 <= h.chain[i] < |h.keys|)
  }

  ghost function PreviousCount(h: History, c: nat): nat
    requires c < |h.at|
  {
    if c >= 2 then |h.at[c - 2]| else 0
  }

  /** Envelope `i` carries the header and the key that its place in its chain calls for. */
  ghost predicate PacketOK(h: History, net: seq<Sent>, nextKey: KeyId, i: nat)
    requires Shape(h, net, nextKey) && 1 <= i < |net|
  {
    var c := h.chain[i];
    && net[i].env.DR?
    && net[i].from == Owner(c)
    && var p := net[i].env.packet;
       && p.n < |h.at[c]| && h.at[c][p.n] == i
       && p.pub == h.keys[c]
       && p.pn == PreviousCount(h, c)
       && p.box == Sealed(MessageKey(Advance(Chain(h, c), p.n)), net[i].text)
  }

  ghost predicate PlaceOK(h: History, net: seq<Sent>, nextKey: KeyId, c: nat, k: nat)
    requires Shape(h, net, nextKey) && c < |h.at| && k < |h.at[c]|
  {
    var i := h.at[c][k];
    1 <= i < |net| && h.chain[i] == c && net[i].env.DR? && net[i].env.packet.n == k
  }

  ghost predicate HistoryOK(h: History, net: seq<Sent>, nextKey: KeyId) {
    && Shape(h, net, nextKey)
    && (forall i: nat :: 1 <= i < |net| ==> PacketOK(h, net, nextKey, i))
    && (forall c: nat, k: nat :: c < |h.at| && k < |h.at[c]| ==> PlaceOK(h, net, nextKey, c, k))
  }

  /** A party at position `p` holds `keys[p]`, sends on chain `p` and receives on chain `p - 1`. */
  ghost predicate SessionOK(h: History, s: Session, p: nat) {
    && |h.keys| == |h.at|
    && 1 <= p < |h.keys|
    && s.localPriv == s.localPub == h.keys[p]
    && s.remotePub == h.keys[p - 1]
    && s.n == |h.at[p]|
    && s.pn == PreviousCount(h, p)
    && s.root == RootHalf(DeriveSharedSecret(h.keys[p], h.keys[p - 1]))
    && s.send == Advance(Chain(h, p), s.n)
    && s.m <= |h.at[p - 1]|
    && (if p == 1 then s.recv == Empty else s.recv == Advance(Chain(h, p - 1), s.m))
  }

  /** How far a party at position `p` with receive counter `m` has walked along chain `c`. */
  ghost function Limit(h: History, p: nat, m: nat, c: nat): nat
    requires c < |h.at|
  {
    if c < p - 1 then |h.at[c]| else if c == p - 1 then m else 0
  }

  ghost predicate Incoming(h: History, p: nat, c: nat) {
    1 <= c < |h.at| && c % 2 != p % 2
  }

  /** Message `k` of incoming chain `c` was walked past and has not been decrypted. */
  ghost predicate Waiting(h: History, spent: set<nat>, p: nat, m: nat, c: nat, k: nat) {
    Incoming(h, p, c) && k < Limit(h, p, m, c) && k < |h.at[c]| && h.at[c][k] !in spent
  }

  ghost predicate FiledUnder(h: History, spent: set<nat>, p: nat, m: nat, c: nat, key: (KeyId, u32)) {
    Waiting(h, spent, p, m, c, key.1) && c < |h.keys| && h.keys[c] == key.0
  }

  ghost predicate TableOK(h: History, spent: set<nat>, table: SkippedTable, p: nat, m: nat) {
    && |h.keys| == |h.at|
    && (forall c: nat, k: u32 :: Waiting(h, spent, p, m, c, k) ==>
          (h.keys[c], k) in table && table[(h.keys[c], k)] == MessageKey(Advance(Chain(h, c), k)))
    && (forall key :: key in table ==> exists c: nat :: FiledUnder(h, spent, p, m, c, key))
  }

  /** Nothing was decrypted beyond where this party has walked. */
  ghost predicate WalkedOK(h: History, spent: set<nat>, p: nat, m: nat) {
    forall c: nat, k: nat :: Incoming(h, p, c) && k < |h.at[c]| && h.at[c][k] in spent ==> k < Limit(h, p, m, c)
  }

  ghost predicate PartyOK(h: History, spent: set<nat>, node: Node, p: nat) {
    && node.session.Some?
    && SessionOK(h, node.session.value, p)
    && TableOK(h, spent, node.skipped, p, node.session.value.m)
    && WalkedOK(h, spent, p, node.session.value.m)
  }

  // ---------------------------------------------------------------- keys of different places differ

  lemma ChainSecretsDiffer(h: History, a: nat, b: nat, c: nat, d: nat)
    requires Distinct(h.keys) && a < |h.keys| && b < |h.keys| && c < |h.keys| && d < |h.keys|
    requires DeriveSharedSecret(h.keys[a], h.keys[b]) == DeriveSharedSecret(h.keys[c], h.keys[d])
    ensures (a == c && b == d) || (a == d && b == c)
  {
  }

  /** Pairing a new local key with an old remote one gives none of the secrets in use. */
  lemma StaleSecretDiffers(h: History, p: nat, c: nat)
    requires Distinct(h.keys) && 1 <= c < p < |h.keys|
    ensures DeriveSharedSecret(h.keys[p], h.keys[c]) != DeriveSharedSecret(h.keys[c], h.keys[c - 1])
  {
    if DeriveSharedSecret(h.keys[p], h.keys[c]) == DeriveSharedSecret(h.keys[c], h.keys[c - 1]) {
      ChainSecretsDiffer(h, p, c, c, c - 1);
    }
  }

  /** Two message keys are equal only at the same place of the same chain. */
  lemma MessageKeysDiffer(h: History, c: nat, i: nat, d: nat, j: nat)
    requires Distinct(h.keys) && 1 <= c < |h.keys| && 1 <= d < |h.keys|
    requires Advance(Chain(h, c), i) == Advance(Chain(h, d), j)
    ensures c == d && i == j
  {
    AdvanceInjective(DeriveSharedSecret(h.keys[c], h.keys[c - 1]), i, DeriveSharedSecret(h.keys[d], h.keys[d - 1]), j);
    ChainSecretsDiffer(h, c, c - 1, d, d - 1);
  }

  lemma ChainNotEmpty(chain: Key, n: nat)
    requires chain.ChainHalf?
    ensures Advance(chain, n) != Empty
  {
  }

  // ---------------------------------------------------------------- the skipped-key table

  lemma {:induction false} FileAppend(table: SkippedTable, a: seq<SkippedKey>, b: seq<SkippedKey>)
    ensures FileSkipped(table, a + b) == FileSkipped(FileSkipped(table, a), b)
  {
    if b == [] {
      assert a + b == a;
    } else {
      var b' := b[..|b| - 1];
      assert (a + b)[..|a + b| - 1] == a + b';
      FileAppend(table, a, b');
    }
  }

  /** Filing a skipped range adds exactly its indices, each with its own message key. */
  lemma {:induction false} FileRangeAt(table: SkippedTable, pub: KeyId, chain: Key, m: nat, limit: u32, key: (KeyId,
                                       u32))
    requires m <= limit
    ensures var filed := FileSkipped(table, SkippedRange(pub, chain, m, limit));
            if key.0 == pub && m <= key.1 < limit
            then key in filed && filed[key] == MessageKey(Advance(chain, key.1 - m))
            else (key in filed <==> key in table) && (key in filed ==> filed[key] == table[key])
    decreases limit - m
  {
    if m < limit {
      var range := SkippedRange(pub, chain, m, limit - 1);
      FileRangeAt(table, pub, chain, m, limit - 1, key);
      SkippedRangeSnoc(pub, chain, m, limit - 1);
      FileSnoc(table, range, SkippedKey(pub, limit - 1, MessageKey(Advance(chain, limit - 1 - m))));
    }
  }

  lemma FileSnoc(table: SkippedTable, a: seq<SkippedKey>, k: SkippedKey)
    ensures FileSkipped(table, a + [k]) == FileSkipped(table, a)[(k.pub, k.counter) := k.key]
  {
    assert (a + [k])[..|a|] == a;
  }

  lemma FileRange(table: SkippedTable, pub: KeyId, chain: Key, m: nat, limit: u32)
    requires m <= limit
    ensures var filed := FileSkipped(table, SkippedRange(pub, chain, m, limit));
            forall key: (KeyId, u32) ::
              && (key in filed <==> key in table || (key.0 == pub && m <= key.1 < limit))
              && (key in filed ==>
                    filed[key] == if key.0 == pub && m <= key.1 < limit
                                  then MessageKey(Advance(chain, key.1 - m)) else table[key])
  {
    forall key: (KeyId, u32) {
      FileRangeAt(table, pub, chain, m, limit, key);
    }
  }

  /** The table answers for a packet exactly when its message is waiting. */
  lemma LookupIsExact(h: History, net: seq<Sent>, nextKey: KeyId, spent: set<nat>, node: Node, p: nat, i: nat)
    requires HistoryOK(h, net, nextKey) && PartyOK(h, spent, node, p)
    requires 1 <= i < |net| && Incoming(h, p, h.chain[i])
    ensures PacketOK(h, net, nextKey, i)
    ensures var pkt := net[i].env.packet;
            (pkt.pub, pkt.n) in node.skipped
            <==> Waiting(h, spent, p, node.session.value.m, h.chain[i], pkt.n)
  {
    assert PacketOK(h, net, nextKey, i);
    var pkt := net[i].env.packet;
    var m := node.session.value.m;
    if (pkt.pub, pkt.n) in node.skipped {
      var c: nat :| FiledUnder(h, spent, p, m, c, (pkt.pub, pkt.n));
      assert h.keys[c] == h.keys[h.chain[i]];
    }
  }

  // ---------------------------------------------------------------- one reception, case by case

  /** Giving up the row of a waiting message spends that message and leaves the others as they were. */
  lemma {:induction false} RowGone(h: History, net: seq<Sent>, nextKey: KeyId, spent: set<nat>, table: SkippedTable,
                                   p: nat, m: nat, i: nat)
    requires HistoryOK(h, net, nextKey) && TableOK(h, spent, table, p, m)
    requires 1 <= i < |net| && Incoming(h, p, h.chain[i]) && PacketOK(h, net, nextKey, i)
    ensures TableOK(h, spent + {i}, table - {(net[i].env.packet.pub, net[i].env.packet.n)}, p, m)
  {
    var row, spent' := (net[i].env.packet.pub, net[i].env.packet.n), spent + {i};
    forall c: nat, k: u32 | Waiting(h, spent', p, m, c, k)
      ensures (h.keys[c], k) in table - {row} && table[(h.keys[c], k)] == MessageKey(Advance(Chain(h, c), k))
    {
      assert Waiting(h, spent, p, m, c, k);
      assert PlaceOK(h, net, nextKey, c, k);
    }
    forall key | key in table - {row}
      ensures exists c: nat :: FiledUnder(h, spent', p, m, c, key)
    {
      var c: nat :| FiledUnder(h, spent, p, m, c, key);
      assert PlaceOK(h, net, nextKey, c, key.1);
      assert FiledUnder(h, spent', p, m, c, key);
    }
  }

  lemma RowGoneWalked(h: History, net: seq<Sent>, nextKey: KeyId, spent: set<nat>, p: nat, m: nat, i: nat)
    requires HistoryOK(h, net, nextKey) && WalkedOK(h, spent, p, m)
    requires 1 <= i < |net| && PacketOK(h, net, nextKey, i)
    requires Waiting(h, spent, p, m, h.chain[i], net[i].env.packet.n)
    ensures WalkedOK(h, spent + {i}, p, m)
  {
    forall c: nat, k: nat | Incoming(h, p, c) && k < |h.at[c]| && h.at[c][k] in spent + {i}
      ensures k < Limit(h, p, m, c)
    {
      assert PlaceOK(h, net, nextKey, c, k);
    }
  }

  lemma RowTaken(h: History, net: seq<Sent>, nextKey: KeyId, spent: set<nat>, node: Node, p: nat, i: nat)
    requires HistoryOK(h, net, nextKey) && PartyOK(h, spent, node, p)
    requires 1 <= i < |net| && Incoming(h, p, h.chain[i]) && PacketOK(h, net, nextKey, i)
    requires Waiting(h, spent, p, node.session.value.m, h.chain[i], net[i].env.packet.n)
    ensures PartyOK(h, spent + {i}, node.(skipped := node.skipped - {(net[i].env.packet.pub, net[i].env.packet.n)}), p)
  {
    RowGone(h, net, nextKey, spent, node.skipped, p, node.session.value.m, i);
    RowGoneWalked(h, net, nextKey, spent, p, node.session.value.m, i);
  }

  /** A waiting message opens with its stored key, and only that row goes. */
  lemma {:induction false} ReceiveWaiting(h: History, net: seq<Sent>, nextKey: KeyId, spent: set<nat>, node: Node,
                                          p: nat, i: nat, newKey: KeyId)
    requires HistoryOK(h, net, nextKey) && PartyOK(h, spent, node, p)
    requires 1 <= i < |net| && Incoming(h, p, h.chain[i])
    requires PacketOK(h, net, nextKey, i)
    requires Waiting(h, spent, p, node.session.value.m, h.chain[i], net[i].env.packet.n)
    ensures var (node', text) := ReceiveDR(node, net[i].env.packet, newKey);
            && text == Some(net[i].text)
            && PartyOK(h, spent + {i}, node', p)
  {
    LookupIsExact(h, net, nextKey, spent, node, p, i);
    RowTaken(h, net, nextKey, spent, node, p, i);
  }

  /** A foreign payload opens nowhere: all it can do is use up the row its header names. */
  lemma ReceiveForeign(h: History, spent: set<nat>, node: Node, p: nat, preKeys: set<KeyId>, env: Envelope,
                       newKey: KeyId)
    requires node == Node(None, map[]) || (PartyOK(h, spent, node, p) && !(env.X3DH? && env.keyId in preKeys))
    requires Foreign(env)
    ensures Receive(node, preKeys, env, newKey) ==
            (if env.DR? then node.(skipped := node.skipped - {(env.packet.pub, env.packet.n)}) else node, preKeys, None)
  {
    if env.DR? {
      var row := (env.packet.pub, env.packet.n);
      if row in node.skipped {
        var c: nat :| FiledUnder(h, spent, p, node.session.value.m, c, row);
        assert node.skipped[row].MessageKey?;
      }
      FailureKeepsSession(node, env.packet, newKey);
    }
  }

  /** A repeated message finds no stored key and does not open: nothing changes. */
  lemma ReceiveAgain(h: History, net: seq<Sent>, nextKey: KeyId, spent: set<nat>, node: Node, p: nat, i: nat,
                     newKey: KeyId)
    requires HistoryOK(h, net, nextKey) && PartyOK(h, spent, node, p)
    requires 1 <= i < |net| && Incoming(h, p, h.chain[i])
    requires i in spent
    ensures net[i].env.DR? && ReceiveDR(node, net[i].env.packet, newKey) == (node, None)
  {
    LookupIsExact(h, net, nextKey, spent, node, p, i);
    var pkt := net[i].env.packet;
    var c := h.chain[i];
    var s := node.session.value;
    assert pkt.n < Limit(h, p, s.m, c);
    ChainNotEmpty(Chain(h, p - 1), s.m);
    var (ready, _) := BeforeOpen(s, pkt, newKey);
    if c == p - 1 {
      assert ready == s;
      if MessageKey(s.recv) == pkt.box.key {
        MessageKeysDiffer(h, p - 1, s.m, c, pkt.n);
      }
    } else {
      assert pkt.pub != s.remotePub;
      StaleSecretDiffers(h, p, c);
      assert ready.recv == Advance(ChainOf(h.keys[p], h.keys[c]), pkt.n);
      if MessageKey(ready.recv) == pkt.box.key {
        AdvanceInjective(DeriveSharedSecret(h.keys[p], h.keys[c]), pkt.n,
                         DeriveSharedSecret(h.keys[c], h.keys[c - 1]), pkt.n);
      }
    }
  }

  /** What a message further along the current receive chain does to session and table. */
  lemma AheadOpens(h: History, net: seq<Sent>, nextKey: KeyId, spent: set<nat>, node: Node, p: nat, i: nat,
                   newKey: KeyId)
    requires HistoryOK(h, net, nextKey) && PartyOK(h, spent, node, p)
    requires 1 <= i < |net| && 2 <= p && h.chain[i] == p - 1 && PacketOK(h, net, nextKey, i)
    requires node.session.value.m <= net[i].env.packet.n
    requires (net[i].env.packet.pub, net[i].env.packet.n) !in node.skipped
    ensures var (node', text) := ReceiveDR(node, net[i].env.packet, newKey);
            var m, n := node.session.value.m, net[i].env.packet.n;
            && text == Some(net[i].text)
            && node'.session.Some? && node'.session.value.localPub == node.session.value.localPub
            && SessionOK(h, node'.session.value, p) && node'.session.value.m == n + 1
            && var passed := SkippedRange(h.keys[p - 1], Advance(Chain(h, p - 1), m), m, n);
               node'.skipped == FileSkipped(node.skipped, passed)
  {
    var pkt, s, base := net[i].env.packet, node.session.value, Chain(h, p - 1);
    ChainNotEmpty(base, s.m);
    AdvanceTwice(base, s.m, pkt.n - s.m);
    assert OrRoot(s.recv, s.root) == s.recv;
    assert BeforeOpen(s, pkt, newKey).0 == SkipTo(s, pkt.n);
    assert SkipTo(s, pkt.n).recv == Advance(base, pkt.n);
  }

  /** A message further along the current receive chain opens; the indices between are filed. */
  lemma {:induction false} ReceiveAhead(h: History, net: seq<Sent>, nextKey: KeyId, spent: set<nat>, node: Node,
                                        p: nat, i: nat, newKey: KeyId)
    requires HistoryOK(h, net, nextKey) && PartyOK(h, spent, node, p)
    requires 1 <= i < |net| && Incoming(h, p, h.chain[i]) && h.chain[i] == p - 1
    requires PacketOK(h, net, nextKey, i)
    requires i !in spent && node.session.value.m <= net[i].env.packet.n
    ensures var (node', text) := ReceiveDR(node, net[i].env.packet, newKey);
            && text == Some(net[i].text)
            && node'.session.Some? && node'.session.value.localPub == node.session.value.localPub
            && PartyOK(h, spent + {i}, node', p)
  {
    LookupIsExact(h, net, nextKey, spent, node, p, i);
    AheadOpens(h, net, nextKey, spent, node, p, i, newKey);
    WalkAndOpen(h, net, nextKey, spent, node.skipped, p, node.session.value.m, i);
  }

  /** Decrypting index `n` of the current chain leaves nothing decrypted beyond it. */
  lemma WalkPreserved(h: History, net: seq<Sent>, nextKey: KeyId, spent: set<nat>, p: nat, m: nat, i: nat)
    requires HistoryOK(h, net, nextKey) && WalkedOK(h, spent, p, m)
    requires 1 <= i < |net| && 2 <= p < |h.keys| && h.chain[i] == p - 1
    requires PacketOK(h, net, nextKey, i) && m <= net[i].env.packet.n
    ensures WalkedOK(h, spent + {i}, p, net[i].env.packet.n + 1)
  {
    var m' := net[i].env.packet.n + 1;
    forall c: nat, k: nat | Incoming(h, p, c) && k < |h.at[c]| && h.at[c][k] in spent + {i}
      ensures k < Limit(h, p, m', c)
    {
      assert PlaceOK(h, net, nextKey, c, k);
    }
  }

  /** Walking on to index `limit` of the current chain files exactly the undecrypted indices passed. */
  lemma TableWalk(h: History, net: seq<Sent>, nextKey: KeyId, spent: set<nat>,
                  table: SkippedTable, filed: SkippedTable, p: nat, m: nat, limit: u32)
    requires HistoryOK(h, net, nextKey) && TableOK(h, spent, table, p, m) && WalkedOK(h, spent, p, m)
    requires 2 <= p < |h.keys| && m <= limit <= |h.at[p - 1]|
    requires filed == FileSkipped(table, SkippedRange(h.keys[p - 1], Advance(Chain(h, p - 1), m), m, limit))
    ensures TableOK(h, spent, filed, p, limit)
  {
    forall c: nat, k: u32 | Waiting(h, spent, p, limit, c, k)
      ensures (h.keys[c], k) in filed && filed[(h.keys[c], k)] == MessageKey(Advance(Chain(h, c), k))
    {
      WaitingIsFiled(h, spent, table, p, m, limit, c, k);
    }
    forall key | key in filed
      ensures exists c: nat :: FiledUnder(h, spent, p, limit, c, key)
    {
      var c := FiledIsWaiting(h, spent, table, p, m, limit, key);
    }
  }

  lemma WaitingIsFiled(h: History, spent: set<nat>, table: SkippedTable, p: nat, m: nat, limit: u32, c: nat, k: u32)
    requires |h.keys| == |h.at| && Distinct(h.keys) && TableOK(h, spent, table, p, m)
    requires 2 <= p < |h.keys| && m <= limit <= |h.at[p - 1]|
    requires Waiting(h, spent, p, limit, c, k)
    ensures var filed := FileSkipped(table, SkippedRange(h.keys[p - 1], Advance(Chain(h, p - 1), m), m, limit));
            (h.keys[c], k) in filed && filed[(h.keys[c], k)] == MessageKey(Advance(Chain(h, c), k))
  {
    FileRange(table, h.keys[p - 1], Advance(Chain(h, p - 1), m), m, limit);
    if c == p - 1 && m <= k {
      AdvanceTwice(Chain(h, c), m, k - m);
    } else {
      assert Waiting(h, spent, p, m, c, k);
      assert h.keys[c] == h.keys[p - 1] ==> c == p - 1;
    }
  }

  lemma FiledIsWaiting(h: History, spent: set<nat>, table: SkippedTable, p: nat, m: nat, limit: u32, key: (KeyId, u32))
    returns (c: nat)
    requires |h.keys| == |h.at| && TableOK(h, spent, table, p, m) && WalkedOK(h, spent, p, m)
    requires 2 <= p < |h.keys| && m <= limit <= |h.at[p - 1]|
    requires key in FileSkipped(table, SkippedRange(h.keys[p - 1], Advance(Chain(h, p - 1), m), m, limit))
    ensures FiledUnder(h, spent, p, limit, c, key)
  {
    FileRange(table, h.keys[p - 1], Advance(Chain(h, p - 1), m), m, limit);
    if key in table {
      c :| FiledUnder(h, spent, p, m, c, key);
    } else {
      c := p - 1;
    }
  }

  lemma StillFiled(h: History, net: seq<Sent>, nextKey: KeyId, spent: set<nat>, p: nat, i: nat, n: nat, key: (KeyId,
                   u32))
    returns (c: nat)
    requires HistoryOK(h, net, nextKey)
    requires 1 <= i < |net| && 2 <= p < |h.keys| && h.chain[i] == p - 1
    requires PacketOK(h, net, nextKey, i) && n == net[i].env.packet.n
    requires exists c: nat :: FiledUnder(h, spent, p, n, c, key)
    ensures FiledUnder(h, spent + {i}, p, n + 1, c, key)
  {
    c :| FiledUnder(h, spent, p, n, c, key);
    assert PlaceOK(h, net, nextKey, c, key.1);
  }

  lemma WaitingBefore(h: History, spent: set<nat>, p: nat, i: nat, n: nat, c: nat, k: nat)
    requires 2 <= p <= |h.at| && n < |h.at[p - 1]| && h.at[p - 1][n] == i
    requires Waiting(h, spent + {i}, p, n + 1, c, k)
    ensures Waiting(h, spent, p, n, c, k)
  {
  }

  /** Decrypting the message the party stands before moves it one index on. */
  lemma TableAfterOpen(h: History, net: seq<Sent>, nextKey: KeyId, spent: set<nat>, table: SkippedTable, p: nat, i: nat)
    requires HistoryOK(h, net, nextKey)
    requires 1 <= i < |net| && 2 <= p < |h.keys| && h.chain[i] == p - 1 && i !in spent
    requires PacketOK(h, net, nextKey, i)
    requires TableOK(h, spent, table, p, net[i].env.packet.n)
    ensures TableOK(h, spent + {i}, table, p, net[i].env.packet.n + 1)
  {
    var n := net[i].env.packet.n;
    var m', spent' := n + 1, spent + {i};
    forall c: nat, k: u32 | Waiting(h, spent', p, m', c, k)
      ensures (h.keys[c], k) in table && table[(h.keys[c], k)] == MessageKey(Advance(Chain(h, c), k))
    {
      WaitingBefore(h, spent, p, i, n, c, k);
    }
    forall key | key in table
      ensures exists c: nat :: FiledUnder(h, spent', p, m', c, key)
    {
      var c := StillFiled(h, net, nextKey, spent, p, i, n, key);
    }
  }

  // ---------------------------------------------------------------- a new ratchet key

  ghost function Extend(h: History, key: KeyId): History {
    History(h.keys + [key], h.at + [[]], h.chain)
  }

  lemma ExtendHistory(h: History, net: seq<Sent>, nextKey: KeyId)
    requires HistoryOK(h, net, nextKey)
    ensures HistoryOK(Extend(h, nextKey), net, nextKey + 1)
  {
    var h', nextKey' := Extend(h, nextKey), nextKey + 1;
    forall i: nat | 1 <= i < |net|
      ensures PacketOK(h', net, nextKey', i)
    {
      assert PacketOK(h, net, nextKey, i);
    }
    forall c: nat, k: nat | c < |h'.at| && k < |h'.at[c]|
      ensures PlaceOK(h', net, nextKey', c, k)
    {
      assert PlaceOK(h, net, nextKey, c, k);
    }
  }

  /** A key pair created by the other side changes nothing for this one. */
  lemma ExtendParty(h: History, spent: set<nat>, node: Node, p: nat, key: KeyId)
    requires PartyOK(h, spent, node, p)
    ensures PartyOK(Extend(h, key), spent, node, p)
  {
    var h' := Extend(h, key);
    var m := node.session.value.m;
    forall c: nat, k: u32 | Waiting(h', spent, p, m, c, k)
      ensures (h'.keys[c], k) in node.skipped && node.skipped[(h'.keys[c], k)] == MessageKey(Advance(Chain(h', c), k))
    {
      assert Waiting(h, spent, p, m, c, k);
    }
    forall row | row in node.skipped
      ensures exists c: nat :: FiledUnder(h', spent, p, m, c, row)
    {
      var c: nat :| FiledUnder(h, spent, p, m, c, row);
      assert FiledUnder(h', spent, p, m, c, row);
    }
  }

  /** What the other side decrypts changes nothing for this one. */
  lemma SpentElsewhere(h: History, net: seq<Sent>, nextKey: KeyId, spent: set<nat>, node: Node, p: nat, i: nat)
    requires HistoryOK(h, net, nextKey) && PartyOK(h, spent, node, p)
    requires 1 <= i < |net| ==> !Incoming(h, p, h.chain[i])
    ensures PartyOK(h, spent + {i}, node, p)
  {
    var m := node.session.value.m;
    var spent' := spent + {i};
    forall c: nat, k: nat | Incoming(h, p, c) && k < |h.at[c]|
      ensures h.at[c][k] in spent' <==> h.at[c][k] in spent
    {
      assert PlaceOK(h, net, nextKey, c, k);
    }
    forall c: nat, k: u32 | Waiting(h, spent', p, m, c, k)
      ensures (h.keys[c], k) in node.skipped && node.skipped[(h.keys[c], k)] == MessageKey(Advance(Chain(h, c), k))
    {
      assert Waiting(h, spent, p, m, c, k);
    }
    forall row | row in node.skipped
      ensures exists c: nat :: FiledUnder(h, spent', p, m, c, row)
    {
      var c: nat :| FiledUnder(h, spent, p, m, c, row);
      assert FiledUnder(h, spent', p, m, c, row);
    }
  }

  /** Turning to the peer's next chain closes the current one at its full length. */
  lemma TableTurn(h: History, spent: set<nat>, table: SkippedTable, p: nat, key: KeyId)
    requires 1 <= p && |h.keys| == |h.at| == p + 2
    requires TableOK(h, spent, table, p, |h.at[p - 1]|)
    ensures TableOK(Extend(h, key), spent, table, p + 2, 0)
  {
    var h' := Extend(h, key);
    var p', m := p + 2, |h.at[p - 1]|;
    forall c: nat, k: u32 | Waiting(h', spent, p', 0, c, k)
      ensures (h'.keys[c], k) in table && table[(h'.keys[c], k)] == MessageKey(Advance(Chain(h', c), k))
    {
      assert Waiting(h, spent, p, m, c, k);
    }
    forall row | row in table
      ensures exists c: nat :: FiledUnder(h', spent, p', 0, c, row)
    {
      var c: nat :| FiledUnder(h, spent, p, m, c, row);
      assert FiledUnder(h', spent, p', 0, c, row);
    }
  }

  ghost function ClosedTable(h: History, table: SkippedTable, p: nat, m: nat): SkippedTable
    requires 1 <= p && |h.keys| == |h.at| == p + 2 && |h.at[p - 1]| <= U32_MAX
  {
    if p == 1 then table
    else FileSkipped(table, SkippedRange(h.keys[p - 1], Advance(Chain(h, p - 1), m), m, |h.at[p - 1]|))
  }

  /** Everything that a turn of the ratchet files: the rest of the closed chain, the start of the new one. */
  ghost function TurnTable(h: History, table: SkippedTable, p: nat, m: nat, n: u32): SkippedTable
    requires 1 <= p && |h.keys| == |h.at| == p + 2 && |h.at[p - 1]| <= U32_MAX
  {
    FileSkipped(ClosedTable(h, table, p, m), SkippedRange(h.keys[p + 1], Chain(h, p + 1), 0, n))
  }

  /** Walking to a message on the current chain and decrypting it. */
  lemma WalkAndOpen(h: History, net: seq<Sent>, nextKey: KeyId, spent: set<nat>, table: SkippedTable, p: nat, m: nat,
                    i: nat)
    requires HistoryOK(h, net, nextKey) && TableOK(h, spent, table, p, m) && WalkedOK(h, spent, p, m)
    requires 1 <= i < |net| && 2 <= p < |h.keys| && h.chain[i] == p - 1 && i !in spent
    requires PacketOK(h, net, nextKey, i) && m <= net[i].env.packet.n
    ensures var n := net[i].env.packet.n;
            && TableOK(h, spent + {i},
                       FileSkipped(table, SkippedRange(h.keys[p - 1], Advance(Chain(h, p - 1), m), m, n)), p, n + 1)
            && WalkedOK(h, spent + {i}, p, n + 1)
  {
    var n := net[i].env.packet.n;
    var filed := FileSkipped(table, SkippedRange(h.keys[p - 1], Advance(Chain(h, p - 1), m), m, n));
    WalkPreserved(h, net, nextKey, spent, p, m, i);
    TableWalk(h, net, nextKey, spent, table, filed, p, m, n);
    TableAfterOpen(h, net, nextKey, spent, filed, p, i);
  }

  /** After a turn nothing on the new chain is walked past, and the closed one is at its full length. */
  lemma WalkedTurn(h: History, spent: set<nat>, p: nat, m: nat, key: KeyId)
    requires 1 <= p && |h.keys| == |h.at| == p + 2 && m <= |h.at[p - 1]|
    requires WalkedOK(h, spent, p, m)
    ensures WalkedOK(Extend(h, key), spent, p + 2, 0)
  {
    var h' := Extend(h, key);
    forall c: nat, k: nat | Incoming(h', p + 2, c) && k < |h'.at[c]| && h'.at[c][k] in spent
      ensures k < Limit(h', p + 2, 0, c)
    {
      assert Incoming(h, p, c) ==> k < Limit(h, p, m, c);
    }
  }

  /** Closing the current chain files its remaining indices under the old ratchet key. */
  lemma CloseChain(h: History, net: seq<Sent>, nextKey: KeyId, spent: set<nat>, table: SkippedTable, p: nat, m: nat)
    requires HistoryOK(h, net, nextKey) && TableOK(h, spent, table, p, m) && WalkedOK(h, spent, p, m)
    requires 1 <= p && |h.keys| == p + 2 && m <= |h.at[p - 1]|
    ensures TableOK(Extend(h, nextKey), spent, ClosedTable(h, table, p, m), p + 2, 0)
    ensures WalkedOK(Extend(h, nextKey), spent, p + 2, 0)
  {
    var count := |h.at[p - 1]|;
    if p >= 2 {
      TableWalk(h, net, nextKey, spent, table, ClosedTable(h, table, p, m), p, m, count);
    }
    TableTurn(h, spent, ClosedTable(h, table, p, m), p, nextKey);
    WalkedTurn(h, spent, p, m, nextKey);
  }

  /** What was in the history stays as it was when a key pair is added. */
  lemma ExtendKeeps(h: History, net: seq<Sent>, nextKey: KeyId, i: nat)
    requires HistoryOK(h, net, nextKey) && 1 <= i < |net| && PacketOK(h, net, nextKey, i)
    ensures HistoryOK(Extend(h, nextKey), net, nextKey + 1)
    ensures PacketOK(Extend(h, nextKey), net, nextKey + 1, i)
    ensures Chain(Extend(h, nextKey), h.chain[i]) == Chain(h, h.chain[i])
  {
    ExtendHistory(h, net, nextKey);
  }

  /** Closing the old chain, walking to message `i` of the new one, and decrypting it. */
  lemma CloseAndOpen(h: History, net: seq<Sent>, nextKey: KeyId, spent: set<nat>, table: SkippedTable, p: nat,
                     m: nat, i: nat)
    requires HistoryOK(h, net, nextKey) && TableOK(h, spent, table, p, m) && WalkedOK(h, spent, p, m)
    requires 1 <= p && |h.keys| == p + 2 && m <= |h.at[p - 1]|
    requires HistoryOK(Extend(h, nextKey), net, nextKey + 1)
    requires 1 <= i < |net| && h.chain[i] == p + 1 && i !in spent
    requires PacketOK(Extend(h, nextKey), net, nextKey + 1, i)
    ensures var h', n := Extend(h, nextKey), net[i].env.packet.n;
            && TableOK(h', spent + {i},
                       FileSkipped(ClosedTable(h, table, p, m), SkippedRange(h'.keys[p + 1], Chain(h', p + 1), 0, n)),
                       p + 2, n + 1)
            && WalkedOK(h', spent + {i}, p + 2, n + 1)
  {
    CloseChain(h, net, nextKey, spent, table, p, m);
    WalkAndOpen(Extend(h, nextKey), net, nextKey + 1, spent, ClosedTable(h, table, p, m), p + 2, 0, i);
  }

  lemma TableAfterTurn(h: History, net: seq<Sent>, nextKey: KeyId, spent: set<nat>, node: Node, p: nat, i: nat)
    requires HistoryOK(h, net, nextKey) && PartyOK(h, spent, node, p)
    requires 1 <= i < |net| && h.chain[i] == p + 1 == |h.keys| - 1
    requires PacketOK(h, net, nextKey, i)
    requires i !in spent
    ensures var table := TurnTable(h, node.skipped, p, node.session.value.m, net[i].env.packet.n);
            && HistoryOK(Extend(h, nextKey), net, nextKey + 1)
            && TableOK(Extend(h, nextKey), spent + {i}, table, p + 2, net[i].env.packet.n + 1)
            && WalkedOK(Extend(h, nextKey), spent + {i}, p + 2, net[i].env.packet.n + 1)
  {
    ExtendKeeps(h, net, nextKey, i);
    CloseAndOpen(h, net, nextKey, spent, node.skipped, p, node.session.value.m, i);
  }

  /** The first message under a new remote key opens, whatever its index, and turns the ratchet. */
  lemma ReceiveNext(h: History, net: seq<Sent>, nextKey: KeyId, spent: set<nat>, node: Node, p: nat, i: nat)
    requires HistoryOK(h, net, nextKey) && PartyOK(h, spent, node, p)
    requires 1 <= i < |net| && h.chain[i] == p + 1 == |h.keys| - 1
    requires PacketOK(h, net, nextKey, i)
    requires i !in spent
    ensures var (node', text) := ReceiveDR(node, net[i].env.packet, nextKey);
            && text == Some(net[i].text)
            && HistoryOK(Extend(h, nextKey), net, nextKey + 1)
            && node'.session.Some? && node'.session.value.localPub == nextKey
            && PartyOK(Extend(h, nextKey), spent + {i}, node', p + 2)
  {
    LookupIsExact(h, net, nextKey, spent, node, p, i);
    TableAfterTurn(h, net, nextKey, spent, node, p, i);
    TurnOpens(h, net, nextKey, node, p, i);
  }

  /** The receive chain and the skipped keys of a turn, before the payload is opened. */
  lemma TurnReady(h: History, nextKey: KeyId, s: Session, p: nat, pkt: Packet)
    requires Distinct(h.keys) && SessionOK(h, s, p) && |h.keys| == p + 2 && h.at[0] == []
    requires pkt.pub == h.keys[p + 1] && pkt.pn == |h.at[p - 1]|
    ensures var loaded := s.(recv := OrRoot(s.recv, s.root));
            var (ready, skipped) := BeforeOpen(loaded, pkt, nextKey);
            && ready == SkipTo(DhStep(loaded, pkt.pub, nextKey), pkt.n)
            && ready.recv == Advance(Chain(h, p + 1), pkt.n) && ready.m == pkt.n
            && skipped == (if p == 1 then []
                           else SkippedRange(h.keys[p - 1], Advance(Chain(h, p - 1), s.m), s.m, pkt.pn))
                          + SkippedRange(pkt.pub, Chain(h, p + 1), 0, pkt.n)
  {
    if p >= 2 {
      ChainNotEmpty(Chain(h, p - 1), s.m);
    }
    assert pkt.pub != s.remotePub;
    assert Chain(h, p + 1) == ChainOf(s.localPriv, pkt.pub);
  }

  lemma TurnOpens(h: History, net: seq<Sent>, nextKey: KeyId, node: Node, p: nat, i: nat)
    requires HistoryOK(h, net, nextKey) && node.session.Some? && SessionOK(h, node.session.value, p)
    requires 1 <= i < |net| && h.chain[i] == p + 1 == |h.keys| - 1
    requires PacketOK(h, net, nextKey, i)
    ensures var (node', text) := ReceiveByRatchet(node, net[i].env.packet, nextKey);
            && text == Some(net[i].text)
            && node'.session.Some? && SessionOK(Extend(h, nextKey), node'.session.value, p + 2)
            && node'.session.value.localPub == nextKey
            && node'.session.value.m == net[i].env.packet.n + 1
            && node'.skipped == TurnTable(h, node.skipped, p, node.session.value.m, net[i].env.packet.n)
  {
    var h', pkt, s := Extend(h, nextKey), net[i].env.packet, node.session.value;
    TurnReady(h, nextKey, s, p, pkt);
    assert Chain(h', p + 1) == Chain(h, p + 1);
    var closing := if p == 1 then [] else SkippedRange(h.keys[p - 1], Advance(Chain(h, p - 1), s.m), s.m, pkt.pn);
    FileAppend(node.skipped, closing, SkippedRange(pkt.pub, Chain(h, p + 1), 0, pkt.n));
  }
}
