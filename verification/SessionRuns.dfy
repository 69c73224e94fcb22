/** Every run of a two-party session: the invariant, and what it says about deliveries. */
module SessionRuns {
  import opened Prelude
  import opened SymbolicCrypto
  import opened Ratchet
  import opened SessionStore
  import opened TwoParty

  // ---------------------------------------------------------------- the invariant

  /** `held` is every other key pair of the history, from position `first` to position `p`. */
  ghost predicate HeldKeys(h: History, held: seq<KeyId>, first: nat, p: nat) {
    && held != [] && p < |h.keys|
    && first + 2 * (|held| - 1) == p
    && forall j :: 0 <= j < |held| ==> held[j] == h.keys[first + 2 * j]
  }

  /** The list of held keys follows its owner, whether it stays or moves on to a new key. */
  lemma TrackHeld(h: History, held: seq<KeyId>, first: nat, p: nat, h': History, p': nat, before: Node, node: Node)
    requires HeldKeys(h, held, first, p) && Distinct(h'.keys) && h.keys <= h'.keys
    requires p' < |h'.keys| && (p' == p || p' == p + 2)
    requires node.session.Some? && node.session.value.localPub == h'.keys[p']
    requires if before.session.Some? then before.session.value.localPub == h.keys[p] else p' == p + 2
    ensures HeldKeys(h', Track(held, before, node), first, p')
  {
    assert held[|held| - 1] == h.keys[p] == h'.keys[p];
  }

  /** Where the two parties stand in the history of key pairs; position 0 means Bob awaits the handshake. */
  ghost predicate KeysOK(h: History, net: seq<Sent>, nextKey: KeyId, aliceKeys: seq<KeyId>, bobKeys: seq<KeyId>,
                         a: nat, b: nat) {
    && HistoryOK(h, net, nextKey)
    && net[0].env.X3DH?
    && h.keys[0] == net[0].env.keyId
    && h.keys[1] == net[0].env.ratchetPub
    && a % 2 == 1 && b % 2 == 0
    && (a == b + 1 || b == a + 1)
    && |h.keys| == (if a < b then b else a) + 1
    && HeldKeys(h, aliceKeys, 1, a)
    && HeldKeys(h, bobKeys, 0, b)
  }

  ghost predicate PartiesOK(h: History, spent: set<nat>, alice: Node, bob: Node, bobPreKeys: set<KeyId>, a: nat,
                            b: nat) {
    && |h.keys| > 0
    && PartyOK(h, spent, alice, a)
    && (if b == 0 then bob == Node(None, map[]) && h.keys[0] in bobPreKeys && spent == {}
        else PartyOK(h, spent, bob, b) && h.keys[0] !in bobPreKeys && 0 in spent)
  }

  ghost predicate OpeningOK(net: seq<Sent>, spent: set<nat>) {
    && net != []
    && net[0].from == Alice
    && net[0].env.X3DH?
    && net[0].env.payload == Sealed(DeriveSharedSecret(net[0].env.ePub, net[0].env.keyId), net[0].text)
    && (forall i :: i in spent ==> i < |net|)
  }

  /** Alice at position `a`, Bob at position `b`. */
  ghost predicate Inv(w: World, h: History, a: nat, b: nat) {
    && KeysOK(h, w.net, w.nextKey, w.aliceKeys, w.bobKeys, a, b)
    && PartiesOK(h, w.spent, w.alice, w.bob, w.bobPreKeys, a, b)
    && OpeningOK(w.net, w.spent)
  }

  lemma StartInv(setup: Setup) returns (h: History)
    ensures Inv(Start(setup), h, 1, 0)
  {
    h := History([setup.preKey, setup.ratchet], [[], []], [0]);
  }

  // ---------------------------------------------------------------- sending

  ghost function Record(h: History, p: nat): History
    requires p < |h.at|
  {
    History(h.keys, h.at[p := h.at[p] + [|h.chain|]], h.chain + [p])
  }

  lemma RecordHistory(h: History, net: seq<Sent>, nextKey: KeyId, s: Session, p: nat, text: string)
    requires HistoryOK(h, net, nextKey) && SessionOK(h, s, p)
    requires |h.keys| <= p + 2 && s.n < U32_MAX
    ensures HistoryOK(Record(h, p), net + [Sent(Owner(p), DR(EncryptPacket(s, text)), text)], nextKey)
    ensures SessionOK(Record(h, p), AfterEncrypt(s), p)
  {
    var h', net' := Record(h, p), net + [Sent(Owner(p), DR(EncryptPacket(s, text)), text)];
    forall i: nat | 1 <= i < |net'|
      ensures PacketOK(h', net', nextKey, i)
    {
      if i < |net| {
        assert PacketOK(h, net, nextKey, i);
      }
    }
    forall c: nat, k: nat | c < |h'.at| && k < |h'.at[c]|
      ensures PlaceOK(h', net', nextKey, c, k)
    {
      if c != p || k < |h.at[p]| {
        assert PlaceOK(h, net, nextKey, c, k);
      }
    }
  }

  /** A new message on chain `p` lies beyond what the other party at `q` has walked. */
  lemma RecordTables(h: History, net: seq<Sent>, nextKey: KeyId, spent: set<nat>, table: SkippedTable, p: nat,
                     q: nat, m: nat)
    requires HistoryOK(h, net, nextKey) && TableOK(h, spent, table, q, m) && WalkedOK(h, spent, q, m)
    requires p < |h.at| && 1 <= q < |h.at| && m <= |h.at[q - 1]| && (q == p || q == p + 1 || p == q + 1)
    requires forall i :: i in spent ==> i < |net|
    ensures TableOK(Record(h, p), spent, table, q, m) && WalkedOK(Record(h, p), spent, q, m)
  {
    var h' := Record(h, p);
    forall c: nat, k: u32 | Waiting(h', spent, q, m, c, k)
      ensures (h'.keys[c], k) in table && table[(h'.keys[c], k)] == MessageKey(Advance(Chain(h', c), k))
    {
      assert Waiting(h, spent, q, m, c, k);
    }
    forall row | row in table
      ensures exists c: nat :: FiledUnder(h', spent, q, m, c, row)
    {
      var c: nat :| FiledUnder(h, spent, q, m, c, row);
      assert FiledUnder(h', spent, q, m, c, row);
    }
  }

  lemma PositionOf(w: World, h: History, a: nat, b: nat, side: Side) returns (p: nat, q: nat)
    requires Inv(w, h, a, b)
    requires side == Alice || b > 0
    ensures p == (if side == Alice then a else b) && q == (if side == Alice then b else a)
    ensures side == Owner(p) && p >= 1 && |h.keys| <= p + 2 && p < |h.keys|
    ensures PartyOK(h, w.spent, w.At(side), p)
    ensures q > 0 ==> PartyOK(h, w.spent, w.At(side.Other()), q)
  {
    p, q := if side == Alice then a else b, if side == Alice then b else a;
  }

  /** What a send changes. */
  lemma SendOnly(w: World, from: Side, text: string)
    requires CanSend(w.At(from)) && w.At(from).session.value.send != Empty
    ensures var s := w.At(from).session.value;
            Step(w, Send(from, text)) == w.With(from, w.At(from).(session := Some(AfterEncrypt(s)))).(
                                           net := w.net + [Sent(from, DR(EncryptPacket(s, text)), text)])
  {
  }

  lemma SenderMoved(w: World, h: History, a: nat, b: nat, h': History, from: Side, node: Node, sent: Sent)
    requires Inv(w, h, a, b) && (from == Bob ==> b > 0)
    requires h'.keys == h.keys && HistoryOK(h', w.net + [sent], w.nextKey)
    requires PartyOK(h', w.spent, node, if from == Alice then a else b)
    requires from == Bob ==> PartyOK(h', w.spent, w.alice, a)
    requires from == Alice && b > 0 ==> PartyOK(h', w.spent, w.bob, b)
    ensures Inv(w.With(from, node).(net := w.net + [sent]), h', a, b)
  {
  }

  /** The sending party itself after one more message. */
  lemma SenderRecords(h: History, net: seq<Sent>, nextKey: KeyId, spent: set<nat>, node: Node, p: nat, text: string)
    requires HistoryOK(h, net, nextKey) && PartyOK(h, spent, node, p)
    requires |h.keys| <= p + 2 && node.session.value.n < U32_MAX
    requires forall i :: i in spent ==> i < |net|
    ensures var s := node.session.value;
            && HistoryOK(Record(h, p), net + [Sent(Owner(p), DR(EncryptPacket(s, text)), text)], nextKey)
            && PartyOK(Record(h, p), spent, node.(session := Some(AfterEncrypt(s))), p)
  {
    RecordHistory(h, net, nextKey, node.session.value, p, text);
    RecordTables(h, net, nextKey, spent, node.skipped, p, p, node.session.value.m);
  }

  lemma SendKeepsInv(w: World, h: History, a: nat, b: nat, from: Side, text: string) returns (h': History)
    requires Inv(w, h, a, b)
    ensures Inv(Step(w, Send(from, text)), h', a, b)
  {
    h' := h;
    if CanSend(w.At(from)) {
      var p, q := PositionOf(w, h, a, b, from);
      var node, s := w.At(from), w.At(from).session.value;
      ChainNotEmpty(Chain(h, p), s.n);
      SendOnly(w, from, text);
      h' := Record(h, p);
      SenderRecords(h, w.net, w.nextKey, w.spent, node, p, text);
      if q > 0 {
        RecordOther(w, h, p, q, from.Other());
      }
      SenderMoved(w, h, a, b, h', from, node.(session := Some(AfterEncrypt(s))),
                  Sent(from, DR(EncryptPacket(s, text)), text));
    }
  }

  lemma RecordOther(w: World, h: History, p: nat, q: nat, side: Side)
    requires HistoryOK(h, w.net, w.nextKey) && PartyOK(h, w.spent, w.At(side), q)
    requires p < |h.at| && (q == p + 1 || p == q + 1)
    requires forall i :: i in w.spent ==> i < |w.net|
    ensures PartyOK(Record(h, p), w.spent, w.At(side), q)
  {
    var node := w.At(side);
    RecordTables(h, w.net, w.nextKey, w.spent, node.skipped, p, q, node.session.value.m);
  }

  // ---------------------------------------------------------------- delivering

  /** Bob's node once the handshake has arrived. */
  lemma BobStarts(h: History, net: seq<Sent>, nextKey: KeyId, bob: Node)
    requires HistoryOK(h, net, nextKey) && |h.keys| == 2
    requires var k, r := h.keys[0], h.keys[1];
             bob == Node(Some(Session(RootHalf(DeriveSharedSecret(nextKey, r)), ChainOf(nextKey, r), ChainOf(k, r),
                                      r, nextKey, nextKey, 0, 0, 0, 0)), map[])
    ensures PartyOK(Extend(h, nextKey), {0}, bob, 2)
  {
    var h' := Extend(h, nextKey);
    ExtendHistory(h, net, nextKey);
    assert Chain(h', 1) == ChainOf(h.keys[0], h.keys[1]) && Chain(h', 2) == ChainOf(nextKey, h.keys[1]);
    forall c: nat, k: nat | c < |h'.at| && k < |h'.at[c]|
      ensures h'.at[c][k] != 0
    {
      assert PlaceOK(h', net, nextKey + 1, c, k);
    }
  }

  /** What the first delivery of the handshake does. */
  lemma HandshakeArrives(w: World, h: History, a: nat)
    requires Inv(w, h, a, 0)
    ensures Reception(w, 0).2 == Some(w.net[0].text)
    ensures Inv(Step(w, Deliver(0)), Extend(h, w.nextKey), a, 2)
  {
    var h', bob := Extend(h, w.nextKey), Reception(w, 0).0;
    ExtendHistory(h, w.net, w.nextKey);
    BobStarts(h, w.net, w.nextKey, bob);
    BobKeysMoved(h, w.net, w.nextKey, w.aliceKeys, w.bobKeys, a, 0, h', 2, w.bob, bob);
    SpentElsewhere(h, w.net, w.nextKey, w.spent, w.alice, a, 0);
    ExtendParty(h, w.spent + {0}, w.alice, a, w.nextKey);
  }

  /** What any delivery of the handshake does. */
  lemma HandshakeKeepsInv(w: World, h: History, a: nat, b: nat) returns (h': History, b': nat)
    requires Inv(w, h, a, b)
    ensures Inv(Step(w, Deliver(0)), h', a, b') && b' >= 1
    ensures Reception(w, 0).2 == if b == 0 then Some(w.net[0].text) else None
    ensures b > 0 ==> Reception(w, 0) == (w.bob, w.bobPreKeys, None)
  {
    if b == 0 {
      h', b' := Extend(h, w.nextKey), 2;
      HandshakeArrives(w, h, a);
    } else {
      h', b' := h, b;
      WeakenNextKey(h, w.net, w.nextKey);
    }
  }

  /** A failed reception draws a key pair and throws it away. */
  lemma WeakenNextKey(h: History, net: seq<Sent>, nextKey: KeyId)
    requires HistoryOK(h, net, nextKey)
    ensures HistoryOK(h, net, nextKey + 1)
  {
    var nextKey' := nextKey + 1;
    forall i: nat | 1 <= i < |net|
      ensures PacketOK(h, net, nextKey', i)
    {
      assert PacketOK(h, net, nextKey, i);
    }
    forall c: nat, k: nat | c < |h.at| && k < |h.at[c]|
      ensures PlaceOK(h, net, nextKey', c, k)
    {
      assert PlaceOK(h, net, nextKey, c, k);
    }
  }

  /** One party at position `p` stays, or moves on to a key pair of its own. */
  ghost predicate Moves(h: History, nextKey: KeyId, p: nat, h': History, p': nat) {
    (h' == h && p' == p) || (h' == Extend(h, nextKey) && p' == p + 2 && |h.keys| == p + 2)
  }

  function Spending(spent: set<nat>, i: nat): set<nat> {
    if i in spent then spent else spent + {i}
  }

  /** The reception lemmas of `TwoParty` put together: text if and only if this is the first delivery. */
  lemma ReceiveMessage(h: History, net: seq<Sent>, nextKey: KeyId, spent: set<nat>, node: Node, p: nat, i: nat)
    returns (h': History, p': nat)
    requires HistoryOK(h, net, nextKey) && PartyOK(h, spent, node, p)
    requires 1 <= i < |net| && Incoming(h, p, h.chain[i]) && |h.keys| <= p + 2
    ensures PacketOK(h, net, nextKey, i)
    ensures var (node', text) := ReceiveDR(node, net[i].env.packet, nextKey);
            && text == (if i in spent then None else Some(net[i].text))
            && (i in spent ==> node' == node)
            && PartyOK(h', Spending(spent, i), node', p')
            && HistoryOK(h', net, nextKey + 1)
            && Moves(h, nextKey, p, h', p')
  {
    assert PacketOK(h, net, nextKey, i);
    h', p' := h, p;
    WeakenNextKey(h, net, nextKey);
    var c, n, m := h.chain[i], net[i].env.packet.n, node.session.value.m;
    if i in spent {
      ReceiveAgain(h, net, nextKey, spent, node, p, i, nextKey);
    } else if Waiting(h, spent, p, m, c, n) {
      ReceiveWaiting(h, net, nextKey, spent, node, p, i, nextKey);
    } else if c == p - 1 {
      ReceiveAhead(h, net, nextKey, spent, node, p, i, nextKey);
    } else {
      assert c == p + 1;
      ReceiveNext(h, net, nextKey, spent, node, p, i);
      h', p' := Extend(h, nextKey), p + 2;
    }
  }

  lemma OtherPartyUnmoved(h: History, net: seq<Sent>, nextKey: KeyId, spent: set<nat>, h': History, other: Node, q: nat,
                          i: nat)
    requires HistoryOK(h, net, nextKey) && PartyOK(h, spent, other, q)
    requires 1 <= i < |net| && !Incoming(h, q, h.chain[i])
    requires h' == h || h' == Extend(h, nextKey)
    ensures PartyOK(h', Spending(spent, i), other, q)
  {
    SpentElsewhere(h, net, nextKey, spent, other, q, i);
    if i !in spent {
      ExtendParty(h, spent + {i}, other, q, nextKey);
    } else {
      ExtendParty(h, spent, other, q, nextKey);
    }
  }

  /** A ratchet message touches only its addressee's session and skipped keys. */
  lemma DeliverOnly(w: World, i: nat)
    requires i < |w.net| && w.net[i].env.DR?
    ensures var to := w.net[i].from.Other();
            var (node, text) := ReceiveDR(w.At(to), w.net[i].env.packet, w.nextKey);
            && Reception(w, i) == (node, w.PreKeysOf(to), text)
            && Step(w, Deliver(i)) == w.With(to, node).(
                 nextKey := w.nextKey + 1,
                 spent := if text.Some? then w.spent + {i} else w.spent)
  {
  }

  lemma AliceKeysMoved(h: History, net: seq<Sent>, nextKey: KeyId, aliceKeys: seq<KeyId>, bobKeys: seq<KeyId>,
                       a: nat, b: nat, h': History, a': nat, before: Node, alice: Node)
    requires KeysOK(h, net, nextKey, aliceKeys, bobKeys, a, b) && Moves(h, nextKey, a, h', a')
    requires HistoryOK(h', net, nextKey + 1)
    requires alice.session.Some? && a' < |h'.keys| && alice.session.value.localPub == h'.keys[a']
    requires before.session.Some? && before.session.value.localPub == h.keys[a]
    ensures KeysOK(h', net, nextKey + 1, Track(aliceKeys, before, alice), bobKeys, a', b)
  {
    TrackHeld(h, aliceKeys, 1, a, h', a', before, alice);
  }

  lemma BobKeysMoved(h: History, net: seq<Sent>, nextKey: KeyId, aliceKeys: seq<KeyId>, bobKeys: seq<KeyId>,
                     a: nat, b: nat, h': History, b': nat, before: Node, bob: Node)
    requires KeysOK(h, net, nextKey, aliceKeys, bobKeys, a, b) && Moves(h, nextKey, b, h', b')
    requires HistoryOK(h', net, nextKey + 1)
    requires bob.session.Some? && b' < |h'.keys| && bob.session.value.localPub == h'.keys[b']
    requires if before.session.Some? then before.session.value.localPub == h.keys[b] else b' == b + 2
    ensures KeysOK(h', net, nextKey + 1, aliceKeys, Track(bobKeys, before, bob), a, b')
  {
    TrackHeld(h, bobKeys, 0, b, h', b', before, bob);
  }

  /** Putting the invariant together again after Alice received. */
  lemma AliceMoved(w: World, h: History, a: nat, b: nat, h': History, a': nat, node: Node, spent: set<nat>)
    requires Inv(w, h, a, b) && b > 0 && Moves(h, w.nextKey, a, h', a')
    requires HistoryOK(h', w.net, w.nextKey + 1)
    requires PartyOK(h', spent, node, a') && PartyOK(h', spent, w.bob, b)
    requires w.spent <= spent && forall i :: i in spent ==> i < |w.net|
    ensures Inv(w.With(Alice, node).(nextKey := w.nextKey + 1, spent := spent), h', a', b)
  {
    AliceKeysMoved(h, w.net, w.nextKey, w.aliceKeys, w.bobKeys, a, b, h', a', w.alice, node);
    assert PartiesOK(h', spent, node, w.bob, w.bobPreKeys, a', b) && OpeningOK(w.net, spent);
  }

  lemma BobMoved(w: World, h: History, a: nat, b: nat, h': History, b': nat, node: Node, spent: set<nat>)
    requires Inv(w, h, a, b) && b > 0 && Moves(h, w.nextKey, b, h', b')
    requires HistoryOK(h', w.net, w.nextKey + 1)
    requires PartyOK(h', spent, w.alice, a) && PartyOK(h', spent, node, b')
    requires w.spent <= spent && forall i :: i in spent ==> i < |w.net|
    ensures Inv(w.With(Bob, node).(nextKey := w.nextKey + 1, spent := spent), h', a, b')
  {
    BobKeysMoved(h, w.net, w.nextKey, w.aliceKeys, w.bobKeys, a, b, h', b', w.bob, node);
    assert PartiesOK(h', spent, w.alice, node, w.bobPreKeys, a, b') && OpeningOK(w.net, spent);
  }

  /** One party receives a message that is not on one of its own chains; the other party stays as it is. */
  lemma PartyReceives(h: History, net: seq<Sent>, nextKey: KeyId, spent: set<nat>, receiver: Node, p: nat, other: Node,
                      q: nat, i: nat, node: Node, text: Option<string>) returns (h': History, p': nat)
    requires HistoryOK(h, net, nextKey) && PartyOK(h, spent, receiver, p) && PartyOK(h, spent, other, q)
    requires 1 <= i < |net| && PacketOK(h, net, nextKey, i) && net[i].from == Owner(q) && Owner(p) != Owner(q)
    requires |h.keys| <= p + 2
    requires (node, text) == ReceiveDR(receiver, net[i].env.packet, nextKey)
    ensures text == if i in spent then None else Some(net[i].text)
    ensures i in spent ==> node == receiver
    ensures Moves(h, nextKey, p, h', p') && HistoryOK(h', net, nextKey + 1)
    ensures PartyOK(h', Spending(spent, i), node, p') && PartyOK(h', Spending(spent, i), other, q)
  {
    h', p' := ReceiveMessage(h, net, nextKey, spent, receiver, p, i);
    OtherPartyUnmoved(h, net, nextKey, spent, h', other, q, i);
  }

  lemma AliceReceives(w: World, h: History, a: nat, b: nat, i: nat, node: Node,
                      text: Option<string>) returns (h': History, a': nat)
    requires Inv(w, h, a, b) && 1 <= i < |w.net| && w.net[i].from == Bob && b > 0 && w.net[i].env.DR?
    requires (node, text) == ReceiveDR(w.alice, w.net[i].env.packet, w.nextKey)
    ensures text == if i in w.spent then None else Some(w.net[i].text)
    ensures i in w.spent ==> node == w.alice
    ensures Moves(h, w.nextKey, a, h', a') && HistoryOK(h', w.net, w.nextKey + 1)
    ensures PartyOK(h', Spending(w.spent, i), node, a') && PartyOK(h', Spending(w.spent, i), w.bob, b)
  {
    assert PacketOK(h, w.net, w.nextKey, i);
    h', a' := PartyReceives(h, w.net, w.nextKey, w.spent, w.alice, a, w.bob, b, i, node, text);
  }

  lemma DeliverToAlice(w: World, h: History, a: nat, b: nat, i: nat) returns (h': History, a': nat)
    requires Inv(w, h, a, b) && 1 <= i < |w.net| && w.net[i].from == Bob && b > 0 && w.net[i].env.DR?
    ensures Inv(Step(w, Deliver(i)), h', a', b)
    ensures Reception(w, i).2 == if i in w.spent then None else Some(w.net[i].text)
    ensures i in w.spent ==> Reception(w, i) == (w.alice, w.alicePreKeys, None)
  {
    var (node, text) := ReceiveDR(w.alice, w.net[i].env.packet, w.nextKey);
    DeliverOnly(w, i);
    h', a' := AliceReceives(w, h, a, b, i, node, text);
    var spent := Spending(w.spent, i);
    assert Step(w, Deliver(i)) == w.With(Alice, node).(nextKey := w.nextKey + 1, spent := spent);
    AliceMoved(w, h, a, b, h', a', node, spent);
  }

  lemma BobReceives(w: World, h: History, a: nat, b: nat, i: nat, node: Node,
                      text: Option<string>) returns (h': History, b': nat)
    requires Inv(w, h, a, b) && 1 <= i < |w.net| && w.net[i].from == Alice && b > 0 && w.net[i].env.DR?
    requires (node, text) == ReceiveDR(w.bob, w.net[i].env.packet, w.nextKey)
    ensures text == if i in w.spent then None else Some(w.net[i].text)
    ensures i in w.spent ==> node == w.bob
    ensures Moves(h, w.nextKey, b, h', b') && HistoryOK(h', w.net, w.nextKey + 1)
    ensures PartyOK(h', Spending(w.spent, i), node, b') && PartyOK(h', Spending(w.spent, i), w.alice, a)
  {
    assert PacketOK(h, w.net, w.nextKey, i);
    h', b' := PartyReceives(h, w.net, w.nextKey, w.spent, w.bob, b, w.alice, a, i, node, text);
  }

  lemma DeliverToBob(w: World, h: History, a: nat, b: nat, i: nat) returns (h': History, b': nat)
    requires Inv(w, h, a, b) && 1 <= i < |w.net| && w.net[i].from == Alice && b > 0 && w.net[i].env.DR?
    ensures Inv(Step(w, Deliver(i)), h', a, b')
    ensures Reception(w, i).2 == if i in w.spent then None else Some(w.net[i].text)
    ensures i in w.spent ==> Reception(w, i) == (w.bob, w.bobPreKeys, None)
    ensures b' >= b
  {
    var (node, text) := ReceiveDR(w.bob, w.net[i].env.packet, w.nextKey);
    DeliverOnly(w, i);
    h', b' := BobReceives(w, h, a, b, i, node, text);
    var spent := Spending(w.spent, i);
    assert Step(w, Deliver(i)) == w.With(Bob, node).(nextKey := w.nextKey + 1, spent := spent);
    BobMoved(w, h, a, b, h', b', node, spent);
  }

  /** Envelope `i` is a ratchet message and its addressee has no session. */
  predicate NoSession(w: World, i: nat)
    requires i < |w.net|
  {
    w.net[i].env.DR? && w.At(w.net[i].from.Other()).session.None?
  }

  /** One delivery: the invariant lives on, and the text comes out exactly the first time. */
  lemma {:induction false} DeliverKeepsInv(w: World, h: History, a: nat, b: nat, i: nat)
    returns (h': History, a': nat, b': nat)
    requires Inv(w, h, a, b) && i < |w.net|
    ensures Inv(Step(w, Deliver(i)), h', a', b')
    ensures Reception(w, i).2 == if i in w.spent || NoSession(w, i) then None else Some(w.net[i].text)
    ensures i in w.spent || NoSession(w, i) ==>
              Reception(w, i) == (w.At(w.net[i].from.Other()), w.PreKeysOf(w.net[i].from.Other()), None)
    ensures b > 0 ==> b' > 0
  {
    h', a', b' := h, a, b;
    if i == 0 {
      h', b' := HandshakeKeepsInv(w, h, a, b);
    } else {
      assert PacketOK(h, w.net, w.nextKey, i);
      if w.net[i].from == Bob {
        h', a' := DeliverToAlice(w, h, a, b, i);
      } else if b > 0 {
        h', b' := DeliverToBob(w, h, a, b, i);
      } else {
        WeakenNextKey(h, w.net, w.nextKey);
      }
    }
  }

  // ---------------------------------------------------------------- injected envelopes

  /** A header belongs to one message only. */
  lemma HeaderIsUnique(h: History, net: seq<Sent>, nextKey: KeyId, i: nat, j: nat)
    requires HistoryOK(h, net, nextKey)
    requires 1 <= i < |net| && 1 <= j < |net| && net[i].env.DR? && net[j].env.DR?
    requires (net[i].env.packet.pub, net[i].env.packet.n) == (net[j].env.packet.pub, net[j].env.packet.n)
    ensures i == j
  {
    assert PacketOK(h, net, nextKey, i);
    assert PacketOK(h, net, nextKey, j);
  }

  /** What an injected envelope changes: nothing, but for the row that its header hits. */
  lemma InjectOnly(w: World, h: History, a: nat, b: nat, to: Side, env: Envelope)
    requires Inv(w, h, a, b) && Foreign(env) && !Wipes(w, to, env)
    ensures var node := w.At(to);
            var node' := if env.DR? then node.(skipped := node.skipped - {(env.packet.pub, env.packet.n)}) else node;
            Step(w, Inject(to, env)) == w.With(to, node').(
              nextKey := w.nextKey + 1,
              spent := w.spent + Struck(w, to, env))
  {
    ReceiveForeign(h, w.spent, w.At(to), if to == Alice then a else b, w.PreKeysOf(to), env, w.nextKey);
  }

  lemma MissKeepsInv(w: World, h: History, a: nat, b: nat, to: Side)
    requires Inv(w, h, a, b)
    ensures Inv(w.With(to, w.At(to)).(nextKey := w.nextKey + 1), h, a, b)
  {
    WeakenNextKey(h, w.net, w.nextKey);
    if to == Alice {
      AliceKeysMoved(h, w.net, w.nextKey, w.aliceKeys, w.bobKeys, a, b, h, a, w.alice, w.alice);
    } else if b > 0 {
      BobKeysMoved(h, w.net, w.nextKey, w.aliceKeys, w.bobKeys, a, b, h, b, w.bob, w.bob);
    }
  }

  /** Losing the row of message `i` counts as spending it, for the owner of the row ... */
  lemma HitKeepsOwner(h: History, net: seq<Sent>, nextKey: KeyId, spent: set<nat>, node: Node, p: nat, i: nat)
    requires HistoryOK(h, net, nextKey) && PartyOK(h, spent, node, p)
    requires 1 <= i < |net| && Incoming(h, p, h.chain[i]) && PacketOK(h, net, nextKey, i)
    requires (net[i].env.packet.pub, net[i].env.packet.n) in node.skipped
    ensures var row := (net[i].env.packet.pub, net[i].env.packet.n);
            PartyOK(h, spent + {i}, node.(skipped := node.skipped - {row}), p)
  {
    LookupIsExact(h, net, nextKey, spent, node, p, i);
    RowTaken(h, net, nextKey, spent, node, p, i);
  }

  /** ... and for the other side, which does not notice. */
  lemma HitReady(w: World, h: History, a: nat, b: nat, to: Side, row: (KeyId, u32), i: nat)
    requires Inv(w, h, a, b) && row in w.At(to).skipped
    requires 1 <= i < |w.net| && w.net[i].env.DR? && w.net[i].from == to.Other()
    requires row == (w.net[i].env.packet.pub, w.net[i].env.packet.n)
    ensures b > 0
    ensures PartyOK(h, w.spent + {i}, w.At(to).(skipped := w.At(to).skipped - {row}), if to == Alice then a else b)
    ensures PartyOK(h, w.spent + {i}, w.At(to.Other()), if to == Alice then b else a)
  {
    SessionsStarted(w, h, a, b, to, row);
    var p, q := PositionOf(w, h, a, b, to);
    assert PacketOK(h, w.net, w.nextKey, i);
    HitKeepsOwner(h, w.net, w.nextKey, w.spent, w.At(to), p, i);
    SpentElsewhere(h, w.net, w.nextKey, w.spent, w.At(to.Other()), q, i);
  }

  lemma HitKeepsInv(w: World, h: History, a: nat, b: nat, to: Side, row: (KeyId, u32), i: nat)
    requires Inv(w, h, a, b) && row in w.At(to).skipped
    requires 1 <= i < |w.net| && w.net[i].env.DR? && w.net[i].from == to.Other()
    requires row == (w.net[i].env.packet.pub, w.net[i].env.packet.n)
    ensures var node := w.At(to).(skipped := w.At(to).skipped - {row});
            Inv(w.With(to, node).(nextKey := w.nextKey + 1, spent := w.spent + {i}), h, a, b)
  {
    WeakenNextKey(h, w.net, w.nextKey);
    HitReady(w, h, a, b, to, row, i);
    var node := w.At(to).(skipped := w.At(to).skipped - {row});
    if to == Alice {
      AliceMoved(w, h, a, b, h, a, node, w.spent + {i});
    } else {
      BobMoved(w, h, a, b, h, b, node, w.spent + {i});
    }
  }

  /** A stored row means that both sides have their session. */
  lemma SessionsStarted(w: World, h: History, a: nat, b: nat, side: Side, row: (KeyId, u32))
    requires Inv(w, h, a, b) && row in w.At(side).skipped
    ensures b > 0
  {
    if side == Alice {
      var c: nat :| FiledUnder(h, w.spent, a, w.alice.session.value.m, c, row);
      assert Incoming(h, a, c);
    }
  }

  /** A stored row is struck for one message, and otherwise nothing is struck. */
  lemma StruckExactly(w: World, h: History, a: nat, b: nat, to: Side, env: Envelope)
    requires Inv(w, h, a, b)
    ensures if env.DR? && (env.packet.pub, env.packet.n) in w.At(to).skipped
            then exists i :: 1 <= i < |w.net| && Hits(w, to, env, i) && Struck(w, to, env) == {i}
            else Struck(w, to, env) == {}
  {
    if env.DR? && (env.packet.pub, env.packet.n) in w.At(to).skipped {
      var i := RowIsUnspent(w, h, a, b, to, (env.packet.pub, env.packet.n));
      forall j | j in Struck(w, to, env)
        ensures j == i
      {
        HeaderIsUnique(h, w.net, w.nextKey, i, j);
      }
      assert Hits(w, to, env, i);
    }
  }

  lemma InjectKeepsInv(w: World, h: History, a: nat, b: nat, to: Side, env: Envelope)
    requires Inv(w, h, a, b) && !Wipes(w, to, env)
    ensures Inv(Step(w, Inject(to, env)), h, a, b)
  {
    if Foreign(env) {
      InjectOnly(w, h, a, b, to, env);
      StruckExactly(w, h, a, b, to, env);
      if env.DR? && (env.packet.pub, env.packet.n) in w.At(to).skipped {
        var i :| 1 <= i < |w.net| && Hits(w, to, env, i) && Struck(w, to, env) == {i};
        HitKeepsInv(w, h, a, b, to, (env.packet.pub, env.packet.n), i);
      } else {
        assert env.DR? ==> w.At(to).skipped - {(env.packet.pub, env.packet.n)} == w.At(to).skipped;
        assert w.spent + {} == w.spent;
        MissKeepsInv(w, h, a, b, to);
      }
    }
  }

  /** A new pre-key is none of the old ones, nor the one the handshake used. */
  lemma StockKeepsInv(w: World, h: History, a: nat, b: nat, side: Side)
    requires Inv(w, h, a, b)
    ensures Inv(Step(w, Stock(side)), h, a, b)
  {
    WeakenNextKey(h, w.net, w.nextKey);
  }

  // ---------------------------------------------------------------- wiped sessions

  const GONE := Node(None, map[])

  /** The world as it would be but for the wiped sides, which have nothing left. */
  function Masked(w0: World, wiped: set<Side>): World {
    w0.(alice := if Alice in wiped then GONE else w0.alice,
        bob := if Bob in wiped then GONE else w0.bob,
        wiped := wiped)
  }

  /** `w0` is the world in which every wiped side still stands where it stood when it was wiped. */
  ghost predicate Shadow(w: World, w0: World, h: History, a: nat, b: nat) {
    && Inv(w0, h, a, b) && w0.wiped == {}
    && w == Masked(w0, w.wiped)
    && (Bob in w.wiped ==> b > 0)
  }

  /** A wiped side makes nothing of anything. */
  lemma GoneReceives(w: World, w0: World, h: History, a: nat, b: nat, i: nat)
    requires Shadow(w, w0, h, a, b) && i < |w.net| && w.net[i].from.Other() in w.wiped
    ensures var to := w.net[i].from.Other();
            && Reception(w, i) == (GONE, w.PreKeysOf(to), None)
            && Step(w, Deliver(i)) == w.(nextKey := w.nextKey + 1)
  {
    if i > 0 {
      assert PacketOK(h, w0.net, w0.nextKey, i);
    }
  }

  lemma GoneInjected(w: World, w0: World, h: History, a: nat, b: nat, to: Side, env: Envelope)
    requires Shadow(w, w0, h, a, b) && to in w.wiped && Foreign(env)
    ensures Step(w, Inject(to, env)) == w.(nextKey := w.nextKey + 1)
  {
    assert w.At(to) == GONE;
    assert Struck(w, to, env) == {};
    assert w.spent + {} == w.spent;
    var none: SkippedTable := map[];
    assert env.DR? ==> none - {(env.packet.pub, env.packet.n)} == none;
  }

  /** What happens to a side that is not wiped happens alike in the shadow. */
  lemma DeliverMasked(w0: World, wiped: set<Side>, i: nat)
    requires i < |w0.net| && w0.net[i].from.Other() !in wiped
    ensures Reception(Masked(w0, wiped), i) == Reception(w0, i)
    ensures Step(Masked(w0, wiped), Deliver(i)) == Masked(Step(w0, Deliver(i)), wiped)
  {
  }

  lemma InjectMasked(w0: World, wiped: set<Side>, to: Side, env: Envelope)
    requires to !in wiped && w0.wiped == {} && !Wipes(w0, to, env)
    ensures Step(Masked(w0, wiped), Inject(to, env)) == Masked(Step(w0, Inject(to, env)), wiped)
    ensures Step(w0, Inject(to, env)).wiped == {}
  {
    var w := Masked(w0, wiped);
    assert forall i :: 0 <= i < |w.net| ==> Hits(w, to, env, i) == Hits(w0, to, env, i);
    assert Struck(w, to, env) == Struck(w0, to, env);
  }

  /** A wiping handshake leaves nothing of the session and the skipped keys, and everything else as it was. */
  lemma WipeMasked(w: World, w0: World, h: History, a: nat, b: nat, to: Side, env: Envelope)
    requires Shadow(w, w0, h, a, b) && Foreign(env) && Wipes(w, to, env)
    ensures Step(w, Inject(to, env)) == Masked(w0.(nextKey := w0.nextKey + 1), w.wiped + {to})
    ensures to == Bob ==> b > 0
  {
    assert Struck(w, to, env) == {};
    assert w.spent + {} == w.spent;
  }

  lemma DeliverToGone(w: World, w0: World, h: History, a: nat, b: nat, i: nat)
    requires Shadow(w, w0, h, a, b) && i < |w.net| && w.net[i].from.Other() in w.wiped
    ensures Shadow(Step(w, Deliver(i)), w0.(nextKey := w0.nextKey + 1), h, a, b)
    ensures i in w.spent || NoSession(w, i)
    ensures Reception(w, i) == (w.At(w.net[i].from.Other()), w.PreKeysOf(w.net[i].from.Other()), None)
  {
    GoneReceives(w, w0, h, a, b, i);
    WeakenNextKey(h, w0.net, w0.nextKey);
    if i > 0 {
      assert PacketOK(h, w0.net, w0.nextKey, i);
    }
  }

  lemma DeliverShadow(w: World, w0: World, h: History, a: nat, b: nat, i: nat)
    returns (w0': World, h': History, a': nat, b': nat)
    requires Shadow(w, w0, h, a, b) && i < |w.net|
    ensures Shadow(Step(w, Deliver(i)), w0', h', a', b')
    ensures Reception(w, i).2 == if i in w.spent || NoSession(w, i) then None else Some(w.net[i].text)
    ensures i in w.spent || NoSession(w, i) ==>
              Reception(w, i) == (w.At(w.net[i].from.Other()), w.PreKeysOf(w.net[i].from.Other()), None)
  {
    if w.net[i].from.Other() in w.wiped {
      w0', h', a', b' := w0.(nextKey := w0.nextKey + 1), h, a, b;
      DeliverToGone(w, w0, h, a, b, i);
    } else {
      w0' := Step(w0, Deliver(i));
      h', a', b' := DeliverKeepsInv(w0, h, a, b, i);
      DeliverMasked(w0, w.wiped, i);
    }
  }

  lemma WipeShadow(w: World, w0: World, h: History, a: nat, b: nat, to: Side, env: Envelope)
    requires Shadow(w, w0, h, a, b) && Foreign(env) && Wipes(w, to, env)
    ensures Shadow(Step(w, Inject(to, env)), w0.(nextKey := w0.nextKey + 1), h, a, b)
  {
    WipeMasked(w, w0, h, a, b, to, env);
    WeakenNextKey(h, w0.net, w0.nextKey);
  }

  lemma InjectToGone(w: World, w0: World, h: History, a: nat, b: nat, to: Side, env: Envelope)
    requires Shadow(w, w0, h, a, b) && to in w.wiped && Foreign(env)
    ensures Shadow(Step(w, Inject(to, env)), w0.(nextKey := w0.nextKey + 1), h, a, b)
  {
    GoneInjected(w, w0, h, a, b, to, env);
    WeakenNextKey(h, w0.net, w0.nextKey);
  }

  lemma InjectShadow(w: World, w0: World, h: History, a: nat, b: nat, to: Side, env: Envelope) returns (w0': World)
    requires Shadow(w, w0, h, a, b) && Foreign(env)
    ensures Shadow(Step(w, Inject(to, env)), w0', h, a, b)
  {
    if to in w.wiped {
      InjectToGone(w, w0, h, a, b, to, env);
      w0' := w0.(nextKey := w0.nextKey + 1);
    } else if Wipes(w, to, env) {
      WipeShadow(w, w0, h, a, b, to, env);
      w0' := w0.(nextKey := w0.nextKey + 1);
    } else {
      w0' := Step(w0, Inject(to, env));
      InjectKeepsInv(w0, h, a, b, to, env);
      InjectMasked(w0, w.wiped, to, env);
    }
  }

  lemma SendShadow(w: World, w0: World, h: History, a: nat, b: nat, from: Side, text: string)
    returns (w0': World, h': History)
    requires Shadow(w, w0, h, a, b)
    ensures Shadow(Step(w, Send(from, text)), w0', h', a, b)
  {
    if from in w.wiped {
      w0', h' := w0, h;
    } else {
      w0' := Step(w0, Send(from, text));
      h' := SendKeepsInv(w0, h, a, b, from, text);
    }
  }

  lemma StepShadow(w: World, w0: World, h: History, a: nat, b: nat, e: Event)
    returns (w0': World, h': History, a': nat, b': nat)
    requires Shadow(w, w0, h, a, b)
    ensures Shadow(Step(w, e), w0', h', a', b')
  {
    w0', h', a', b' := w0, h, a, b;
    match e {
      case Send(from, text) => w0', h' := SendShadow(w, w0, h, a, b, from, text);
      case Deliver(i) =>
        if i < |w.net| {
          w0', h', a', b' := DeliverShadow(w, w0, h, a, b, i);
        }
      case Inject(to, env) =>
        if Foreign(env) {
          w0' := InjectShadow(w, w0, h, a, b, to, env);
        }
      case Stock(side) =>
        StockKeepsInv(w0, h, a, b, side);
        w0' := Step(w0, Stock(side));
    }
  }

  lemma {:induction false} RunInv(setup: Setup, events: seq<Event>) returns (w0: World, h: History, a: nat, b: nat)
    ensures Shadow(Run(setup, events), w0, h, a, b)
  {
    if events == [] {
      w0, a, b := Start(setup), 1, 0;
      h := StartInv(setup);
    } else {
      w0, h, a, b := RunInv(setup, events[..|events| - 1]);
      w0, h, a, b := StepShadow(Run(setup, events[..|events| - 1]), w0, h, a, b, events[|events| - 1]);
    }
  }

  // ---------------------------------------------------------------- what a run has done

  /** The `j`-th event handed envelope `i` to an addressee that could take it. */
  ghost predicate HandedAt(setup: Setup, events: seq<Event>, i: nat, j: int)
    requires 0 <= j < |events|
  {
    var w := Run(setup, events[..j]);
    events[j] == Deliver(i) && i < |w.net| && !NoSession(w, i)
  }

  ghost predicate HandedOver(setup: Setup, events: seq<Event>, i: nat) {
    exists j :: 0 <= j < |events| && HandedAt(setup, events, i, j)
  }

  /** The `j`-th event was a foreign envelope with the header of message `i`, while the key of `i` was stored. */
  ghost predicate SpoiledAt(setup: Setup, events: seq<Event>, i: nat, j: int)
    requires 0 <= j < |events|
  {
    var w := Run(setup, events[..j]);
    i < |w.net| && events[j].Inject? && Foreign(events[j].env) && Hits(w, events[j].to, events[j].env, i)
  }

  ghost predicate Spoiled(setup: Setup, events: seq<Event>, i: nat) {
    exists j :: 0 <= j < |events| && SpoiledAt(setup, events, i, j)
  }

  /** The `j`-th event was a foreign handshake that named a pre-key of side `x`, which had a session. */
  ghost predicate WipedAt(setup: Setup, events: seq<Event>, x: Side, j: int)
    requires 0 <= j < |events|
  {
    var w := Run(setup, events[..j]);
    events[j].Inject? && events[j].to == x && Foreign(events[j].env) && Wipes(w, x, events[j].env)
  }

  ghost predicate Wiped(setup: Setup, events: seq<Event>, x: Side) {
    exists j :: 0 <= j < |events| && WipedAt(setup, events, x, j)
  }

  /** Alice has a session from the beginning, Bob once the handshake has been delivered. */
  ghost predicate Started(setup: Setup, events: seq<Event>, x: Side) {
    x == Alice || HandedOver(setup, events, 0)
  }

  lemma HandedOverSplit(setup: Setup, events: seq<Event>, i: nat)
    requires events != []
    ensures HandedOver(setup, events, i) <==>
              HandedOver(setup, events[..|events| - 1], i) || HandedAt(setup, events, i, |events| - 1)
  {
    var init := events[..|events| - 1];
    forall j | 0 <= j < |init|
      ensures HandedAt(setup, events, i, j) <==> HandedAt(setup, init, i, j)
    {
      assert events[..j] == init[..j];
    }
    if HandedOver(setup, init, i) {
      var j :| 0 <= j < |init| && HandedAt(setup, init, i, j);
      assert HandedAt(setup, events, i, j);
    }
  }

  lemma SpoiledSplit(setup: Setup, events: seq<Event>, i: nat)
    requires events != []
    ensures Spoiled(setup, events, i) <==>
              Spoiled(setup, events[..|events| - 1], i) || SpoiledAt(setup, events, i, |events| - 1)
  {
    var init := events[..|events| - 1];
    forall j | 0 <= j < |init|
      ensures SpoiledAt(setup, events, i, j) <==> SpoiledAt(setup, init, i, j)
    {
      assert events[..j] == init[..j];
    }
    if Spoiled(setup, init, i) {
      var j :| 0 <= j < |init| && SpoiledAt(setup, init, i, j);
      assert SpoiledAt(setup, events, i, j);
    }
  }

  lemma WipedSplit(setup: Setup, events: seq<Event>, x: Side)
    requires events != []
    ensures Wiped(setup, events, x) <==>
              Wiped(setup, events[..|events| - 1], x) || WipedAt(setup, events, x, |events| - 1)
  {
    var init := events[..|events| - 1];
    forall j | 0 <= j < |init|
      ensures WipedAt(setup, events, x, j) <==> WipedAt(setup, init, x, j)
    {
      assert events[..j] == init[..j];
    }
    if Wiped(setup, init, x) {
      var j :| 0 <= j < |init| && WipedAt(setup, init, x, j);
      assert WipedAt(setup, events, x, j);
    }
  }

  lemma SpentStep(w: World, w0: World, h: History, a: nat, b: nat, e: Event, i: nat)
    requires Shadow(w, w0, h, a, b)
    ensures i in Step(w, e).spent <==>
              || i in w.spent
              || (e == Deliver(i) && i < |w.net| && !NoSession(w, i))
              || (i < |w.net| && e.Inject? && Foreign(e.env) && Hits(w, e.to, e.env, i))
  {
    if e.Deliver? && e.index < |w.net| {
      var _, _, _, _ := DeliverShadow(w, w0, h, a, b, e.index);
    }
  }

  /** A message's key is spent exactly when the message was handed over or spoiled. */
  lemma {:induction false} SpentExactly(setup: Setup, events: seq<Event>, i: nat)
    ensures i in Run(setup, events).spent <==> HandedOver(setup, events, i) || Spoiled(setup, events, i)
  {
    if events != [] {
      var init := events[..|events| - 1];
      SpentExactly(setup, init, i);
      HandedOverSplit(setup, events, i);
      SpoiledSplit(setup, events, i);
      var w0, h, a, b := RunInv(setup, init);
      SpentStep(Run(setup, init), w0, h, a, b, events[|events| - 1], i);
    }
  }

  lemma {:induction false} WipedExactly(setup: Setup, events: seq<Event>, x: Side)
    ensures x in Run(setup, events).wiped <==> Wiped(setup, events, x)
  {
    if events != [] {
      WipedExactly(setup, events[..|events| - 1], x);
      WipedSplit(setup, events, x);
    }
  }

  /** The handshake cannot be spoiled, so that its being spent means that it was delivered. */
  lemma {:induction false} HandshakeNeverSpoiled(setup: Setup, events: seq<Event>)
    ensures !Spoiled(setup, events, 0)
  {
    if events != [] {
      HandshakeNeverSpoiled(setup, events[..|events| - 1]);
      SpoiledSplit(setup, events, 0);
      var w0, h, a, b := RunInv(setup, events[..|events| - 1]);
    }
  }

  /** A side has a session exactly from its start until it is wiped. */
  lemma SessionStands(setup: Setup, events: seq<Event>, x: Side)
    ensures Run(setup, events).At(x).session.Some? <==> Started(setup, events, x) && !Wiped(setup, events, x)
  {
    var w0, h, a, b := RunInv(setup, events);
    WipedExactly(setup, events, x);
    SpentExactly(setup, events, 0);
    HandshakeNeverSpoiled(setup, events);
  }

  // ---------------------------------------------------------------- main results

  /**
   The headline claim: after any run, the first delivery of any envelope to an addressee that has
   begun its session yields exactly the text that was sent, however far out of order it comes, if and
   only if no foreign envelope with its header arrived while its key was stored, and no foreign
   handshake that named a pre-key of the addressee's wiped its session.
   */
  lemma FirstDeliveryDecrypts(setup: Setup, events: seq<Event>, i: nat)
    requires i < |Run(setup, events).net| && !HandedOver(setup, events, i)
    requires i == 0 || Started(setup, events, Run(setup, events).net[i].from.Other())
    ensures var w := Run(setup, events);
            Reception(w, i).2 == if Spoiled(setup, events, i) || Wiped(setup, events, w.net[i].from.Other()) then None
                                 else Some(w.net[i].text)
  {
    var w := Run(setup, events);
    var w0, h, a, b := RunInv(setup, events);
    SpentExactly(setup, events, i);
    SessionStands(setup, events, w.net[i].from.Other());
    WipedExactly(setup, events, w.net[i].from.Other());
    var _, _, _, _ := DeliverShadow(w, w0, h, a, b, i);
    if i > 0 {
      assert PacketOK(h, w0.net, w0.nextKey, i);
    }
  }

  /** On a network that only loses, reorders and repeats, every first delivery decrypts. */
  lemma {:induction false} NothingSpoiled(setup: Setup, events: seq<Event>, i: nat)
    requires forall j :: 0 <= j < |events| ==> !events[j].Inject?
    requires i < |Run(setup, events).net| && !HandedOver(setup, events, i)
    requires i == 0 || Started(setup, events, Run(setup, events).net[i].from.Other())
    ensures Reception(Run(setup, events), i).2 == Some(Run(setup, events).net[i].text)
  {
    FirstDeliveryDecrypts(setup, events, i);
  }

  /** Every later delivery fails and leaves the session row, the skipped keys and the pre-keys alone. */
  lemma RepeatedDeliveryFails(setup: Setup, events: seq<Event>, i: nat)
    requires i < |Run(setup, events).net|
    requires var to := Run(setup, events).net[i].from.Other();
             || HandedOver(setup, events, i) || Spoiled(setup, events, i) || Wiped(setup, events, to)
             || (i > 0 && !Started(setup, events, to))
    ensures var w := Run(setup, events);
            var to := w.net[i].from.Other();
            Reception(w, i) == (w.At(to), w.PreKeysOf(to), None)
  {
    var w := Run(setup, events);
    var w0, h, a, b := RunInv(setup, events);
    SpentExactly(setup, events, i);
    SessionStands(setup, events, w.net[i].from.Other());
    WipedExactly(setup, events, w.net[i].from.Other());
    var _, _, _, _ := DeliverShadow(w, w0, h, a, b, i);
    if i > 0 {
      assert PacketOK(h, w0.net, w0.nextKey, i);
    }
  }

  /** What any delivery of message `i` yields, first or not, read off the events alone. */
  lemma {:induction false} ReceptionExactly(setup: Setup, events: seq<Event>, i: nat)
    requires i < |Run(setup, events).net|
    ensures var w := Run(setup, events);
            var to := w.net[i].from.Other();
            Reception(w, i).2 == if (i == 0 || Started(setup, events, to)) && !HandedOver(setup, events, i)
                                    && !Spoiled(setup, events, i) && !Wiped(setup, events, to)
                                 then Some(w.net[i].text) else None
  {
    var to := Run(setup, events).net[i].from.Other();
    if (i == 0 || Started(setup, events, to)) && !HandedOver(setup, events, i) {
      FirstDeliveryDecrypts(setup, events, i);
    } else {
      RepeatedDeliveryFails(setup, events, i);
    }
  }

  /**
   What the synchronous part makes of a foreign envelope, exactly.  Neither the other side nor any
   pre-key is touched.  The addressee's session stays as it is if and only if the envelope is not a
   handshake that names a pre-key the addressee holds, or there is no session; otherwise nothing of
   the node is left.  A ratchet message takes at most the one skipped key its header names.
   */
  lemma InjectionExactly(setup: Setup, events: seq<Event>, to: Side, env: Envelope)
    requires Foreign(env)
    ensures var w, w' := Run(setup, events), Run(setup, events + [Inject(to, env)]);
            && w'.net == w.net && w'.alicePreKeys == w.alicePreKeys && w'.bobPreKeys == w.bobPreKeys
            && w'.At(to.Other()) == w.At(to.Other())
            && (w'.At(to).session == w.At(to).session <==> !NamesPreKey(w, to, env) || w.At(to).session.None?)
            && w'.At(to) == if NamesPreKey(w, to, env) then GONE
                            else if env.DR?
                            then w.At(to).(skipped := w.At(to).skipped - {(env.packet.pub, env.packet.n)})
                            else w.At(to)
  {
    var w := Run(setup, events);
    var w0, h, a, b := RunInv(setup, events);
    assert (events + [Inject(to, env)])[..|events|] == events;
    if !NamesPreKey(w, to, env) {
      ReceiveForeign(h, w0.spent, w.At(to), if to == Alice then a else b, w.PreKeysOf(to), env, w.nextKey);
    }
  }

  /**
   And what that means for every message sent so far, delivered or not: it is received after the foreign
   envelope as it would have been before, unless the envelope has wiped its addressee or taken its key.
   */
  lemma {:induction false} InjectionSparesTheRest(setup: Setup, events: seq<Event>, to: Side, env: Envelope, i: nat)
    requires Foreign(env) && i < |Run(setup, events).net|
    ensures var w, w' := Run(setup, events), Run(setup, events + [Inject(to, env)]);
            && i < |w'.net|
            && Reception(w', i).2 ==
               if (Wipes(w, to, env) && w.net[i].from == to.Other()) || Hits(w, to, env, i) then None
               else Reception(w, i).2
  {
    var events', x := events + [Inject(to, env)], Run(setup, events).net[i].from.Other();
    assert events'[..|events|] == events;
    HandedOverSplit(setup, events', i);
    HandedOverSplit(setup, events', 0);
    SpoiledSplit(setup, events', i);
    WipedSplit(setup, events', x);
    InjectionExactly(setup, events, to, env);
    ReceptionExactly(setup, events, i);
    ReceptionExactly(setup, events', i);
  }

  lemma {:induction false} WipedStays(setup: Setup, events: seq<Event>, more: seq<Event>, x: Side)
    requires x in Run(setup, events).wiped
    ensures x in Run(setup, events + more).wiped
  {
    if more == [] {
      assert events + more == events;
    } else {
      assert (events + more)[..|events + more| - 1] == events + more[..|more| - 1];
      WipedStays(setup, events, more[..|more| - 1], x);
    }
  }

  /** A wiped side stays so whatever follows: it has no session and no skipped key, and nothing sent to it opens. */
  lemma WipedForGood(setup: Setup, events: seq<Event>, more: seq<Event>, x: Side, i: nat)
    requires Wiped(setup, events, x)
    ensures Wiped(setup, events + more, x)
    ensures var w := Run(setup, events + more);
            w.At(x) == GONE && (i < |w.net| && w.net[i].from == x.Other() ==> Reception(w, i).2 == None)
  {
    WipedExactly(setup, events, x);
    WipedStays(setup, events, more, x);
    WipedExactly(setup, events + more, x);
    var w := Run(setup, events + more);
    var w0, h, a, b := RunInv(setup, events + more);
    if i < |w.net| && w.net[i].from == x.Other() {
      GoneReceives(w, w0, h, a, b, i);
    }
  }

  lemma KeysDifferIn(w: World, h: History, a: nat, b: nat, i: nat, j: nat)
    requires Inv(w, h, a, b) && i < j < |w.net|
    ensures BoxOf(w.net[i].env).key != BoxOf(w.net[j].env).key
  {
    assert PacketOK(h, w.net, w.nextKey, j);
    if i > 0 {
      assert PacketOK(h, w.net, w.nextKey, i);
      if BoxOf(w.net[i].env).key == BoxOf(w.net[j].env).key {
        MessageKeysDiffer(h, h.chain[i], w.net[i].env.packet.n, h.chain[j], w.net[j].env.packet.n);
      }
    }
  }

  /** No two messages of a session, in either direction, are sealed with the same key. */
  lemma {:induction false} MessageKeysNeverRepeat(setup: Setup, events: seq<Event>, i: nat, j: nat)
    requires i < j < |Run(setup, events).net|
    ensures BoxOf(Run(setup, events).net[i].env).key != BoxOf(Run(setup, events).net[j].env).key
  {
    var w0, h, a, b := RunInv(setup, events);
    KeysDifferIn(w0, h, a, b, i, j);
  }

  /** `y`'s newest public key, or the one before it. */
  predicate CurrentOrPrevious(key: KeyId, keys: seq<KeyId>) {
    (|keys| >= 1 && key == keys[|keys| - 1]) || (|keys| >= 2 && key == keys[|keys| - 2])
  }

  /** `mine`'s receive chain at its index M is `peer`'s send chain at that index. */
  predicate SameChain(mine: Session, peer: Session) {
    mine.m <= peer.n && Advance(mine.recv, peer.n - mine.m) == peer.send
  }

  /**
   Agreement between the two ends, once both have begun and as long as they are not wiped: a stored
   remote key is never older than the peer's previous one, at most one side lags, and whoever is up to
   date receives on the very chain the peer sends on; and the root key comes from the newest own key pair.
   */
  lemma EndsAgree(setup: Setup, events: seq<Event>, x: Side)
    requires HandedOver(setup, events, 0) && !Wiped(setup, events, x)
    ensures var w := Run(setup, events);
            && w.At(x).session.Some? && w.KeysOf(x) != []
            && var mine := w.At(x).session.value;
               && CurrentOrPrevious(mine.remotePub, w.KeysOf(x.Other()))
               && mine.localPriv == mine.localPub == w.KeysOf(x)[|w.KeysOf(x)| - 1]
               && mine.root == RootHalf(DeriveSharedSecret(mine.localPriv, mine.remotePub))
    ensures !Wiped(setup, events, x.Other()) ==>
              var w := Run(setup, events);
              && w.At(x.Other()).session.Some?
              && var mine, peer := w.At(x).session.value, w.At(x.Other()).session.value;
                 && (mine.remotePub == peer.localPub || peer.remotePub == mine.localPub)
                 && (mine.remotePub == peer.localPub ==> SameChain(mine, peer))
  {
    var w0, h, a, b := RunInv(setup, events);
    SessionStands(setup, events, x);
    SessionStands(setup, events, x.Other());
    WipedExactly(setup, events, x);
    WipedExactly(setup, events, x.Other());
    SpentExactly(setup, events, 0);
    EndsAgreeIn(w0, h, a, b, x);
  }

  lemma EndsAgreeIn(w: World, h: History, a: nat, b: nat, x: Side)
    requires Inv(w, h, a, b) && b > 0
    ensures var mine, peer := w.At(x).session.value, w.At(x.Other()).session.value;
            && CurrentOrPrevious(mine.remotePub, w.KeysOf(x.Other()))
            && w.KeysOf(x) != [] && mine.localPriv == mine.localPub == w.KeysOf(x)[|w.KeysOf(x)| - 1]
            && mine.root == RootHalf(DeriveSharedSecret(mine.localPriv, mine.remotePub))
            && (mine.remotePub == peer.localPub || peer.remotePub == mine.localPub)
            && (mine.remotePub == peer.localPub ==> SameChain(mine, peer))
  {
    var p, q := PositionOf(w, h, a, b, x);
    var mine, peer := w.At(x).session.value, w.At(x.Other()).session.value;
    var held := w.KeysOf(x.Other());
    assert HeldKeys(h, held, if x == Alice then 0 else 1, q);
    if p > q {
      assert q == p - 1 && p > 1;
      assert mine.remotePub == held[|held| - 1];
      AdvanceTwice(Chain(h, p - 1), mine.m, peer.n - mine.m);
    } else {
      assert q == p + 1;
      assert mine.remotePub == held[|held| - 2];
    }
  }

  /** The addressee of ratchet message `i` has walked past its index. */
  predicate WalkedPast(w: World, i: nat)
    requires i < |w.net| && w.net[i].env.DR?
    requires w.At(w.net[i].from.Other()).session.Some? && w.KeysOf(w.net[i].from) != []
  {
    var p, mine := w.net[i].env.packet, w.At(w.net[i].from.Other()).session.value;
    var peerKeys := w.KeysOf(w.net[i].from);
    if p.pub == mine.remotePub then p.n < mine.m else p.pub != peerKeys[|peerKeys| - 1]
  }

  /**
   Skipped keys are accounted for exactly, as long as their owner is not wiped: a message's key is
   stored if and only if its index was walked past and the message has been neither decrypted nor
   spoiled, it is then stored under the message's own epoch, and nothing was decrypted ahead of the walk.
   */
  lemma {:induction false} SkippedKeysExact(setup: Setup, events: seq<Event>, i: nat)
    requires 1 <= i < |Run(setup, events).net|
    requires var to := Run(setup, events).net[i].from.Other();
             HandedOver(setup, events, 0) && !Wiped(setup, events, to)
    ensures var w := Run(setup, events);
            && w.net[i].env.DR? && w.At(w.net[i].from.Other()).session.Some? && w.KeysOf(w.net[i].from) != []
            && var p, table := w.net[i].env.packet, w.At(w.net[i].from.Other()).skipped;
               var gone := HandedOver(setup, events, i) || Spoiled(setup, events, i);
               && ((p.pub, p.n) in table <==> WalkedPast(w, i) && !gone)
               && ((p.pub, p.n) in table ==> table[(p.pub, p.n)] == p.box.key)
               && (gone ==> WalkedPast(w, i))
  {
    var w, to := Run(setup, events), Run(setup, events).net[i].from.Other();
    var w0, h, a, b := RunInv(setup, events);
    SpentExactly(setup, events, i);
    SpentExactly(setup, events, 0);
    WipedExactly(setup, events, to);
    SkippedExactShadow(w, w0, h, a, b, i);
  }

  lemma SkippedExactShadow(w: World, w0: World, h: History, a: nat, b: nat, i: nat)
    requires Shadow(w, w0, h, a, b) && 1 <= i < |w.net| && 0 in w.spent && w.net[i].from.Other() !in w.wiped
    ensures w.net[i].env.DR? && w.At(w.net[i].from.Other()).session.Some? && w.KeysOf(w.net[i].from) != []
    ensures var p, table := w.net[i].env.packet, w.At(w.net[i].from.Other()).skipped;
            && ((p.pub, p.n) in table <==> WalkedPast(w, i) && i !in w.spent)
            && ((p.pub, p.n) in table ==> table[(p.pub, p.n)] == p.box.key)
            && (i in w.spent ==> WalkedPast(w, i))
  {
    SkippedExactIn(w0, h, a, b, i);
  }

  lemma SkippedExactIn(w: World, h: History, a: nat, b: nat, i: nat)
    requires Inv(w, h, a, b) && 1 <= i < |w.net| && b > 0
    ensures w.net[i].env.DR? && w.At(w.net[i].from.Other()).session.Some? && w.KeysOf(w.net[i].from) != []
    ensures var p, table := w.net[i].env.packet, w.At(w.net[i].from.Other()).skipped;
            && ((p.pub, p.n) in table <==> WalkedPast(w, i) && i !in w.spent)
            && ((p.pub, p.n) in table ==> table[(p.pub, p.n)] == p.box.key)
            && (i in w.spent ==> WalkedPast(w, i))
  {
    var to := w.net[i].from.Other();
    assert PacketOK(h, w.net, w.nextKey, i);
    var p, q := PositionOf(w, h, a, b, to);
    LastHeld(w, h, a, b, to.Other(), q);
    RowIsExact(h, w.net, w.nextKey, w.spent, w.At(to), h.keys[q], p, q, i);
  }

  lemma LastHeld(w: World, h: History, a: nat, b: nat, side: Side, q: nat)
    requires Inv(w, h, a, b) && q == if side == Alice then a else b
    ensures q < |h.keys| && w.KeysOf(side) != [] && w.KeysOf(side)[|w.KeysOf(side)| - 1] == h.keys[q]
  {
  }

  lemma RowIsExact(h: History, net: seq<Sent>, nextKey: KeyId, spent: set<nat>, node: Node, peerKey: KeyId, p: nat,
                   q: nat, i: nat)
    requires HistoryOK(h, net, nextKey) && PartyOK(h, spent, node, p)
    requires (p == q + 1 || q == p + 1) && |h.keys| == (if p < q then q else p) + 1 && peerKey == h.keys[q]
    requires 1 <= i < |net| && PacketOK(h, net, nextKey, i) && Incoming(h, p, h.chain[i])
    ensures var pkt, mine := net[i].env.packet, node.session.value;
            var walked := if pkt.pub == mine.remotePub then pkt.n < mine.m else pkt.pub != peerKey;
            && ((pkt.pub, pkt.n) in node.skipped <==> walked && i !in spent)
            && ((pkt.pub, pkt.n) in node.skipped ==> node.skipped[(pkt.pub, pkt.n)] == pkt.box.key)
            && (i in spent ==> walked)
  {
    LookupIsExact(h, net, nextKey, spent, node, p, i);
    var c := h.chain[i];
    assert h.keys[c] == h.keys[p - 1] ==> c == p - 1;
    assert h.keys[c] == h.keys[q] ==> c == q;
  }

  /** And no row is left over: each is the key of one message sent to this side, neither decrypted nor spoiled. */
  lemma NoStraySkippedKey(setup: Setup, events: seq<Event>, x: Side, row: (KeyId, u32)) returns (i: nat)
    requires row in Run(setup, events).At(x).skipped
    ensures 1 <= i < |Run(setup, events).net| && Run(setup, events).net[i].env.DR?
    ensures Run(setup, events).net[i].from == x.Other()
    ensures row == (Run(setup, events).net[i].env.packet.pub, Run(setup, events).net[i].env.packet.n)
    ensures !HandedOver(setup, events, i) && !Spoiled(setup, events, i)
  {
    var w0, h, a, b := RunInv(setup, events);
    i := RowIsUnspent(w0, h, a, b, x, row);
    SpentExactly(setup, events, i);
  }

  lemma RowIsUnspent(w: World, h: History, a: nat, b: nat, x: Side, row: (KeyId, u32)) returns (i: nat)
    requires Inv(w, h, a, b) && row in w.At(x).skipped
    ensures 1 <= i < |w.net| && w.net[i].env.DR? && w.net[i].from == x.Other() && i !in w.spent
    ensures row == (w.net[i].env.packet.pub, w.net[i].env.packet.n)
  {
    var p, q := PositionOf(w, h, a, b, x);
    i := RowPlace(h, w.net, w.nextKey, w.spent, w.At(x), p, row);
  }

  lemma RowPlace(h: History, net: seq<Sent>, nextKey: KeyId, spent: set<nat>, node: Node, p: nat, row: (KeyId, u32))
    returns (i: nat)
    requires HistoryOK(h, net, nextKey) && PartyOK(h, spent, node, p) && row in node.skipped
    ensures 1 <= i < |net| && net[i].env.DR? && net[i].from == Owner(p).Other() && i !in spent
    ensures row == (net[i].env.packet.pub, net[i].env.packet.n)
  {
    var c: nat :| FiledUnder(h, spent, p, node.session.value.m, c, row);
    i := h.at[c][row.1];
    assert PlaceOK(h, net, nextKey, c, row.1);
    assert PacketOK(h, net, nextKey, i);
  }
}
