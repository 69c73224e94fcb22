/**
 Handshakes over what went before: a side that has lost its session starts again, and the other side
 still has an old session and old skipped keys.
 */
module Handshakes {
  import opened Prelude
  import opened SymbolicCrypto
  import opened Ratchet
  import opened SessionStore
  import opened TwoParty
  import opened SessionRuns

  // ---------------------------------------------------------------- one handshake

  /**
   A handshake is received without regard to what the node has: all that counts is whether it names a
   pre-key still held, and whether its payload opens.
   */
  lemma ReceivedWithoutRegard(node: Node, other: Node, preKeys: set<KeyId>, env: Envelope, newKey: KeyId)
    requires env.X3DH?
    ensures Receive(node, preKeys, env, newKey).2.Some?
            <==> env.keyId in preKeys && env.payload.key == DeriveSharedSecret(env.keyId, env.ePub)
    ensures env.keyId !in preKeys ==> Receive(node, preKeys, env, newKey) == (node, preKeys, None)
    ensures env.keyId in preKeys ==> Receive(node, preKeys, env, newKey) == Receive(other, preKeys, env, newKey)
  {
  }

  /**
   Whatever the receiver has of an older session, after a handshake for a pre-key it holds no skipped key
   is left and the two sides understand each other both ways.
   */
  lemma HandshakeReplacesSession(sender: Node, receiver: Node, preKeys: set<KeyId>, k: KeyId, e: KeyId, r: KeyId,
                                 newKey: KeyId, later: KeyId, t1: string, t2: string, t3: string)
    requires !Usable(sender) && k in preKeys && k != r && newKey != k && newKey != r
    ensures var (alice, hello) := Prepare(sender, t1, Some(k), e, r);
            && hello.Some?
            && var (bob, left, got) := Receive(receiver, preKeys, hello.value, newKey);
               var (alice', next) := Prepare(alice, t2, None, 0, 0);
               var (bob', reply) := Prepare(bob, t3, None, 0, 0);
               && got == Some(t1) && left == preKeys - {k} && alice.skipped == bob.skipped == map[]
               && next.Some? && Receive(bob, left, next.value, later).2 == Some(t2)
               && reply.Some? && Receive(alice, {}, reply.value, later).2 == Some(t3)
               && Receive(alice', {}, reply.value, later).2 == Some(t3)
  {
    var (alice, hello) := Prepare(sender, t1, Some(k), e, r);
    var (bob, left, got) := Receive(receiver, preKeys, hello.value, newKey);
    assert OrRoot(bob.session.value.send, bob.session.value.root) == ChainOf(newKey, r);
    assert OrRoot(bob.session.value.recv, bob.session.value.root) == ChainOf(k, r);
  }

  // ---------------------------------------------------------------- a session begun again

  /** A run from any world. */
  function RunFrom(w: World, events: seq<Event>): World {
    if events == [] then w else Step(RunFrom(w, events[..|events| - 1]), events[|events| - 1])
  }

  /** Alice, without a usable session, begins a handshake; both sides may have remains of an older session. */
  function StartOver(setup: Setup, alice: Node, bob: Node): World
    requires !Usable(alice)
  {
    var (alice', env) := Prepare(alice, setup.text, Some(setup.preKey), setup.ephemeral, setup.ratchet);
    Start(setup).(alice := alice', bob := bob, net := [Sent(Alice, env.value, setup.text)])
  }

  /** Nothing that Bob has left involves the key pairs of the new handshake. */
  predicate Unrelated(bob: Node, setup: Setup) {
    && (bob.session.Some? ==>
          bob.session.value.localPriv != setup.preKey && bob.session.value.remotePub != setup.ratchet
          && bob.session.value.localPub < setup.nextKey)
    && forall row :: row in bob.skipped ==> row.0 != setup.ratchet
  }

  /** Until the handshake arrives, Bob does not send on the old session, nor does anybody else write to him. */
  ghost predicate QuietUntilStarted(setup: Setup, events: seq<Event>) {
    forall j :: 0 <= j < |events| && ForBob(events[j]) ==> HandedOver(setup, events[..j], 0)
  }

  predicate ForBob(e: Event) {
    (e.Send? && e.from == Bob) || (e.Inject? && e.to == Bob)
  }

  /** The world of the run, with Bob's remains in place of nothing as long as his new session has not begun. */
  function WithRemains(w: World, bob: Node): World {
    if 0 in w.spent then w else w.(bob := bob)
  }

  /** A message of the new session, too early for Bob, leaves his remains alone. */
  lemma TooEarly(setup: Setup, bob: Node, p: Packet, newKey: KeyId)
    requires Unrelated(bob, setup) && p.pub == setup.ratchet
    requires p.box.key == MessageKey(Advance(ChainOf(setup.ratchet, setup.preKey), p.n))
    ensures ReceiveDR(bob, p, newKey) == (bob, None)
  {
    if Usable(bob) {
      var s := bob.session.value;
      var ready := BeforeOpen(s.(recv := OrRoot(s.recv, s.root)), p, newKey).0;
      assert ready.recv == Advance(ChainOf(s.localPriv, p.pub), p.n);
      if MessageKey(ready.recv) == p.box.key {
        AdvanceInjective(DeriveSharedSecret(s.localPriv, p.pub), p.n,
                         DeriveSharedSecret(setup.ratchet, setup.preKey), p.n);
      }
    }
  }

  /** What is in the network before Bob begins: the handshake, and messages on Alice's first chain. */
  lemma BeforeTheStart(setup: Setup, events: seq<Event>, i: nat)
    requires 0 !in Run(setup, events).spent && 1 <= i < |Run(setup, events).net|
    ensures var sent := Run(setup, events).net[i];
            && sent.from == Alice && sent.env.DR? && sent.env.packet.pub == setup.ratchet
            && sent.env.packet.box.key == MessageKey(Advance(ChainOf(setup.ratchet, setup.preKey), sent.env.packet.n))
  {
    var w0, h, a, b := RunInv(setup, events);
    FirstEnvelope(setup, events);
    assert PacketOK(h, w0.net, w0.nextKey, i);
  }

  /** The handshake stays the first envelope of the run. */
  lemma {:induction false} FirstEnvelope(setup: Setup, events: seq<Event>)
    ensures Run(setup, events).net != [] && Run(setup, events).net[0] == Start(setup).net[0]
  {
    if events != [] {
      FirstEnvelope(setup, events[..|events| - 1]);
    }
  }

  /** As long as the handshake has not arrived, Bob has nothing but the pre-key for it. */
  lemma BobAwaits(setup: Setup, events: seq<Event>)
    requires 0 !in Run(setup, events).spent
    ensures var w := Run(setup, events);
            && w.bob == Node(None, map[]) && w.net != [] && w.net[0].from == Alice && w.net[0].env.X3DH?
            && w.net[0].env.keyId in w.bobPreKeys && w.nextKey >= setup.nextKey
            && w.net[0].env.payload.key == DeriveSharedSecret(w.net[0].env.keyId, w.net[0].env.ePub)
  {
    var w0, h, a, b := RunInv(setup, events);
    KeysGrow(setup, events);
  }

  lemma {:induction false} KeysGrow(setup: Setup, events: seq<Event>)
    ensures Run(setup, events).nextKey >= setup.nextKey
  {
    if events != [] {
      KeysGrow(setup, events[..|events| - 1]);
    }
  }

  /** An event that does not touch Bob's node takes no notice of his remains. */
  lemma RemainsUntouched(w: World, bob: Node, e: Event)
    requires !ForBob(e) && (e.Deliver? ==> e.index >= |w.net| || w.net[e.index].from == Bob)
    ensures Step(w.(bob := bob), e) == Step(w, e).(bob := bob)
    ensures w.net != [] && w.net[0].env.X3DH? && w.net[0].from == Alice && 0 !in w.spent ==> 0 !in Step(w, e).spent
  {
    if e.Inject? {
      assert forall i :: 0 <= i < |w.net| ==> Hits(w.(bob := bob), e.to, e.env, i) == Hits(w, e.to, e.env, i);
      assert Struck(w.(bob := bob), e.to, e.env) == Struck(w, e.to, e.env);
    }
  }

  /** The handshake finds its way over Bob's remains and leaves nothing of them. */
  lemma HandshakeOverRemains(w: World, bob: Node)
    requires w.bob == Node(None, map[]) && w.net != [] && w.net[0].from == Alice
    requires w.net[0].env.X3DH? && w.net[0].env.keyId in w.bobPreKeys
    requires bob.session.Some? ==> bob.session.value.localPub < w.nextKey
    requires w.net[0].env.payload.key == DeriveSharedSecret(w.net[0].env.keyId, w.net[0].env.ePub)
    ensures Step(w.(bob := bob), Deliver(0)) == Step(w, Deliver(0)) && 0 in Step(w, Deliver(0)).spent
  {
    var v := w.(bob := bob);
    ReceivedWithoutRegard(bob, w.bob, w.bobPreKeys, w.net[0].env, w.nextKey);
    assert Reception(v, 0) == Reception(w, 0);
    assert Reception(w, 0).2.Some? && Reception(w, 0).0.session.Some?;
  }

  lemma EarlyOverRemains(setup: Setup, w: World, bob: Node, i: nat)
    requires Unrelated(bob, setup) && w.bob == Node(None, map[]) && 1 <= i < |w.net|
    requires w.net[i].from == Alice && w.net[i].env.DR? && w.net[i].env.packet.pub == setup.ratchet
    requires w.net[i].env.packet.box.key
             == MessageKey(Advance(ChainOf(setup.ratchet, setup.preKey), w.net[i].env.packet.n))
    ensures Reception(w.(bob := bob), i) == (bob, w.bobPreKeys, None)
    ensures Step(w, Deliver(i)) == w.(nextKey := w.nextKey + 1)
    ensures Step(w.(bob := bob), Deliver(i)) == w.(bob := bob, nextKey := w.nextKey + 1)
  {
    TooEarly(setup, bob, w.net[i].env.packet, w.nextKey);
    assert Reception(w, i) == (w.bob, w.bobPreKeys, None);
  }

  /** Before Bob begins, one event does the same to both worlds. */
  lemma StepWithRemains(setup: Setup, events: seq<Event>, bob: Node, e: Event)
    requires Unrelated(bob, setup) && 0 !in Run(setup, events).spent && !ForBob(e)
    ensures Step(WithRemains(Run(setup, events), bob), e) == WithRemains(Step(Run(setup, events), e), bob)
  {
    var w := Run(setup, events);
    BobAwaits(setup, events);
    if e.Deliver? && e.index < |w.net| && w.net[e.index].from == Alice {
      if e.index == 0 {
        HandshakeOverRemains(w, bob);
      } else {
        BeforeTheStart(setup, events, e.index);
        EarlyOverRemains(setup, w, bob, e.index);
      }
    } else {
      RemainsUntouched(w, bob, e);
    }
  }

  /**
   A session begun again is a session from the start: whatever remains of an older one on either side,
   once the new handshake has arrived both sides are in every respect where a first session would have
   them, after any run; until then only Bob's remains are different, and no reception is.
   */
  lemma {:induction false} SessionStartsOver(setup: Setup, alice: Node, bob: Node, events: seq<Event>)
    requires !Usable(alice) && Unrelated(bob, setup) && QuietUntilStarted(setup, events)
    ensures RunFrom(StartOver(setup, alice, bob), events) ==
            if HandedOver(setup, events, 0) then Run(setup, events) else Run(setup, events).(bob := bob)
  {
    StartsWithRemains(setup, alice, bob, events);
    SpentExactly(setup, events, 0);
    HandshakeNeverSpoiled(setup, events);
  }

  lemma {:induction false} StartsWithRemains(setup: Setup, alice: Node, bob: Node, events: seq<Event>)
    requires !Usable(alice) && Unrelated(bob, setup) && QuietUntilStarted(setup, events)
    ensures RunFrom(StartOver(setup, alice, bob), events) == WithRemains(Run(setup, events), bob)
  {
    if events != [] {
      var init, e := events[..|events| - 1], events[|events| - 1];
      forall j | 0 <= j < |init| && ForBob(init[j])
        ensures HandedOver(setup, init[..j], 0)
      {
        assert init[..j] == events[..j] && init[j] == events[j];
      }
      StartsWithRemains(setup, alice, bob, init);
      SpentExactly(setup, init, 0);
      HandshakeNeverSpoiled(setup, init);
      if 0 in Run(setup, init).spent {
        SpentGrows(Run(setup, init), e);
      } else {
        assert events[..|init|] == init;
        assert !ForBob(e);
        StepWithRemains(setup, init, bob, e);
      }
    }
  }

  lemma SpentGrows(w: World, e: Event)
    ensures w.spent <= Step(w, e).spent
  {
  }

  /** So the first delivery of the new handshake, and of any later message, decrypts as in a first session. */
  lemma {:induction false} RenewedSessionDecrypts(setup: Setup, alice: Node, bob: Node, events: seq<Event>, i: nat)
    requires !Usable(alice) && Unrelated(bob, setup) && QuietUntilStarted(setup, events)
    requires i < |Run(setup, events).net| && !HandedOver(setup, events, i)
    requires i == 0 || HandedOver(setup, events, 0)
    ensures var w := RunFrom(StartOver(setup, alice, bob), events);
            && i < |w.net|
            && Reception(w, i).2 == if Spoiled(setup, events, i) || Wiped(setup, events, w.net[i].from.Other())
                                    then None else Some(w.net[i].text)
  {
    SessionStartsOver(setup, alice, bob, events);
    FirstDeliveryDecrypts(setup, events, i);
    var w := Run(setup, events);
    if !HandedOver(setup, events, 0) {
      SpentExactly(setup, events, 0);
      HandshakeNeverSpoiled(setup, events);
      BobAwaits(setup, events);
      ReceivedWithoutRegard(bob, w.bob, w.bobPreKeys, w.net[0].env, w.nextKey);
    }
  }

  // ---------------------------------------------------------------- the cooldown

  /** One attempt to send to a peer, with whatever is stored about the peer at that moment. */
  datatype Attempt = Attempt(node: Node, text: string, preKey: Option<KeyId>, ephemeral: KeyId, ratchet: KeyId,
                             now: int)

  function Attempted(a: Attempt, begun: Option<int>): (Node, Option<int>, Option<Envelope>) {
    PrepareAt(a.node, begun, a.text, a.preKey, a.ephemeral, a.ratchet, a.now)
  }

  /** When the last handshake was begun, after these attempts. */
  function BegunAfter(begun: Option<int>, attempts: seq<Attempt>): Option<int> {
    if attempts == [] then begun
    else Attempted(attempts[|attempts| - 1], BegunAfter(begun, attempts[..|attempts| - 1])).1
  }

  /** The j-th attempt sends a handshake. */
  predicate SendsHandshake(begun: Option<int>, attempts: seq<Attempt>, j: nat)
    requires j < |attempts|
  {
    var env := Attempted(attempts[j], BegunAfter(begun, attempts[..j])).2;
    env.Some? && env.value.X3DH?
  }

  lemma {:induction false} BegunLater(begun: Option<int>, attempts: seq<Attempt>, i: nat)
    requires i < |attempts| && SendsHandshake(begun, attempts, i)
    ensures var last := BegunAfter(begun, attempts);
            last.Some? && last.value >= attempts[i].now
  {
    var init := attempts[..|attempts| - 1];
    if i < |init| {
      assert init[..i] == attempts[..i];
      BegunLater(begun, init, i);
    }
  }

  /** Two handshakes with one peer are at least five seconds apart, whatever the clock and the tables do meanwhile. */
  lemma {:induction false} HandshakesFarApart(begun: Option<int>, attempts: seq<Attempt>, i: nat, j: nat)
    requires i < j < |attempts| && SendsHandshake(begun, attempts, i) && SendsHandshake(begun, attempts, j)
    ensures attempts[j].now - attempts[i].now >= X3DH_COOLDOWN
  {
    var before := attempts[..j];
    assert before[..i] == attempts[..i];
    BegunLater(begun, before, i);
  }

  /** An attempt always sends on a usable session; otherwise exactly with a pre-key at hand and no cooldown running. */
  lemma AttemptSends(a: Attempt, begun: Option<int>)
    ensures Attempted(a, begun).2.Some? <==> Usable(a.node) || (a.preKey.Some? && !CoolingDown(begun, a.now))
    ensures Attempted(a, begun).2.None? ==> Attempted(a, begun).0 == a.node
    ensures Attempted(a, begun).2.Some? ==> (Attempted(a, begun).2.value.DR? <==> Usable(a.node))
  {
  }
}
