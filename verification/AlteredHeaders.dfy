/**
 Headers are not authenticated: what a genuine payload does when it arrives under another header, by
 accident or otherwise.
 */
module AlteredHeaders {
  import opened Prelude
  import opened SymbolicCrypto
  import opened Ratchet
  import opened SessionStore
  import opened TwoParty
  import opened SessionRuns

  function Max(a: int, b: int): int {
    if a >= b then a else b
  }

  /** A chain grown from a root key never meets one grown from a chain key. */
  lemma {:induction false} RootsApart(r: Key, i: nat, c: Key, j: nat)
    ensures Advance(RootHalf(r), i) != Advance(ChainHalf(c), j)
  {
    if i > 0 && j > 0 {
      RootsApart(r, i - 1, c, j - 1);
    }
  }

  /** The header names the current epoch: the payload opens only as the message that comes up there. */
  predicate OpensHere(mine: Session, g: Packet, pkt: Packet) {
    pkt.pub == mine.remotePub && g.pub == mine.remotePub && g.n == Max(mine.m, pkt.n)
  }

  /** The header names another epoch: the payload opens only if that epoch is its own, the peer's newest. */
  predicate OpensNext(mine: Session, g: Packet, pkt: Packet, newest: KeyId) {
    pkt.pub != mine.remotePub && pkt.pub == g.pub == newest && pkt.n == g.n
  }

  // ---------------------------------------------------------------- one party

  /** Under a header of the current epoch. */
  lemma AlteredHere(h: History, net: seq<Sent>, nextKey: KeyId, spent: set<nat>, node: Node, p: nat, i: nat,
                    pkt: Packet, newKey: KeyId)
    requires HistoryOK(h, net, nextKey) && PartyOK(h, spent, node, p)
    requires 1 <= i < |net| && Incoming(h, p, h.chain[i]) && PacketOK(h, net, nextKey, i)
    requires pkt.box == net[i].env.packet.box && pkt.pub == node.session.value.remotePub
    ensures ReceiveByRatchet(node, pkt, newKey).1 ==
            if OpensHere(node.session.value, net[i].env.packet, pkt) then Some(net[i].text) else None
  {
    var s, g, c := node.session.value, net[i].env.packet, h.chain[i];
    var loaded := s.(recv := OrRoot(s.recv, s.root));
    var k := Max(s.m, pkt.n);
    var ready := SkipTo(loaded, pkt.n);
    assert BeforeOpen(loaded, pkt, newKey).0 == ready;
    assert h.keys[c] == h.keys[p - 1] ==> c == p - 1;
    if p == 1 {
      assert ready.recv == Advance(s.root, k - s.m);
      RootsApart(s.root.secret, k - s.m, DeriveSharedSecret(h.keys[c], h.keys[c - 1]), g.n);
    } else {
      ChainNotEmpty(Chain(h, p - 1), s.m);
      AdvanceTwice(Chain(h, p - 1), s.m, k - s.m);
      assert ready.recv == Advance(Chain(h, p - 1), k);
      if MessageKey(ready.recv) == g.box.key {
        MessageKeysDiffer(h, p - 1, k, c, g.n);
      }
    }
  }

  /** Under a header of any other epoch. */
  lemma AlteredThere(h: History, net: seq<Sent>, nextKey: KeyId, spent: set<nat>, node: Node, p: nat, i: nat,
                     pkt: Packet, newKey: KeyId)
    requires HistoryOK(h, net, nextKey) && PartyOK(h, spent, node, p) && |h.keys| <= p + 2
    requires 1 <= i < |net| && Incoming(h, p, h.chain[i]) && PacketOK(h, net, nextKey, i)
    requires pkt.box == net[i].env.packet.box && pkt.pub != node.session.value.remotePub
    ensures ReceiveByRatchet(node, pkt, newKey).1 ==
            if h.chain[i] == p + 1 && pkt.pub == net[i].env.packet.pub && pkt.n == net[i].env.packet.n
            then Some(net[i].text) else None
  {
    var s, g, c := node.session.value, net[i].env.packet, h.chain[i];
    var loaded := s.(recv := OrRoot(s.recv, s.root));
    var ready := BeforeOpen(loaded, pkt, newKey).0;
    assert ready.recv == Advance(ChainOf(h.keys[p], pkt.pub), pkt.n);
    if MessageKey(ready.recv) == g.box.key {
      AdvanceInjective(DeriveSharedSecret(h.keys[p], pkt.pub), pkt.n,
                       DeriveSharedSecret(h.keys[c], h.keys[c - 1]), g.n);
      assert h.keys[p] == h.keys[c] || h.keys[p] == h.keys[c - 1];
    }
  }

  /** The two cases together; `newest` is the peer's newest key as far as message `i` is concerned. */
  lemma AlteredParty(h: History, net: seq<Sent>, nextKey: KeyId, spent: set<nat>, node: Node, p: nat, i: nat,
                     pkt: Packet, newest: KeyId, newKey: KeyId)
    requires HistoryOK(h, net, nextKey) && PartyOK(h, spent, node, p) && |h.keys| <= p + 2
    requires 1 <= i < |net| && Incoming(h, p, h.chain[i]) && PacketOK(h, net, nextKey, i)
    requires pkt.box == net[i].env.packet.box
    requires var g := net[i].env.packet;
             h.chain[i] == p + 1 <==> g.pub == newest && g.pub != node.session.value.remotePub
    ensures var mine, g := node.session.value, net[i].env.packet;
            ReceiveByRatchet(node, pkt, newKey).1 ==
            if OpensHere(mine, g, pkt) || OpensNext(mine, g, pkt, newest) then Some(net[i].text) else None
  {
    if pkt.pub == node.session.value.remotePub {
      AlteredHere(h, net, nextKey, spent, node, p, i, pkt, newKey);
    } else {
      AlteredThere(h, net, nextKey, spent, node, p, i, pkt, newKey);
    }
  }

  lemma TableDoesNotMatter(node: Node, rest: SkippedTable, pkt: Packet, newKey: KeyId)
    ensures ReceiveByRatchet(node.(skipped := rest), pkt, newKey).1 == ReceiveByRatchet(node, pkt, newKey).1
  {
  }

  /** In the current epoch the altered packet does to the session and the table what the genuine one does. */
  lemma SameAsGenuine(node: Node, g: Packet, pkt: Packet, newKey: KeyId)
    requires node.session.Some? && pkt.box == g.box && OpensHere(node.session.value, g, pkt)
    ensures ReceiveByRatchet(node, pkt, newKey) == ReceiveByRatchet(node, g, newKey)
  {
  }

  /** In the next epoch only the claimed length of the old one can differ, and it decides what is filed. */
  lemma FiledAsClaimed(node: Node, g: Packet, pkt: Packet, newKey: KeyId)
    requires Usable(node) && pkt.box == g.box && pkt.pub != node.session.value.remotePub
    requires (pkt.pub, pkt.n) == (g.pub, g.n) && ReceiveByRatchet(node, pkt, newKey).1.Some?
    ensures var s := node.session.value;
            var (genuine, altered) := (ReceiveByRatchet(node, g, newKey).0, ReceiveByRatchet(node, pkt, newKey).0);
            && altered.session == genuine.session
            && altered.skipped == FileSkipped(node.skipped,
                 SkippedRange(s.remotePub, OrRoot(s.recv, s.root), s.m, pkt.pn)
                 + SkippedRange(g.pub, ChainOf(s.localPriv, g.pub), 0, g.n))
  {
  }

  // ---------------------------------------------------------------- every run

  /** The addressee's newest or next epoch, seen from its position in the history. */
  lemma NextIsNewest(w: World, h: History, a: nat, b: nat, to: Side, p: nat, i: nat)
    requires Inv(w, h, a, b) && b > 0 && p == (if to == Alice then a else b)
    requires 1 <= i < |w.net| && PacketOK(h, w.net, w.nextKey, i) && w.net[i].from == to.Other()
    requires w.At(to).session.Some?
    ensures Incoming(h, p, h.chain[i]) && |h.keys| <= p + 2 && w.KeysOf(to.Other()) != []
    ensures var newest, g := w.KeysOf(to.Other())[|w.KeysOf(to.Other())| - 1], w.net[i].env.packet;
            h.chain[i] == p + 1 <==> g.pub == newest && g.pub != w.At(to).session.value.remotePub
  {
    var q := if to == Alice then b else a;
    LastHeld(w, h, a, b, to.Other(), q);
    var c := h.chain[i];
    assert h.keys[c] == h.keys[q] ==> c == q;
    assert h.keys[c] == h.keys[p - 1] ==> c == p - 1;
  }

  /** The ratchet path, whatever else the table holds. */
  lemma AlteredIn(w: World, h: History, a: nat, b: nat, i: nat, pkt: Packet, rest: SkippedTable, newKey: KeyId)
    requires Inv(w, h, a, b) && b > 0 && 1 <= i < |w.net|
    requires w.net[i].env.DR? && pkt.box == w.net[i].env.packet.box
    ensures var to := w.net[i].from.Other();
            && w.At(to).session.Some? && w.KeysOf(to.Other()) != []
            && var mine, g := w.At(to).session.value, w.net[i].env.packet;
               var newest := w.KeysOf(to.Other())[|w.KeysOf(to.Other())| - 1];
               ReceiveByRatchet(w.At(to).(skipped := rest), pkt, newKey).1 ==
               if OpensHere(mine, g, pkt) || OpensNext(mine, g, pkt, newest) then Some(w.net[i].text) else None
  {
    var to := w.net[i].from.Other();
    assert PacketOK(h, w.net, w.nextKey, i);
    var p, q := PositionOf(w, h, a, b, to);
    NextIsNewest(w, h, a, b, to, p, i);
    var newest := w.KeysOf(to.Other())[|w.KeysOf(to.Other())| - 1];
    AlteredParty(h, w.net, w.nextKey, w.spent, w.At(to), p, i, pkt, newest, newKey);
    TableDoesNotMatter(w.At(to), rest, pkt, newKey);
  }

  /** The row of another message does not open this one. */
  lemma RowOpensItsOwn(w: World, h: History, a: nat, b: nat, i: nat, row: (KeyId, u32))
    requires Inv(w, h, a, b) && b > 0 && 1 <= i < |w.net| && w.net[i].env.DR?
    requires row in w.At(w.net[i].from.Other()).skipped
    ensures w.At(w.net[i].from.Other()).skipped[row] == w.net[i].env.packet.box.key
            <==> row == (w.net[i].env.packet.pub, w.net[i].env.packet.n)
  {
    var to := w.net[i].from.Other();
    var j := RowIsUnspent(w, h, a, b, to, row);
    SkippedExactIn(w, h, a, b, j);
    if j < i {
      KeysDifferIn(w, h, a, b, j, i);
      HeadersDiffer(w, h, a, b, i, j);
    } else if i < j {
      KeysDifferIn(w, h, a, b, i, j);
      HeadersDiffer(w, h, a, b, i, j);
    }
  }

  lemma HeadersDiffer(w: World, h: History, a: nat, b: nat, i: nat, j: nat)
    requires Inv(w, h, a, b) && 1 <= i < |w.net| && 1 <= j < |w.net| && i != j
    requires w.net[i].env.DR? && w.net[j].env.DR?
    ensures (w.net[i].env.packet.pub, w.net[i].env.packet.n) != (w.net[j].env.packet.pub, w.net[j].env.packet.n)
  {
    if (w.net[i].env.packet.pub, w.net[i].env.packet.n) == (w.net[j].env.packet.pub, w.net[j].env.packet.n) {
      HeaderIsUnique(h, w.net, w.nextKey, i, j);
    }
  }

  /** What the addressee makes of the payload of message `i` under the header of `pkt`. */
  ghost predicate AlteredEffect(node: Node, g: Packet, text: string, pkt: Packet, newest: KeyId, newKey: KeyId)
    requires node.session.Some?
  {
    var row, mine := (pkt.pub, pkt.n), node.session.value;
    var rest := node.(skipped := node.skipped - {row});
    var (node', plain) := ReceiveDR(node, pkt, newKey);
    if row in node.skipped && row == (g.pub, g.n) then
      plain == Some(text) && node' == rest
    else if OpensHere(mine, g, pkt) then
      plain == Some(text) && node' == ReceiveByRatchet(rest, g, newKey).0
    else if OpensNext(mine, g, pkt, newest) then
      && plain == Some(text)
      && node'.session == ReceiveByRatchet(rest, g, newKey).0.session
      && node'.skipped == FileSkipped(rest.skipped,
           SkippedRange(mine.remotePub, OrRoot(mine.recv, mine.root), mine.m, pkt.pn)
           + SkippedRange(g.pub, ChainOf(mine.localPriv, g.pub), 0, g.n))
    else
      plain == None && node' == rest
  }

  /** From what the row and the ratchet open to the whole effect. */
  lemma EffectFollows(node: Node, g: Packet, text: string, pkt: Packet, newest: KeyId, newKey: KeyId)
    requires Usable(node) && pkt.box == g.box == Sealed(g.box.key, text)
    requires var row := (pkt.pub, pkt.n);
             row in node.skipped ==> (node.skipped[row] == g.box.key <==> row == (g.pub, g.n))
    requires ReceiveByRatchet(node.(skipped := node.skipped - {(pkt.pub, pkt.n)}), pkt, newKey).1 ==
             if OpensHere(node.session.value, g, pkt) || OpensNext(node.session.value, g, pkt, newest)
             then Some(text) else None
    ensures AlteredEffect(node, g, text, pkt, newest, newKey)
  {
    var rest := node.(skipped := node.skipped - {(pkt.pub, pkt.n)});
    if (pkt.pub, pkt.n) !in node.skipped {
      assert rest == node;
    }
    if OpensHere(node.session.value, g, pkt) {
      SameAsGenuine(rest, g, pkt, newKey);
    } else if ReceiveByRatchet(rest, pkt, newKey).1.Some? {
      FiledAsClaimed(rest, g, pkt, newKey);
    }
  }

  lemma UsableAndSealed(w: World, h: History, a: nat, b: nat, i: nat)
    requires Inv(w, h, a, b) && b > 0 && 1 <= i < |w.net| && w.net[i].env.DR?
    ensures Usable(w.At(w.net[i].from.Other()))
    ensures w.net[i].env.packet.box == Sealed(w.net[i].env.packet.box.key, w.net[i].text)
  {
    assert PacketOK(h, w.net, w.nextKey, i);
  }

  lemma AlteredPremises(w: World, h: History, a: nat, b: nat, i: nat, pkt: Packet, newKey: KeyId)
    requires Inv(w, h, a, b) && b > 0 && 1 <= i < |w.net|
    requires w.net[i].env.DR? && pkt.box == w.net[i].env.packet.box
    ensures var node, peerKeys := w.At(w.net[i].from.Other()), w.KeysOf(w.net[i].from);
            var g, row := w.net[i].env.packet, (pkt.pub, pkt.n);
            && Usable(node) && peerKeys != []
            && g.box == Sealed(g.box.key, w.net[i].text)
            && (row in node.skipped ==> (node.skipped[row] == g.box.key <==> row == (g.pub, g.n)))
            && ReceiveByRatchet(node.(skipped := node.skipped - {row}), pkt, newKey).1 ==
               if OpensHere(node.session.value, g, pkt)
                  || OpensNext(node.session.value, g, pkt, peerKeys[|peerKeys| - 1])
               then Some(w.net[i].text) else None
  {
    var node, row := w.At(w.net[i].from.Other()), (pkt.pub, pkt.n);
    UsableAndSealed(w, h, a, b, i);
    AlteredIn(w, h, a, b, i, pkt, node.skipped - {row}, newKey);
    if row in node.skipped {
      RowOpensItsOwn(w, h, a, b, i, row);
    }
  }

  lemma AlteredEffectIn(w: World, h: History, a: nat, b: nat, i: nat, pkt: Packet, newKey: KeyId)
    requires Inv(w, h, a, b) && b > 0 && 1 <= i < |w.net|
    requires w.net[i].env.DR? && pkt.box == w.net[i].env.packet.box
    ensures var to := w.net[i].from.Other();
            && w.At(to).session.Some? && w.KeysOf(to.Other()) != []
            && AlteredEffect(w.At(to), w.net[i].env.packet, w.net[i].text, pkt,
                             w.KeysOf(to.Other())[|w.KeysOf(to.Other())| - 1], newKey)
  {
    var to := w.net[i].from.Other();
    AlteredPremises(w, h, a, b, i, pkt, newKey);
    EffectFollows(w.At(to), w.net[i].env.packet, w.net[i].text, pkt, w.KeysOf(to.Other())[|w.KeysOf(to.Other())| - 1],
                  newKey);
  }

  /**
   A genuine payload under any header, exactly, after any run.  It opens with the stored key of its
   own header; or as the message next in turn at or after the header's index in the current epoch,
   and then it does just what it would have done under its own header; or as the first message of the
   peer's newest epoch under its own key and index, and then the keys filed for the old epoch are those
   up to the number the header claims.  Otherwise it fails.  A stored key that the header names is
   used up in every case.
   */
  lemma {:induction false} AlteredHeaderExactly(setup: Setup, events: seq<Event>, i: nat, pkt: Packet)
    requires 1 <= i < |Run(setup, events).net| && HandedOver(setup, events, 0)
    requires !Wiped(setup, events, Run(setup, events).net[i].from.Other())
    requires Run(setup, events).net[i].env.DR? && pkt.box == Run(setup, events).net[i].env.packet.box
    ensures var w := Run(setup, events);
            var to := w.net[i].from.Other();
            && w.At(to).session.Some? && w.KeysOf(to.Other()) != []
            && AlteredEffect(w.At(to), w.net[i].env.packet, w.net[i].text, pkt,
                             w.KeysOf(to.Other())[|w.KeysOf(to.Other())| - 1], w.nextKey)
  {
    var w := Run(setup, events);
    var w0, h, a, b := RunInv(setup, events);
    SpentExactly(setup, events, 0);
    WipedExactly(setup, events, w.net[i].from.Other());
    AlteredShadow(w, w0, h, a, b, i, pkt, w.nextKey);
  }

  lemma AlteredShadow(w: World, w0: World, h: History, a: nat, b: nat, i: nat, pkt: Packet, newKey: KeyId)
    requires Shadow(w, w0, h, a, b) && 1 <= i < |w.net| && 0 in w.spent && w.net[i].from.Other() !in w.wiped
    requires w.net[i].env.DR? && pkt.box == w.net[i].env.packet.box
    ensures var to := w.net[i].from.Other();
            && w.At(to).session.Some? && w.KeysOf(to.Other()) != []
            && AlteredEffect(w.At(to), w.net[i].env.packet, w.net[i].text, pkt,
                             w.KeysOf(to.Other())[|w.KeysOf(to.Other())| - 1], newKey)
  {
    var to := w.net[i].from.Other();
    assert w.At(to) == w0.At(to) && w.KeysOf(to.Other()) == w0.KeysOf(to.Other());
    AlteredEffectIn(w0, h, a, b, i, pkt, newKey);
  }
}
