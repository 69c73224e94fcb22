/** The counter of messages sent since the last one received on the ratchet. */
module SendCounter {
  import opened Prelude
  import opened Ratchet
  import opened SessionStore
  import opened TwoParty
  import opened SessionRuns

  /** The stored key of its header opens message `i`. */
  predicate ByStoredKey(w: World, i: nat)
    requires i < |w.net|
  {
    var env, table := w.net[i].env, w.At(w.net[i].from.Other()).skipped;
    env.DR? && (env.packet.pub, env.packet.n) in table && table[(env.packet.pub, env.packet.n)] == env.packet.box.key
  }

  /** How many messages `x` has sent since it began or last decrypted one, stored keys apart. */
  function SentSince(setup: Setup, events: seq<Event>, x: Side): nat {
    if events == [] then 0
    else
      var w, n := Run(setup, events[..|events| - 1]), SentSince(setup, events[..|events| - 1], x);
      match events[|events| - 1]
      case Send(from, _) => if from == x && CanSend(w.At(x)) then n + 1 else n
      case Deliver(i) =>
        if i < |w.net| && w.net[i].from == x.Other() && Reception(w, i).2.Some? && !ByStoredKey(w, i) then 0 else n
      case Inject(_, _) => n
      case Stock(_) => n
  }

  /** What a delivery does to the counter of its addressee. */
  lemma DeliveryResets(w: World, i: nat)
    requires i < |w.net|
    ensures var s, s' := w.At(w.net[i].from.Other()).session, Reception(w, i).0.session;
            if Reception(w, i).2.Some? && !ByStoredKey(w, i) then s'.Some? && s'.value.outbound == 0
            else s' == s || s'.None?
  {
  }

  lemma SendingCounts(w: World, x: Side, text: string)
    requires CanSend(w.At(x))
    ensures var s, s' := w.At(x).session.value, Step(w, Send(x, text)).At(x).session;
            s'.Some? && s'.value.outbound == if s.outbound < 5 then s.outbound + 1 else s.outbound
  {
  }

  /** After any run the stored counter is that number, as far as five. */
  lemma {:induction false} OutboundExactly(setup: Setup, events: seq<Event>, x: Side)
    requires Run(setup, events).At(x).session.Some?
    ensures var n := SentSince(setup, events, x);
            Run(setup, events).At(x).session.value.outbound == if n < 5 then n else 5
  {
    if events != [] {
      var init, e := events[..|events| - 1], events[|events| - 1];
      var w := Run(setup, init);
      if w.At(x).session.Some? {
        OutboundExactly(setup, init, x);
      }
      match e {
        case Send(from, text) =>
          if from == x && CanSend(w.At(x)) {
            SendingCounts(w, x, text);
          }
        case Deliver(i) =>
          if i < |w.net| {
            DeliveryResets(w, i);
          }
        case Inject(to, env) =>
          if Foreign(env) {
            InjectionExactly(setup, init, to, env);
            assert events == init + [e];
          }
        case Stock(_) =>
      }
    }
  }
}
