/**
 What becomes of an envelope: the record of its outcome, what a line of a relay's answer queues, and
 what a whole fetch dispatches.
 */
module DeliveryAnswers {
  import opened Prelude
  import opened Text
  import opened Delivery
  import opened DeliveryRuns

  ghost predicate CollisionFree(env: Env) {
    forall a, b :: env.sha(a) == env.sha(b) ==> a == b
  }

  /** Done in memory and in storage. */
  predicate RecordedDone(m: Inbox, h: string) {
    h in m.mem && m.mem[h] == Done && h in m.db
  }

  predicate Unrecorded(m: Inbox, h: string) {
    h !in m.mem && h !in m.db
  }

  predicate SameRecord(m: Inbox, m': Inbox, h: string) {
    && (h in m'.mem <==> h in m.mem) && (h in m.mem && h in m'.mem ==> m'.mem[h] == m.mem[h])
    && (h in m'.db <==> h in m.db)
  }

  // ---------------------------------------------------------------- one envelope

  /**
   After any run an envelope that is processed is among the dispatched ones if it was before or if this
   attempt succeeds; and if and only if it is now among them, its text is remembered and the hash it came
   under is done in memory and in storage, while otherwise that hash is in neither.
   */
  lemma OutcomeRecorded(env: Env, events: seq<Event>, sender: string, envelope: string, msgHash: string)
    requires CollisionFree(env)
    ensures var m := Run(env, events).inbox;
            var text, m' := Unwrapped(env, envelope), Processed(env, m, sender, envelope, msgHash);
            var done := text in m'.dispatched;
            && (done <==> text in m.dispatched || env.accepts(sender, text, m.attempts))
            && (env.sha(text) in m'.envs <==> done)
            && (msgHash != "" ==> if done then RecordedDone(m', msgHash) else Unrecorded(m', msgHash))
            && (forall h :: h != msgHash || h == "" ==> SameRecord(m, m', h))
  {
    RunInv(env, events);
    RecordedExactly(env, Run(env, events).inbox, sender, envelope, msgHash);
  }

  lemma KnownExactly(env: Env, m: Inbox, text: string)
    requires CollisionFree(env) && EnvelopesExact(env, m)
    ensures env.sha(text) in m.envs <==> text in m.dispatched
  {
  }

  lemma RecordedExactly(env: Env, m: Inbox, sender: string, envelope: string, msgHash: string)
    requires CollisionFree(env) && EnvelopesExact(env, m)
    ensures var text, m' := Unwrapped(env, envelope), Processed(env, m, sender, envelope, msgHash);
            var done := text in m'.dispatched;
            && (done <==> text in m.dispatched || env.accepts(sender, text, m.attempts))
            && (env.sha(text) in m'.envs <==> done)
            && (msgHash != "" ==> if done then RecordedDone(m', msgHash) else Unrecorded(m', msgHash))
            && (forall h :: h != msgHash || h == "" ==> SameRecord(m, m', h))
  {
    var text := Unwrapped(env, envelope);
    KnownExactly(env, m, text);
    assert text in m.dispatched + [text];
  }

  /**
   A mailbox wrapper counts for nothing: wrapped or bare, an envelope is dispatched if and only if it has
   not been before, either way, and this attempt succeeds.
   */
  lemma WrappedOrBare(env: Env, events: seq<Event>, sender: string, wrapper: string, bare: string, msgHash: string)
    requires CollisionFree(env) && bare != "" && !HasPrefix(bare, "{")
    requires HasPrefix(wrapper, "{") && env.signedPayload(wrapper) == Some(bare)
    ensures var m := Run(env, events).inbox;
            && Processed(env, m, sender, wrapper, msgHash) == Processed(env, m, sender, bare, msgHash)
            && Processed(env, m, sender, bare, msgHash).dispatched
               == if bare !in m.dispatched && env.accepts(sender, bare, m.attempts) then m.dispatched + [bare]
                  else m.dispatched
  {
    DispatchedUnlessBefore(env, events, sender, bare, msgHash);
  }

  // ---------------------------------------------------------------- runs

  /** What the event processes, if anything. */
  function Handled(w: World, e: Event): Option<Fetched> {
    match e
    case Direct(sender, envelope) => Some(Fetched(sender, envelope, ""))
    case Retry(sender, envelope, msgHash) => Some(Fetched(sender, envelope, msgHash))
    case Handle(relay) =>
      if relay in w.fetches && w.fetches[relay].Handling? && w.fetches[relay].list != []
      then Some(w.fetches[relay].list[0]) else None
    case _ => None
  }

  /** Whether the last envelope processed under this hash was dispatched, then or before; `None` if there was none. */
  function LastOutcome(env: Env, events: seq<Event>, h: string): Option<bool> {
    if events == [] then None
    else
      var w, e := Run(env, events[..|events| - 1]), events[|events| - 1];
      match Handled(w, e)
      case Some(f) =>
        if f.msgHash == h then Some(Unwrapped(env, f.payload) in Step(env, w, e).inbox.dispatched)
        else LastOutcome(env, events[..|events| - 1], h)
      case None => LastOutcome(env, events[..|events| - 1], h)
  }

  /**
   Over whole runs, restarts included: storage has a hash if and only if the last envelope processed
   under it was dispatched.
   */
  lemma {:induction false} StorageRemembersExactly(env: Env, events: seq<Event>, h: string)
    requires CollisionFree(env) && h != ""
    ensures h in Run(env, events).inbox.db <==> LastOutcome(env, events, h) == Some(true)
  {
    if events != [] {
      var init, e := events[..|events| - 1], events[|events| - 1];
      var w := Run(env, init);
      StorageRemembersExactly(env, init, h);
      match Handled(w, e) {
        case Some(f) => OutcomeRecorded(env, init, f.sender, f.payload, f.msgHash);
        case None => OthersLeaveStorage(env, w, e);
      }
    }
  }

  lemma OthersLeaveStorage(env: Env, w: World, e: Event)
    requires Handled(w, e).None?
    ensures Step(env, w, e).inbox.db == w.inbox.db
  {
    if e.Line? && e.relay in w.fetches {
      TakenCases(env, w.inbox, w.fetches[e.relay].list, e.line);
    }
  }

  // ---------------------------------------------------------------- lines

  predicate Readable(env: Env, senderKey: string, payload: string) {
    env.senderOf(senderKey) != "" && env.decodeB64(payload).Some?
  }

  /**
   What the line of a message does: under an unknown hash, if sender and payload can be read, it queues just
   that payload from that sender under that hash and marks the hash; under a hash that storage has and
   memory not yet, it marks it done and shows the stored message again if it is one to show; nothing else.
   */
  lemma GoodLineExactly(env: Env, m: Inbox, list: seq<Fetched>, msgHash: string, senderKey: string, payload: string)
    requires ' ' !in msgHash && ' ' !in senderKey && ' ' !in payload
    ensures var (m', list') := Taken(env, m, list, MessageLine(msgHash, senderKey, payload));
            if Unrecorded(m, msgHash) && Readable(env, senderKey, payload) then
              && list' == list + [Fetched(env.senderOf(senderKey), env.decodeB64(payload).value, msgHash)]
              && m' == m.(mem := m.mem[msgHash := Processing])
            else if msgHash in m.db && !RecordedDone(m, msgHash) then
              && list' == list
              && m' == m.(mem := m.mem[msgHash := Done],
                          shown := m.shown + if env.showable(msgHash) then [msgHash] else [])
            else (m', list') == (m, list)
  {
    MessageLineSplits(msgHash, senderKey, payload);
    assert m.shown + [] == m.shown;
  }

  /** A line that does not begin with MSG and a blank, or has fewer than three blanks, does nothing. */
  lemma OtherLineIgnored(env: Env, m: Inbox, list: seq<Fetched>, line: string)
    requires !HasPrefix(line, "MSG ") || Count(line, ' ') < 3
    ensures Taken(env, m, list, line) == (m, list)
  {
    SplitCount(line, ' ');
    var i := IndexOf(line, ' ');
    assert i < |line| ==> line[..i] + [' '] <= line;
    assert "MSG" + [' '] == "MSG ";
  }

  /** What comes after DONE or an error is not read. */
  lemma {:induction false} NothingAfterTheEnd(env: Env, m: Inbox, list: seq<Fetched>, lines: seq<string>, end: string,
                                              rest: seq<string>)
    requires end == "DONE" || HasPrefix(end, "ERROR")
    ensures ReadLines(env, m, list, lines + [end] + rest) == ReadLines(env, m, list, lines)
    decreases |lines|
  {
    var all := lines + [end] + rest;
    if lines == [] {
      assert all[0] == end;
    } else if !Terminator(lines[0]) {
      var (m', list') := Taken(env, m, list, lines[0]);
      assert all[0] == lines[0] && all[1..] == lines[1..] + [end] + rest;
      NothingAfterTheEnd(env, m', list', lines[1..], end, rest);
    }
  }

  /**
   A hash under which nothing was dispatched last, and which no open fetch holds, is taken again by the next
   good line that carries it, with the sender and payload of that line.
   */
  lemma FailedIsTakenAgain(env: Env, events: seq<Event>, relay: Relay, msgHash: string, senderKey: string,
                           payload: string)
    requires CollisionFree(env) && msgHash != "" && LastOutcome(env, events, msgHash) != Some(true)
    requires var w := Run(env, events);
             !Pending(w.fetches, msgHash) && relay in w.fetches && w.fetches[relay].Reading?
    requires ' ' !in msgHash && ' ' !in senderKey && ' ' !in payload && Readable(env, senderKey, payload)
    ensures var w := Run(env, events);
            var w' := Step(env, w, Line(relay, MessageLine(msgHash, senderKey, payload)));
            w'.fetches == w.fetches[relay := Reading(w.fetches[relay].list
                            + [Fetched(env.senderOf(senderKey), env.decodeB64(payload).value, msgHash)])]
  {
    StorageRemembersExactly(env, events, msgHash);
    RunInv(env, events);
    var w := Run(env, events);
    assert Unrecorded(w.inbox, msgHash);
    MessageLineSplits(msgHash, senderKey, payload);
    GoodLineExactly(env, w.inbox, w.fetches[relay].list, msgHash, senderKey, payload);
  }
}
