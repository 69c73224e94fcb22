/**
 Runs of the receiving node: direct deliveries, background retries, restarts and any number of
 relay fetches, interleaved line by line and envelope by envelope.
 */
module DeliveryRuns {
  import opened Prelude
  import opened Text
  import opened Delivery

  type Relay = string

  /** A fetch first reads the relay's answer, then handles what it read. */
  datatype Fetch = Reading(list: seq<Fetched>) | Handling(list: seq<Fetched>)

  /** `taken` records the hashes marked "processing" and queued for handling since the last restart. */
  datatype World = World(inbox: Inbox, fetches: map<Relay, Fetch>, taken: set<string>)

  datatype Event =
    | Open(relay: Relay)
    | Line(relay: Relay, line: string)
    | Broken(relay: Relay)
    | Handle(relay: Relay)
    | Direct(sender: string, envelope: string)
    | Retry(sender: string, envelope: string, msgHash: string)
    | Restart

  function HashesOf(list: seq<Fetched>): set<string> {
    set f | f in list :: f.msgHash
  }

  function Step(env: Env, w: World, e: Event): World {
    match e
    case Open(relay) =>
      if relay in w.fetches then w else w.(fetches := w.fetches[relay := Reading([])])
    case Line(relay, line) =>
      if relay !in w.fetches || w.fetches[relay].Handling? then w
      else
        var list := w.fetches[relay].list;
        if Terminator(line) then w.(fetches := w.fetches[relay := Handling(HandshakesFirst(list))])
        else
          var (m, list') := Taken(env, w.inbox, list, line);
          World(m, w.fetches[relay := Reading(list')], w.taken + HashesOf(list'[|list|..]))
    case Broken(relay) =>
      if relay !in w.fetches || w.fetches[relay].Handling? then w
      else w.(fetches := w.fetches[relay := Handling(HandshakesFirst(w.fetches[relay].list))])
    case Handle(relay) =>
      if relay !in w.fetches || w.fetches[relay].Reading? then w
      else
        var list := w.fetches[relay].list;
        if list == [] then w.(fetches := w.fetches - {relay})
        else w.(inbox := Processed(env, w.inbox, list[0].sender, list[0].payload, list[0].msgHash),
                fetches := w.fetches[relay := Handling(list[1..])])
    case Direct(sender, envelope) => w.(inbox := Processed(env, w.inbox, sender, envelope, ""))
    case Retry(sender, envelope, msgHash) => w.(inbox := Processed(env, w.inbox, sender, envelope, msgHash))
    case Restart => World(w.inbox.(mem := map[], shown := []), map[], {})
  }

  function Run(env: Env, events: seq<Event>): World {
    if events == [] then World(EMPTY, map[], {})
    else Step(env, Run(env, events[..|events| - 1]), events[|events| - 1])
  }

  // ---------------------------------------------------------------- the invariant

  ghost predicate Listed(list: seq<Fetched>, h: string) {
    exists f :: f in list && f.msgHash == h
  }

  ghost predicate Pending(fetches: map<Relay, Fetch>, h: string) {
    exists relay :: relay in fetches && Listed(fetches[relay].list, h)
  }

  /** Recorded as done in memory and storage, or absent from both. */
  predicate Settled(m: Inbox, h: string) {
    if h in m.mem then m.mem[h] == Done && h in m.db else h !in m.db
  }

  predicate InFlight(m: Inbox, h: string) {
    h in m.mem && m.mem[h] == Processing && h !in m.db
  }

  /** The envelope table lists exactly the hashes of what was dispatched, each once. */
  ghost predicate EnvelopesExact(env: Env, m: Inbox) {
    && (forall t :: t in m.dispatched ==> env.sha(t) in m.envs)
    && (forall x :: x in m.envs ==> exists t :: t in m.dispatched && env.sha(t) == x)
    && (forall i, j :: 0 <= i < j < |m.dispatched| ==> env.sha(m.dispatched[i]) != env.sha(m.dispatched[j]))
  }

  ghost predicate MarksExact(w: World) {
    && "" !in w.inbox.db
    && (forall h :: h in w.inbox.mem && w.inbox.mem[h] == Done ==> h in w.inbox.db)
    && (forall h :: h in w.inbox.mem && w.inbox.mem[h] == Processing ==> h in w.taken)
    && (forall h :: h in w.taken && h != "" ==>
          Settled(w.inbox, h) || (InFlight(w.inbox, h) && Pending(w.fetches, h)))
    && ("" in w.taken ==> InFlight(w.inbox, ""))
  }

  /** What was shown again is cached for as long as storage has it, and so not shown once more. */
  ghost predicate ShownExact(m: Inbox) {
    && Distinct(m.shown)
    && (forall h :: h in m.shown && h in m.db ==> h in m.mem && m.mem[h] == Done)
  }

  ghost predicate Inv(env: Env, w: World) {
    EnvelopesExact(env, w.inbox) && MarksExact(w) && ShownExact(w.inbox)
  }

  // ---------------------------------------------------------------- the sort

  lemma {:induction false} OnlyHandshakesContents(list: seq<Fetched>, wanted: bool)
    ensures forall f :: f in OnlyHandshakes(list, wanted) <==> f in list && HasPrefix(f.payload, "X3DH:") == wanted
    ensures multiset(list) == multiset(OnlyHandshakes(list, wanted)) + multiset(OnlyHandshakes(list, !wanted))
  {
    if list != [] {
      OnlyHandshakesContents(list[..|list| - 1], wanted);
      assert list == list[..|list| - 1] + [list[|list| - 1]];
    }
  }

  lemma {:induction false} OnlyOfOnly(list: seq<Fetched>, all: seq<Fetched>, wanted: bool, other: bool)
    requires all == OnlyHandshakes(list, wanted)
    ensures OnlyHandshakes(all, other) == if other == wanted then all else []
  {
    if list != [] {
      var init, last := list[..|list| - 1], list[|list| - 1];
      OnlyOfOnly(init, OnlyHandshakes(init, wanted), wanted, other);
      if HasPrefix(last.payload, "X3DH:") == wanted {
        assert all[..|all| - 1] == OnlyHandshakes(init, wanted);
      }
    }
  }

  lemma {:induction false} OnlyOfConcat(a: seq<Fetched>, b: seq<Fetched>, wanted: bool)
    ensures OnlyHandshakes(a + b, wanted) == OnlyHandshakes(a, wanted) + OnlyHandshakes(b, wanted)
  {
    if b == [] {
      assert a + b == a;
    } else {
      OnlyOfConcat(a, b[..|b| - 1], wanted);
      assert (a + b)[..|a + b| - 1] == a + b[..|b| - 1];
    }
  }

  /** The sort is a permutation, puts handshakes first, and keeps the order inside each kind. */
  lemma HandshakesFirstIsStableSort(list: seq<Fetched>, wanted: bool)
    ensures multiset(HandshakesFirst(list)) == multiset(list)
    ensures OnlyHandshakes(HandshakesFirst(list), wanted) == OnlyHandshakes(list, wanted)
    ensures var sorted, k := HandshakesFirst(list), |OnlyHandshakes(list, true)|;
            forall i :: 0 <= i < |sorted| ==> (i < k <==> HasPrefix(sorted[i].payload, "X3DH:"))
  {
    var first, second := OnlyHandshakes(list, true), OnlyHandshakes(list, false);
    OnlyHandshakesContents(list, true);
    OnlyHandshakesContents(list, false);
    OnlyOfConcat(first, second, wanted);
    OnlyOfOnly(list, first, true, wanted);
    OnlyOfOnly(list, second, false, wanted);
    forall i | 0 <= i < |first + second|
      ensures i < |first| <==> HasPrefix((first + second)[i].payload, "X3DH:")
    {
      if i < |first| {
        assert first[i] in first;
      } else {
        assert second[i - |first|] in second;
      }
    }
  }

  lemma SortKeepsListed(list: seq<Fetched>, h: string)
    ensures Listed(HandshakesFirst(list), h) <==> Listed(list, h)
  {
    OnlyHandshakesContents(list, true);
    OnlyHandshakesContents(list, false);
  }

  // ---------------------------------------------------------------- every step keeps the invariant

  lemma ProcessedKeepsEnvelopes(env: Env, m: Inbox, sender: string, envelope: string, msgHash: string)
    requires EnvelopesExact(env, m)
    ensures EnvelopesExact(env, Processed(env, m, sender, envelope, msgHash))
  {
    var m' := Processed(env, m, sender, envelope, msgHash);
    var text := Unwrapped(env, envelope);
    if m'.dispatched != m.dispatched {
      assert m'.dispatched == m.dispatched + [text] && m'.envs == m.envs + {env.sha(text)};
      assert text in m'.dispatched;
      forall x | x in m'.envs
        ensures exists t :: t in m'.dispatched && env.sha(t) == x
      {
        if x != env.sha(text) {
          var t :| t in m.dispatched && env.sha(t) == x;
          assert t in m'.dispatched;
        }
      }
    } else {
      assert m'.envs == m.envs;
    }
  }

  lemma ProcessedMarks(env: Env, m: Inbox, sender: string, envelope: string, msgHash: string)
    ensures var m' := Processed(env, m, sender, envelope, msgHash);
            && (msgHash == "" ==> m'.mem == m.mem && m'.db == m.db)
            && (msgHash != "" ==> Settled(m', msgHash))
            && (forall h :: h != msgHash ==> (h in m'.mem <==> h in m.mem) && (h in m'.db <==> h in m.db))
            && (forall h :: h != msgHash && h in m.mem ==> m'.mem[h] == m.mem[h])
            && m'.shown == m.shown
  {
  }

  /** Replacing one fetch's list keeps what is pending, as long as the new list has it. */
  lemma PendingAfter(fetches: map<Relay, Fetch>, relay: Relay, f: Fetch, h: string)
    requires Pending(fetches, h)
    requires relay in fetches && Listed(fetches[relay].list, h) ==> Listed(f.list, h)
    ensures Pending(fetches[relay := f], h)
  {
    var r :| r in fetches && Listed(fetches[r].list, h);
    if r == relay {
      assert Listed(fetches[relay := f][relay].list, h);
    } else {
      assert Listed(fetches[relay := f][r].list, h);
    }
  }

  lemma ListedAppend(list: seq<Fetched>, f: Fetched, h: string)
    ensures Listed(list + [f], h) <==> Listed(list, h) || f.msgHash == h
  {
    if f.msgHash == h {
      assert f in list + [f];
    }
    if Listed(list, h) {
      var g :| g in list && g.msgHash == h;
      assert g in list + [f];
    }
  }

  lemma SortStepKeepsMarks(w: World, relay: Relay)
    requires MarksExact(w) && relay in w.fetches
    ensures MarksExact(w.(fetches := w.fetches[relay := Handling(HandshakesFirst(w.fetches[relay].list))]))
  {
    forall h | Pending(w.fetches, h)
      ensures Pending(w.fetches[relay := Handling(HandshakesFirst(w.fetches[relay].list))], h)
    {
      SortKeepsListed(w.fetches[relay].list, h);
      PendingAfter(w.fetches, relay, Handling(HandshakesFirst(w.fetches[relay].list)), h);
    }
  }

  ghost predicate NotedHere(env: Env, m: Inbox, h: string, m': Inbox) {
    h in m.db && !(h in m.mem && m.mem[h] == Done) && m' == Noted(env, m, h)
  }

  /** What a line can do: nothing, note a hash found in storage, or take a new envelope. */
  lemma TakenCases(env: Env, m: Inbox, list: seq<Fetched>, line: string)
    ensures var (m', list') := Taken(env, m, list, line);
            || (m', list') == (m, list)
            || (list' == list && exists h :: NotedHere(env, m, h, m'))
            || (list' != list && exists f: Fetched :: list' == list + [f] && f.msgHash !in m.mem && f.msgHash !in m.db
                                                  && m' == m.(mem := m.mem[f.msgHash := Processing]))
  {
    var parts := Split(line, ' ');
    if |parts| >= 4 && parts[0] == "MSG" && parts[1] in m.db && !(parts[1] in m.mem && m.mem[parts[1]] == Done) {
      assert NotedHere(env, m, parts[1], Taken(env, m, list, line).0);
    }
  }

  lemma NotingKeepsMarks(env: Env, w: World, h: string)
    requires MarksExact(w) && h in w.inbox.db
    ensures MarksExact(w.(inbox := Noted(env, w.inbox, h)))
  {
  }

  /** Whatever a line does, nothing is shown twice. */
  lemma LineKeepsShown(env: Env, m: Inbox, list: seq<Fetched>, line: string)
    requires ShownExact(m)
    ensures ShownExact(Taken(env, m, list, line).0)
  {
    TakenCases(env, m, list, line);
  }

  lemma TakingKeepsMarks(w: World, relay: Relay, f: Fetched)
    requires MarksExact(w) && relay in w.fetches && w.fetches[relay].Reading?
    requires f.msgHash !in w.inbox.mem && f.msgHash !in w.inbox.db
    ensures MarksExact(World(w.inbox.(mem := w.inbox.mem[f.msgHash := Processing]),
                             w.fetches[relay := Reading(w.fetches[relay].list + [f])], w.taken + {f.msgHash}))
  {
    var list := w.fetches[relay].list;
    var fetches := w.fetches[relay := Reading(list + [f])];
    ListedAppend(list, f, f.msgHash);
    assert Listed(fetches[relay].list, f.msgHash);
    forall h | Pending(w.fetches, h)
      ensures Pending(fetches, h)
    {
      ListedAppend(list, f, h);
      PendingAfter(w.fetches, relay, Reading(list + [f]), h);
    }
  }

  lemma LineStepKeepsMarks(env: Env, w: World, relay: Relay, line: string)
    requires MarksExact(w) && relay in w.fetches && w.fetches[relay].Reading? && !Terminator(line)
    ensures MarksExact(Step(env, w, Line(relay, line)))
  {
    var list := w.fetches[relay].list;
    var (m', list') := Taken(env, w.inbox, list, line);
    TakenCases(env, w.inbox, list, line);
    if list' == list {
      assert list'[|list|..] == [];
      assert w.fetches[relay := Reading(list)] == w.fetches && w.taken + HashesOf([]) == w.taken;
      if m' != w.inbox {
        var h :| NotedHere(env, w.inbox, h, m');
        NotingKeepsMarks(env, w, h);
      }
    } else {
      var f: Fetched :| list' == list + [f] && f.msgHash !in w.inbox.mem && f.msgHash !in w.inbox.db
                        && m' == w.inbox.(mem := w.inbox.mem[f.msgHash := Processing]);
      assert list'[|list|..] == [f] && f in [f];
      assert HashesOf([f]) == {f.msgHash};
      TakingKeepsMarks(w, relay, f);
    }
  }

  lemma HandleStepKeepsMarks(env: Env, w: World, relay: Relay)
    requires MarksExact(w) && relay in w.fetches && w.fetches[relay].Handling?
    ensures MarksExact(Step(env, w, Handle(relay)))
  {
    var list := w.fetches[relay].list;
    var w' := Step(env, w, Handle(relay));
    if list == [] {
      forall h | Pending(w.fetches, h)
        ensures Pending(w'.fetches, h)
      {
        var r :| r in w.fetches && Listed(w.fetches[r].list, h);
        assert Listed(w'.fetches[r].list, h);
      }
    } else {
      ProcessedMarks(env, w.inbox, list[0].sender, list[0].payload, list[0].msgHash);
      assert list == [list[0]] + list[1..];
      forall h | Pending(w.fetches, h) && h != list[0].msgHash
        ensures Pending(w'.fetches, h)
      {
        PendingAfter(w.fetches, relay, Handling(list[1..]), h);
      }
    }
  }

  lemma OpenStepKeepsMarks(w: World, relay: Relay)
    requires MarksExact(w) && relay !in w.fetches
    ensures MarksExact(w.(fetches := w.fetches[relay := Reading([])]))
  {
    forall h | Pending(w.fetches, h)
      ensures Pending(w.fetches[relay := Reading([])], h)
    {
      PendingAfter(w.fetches, relay, Reading([]), h);
    }
  }

  lemma RetryKeepsInv(env: Env, w: World, sender: string, envelope: string, msgHash: string)
    requires Inv(env, w)
    ensures Inv(env, w.(inbox := Processed(env, w.inbox, sender, envelope, msgHash)))
  {
    ProcessedKeepsEnvelopes(env, w.inbox, sender, envelope, msgHash);
    ProcessedMarks(env, w.inbox, sender, envelope, msgHash);
  }

  lemma StepKeepsInv(env: Env, w: World, e: Event)
    requires Inv(env, w)
    ensures Inv(env, Step(env, w, e))
  {
    match e {
      case Open(relay) =>
        if relay !in w.fetches {
          OpenStepKeepsMarks(w, relay);
        }
      case Line(relay, line) =>
        if relay in w.fetches && w.fetches[relay].Reading? {
          if Terminator(line) {
            SortStepKeepsMarks(w, relay);
          } else {
            LineStepKeepsMarks(env, w, relay, line);
            LineKeepsShown(env, w.inbox, w.fetches[relay].list, line);
          }
        }
      case Broken(relay) =>
        if relay in w.fetches && w.fetches[relay].Reading? {
          SortStepKeepsMarks(w, relay);
        }
      case Handle(relay) =>
        if relay in w.fetches && w.fetches[relay].Handling? {
          HandleStepKeepsMarks(env, w, relay);
          var list := w.fetches[relay].list;
          if list != [] {
            ProcessedKeepsEnvelopes(env, w.inbox, list[0].sender, list[0].payload, list[0].msgHash);
            ProcessedMarks(env, w.inbox, list[0].sender, list[0].payload, list[0].msgHash);
          }
        }
      case Direct(sender, envelope) =>
        RetryKeepsInv(env, w, sender, envelope, "");
      case Retry(sender, envelope, msgHash) =>
        RetryKeepsInv(env, w, sender, envelope, msgHash);
      case Restart =>
    }
  }

  lemma {:induction false} RunInv(env: Env, events: seq<Event>)
    ensures Inv(env, Run(env, events))
  {
    if events != [] {
      RunInv(env, events[..|events| - 1]);
      StepKeepsInv(env, Run(env, events[..|events| - 1]), events[|events| - 1]);
    }
  }

  // ---------------------------------------------------------------- main results

  /** However often and by whichever way an envelope text arrives, it is dispatched at most once. */
  lemma DispatchedAtMostOnce(env: Env, events: seq<Event>)
    ensures Distinct(Run(env, events).inbox.dispatched)
  {
    RunInv(env, events);
  }

  /**
   And nothing is passed over: with a collision-free hash, an arriving envelope is dispatched now
   exactly when its text has not been dispatched before and this attempt succeeds.
   */
  lemma DispatchedUnlessBefore(env: Env, events: seq<Event>, sender: string, envelope: string, msgHash: string)
    requires forall a, b :: env.sha(a) == env.sha(b) ==> a == b
    ensures var m := Run(env, events).inbox;
            var text := Unwrapped(env, envelope);
            Processed(env, m, sender, envelope, msgHash).dispatched
            == if text !in m.dispatched && env.accepts(sender, text, m.attempts) then m.dispatched + [text]
               else m.dispatched
  {
    RunInv(env, events);
  }

  /** Between restarts no stored message is shown again more than once. */
  lemma ShownAgainAtMostOnce(env: Env, events: seq<Event>)
    ensures Distinct(Run(env, events).inbox.shown)
  {
    RunInv(env, events);
  }

  /** A hash that a fetch marked is, once no open fetch holds it, done everywhere or recorded nowhere. */
  lemma MarkedHashesSettle(env: Env, events: seq<Event>, h: string)
    requires h in Run(env, events).taken && h != "" && !Pending(Run(env, events).fetches, h)
    ensures Settled(Run(env, events).inbox, h)
  {
    RunInv(env, events);
  }

  /** With no fetch open, a marked hash is settled exactly when it is not empty. */
  lemma SettledUnlessEmpty(env: Env, events: seq<Event>, h: string)
    requires h in Run(env, events).taken && Run(env, events).fetches == map[]
    ensures Settled(Run(env, events).inbox, h) <==> h != ""
  {
    RunInv(env, events);
  }

  /** A line that takes an envelope: three fields without blanks, of which payload and sender decode. */
  function MessageLine(msgHash: string, senderKey: string, payload: string): string {
    "MSG" + [' '] + (msgHash + [' '] + (senderKey + [' '] + payload))
  }

  lemma MessageLineSplits(msgHash: string, senderKey: string, payload: string)
    requires ' ' !in msgHash && ' ' !in senderKey && ' ' !in payload
    ensures Split(MessageLine(msgHash, senderKey, payload), ' ') == ["MSG", msgHash, senderKey, payload]
    ensures !Terminator(MessageLine(msgHash, senderKey, payload))
  {
    var last := senderKey + [' '] + payload;
    var rest := msgHash + [' '] + last;
    IndexAbsent(payload, ' ');
    SplitField(senderKey, ' ', payload);
    SplitField(msgHash, ' ', last);
    SplitField("MSG", ' ', rest);
    assert MessageLine(msgHash, senderKey, payload)[0] == 'M';
  }

  lemma TakenGrows(env: Env, w: World, e: Event)
    requires e != Restart
    ensures w.taken <= Step(env, w, e).taken
  {
  }

  /** A good line of an open answer takes its envelope unless the hash is known already. */
  lemma GoodLineTakes(env: Env, w: World, relay: Relay, msgHash: string, senderKey: string, payload: string)
    requires relay in w.fetches && w.fetches[relay].Reading?
    requires ' ' !in msgHash && ' ' !in senderKey && ' ' !in payload
    requires env.senderOf(senderKey) != "" && env.decodeB64(payload).Some?
    requires msgHash !in w.inbox.mem && msgHash !in w.inbox.db
    ensures msgHash in Step(env, w, Line(relay, MessageLine(msgHash, senderKey, payload))).taken
  {
    MessageLineSplits(msgHash, senderKey, payload);
    var list := w.fetches[relay].list;
    var f := Fetched(env.senderOf(senderKey), env.decodeB64(payload).value, msgHash);
    assert (list + [f])[|list|..] == [f] && f in [f];
  }

  /** The empty hash, once taken, is taken until the next restart. */
  lemma {:induction false} EmptyHashStays(env: Env, events: seq<Event>, more: seq<Event>)
    requires "" in Run(env, events).taken && Restart !in more
    ensures "" in Run(env, events + more).taken
  {
    if more == [] {
      assert events + more == events;
    } else {
      var init, last := more[..|more| - 1], more[|more| - 1];
      assert (events + more)[..|events + more| - 1] == events + init;
      EmptyHashStays(env, events, init);
      assert last in more;
      TakenGrows(env, Run(env, events + init), last);
    }
  }

  /** Reading such a line with an empty hash marks the empty hash, whatever happened before. */
  lemma EmptyHashIsTaken(env: Env, before: seq<Event>, relay: Relay, senderKey: string, payload: string)
    requires relay !in Run(env, before).fetches
    requires ' ' !in senderKey && ' ' !in payload
    requires env.senderOf(senderKey) != "" && env.decodeB64(payload).Some?
    ensures "" in Run(env, before + [Open(relay), Line(relay, MessageLine("", senderKey, payload))]).taken
  {
    var open, line := Open(relay), Line(relay, MessageLine("", senderKey, payload));
    var w := Run(env, before);
    RunInv(env, before);
    assert (before + [open])[..|before|] == before;
    assert (before + [open, line])[..|before| + 1] == before + [open];
    var w1 := Step(env, w, open);
    if "" in w.inbox.mem {
      TakenGrows(env, w1, line);
    } else {
      GoodLineTakes(env, w1, relay, "", senderKey, payload);
    }
  }

  /**
   The whole failing family: after any run, once a relay's answer holds a good line with an empty
   hash, that hash is unsettled for ever, whatever else happens short of a restart, and no later
   line that carries it is taken.
   */
  lemma EmptyHashNeverSettles(env: Env, before: seq<Event>, relay: Relay, senderKey: string, payload: string,
                              more: seq<Event>,
                              list: seq<Fetched>, line: string)
    requires relay !in Run(env, before).fetches && Restart !in more
    requires ' ' !in senderKey && ' ' !in payload
    requires env.senderOf(senderKey) != "" && env.decodeB64(payload).Some?
    requires |Split(line, ' ')| >= 2 && Split(line, ' ')[1] == ""
    ensures var w := Run(env, before + [Open(relay), Line(relay, MessageLine("", senderKey, payload))] + more);
            && !Settled(w.inbox, "")
            && Taken(env, w.inbox, list, line) == (w.inbox, list)
  {
    var events := before + [Open(relay), Line(relay, MessageLine("", senderKey, payload))];
    EmptyHashIsTaken(env, before, relay, senderKey, payload);
    EmptyHashStays(env, events, more);
    EmptyHashBlocksItself(env, events + more, list, line);
  }

  /** The empty hash, once taken, stays "processing": no later line that carries it is ever taken. */
  lemma {:induction false} EmptyHashBlocksItself(env: Env, events: seq<Event>, list: seq<Fetched>, line: string)
    requires "" in Run(env, events).taken
    requires |Split(line, ' ')| >= 2 && Split(line, ' ')[1] == ""
    ensures !Settled(Run(env, events).inbox, "")
    ensures Taken(env, Run(env, events).inbox, list, line) == (Run(env, events).inbox, list)
  {
    RunInv(env, events);
  }

  // ---------------------------------------------------------------- an undisturbed fetch

  function RunFrom(env: Env, w: World, events: seq<Event>): World
    decreases |events|
  {
    if events == [] then w else RunFrom(env, Step(env, w, events[0]), events[1..])
  }

  lemma {:induction false} RunThen(env: Env, before: seq<Event>, events: seq<Event>)
    ensures Run(env, before + events) == RunFrom(env, Run(env, before), events)
    decreases |events|
  {
    if events == [] {
      assert before + events == before;
    } else {
      var next := before + [events[0]];
      assert before + events == next + events[1..];
      assert next[..|next| - 1] == before;
      RunThen(env, next, events[1..]);
    }
  }

  lemma {:induction false} RunFromConcat(env: Env, w: World, a: seq<Event>, b: seq<Event>)
    ensures RunFrom(env, w, a + b) == RunFrom(env, RunFrom(env, w, a), b)
    decreases |a|
  {
    if a == [] {
      assert a + b == b;
    } else {
      assert (a + b)[1..] == a[1..] + b;
      RunFromConcat(env, Step(env, w, a[0]), a[1..], b);
    }
  }

  function LineEvents(relay: Relay, lines: seq<string>): seq<Event>
    decreases |lines|
  {
    if lines == [] then [Broken(relay)]
    else if Terminator(lines[0]) then [Line(relay, lines[0])]
    else [Line(relay, lines[0])] + LineEvents(relay, lines[1..])
  }

  function HandleEvents(relay: Relay, n: nat): seq<Event> {
    if n == 0 then [Handle(relay)] else [Handle(relay)] + HandleEvents(relay, n - 1)
  }

  /** One line of an open answer, step and function alike. */
  lemma LineTakes(env: Env, w: World, relay: Relay, line: string)
    requires relay in w.fetches && w.fetches[relay].Reading? && !Terminator(line)
    requires HashesOf(w.fetches[relay].list) <= w.taken
    ensures var (m, list) := Taken(env, w.inbox, w.fetches[relay].list, line);
            var w' := Step(env, w, Line(relay, line));
            && w'.inbox == m && w'.fetches == w.fetches[relay := Reading(list)]
            && HashesOf(list) <= w'.taken
  {
    var list := w.fetches[relay].list;
    TakenCases(env, w.inbox, list, line);
    var list' := Taken(env, w.inbox, list, line).1;
    assert list' == list + list'[|list|..];
  }

  lemma {:induction false} ReadingRun(env: Env, w: World, relay: Relay, lines: seq<string>)
    requires relay in w.fetches && w.fetches[relay].Reading?
    requires HashesOf(w.fetches[relay].list) <= w.taken
    ensures var (m, list) := ReadLines(env, w.inbox, w.fetches[relay].list, lines);
            var w' := RunFrom(env, w, LineEvents(relay, lines));
            && w'.inbox == m
            && w'.fetches == w.fetches[relay := Handling(HandshakesFirst(list))]
            && HashesOf(list) <= w'.taken
    decreases |lines|
  {
    if lines != [] && !Terminator(lines[0]) {
      var list := w.fetches[relay].list;
      var e := Line(relay, lines[0]);
      var w' := Step(env, w, e);
      var list' := w'.fetches[relay].list;
      LineTakes(env, w, relay, lines[0]);
      ReadingRun(env, w', relay, lines[1..]);
      assert LineEvents(relay, lines)[1..] == LineEvents(relay, lines[1..]);
      assert w'.fetches[relay := Handling(HandshakesFirst(list))]
          == w.fetches[relay := Handling(HandshakesFirst(list))];
    }
  }

  lemma {:induction false} HandlingRun(env: Env, w: World, relay: Relay, list: seq<Fetched>)
    requires relay in w.fetches && w.fetches[relay] == Handling(list)
    ensures RunFrom(env, w, HandleEvents(relay, |list|))
            == World(HandleAll(env, w.inbox, list), w.fetches - {relay}, w.taken)
    decreases |list|
  {
    if list != [] {
      var w' := Step(env, w, Handle(relay));
      HandlingRun(env, w', relay, list[1..]);
      assert HandleEvents(relay, |list|)[1..] == HandleEvents(relay, |list| - 1);
      assert w'.fetches - {relay} == w.fetches - {relay};
    }
  }

  function FetchEvents(env: Env, m: Inbox, relay: Relay, lines: seq<string>): seq<Event> {
    [Open(relay)] + (LineEvents(relay, lines) + HandleEvents(relay, |HandshakesFirst(ReadLines(env, m, [], lines).1)|))
  }

  /** Fetching in one go is one of the runs above: what holds in every run holds after it. */
  lemma FetchIsARun(env: Env, before: seq<Event>, relay: Relay, lines: seq<string>)
    requires relay !in Run(env, before).fetches
    ensures var w := Run(env, before);
            var w' := Run(env, before + FetchEvents(env, w.inbox, relay, lines));
            && w'.inbox == AfterFetch(env, w.inbox, lines)
            && w'.fetches == w.fetches
            && HashesOf(ReadLines(env, w.inbox, [], lines).1) <= w'.taken
  {
    var w := Run(env, before);
    var w1 := w.(fetches := w.fetches[relay := Reading([])]);
    var (m, list) := ReadLines(env, w.inbox, [], lines);
    var reading, handling := LineEvents(relay, lines), HandleEvents(relay, |HandshakesFirst(list)|);
    RunThen(env, before, FetchEvents(env, w.inbox, relay, lines));
    assert ([Open(relay)] + (reading + handling))[1..] == reading + handling;
    RunFromConcat(env, w1, reading, handling);
    ReadingRun(env, w1, relay, lines);
    var w2 := RunFrom(env, w1, reading);
    HandlingRun(env, w2, relay, HandshakesFirst(list));
    assert w2.fetches - {relay} == w.fetches;
  }

  /** After a fetch every non-empty hash it took, unless another fetch holds it too, is settled. */
  lemma FetchSettles(env: Env, before: seq<Event>, relay: Relay, lines: seq<string>, h: string)
    requires relay !in Run(env, before).fetches && !Pending(Run(env, before).fetches, h)
    requires h in HashesOf(ReadLines(env, Run(env, before).inbox, [], lines).1) && h != ""
    ensures Settled(AfterFetch(env, Run(env, before).inbox, lines), h)
  {
    FetchIsARun(env, before, relay, lines);
    MarkedHashesSettle(env, before + FetchEvents(env, Run(env, before).inbox, relay, lines), h);
  }
}
