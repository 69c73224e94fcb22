/** What a whole fetch comes to: which messages end up dispatched, in which order, and how they are recorded. */
module FetchResults {
  import opened Prelude
  import opened Text
  import opened Delivery
  import opened DeliveryRuns
  import opened DeliveryAnswers

  // ---------------------------------------------------------------- reading

  predicate NoEnd(lines: seq<string>) {
    forall i :: 0 <= i < |lines| ==> !Terminator(lines[i])
  }

  lemma {:induction false} ReadThrough(env: Env, m: Inbox, list: seq<Fetched>, front: seq<string>, back: seq<string>)
    requires NoEnd(front)
    ensures var (m', list') := ReadLines(env, m, list, front);
            ReadLines(env, m, list, front + back) == ReadLines(env, m', list', back)
    decreases |front|
  {
    if front == [] {
      assert front + back == back;
    } else {
      var (m', list') := Taken(env, m, list, front[0]);
      assert (front + back)[0] == front[0] && (front + back)[1..] == front[1..] + back;
      ReadThrough(env, m', list', front[1..], back);
    }
  }

  /** Reading only queues and marks. */
  lemma {:induction false} ReadingKeeps(env: Env, m: Inbox, list: seq<Fetched>, lines: seq<string>)
    ensures var (m', list') := ReadLines(env, m, list, lines);
            && list <= list' && m'.envs == m.envs && m'.dispatched == m.dispatched
    decreases |lines|
  {
    if lines != [] && !Terminator(lines[0]) {
      var (m', list') := Taken(env, m, list, lines[0]);
      ReadingKeeps(env, m', list', lines[1..]);
    }
  }

  // ---------------------------------------------------------------- one message among any

  lemma {:induction false} HandlingGrows(env: Env, m: Inbox, list: seq<Fetched>)
    ensures m.dispatched <= HandleAll(env, m, list).dispatched
    decreases |list|
  {
    if list != [] {
      HandlingGrows(env, Processed(env, m, list[0].sender, list[0].payload, list[0].msgHash), list[1..]);
    }
  }

  lemma AcceptedIsDispatched(env: Env, m: Inbox, f: Fetched)
    requires CollisionFree(env) && EnvelopesExact(env, m)
    requires forall n :: env.accepts(f.sender, Unwrapped(env, f.payload), n)
    ensures Unwrapped(env, f.payload) in Processed(env, m, f.sender, f.payload, f.msgHash).dispatched
  {
    RecordedExactly(env, m, f.sender, f.payload, f.msgHash);
  }

  lemma {:induction false} HandledIsDispatched(env: Env, m: Inbox, list: seq<Fetched>, k: nat)
    requires CollisionFree(env) && EnvelopesExact(env, m) && k < |list|
    requires forall n :: env.accepts(list[k].sender, Unwrapped(env, list[k].payload), n)
    ensures Unwrapped(env, list[k].payload) in HandleAll(env, m, list).dispatched
    decreases |list|
  {
    var m' := Processed(env, m, list[0].sender, list[0].payload, list[0].msgHash);
    if k == 0 {
      AcceptedIsDispatched(env, m, list[0]);
      HandlingGrows(env, m', list[1..]);
    } else {
      ProcessedKeepsEnvelopes(env, m, list[0].sender, list[0].payload, list[0].msgHash);
      HandledIsDispatched(env, m', list[1..], k - 1);
    }
  }

  /**
   After any run, a fetch that comes to the line of a readable message under a hash unknown so far ends with
   the message dispatched, if the attempts for that text from that sender succeed; whatever else the relay's
   answer holds, before the line or behind it.
   */
  lemma {:induction false} FetchDispatches(env: Env, before: seq<Event>, front: seq<string>, back: seq<string>,
                                           msgHash: string, senderKey: string, payload: string)
    requires CollisionFree(env) && NoEnd(front)
    requires ' ' !in msgHash && ' ' !in senderKey && ' ' !in payload && Readable(env, senderKey, payload)
    requires Unrecorded(ReadLines(env, Run(env, before).inbox, [], front).0, msgHash)
    requires forall n :: env.accepts(env.senderOf(senderKey), Unwrapped(env, env.decodeB64(payload).value), n)
    ensures var lines := front + [MessageLine(msgHash, senderKey, payload)] + back;
            Unwrapped(env, env.decodeB64(payload).value) in AfterFetch(env, Run(env, before).inbox, lines).dispatched
  {
    var m, line := Run(env, before).inbox, MessageLine(msgHash, senderKey, payload);
    var (m1, list1) := ReadLines(env, m, [], front);
    var (m2, list2) := Taken(env, m1, list1, line);
    var (m3, list3) := ReadLines(env, m2, list2, back);
    var f := Fetched(env.senderOf(senderKey), env.decodeB64(payload).value, msgHash);
    MessageLineSplits(msgHash, senderKey, payload);
    GoodLineExactly(env, m1, list1, msgHash, senderKey, payload);
    assert front + [line] + back == front + ([line] + back) && ([line] + back)[1..] == back;
    ReadThrough(env, m, [], front, [line] + back);
    ReadingKeeps(env, m, [], front);
    ReadingKeeps(env, m2, list2, back);
    assert f == list3[|list1|];
    RunInv(env, before);
    OnlyHandshakesContents(list3, true);
    OnlyHandshakesContents(list3, false);
    assert f in HandshakesFirst(list3);
    var k :| 0 <= k < |HandshakesFirst(list3)| && HandshakesFirst(list3)[k] == f;
    HandledIsDispatched(env, m3, HandshakesFirst(list3), k);
  }

  // ---------------------------------------------------------------- an answer of good lines

  datatype Item = Item(msgHash: string, senderKey: string, payload: string)

  function LineOf(i: Item): string {
    MessageLine(i.msgHash, i.senderKey, i.payload)
  }

  function Lines(items: seq<Item>): seq<string> {
    if items == [] then [] else [LineOf(items[0])] + Lines(items[1..])
  }

  predicate GoodItem(env: Env, i: Item) {
    ' ' !in i.msgHash && ' ' !in i.senderKey && ' ' !in i.payload && Readable(env, i.senderKey, i.payload)
  }

  function FetchedOf(env: Env, i: Item): Fetched
    requires Readable(env, i.senderKey, i.payload)
  {
    Fetched(env.senderOf(i.senderKey), env.decodeB64(i.payload).value, i.msgHash)
  }

  ghost predicate GoodItems(env: Env, items: seq<Item>) {
    forall k :: 0 <= k < |items| ==> GoodItem(env, items[k])
  }

  ghost function AllFetched(env: Env, items: seq<Item>): (list: seq<Fetched>)
    requires GoodItems(env, items)
    ensures |list| == |items| && forall k :: 0 <= k < |items| ==> list[k] == FetchedOf(env, items[k])
  {
    if items == [] then []
    else
      assert GoodItem(env, items[0]);
      [FetchedOf(env, items[0])] + AllFetched(env, items[1..])
  }

  /** Different hashes, none of them known. */
  ghost predicate NewItems(m: Inbox, items: seq<Item>) {
    && (forall j, k :: 0 <= j < k < |items| ==> items[j].msgHash != items[k].msgHash)
    && (forall k :: 0 <= k < |items| ==> Unrecorded(m, items[k].msgHash))
  }

  /** One good line of several. */
  lemma ReadsFirst(env: Env, m: Inbox, list: seq<Fetched>, items: seq<Item>)
    requires items != [] && GoodItems(env, items) && NewItems(m, items)
    ensures GoodItem(env, items[0]) && !Terminator(LineOf(items[0]))
    ensures Taken(env, m, list, LineOf(items[0]))
         == (m.(mem := m.mem[items[0].msgHash := Processing]), list + [FetchedOf(env, items[0])])
    ensures NewItems(m.(mem := m.mem[items[0].msgHash := Processing]), items[1..])
  {
    var first := items[0];
    assert GoodItem(env, first) && Unrecorded(m, first.msgHash);
    MessageLineSplits(first.msgHash, first.senderKey, first.payload);
    GoodLineExactly(env, m, list, first.msgHash, first.senderKey, first.payload);
  }

  /** The answer is read to the end, each message queued in its turn. */
  lemma {:induction false} ReadsAll(env: Env, m: Inbox, list: seq<Fetched>, items: seq<Item>)
    requires GoodItems(env, items) && NewItems(m, items)
    ensures NoEnd(Lines(items))
    ensures var (m', list') := ReadLines(env, m, list, Lines(items));
            list' == list + AllFetched(env, items) && m'.dispatched == m.dispatched && m'.envs == m.envs
    decreases |items|
  {
    if items == [] {
      assert list + AllFetched(env, items) == list;
    } else {
      ReadsFirst(env, m, list, items);
      var (m1, list1) := Taken(env, m, list, LineOf(items[0]));
      ReadsAll(env, m1, list1, items[1..]);
      assert Lines(items) == [LineOf(items[0])] + Lines(items[1..]);
      InThree(list, [FetchedOf(env, items[0])], AllFetched(env, items[1..]));
    }
  }

  /** Whether an attempt succeeds does not depend on when it is made. */
  ghost predicate Steady(env: Env) {
    forall sender, text, n, k {:trigger env.accepts(sender, text, n), env.accepts(sender, text, k)} ::
      env.accepts(sender, text, n) == env.accepts(sender, text, k)
  }

  predicate Succeeds(env: Env, f: Fetched) {
    env.accepts(f.sender, Unwrapped(env, f.payload), 0)
  }

  /** The texts of those whose attempt succeeds. */
  function Accepted(env: Env, list: seq<Fetched>): seq<string> {
    if list == [] then []
    else (if Succeeds(env, list[0]) then [Unwrapped(env, list[0].payload)] else []) + Accepted(env, list[1..])
  }

  /** Different texts under different hashes, none of them dispatched before. */
  ghost predicate NewTexts(env: Env, m: Inbox, list: seq<Fetched>) {
    && (forall j, k :: 0 <= j < k < |list| ==>
          list[j].msgHash != list[k].msgHash && Unwrapped(env, list[j].payload) != Unwrapped(env, list[k].payload))
    && (forall k :: 0 <= k < |list| ==> list[k].msgHash != "" && Unwrapped(env, list[k].payload) !in m.dispatched)
  }

  ghost predicate OutcomeOf(env: Env, m: Inbox, f: Fetched) {
    if Succeeds(env, f) then RecordedDone(m, f.msgHash) else Unrecorded(m, f.msgHash)
  }

  lemma HandlesOne(env: Env, m: Inbox, f: Fetched)
    requires CollisionFree(env) && Steady(env) && EnvelopesExact(env, m)
    requires f.msgHash != "" && Unwrapped(env, f.payload) !in m.dispatched
    ensures var m1 := Processed(env, m, f.sender, f.payload, f.msgHash);
            && m1.dispatched == m.dispatched + (if Succeeds(env, f) then [Unwrapped(env, f.payload)] else [])
            && OutcomeOf(env, m1, f)
            && forall h :: h != f.msgHash ==> SameRecord(m, m1, h)
  {
    KnownExactly(env, m, Unwrapped(env, f.payload));
    RecordedExactly(env, m, f.sender, f.payload, f.msgHash);
    assert env.accepts(f.sender, Unwrapped(env, f.payload), m.attempts) == Succeeds(env, f);
  }

  lemma RestIsNew(env: Env, m: Inbox, list: seq<Fetched>, m1: Inbox)
    requires list != [] && NewTexts(env, m, list)
    requires forall t :: t in m1.dispatched ==> t in m.dispatched || t == Unwrapped(env, list[0].payload)
    ensures NewTexts(env, m1, list[1..])
    ensures forall k :: 0 <= k < |list[1..]| ==> list[1..][k].msgHash != list[0].msgHash
  {
  }

  lemma InThree<T>(a: seq<T>, b: seq<T>, c: seq<T>)
    ensures (a + b) + c == a + (b + c)
  {
  }

  lemma {:induction false} HandledTexts(env: Env, m: Inbox, list: seq<Fetched>)
    requires CollisionFree(env) && Steady(env) && EnvelopesExact(env, m) && NewTexts(env, m, list)
    ensures HandleAll(env, m, list).dispatched == m.dispatched + Accepted(env, list)
    decreases |list|
  {
    if list == [] {
      assert m.dispatched + [] == m.dispatched;
    } else {
      var f, m1 := list[0], Processed(env, m, list[0].sender, list[0].payload, list[0].msgHash);
      HandlesOne(env, m, f);
      ProcessedKeepsEnvelopes(env, m, f.sender, f.payload, f.msgHash);
      RestIsNew(env, m, list, m1);
      HandledTexts(env, m1, list[1..]);
      InThree(m.dispatched, if Succeeds(env, f) then [Unwrapped(env, f.payload)] else [], Accepted(env, list[1..]));
    }
  }

  /** A hash under which nothing is handled keeps its record. */
  lemma {:induction false} HandledElsewhere(env: Env, m: Inbox, list: seq<Fetched>, h: string)
    requires forall k :: 0 <= k < |list| ==> list[k].msgHash != h
    ensures SameRecord(m, HandleAll(env, m, list), h)
    decreases |list|
  {
    if list != [] {
      var m1 := Processed(env, m, list[0].sender, list[0].payload, list[0].msgHash);
      ProcessedMarks(env, m, list[0].sender, list[0].payload, list[0].msgHash);
      HandledElsewhere(env, m1, list[1..], h);
    }
  }

  lemma {:induction false} HandledOutcome(env: Env, m: Inbox, list: seq<Fetched>, k: nat)
    requires CollisionFree(env) && Steady(env) && EnvelopesExact(env, m) && NewTexts(env, m, list) && k < |list|
    ensures OutcomeOf(env, HandleAll(env, m, list), list[k])
    decreases |list|
  {
    var f, m1 := list[0], Processed(env, m, list[0].sender, list[0].payload, list[0].msgHash);
    HandlesOne(env, m, f);
    RestIsNew(env, m, list, m1);
    if k == 0 {
      HandledElsewhere(env, m1, list[1..], f.msgHash);
    } else {
      ProcessedKeepsEnvelopes(env, m, f.sender, f.payload, f.msgHash);
      HandledOutcome(env, m1, list[1..], k - 1);
    }
  }

  // ---------------------------------------------------------------- the whole answer

  /** Sorting keeps the messages different and new. */
  lemma SortedIsNew(env: Env, m: Inbox, list: seq<Fetched>)
    requires NewTexts(env, m, list)
    ensures NewTexts(env, m, HandshakesFirst(list))
  {
    var sorted := HandshakesFirst(list);
    HandshakesFirstIsStableSort(list, true);
    forall k | 0 <= k < |sorted|
      ensures sorted[k].msgHash != "" && Unwrapped(env, sorted[k].payload) !in m.dispatched
    {
      var _ := PlaceOf(list, sorted, k);
    }
    forall j, k | 0 <= j < k < |sorted|
      ensures sorted[j].msgHash != sorted[k].msgHash
      ensures Unwrapped(env, sorted[j].payload) != Unwrapped(env, sorted[k].payload)
    {
      TwoPlaces(list, sorted, j, k);
      var a := PlaceOf(list, sorted, j);
      var b := PlaceOf(list, sorted, k);
    }
  }

  lemma PlaceOf(list: seq<Fetched>, sorted: seq<Fetched>, k: nat) returns (a: nat)
    requires multiset(sorted) == multiset(list) && k < |sorted|
    ensures a < |list| && list[a] == sorted[k]
  {
    assert sorted[k] in multiset(list);
    a :| a < |list| && list[a] == sorted[k];
  }

  lemma TwoPlaces(list: seq<Fetched>, sorted: seq<Fetched>, j: nat, k: nat)
    requires multiset(sorted) == multiset(list) && j < k < |sorted|
    requires forall a, b :: 0 <= a < b < |list| ==> list[a].msgHash != list[b].msgHash
    ensures sorted[j] != sorted[k]
  {
    if sorted[j] == sorted[k] {
      MultiplicityTwo(sorted, j, k);
      MultiplicityOne(list, sorted[j]);
    }
  }

  lemma MultiplicityTwo(s: seq<Fetched>, j: nat, k: nat)
    requires j < k < |s| && s[j] == s[k]
    ensures multiset(s)[s[j]] >= 2
  {
    assert s == s[..j] + [s[j]] + s[j + 1..k] + [s[k]] + s[k + 1..];
  }

  lemma {:induction false} MultiplicityOne(s: seq<Fetched>, f: Fetched)
    requires forall a, b :: 0 <= a < b < |s| ==> s[a].msgHash != s[b].msgHash
    ensures multiset(s)[f] <= 1
  {
    if s != [] {
      var init, last := s[..|s| - 1], s[|s| - 1];
      MultiplicityOne(init, f);
      assert s == init + [last];
      assert forall a :: 0 <= a < |init| ==> init[a].msgHash != last.msgHash;
      assert last !in init;
    }
  }

  /**
   After any run, a fetch whose answer is a list of new, readable messages dispatches exactly those whose
   attempts succeed: the bare handshakes first, each kind in the order of the answer, each text once.  Every
   hash is recorded as done, in memory and storage, if its message was dispatched, and is in neither if not.
   */
  lemma {:induction false} FetchExactly(env: Env, before: seq<Event>, items: seq<Item>, rest: seq<string>)
    requires CollisionFree(env) && Steady(env) && GoodItems(env, items)
    requires NewItems(Run(env, before).inbox, items)
    requires NewTexts(env, Run(env, before).inbox, AllFetched(env, items))
    ensures var m := Run(env, before).inbox;
            var m' := AfterFetch(env, m, Lines(items) + ["DONE"] + rest);
            && m'.dispatched == m.dispatched + Accepted(env, HandshakesFirst(AllFetched(env, items)))
            && forall k :: 0 <= k < |items| ==> OutcomeOf(env, m', FetchedOf(env, items[k]))
  {
    var m, list := Run(env, before).inbox, AllFetched(env, items);
    NothingAfterTheEnd(env, m, [], Lines(items), "DONE", rest);
    ReadsAll(env, m, [], items);
    assert [] + list == list;
    var m1 := ReadLines(env, m, [], Lines(items)).0;
    RunInv(env, before);
    SortedIsNew(env, m1, list);
    HandledTexts(env, m1, HandshakesFirst(list));
    forall k | 0 <= k < |items|
      ensures OutcomeOf(env, HandleAll(env, m1, HandshakesFirst(list)), FetchedOf(env, items[k]))
    {
      OnlyHandshakesContents(list, true);
      OnlyHandshakesContents(list, false);
      assert list[k] in list && list[k] in HandshakesFirst(list);
      var j :| 0 <= j < |HandshakesFirst(list)| && HandshakesFirst(list)[j] == list[k];
      HandledOutcome(env, m1, HandshakesFirst(list), j);
    }
  }
}
