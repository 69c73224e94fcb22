/**
 The three bounded retry buffers with a time to live: envelopes waiting for a reconnect
 (messaging_transmit.go), sent messages kept for a re-handshake (messaging_init.go) and group
 messages waiting for a key (group.go).  They prune, cap and drain in the same way.
 */
module Buffers {
  import opened Prelude

  const MAX_ENTRIES := 20
  const MINUTE := 60_000_000_000            // nanoseconds
  const PENDING_DIRECT_TTL := 5 * MINUTE
  const SENT_MESSAGE_TTL := 10 * MINUTE
  const PENDING_GROUP_TTL := 5 * MINUTE

  datatype Entry<T> = Entry(value: T, stamp: int)

  // ---------------------------------------------------------------- specification functions

  predicate Fresh<T>(e: Entry<T>, now: int, ttl: int) {
    now - e.stamp < ttl
  }

  function Live<T>(s: seq<Entry<T>>, now: int, ttl: int): seq<Entry<T>> {
    if s == [] then []
    else
      var last := s[|s| - 1];
      var live := Live(s[..|s| - 1], now, ttl);
      if Fresh(last, now, ttl) then live + [last] else live
  }

  function Capped<T>(s: seq<T>): seq<T> {
    if |s| >= MAX_ENTRIES then s[1..] else s
  }

  /** Prune, drop the oldest when full, append. */
  function Enqueued<T>(s: seq<Entry<T>>, e: Entry<T>, now: int, ttl: int): seq<Entry<T>> {
    Capped(Live(s, now, ttl)) + [e]
  }

  function Values<T>(s: seq<Entry<T>>): seq<T> {
    if s == [] then [] else Values(s[..|s| - 1]) + [s[|s| - 1].value]
  }

  // ---------------------------------------------------------------- one peer's mutable buffer

  lemma LiveAppend<T>(s: seq<Entry<T>>, e: Entry<T>, now: int, ttl: int)
    ensures Live(s + [e], now, ttl) == if Fresh(e, now, ttl) then Live(s, now, ttl) + [e] else Live(s, now, ttl)
  {
    assert (s + [e])[..|s|] == s;
  }

  lemma LiveSnoc<T>(s: seq<Entry<T>>, n: nat, now: int, ttl: int)
    requires n < |s|
    ensures var live := Live(s[..n], now, ttl);
            Live(s[..n + 1], now, ttl) == if Fresh(s[n], now, ttl) then live + [s[n]] else live
  {
    assert s[..n + 1][..n] == s[..n];
  }

  lemma ValuesSnoc<T>(s: seq<Entry<T>>, e: Entry<T>)
    ensures Values(s + [e]) == Values(s) + [e.value]
  {
    assert (s + [e])[..|s|] == s;
  }

  /** Of the stretch of `a` from `off` on, the front holds `live` and the part from `i` on is still as in `list`. */
  ghost predicate HalfPruned<T>(a: seq<Entry<T>>, off: nat, list: seq<Entry<T>>, live: seq<Entry<T>>, i: nat) {
    && |live| <= i <= |list| && off + |list| <= |a|
    && (forall j :: off <= j < off + |live| ==> a[j] == live[j - off])
    && (forall j :: off + i <= j < off + |list| ==> a[j] == list[j - off])
  }

  /** An entry is still there when it is read, and a survivor never lands on one that is not yet read. */
  lemma PruneOne<T>(a: seq<Entry<T>>, off: nat, list: seq<Entry<T>>, live: seq<Entry<T>>, i: nat)
    requires HalfPruned(a, off, list, live, i) && i < |list|
    ensures a[off + i] == list[i]
    ensures HalfPruned(a, off, list, live, i + 1)
    ensures HalfPruned(a[off + |live| := list[i]], off, list, live + [list[i]], i + 1)
  {
  }

  /** Writes the survivors among `data[off..off + len]` over the front of that same stretch while reading it. */
  method PruneInPlace<T>(data: array<Entry<T>>, off: nat, len: nat, now: int, ttl: int) returns (kept: nat)
    requires off + len <= data.Length
    modifies data
    ensures kept <= len
    ensures data[off..off + kept] == Live(old(data[off..off + len]), now, ttl)
  {
    ghost var all, list, live := data[..], data[off..off + len], [];
    kept := 0;
    for i := 0 to len
      invariant kept == |live| && live == Live(list[..i], now, ttl)
      invariant data[..] == all && HalfPruned(all, off, list, live, i)
    {
      PruneOne(all, off, list, live, i);
      LiveSnoc(list, i, now, ttl);
      var e := data[off + i];
      if now - e.stamp < ttl {
        data[off + kept] := e;
        kept, all, live := kept + 1, all[off + |live| := list[i]], live + [list[i]];
      }
    }
    assert list[..len] == list;
    assert data[off..off + kept] == live;
  }

  /**
   The slice the maps hold for one peer: `len` entries of an array from `off` on.
   */
  class RetryBuffer<T> {
    const ttl: int
    var data: array<Entry<T>>
    var off: nat
    var len: nat

    ghost predicate Valid()
      reads this
    {
      off + len <= data.Length
    }

    ghost function View(): seq<Entry<T>>
      requires Valid()
      reads this, data
    {
      data[off..off + len]
    }

    /** Envelopes waiting for a reconnect. */
    constructor PendingDirect()
      ensures Valid() && fresh(data) && ttl == PENDING_DIRECT_TTL && View() == []
    {
      ttl := PENDING_DIRECT_TTL;
      data := new Entry<T>[0];
      off, len := 0, 0;
    }

    /** Sent messages, to be repeated after a new handshake. */
    constructor SentMessages()
      ensures Valid() && fresh(data) && ttl == SENT_MESSAGE_TTL && View() == []
    {
      ttl := SENT_MESSAGE_TTL;
      data := new Entry<T>[0];
      off, len := 0, 0;
    }

    /** Group messages waiting for their sender's key. */
    constructor PendingGroup()
      ensures Valid() && fresh(data) && ttl == PENDING_GROUP_TTL && View() == []
    {
      ttl := PENDING_GROUP_TTL;
      data := new Entry<T>[0];
      off, len := 0, 0;
    }

    method Prune(now: int)
      requires Valid()
      modifies this`len, data
      ensures Valid()
      ensures View() == Live(old(View()), now, ttl)
    {
      len := PruneInPlace(data, off, len, now, ttl);
    }

    /** Go's `s[1:]`, when the buffer is full. */
    method MakeRoom()
      requires Valid()
      modifies this`off, this`len
      ensures Valid()
      ensures View() == Capped(old(View()))
    {
      if len >= MAX_ENTRIES {
        off, len := off + 1, len - 1;
      }
    }

    /** Go's append: in place while the array has room, otherwise into a larger copy. */
    method Append(e: Entry<T>)
      requires Valid()
      modifies this, data
      ensures Valid() && (data == old(data) || fresh(data))
      ensures View() == old(View()) + [e]
    {
      if off + len == data.Length {
        var view := data[off..off + len];
        var n := len;
        data := new Entry<T>[2 * n + 1](i => if 0 <= i < |view| then view[i] else e);
        off := 0;
      }
      data[off + len] := e;
      len := len + 1;
    }

    /** `stamp` is `now` for the direct and sent buffers, the time of receipt for group messages. */
    method Enqueue(value: T, stamp: int, now: int)
      requires Valid()
      modifies this, data
      ensures Valid() && (data == old(data) || fresh(data))
      ensures View() == Enqueued(old(View()), Entry(value, stamp), now, ttl)
    {
      Prune(now);
      MakeRoom();
      Append(Entry(value, stamp));
    }

    /** Hands over what is still fresh and empties the buffer. */
    method Drain(now: int) returns (values: seq<T>)
      requires Valid()
      modifies this
      ensures Valid() && fresh(data)
      ensures values == Values(Live(old(View()), now, ttl))
      ensures View() == []
    {
      values := [];
      ghost var list := View();
      for i := 0 to len
        invariant Valid() && View() == list
        invariant values == Values(Live(list[..i], now, ttl))
      {
        LiveSnoc(list, i, now, ttl);
        ValuesSnoc(Live(list[..i], now, ttl), list[i]);
        if now - data[off + i].stamp < ttl {
          values := values + [data[off + i].value];
        }
      }
      assert list[..|list|] == list;
      data := new Entry<T>[0];
      off, len := 0, 0;
    }
  }

  // ---------------------------------------------------------------- runs of one queue

  /** One enqueue: the entry and the clock when it was put in. */
  datatype Arrival<T> = Arrival(entry: Entry<T>, now: int)

  function Entries<T>(run: seq<Arrival<T>>): seq<Entry<T>> {
    if run == [] then [] else Entries(run[..|run| - 1]) + [run[|run| - 1].entry]
  }

  /** The queue after a run of enqueues that began with an empty one. */
  function Queue<T>(run: seq<Arrival<T>>, ttl: int): seq<Entry<T>> {
    if run == [] then []
    else Enqueued(Queue(run[..|run| - 1], ttl), run[|run| - 1].entry, run[|run| - 1].now, ttl)
  }

  /** The clock never runs backwards: every entry is stamped before it is put in, and after the last one. */
  ghost predicate Clocked<T>(run: seq<Arrival<T>>) {
    && (forall i :: 0 <= i < |run| ==> run[i].entry.stamp <= run[i].now)
    && (forall i, j :: 0 <= i < j < |run| ==> run[i].now <= run[j].entry.stamp)
  }

  ghost predicate Sorted<T>(s: seq<Entry<T>>) {
    forall i, j :: 0 <= i <= j < |s| ==> s[i].stamp <= s[j].stamp
  }

  lemma LastNOfLastN<T>(s: seq<T>, k: nat, n: nat)
    ensures LastN(LastN(s, k), n) == LastN(s, if k <= n then k else n)
  {
  }

  lemma LastNSnoc<T>(s: seq<T>, k: nat, x: T)
    ensures LastN(s, k) + [x] == LastN(s + [x], k + 1)
  {
  }

  lemma {:induction false} EntriesAt<T>(run: seq<Arrival<T>>)
    ensures |Entries(run)| == |run| && forall i :: 0 <= i < |run| ==> Entries(run)[i] == run[i].entry
  {
    if run != [] {
      EntriesAt(run[..|run| - 1]);
    }
  }

  lemma {:induction false} NothingLive<T>(s: seq<Entry<T>>, now: int, ttl: int)
    requires forall i :: 0 <= i < |s| ==> !Fresh(s[i], now, ttl)
    ensures Live(s, now, ttl) == []
  {
    if s != [] {
      NothingLive(s[..|s| - 1], now, ttl);
    }
  }

  lemma {:induction false} LiveShorter<T>(s: seq<Entry<T>>, now: int, ttl: int)
    ensures |Live(s, now, ttl)| <= |s|
  {
    if s != [] {
      LiveShorter(s[..|s| - 1], now, ttl);
    }
  }

  /** When the newest entry of a sorted list has expired, so has every other. */
  lemma NoneLive<T>(s: seq<Entry<T>>, k: nat, now: int, ttl: int)
    requires Sorted(s) && s != [] && !Fresh(s[|s| - 1], now, ttl)
    ensures Live(s, now, ttl) == [] && Live(LastN(s, k), now, ttl) == []
  {
    NothingLive(s, now, ttl);
    NothingLive(LastN(s, k), now, ttl);
  }

  /** One more unexpired entry at the end. */
  lemma FreshAtTheEnd<T>(init: seq<Entry<T>>, last: Entry<T>, k: nat, now: int, ttl: int)
    requires k > 0 && Fresh(last, now, ttl)
    requires Live(LastN(init, k - 1), now, ttl) == LastN(Live(init, now, ttl), k - 1)
    ensures Live(LastN(init + [last], k), now, ttl) == LastN(Live(init + [last], now, ttl), k)
  {
    LastNSnoc(init, k - 1, last);
    LiveAppend(LastN(init, k - 1), last, now, ttl);
    LiveAppend(init, last, now, ttl);
    LastNSnoc(Live(init, now, ttl), k - 1, last);
  }

  lemma LastNone<T>(s: seq<T>)
    ensures LastN(s, 0) == []
  {
  }

  lemma SortedPrefix<T>(s: seq<Entry<T>>)
    requires Sorted(s) && s != []
    ensures Sorted(s[..|s| - 1]) && s == s[..|s| - 1] + [s[|s| - 1]]
  {
  }

  /** Pruning the last `k` entries of a sorted list leaves the last `k` of the pruned list. */
  lemma {:induction false} LiveOfLastN<T>(s: seq<Entry<T>>, k: nat, now: int, ttl: int)
    requires Sorted(s)
    ensures Live(LastN(s, k), now, ttl) == LastN(Live(s, now, ttl), k)
  {
    if |s| <= k {
      LiveShorter(s, now, ttl);
    } else if k == 0 {
      LastNone(s);
      LastNone(Live(s, now, ttl));
    } else {
      SortedPrefix(s);
      var init, last := s[..|s| - 1], s[|s| - 1];
      if Fresh(last, now, ttl) {
        LiveOfLastN(init, k - 1, now, ttl);
        FreshAtTheEnd(init, last, k, now, ttl);
      } else {
        NoneLive(s, k, now, ttl);
      }
    }
  }

  /** As time goes by fewer entries are live. */
  lemma {:induction false} LiveShrinks<T>(s: seq<Entry<T>>, earlier: int, later: int, ttl: int)
    requires earlier <= later
    ensures |Live(s, later, ttl)| <= |Live(s, earlier, ttl)|
  {
    if s != [] {
      LiveShrinks(s[..|s| - 1], earlier, later, ttl);
    }
  }

  /** A sorted list, pruned, is a suffix of itself. */
  lemma {:induction false} LiveIsSuffix<T>(s: seq<Entry<T>>, now: int, ttl: int)
    requires Sorted(s)
    ensures Live(s, now, ttl) == LastN(s, |Live(s, now, ttl)|) && |Live(s, now, ttl)| <= |s|
  {
    if s != [] {
      SortedPrefix(s);
      var init, last := s[..|s| - 1], s[|s| - 1];
      LiveAppend(init, last, now, ttl);
      if Fresh(last, now, ttl) {
        LiveIsSuffix(init, now, ttl);
        LastNSnoc(init, |Live(init, now, ttl)|, last);
      } else {
        NothingLive(init, now, ttl);
        LastNone(s);
      }
    }
  }

  /** What the queue should hold: the last twenty of the earlier entries still live, and the new one. */
  function Expected<T>(run: seq<Arrival<T>>, ttl: int): seq<Entry<T>>
    requires run != []
  {
    var last := run[|run| - 1];
    LastN(Live(Entries(run[..|run| - 1]), last.now, ttl) + [last.entry], MAX_ENTRIES)
  }

  lemma ClockedSorted<T>(run: seq<Arrival<T>>)
    requires Clocked(run)
    ensures Sorted(Entries(run))
  {
    EntriesAt(run);
    forall i, j | 0 <= i <= j < |run|
      ensures Entries(run)[i].stamp <= Entries(run)[j].stamp
    {
      assert run[i].entry.stamp <= run[i].now;
    }
  }

  /** The expected queue is a suffix of everything put in; unless it is full it holds all that is live. */
  lemma ExpectedIsSuffix<T>(run: seq<Arrival<T>>, ttl: int)
    requires run != [] && Clocked(run)
    ensures var live := |Live(Entries(run[..|run| - 1]), run[|run| - 1].now, ttl)|;
            && live < |run|
            && Expected(run, ttl) == LastN(Entries(run), if live < MAX_ENTRIES then live + 1 else MAX_ENTRIES)
  {
    var last := run[|run| - 1];
    var before := Entries(run[..|run| - 1]);
    var live := Live(before, last.now, ttl);
    ClockedSorted(run[..|run| - 1]);
    EntriesAt(run[..|run| - 1]);
    LiveIsSuffix(before, last.now, ttl);
    LastNSnoc(before, |live|, last.entry);
    LastNOfLastN(Entries(run), |live| + 1, MAX_ENTRIES);
  }

  /** A suffix that is long enough loses nothing of what is live among the last nineteen. */
  lemma PruneSuffix<T>(all: seq<Entry<T>>, k: nat, now: int, ttl: int)
    requires Sorted(all)
    requires k < MAX_ENTRIES ==> |Live(all, now, ttl)| <= k
    ensures LastN(Live(LastN(all, k), now, ttl), MAX_ENTRIES - 1) == LastN(Live(all, now, ttl), MAX_ENTRIES - 1)
  {
    LiveOfLastN(all, k, now, ttl);
    LastNOfLastN(Live(all, now, ttl), k, MAX_ENTRIES - 1);
  }

  lemma LiveGrows<T>(run: seq<Arrival<T>>, now: int, ttl: int)
    requires run != [] && run[|run| - 1].now <= now
    ensures |Live(Entries(run), now, ttl)| <= |Live(Entries(run[..|run| - 1]), run[|run| - 1].now, ttl)| + 1
  {
    var before := Entries(run[..|run| - 1]);
    assert Entries(run)[..|before|] == before;
    LiveShrinks(before, run[|run| - 1].now, now, ttl);
  }

  /** How many of the latest entries the queue holds: all that may still be unexpired, or twenty. */
  lemma QueueLength<T>(run: seq<Arrival<T>>, now: int, ttl: int) returns (k: nat)
    requires run != [] && Clocked(run) && run[|run| - 1].now <= now
    ensures Sorted(Entries(run)) && k <= MAX_ENTRIES && Expected(run, ttl) == LastN(Entries(run), k)
    ensures k < MAX_ENTRIES ==> |Live(Entries(run), now, ttl)| <= k
  {
    var live := |Live(Entries(run[..|run| - 1]), run[|run| - 1].now, ttl)|;
    k := if live < MAX_ENTRIES then live + 1 else MAX_ENTRIES;
    ExpectedIsSuffix(run, ttl);
    LiveGrows(run, now, ttl);
    ClockedSorted(run);
  }

  /** Pruning the capped queue keeps all that pruning everything would have kept among the last nineteen. */
  lemma PruneQueue<T>(run: seq<Arrival<T>>, now: int, ttl: int)
    requires run != [] && Clocked(run) && run[|run| - 1].now <= now
    ensures LastN(Live(Expected(run, ttl), now, ttl), MAX_ENTRIES - 1)
         == LastN(Live(Entries(run), now, ttl), MAX_ENTRIES - 1)
  {
    var k := QueueLength(run, now, ttl);
    PruneSuffix(Entries(run), k, now, ttl);
  }

  lemma CappedIs<T>(s: seq<T>)
    requires |s| <= MAX_ENTRIES
    ensures Capped(s) == LastN(s, MAX_ENTRIES - 1)
  {
  }

  /**
   After any run of enqueues with a clock that does not run backwards, the queue holds the newest
   entry and, before it in order, the latest earlier entries that have not expired, twenty in all.
   */
  lemma {:induction false} QueueIsLastTwenty<T>(run: seq<Arrival<T>>, ttl: int)
    requires run != [] && Clocked(run)
    ensures Queue(run, ttl) == Expected(run, ttl)
  {
    var init, last := run[..|run| - 1], run[|run| - 1];
    if init != [] {
      QueueIsLastTwenty(init, ttl);
      PruneQueue(init, last.now, ttl);
      LiveShorter(Queue(init, ttl), last.now, ttl);
      CappedIs(Live(Queue(init, ttl), last.now, ttl));
      LastNSnoc(Live(Entries(init), last.now, ttl), MAX_ENTRIES - 1, last.entry);
    }
  }

  /** With an entry stamped as it is put in, that is: the last twenty of all entries not yet expired. */
  lemma QueueIsLastTwentyLive<T>(run: seq<Arrival<T>>, ttl: int)
    requires run != [] && Clocked(run) && ttl > 0 && run[|run| - 1].entry.stamp == run[|run| - 1].now
    ensures Queue(run, ttl) == LastN(Live(Entries(run), run[|run| - 1].now, ttl), MAX_ENTRIES)
  {
    QueueIsLastTwenty(run, ttl);
    var entries := Entries(run);
    assert entries[..|entries| - 1] == Entries(run[..|run| - 1]);
  }

  // ---------------------------------------------------------------- draining

  datatype Event<T> = Put(entry: Entry<T>, now: int) | Take(now: int)

  /** The queue, everything handed over so far, and everything ever put in. */
  datatype Ledger<T> = Ledger(queue: seq<Entry<T>>, handed: seq<Entry<T>>, put: seq<Entry<T>>)

  function Replay<T>(events: seq<Event<T>>, ttl: int): Ledger<T> {
    if events == [] then Ledger([], [], [])
    else
      var l := Replay(events[..|events| - 1], ttl);
      match events[|events| - 1]
      case Put(e, now) => Ledger(Enqueued(l.queue, e, now, ttl), l.handed, l.put + [e])
      case Take(now) => Ledger([], l.handed + Live(l.queue, now, ttl), l.put)
  }

  /** `a` arises from `b` by leaving entries out. */
  ghost predicate Within<T(!new)>(a: seq<T>, b: seq<T>) {
    || a == []
    || (b != [] && ((a[|a| - 1] == b[|b| - 1] && Within(a[..|a| - 1], b[..|b| - 1])) || Within(a, b[..|b| - 1])))
  }

  lemma {:induction false} WithinTransitive<T(!new)>(a: seq<T>, b: seq<T>, c: seq<T>)
    requires Within(a, b) && Within(b, c)
    ensures Within(a, c)
    decreases |b| + |c|
  {
    if a != [] {
      if Within(b, c[..|c| - 1]) {
        WithinTransitive(a, b, c[..|c| - 1]);
      } else if a[|a| - 1] == b[|b| - 1] && Within(a[..|a| - 1], b[..|b| - 1]) {
        WithinTransitive(a[..|a| - 1], b[..|b| - 1], c[..|c| - 1]);
      } else {
        WithinTransitive(a, b[..|b| - 1], c[..|c| - 1]);
      }
    }
  }

  lemma {:induction false} WithinSelf<T(!new)>(a: seq<T>)
    ensures Within(a, a)
  {
    if a != [] {
      WithinSelf(a[..|a| - 1]);
    }
  }

  lemma WithinSnoc<T(!new)>(a: seq<T>, b: seq<T>, x: T)
    requires Within(a, b)
    ensures Within(a + [x], b + [x]) && Within(a, b + [x])
  {
    assert (a + [x])[..|a|] == a && (b + [x])[..|b|] == b;
  }

  lemma BehindSnoc<T>(front: seq<T>, s: seq<T>)
    requires s != []
    ensures front + s == (front + s[..|s| - 1]) + [s[|s| - 1]]
  {
  }

  /** Leaving entries out of the end part leaves them out of the whole. */
  lemma {:induction false} WithinBehind<T(!new)>(front: seq<T>, a: seq<T>, b: seq<T>)
    requires Within(a, b)
    ensures Within(front + a, front + b)
    decreases |b|
  {
    if b == [] {
      WithinSelf(front);
      assert front + a == front == front + b;
    } else {
      var b' := b[..|b| - 1];
      BehindSnoc(front, b);
      if a == [] {
        WithinBehind(front, a, b');
        WithinSnoc(front + a, front + b', b[|b| - 1]);
      } else if a[|a| - 1] == b[|b| - 1] && Within(a[..|a| - 1], b') {
        WithinBehind(front, a[..|a| - 1], b');
        WithinSnoc(front + a[..|a| - 1], front + b', b[|b| - 1]);
        BehindSnoc(front, a);
      } else {
        WithinBehind(front, a, b');
        WithinSnoc(front + a, front + b', b[|b| - 1]);
      }
    }
  }

  lemma {:induction false} LiveWithin<T(!new)>(s: seq<Entry<T>>, now: int, ttl: int)
    ensures Within(Live(s, now, ttl), s)
  {
    if s != [] {
      var init, last := s[..|s| - 1], s[|s| - 1];
      LiveWithin(init, now, ttl);
      WithinSnoc(Live(init, now, ttl), init, last);
      assert s == init + [last];
    }
  }

  lemma {:induction false} TailWithin<T(!new)>(s: seq<T>)
    requires s != []
    ensures Within(s[1..], s)
  {
    if |s| > 1 {
      TailWithin(s[..|s| - 1]);
      assert s[1..][..|s| - 2] == s[..|s| - 1][1..];
    }
  }

  /**
   Through any mix of enqueues and drains, what was handed over followed by what still waits is the
   sequence of everything put in with some entries left out: nothing is handed over twice, invented
   or reordered, and what waits has not been handed over.
   */
  lemma {:induction false} HandedOverAtMostOnce<T(!new)>(events: seq<Event<T>>, ttl: int)
    ensures var l := Replay(events, ttl);
            Within(l.handed + l.queue, l.put)
  {
    if events == [] {
      assert Replay(events, ttl).handed + Replay(events, ttl).queue == [];
    } else {
      HandedOverAtMostOnce(events[..|events| - 1], ttl);
      var l := Replay(events[..|events| - 1], ttl);
      match events[|events| - 1] {
        case Put(e, now) =>
          var live := Live(l.queue, now, ttl);
          var rest := Capped(live);
          LiveWithin(l.queue, now, ttl);
          if |live| >= MAX_ENTRIES {
            TailWithin(live);
            WithinTransitive(rest, live, l.queue);
          }
          WithinBehind(l.handed, rest, l.queue);
          WithinTransitive(l.handed + rest, l.handed + l.queue, l.put);
          WithinSnoc(l.handed + rest, l.put, e);
          assert l.handed + (rest + [e]) == (l.handed + rest) + [e];
        case Take(now) =>
          LiveWithin(l.queue, now, ttl);
          WithinBehind(l.handed, Live(l.queue, now, ttl), l.queue);
          WithinTransitive(l.handed + Live(l.queue, now, ttl), l.handed + l.queue, l.put);
          assert (l.handed + Live(l.queue, now, ttl)) + [] == l.handed + Live(l.queue, now, ttl);
      }
    }
  }

  // ---------------------------------------------------------------- what a drain hands over

  function Puts<T>(run: seq<Arrival<T>>): seq<Event<T>> {
    if run == [] then [] else Puts(run[..|run| - 1]) + [Put(run[|run| - 1].entry, run[|run| - 1].now)]
  }

  lemma Regrouped<T>(a: seq<T>, b: seq<T>, c: seq<T>)
    ensures a + (b + c) == (a + b) + c
  {
  }

  lemma ReplayPut<T>(events: seq<Event<T>>, e: Entry<T>, now: int, ttl: int)
    ensures var l := Replay(events, ttl);
            Replay(events + [Put(e, now)], ttl) == Ledger(Enqueued(l.queue, e, now, ttl), l.handed, l.put + [e])
  {
    assert (events + [Put(e, now)])[..|events|] == events;
  }

  lemma {:induction false} PutsFill<T(!new)>(before: seq<Event<T>>, run: seq<Arrival<T>>, ttl: int)
    requires Replay(before, ttl).queue == []
    ensures Replay(before + Puts(run), ttl).queue == Queue(run, ttl)
    ensures Replay(before + Puts(run), ttl).handed == Replay(before, ttl).handed
  {
    if run == [] {
      assert before + Puts(run) == before;
    } else {
      var init, last := run[..|run| - 1], run[|run| - 1];
      PutsFill(before, init, ttl);
      ReplayPut(before + Puts(init), last.entry, last.now, ttl);
      Regrouped(before, Puts(init), [Put(last.entry, last.now)]);
    }
  }

  /** Of the capped queue a drain finds unexpired what it would find among everything, twenty at most. */
  lemma DrainQueue<T>(run: seq<Arrival<T>>, now: int, ttl: int)
    requires run != [] && Clocked(run) && run[|run| - 1].now <= now
    ensures Live(Expected(run, ttl), now, ttl) == LastN(Live(Entries(run), now, ttl), MAX_ENTRIES)
  {
    var k := QueueLength(run, now, ttl);
    LiveOfLastN(Entries(run), k, now, ttl);
    LastNEnough(Live(Entries(run), now, ttl), k);
  }

  lemma LastNEnough<T>(s: seq<T>, k: nat)
    requires k <= MAX_ENTRIES && (k < MAX_ENTRIES ==> |s| <= k)
    ensures LastN(s, k) == LastN(s, MAX_ENTRIES)
  {
  }

  /**
   After any enqueues and drains, a drain hands over, in order, exactly the last twenty of all entries put
   in since the drain before it that have not expired, and leaves nothing behind.
   */
  lemma {:induction false} DrainExactly<T(!new)>(before: seq<Event<T>>, run: seq<Arrival<T>>, now: int, ttl: int)
    requires Replay(before, ttl).queue == []
    requires run != [] && Clocked(run) && run[|run| - 1].now <= now
    ensures var l := Replay(before + Puts(run) + [Take(now)], ttl);
            && l.queue == []
            && l.handed == Replay(before, ttl).handed + LastN(Live(Entries(run), now, ttl), MAX_ENTRIES)
  {
    var filled := before + Puts(run);
    PutsFill(before, run, ttl);
    QueueIsLastTwenty(run, ttl);
    DrainQueue(run, now, ttl);
    assert (filled + [Take(now)])[..|filled|] == filled;
  }
}
