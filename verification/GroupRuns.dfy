/** Long runs of the group ratchet: what a receiver can still open. */
module GroupRuns {
  import opened Prelude
  import opened Text
  import opened Group

  // ---------------------------------------------------------------- runs by index

  /** The receiver's index state: active index, history, and every value the active index has taken. */
  datatype Track = Track(active: nat, history: seq<nat>, visited: seq<nat>)

  /** The state after one key of index `r0` was saved and the messages `arrivals` came in, in this order. */
  function Follow(r0: nat, arrivals: seq<nat>): Track {
    if arrivals == [] then Track(r0, [r0], [r0])
    else
      var t := Follow(r0, arrivals[..|arrivals| - 1]);
      Arrive(t, arrivals[|arrivals| - 1])
  }

  function Arrive(t: Track, j: nat): Track {
    var next := NextActive(t.active, t.history, j);
    Track(next, NextHistory(t.active, t.history, j), if next == t.active then t.visited else t.visited + [next])
  }

  /** The active index only grows, and the history is the last twenty values it has taken. */
  ghost predicate TrackOK(t: Track) {
    && t.visited != [] && t.visited[|t.visited| - 1] == t.active
    && (forall i, j :: 0 <= i < j < |t.visited| ==> t.visited[i] < t.visited[j])
    && t.history == LastN(t.visited, HISTORY_SIZE)
  }

  lemma ArriveKeepsTrack(t: Track, j: nat)
    requires TrackOK(t)
    ensures TrackOK(Arrive(t, j))
    ensures Arrive(t, j).active >= t.active
  {
    NothingAbove(t);
    if NextActive(t.active, t.history, j) != t.active {
      assert j + 1 !in t.history;
      TrackSnoc(t, j + 1);
      assert Arrive(t, j) == Track(j + 1, SaveIndex(t.history, j + 1), t.visited + [j + 1]);
    }
  }

  lemma TrackSnoc(t: Track, x: nat)
    requires TrackOK(t) && x > t.active && x !in t.history
    ensures TrackOK(Track(x, SaveIndex(t.history, x), t.visited + [x]))
  {
    LastNGrow(t.visited, x, HISTORY_SIZE);
    IncreasingSnoc(t.visited, x);
  }

  lemma NothingAbove(t: Track)
    requires TrackOK(t)
    ensures forall k :: k in t.history ==> k <= t.active
  {
  }

  lemma IncreasingSnoc(s: seq<nat>, x: nat)
    requires s != [] && s[|s| - 1] < x && forall i, j :: 0 <= i < j < |s| ==> s[i] < s[j]
    ensures forall i, j :: 0 <= i < j < |s + [x]| ==> (s + [x])[i] < (s + [x])[j]
  {
  }

  lemma {:induction false} FollowKeepsTrack(r0: nat, arrivals: seq<nat>)
    ensures TrackOK(Follow(r0, arrivals))
  {
    if arrivals != [] {
      FollowKeepsTrack(r0, arrivals[..|arrivals| - 1]);
      ArriveKeepsTrack(Follow(r0, arrivals[..|arrivals| - 1]), arrivals[|arrivals| - 1]);
    }
  }

  lemma FollowSnoc(r0: nat, arrivals: seq<nat>, j: nat)
    ensures Follow(r0, arrivals + [j]) == Arrive(Follow(r0, arrivals), j)
  {
    assert (arrivals + [j])[..|arrivals|] == arrivals;
  }

  // ---------------------------------------------------------------- runs of the real tables

  /** All messages of a sender that starts from `seed` and seals `texts` one after the other. */
  function Chain(seed: Key, texts: seq<string>): (r: (KeyRows<Key>, seq<Sealed>))
    ensures r.0.active.Some? && |r.1| == |texts|
  {
    if texts == [] then (SaveKey(KeyRows(None, []), seed), [])
    else
      var (rows, msgs) := Chain(seed, texts[..|texts| - 1]);
      var (rows', msg) := Send(rows, texts[|texts| - 1]);
      (rows', msgs + [msg.value])
  }

  function UpTo(n: nat): seq<nat> {
    if n == 0 then [0] else UpTo(n - 1) + [n]
  }

  lemma {:induction false} UpToAt(n: nat)
    ensures |UpTo(n)| == n + 1 && forall i :: 0 <= i <= n ==> UpTo(n)[i] == i
  {
    if n > 0 {
      UpToAt(n - 1);
    }
  }

  /**
   Sealing `n` messages leaves key `n` active and the last twenty keys in the history; message `k` is
   sealed with key `k`.
   */
  lemma {:induction false} SenderOnChain(seed: Key, texts: seq<string>)
    requires seed.Seed?
    ensures OnChain(Chain(seed, texts).0, seed, |texts|, LastN(UpTo(|texts|), HISTORY_SIZE))
    ensures forall k :: 0 <= k < |texts| ==> Chain(seed, texts).1[k] == Sealed(Nth(seed, k), texts[k])
  {
    UpToAt(|texts|);
    if texts != [] {
      var n := |texts| - 1;
      SenderOnChain(seed, texts[..n]);
      UpToAt(n);
      var h := LastN(UpTo(n), HISTORY_SIZE);
      SaveOnChain(Chain(seed, texts[..n]).0, seed, n, h, n + 1);
      assert n + 1 !in h;
      assert LastN(h + [n + 1], HISTORY_SIZE) == LastN(UpTo(n + 1), HISTORY_SIZE);
    }
  }

  /** The receiver's rows after saving `key` and processing `msgs`; the second part is what each one gave. */
  function Receive(key: Key, msgs: seq<Sealed>): (r: (KeyRows<Key>, seq<Option<string>>))
    ensures |r.1| == |msgs|
  {
    if msgs == [] then (SaveKey(KeyRows(None, []), key), [])
    else
      var (rows, out) := Receive(key, msgs[..|msgs| - 1]);
      var (rows', plain) := Decrypt(rows, msgs[|msgs| - 1]);
      (rows', out + [plain])
  }

  /** The messages with the given indices, in the order of their arrival. */
  function Pick(msgs: seq<Sealed>, arrivals: seq<nat>): (r: seq<Sealed>)
    requires forall i :: 0 <= i < |arrivals| ==> arrivals[i] < |msgs|
    ensures |r| == |arrivals| && forall i :: 0 <= i < |arrivals| ==> r[i] == msgs[arrivals[i]]
  {
    if arrivals == [] then []
    else Pick(msgs, arrivals[..|arrivals| - 1]) + [msgs[arrivals[|arrivals| - 1]]]
  }

  /** What the tables make of one more message. */
  lemma ReceiveSnoc(key: Key, msgs: seq<Sealed>, msg: Sealed)
    ensures var (rows, out) := Receive(key, msgs);
            var (rows', plain) := Decrypt(rows, msg);
            Receive(key, msgs + [msg]) == (rows', out + [plain])
  {
    assert (msgs + [msg])[..|msgs|] == msgs;
  }

  ghost predicate Follows(seed: Key, texts: seq<string>, r0: nat, arrivals: seq<nat>)
    requires forall i :: 0 <= i < |arrivals| ==> arrivals[i] < |texts|
  {
    var (rows, out) := Receive(Nth(seed, r0), Pick(Chain(seed, texts).1, arrivals));
    && OnChain(rows, seed, Follow(r0, arrivals).active, Follow(r0, arrivals).history)
    && forall i :: 0 <= i < |arrivals| ==>
         out[i] == if Admitted(r0, arrivals, i) then Some(texts[arrivals[i]]) else None
  }

  lemma FollowsSnoc(seed: Key, texts: seq<string>, r0: nat, init: seq<nat>, j: nat)
    requires seed.Seed? && j < |texts| && forall i :: 0 <= i < |init| ==> init[i] < |texts|
    requires Follows(seed, texts, r0, init)
    ensures Follows(seed, texts, r0, init + [j])
  {
    var t := Follow(r0, init);
    var (rows, out) := Receive(Nth(seed, r0), Pick(Chain(seed, texts).1, init));
    PickSnoc(seed, texts, r0, init, j);
    WindowExact(rows, seed, t.active, t.history, j, texts[j]);
    FollowSnoc(r0, init, j);
    OutcomesSnoc(texts, r0, init, j, out, Decrypt(rows, Sealed(Nth(seed, j), texts[j])).1);
  }

  /** The outcomes with one more arrival. */
  lemma OutcomesSnoc(texts: seq<string>, r0: nat, init: seq<nat>, j: nat, out: seq<Option<string>>,
                     plain: Option<string>)
    requires j < |texts| && |out| == |init| && forall i :: 0 <= i < |init| ==> init[i] < |texts|
    requires forall i :: 0 <= i < |init| ==> out[i] == if Admitted(r0, init, i) then Some(texts[init[i]]) else None
    requires plain == if Accepts(Follow(r0, init).active, Follow(r0, init).history, j) then Some(texts[j]) else None
    ensures forall i :: 0 <= i < |init + [j]| ==>
              (out + [plain])[i] == if Admitted(r0, init + [j], i) then Some(texts[(init + [j])[i]]) else None
  {
    AdmittedPrefix(r0, init, j);
  }

  /** One more arrival, as a step of the tables. */
  lemma PickSnoc(seed: Key, texts: seq<string>, r0: nat, init: seq<nat>, j: nat)
    requires seed.Seed? && j < |texts| && forall i :: 0 <= i < |init| ==> init[i] < |texts|
    ensures var (rows, out) := Receive(Nth(seed, r0), Pick(Chain(seed, texts).1, init));
            var (rows', plain) := Decrypt(rows, Sealed(Nth(seed, j), texts[j]));
            Receive(Nth(seed, r0), Pick(Chain(seed, texts).1, init + [j])) == (rows', out + [plain])
  {
    var msgs := Chain(seed, texts).1;
    SenderOnChain(seed, texts);
    assert (init + [j])[..|init|] == init;
    ReceiveSnoc(Nth(seed, r0), Pick(msgs, init), msgs[j]);
  }

  /** The tables follow the indices: every arrival opens exactly when the window admits it. */
  lemma {:induction false} ReceiverOnChain(seed: Key, texts: seq<string>, r0: nat, arrivals: seq<nat>)
    requires seed.Seed? && forall i :: 0 <= i < |arrivals| ==> arrivals[i] < |texts|
    ensures var (rows, out) := Receive(Nth(seed, r0), Pick(Chain(seed, texts).1, arrivals));
            && OnChain(rows, seed, Follow(r0, arrivals).active, Follow(r0, arrivals).history)
            && forall i :: 0 <= i < |arrivals| ==>
                 out[i] == if Admitted(r0, arrivals, i) then Some(texts[arrivals[i]]) else None
  {
    if arrivals != [] {
      var init, j := arrivals[..|arrivals| - 1], arrivals[|arrivals| - 1];
      assert arrivals == init + [j];
      ReceiverOnChain(seed, texts, r0, init);
      assert Follows(seed, texts, r0, init);
      FollowsSnoc(seed, texts, r0, init, j);
    }
  }

  lemma AdmittedPrefix(r0: nat, arrivals: seq<nat>, j: nat)
    ensures forall i :: 0 <= i < |arrivals| ==> Admitted(r0, arrivals + [j], i) == Admitted(r0, arrivals, i)
    ensures Admitted(r0, arrivals + [j], |arrivals|)
         == Accepts(Follow(r0, arrivals).active, Follow(r0, arrivals).history, j)
  {
    var all := arrivals + [j];
    assert all[..|arrivals|] == arrivals;
    forall i | 0 <= i < |arrivals|
      ensures Admitted(r0, all, i) == Admitted(r0, arrivals, i)
    {
      assert all[..i] == arrivals[..i];
    }
  }

  /** The i-th arrival lies in the window the receiver has at that moment. */
  predicate Admitted(r0: nat, arrivals: seq<nat>, i: nat)
    requires i < |arrivals|
  {
    var t := Follow(r0, arrivals[..i]);
    Accepts(t.active, t.history, arrivals[i])
  }

  // ---------------------------------------------------------------- main results

  /** From one saved key on, the history is always the last twenty values of the active index. */
  lemma {:induction false} HistoryIsLastTwenty(seed: Key, texts: seq<string>, r0: nat, arrivals: seq<nat>)
    requires seed.Seed? && forall i :: 0 <= i < |arrivals| ==> arrivals[i] < |texts|
    ensures var (rows, _) := Receive(Nth(seed, r0), Pick(Chain(seed, texts).1, arrivals));
            var t := Follow(r0, arrivals);
            && OnChain(rows, seed, t.active, LastN(t.visited, HISTORY_SIZE))
            && t.visited != [] && t.visited[0] == r0 && t.visited[|t.visited| - 1] == t.active
            && (forall i, j :: 0 <= i < j < |t.visited| ==> t.visited[i] < t.visited[j])
  {
    ReceiverOnChain(seed, texts, r0, arrivals);
    FollowKeepsTrack(r0, arrivals);
    FirstVisited(r0, arrivals);
  }

  lemma {:induction false} FirstVisited(r0: nat, arrivals: seq<nat>)
    ensures Follow(r0, arrivals).visited != [] && Follow(r0, arrivals).visited[0] == r0
  {
    if arrivals != [] {
      FirstVisited(r0, arrivals[..|arrivals| - 1]);
    }
  }

  /** Whatever arrives in whatever order, the receiver's active key never passes the sender's. */
  lemma {:induction false} ActiveNeverPassesSender(seed: Key, texts: seq<string>, r0: nat, arrivals: seq<nat>)
    requires seed.Seed? && r0 <= |texts| && forall i :: 0 <= i < |arrivals| ==> arrivals[i] < |texts|
    ensures var (rows, _) := Receive(Nth(seed, r0), Pick(Chain(seed, texts).1, arrivals));
            && rows.active == Some(Nth(seed, Follow(r0, arrivals).active))
            && r0 <= Follow(r0, arrivals).active <= |texts|
            && Chain(seed, texts).0.active == Some(Nth(seed, |texts|))
  {
    ReceiverOnChain(seed, texts, r0, arrivals);
    SenderOnChain(seed, texts);
    NeverPassesSender(r0, arrivals, |texts|);
    FollowKeepsTrack(r0, arrivals);
    FirstVisited(r0, arrivals);
  }

  lemma {:induction false} NeverPassesSender(r0: nat, arrivals: seq<nat>, sent: nat)
    requires r0 <= sent && forall i :: 0 <= i < |arrivals| ==> arrivals[i] < sent
    ensures Follow(r0, arrivals).active <= sent
  {
    if arrivals != [] {
      NeverPassesSender(r0, arrivals[..|arrivals| - 1], sent);
    }
  }

  /** Arrivals in increasing order, from the saved key on. */
  ghost predicate Increasing(r0: nat, arrivals: seq<nat>) {
    && (arrivals != [] ==> r0 <= arrivals[0])
    && forall i :: 0 < i < |arrivals| ==> arrivals[i - 1] < arrivals[i]
  }

  /** How many messages are missing just before the i-th arrival. */
  function Missing(r0: nat, arrivals: seq<nat>, i: nat): int
    requires i < |arrivals|
  {
    arrivals[i] as int - (if i == 0 then r0 else arrivals[i - 1] + 1)
  }

  lemma {:induction false} SmallGapsFollow(r0: nat, arrivals: seq<nat>)
    requires Increasing(r0, arrivals)
    requires forall i :: 0 <= i < |arrivals| ==> Missing(r0, arrivals, i) <= LOOK_AHEAD
    ensures Follow(r0, arrivals).active == if arrivals == [] then r0 else arrivals[|arrivals| - 1] + 1
    ensures forall i :: 0 <= i < |arrivals| ==> Admitted(r0, arrivals, i)
  {
    if arrivals != [] {
      var init := arrivals[..|arrivals| - 1];
      forall i | 0 <= i < |init|
        ensures Missing(r0, init, i) <= LOOK_AHEAD
      {
        assert Missing(r0, arrivals, i) <= LOOK_AHEAD;
      }
      SmallGapsFollow(r0, init);
      FollowKeepsTrack(r0, init);
      assert Missing(r0, arrivals, |init|) <= LOOK_AHEAD;
      forall i | 0 <= i < |arrivals|
        ensures Admitted(r0, arrivals, i)
      {
        assert arrivals[..i] == init[..i];
        if i < |init| {
          assert Admitted(r0, init, i);
        }
      }
      HistoryBelow(r0, init);
    }
  }

  /** Nothing in the history lies above the active index. */
  lemma HistoryBelow(r0: nat, arrivals: seq<nat>)
    ensures forall k :: k in Follow(r0, arrivals).history ==> k <= Follow(r0, arrivals).active
  {
    FollowKeepsTrack(r0, arrivals);
  }

  lemma TooFarAhead(t: Track, j: nat)
    requires TrackOK(t) && j > t.active + LOOK_AHEAD
    ensures Arrive(t, j) == t && !Accepts(t.active, t.history, j)
  {
    assert forall i :: 0 <= i < |t.history| ==> t.history[i] <= t.active;
  }

  /** Beyond the look-ahead nothing opens, and with increasing arrivals nothing ever will again. */
  lemma {:induction false} StuckAfterGap(r0: nat, before: seq<nat>, after: seq<nat>)
    requires forall i :: 0 <= i < |after| ==> after[i] > Follow(r0, before).active + LOOK_AHEAD
    ensures Follow(r0, before + after) == Follow(r0, before)
    ensures forall i :: |before| <= i < |before| + |after| ==> !Admitted(r0, before + after, i)
    decreases |after|
  {
    if after == [] {
      assert before + after == before;
    } else {
      var init, last := after[..|after| - 1], after[|after| - 1];
      assert before + after == (before + init) + [last];
      StuckAfterGap(r0, before, init);
      FollowKeepsTrack(r0, before);
      TooFarAhead(Follow(r0, before), last);
      FollowSnoc(r0, before + init, last);
      AdmittedPrefix(r0, before + init, last);
    }
  }

  /** The index side of the next result. */
  lemma AllAdmittedExactly(r0: nat, arrivals: seq<nat>)
    requires Increasing(r0, arrivals)
    ensures (forall i :: 0 <= i < |arrivals| ==> Admitted(r0, arrivals, i))
       <==> (forall i :: 0 <= i < |arrivals| ==> Missing(r0, arrivals, i) <= LOOK_AHEAD)
  {
    if i :| 0 <= i < |arrivals| && Missing(r0, arrivals, i) > LOOK_AHEAD {
      var k := FirstGap(r0, arrivals, i);
      GapIsFatal(r0, arrivals, k);
      assert !Admitted(r0, arrivals, k);
    } else {
      SmallGapsFollow(r0, arrivals);
    }
  }

  /** From the first gap of more than ten on, every arrival lies beyond the look-ahead. */
  lemma {:induction false} BeyondLookAhead(r0: nat, arrivals: seq<nat>, k: nat, i: nat)
    requires Increasing(r0, arrivals) && k <= i < |arrivals| && Missing(r0, arrivals, k) > LOOK_AHEAD
    requires forall m :: 0 <= m < k ==> Missing(r0, arrivals[..k], m) <= LOOK_AHEAD
    ensures arrivals[i] > Follow(r0, arrivals[..k]).active + LOOK_AHEAD
    decreases i
  {
    if i > k {
      BeyondLookAhead(r0, arrivals, k, i - 1);
    } else {
      SmallGapsFollow(r0, arrivals[..k]);
    }
  }

  /** With increasing arrivals, from the first gap of more than ten on nothing opens any more. */
  lemma {:induction false} GapIsFatal(r0: nat, arrivals: seq<nat>, k: nat)
    requires Increasing(r0, arrivals) && k < |arrivals| && Missing(r0, arrivals, k) > LOOK_AHEAD
    requires forall m :: 0 <= m < k ==> Missing(r0, arrivals[..k], m) <= LOOK_AHEAD
    ensures forall i :: k <= i < |arrivals| ==> !Admitted(r0, arrivals, i)
  {
    var before, after := arrivals[..k], arrivals[k..];
    forall i | 0 <= i < |after|
      ensures after[i] > Follow(r0, before).active + LOOK_AHEAD
    {
      BeyondLookAhead(r0, arrivals, k, k + i);
    }
    StuckAfterGap(r0, before, after);
    assert before + after == arrivals;
  }

  /**
   Increasing arrivals all decrypt, to the texts sent, if and only if never more than ten consecutive
   messages are missing between them; the run may be as long as one likes.
   */
  lemma {:induction false} IncreasingArrivalsDecrypt(seed: Key, texts: seq<string>, r0: nat, arrivals: seq<nat>)
    requires seed.Seed? && Increasing(r0, arrivals)
    requires forall i :: 0 <= i < |arrivals| ==> arrivals[i] < |texts|
    ensures var out := Receive(Nth(seed, r0), Pick(Chain(seed, texts).1, arrivals)).1;
            (forall i :: 0 <= i < |arrivals| ==> out[i] == Some(texts[arrivals[i]]))
            <==> (forall i :: 0 <= i < |arrivals| ==> Missing(r0, arrivals, i) <= LOOK_AHEAD)
  {
    ReceiverOnChain(seed, texts, r0, arrivals);
    AllAdmittedExactly(r0, arrivals);
    var out := Receive(Nth(seed, r0), Pick(Chain(seed, texts).1, arrivals)).1;
    assert forall i :: 0 <= i < |arrivals| ==> (out[i] == Some(texts[arrivals[i]]) <==> Admitted(r0, arrivals, i));
  }

  lemma {:induction false} FirstGap(r0: nat, arrivals: seq<nat>, i: nat) returns (k: nat)
    requires i < |arrivals| && Missing(r0, arrivals, i) > LOOK_AHEAD
    ensures k < |arrivals| && Missing(r0, arrivals, k) > LOOK_AHEAD
    ensures forall m :: 0 <= m < k ==> Missing(r0, arrivals[..k], m) <= LOOK_AHEAD
  {
    k := i;
    if m :| 0 <= m < i && Missing(r0, arrivals, m) > LOOK_AHEAD {
      k := FirstGap(r0, arrivals, m);
    } else {
      forall m | 0 <= m < k
        ensures Missing(r0, arrivals[..k], m) <= LOOK_AHEAD
      {
        assert Missing(r0, arrivals, m) <= LOOK_AHEAD;
      }
    }
  }

  /** Below the active index and no longer (or never) in the history. */
  predicate Lost(t: Track, i: nat) {
    i < t.active && i !in t.history
  }

  /**
   What the look-ahead passes over is lost for good: an index below the active one and outside the
   history stays out of the window through every later run.
   */
  lemma {:induction false} LostStaysLost(r0: nat, before: seq<nat>, after: seq<nat>, i: nat)
    requires Lost(Follow(r0, before), i)
    ensures Lost(Follow(r0, before + after), i)
    ensures !Accepts(Follow(r0, before + after).active, Follow(r0, before + after).history, i)
  {
    if after == [] {
      assert before + after == before;
    } else {
      var init, last := after[..|after| - 1], after[|after| - 1];
      assert before + after == (before + init) + [last];
      LostStaysLost(r0, before, init, i);
      FollowKeepsTrack(r0, before + init);
      FollowSnoc(r0, before + init, last);
      ArriveKeepsLost(Follow(r0, before + init), last, i);
    }
  }

  lemma ArriveKeepsLost(t: Track, j: nat, i: nat)
    requires TrackOK(t) && Lost(t, i)
    ensures Lost(Arrive(t, j), i)
  {
    ArriveKeepsTrack(t, j);
  }

  /** A look-ahead hit at `j` loses every index from just above the active one up to `j` itself. */
  lemma {:induction false} LookAheadLoses(r0: nat, before: seq<nat>, j: nat, i: nat)
    requires var t := Follow(r0, before);
             t.active < j <= t.active + LOOK_AHEAD && t.active < i <= j
    ensures Lost(Follow(r0, before + [j]), i)
  {
    var t := Follow(r0, before);
    FollowSnoc(r0, before, j);
    HistoryBelow(r0, before);
    assert j !in t.history && i !in t.history;
    assert forall k :: k in NextHistory(t.active, t.history, j) ==> k in t.history || k == j + 1;
  }

  /**
   The price of the look-ahead, on the real tables: once message `j` ahead of the active index has
   opened, no message from just above that index up to `j` opens again, however the run goes on.
   */
  lemma {:induction false} PassedOverNeverOpens(seed: Key, texts: seq<string>, r0: nat, before: seq<nat>, j: nat,
                                                after: seq<nat>, k: nat)
    requires seed.Seed?
    requires var arrivals := before + [j] + after;
             && (forall i :: 0 <= i < |arrivals| ==> arrivals[i] < |texts|)
             && |before| < k < |arrivals|
             && var r := Follow(r0, before).active;
                r < j <= r + LOOK_AHEAD && r < arrivals[k] <= j
    ensures Receive(Nth(seed, r0), Pick(Chain(seed, texts).1, before + [j] + after)).1[k] == None
  {
    ReceiverOnChain(seed, texts, r0, before + [j] + after);
    PassedOverNotAdmitted(r0, before, j, after, k);
  }

  lemma PassedOverNotAdmitted(r0: nat, before: seq<nat>, j: nat, after: seq<nat>, k: nat)
    requires var arrivals := before + [j] + after;
             && |before| < k < |arrivals|
             && var r := Follow(r0, before).active;
                r < j <= r + LOOK_AHEAD && r < arrivals[k] <= j
    ensures !Admitted(r0, before + [j] + after, k)
  {
    var arrivals := before + [j] + after;
    LookAheadLoses(r0, before, j, arrivals[k]);
    var middle := arrivals[|before| + 1..k];
    LostStaysLost(r0, before + [j], middle, arrivals[k]);
    assert arrivals[..k] == (before + [j]) + middle;
  }
}
