/**
 The key bundles that members share: what a sender prints, and what becomes of the rows of a receiver,
 whether it has keys of that sender already or not.
 */
module GroupBundles {
  import opened Prelude
  import opened Text
  import opened Group
  import opened GroupRuns

  // ---------------------------------------------------------------- key bundles

  /** Rows as a sender has them: no key twice, at most twenty, the newest one active. */
  ghost predicate BundleRows<K(!new)>(rows: KeyRows<K>) {
    && rows.history != [] && |rows.history| <= HISTORY_SIZE
    && Distinct(rows.history)
    && rows.active == Some(rows.history[|rows.history| - 1])
  }

  /** Saving a key not yet in the history keeps the rows in that form. */
  lemma SaveKeepsBundleRows<K(!new)>(rows: KeyRows<K>, key: K)
    requires (rows == KeyRows(None, []) || BundleRows(rows)) && key !in rows.history
    ensures BundleRows(SaveKey(rows, key))
  {
  }

  /** Every sender's rows are of that form, with its current key active. */
  lemma SenderRows(seed: Key, texts: seq<string>)
    requires seed.Seed?
    ensures BundleRows(Chain(seed, texts).0)
    ensures Chain(seed, texts).0.active == Some(Nth(seed, |texts|))
  {
    SenderOnChain(seed, texts);
    UpToAt(|texts|);
    var rows, h := Chain(seed, texts).0, LastN(UpTo(|texts|), HISTORY_SIZE);
    forall i, j | 0 <= i < j < |rows.history|
      ensures rows.history[i] != rows.history[j]
    {
      if Nth(seed, h[i]) == Nth(seed, h[j]) {
        NthInjective(seed, h[i], h[j]);
      }
    }
  }

  lemma {:induction false} ReverseSnoc<T>(s: seq<T>, x: T)
    ensures Reverse(s + [x]) == [x] + Reverse(s)
  {
    if s != [] {
      assert (s + [x])[1..] == s[1..] + [x];
      ReverseSnoc(s[1..], x);
    }
  }

  lemma {:induction false} EncodedAt<K>(keys: seq<K>, encode: K -> string)
    ensures |Encoded(keys, encode)| == |keys|
    ensures forall i :: 0 <= i < |keys| ==> Encoded(keys, encode)[i] == encode(keys[i])
  {
    if keys != [] {
      EncodedAt(keys[1..], encode);
    }
  }

  /** Saving keys one after the other. */
  function SaveAll<K(==)>(rows: KeyRows<K>, keys: seq<K>): KeyRows<K> {
    if keys == [] then rows else SaveKey(SaveAll(rows, keys[..|keys| - 1]), keys[|keys| - 1])
  }

  /** Printing newest first and reading last to first cancel out: the keys are saved in the order of the history. */
  lemma {:induction false} SaveReversed<K(!new)>(rows: KeyRows<K>, h: seq<K>, encode: K -> string,
                                          decode: string -> Option<K>)
    requires forall k :: decode(encode(k)) == Some(k)
    ensures SaveFields(rows, Encoded(Reverse(h), encode), decode) == SaveAll(rows, h)
  {
    if h != [] {
      var init, last := h[..|h| - 1], h[|h| - 1];
      assert h == init + [last];
      ReverseSnoc(init, last);
      var fields := Encoded(Reverse(h), encode);
      assert Reverse(h)[1..] == Reverse(init);
      assert fields[1..] == Encoded(Reverse(init), encode);
      assert fields[0] == encode(last);
      SaveReversed(rows, init, encode, decode);
    }
  }

  /** From nothing, saving a history rebuilds it. */
  lemma {:induction false} SaveAllFromNothing<K(!new)>(h: seq<K>)
    requires Distinct(h) && 0 < |h| <= HISTORY_SIZE
    ensures SaveAll(KeyRows(None, []), h) == KeyRows(Some(h[|h| - 1]), h)
  {
    var init, last := h[..|h| - 1], h[|h| - 1];
    assert h == init + [last];
    DistinctSnoc(init, last);
    if init != [] {
      SaveAllFromNothing(init);
    }
  }

  /** How keys are spelled: text without separators that decodes to the key again. */
  ghost predicate FaithfulKeys<K(!new)>(encode: K -> string, decode: string -> Option<K>) {
    forall k :: decode(encode(k)) == Some(k) && ',' !in encode(k)
  }

  /**
   The bundle round trip: a receiver without keys for that sender ends with the sender's own rows,
   the same key active and the same history in the same order.
   */
  lemma BundleRoundTrip<K(!new)>(groupId: string, rows: KeyRows<K>, key: K, encode: K -> string,
                          decode: string -> Option<K>)
    requires BundleRows(rows) && ':' !in groupId && FaithfulKeys(encode, decode)
    ensures var parsed := ParseGKEY(PrintGKEY(groupId, SharedKeys(rows, key), encode));
            && parsed.Some? && parsed.value.0 == groupId
            && SaveFields(KeyRows(None, []), parsed.value.1, decode) == rows
  {
    ReverseLength(rows.history);
    ParseReadsPrinted(groupId, SharedKeys(rows, key), encode);
    SaveReversed(KeyRows(None, []), rows.history, encode, decode);
    SaveAllFromNothing(rows.history);
  }

  /** A member without a history shares just the given key, which the receiver then has active, and nothing else. */
  lemma FirstBundle<K(!new)>(groupId: string, rows: KeyRows<K>, key: K, encode: K -> string,
                             decode: string -> Option<K>)
    requires rows.history == [] && ':' !in groupId && FaithfulKeys(encode, decode)
    ensures var parsed := ParseGKEY(PrintGKEY(groupId, SharedKeys(rows, key), encode));
            && parsed.Some? && parsed.value.0 == groupId
            && SaveFields(KeyRows(None, []), parsed.value.1, decode) == KeyRows(Some(key), [key])
  {
    ParseReadsPrinted(groupId, [key], encode);
    assert Reverse([key]) == [key] by {
      assert [key][1..] == [];
    }
    SaveReversed(KeyRows(None, []), [key], encode, decode);
    assert [key][..0] == [];
    assert SaveAll(KeyRows(None, []), [key]) == SaveKey(KeyRows(None, []), key);
  }

  /** A text is a bundle exactly when it begins like one and has a second separator. */
  lemma BundleParsesExactly(content: string)
    ensures ParseGKEY(content).Some? <==> HasPrefix(content, "GKEY:") && Count(content, ':') >= 2
  {
    SplitNCount(content, ':', 3);
  }

  lemma BundleText(groupId: string, rest: string)
    ensures WithFields(["GKEY", groupId], ':', rest) == "GKEY" + [':'] + (groupId + [':'] + rest)
    ensures HasPrefix(WithFields(["GKEY", groupId], ':', rest), "GKEY:")
  {
    var fields := ["GKEY", groupId];
    assert fields[1..] == [groupId] && fields[1..][1..] == [];
    assert WithFields(fields[1..], ':', rest) == groupId + [':'] + rest;
    assert ("GKEY" + [':'] + (groupId + [':'] + rest))[..5] == "GKEY:";
  }

  /** The receiver gets the group and the fields as they were printed. */
  lemma {:induction false} ParseReadsPrinted<K(!new)>(groupId: string, keys: seq<K>, encode: K -> string)
    requires keys != [] && ':' !in groupId && forall k :: ',' !in encode(k)
    ensures ParseGKEY(PrintGKEY(groupId, keys, encode)) == Some((groupId, Encoded(keys, encode)))
  {
    var fields := Encoded(keys, encode);
    var rest := Join(fields, ',');
    EncodedAt(keys, encode);
    SplitJoin(fields, ',');
    BundleText(groupId, rest);
    SplitNField("GKEY", ':', groupId + [':'] + rest, 3);
    SplitNField(groupId, ':', rest, 2);
  }

  lemma {:induction false} ReverseLength<T>(s: seq<T>)
    ensures |Reverse(s)| == |s|
  {
    if s != [] {
      ReverseLength(s[1..]);
    }
  }

  // ---------------------------------------------------------------- every sender

  /** What changes a member's own key: a message rotates it, a departing member makes it draw a new one. */
  datatype LocalStep = Message | Renew(id: nat)

  function LocalRows(first: nat, steps: seq<LocalStep>): (rows: KeyRows<Key>)
    ensures rows.active.Some?
  {
    if steps == [] then SaveKey(KeyRows(None, []), Seed(first))
    else
      var rows := LocalRows(first, steps[..|steps| - 1]);
      match steps[|steps| - 1]
      case Message => SaveKey(rows, Rotated(rows.active.value))
      case Renew(id) => SaveKey(rows, Seed(id))
  }

  /** The random keys drawn so far. */
  function Drawn(first: nat, steps: seq<LocalStep>): seq<nat> {
    if steps == [] then [first]
    else
      var before := Drawn(first, steps[..|steps| - 1]);
      match steps[|steps| - 1]
      case Message => before
      case Renew(id) => before + [id]
  }

  function Origin(key: Key): nat {
    match key
    case Seed(id) => id
    case Rotated(k) => Origin(k)
  }

  function Depth(key: Key): nat {
    match key
    case Seed(_) => 0
    case Rotated(k) => Depth(k) + 1
  }

  /** No stored key is younger than the active one of the same origin, and none has an origin not yet drawn. */
  ghost predicate LocalOK(rows: KeyRows<Key>, drawn: seq<nat>) {
    && BundleRows(rows)
    && (forall key :: key in rows.history ==> Origin(key) in drawn)
    && (forall key :: key in rows.history && Origin(key) == Origin(rows.active.value) ==>
          Depth(key) <= Depth(rows.active.value))
  }

  lemma RotationKeepsLocal(rows: KeyRows<Key>, drawn: seq<nat>)
    requires LocalOK(rows, drawn)
    ensures LocalOK(SaveKey(rows, Rotated(rows.active.value)), drawn)
  {
    assert rows.active.value in rows.history;
    SaveKeepsBundleRows(rows, Rotated(rows.active.value));
  }

  lemma RenewalKeepsLocal(rows: KeyRows<Key>, drawn: seq<nat>, id: nat)
    requires LocalOK(rows, drawn) && id !in drawn
    ensures LocalOK(SaveKey(rows, Seed(id)), drawn + [id])
  {
    SaveKeepsBundleRows(rows, Seed(id));
    assert (drawn + [id])[|drawn|] == id;
    assert forall x :: x in drawn ==> x in drawn + [id];
  }

  lemma {:induction false} LocalRowsOK(first: nat, steps: seq<LocalStep>)
    requires Distinct(Drawn(first, steps))
    ensures LocalOK(LocalRows(first, steps), Drawn(first, steps))
  {
    if steps == [] {
      SaveKeepsBundleRows(KeyRows(None, []), Seed(first));
    } else {
      var init := steps[..|steps| - 1];
      var rows, drawn := LocalRows(first, init), Drawn(first, init);
      match steps[|steps| - 1] {
        case Message =>
          LocalRowsOK(first, init);
          RotationKeepsLocal(rows, drawn);
        case Renew(id) =>
          DistinctSnoc(drawn, id);
          LocalRowsOK(first, init);
          RenewalKeepsLocal(rows, drawn, id);
      }
    }
  }

  /**
   For every sender, however many messages it sent and keys it drew: a receiver without its keys ends,
   after its bundle, with exactly its rows.
   */
  lemma SenderBundleArrives(groupId: string, first: nat, steps: seq<LocalStep>, key: Key, encode: Key -> string,
                            decode: string -> Option<Key>)
    requires Distinct(Drawn(first, steps)) && ':' !in groupId && FaithfulKeys(encode, decode)
    ensures var rows := LocalRows(first, steps);
            var parsed := ParseGKEY(PrintGKEY(groupId, SharedKeys(rows, key), encode));
            && parsed.Some? && parsed.value.0 == groupId
            && SaveFields(KeyRows(None, []), parsed.value.1, decode) == rows
  {
    LocalRowsOK(first, steps);
    BundleRoundTrip(groupId, LocalRows(first, steps), key, encode, decode);
  }

  /** In particular after any number of messages on one chain. */
  lemma {:induction false} ChainBundleArrives(groupId: string, seed: Key, texts: seq<string>, key: Key,
                                              encode: Key -> string, decode: string -> Option<Key>)
    requires seed.Seed? && ':' !in groupId && FaithfulKeys(encode, decode)
    ensures var rows := Chain(seed, texts).0;
            var parsed := ParseGKEY(PrintGKEY(groupId, SharedKeys(rows, key), encode));
            && parsed.Some? && parsed.value.0 == groupId
            && SaveFields(KeyRows(None, []), parsed.value.1, decode) == rows
  {
    SenderRows(seed, texts);
    BundleRoundTrip(groupId, Chain(seed, texts).0, key, encode, decode);
  }

  // ---------------------------------------------------------------- a bundle on top of other keys

  /** Distinct things that all occur in a list are not more than the list is long. */
  lemma {:induction false} Pigeonhole<K(!new)>(u: seq<K>, v: seq<K>)
    requires Distinct(u) && forall x :: x in u ==> x in v
    ensures |u| <= |v|
  {
    if u != [] {
      var x := u[|u| - 1];
      assert x in u;
      var k :| 0 <= k < |v| && v[k] == x;
      var rest := v[..k] + v[k + 1..];
      forall y | y in u[..|u| - 1]
        ensures y in rest
      {
        assert y in v && y != x;
        var m :| 0 <= m < |v| && v[m] == y;
        assert rest[if m < k then m else m - 1] == y;
      }
      Pigeonhole(u[..|u| - 1], rest);
    }
  }

  /** The history after one key, and after several, were saved. */
  function SaveOne<K(==)>(h: seq<K>, key: K): seq<K> {
    LastN(if key in h then h else h + [key], HISTORY_SIZE)
  }

  function SaveMany<K(==)>(h: seq<K>, keys: seq<K>): seq<K> {
    if keys == [] then h else SaveOne(SaveMany(h, keys[..|keys| - 1]), keys[|keys| - 1])
  }

  /** Part way through a bundle: what is not of the bundle stands in front, and its first `n` keys are present. */
  ghost predicate PartSaved<K(!new)>(h: seq<K>, keys: seq<K>, n: nat)
    requires n <= |keys|
  {
    && Distinct(h) && |h| <= HISTORY_SIZE
    && (forall i, j :: 0 <= i < j < |h| && h[j] !in keys ==> h[i] !in keys)
    && (forall m :: 0 <= m < n ==> keys[m] in h)
  }

  /** When the list is full, the entry that a missing key pushes out is not of the bundle. */
  lemma OldestIsOutside<K(!new)>(h: seq<K>, keys: seq<K>, n: nat)
    requires n < |keys| <= HISTORY_SIZE && PartSaved(h, keys, n)
    requires keys[n] !in h && |h| == HISTORY_SIZE
    ensures h[0] !in keys
  {
    if h[0] in keys {
      var g := h + [keys[n]];
      forall x | x in g
        ensures x in keys
      {
        if x in h {
          var m :| 0 <= m < |h| && h[m] == x;
          if m > 0 {
            assert h[m] in keys;
          }
        }
      }
      Pigeonhole(g, keys);
      assert false;
    }
  }

  /** One key more at the end, before the list is cut to size. */
  lemma OneMore<K(!new)>(h: seq<K>, keys: seq<K>, n: nat)
    requires n < |keys| && PartSaved(h, keys, n) && keys[n] !in h
    ensures var g := h + [keys[n]];
            && Distinct(g)
            && (forall i, j :: 0 <= i < j < |g| && g[j] !in keys ==> g[i] !in keys)
            && (forall m :: 0 <= m < n + 1 ==> keys[m] in g)
  {
    var g := h + [keys[n]];
    forall m | 0 <= m < n + 1
      ensures keys[m] in g
    {
      if m == n {
        assert g[|h|] == keys[m];
      } else {
        assert keys[m] in h;
      }
    }
  }

  /** Cutting off an oldest entry that is not of the bundle. */
  lemma CutOldest<K(!new)>(g: seq<K>, keys: seq<K>, n: nat)
    requires n <= |keys| && Distinct(g) && |g| == HISTORY_SIZE + 1 && g[0] !in keys
    requires forall i, j :: 0 <= i < j < |g| && g[j] !in keys ==> g[i] !in keys
    requires forall m :: 0 <= m < n ==> keys[m] in g
    ensures PartSaved(g[1..], keys, n)
  {
    forall m | 0 <= m < n
      ensures keys[m] in g[1..]
    {
      assert keys[m] in g && keys[m] in keys;
      var i :| 0 <= i < |g| && g[i] == keys[m];
      assert g[1..][i - 1] == keys[m];
    }
  }

  lemma SaveOneMore<K(!new)>(h: seq<K>, keys: seq<K>, n: nat)
    requires n < |keys| <= HISTORY_SIZE && PartSaved(h, keys, n)
    ensures PartSaved(SaveOne(h, keys[n]), keys, n + 1)
  {
    if keys[n] !in h {
      OneMore(h, keys, n);
      if |h| == HISTORY_SIZE {
        OldestIsOutside(h, keys, n);
        CutOldest(h + [keys[n]], keys, n + 1);
      }
    }
  }

  lemma {:induction false} SaveManyKeeps<K(!new)>(h: seq<K>, keys: seq<K>, n: nat)
    requires n <= |keys| <= HISTORY_SIZE && PartSaved(h, keys, 0)
    ensures PartSaved(SaveMany(h, keys[..n]), keys, n)
  {
    if n > 0 {
      SaveManyKeeps(h, keys, n - 1);
      SaveManyStep(h, keys, n);
    }
  }

  lemma {:induction false} SaveManyStep<K(!new)>(h: seq<K>, keys: seq<K>, n: nat)
    requires 0 < n <= |keys| <= HISTORY_SIZE && PartSaved(SaveMany(h, keys[..n - 1]), keys, n - 1)
    ensures PartSaved(SaveMany(h, keys[..n]), keys, n)
  {
    var before, k := SaveMany(h, keys[..n - 1]), n - 1;
    SaveOneMore(before, keys, k);
    assert keys[..n][..k] == keys[..k];
    assert SaveMany(h, keys[..n]) == SaveOne(before, keys[k]);
  }

  /** Every entry of the new history is an old one or one of the bundle. */
  lemma {:induction false} SaveManyAdds<K(!new)>(h: seq<K>, keys: seq<K>)
    ensures forall x :: x in SaveMany(h, keys) ==> x in h || x in keys
  {
    if keys != [] {
      SaveManyAdds(h, keys[..|keys| - 1]);
    }
  }

  /** A full bundle leaves no room for anything else. */
  lemma NothingElse<K(!new)>(h: seq<K>, keys: seq<K>)
    requires Distinct(keys) && |keys| == HISTORY_SIZE && PartSaved(h, keys, HISTORY_SIZE)
    ensures forall x :: x in h ==> x in keys
  {
    if x :| x in h && x !in keys {
      var m :| 0 <= m < |h| && h[m] == x;
      assert h[0] !in keys;
      forall y | y in keys
        ensures y in h[1..]
      {
        var k :| 0 <= k < |keys| && keys[k] == y;
        assert y in h && y != h[0];
        assert h == [h[0]] + h[1..];
      }
      Pigeonhole(keys, h[1..]);
      assert false;
    }
  }

  /** The bundle's keys are all there afterwards, and when it is full or has all there was, no others. */
  lemma BundleReplaces<K(!new)>(h: seq<K>, keys: seq<K>)
    requires Distinct(keys) && |keys| <= HISTORY_SIZE && PartSaved(h, keys, 0)
    requires |keys| == HISTORY_SIZE || forall x :: x in h ==> x in keys
    ensures forall x :: x in SaveMany(h, keys) <==> x in keys
  {
    SaveManyKeeps(h, keys, |keys|);
    assert keys[..|keys|] == keys;
    SaveManyAdds(h, keys);
    if |keys| == HISTORY_SIZE {
      NothingElse(SaveMany(h, keys), keys);
    }
  }

  /** The rows after a bundle. */
  lemma {:induction false} SaveAllRows<K(!new)>(rows: KeyRows<K>, keys: seq<K>)
    requires keys != []
    ensures SaveAll(rows, keys) == KeyRows(Some(keys[|keys| - 1]), SaveMany(rows.history, keys))
  {
    if |keys| > 1 {
      SaveAllRows(rows, keys[..|keys| - 1]);
    }
  }

  // ---------------------------------------------------------------- a bundle in the middle of a run

  /** The indices `a .. a + n - 1`. */
  function Indices(a: nat, n: nat): (s: seq<nat>)
    ensures |s| == n && forall i :: 0 <= i < n ==> s[i] == a + i
  {
    if n == 0 then [] else Indices(a, n - 1) + [a + n - 1]
  }

  /** The oldest index of the bundle of a sender that stands at `s`, and all of them. */
  function Oldest(s: nat): nat {
    if s < HISTORY_SIZE then 0 else s - (HISTORY_SIZE - 1)
  }

  function BundleIndices(s: nat): seq<nat> {
    Indices(Oldest(s), s - Oldest(s) + 1)
  }

  lemma InBundle(s: nat, x: nat)
    ensures x in BundleIndices(s) <==> Oldest(s) <= x <= s
  {
    if Oldest(s) <= x <= s {
      assert BundleIndices(s)[x - Oldest(s)] == x;
    }
  }

  ghost predicate HoldsExactly(h: seq<nat>, first: nat, last: nat) {
    forall x: nat :: x in h <==> first <= x <= last
  }

  lemma HistoryIncreases(t: Track)
    requires TrackOK(t)
    ensures forall i, j :: 0 <= i < j < |t.history| ==> t.history[i] < t.history[j]
    ensures |t.history| <= HISTORY_SIZE
    ensures forall x :: x in t.history ==> x <= t.active
  {
    forall x | x in t.history
      ensures x <= t.active
    {
      assert x in t.visited;
    }
  }

  /** The history of a receiver that is not ahead stands in the order that the bundle needs. */
  lemma BundleReady(t: Track, s: nat)
    requires TrackOK(t) && t.active <= s
    ensures PartSaved(t.history, BundleIndices(s), 0) && Distinct(BundleIndices(s))
    ensures |BundleIndices(s)| == HISTORY_SIZE || forall x :: x in t.history ==> x in BundleIndices(s)
  {
    HistoryIncreases(t);
    forall i | 0 <= i < |t.history|
      ensures t.history[i] in BundleIndices(s) <==> Oldest(s) <= t.history[i]
    {
      assert t.history[i] in t.history;
      InBundle(s, t.history[i]);
    }
  }

  lemma HistoryIsBundle(t: Track, s: nat)
    requires TrackOK(t) && t.active <= s
    ensures forall x :: x in SaveMany(t.history, BundleIndices(s)) <==> x in BundleIndices(s)
  {
    BundleReady(t, s);
    BundleReplaces(t.history, BundleIndices(s));
  }

  /** A receiver that is not ahead of the bundle then holds the bundle's indices and no others. */
  lemma BundleReplacesHistory(t: Track, s: nat)
    requires TrackOK(t) && t.active <= s
    ensures HoldsExactly(SaveMany(t.history, BundleIndices(s)), Oldest(s), s)
  {
    HistoryIsBundle(t, s);
    forall x: nat
      ensures x in SaveMany(t.history, BundleIndices(s)) <==> Oldest(s) <= x <= s
    {
      InBundle(s, x);
    }
  }

  /** All that the receiver would open from its active index on, it still opens after the bundle. */
  ghost predicate KeepsWindow(t: Track, s: nat) {
    var h := SaveMany(t.history, BundleIndices(s));
    forall j {:trigger Accepts(s, h, j)} :: t.active <= j <= t.active + LOOK_AHEAD ==> Accepts(s, h, j)
  }

  /** After a bundle older than the receiver nothing is known of what lies above the receiver's own index. */
  lemma OlderBundle(t: Track, s: nat, j: nat)
    requires TrackOK(t) && s < t.active < j
    ensures Accepts(s, SaveMany(t.history, BundleIndices(s)), j) <==> j <= s + LOOK_AHEAD
  {
    HistoryIncreases(t);
    SaveManyAdds(t.history, BundleIndices(s));
    InBundle(s, j);
  }

  /** The window ahead survives if and only if the bundle is not older than the receiver, nor twenty or more ahead. */
  lemma KeepsWindowExactly(t: Track, s: nat)
    requires TrackOK(t)
    ensures KeepsWindow(t, s) <==> t.active <= s < t.active + HISTORY_SIZE
  {
    var h := SaveMany(t.history, BundleIndices(s));
    if t.active <= s {
      BundleReplacesHistory(t, s);
      if s >= t.active + HISTORY_SIZE {
        assert t.active < Oldest(s) && t.active !in h;
        assert !Accepts(s, h, t.active);
      }
    } else {
      OlderBundle(t, s, t.active + LOOK_AHEAD);
      assert !Accepts(s, h, t.active + LOOK_AHEAD);
    }
  }

  /** Saving a stretch of one chain, in terms of indices. */
  ghost predicate OnIndices(keys: seq<Key>, seed: Key, indices: seq<nat>) {
    |keys| == |indices| && forall i :: 0 <= i < |keys| ==> keys[i] == Nth(seed, indices[i])
  }

  lemma {:induction false} SaveAllOnChain(rows: KeyRows<Key>, seed: Key, r: nat, h: seq<nat>, indices: seq<nat>,
                                          keys: seq<Key>)
    requires seed.Seed? && OnChain(rows, seed, r, h) && keys != [] && OnIndices(keys, seed, indices)
    ensures OnChain(SaveAll(rows, keys), seed, indices[|indices| - 1], SaveMany(h, indices))
  {
    var last := |keys| - 1;
    if last == 0 {
      SaveOnChain(rows, seed, r, h, indices[0]);
      assert SaveMany(h, indices[..0]) == h;
    } else {
      SaveAllOnChain(rows, seed, r, h, indices[..last], keys[..last]);
      SaveOnChain(SaveAll(rows, keys[..last]), seed, indices[last - 1], SaveMany(h, indices[..last]), indices[last]);
    }
  }

  /** The rows of a receiver of `arrivals` after the bundle that a sender with the rows `own` printed. */
  function AfterBundle(seed: Key, texts: seq<string>, r0: nat, arrivals: seq<nat>, own: KeyRows<Key>, key: Key,
                       groupId: string, encode: Key -> string, decode: string -> Option<Key>): KeyRows<Key>
    requires forall i :: 0 <= i < |arrivals| ==> arrivals[i] < |texts|
  {
    var rows := Receive(Nth(seed, r0), Pick(Chain(seed, texts).1, arrivals)).0;
    match ParseGKEY(PrintGKEY(groupId, SharedKeys(own, key), encode))
    case None => rows
    case Some((_, fields)) => SaveFields(rows, fields, decode)
  }

  /** The bundle saves the sender's history, key by key, on top of what the receiver has. */
  lemma {:induction false} AfterBundleSaves(seed: Key, texts: seq<string>, r0: nat, arrivals: seq<nat>,
                                            own: KeyRows<Key>, key: Key, groupId: string,
                                            encode: Key -> string, decode: string -> Option<Key>)
    requires seed.Seed? && forall i :: 0 <= i < |arrivals| ==> arrivals[i] < |texts|
    requires own.history != [] && ':' !in groupId && FaithfulKeys(encode, decode)
    ensures AfterBundle(seed, texts, r0, arrivals, own, key, groupId, encode, decode)
         == SaveAll(Receive(Nth(seed, r0), Pick(Chain(seed, texts).1, arrivals)).0, own.history)
  {
    ReverseLength(own.history);
    ParseReadsPrinted(groupId, SharedKeys(own, key), encode);
    SaveReversed(Receive(Nth(seed, r0), Pick(Chain(seed, texts).1, arrivals)).0, own.history, encode, decode);
  }

  lemma UpToIsIndices(s: nat)
    ensures UpTo(s) == Indices(0, s + 1)
  {
    UpToAt(s);
  }

  lemma IndicesTail(n: nat, k: nat)
    requires k <= n
    ensures Indices(0, n)[k..] == Indices(k, n - k)
  {
  }

  lemma LastIndices(s: nat)
    ensures LastN(UpTo(s), HISTORY_SIZE) == BundleIndices(s)
  {
    UpToIsIndices(s);
    IndicesTail(s + 1, Oldest(s));
  }

  /** A sender at index `s` has the keys of its last twenty indices. */
  lemma {:induction false} SenderHistory(seed: Key, sent: seq<string>)
    requires seed.Seed?
    ensures OnIndices(Chain(seed, sent).0.history, seed, BundleIndices(|sent|))
  {
    SenderOnChain(seed, sent);
    LastIndices(|sent|);
  }

  lemma {:induction false} HistorySaved(rows: KeyRows<Key>, seed: Key, r: nat, h: seq<nat>, sent: seq<string>)
    requires seed.Seed? && OnChain(rows, seed, r, h)
    ensures Chain(seed, sent).0.history != []
    ensures OnChain(SaveAll(rows, Chain(seed, sent).0.history), seed, |sent|, SaveMany(h, BundleIndices(|sent|)))
  {
    SenderHistory(seed, sent);
    SaveAllOnChain(rows, seed, r, h, BundleIndices(|sent|), Chain(seed, sent).0.history);
  }

  lemma {:induction false} ReceivedRows(seed: Key, texts: seq<string>, r0: nat, arrivals: seq<nat>)
    requires seed.Seed? && forall i :: 0 <= i < |arrivals| ==> arrivals[i] < |texts|
    ensures OnChain(Receive(Nth(seed, r0), Pick(Chain(seed, texts).1, arrivals)).0, seed,
                    Follow(r0, arrivals).active, Follow(r0, arrivals).history)
  {
    ReceiverOnChain(seed, texts, r0, arrivals);
  }

  lemma {:induction false} AfterBundleOnChain(seed: Key, texts: seq<string>, r0: nat, arrivals: seq<nat>,
                                              sent: seq<string>, key: Key, groupId: string,
                                              encode: Key -> string, decode: string -> Option<Key>)
    requires seed.Seed? && forall i :: 0 <= i < |arrivals| ==> arrivals[i] < |texts|
    requires ':' !in groupId && FaithfulKeys(encode, decode)
    ensures OnChain(AfterBundle(seed, texts, r0, arrivals, Chain(seed, sent).0, key, groupId, encode, decode), seed,
                    |sent|, SaveMany(Follow(r0, arrivals).history, BundleIndices(|sent|)))
  {
    var t := Follow(r0, arrivals);
    ReceivedRows(seed, texts, r0, arrivals);
    HistorySaved(Receive(Nth(seed, r0), Pick(Chain(seed, texts).1, arrivals)).0, seed, t.active, t.history, sent);
    AfterBundleSaves(seed, texts, r0, arrivals, Chain(seed, sent).0, key, groupId, encode, decode);
  }

  /** What opens after the bundle, from the indices alone. */
  predicate OpensAt(rows: KeyRows<Key>, seed: Key, j: nat, text: string) {
    Decrypt(rows, Sealed(Nth(seed, j), text)).1 == Some(text)
  }

  lemma WindowAfterBundle(rows: KeyRows<Key>, seed: Key, t: Track, s: nat, text: string)
    requires seed.Seed? && TrackOK(t)
    requires OnChain(rows, seed, s, SaveMany(t.history, BundleIndices(s)))
    ensures forall j: nat :: OpensAt(rows, seed, j, text) <==> Accepts(s, SaveMany(t.history, BundleIndices(s)), j)
    ensures (forall j: nat :: t.active <= j <= t.active + LOOK_AHEAD ==> OpensAt(rows, seed, j, text))
            <==> t.active <= s < t.active + HISTORY_SIZE
    ensures t.active <= s ==> forall j: nat :: OpensAt(rows, seed, j, text) <==> Oldest(s) <= j <= s + LOOK_AHEAD
    ensures s < t.active ==> forall j: nat :: j > t.active ==> (OpensAt(rows, seed, j, text) <==> j <= s + LOOK_AHEAD)
  {
    var h := SaveMany(t.history, BundleIndices(s));
    forall j: nat
      ensures OpensAt(rows, seed, j, text) <==> Accepts(s, h, j)
    {
      WindowExact(rows, seed, s, h, j, text);
    }
    KeepsWindowExactly(t, s);
    if t.active <= s {
      BundleReplacesHistory(t, s);
    } else {
      forall j: nat | j > t.active
        ensures OpensAt(rows, seed, j, text) <==> j <= s + LOOK_AHEAD
      {
        OlderBundle(t, s, j);
      }
    }
    if !KeepsWindow(t, s) {
      var j :| t.active <= j <= t.active + LOOK_AHEAD && !Accepts(s, h, j);
      assert !OpensAt(rows, seed, j, text);
    }
  }

  /**
   A bundle in the middle of a run, exactly.  The bundle's index becomes active whether or not that
   is a step back, and message `j` opens afterwards if and only if `j` is that index, among the old
   history and the bundle's indices as far as twenty entries hold them, or at most ten ahead.  So
   everything from the receiver's own active index up to ten ahead of it still opens if and only if
   the bundle is not older than that index nor twenty or more ahead.  If it is not older, just the
   sender's last twenty indices and the ten after them open; if it is older, nothing above the
   receiver's own index opens but up to ten above the bundle's.
   */
  lemma {:induction false} BundleMidRun(seed: Key, texts: seq<string>, r0: nat, arrivals: seq<nat>, sent: seq<string>,
                                        key: Key, groupId: string,
                                        encode: Key -> string, decode: string -> Option<Key>, text: string)
    requires seed.Seed? && forall i :: 0 <= i < |arrivals| ==> arrivals[i] < |texts|
    requires ':' !in groupId && FaithfulKeys(encode, decode)
    ensures var t, s := Follow(r0, arrivals), |sent|;
            var rows := AfterBundle(seed, texts, r0, arrivals, Chain(seed, sent).0, key, groupId, encode, decode);
            && rows.active == Some(Nth(seed, s))
            && (forall j: nat :: OpensAt(rows, seed, j, text) <==> Accepts(s, SaveMany(t.history, BundleIndices(s)), j))
            && ((forall j: nat :: t.active <= j <= t.active + LOOK_AHEAD ==> OpensAt(rows, seed, j, text))
                <==> t.active <= s < t.active + HISTORY_SIZE)
            && (t.active <= s ==> forall j: nat :: OpensAt(rows, seed, j, text) <==> Oldest(s) <= j <= s + LOOK_AHEAD)
            && (s < t.active ==>
                  forall j: nat :: j > t.active ==> (OpensAt(rows, seed, j, text) <==> j <= s + LOOK_AHEAD))
  {
    AfterBundleOnChain(seed, texts, r0, arrivals, sent, key, groupId, encode, decode);
    FollowKeepsTrack(r0, arrivals);
    var rows := AfterBundle(seed, texts, r0, arrivals, Chain(seed, sent).0, key, groupId, encode, decode);
    WindowAfterBundle(rows, seed, Follow(r0, arrivals), |sent|, text);
  }

  // ---------------------------------------------------------------- a bundle after a new key was drawn

  /** All keys a member ever had, oldest first. */
  function AllKeys(first: nat, steps: seq<LocalStep>): seq<Key> {
    if steps == [] then [Seed(first)]
    else AllKeys(first, steps[..|steps| - 1]) + [LocalRows(first, steps).active.value]
  }

  lemma StepMade(first: nat, steps: seq<LocalStep>, e: LocalStep)
    ensures LocalRows(first, steps + [e]).active ==
            Some(if e == Message then Rotated(LocalRows(first, steps).active.value) else Seed(e.id))
    ensures Drawn(first, steps + [e]) == if e == Message then Drawn(first, steps) else Drawn(first, steps) + [e.id]
    ensures AllKeys(first, steps + [e]) == AllKeys(first, steps) + [LocalRows(first, steps + [e]).active.value]
  {
    assert (steps + [e])[..|steps|] == steps;
  }

  lemma DistinctSnoc<K(!new)>(u: seq<K>, x: K)
    requires Distinct(u + [x])
    ensures Distinct(u) && x !in u
  {
    var v := u + [x];
    assert forall i :: 0 <= i < |u| ==> v[i] == u[i];
    assert forall i :: 0 <= i < |u| ==> v[i] != v[|u|];
  }

  /** No step saves a key that the history already has. */
  lemma {:induction false} StepIsFresh(first: nat, steps: seq<LocalStep>, e: LocalStep)
    requires Distinct(Drawn(first, steps + [e]))
    ensures Distinct(Drawn(first, steps))
    ensures LocalRows(first, steps + [e]).active.value !in LocalRows(first, steps).history
  {
    StepMade(first, steps, e);
    if e.Renew? {
      DistinctSnoc(Drawn(first, steps), e.id);
    }
    LocalRowsOK(first, steps);
  }

  /** The history is the last twenty of them. */
  lemma {:induction false} LocalHistory(first: nat, steps: seq<LocalStep>)
    requires Distinct(Drawn(first, steps))
    ensures LocalRows(first, steps).history == LastN(AllKeys(first, steps), HISTORY_SIZE)
  {
    if steps != [] {
      var init, e := steps[..|steps| - 1], steps[|steps| - 1];
      assert steps == init + [e];
      StepIsFresh(first, init, e);
      StepMade(first, init, e);
      LocalHistory(first, init);
      LastNGrow(AllKeys(first, init), LocalRows(first, steps).active.value, HISTORY_SIZE);
    }
  }

  function Messages(n: nat): seq<LocalStep> {
    if n == 0 then [] else Messages(n - 1) + [Message]
  }

  /** `s` messages, a new key, and `k` messages with it. */
  function Renewed(s: nat, id: nat, k: nat): seq<LocalStep> {
    if k == 0 then Messages(s) + [Renew(id)] else Renewed(s, id, k - 1) + [Message]
  }

  /** The first `n` keys of a chain. */
  function Stretch(seed: Key, n: nat): (keys: seq<Key>)
    ensures |keys| == n && forall i :: 0 <= i < n ==> keys[i] == Nth(seed, i)
  {
    if n == 0 then [] else Stretch(seed, n - 1) + [Nth(seed, n - 1)]
  }

  lemma {:induction false} MessageKeys(first: nat, s: nat)
    ensures AllKeys(first, Messages(s)) == Stretch(Seed(first), s + 1)
    ensures LocalRows(first, Messages(s)).active == Some(Nth(Seed(first), s))
    ensures Drawn(first, Messages(s)) == [first]
  {
    if s > 0 {
      MessageKeys(first, s - 1);
      StepMade(first, Messages(s - 1), Message);
    } else {
      assert Stretch(Seed(first), 1) == [Seed(first)];
    }
  }

  lemma {:induction false} RenewedActive(first: nat, s: nat, id: nat, k: nat)
    ensures LocalRows(first, Renewed(s, id, k)).active == Some(Nth(Seed(id), k))
    ensures Drawn(first, Renewed(s, id, k)) == [first, id]
  {
    if k == 0 {
      MessageKeys(first, s);
      StepMade(first, Messages(s), Renew(id));
    } else {
      RenewedActive(first, s, id, k - 1);
      StepMade(first, Renewed(s, id, k - 1), Message);
    }
  }

  lemma {:induction false} RenewedKeys(first: nat, s: nat, id: nat, k: nat)
    ensures AllKeys(first, Renewed(s, id, k)) == Stretch(Seed(first), s + 1) + Stretch(Seed(id), k + 1)
  {
    var before, next := Stretch(Seed(first), s + 1), Stretch(Seed(id), k);
    assert (before + next) + [Nth(Seed(id), k)] == before + Stretch(Seed(id), k + 1);
    RenewedActive(first, s, id, k);
    if k == 0 {
      MessageKeys(first, s);
      StepMade(first, Messages(s), Renew(id));
      assert before + next == before;
    } else {
      RenewedKeys(first, s, id, k - 1);
      StepMade(first, Renewed(s, id, k - 1), Message);
    }
  }

  /** How many of a member's keys have dropped out of its history. */
  function Dropped(s: nat, k: nat): nat {
    if s + k + 2 <= HISTORY_SIZE then 0 else s + k + 2 - HISTORY_SIZE
  }

  lemma {:induction false} DifferentChains(a: nat, i: nat, b: nat, j: nat)
    ensures Nth(Seed(a), i) == Nth(Seed(b), j) ==> a == b && i == j
  {
    if i > 0 && j > 0 {
      DifferentChains(a, i - 1, b, j - 1);
    }
  }

  /** The bundle of such a member: the old chain from the dropped keys on, and the new chain likewise. */
  ghost predicate RenewedBundle(keys: seq<Key>, first: nat, s: nat, id: nat, k: nat) {
    && Distinct(keys) && keys != [] && |keys| <= HISTORY_SIZE
    && keys[|keys| - 1] == Nth(Seed(id), k)
    && (Dropped(s, k) > 0 ==> |keys| == HISTORY_SIZE)
    && (forall j: nat :: Nth(Seed(first), j) in keys <==> Dropped(s, k) <= j <= s)
    && (forall j: nat :: Nth(Seed(id), j) in keys <==> Dropped(s, k) <= s + 1 + j && j <= k)
  }

  lemma TwoStretchesDistinct(first: nat, s: nat, id: nat, k: nat)
    requires first != id
    ensures Distinct(Stretch(Seed(first), s + 1) + Stretch(Seed(id), k + 1))
  {
    var all := Stretch(Seed(first), s + 1) + Stretch(Seed(id), k + 1);
    forall i, j | 0 <= i < j < |all|
      ensures all[i] != all[j]
    {
      DifferentChains(if i <= s then first else id, if i <= s then i else i - s - 1,
                      if j <= s then first else id, if j <= s then j else j - s - 1);
    }
  }

  lemma DistinctTail<K(!new)>(all: seq<K>, d: nat)
    requires Distinct(all) && d <= |all|
    ensures Distinct(all[d..])
  {
  }

  lemma LastOfTwo(first: nat, s: nat, id: nat, k: nat)
    requires first != id
    ensures RenewedBundle(LastN(Stretch(Seed(first), s + 1) + Stretch(Seed(id), k + 1), HISTORY_SIZE), first, s, id, k)
  {
    var all, d := Stretch(Seed(first), s + 1) + Stretch(Seed(id), k + 1), Dropped(s, k);
    var keys := all[d..];
    assert LastN(all, HISTORY_SIZE) == keys;
    TwoStretchesDistinct(first, s, id, k);
    DistinctTail(all, d);
    forall j: nat
      ensures Nth(Seed(first), j) in keys <==> d <= j <= s
    {
      InLastOfTwo(all, d, first, s, id, k, j, true);
    }
    forall j: nat
      ensures Nth(Seed(id), j) in keys <==> d <= s + 1 + j && j <= k
    {
      InLastOfTwo(all, d, first, s, id, k, j, false);
    }
  }

  lemma InLastOfTwo(all: seq<Key>, d: nat, first: nat, s: nat, id: nat, k: nat, j: nat, isFirst: bool)
    requires first != id && all == Stretch(Seed(first), s + 1) + Stretch(Seed(id), k + 1) && d <= |all|
    ensures isFirst ==> (Nth(Seed(first), j) in all[d..] <==> d <= j <= s)
    ensures !isFirst ==> (Nth(Seed(id), j) in all[d..] <==> d <= s + 1 + j && j <= k)
  {
    var seed := if isFirst then first else id;
    var place := if isFirst then j else s + 1 + j;
    if Nth(Seed(seed), j) in all[d..] {
      var m :| 0 <= m < |all[d..]| && all[d..][m] == Nth(Seed(seed), j);
      var i := d + m;
      DifferentChains(if i <= s then first else id, if i <= s then i else i - s - 1, seed, j);
    }
    if d <= place && (if isFirst then j <= s else j <= k) {
      assert all[d..][place - d] == Nth(Seed(seed), j);
    }
  }

  /** The look-ahead of one chain never meets a key of another. */
  lemma {:induction false} AheadElsewhere(id: nat, k: nat, steps: nat, first: nat, j: nat, text: string)
    requires first != id
    ensures Ahead(Nth(Seed(id), k), steps, Sealed(Nth(Seed(first), j), text)) == None
    decreases steps
  {
    if steps > 0 {
      DifferentChains(id, k + 1, first, j);
      AheadElsewhere(id, k + 1, steps - 1, first, j, text);
    }
  }

  /** What opens with the new chain active and just the bundle in the history. */
  lemma OpensAfterRenewal(rows: KeyRows<Key>, keys: seq<Key>, first: nat, s: nat, id: nat, k: nat, j: nat, text: string)
    requires first != id && RenewedBundle(keys, first, s, id, k)
    requires rows.active == Some(Nth(Seed(id), k)) && forall x :: x in rows.history <==> x in keys
    ensures OpensAt(rows, Seed(first), j, text) <==> Dropped(s, k) <= j <= s
    ensures OpensAt(rows, Seed(id), j, text) <==> Dropped(s, k) <= s + 1 + j && j <= k + LOOK_AHEAD
  {
    DifferentChains(id, k, first, j);
    DifferentChains(id, k, id, j);
    AheadElsewhere(id, k, LOOK_AHEAD, first, j, text);
    AheadExact(Seed(id), k, LOOK_AHEAD, j, text);
  }

  /** The receiver's own keys, none ahead of the renewal, stand in the order that the bundle needs. */
  lemma ReceiverBefore(rows: KeyRows<Key>, t: Track, keys: seq<Key>, first: nat, s: nat, id: nat, k: nat)
    requires TrackOK(t) && OnChain(rows, Seed(first), t.active, t.history) && t.active <= s
    requires RenewedBundle(keys, first, s, id, k)
    ensures PartSaved(rows.history, keys, 0)
    ensures Dropped(s, k) == 0 ==> forall x :: x in rows.history ==> x in keys
  {
    HistoryIncreases(t);
    forall i, j | 0 <= i < j < |rows.history|
      ensures rows.history[i] != rows.history[j]
    {
      DifferentChains(first, t.history[i], first, t.history[j]);
    }
    forall i | 0 <= i < |rows.history|
      ensures rows.history[i] in keys <==> Dropped(s, k) <= t.history[i]
    {
      assert t.history[i] in t.history;
    }
  }

  /**
   A bundle with a new key in it: the sender sent `s` messages, drew a new key because a member left,
   and sent `k` more; the receiver is still on the old chain, anywhere up to the renewal.  Of both
   chains together just the sender's last twenty keys open afterwards, and the next ten of the new one.
   */
  lemma {:induction false} BundleAfterRenewal(first: nat, texts: seq<string>, r0: nat, arrivals: seq<nat>,
                                              s: nat, id: nat, k: nat, key: Key, groupId: string,
                                              encode: Key -> string, decode: string -> Option<Key>, j: nat,
                                              text: string)
    requires first != id && forall i :: 0 <= i < |arrivals| ==> arrivals[i] < |texts|
    requires Follow(r0, arrivals).active <= s && ':' !in groupId && FaithfulKeys(encode, decode)
    ensures var own := LocalRows(first, Renewed(s, id, k));
            var rows := AfterBundle(Seed(first), texts, r0, arrivals, own, key, groupId, encode, decode);
            && rows.active == own.active == Some(Nth(Seed(id), k))
            && (OpensAt(rows, Seed(first), j, text) <==> Dropped(s, k) <= j <= s)
            && (OpensAt(rows, Seed(id), j, text) <==> Dropped(s, k) <= s + 1 + j && j <= k + LOOK_AHEAD)
  {
    var own := LocalRows(first, Renewed(s, id, k));
    var received := Receive(Nth(Seed(first), r0), Pick(Chain(Seed(first), texts).1, arrivals)).0;
    RenewedKeys(first, s, id, k);
    RenewedActive(first, s, id, k);
    LocalHistory(first, Renewed(s, id, k));
    LastOfTwo(first, s, id, k);
    FollowKeepsTrack(r0, arrivals);
    ReceivedRows(Seed(first), texts, r0, arrivals);
    ReceiverBefore(received, Follow(r0, arrivals), own.history, first, s, id, k);
    AfterBundleSaves(Seed(first), texts, r0, arrivals, own, key, groupId, encode, decode);
    SaveAllRows(received, own.history);
    BundleReplaces(received.history, own.history);
    OpensAfterRenewal(SaveAll(received, own.history), own.history, first, s, id, k, j, text);
  }
}
