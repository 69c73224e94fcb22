/**
 The group sender-key ratchet of pkg/protocol/group.go over the key tables of pkg/storage/db_groups.go:
 one active key and a history of at most twenty, one row per group and sender.
 */
module Group {
  import opened Prelude
  import opened Text

  const HISTORY_SIZE := 20
  const LOOK_AHEAD := 10

  /** The key rows of one sender, history oldest first (ascending rowid). */
  datatype KeyRows<K> = KeyRows(active: Option<K>, history: seq<K>)

  /** Replaces the active key; a key already in the history keeps its place there; twenty rows stay. */
  function SaveKey<K(==)>(rows: KeyRows<K>, key: K): KeyRows<K> {
    KeyRows(Some(key), LastN(if key in rows.history then rows.history else rows.history + [key], HISTORY_SIZE))
  }

  /**
   A saved key becomes the active one.  One that the history has keeps its place and changes nothing else; a
   new one goes to the end and drives out the oldest of twenty.  No key is ever there twice.
   */
  lemma SaveKeyExactly<K(!new)>(rows: KeyRows<K>, key: K)
    requires |rows.history| <= HISTORY_SIZE
    ensures SaveKey(rows, key).active == Some(key)
    ensures SaveKey(rows, key).history ==
              if key in rows.history then rows.history
              else if |rows.history| < HISTORY_SIZE then rows.history + [key]
              else rows.history[1..] + [key]
    ensures Distinct(rows.history) ==> Distinct(SaveKey(rows, key).history)
    ensures |SaveKey(rows, key).history| <= HISTORY_SIZE
  {
  }

  // ---------------------------------------------------------------- keys and messages, symbolically

  datatype Key = Seed(id: nat) | Rotated(previous: Key)

  datatype Sealed = Sealed(key: Key, plaintext: string)

  /** The key after `j` rotations. */
  function Nth(seed: Key, j: nat): Key {
    if j == 0 then seed else Rotated(Nth(seed, j - 1))
  }

  function Opens(key: Key, msg: Sealed): Option<string> {
    if key == msg.key then Some(msg.plaintext) else None
  }

  /** The look-ahead loop: `Some(k)` is the first key, at most `steps` rotations on, that opens the message. */
  function Ahead(key: Key, steps: nat, msg: Sealed): Option<Key>
    decreases steps
  {
    if steps == 0 then None
    else if Opens(Rotated(key), msg).Some? then Some(Rotated(key))
    else Ahead(Rotated(key), steps - 1, msg)
  }

  /** `decryptGroupMsg` in a SECURE group: active key, then history newest first, then look-ahead. */
  function Decrypt(rows: KeyRows<Key>, msg: Sealed): (KeyRows<Key>, Option<string>) {
    if rows.active.None? then (rows, None)
    else if Opens(rows.active.value, msg).Some? then
      (SaveKey(rows, Rotated(rows.active.value)), Opens(rows.active.value, msg))
    else if msg.key in rows.history then (rows, Some(msg.plaintext))
    else
      match Ahead(rows.active.value, LOOK_AHEAD, msg)
      case Some(k) => (SaveKey(rows, Rotated(k)), Opens(k, msg))
      case None => (rows, None)
  }

  /** The key step of `SendGroupMessage`: seal with the local key, then rotate it. */
  function Send(rows: KeyRows<Key>, text: string): (KeyRows<Key>, Option<Sealed>) {
    match rows.active
    case None => (rows, None)
    case Some(k) => (SaveKey(rows, Rotated(k)), Some(Sealed(k, text)))
  }

  // ---------------------------------------------------------------- key bundles

  function Reverse<T>(s: seq<T>): seq<T> {
    if s == [] then [] else Reverse(s[1..]) + [s[0]]
  }

  /** The keys a member shares: its history newest first, or the given key when there is none. */
  function SharedKeys<K>(rows: KeyRows<K>, key: K): seq<K> {
    if rows.history != [] then Reverse(rows.history) else [key]
  }

  function Encoded<K>(keys: seq<K>, encode: K -> string): seq<string> {
    if keys == [] then [] else [encode(keys[0])] + Encoded(keys[1..], encode)
  }

  function PrintGKEY<K>(groupId: string, keys: seq<K>, encode: K -> string): string {
    WithFields(["GKEY", groupId], ':', Join(Encoded(keys, encode), ','))
  }

  /** Saves the fields from the last to the first; a field that does not decode is skipped. */
  function SaveFields<K(==)>(rows: KeyRows<K>, fields: seq<string>, decode: string -> Option<K>): KeyRows<K> {
    if fields == [] then rows
    else
      var rest := SaveFields(rows, fields[1..], decode);
      match decode(fields[0])
      case None => rest
      case Some(k) => SaveKey(rest, k)
  }

  /** The GKEY branch: the group it is for and the fields it carries. */
  function ParseGKEY(content: string): Option<(string, seq<string>)> {
    var parts := SplitN(content, ':', 3);
    if !HasPrefix(content, "GKEY:") || |parts| != 3 then None else Some((parts[1], Split(parts[2], ',')))
  }

  // ---------------------------------------------------------------- the mutable tables

  class KeyTable {
    var active: map<(string, string), Key>
    var history: map<(string, string), seq<Key>>

    ghost function View(group: string, sender: string): KeyRows<Key>
      reads this
    {
      KeyRows(if (group, sender) in active then Some(active[(group, sender)]) else None,
              if (group, sender) in history then history[(group, sender)] else [])
    }

    constructor ()
      ensures forall g, s :: View(g, s) == KeyRows(None, [])
    {
      active, history := map[], map[];
    }

    method SaveGroupSenderKey(group: string, sender: string, key: Key)
      modifies this
      ensures View(group, sender) == SaveKey(old(View(group, sender)), key)
      ensures forall g, s | (g, s) != (group, sender) :: View(g, s) == old(View(g, s))
    {
      var rows := if (group, sender) in history then history[(group, sender)] else [];
      active := active[(group, sender) := key];
      if key !in rows {
        rows := rows + [key];
      }
      if |rows| > HISTORY_SIZE {
        rows := rows[|rows| - HISTORY_SIZE..];
      }
      history := history[(group, sender) := rows];
    }

    /** The loop over the historical keys, newest first. */
    static method SearchHistory(keys: seq<Key>, msg: Sealed) returns (plaintext: Option<string>)
      ensures plaintext == if msg.key in keys then Some(msg.plaintext) else None
    {
      for i := 0 to |keys|
        invariant msg.key !in keys[|keys| - i..]
      {
        plaintext := Opens(keys[|keys| - 1 - i], msg);
        if plaintext.Some? {
          return;
        }
        assert keys[|keys| - (i + 1)..] == [keys[|keys| - 1 - i]] + keys[|keys| - i..];
      }
      assert keys[0..] == keys;
      return None;
    }

    /** The look-ahead loop over `tempKey`. */
    static method LookAhead(senderKey: Key, msg: Sealed) returns (found: Option<Key>)
      ensures found == Ahead(senderKey, LOOK_AHEAD, msg)
    {
      var tempKey := senderKey;
      for step := 1 to LOOK_AHEAD + 1
        invariant Ahead(senderKey, LOOK_AHEAD, msg) == Ahead(tempKey, LOOK_AHEAD + 1 - step, msg)
      {
        tempKey := Rotated(tempKey);
        if Opens(tempKey, msg).Some? {
          return Some(tempKey);
        }
      }
      return None;
    }

    method DecryptGroupMsg(group: string, sender: string, secure: bool, payload: string, msg: Sealed)
      returns (plaintext: Option<string>)
      modifies this
      ensures secure ==> (View(group, sender), plaintext) == Decrypt(old(View(group, sender)), msg)
      ensures !secure ==> plaintext == Some(payload) && View(group, sender) == old(View(group, sender))
      ensures forall g, s | (g, s) != (group, sender) :: View(g, s) == old(View(g, s))
    {
      if !secure {
        return Some(payload);
      }
      if (group, sender) !in active {
        return None;
      }
      var senderKey := active[(group, sender)];
      plaintext := Opens(senderKey, msg);
      if plaintext.Some? {
        SaveGroupSenderKey(group, sender, Rotated(senderKey));
        return;
      }
      plaintext := SearchHistory(if (group, sender) in history then history[(group, sender)] else [], msg);
      if plaintext.Some? {
        return;
      }
      var found := LookAhead(senderKey, msg);
      if found.Some? {
        plaintext := Opens(found.value, msg);
        SaveGroupSenderKey(group, sender, Rotated(found.value));
      }
    }

    /** The loop of the GKEY branch: last field first, undecodable fields skipped. */
    method SaveSharedKeys(group: string, sender: string, fields: seq<string>, decode: string -> Option<Key>)
      modifies this
      ensures View(group, sender) == SaveFields(old(View(group, sender)), fields, decode)
      ensures forall g, s | (g, s) != (group, sender) :: View(g, s) == old(View(g, s))
    {
      var i := |fields|;
      assert fields[|fields|..] == [];
      while i > 0
        invariant 0 <= i <= |fields|
        invariant View(group, sender) == SaveFields(old(View(group, sender)), fields[i..], decode)
        invariant forall g, s | (g, s) != (group, sender) :: View(g, s) == old(View(g, s))
      {
        i := i - 1;
        assert fields[i..][1..] == fields[i + 1..];
        var key := decode(fields[i]);
        if key.Some? {
          SaveGroupSenderKey(group, sender, key.value);
        }
      }
      assert fields[0..] == fields;
    }
  }

  // ---------------------------------------------------------------- the decryption window

  lemma {:induction false} NthInjective(seed: Key, i: nat, j: nat)
    requires seed.Seed? && Nth(seed, i) == Nth(seed, j)
    ensures i == j
  {
    if i > 0 && j > 0 {
      NthInjective(seed, i - 1, j - 1);
    }
  }

  /** The look-ahead loop finds exactly the indices up to `steps` ahead. */
  lemma {:induction false} AheadExact(seed: Key, r: nat, steps: nat, j: nat, text: string)
    requires seed.Seed?
    ensures Ahead(Nth(seed, r), steps, Sealed(Nth(seed, j), text))
         == if r < j <= r + steps then Some(Nth(seed, j)) else None
    decreases steps
  {
    if steps > 0 {
      if Nth(seed, r + 1) == Nth(seed, j) {
        NthInjective(seed, r + 1, j);
      }
      AheadExact(seed, r + 1, steps - 1, j, text);
    }
  }

  /** The rows of a receiver whose keys all lie on one chain, by index. */
  predicate OnChain(rows: KeyRows<Key>, seed: Key, r: nat, h: seq<nat>) {
    && rows.active == Some(Nth(seed, r))
    && |rows.history| == |h|
    && forall i :: 0 <= i < |h| ==> rows.history[i] == Nth(seed, h[i])
  }

  lemma InHistory(rows: KeyRows<Key>, seed: Key, r: nat, h: seq<nat>, j: nat)
    requires seed.Seed? && OnChain(rows, seed, r, h)
    ensures Nth(seed, j) in rows.history <==> j in h
  {
    if Nth(seed, j) in rows.history {
      var i :| 0 <= i < |h| && rows.history[i] == Nth(seed, j);
      NthInjective(seed, h[i], j);
    }
    if j in h {
      var i :| 0 <= i < |h| && h[i] == j;
      assert rows.history[i] == Nth(seed, j);
    }
  }

  /** Saving the key of index `j`, in terms of indices. */
  function SaveIndex(h: seq<nat>, j: nat): seq<nat> {
    LastN(if j in h then h else h + [j], HISTORY_SIZE)
  }

  lemma SaveOnChain(rows: KeyRows<Key>, seed: Key, r: nat, h: seq<nat>, j: nat)
    requires seed.Seed? && OnChain(rows, seed, r, h)
    ensures OnChain(SaveKey(rows, Nth(seed, j)), seed, j, SaveIndex(h, j))
  {
    InHistory(rows, seed, r, h, j);
  }

  /** The window by index: whether message `j` is accepted, and the index that is active afterwards. */
  predicate Accepts(r: nat, h: seq<nat>, j: nat) {
    j == r || j in h || r < j <= r + LOOK_AHEAD
  }

  function NextActive(r: nat, h: seq<nat>, j: nat): nat {
    if j == r then j + 1
    else if j in h then r
    else if r < j <= r + LOOK_AHEAD then j + 1
    else r
  }

  function NextHistory(r: nat, h: seq<nat>, j: nat): seq<nat> {
    if j != r && (j in h || !(r < j <= r + LOOK_AHEAD)) then h else SaveIndex(h, j + 1)
  }

  /** The three ways of opening a message, told apart by its index. */
  lemma DecryptByIndex(rows: KeyRows<Key>, seed: Key, r: nat, h: seq<nat>, j: nat, text: string)
    requires seed.Seed? && OnChain(rows, seed, r, h)
    ensures Decrypt(rows, Sealed(Nth(seed, j), text)) ==
            if j == r then (SaveKey(rows, Nth(seed, j + 1)), Some(text))
            else if j in h then (rows, Some(text))
            else if r < j <= r + LOOK_AHEAD then (SaveKey(rows, Nth(seed, j + 1)), Some(text))
            else (rows, None)
  {
    InHistory(rows, seed, r, h, j);
    AheadExact(seed, r, LOOK_AHEAD, j, text);
    if Nth(seed, r) == Nth(seed, j) {
      NthInjective(seed, r, j);
    }
  }

  /**
   The decryption window, exactly: message `j` opens if and only if it is the active one, in the
   history, or at most ten ahead; the active index moves to `j + 1` except after a history hit.
   */
  lemma WindowExact(rows: KeyRows<Key>, seed: Key, r: nat, h: seq<nat>, j: nat, text: string)
    requires seed.Seed? && OnChain(rows, seed, r, h)
    ensures var (rows', plain) := Decrypt(rows, Sealed(Nth(seed, j), text));
            && plain == (if Accepts(r, h, j) then Some(text) else None)
            && OnChain(rows', seed, NextActive(r, h, j), NextHistory(r, h, j))
            && (!Accepts(r, h, j) ==> rows' == rows)
  {
    DecryptByIndex(rows, seed, r, h, j, text);
    SaveOnChain(rows, seed, r, h, j + 1);
  }
}
