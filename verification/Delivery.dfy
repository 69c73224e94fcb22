/**
 Deduplication of incoming envelopes.  A text may arrive over a direct stream, from any number of
 mailbox relays at once, and again by a background retry; the node keeps the hashes of processed
 envelopes and of processed mailbox messages in storage and the state of mailbox messages in memory.
 Lines of a relay's answer, single envelopes and retries are atomic steps.
 */
module Delivery {
  import opened Prelude
  import opened Text

  /**
   What lies outside: JSON and base64 decoding, SHA-256, whether an attempt to decrypt and handle
   succeeds, and whether the message stored under a hash is one the user interface may show again.
   */
  datatype Env = Env(
    signedPayload: string -> Option<string>,
    decodeB64: string -> Option<string>,
    senderOf: string -> string,
    sha: string -> string,
    accepts: (string, string, nat) -> bool,
    showable: string -> bool)

  /** The states of processedMailboxMessages. */
  datatype Status = Processing | Done

  /**
   `mem` is processedMailboxMessages, `db` and `envs` are the two tables, `dispatched` what was
   decrypted and handled, and `shown` the stored messages shown again since the last start.
   */
  datatype Inbox = Inbox(mem: map<string, Status>, db: set<string>, envs: set<string>,
                         dispatched: seq<string>, attempts: nat, shown: seq<string>)

  const EMPTY := Inbox(map[], {}, {}, [], 0, [])

  datatype Fetched = Fetched(sender: string, payload: string, msgHash: string)

  // ---------------------------------------------------------------- specification functions

  /** A signed mailbox wrapper is taken off when there is one. */
  function Unwrapped(env: Env, envelope: string): string {
    var payload := env.signedPayload(envelope);
    if HasPrefix(envelope, "{") && payload.Some? && payload.value != "" then payload.value else envelope
  }

  /** The bookkeeping when an envelope has been processed. */
  function Recorded(m: Inbox, envHash: string, msgHash: string, success: bool): Inbox {
    var envs := if success then m.envs + {envHash} else m.envs;
    if msgHash == "" then m.(envs := envs)
    else if success then m.(envs := envs, mem := m.mem[msgHash := Done], db := m.db + {msgHash})
    else m.(envs := envs, mem := m.mem - {msgHash}, db := m.db - {msgHash})
  }

  /** An attempt to decrypt and handle an envelope not processed before. */
  function Attempted(env: Env, m: Inbox, sender: string, text: string): (Inbox, bool) {
    var success := env.accepts(sender, text, m.attempts);
    (m.(attempts := m.attempts + 1, dispatched := if success then m.dispatched + [text] else m.dispatched), success)
  }

  function Processed(env: Env, m: Inbox, sender: string, envelope: string, msgHash: string): Inbox {
    var text := Unwrapped(env, envelope);
    var envHash := env.sha(text);
    if envHash in m.envs then Recorded(m, envHash, msgHash, true)
    else
      var (m', success) := Attempted(env, m, sender, text);
      Recorded(m', envHash, msgHash, success)
  }

  predicate Terminator(line: string) {
    line == "DONE" || HasPrefix(line, "ERROR")
  }

  /** A hash found in storage: cached, and its message shown again in case the user interface missed it. */
  function Noted(env: Env, m: Inbox, msgHash: string): Inbox {
    m.(mem := m.mem[msgHash := Done], shown := if env.showable(msgHash) then m.shown + [msgHash] else m.shown)
  }

  /** One MSG line of a relay's answer: what it does to the inbox and to the list of fetched envelopes. */
  function Taken(env: Env, m: Inbox, list: seq<Fetched>, line: string): (Inbox, seq<Fetched>) {
    var parts := Split(line, ' ');
    if |parts| < 4 || parts[0] != "MSG" then (m, list)
    else
      var msgHash := parts[1];
      if msgHash in m.mem && m.mem[msgHash] == Done then (m, list)
      else if msgHash in m.db then (Noted(env, m, msgHash), list)
      else if msgHash in m.mem then (m, list)
      else
        var payload := env.decodeB64(parts[3]);
        var sender := env.senderOf(parts[2]);
        if payload.None? || sender == "" then (m, list)
        else (m.(mem := m.mem[msgHash := Processing]), list + [Fetched(sender, payload.value, msgHash)])
  }

  function OnlyHandshakes(list: seq<Fetched>, wanted: bool): seq<Fetched> {
    if list == [] then []
    else
      var last := list[|list| - 1];
      var rest := OnlyHandshakes(list[..|list| - 1], wanted);
      if HasPrefix(last.payload, "X3DH:") == wanted then rest + [last] else rest
  }

  /** The stable sort by "is a bare X3DH handshake". */
  function HandshakesFirst(list: seq<Fetched>): seq<Fetched> {
    OnlyHandshakes(list, true) + OnlyHandshakes(list, false)
  }

  function ReadLines(env: Env, m: Inbox, list: seq<Fetched>, lines: seq<string>): (Inbox, seq<Fetched>)
    decreases |lines|
  {
    if lines == [] || Terminator(lines[0]) then (m, list)
    else
      var (m', list') := Taken(env, m, list, lines[0]);
      ReadLines(env, m', list', lines[1..])
  }

  function HandleAll(env: Env, m: Inbox, list: seq<Fetched>): Inbox
    decreases |list|
  {
    if list == [] then m
    else HandleAll(env, Processed(env, m, list[0].sender, list[0].payload, list[0].msgHash), list[1..])
  }

  /** A whole fetch with nothing else going on; `lines` is what the relay sent before the stream ended. */
  function AfterFetch(env: Env, m: Inbox, lines: seq<string>): Inbox {
    var (m', list) := ReadLines(env, m, [], lines);
    HandleAll(env, m', HandshakesFirst(list))
  }

  // ---------------------------------------------------------------- the mutable tables

  class Receiver {
    var processedMailboxMessages: map<string, Status>
    var processedMailboxTable: set<string>
    var processedEnvelopes: set<string>
    var dispatched: seq<string>
    var attempts: nat
    var shownAgain: seq<string>

    ghost function View(): Inbox
      reads this
    {
      Inbox(processedMailboxMessages, processedMailboxTable, processedEnvelopes, dispatched, attempts, shownAgain)
    }

    constructor ()
      ensures View() == EMPTY
    {
      processedMailboxMessages, processedMailboxTable, processedEnvelopes := map[], {}, {};
      dispatched, attempts, shownAgain := [], 0, [];
    }

    method ProcessSecureEnvelope(env: Env, sender: string, envelope: string, msgHash: string)
      modifies this
      ensures View() == Processed(env, old(View()), sender, envelope, msgHash)
    {
      var text := envelope;
      if HasPrefix(envelope, "{") {
        var payload := env.signedPayload(envelope);
        if payload.Some? && payload.value != "" {
          text := payload.value;
        }
      }
      var envHash := env.sha(text);
      var success := true;
      if envHash !in processedEnvelopes {
        success := env.accepts(sender, text, attempts);
        attempts := attempts + 1;
        if success {
          dispatched := dispatched + [text];
        }
      }
      if success {
        processedEnvelopes := processedEnvelopes + {envHash};
      }
      if msgHash != "" {
        if success {
          processedMailboxMessages := processedMailboxMessages[msgHash := Done];
          processedMailboxTable := processedMailboxTable + {msgHash};
        } else {
          processedMailboxMessages := processedMailboxMessages - {msgHash};
          processedMailboxTable := processedMailboxTable - {msgHash};
        }
      }
    }

    method TakeLine(env: Env, fetched: seq<Fetched>, line: string) returns (list: seq<Fetched>)
      modifies this`processedMailboxMessages, this`shownAgain
      ensures (View(), list) == Taken(env, old(View()), fetched, line)
    {
      list := fetched;
      var parts := Split(line, ' ');
      if |parts| < 4 || parts[0] != "MSG" {
        return;
      }
      var msgHash := parts[1];
      if msgHash in processedMailboxMessages && processedMailboxMessages[msgHash] == Done {
        return;
      }
      if msgHash in processedMailboxTable {
        processedMailboxMessages := processedMailboxMessages[msgHash := Done];
        if env.showable(msgHash) {
          shownAgain := shownAgain + [msgHash];
        }
        return;
      }
      if msgHash in processedMailboxMessages {
        return;
      }
      ghost var before := processedMailboxMessages;
      processedMailboxMessages := processedMailboxMessages[msgHash := Processing];
      var payload := env.decodeB64(parts[3]);
      if payload.None? {
        processedMailboxMessages := processedMailboxMessages - {msgHash};
        assert processedMailboxMessages == before;
        return;
      }
      var sender := env.senderOf(parts[2]);
      if sender == "" {
        processedMailboxMessages := processedMailboxMessages - {msgHash};
        assert processedMailboxMessages == before;
        return;
      }
      list := fetched + [Fetched(sender, payload.value, msgHash)];
    }

    /** The library's stable sort, as two sweeps. */
    method SortHandshakesFirst(fetched: seq<Fetched>) returns (list: seq<Fetched>)
      ensures list == HandshakesFirst(fetched)
    {
      var handshakes, others := [], [];
      for i := 0 to |fetched|
        invariant handshakes == OnlyHandshakes(fetched[..i], true)
        invariant others == OnlyHandshakes(fetched[..i], false)
      {
        assert fetched[..i + 1][..i] == fetched[..i];
        if HasPrefix(fetched[i].payload, "X3DH:") {
          handshakes := handshakes + [fetched[i]];
        } else {
          others := others + [fetched[i]];
        }
      }
      assert fetched[..|fetched|] == fetched;
      list := handshakes + others;
    }

    method FetchMailboxMessages(env: Env, lines: seq<string>)
      modifies this
      ensures View() == AfterFetch(env, old(View()), lines)
    {
      var fetched := [];
      var i := 0;
      while i < |lines| && !Terminator(lines[i])
        invariant 0 <= i <= |lines|
        invariant ReadLines(env, View(), fetched, lines[i..]) == ReadLines(env, old(View()), [], lines)
      {
        assert lines[i..][1..] == lines[i + 1..];
        fetched := TakeLine(env, fetched, lines[i]);
        i := i + 1;
      }
      fetched := SortHandshakesFirst(fetched);
      HandleFetched(env, fetched);
    }

    method HandleFetched(env: Env, fetched: seq<Fetched>)
      modifies this
      ensures View() == HandleAll(env, old(View()), fetched)
    {
      for k := 0 to |fetched|
        invariant HandleAll(env, View(), fetched[k..]) == HandleAll(env, old(View()), fetched)
      {
        assert fetched[k..][1..] == fetched[k + 1..];
        ProcessSecureEnvelope(env, fetched[k].sender, fetched[k].payload, fetched[k].msgHash);
      }
    }
  }
}
