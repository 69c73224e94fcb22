/** Several claims to one alias: which of them an accepted block, and every later state, lets stand. */
module LedgerClaims {
  import opened Prelude
  import opened Text
  import opened Ledger
  import opened LedgerRuns

  /** The first transaction of a block that claims the coordinate. */
  function FirstFor(env: Env, txs: seq<Transaction>, c: string): Option<Transaction> {
    if txs == [] then None
    else if AliasCoordinate(env, txs[0].alias) == c then Some(txs[0])
    else FirstFor(env, txs[1..], c)
  }

  lemma {:induction false} FirstForIsGood(env: Env, aliases: AliasStore, txs: seq<Transaction>, c: string)
    requires FirstBad(env, aliases, txs).None? && FirstFor(env, txs, c).Some?
    ensures var tx := FirstFor(env, txs, c).value;
            AliasCoordinate(env, tx.alias) == c && VerifyTransaction(env, aliases, tx).None?
  {
    if AliasCoordinate(env, txs[0].alias) != c {
      FirstForIsGood(env, aliases, txs[1..], c);
    }
  }

  /** A block has a first claim to a coordinate exactly when it has a last one. */
  lemma {:induction false} FirstAndLast(env: Env, txs: seq<Transaction>, c: string)
    ensures FirstFor(env, txs, c).Some? <==> LastFor(env, txs, c).Some?
  {
    if txs != [] {
      FirstAndLast(env, txs[1..], c);
      LastBehind(env, txs, c);
    }
  }

  lemma {:induction false} LastBehind(env: Env, txs: seq<Transaction>, c: string)
    requires txs != []
    ensures LastFor(env, txs, c) == if LastFor(env, txs[1..], c).Some? then LastFor(env, txs[1..], c)
                                    else if AliasCoordinate(env, txs[0].alias) == c then Some(txs[0]) else None
  {
    if |txs| > 1 {
      LastBehind(env, txs[..|txs| - 1], c);
      assert txs[1..][..|txs| - 2] == txs[..|txs| - 1][1..];
    }
  }

  /** The first and the last claim of the block to the coordinate carry different keys. */
  predicate Contested(env: Env, txs: seq<Transaction>, c: string) {
    && FirstFor(env, txs, c).Some? && LastFor(env, txs, c).Some?
    && KeyOf(env, FirstFor(env, txs, c).value) != KeyOf(env, LastFor(env, txs, c).value)
  }

  /**
   In any accepted block the first claimant of a coordinate ends up as its owner, key and peer ID
   alike, if and only if the block is not contested, which can be read off the block beforehand.
   */
  lemma FirstClaimStandsExactly(env: Env, s: State, b: Block, c: string)
    requires AddBlock(env, s, b).1.None? && b.header.height > s.latestHeight
    requires FirstFor(env, b.transactions, c).Some?
    ensures var first, after := FirstFor(env, b.transactions, c).value, AddBlock(env, s, b).0.names.aliases;
            && KeyOf(env, first).Some? && c in after
            && (after[c] == AliasRecord(first.ownerPeerId, KeyOf(env, first).value)
                <==> !Contested(env, b.transactions, c))
            && (Contested(env, b.transactions, c) ==> after[c].pubKey != KeyOf(env, first).value)
  {
    var txs, aliases := b.transactions, s.names.aliases;
    FirstAndLast(env, txs, c);
    BlockDecidesOwner(env, s.names, aliases, txs, c);
    FirstForIsGood(env, aliases, txs, c);
    LastForIsGood(env, aliases, txs, c);
  }

  /**
   The failing family: a contested block whose header is in order and whose claims all verify is
   accepted, the alias was free, and it now belongs to the last claimant, not to the first.
   */
  lemma LastClaimInBlockWins(env: Env, s: State, b: Block, c: string)
    requires VerifyHeader(env, b.header, s.latestHeight + 1, s.latestHash).None? && b.hash == BlockHash(env, b.header)
    requires forall i :: 0 <= i < |b.transactions| ==> VerifyTransaction(env, s.names.aliases, b.transactions[i]).None?
    requires Contested(env, b.transactions, c)
    ensures AddBlock(env, s, b).1.None?
    ensures c !in s.names.aliases
    ensures var first, last := FirstFor(env, b.transactions, c).value, LastFor(env, b.transactions, c).value;
            var after := AddBlock(env, s, b).0.names.aliases;
            && KeyOf(env, last).Some? && KeyOf(env, first).Some?
            && c in after && after[c] == AliasRecord(last.ownerPeerId, KeyOf(env, last).value)
            && after[c].pubKey != KeyOf(env, first).value
  {
    var txs, aliases := b.transactions, s.names.aliases;
    GoodIfAll(env, aliases, txs);
    BlockDecidesOwner(env, s.names, aliases, txs, c);
    FirstForIsGood(env, aliases, txs, c);
    LastForIsGood(env, aliases, txs, c);
  }

  /**
   Over whole runs: the first claim that a block brings to a free alias stands in every later state
   if and only if that block is not contested.
   */
  lemma FirstClaimStandsForEver(env: Env, events: seq<Event>, b: Block, more: seq<Event>, c: string)
    requires Sound(env)
    requires AddBlock(env, Run(env, events), b).1.None? && b.header.height > Run(env, events).latestHeight
    requires FirstFor(env, b.transactions, c).Some?
    ensures var first := FirstFor(env, b.transactions, c).value;
            var aliases := Run(env, events + [Full(b)] + more).names.aliases;
            && KeyOf(env, first).Some? && c in aliases
            && (aliases[c] == AliasRecord(first.ownerPeerId, KeyOf(env, first).value)
                <==> !Contested(env, b.transactions, c))
  {
    FirstClaimStandsExactly(env, Run(env, events), b, c);
    RunSnoc(env, events, Full(b));
    FirstOwnerStays(env, events + [Full(b)], more, c);
  }

  // ---------------------------------------------------------------- such a block exists

  /** A colon-free spelling that can be read back. */
  function Escaped(s: string): string {
    if s == "" then ""
    else (if s[0] == ':' then "_c" else if s[0] == '_' then "_u" else [s[0]]) + Escaped(s[1..])
  }

  lemma {:induction false} EscapedHasNoColon(s: string)
    ensures ':' !in Escaped(s)
  {
    if s != "" {
      EscapedHasNoColon(s[1..]);
    }
  }

  lemma {:induction false} EscapedInjective(s: string, t: string)
    requires Escaped(s) == Escaped(t)
    ensures s == t
  {
    if s != "" && t != "" {
      var e, f := Escaped(s), Escaped(t);
      assert s[0] == t[0] && Escaped(s[1..]) == Escaped(t[1..]) by {
        var n := if s[0] == ':' || s[0] == '_' then 2 else 1;
        assert e[0] == f[0] && (n == 2 ==> e[1] == f[1]);
        assert Escaped(s[1..]) == e[n..] == f[n..];
      }
      EscapedInjective(s[1..], t[1..]);
      assert s == [s[0]] + s[1..] && t == [t[0]] + t[1..];
    }
  }

  /** Libraries without a collision or a colon in a hash, which otherwise accept everything. */
  function PlainEnv(): Env {
    Env(s => "h" + Escaped(s), s => s, (n, k) => "", s => Some(s), s => s, s => Some(s), k => k, (k, d, g) => true,
        (h, d, n) => true, v => ':' !in v, v => None, ["validator"])
  }

  /** So the assumptions of the ledger theorems can be met. */
  lemma PlainEnvIsSound()
    ensures Sound(PlainEnv())
  {
    var env := PlainEnv();
    forall x, y
      ensures !Collide(env, x, y)
    {
      if env.sha(x) == env.sha(y) {
        assert Escaped(x) == env.sha(x)[1..] == env.sha(y)[1..] == Escaped(y);
        EscapedInjective(x, y);
      }
    }
    forall x
      ensures HashText(env.sha(x))
    {
      EscapedHasNoColon(x);
    }
  }

  function PlainClaim(owner: string): Transaction {
    var tx := Transaction("", REGISTER_ALIAS, "@alice", owner, owner, 0, 0, MIN_DIFFICULTY, "");
    tx.(txId := TxId(PlainEnv(), tx))
  }

  function PlainBlock(): Block {
    var header := Header(0, "", 0, "validator", "");
    Block(header, [PlainClaim("first"), PlainClaim("second")], BlockHash(PlainEnv(), header))
  }

  lemma PlainClaimValid(owner: string)
    ensures VerifyTransaction(PlainEnv(), map[], PlainClaim(owner)).None?
    ensures KeyOf(PlainEnv(), PlainClaim(owner)) == Some(owner)
  {
  }

  lemma PlainBlockContested()
    ensures var env, txs := PlainEnv(), PlainBlock().transactions;
            var c := AliasCoordinate(env, "@alice");
            && Contested(env, txs, c) && LastFor(env, txs, c) == Some(PlainClaim("second"))
  {
    var env, txs := PlainEnv(), PlainBlock().transactions;
    var c := AliasCoordinate(env, "@alice");
    PlainClaimValid("first");
    PlainClaimValid("second");
    assert FirstFor(env, txs, c) == Some(PlainClaim("first"));
    assert txs[|txs| - 1] == PlainClaim("second");
    assert "first"[0] != "second"[0];
  }

  lemma PlainHeaderOK()
    ensures VerifyHeader(PlainEnv(), PlainBlock().header, EMPTY.latestHeight + 1, EMPTY.latestHash).None?
    ensures PlainBlock().hash == BlockHash(PlainEnv(), PlainBlock().header)
  {
    PlainHeaderFits(PlainBlock().header);
  }

  lemma PlainHeaderFits(h: Header)
    requires h == Header(0, "", 0, "validator", "")
    ensures VerifyHeader(PlainEnv(), h, 0, "").None?
  {
    var v := "validator";
    assert forall i :: 0 <= i < |v| ==> v[i] != ':';
    assert v in PlainEnv().validators && PlainEnv().decodesPeer(v);
  }

  lemma PlainClaimsOK()
    ensures forall i :: 0 <= i < |PlainBlock().transactions| ==>
              VerifyTransaction(PlainEnv(), EMPTY.names.aliases, PlainBlock().transactions[i]).None?
    ensures KeyOf(PlainEnv(), PlainClaim("second")) == Some("second") && PlainClaim("second").ownerPeerId == "second"
  {
    PlainClaimValid("first");
    PlainClaimValid("second");
  }

  lemma PlainBlockAccepted()
    ensures AddBlock(PlainEnv(), EMPTY, PlainBlock()).1.None?
    ensures var c := AliasCoordinate(PlainEnv(), "@alice");
            var aliases := AddBlock(PlainEnv(), EMPTY, PlainBlock()).0.names.aliases;
            c in aliases && aliases[c] == AliasRecord("second", "second")
  {
    PlainBlockContested();
    PlainHeaderOK();
    PlainClaimsOK();
    LastClaimInBlockWins(PlainEnv(), EMPTY, PlainBlock(), AliasCoordinate(PlainEnv(), "@alice"));
  }

  /**
   One input: the first block of a ledger, with two claims to one alias, is accepted and gives the
   alias to the second claimant, in every later state.
   */
  lemma {:induction false} ContestedBlockExample(more: seq<Event>)
    ensures var c := AliasCoordinate(PlainEnv(), "@alice");
            var names := Run(PlainEnv(), [Full(PlainBlock())] + more).names;
            && Contested(PlainEnv(), PlainBlock().transactions, c)
            && AddBlock(PlainEnv(), EMPTY, PlainBlock()).1.None?
            && c in names.aliases && names.aliases[c] == AliasRecord("second", "second")
  {
    PlainEnvIsSound();
    PlainBlockContested();
    PlainBlockAccepted();
    RunSnoc(PlainEnv(), [], Full(PlainBlock()));
    assert [] + [Full(PlainBlock())] == [Full(PlainBlock())];
    FirstOwnerStays(PlainEnv(), [Full(PlainBlock())], more, AliasCoordinate(PlainEnv(), "@alice"));
  }
}
