/**
 Cryptography taken symbolically.  A key pair is a number that stands for both its halves, a
 Diffie-Hellman secret is an unordered pair of key pairs, every key derivation is a free
 constructor, and a box opens exactly under the key that sealed it.
 */
module SymbolicCrypto {
  import opened Prelude

  type KeyId = nat

  datatype Key =
    | Empty                          // the empty byte string
    | Shared(low: KeyId, high: KeyId)
    | RootHalf(secret: Key)          // first half of the "p2p-core-dh-ratchet" expansion
    | ChainHalf(secret: Key)         // second half of the same expansion
    | MessageKey(chain: Key)         // first half of a symmetric ratchet step
    | NextChain(chain: Key)          // second half of a symmetric ratchet step

  datatype Box = Sealed(key: Key, plaintext: string)

  function DeriveSharedSecret(priv: KeyId, pub: KeyId): Key {
    if priv <= pub then Shared(priv, pub) else Shared(pub, priv)
  }

  function Open(key: Key, box: Box): Option<string> {
    if key == box.key then Some(box.plaintext) else None
  }

  /** The sending or receiving chain that two ratchet key pairs agree on. */
  function ChainOf(a: KeyId, b: KeyId): Key {
    ChainHalf(DeriveSharedSecret(a, b))
  }

  /** The chain key reached after `n` symmetric ratchet steps. */
  function Advance(chain: Key, n: nat): Key {
    if n == 0 then chain else NextChain(Advance(chain, n - 1))
  }

  /** Stepping first or last makes no difference. */
  lemma {:induction false} AdvanceNext(chain: Key, n: nat)
    ensures Advance(NextChain(chain), n) == Advance(chain, n + 1)
  {
    if n > 0 {
      AdvanceNext(chain, n - 1);
    }
  }

  lemma {:induction false} AdvanceTwice(chain: Key, m: nat, n: nat)
    ensures Advance(Advance(chain, m), n) == Advance(chain, m + n)
  {
    if n > 0 {
      AdvanceTwice(chain, m, n - 1);
    }
  }

  /** Chains grown from different secrets never meet, and one chain never revisits a key. */
  lemma {:induction false} AdvanceInjective(s: Key, i: nat, t: Key, j: nat)
    ensures Advance(ChainHalf(s), i) == Advance(ChainHalf(t), j) ==> s == t && i == j
  {
    if i > 0 && j > 0 {
      AdvanceInjective(s, i - 1, t, j - 1);
    }
  }
}
