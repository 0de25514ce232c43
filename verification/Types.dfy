// Values shared by every part of the model: machine integers, byte strings, the stored account
// record, and optional or failing results.
module Types {

  type U64 = x: nat | x < 0x1_0000_0000_0000_0000
  type Slot = U64
  type Byte = b: nat | b < 256
  type Bytes = seq<Byte>

  datatype Option<+T> = None | Some(value: T)
  datatype Result<+T, +E> = Ok(value: T) | Err(error: E)

  // A 32-byte account key, represented by its big-endian value (module Keys shows that this
  // keeps the order of the byte arrays and loses nothing).
  const KEY_LIMIT: nat := 0x1_0000000000000000_0000000000000000_0000000000000000_0000000000000000
  type Key = k: nat | k < KEY_LIMIT

  // The fields of a stored account that the service ever reads back. The write version and the
  // transaction signature also travel with the record, but nothing serves or compares them.
  datatype Account = Account(
    pubkey: Bytes,
    lamports: U64,
    owner: Bytes,
    executable: bool,
    rentEpoch: U64,
    data: Bytes)

  type Accounts = map<Key, Account>

  function Lookup<K, V>(m: map<K, V>, k: K): Option<V> {
    if k in m then Some(m[k]) else None
  }

  // Insertion when there is a value, removal (a tombstone) when there is none.
  function Assign<K, V>(m: map<K, V>, k: K, v: Option<V>): map<K, V> {
    match v
    case Some(value) => m[k := value]
    case None => m - {k}
  }

  function Max(a: U64, b: U64): U64 {
    if a < b then b else a
  }

  lemma SameLookups<K(!new), V>(a: map<K, V>, b: map<K, V>)
    requires forall k :: Lookup(a, k) == Lookup(b, k)
    ensures a == b
  {
    assert forall k :: k in a <==> Lookup(a, k).Some?;
    assert forall k :: k in b <==> Lookup(b, k).Some?;
    assert a.Keys == b.Keys;
    forall k | k in a
      ensures a[k] == b[k]
    {
      assert Lookup(a, k) == Some(a[k]);
    }
  }
}
