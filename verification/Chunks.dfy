// The snapshot stream: encoded sizes, the size-driven splitter, and what the chunks are.
module Chunks {
  import opened Types
  import opened Ascending
  import opened Keys
  import Store

  datatype AltAccount = AltAccount(pubkey: Bytes, data: Bytes)
  datatype Chunk = Chunk(confirmedSlot: Slot, totalAccounts: U64, accounts: seq<AltAccount>)

  const TARGET_CHUNK_BYTES: nat := 2 * 1024 * 1024

  // ----- Encoded sizes: Protocol Buffers Encoding, "Base 128 Varints" and "Length-Delimited
  // Records"; every field number here is below 16, so each tag takes one byte. -----

  function VarintLen(x: nat): nat {
    if x < 128 then 1 else 1 + VarintLen(x / 128)
  }

  function BytesFieldLen(n: nat): nat {
    if n == 0 then 0 else 1 + VarintLen(n) + n
  }

  function UintFieldLen(x: nat): nat {
    if x == 0 then 0 else 1 + VarintLen(x)
  }

  function AccountLen(a: AltAccount): nat {
    BytesFieldLen(|a.pubkey|) + BytesFieldLen(|a.data|)
  }

  function EntryLen(a: AltAccount): nat {
    1 + VarintLen(AccountLen(a)) + AccountLen(a)
  }

  function EntriesLen(accounts: seq<AltAccount>): nat {
    if accounts == [] then 0 else EntriesLen(accounts[..|accounts| - 1]) + EntryLen(accounts[|accounts| - 1])
  }

  function ChunkLen(c: Chunk): nat {
    UintFieldLen(c.confirmedSlot) + UintFieldLen(c.totalAccounts) + EntriesLen(c.accounts)
  }

  // ----- The encoding these are the sizes of -----

  // Seven bits a byte, the lowest first, each but the last with the top bit set.
  function Varint(x: nat): Bytes {
    if x < 128 then [x] else [128 + x % 128] + Varint(x / 128)
  }

  // The number a varint spells, and what follows it.
  function ReadVarint(b: Bytes): Option<(nat, Bytes)> {
    if b == [] then None
    else if b[0] < 128 then Some((b[0], b[1..]))
    else
      match ReadVarint(b[1..])
      case Some((x, rest)) => Some((b[0] - 128 + 128 * x, rest))
      case None => None
  }

  // A field is left out when it has its default value; a tag is the field number and the wire type, zero
  // for a number and two for a length-delimited value.
  function UintField(field: nat, x: nat): Bytes
    requires field < 16
  {
    if x == 0 then [] else [8 * field] + Varint(x)
  }

  function BytesField(field: nat, b: Bytes): Bytes
    requires field < 16
  {
    if b == [] then [] else [8 * field + 2] + Varint(|b|) + b
  }

  function EncodeAccount(a: AltAccount): Bytes {
    BytesField(1, a.pubkey) + BytesField(2, a.data)
  }

  // A repeated message is written even when it is empty.
  function EncodeEntry(a: AltAccount): Bytes {
    [8 * 3 + 2] + Varint(|EncodeAccount(a)|) + EncodeAccount(a)
  }

  function EncodeEntries(accounts: seq<AltAccount>): Bytes {
    if accounts == [] then [] else EncodeEntries(accounts[..|accounts| - 1]) + EncodeEntry(accounts[|accounts| - 1])
  }

  function EncodeChunk(c: Chunk): Bytes {
    UintField(1, c.confirmedSlot) + UintField(2, c.totalAccounts) + EncodeEntries(c.accounts)
  }

  lemma {:induction false} VarintReads(x: nat, rest: Bytes)
    ensures ReadVarint(Varint(x) + rest) == Some((x, rest))
    ensures |Varint(x)| == VarintLen(x)
  {
    var b := Varint(x) + rest;
    if x < 128 {
      assert b[1..] == rest;
    } else {
      VarintReads(x / 128, rest);
      assert b[1..] == Varint(x / 128) + rest;
    }
  }

  lemma AccountSize(a: AltAccount)
    ensures |EncodeAccount(a)| == AccountLen(a) && |EncodeEntry(a)| == EntryLen(a)
  {
    VarintReads(|a.pubkey|, []);
    VarintReads(|a.data|, []);
    VarintReads(|EncodeAccount(a)|, []);
  }

  lemma {:induction false} EntriesSize(accounts: seq<AltAccount>)
    ensures |EncodeEntries(accounts)| == EntriesLen(accounts)
  {
    if accounts == [] {
    } else {
      EntriesSize(accounts[..|accounts| - 1]);
      AccountSize(accounts[|accounts| - 1]);
    }
  }

  // The size of a chunk is the length of its encoding.
  lemma ChunkSize(c: Chunk)
    ensures |EncodeChunk(c)| == ChunkLen(c)
  {
    VarintReads(c.confirmedSlot, []);
    VarintReads(c.totalAccounts, []);
    EntriesSize(c.accounts);
  }

  // ----- The splitter -----

  datatype Splitting = Splitting(sent: seq<Chunk>, open: seq<AltAccount>)

  function SplitOpen(slot: Slot, total: U64, entries: seq<AltAccount>): Splitting {
    if entries == [] then Splitting([], [])
    else
      var s := SplitOpen(slot, total, entries[..|entries| - 1]);
      var open := s.open + [entries[|entries| - 1]];
      if ChunkLen(Chunk(slot, total, open)) >= TARGET_CHUNK_BYTES then
        Splitting(s.sent + [Chunk(slot, total, open)], [])
      else Splitting(s.sent, open)
  }

  function Split(slot: Slot, total: U64, entries: seq<AltAccount>): seq<Chunk> {
    var s := SplitOpen(slot, total, entries);
    if s.open != [] || total == 0 then s.sent + [Chunk(slot, total, s.open)] else s.sent
  }

  method StreamChunks(slot: Slot, total: U64, entries: seq<AltAccount>) returns (sent: seq<Chunk>)
    ensures sent == Split(slot, total, entries)
  {
    sent := [];
    var chunk := Chunk(slot, total, []);
    for i := 0 to |entries|
      invariant chunk.confirmedSlot == slot && chunk.totalAccounts == total
      invariant SplitOpen(slot, total, entries[..i]) == Splitting(sent, chunk.accounts)
    {
      assert entries[..i + 1][..i] == entries[..i];
      chunk := chunk.(accounts := chunk.accounts + [entries[i]]);
      if ChunkLen(chunk) >= TARGET_CHUNK_BYTES {
        sent := sent + [chunk];
        chunk := Chunk(slot, total, []);
      }
    }
    assert entries[..|entries|] == entries;
    if chunk.accounts != [] || total == 0 {
      sent := sent + [chunk];
    }
  }

  function Concat(chunks: seq<Chunk>): seq<AltAccount> {
    if chunks == [] then [] else Concat(chunks[..|chunks| - 1]) + chunks[|chunks| - 1].accounts
  }

  lemma ConcatSnoc(chunks: seq<Chunk>, c: Chunk)
    ensures Concat(chunks + [c]) == Concat(chunks) + c.accounts
  {
    assert (chunks + [c])[..|chunks|] == chunks;
  }

  lemma {:induction false} VarintLenBound(x: nat, n: nat, limit: nat)
    requires n > 0 && limit == Power128(n) && x < limit
    ensures 1 <= VarintLen(x) <= n
  {
    if x < 128 {
    } else {
      VarintLenBound(x / 128, n - 1, Power128(n - 1));
    }
  }

  function Power128(n: nat): nat {
    if n == 0 then 1 else 128 * Power128(n - 1)
  }

  // The two header fields take at most eleven bytes each.
  lemma HeaderLen(slot: Slot, total: U64)
    ensures ChunkLen(Chunk(slot, total, [])) <= 22
  {
    assert Power128(5) == 0x8_0000_0000;
    assert Power128(10) == 0x40_0000_0000_0000_0000;
    VarintLenBound(slot, 10, Power128(10));
    VarintLenBound(total, 10, Power128(10));
  }

  // A chunk that was closed by its size: it reached the target with its last entry.
  ghost predicate Closed(c: Chunk) {
    && c.accounts != []
    && TARGET_CHUNK_BYTES <= ChunkLen(c) < TARGET_CHUNK_BYTES + EntryLen(c.accounts[|c.accounts| - 1])
  }

  lemma ChunkLenSnoc(slot: Slot, total: U64, open: seq<AltAccount>, e: AltAccount)
    ensures ChunkLen(Chunk(slot, total, open + [e])) == ChunkLen(Chunk(slot, total, open)) + EntryLen(e)
  {
    assert (open + [e])[..|open|] == open;
  }

  function Flat(s: Splitting): seq<AltAccount> {
    Concat(s.sent) + s.open
  }

  // Closing the open chunk or not, one more entry goes at the end.
  lemma FlatEntry(s: Splitting, e: AltAccount, slot: Slot, total: U64)
    ensures Flat(Splitting(s.sent, s.open + [e])) == Flat(s) + [e]
    ensures Flat(Splitting(s.sent + [Chunk(slot, total, s.open + [e])], [])) == Flat(s) + [e]
  {
    ConcatSnoc(s.sent, Chunk(slot, total, s.open + [e]));
  }

  lemma SplitOpenStep(slot: Slot, total: U64, entries: seq<AltAccount>, e: AltAccount)
    ensures var s, s' := SplitOpen(slot, total, entries), SplitOpen(slot, total, entries + [e]);
            || s' == Splitting(s.sent, s.open + [e])
            || s' == Splitting(s.sent + [Chunk(slot, total, s.open + [e])], [])
  {
    assert (entries + [e])[..|entries|] == entries;
  }

  lemma {:induction false} SplitOpenConcat(slot: Slot, total: U64, entries: seq<AltAccount>)
    ensures Flat(SplitOpen(slot, total, entries)) == entries
  {
    if entries == [] {
    } else {
      var init, e := entries[..|entries| - 1], entries[|entries| - 1];
      assert init + [e] == entries;
      SplitOpenConcat(slot, total, init);
      SplitOpenStep(slot, total, init, e);
      FlatEntry(SplitOpen(slot, total, init), e, slot, total);
    }
  }

  lemma {:induction false} SplitOpenSizes(slot: Slot, total: U64, entries: seq<AltAccount>)
    ensures var s := SplitOpen(slot, total, entries);
            && (forall c :: c in s.sent ==> Closed(c) && c.confirmedSlot == slot && c.totalAccounts == total)
            && ChunkLen(Chunk(slot, total, s.open)) < TARGET_CHUNK_BYTES
  {
    HeaderLen(slot, total);
    if entries == [] {
    } else {
      var init, e := entries[..|entries| - 1], entries[|entries| - 1];
      SplitOpenSizes(slot, total, init);
      var s := SplitOpen(slot, total, init);
      ChunkLenSnoc(slot, total, s.open, e);
    }
  }

  // The size bounds of chunk i, on its encoding: below two mebibytes plus its last entry, and at least
  // two mebibytes unless it is the last.
  ghost predicate WellSized(chunks: seq<Chunk>, i: nat)
    requires i < |chunks|
  {
    var c := chunks[i];
    && c.accounts != []
    && |EncodeChunk(c)| < 2_097_152 + |EncodeEntry(c.accounts[|c.accounts| - 1])|
    && (i < |chunks| - 1 ==> 2_097_152 <= |EncodeChunk(c)|)
  }

  lemma SentIsWellSized(slot: Slot, entries: seq<AltAccount>, i: nat)
    requires |entries| < 0x1_0000_0000_0000_0000 && entries != []
    requires i < |Split(slot, |entries|, entries)|
    ensures WellSized(Split(slot, |entries|, entries), i)
  {
    var s, chunks := SplitOpen(slot, |entries|, entries), Split(slot, |entries|, entries);
    SplitOpenSizes(slot, |entries|, entries);
    var c := chunks[i];
    ChunkSize(c);
    if i < |s.sent| {
      assert c in s.sent;
    }
    AccountSize(c.accounts[|c.accounts| - 1]);
  }

  // The chunks concatenate to the entries in order and carry the same header; an empty chunk
  // appears only for an empty snapshot, alone; and every chunk is well sized.
  lemma SplitShape(slot: Slot, entries: seq<AltAccount>)
    requires |entries| < 0x1_0000_0000_0000_0000
    ensures var chunks := Split(slot, |entries|, entries);
            && chunks != []
            && Concat(chunks) == entries
            && (forall c :: c in chunks ==> c.confirmedSlot == slot && c.totalAccounts == |entries|)
            && (entries == [] ==> chunks == [Chunk(slot, 0, [])] && |EncodeChunk(chunks[0])| <= 22)
            && (entries != [] ==> forall i :: 0 <= i < |chunks| ==> WellSized(chunks, i))
  {
    SplitOpenConcat(slot, |entries|, entries);
    SplitOpenSizes(slot, |entries|, entries);
    HeaderLen(slot, |entries|);
    ChunkSize(Chunk(slot, 0, []));
    var s := SplitOpen(slot, |entries|, entries);
    var chunks := Split(slot, |entries|, entries);
    ConcatSnoc(s.sent, Chunk(slot, |entries|, s.open));
    if entries != [] {
      forall i | 0 <= i < |chunks|
        ensures WellSized(chunks, i)
      {
        SentIsWellSized(slot, entries, i);
      }
    }
  }

  // ----- The chunks of a snapshot -----

  ghost function EntriesOf(m: Accounts): (es: seq<AltAccount>)
    ensures |es| == |m|
  {
    var keys := Store.KeysAfter(m, None);
    Store.KeysAfterIsListing(m, None);
    seq(|keys|, i requires 0 <= i < |keys| => AltAccount(BytesOf(keys[i]), m[keys[i]].data))
  }

  // Every account once, with its key and data, in the order of the keys' bytes.
  lemma EntriesExactly(m: Accounts)
    ensures var es := EntriesOf(m);
            && |es| == |m|
            && (forall i :: 0 <= i < |es| ==>
                  KeyOf(es[i].pubkey).Some? && KeyOf(es[i].pubkey).value in m
                  && es[i].data == m[KeyOf(es[i].pubkey).value].data)
            && (forall i, j :: 0 <= i < j < |es| ==> Below(es[i].pubkey, es[j].pubkey))
  {
    var keys, es := Store.KeysAfter(m, None), EntriesOf(m);
    Store.KeysAfterIsListing(m, None);
    forall i | 0 <= i < |es|
      ensures KeyOf(es[i].pubkey) == Some(keys[i])
    {
      KeyRoundTrip(keys[i]);
    }
    forall i, j | 0 <= i < j < |es|
      ensures |es[i].pubkey| == |es[j].pubkey| && Below(es[i].pubkey, es[j].pubkey)
    {
      OrderIsNumeric(es[i].pubkey, es[j].pubkey);
    }
  }

  ghost function ChunksOf(snapshot: Store.Snapshot): seq<Chunk>
    requires |snapshot.accounts| < 0x1_0000_0000_0000_0000
  {
    Split(snapshot.slot, |snapshot.accounts|, EntriesOf(snapshot.accounts))
  }

  method StreamSnapshot(store: Store.Store) returns (r: Result<seq<Chunk>, Store.PageError>)
    requires |store.current.accounts| < 0x1_0000_0000_0000_0000
    ensures r == if store.ready then Ok(ChunksOf(store.current)) else Err(Store.NotReady)
  {
    var snapshot := store.ReadSnapshot();
    if snapshot.Err? {
      return Err(snapshot.error);
    }
    var m := snapshot.value.accounts;
    var keys := Sort(Store.KeysAbove(m, None));
    Store.KeysAfterIsListing(m, None);
    assert forall i :: 0 <= i < |keys| ==> keys[i] in keys;
    var entries := seq(|keys|, i requires 0 <= i < |keys| => AltAccount(BytesOf(keys[i]), m[keys[i]].data));
    assert entries == EntriesOf(m);
    var sent := StreamChunks(snapshot.value.slot, |m|, entries);
    r := Ok(sent);
  }
}
