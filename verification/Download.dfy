// The client's side of the snapshot stream: accumulation, the completeness check, and the proof
// that a download succeeds exactly when every chunk arrived.
module Download {
  import opened Types
  import opened Keys
  import opened Gate
  import opened Chunks
  import Store

  type Tables = map<Key, Table>

  datatype DownloadState = DownloadState(slot: Option<Slot>, totalAccounts: Option<U64>, tables: Option<Tables>)
  datatype PushError = SlotChanged | CountChanged | BadAddress | BadTable
  datatype FinishError = Empty | Incomplete
  datatype Completed = Completed(slot: Slot, tables: Tables)

  const FRESH: DownloadState := DownloadState(None, None, None)

  function AddTable(c: Codec, tables: Tables, a: AltAccount): Result<Tables, PushError> {
    match KeyOf(a.pubkey)
    case None => Err(BadAddress)
    case Some(k) =>
      match c.decodeTable(a.data)
      case None => Err(BadTable)
      case Some(t) => Ok(tables[k := t])
  }

  function AddTables(c: Codec, tables: Tables, accounts: seq<AltAccount>): Result<Tables, PushError> {
    if accounts == [] then Ok(tables)
    else
      match AddTables(c, tables, accounts[..|accounts| - 1])
      case Err(e) => Err(e)
      case Ok(m) => AddTable(c, m, accounts[|accounts| - 1])
  }

  function OrElse<T>(o: Option<T>, t: T): T {
    if o.Some? then o.value else t
  }

  function Push(c: Codec, s: DownloadState, chunk: Chunk): Result<DownloadState, PushError> {
    var slot, total := OrElse(s.slot, chunk.confirmedSlot), OrElse(s.totalAccounts, chunk.totalAccounts);
    if chunk.confirmedSlot != slot then Err(SlotChanged)
    else if chunk.totalAccounts != total then Err(CountChanged)
    else
      match AddTables(c, OrElse(s.tables, map[]), chunk.accounts)
      case Err(e) => Err(e)
      case Ok(tables) => Ok(DownloadState(Some(slot), Some(total), Some(tables)))
  }

  function Concluded(s: DownloadState): Result<Completed, FinishError>
    requires s.slot.Some? ==> s.totalAccounts.Some? && s.tables.Some?
  {
    if s.slot.None? then Err(Empty)
    else if |s.tables.value| != s.totalAccounts.value then Err(Incomplete)
    else Ok(Completed(s.slot.value, s.tables.value))
  }

  class SnapshotDownload {
    const codec: Codec
    var slot: Option<Slot>
    var totalAccounts: Option<U64>
    var tables: Option<Tables>

    ghost function Current(): DownloadState
      reads this
    {
      DownloadState(slot, totalAccounts, tables)
    }

    constructor (codec: Codec)
      ensures Current() == FRESH && this.codec == codec
    {
      this.codec := codec;
      slot := None;
      totalAccounts := None;
      tables := None;
    }

    // A failed push leaves a partial download, which its caller drops.
    method PushChunk(chunk: Chunk) returns (failed: Option<PushError>)
      modifies this
      ensures match Push(codec, old(Current()), chunk)
              case Ok(s) => failed == None && Current() == s
              case Err(e) => failed == Some(e)
    {
      if slot.None? {
        slot := Some(chunk.confirmedSlot);
      }
      if chunk.confirmedSlot != slot.value {
        return Some(SlotChanged);
      }
      if totalAccounts.None? {
        totalAccounts := Some(chunk.totalAccounts);
      }
      if chunk.totalAccounts != totalAccounts.value {
        return Some(CountChanged);
      }
      if tables.None? {
        tables := Some(map[]);
      }
      failed := InsertTables(chunk.accounts);
    }

    method InsertTables(accounts: seq<AltAccount>) returns (failed: Option<PushError>)
      requires tables.Some?
      modifies this`tables
      ensures match AddTables(codec, old(tables.value), accounts)
              case Ok(t) => failed == None && tables == Some(t)
              case Err(e) => failed == Some(e)
    {
      ghost var start := tables.value;
      for i := 0 to |accounts|
        invariant tables.Some? && AddTables(codec, start, accounts[..i]) == Ok(tables.value)
      {
        assert accounts[..i + 1][..i] == accounts[..i];
        var added := AddTable(codec, tables.value, accounts[i]);
        if added.Err? {
          FailedPrefix(codec, start, accounts, i + 1);
          return Some(added.error);
        }
        tables := Some(added.value);
      }
      assert accounts[..|accounts|] == accounts;
      failed := None;
    }

    method Complete() returns (r: Result<Completed, FinishError>)
      requires slot.Some? ==> totalAccounts.Some? && tables.Some?
      ensures r == Concluded(Current())
    {
      if slot.None? {
        return Err(Empty);
      }
      if |tables.value| != totalAccounts.value {
        return Err(Incomplete);
      }
      r := Ok(Completed(slot.value, tables.value));
    }
  }

  lemma {:induction false} FailedPrefix(c: Codec, start: Tables, accounts: seq<AltAccount>, n: nat)
    requires n <= |accounts| && AddTables(c, start, accounts[..n]).Err?
    ensures AddTables(c, start, accounts) == AddTables(c, start, accounts[..n])
    decreases |accounts| - n
  {
    if n == |accounts| {
      assert accounts[..n] == accounts;
    } else {
      assert accounts[..n + 1][..n] == accounts[..n];
      FailedPrefix(c, start, accounts, n + 1);
    }
  }

  // ----- Round trip and completeness -----

  function PushAll(c: Codec, chunks: seq<Chunk>): Result<DownloadState, PushError> {
    if chunks == [] then Ok(FRESH)
    else
      match PushAll(c, chunks[..|chunks| - 1])
      case Err(e) => Err(e)
      case Ok(s) => Push(c, s, chunks[|chunks| - 1])
  }

  // The decoded tables of a stored map.
  ghost function DecodeMap(c: Codec, m: Accounts): Tables
    requires AllWellFormed(c, m)
  {
    map k | k in m :: c.decodeTable(m[k].data).value
  }

  ghost predicate EntryFor(m: Accounts, k: Key, a: AltAccount) {
    k in m && a == AltAccount(BytesOf(k), m[k].data)
  }

  ghost predicate IsEntry(m: Accounts, a: AltAccount) {
    exists k :: EntryFor(m, k, a)
  }

  ghost function KeysIn(m: Accounts, accounts: seq<AltAccount>): set<Key> {
    set k | k in m && AltAccount(BytesOf(k), m[k].data) in accounts
  }

  ghost function Only(t: Tables, keys: set<Key>): Tables {
    map k | k in t && k in keys :: t[k]
  }

  lemma AddKnownTable(c: Codec, m: Accounts, have: set<Key>, k: Key, a: AltAccount)
    requires AllWellFormed(c, m) && EntryFor(m, k, a)
    ensures AddTable(c, Only(DecodeMap(c, m), have), a) == Ok(Only(DecodeMap(c, m), have + {k}))
  {
    KeyRoundTrip(k);
    var all := DecodeMap(c, m);
    assert Only(all, have + {k}) == Only(all, have)[k := all[k]];
  }

  lemma {:induction false} AddKnownTables(c: Codec, m: Accounts, have: set<Key>, accounts: seq<AltAccount>)
    requires AllWellFormed(c, m)
    requires forall a :: a in accounts ==> IsEntry(m, a)
    ensures AddTables(c, Only(DecodeMap(c, m), have), accounts) == Ok(Only(DecodeMap(c, m), have + KeysIn(m, accounts)))
  {
    if accounts == [] {
      assert have + KeysIn(m, accounts) == have;
    } else {
      var init, a := accounts[..|accounts| - 1], accounts[|accounts| - 1];
      assert accounts == init + [a];
      AddKnownTables(c, m, have, init);
      assert IsEntry(m, a);
      var k :| EntryFor(m, k, a);
      AddKnownTable(c, m, have + KeysIn(m, init), k, a);
      SameEntryKeys(m, init, a, k);
      assert have + KeysIn(m, accounts) == have + KeysIn(m, init) + {k};
    }
  }

  lemma SameEntryKeys(m: Accounts, init: seq<AltAccount>, a: AltAccount, k: Key)
    requires EntryFor(m, k, a)
    ensures KeysIn(m, init + [a]) == KeysIn(m, init) + {k}
  {
    forall j | j in m && AltAccount(BytesOf(j), m[j].data) == a
      ensures j == k
    {
      KeyRoundTrip(j);
      KeyRoundTrip(k);
    }
  }

  // Every pushed chunk is one of the snapshot's.
  ghost predicate Drawn(pushed: seq<Chunk>, chunks: seq<Chunk>) {
    forall c :: c in pushed ==> c in chunks
  }

  // The download once the keys `have` of the snapshot have arrived.
  ghost function Holding(c: Codec, snapshot: Store.Snapshot, have: set<Key>): DownloadState
    requires AllWellFormed(c, snapshot.accounts) && |snapshot.accounts| < 0x1_0000_0000_0000_0000
  {
    DownloadState(Some(snapshot.slot), Some(|snapshot.accounts|), Some(Only(DecodeMap(c, snapshot.accounts), have)))
  }

  lemma PushKnownChunk(c: Codec, snapshot: Store.Snapshot, have: set<Key>, chunk: Chunk)
    requires AllWellFormed(c, snapshot.accounts) && |snapshot.accounts| < 0x1_0000_0000_0000_0000
    requires chunk in ChunksOf(snapshot)
    ensures var next := Ok(Holding(c, snapshot, have + KeysIn(snapshot.accounts, chunk.accounts)));
            && Push(c, Holding(c, snapshot, have), chunk) == next
            && (have == {} ==> Push(c, FRESH, chunk) == next)
  {
    ChunkEntries(snapshot, chunk);
    AddKnownTables(c, snapshot.accounts, have, chunk.accounts);
    assert Only(DecodeMap(c, snapshot.accounts), {}) == map[];
  }

  lemma KeysInSnoc(m: Accounts, pushed: seq<Chunk>, chunk: Chunk)
    ensures KeysIn(m, Concat(pushed + [chunk])) == KeysIn(m, Concat(pushed)) + KeysIn(m, chunk.accounts)
    ensures pushed == [] ==> KeysIn(m, Concat(pushed)) == {}
  {
    ConcatSnoc(pushed, chunk);
  }

  lemma {:induction false} PushDrawn(c: Codec, snapshot: Store.Snapshot, pushed: seq<Chunk>)
    requires AllWellFormed(c, snapshot.accounts) && |snapshot.accounts| < 0x1_0000_0000_0000_0000
    requires Drawn(pushed, ChunksOf(snapshot))
    ensures PushAll(c, pushed)
            == Ok(if pushed == [] then FRESH else Holding(c, snapshot, KeysIn(snapshot.accounts, Concat(pushed))))
  {
    if pushed == [] {
    } else {
      var init, chunk := pushed[..|pushed| - 1], pushed[|pushed| - 1];
      assert pushed == init + [chunk];
      PushDrawn(c, snapshot, init);
      var have := KeysIn(snapshot.accounts, Concat(init));
      PushKnownChunk(c, snapshot, have, chunk);
      KeysInSnoc(snapshot.accounts, init, chunk);
    }
  }

  lemma {:induction false} ConcatMember(chunks: seq<Chunk>, chunk: Chunk, a: AltAccount)
    requires chunk in chunks && a in chunk.accounts
    ensures a in Concat(chunks)
  {
    if chunk in chunks[..|chunks| - 1] {
      ConcatMember(chunks[..|chunks| - 1], chunk, a);
    }
  }

  lemma {:induction false} ConcatSource(chunks: seq<Chunk>, a: AltAccount)
    requires a in Concat(chunks)
    ensures exists c :: c in chunks && a in c.accounts
  {
    var init, last := chunks[..|chunks| - 1], chunks[|chunks| - 1];
    if a in last.accounts {
      assert last in chunks;
    } else {
      ConcatSource(init, a);
      var c :| c in init && a in c.accounts;
      assert c in chunks;
    }
  }

  lemma ChunkEntries(snapshot: Store.Snapshot, chunk: Chunk)
    requires |snapshot.accounts| < 0x1_0000_0000_0000_0000
    requires chunk in ChunksOf(snapshot)
    ensures chunk.confirmedSlot == snapshot.slot && chunk.totalAccounts == |snapshot.accounts|
    ensures forall a :: a in chunk.accounts ==> IsEntry(snapshot.accounts, a)
  {
    var m := snapshot.accounts;
    SplitShape(snapshot.slot, EntriesOf(m));
    forall a | a in chunk.accounts
      ensures IsEntry(m, a)
    {
      ConcatMember(ChunksOf(snapshot), chunk, a);
      var keys := Store.KeysAfter(m, None);
      var i :| 0 <= i < |keys| && EntriesOf(m)[i] == a;
      assert EntryFor(m, keys[i], a);
    }
  }

  // An entry of a sequence without repetitions lies in one chunk only.
  lemma {:induction false} OneChunkPerEntry(chunks: seq<Chunk>, i: nat, j: nat, a: AltAccount)
    requires i < j < |chunks| && a in chunks[i].accounts && a in chunks[j].accounts
    requires forall x, y :: 0 <= x < y < |Concat(chunks)| ==> Concat(chunks)[x] != Concat(chunks)[y]
    ensures false
  {
    var init, last := chunks[..|chunks| - 1], chunks[|chunks| - 1];
    var before := Concat(init);
    assert Concat(chunks) == before + last.accounts;
    if j == |chunks| - 1 {
      assert init[i] == chunks[i];
      ConcatMember(init, chunks[i], a);
      var x :| 0 <= x < |before| && before[x] == a;
      var y :| 0 <= y < |last.accounts| && last.accounts[y] == a;
      assert Concat(chunks)[x] == Concat(chunks)[|before| + y];
    } else {
      assert forall x :: 0 <= x < |before| ==> before[x] == Concat(chunks)[x];
      OneChunkPerEntry(init, i, j, a);
    }
  }

  lemma EntriesDistinct(m: Accounts)
    ensures forall x, y :: 0 <= x < y < |EntriesOf(m)| ==> EntriesOf(m)[x] != EntriesOf(m)[y]
    ensures forall k :: k in m ==> AltAccount(BytesOf(k), m[k].data) in EntriesOf(m)
  {
    var keys := Store.KeysAfter(m, None);
    forall x, y | 0 <= x < y < |EntriesOf(m)|
      ensures EntriesOf(m)[x] != EntriesOf(m)[y]
    {
      KeyRoundTrip(keys[x]);
      KeyRoundTrip(keys[y]);
    }
    forall k | k in m
      ensures AltAccount(BytesOf(k), m[k].data) in EntriesOf(m)
    {
      assert k in Store.KeysAbove(m, None);
      var i :| 0 <= i < |keys| && keys[i] == k;
      assert EntriesOf(m)[i] == AltAccount(BytesOf(k), m[k].data);
    }
  }

  lemma SubsetSize<T>(a: set<T>, b: set<T>)
    requires a <= b
    ensures |a| <= |b| && (|a| == |b| <==> a == b)
  {
    assert b == a + (b - a);
  }

  lemma InOneChunk(chunks: seq<Chunk>, c1: Chunk, c2: Chunk, a: AltAccount)
    requires forall x, y :: 0 <= x < y < |Concat(chunks)| ==> Concat(chunks)[x] != Concat(chunks)[y]
    requires c1 in chunks && c2 in chunks && a in c1.accounts && a in c2.accounts
    ensures c1 == c2
  {
    var i :| 0 <= i < |chunks| && chunks[i] == c1;
    var j :| 0 <= j < |chunks| && chunks[j] == c2;
    if i < j {
      OneChunkPerEntry(chunks, i, j, a);
    } else if j < i {
      OneChunkPerEntry(chunks, j, i, a);
    }
  }

  lemma EntryInOneChunk(snapshot: Store.Snapshot, c1: Chunk, c2: Chunk, a: AltAccount)
    requires |snapshot.accounts| < 0x1_0000_0000_0000_0000
    requires c1 in ChunksOf(snapshot) && c2 in ChunksOf(snapshot) && a in c1.accounts && a in c2.accounts
    ensures c1 == c2
  {
    SplitShape(snapshot.slot, EntriesOf(snapshot.accounts));
    EntriesDistinct(snapshot.accounts);
    InOneChunk(ChunksOf(snapshot), c1, c2, a);
  }

  // A missing chunk leaves one of its keys out.
  lemma MissingChunkMissesKey(snapshot: Store.Snapshot, pushed: seq<Chunk>, missing: Chunk)
    requires |snapshot.accounts| < 0x1_0000_0000_0000_0000
    requires Drawn(pushed, ChunksOf(snapshot)) && missing in ChunksOf(snapshot) && missing !in pushed
    requires missing.accounts != []
    ensures KeysIn(snapshot.accounts, Concat(pushed)) != snapshot.accounts.Keys
  {
    var m := snapshot.accounts;
    ChunkEntries(snapshot, missing);
    var a := missing.accounts[0];
    assert IsEntry(m, a);
    var k :| EntryFor(m, k, a);
    if a in Concat(pushed) {
      ConcatSource(pushed, a);
      var other :| other in pushed && a in other.accounts;
      EntryInOneChunk(snapshot, missing, other, a);
    }
    assert k !in KeysIn(m, Concat(pushed));
  }

  lemma AllChunksGiveAllKeys(snapshot: Store.Snapshot, pushed: seq<Chunk>)
    requires |snapshot.accounts| < 0x1_0000_0000_0000_0000
    requires forall chunk :: chunk in ChunksOf(snapshot) ==> chunk in pushed
    ensures KeysIn(snapshot.accounts, Concat(pushed)) == snapshot.accounts.Keys
  {
    var m, chunks := snapshot.accounts, ChunksOf(snapshot);
    SplitShape(snapshot.slot, EntriesOf(m));
    EntriesDistinct(m);
    forall k | k in m
      ensures k in KeysIn(m, Concat(pushed))
    {
      var a := AltAccount(BytesOf(k), m[k].data);
      ConcatSource(chunks, a);
      var chunk :| chunk in chunks && a in chunk.accounts;
      ConcatMember(pushed, chunk, a);
    }
  }

  // The keys received are all of them exactly when no chunk is missing.
  lemma KeysCompleteIff(snapshot: Store.Snapshot, pushed: seq<Chunk>)
    requires |snapshot.accounts| < 0x1_0000_0000_0000_0000
    requires Drawn(pushed, ChunksOf(snapshot)) && pushed != []
    ensures KeysIn(snapshot.accounts, Concat(pushed)) == snapshot.accounts.Keys
            <==> forall chunk :: chunk in ChunksOf(snapshot) ==> chunk in pushed
  {
    var chunks := ChunksOf(snapshot);
    if forall chunk :: chunk in chunks ==> chunk in pushed {
      AllChunksGiveAllKeys(snapshot, pushed);
    } else {
      var missing :| missing in chunks && missing !in pushed;
      SplitShape(snapshot.slot, EntriesOf(snapshot.accounts));
      var i :| 0 <= i < |chunks| && chunks[i] == missing;
      assert pushed[0] in pushed;
      assert EntriesOf(snapshot.accounts) != [];
      assert WellSized(chunks, i);
      MissingChunkMissesKey(snapshot, pushed, missing);
    }
  }

  // Whatever chunks of a snapshot arrive, in any order and with any repetition, every push
  // succeeds, and the download completes exactly when none is missing, with the decoded snapshot.
  lemma CompleteIffEveryChunkArrived(c: Codec, snapshot: Store.Snapshot, pushed: seq<Chunk>)
    requires AllWellFormed(c, snapshot.accounts) && |snapshot.accounts| < 0x1_0000_0000_0000_0000
    requires Drawn(pushed, ChunksOf(snapshot))
    ensures var s := PushAll(c, pushed);
            && s.Ok?
            && (s.value.slot.Some? ==> s.value.totalAccounts.Some? && s.value.tables.Some?)
            && var done := Concluded(s.value);
               && (done.Ok? <==> forall chunk :: chunk in ChunksOf(snapshot) ==> chunk in pushed)
               && (done.Ok? ==> done.value == Completed(snapshot.slot, DecodeMap(c, snapshot.accounts)))
  {
    PushDrawn(c, snapshot, pushed);
    if pushed == [] {
      SplitShape(snapshot.slot, EntriesOf(snapshot.accounts));
      assert ChunksOf(snapshot)[0] in ChunksOf(snapshot);
    } else {
      KeysCompleteIff(snapshot, pushed);
      HoldingCompletes(c, snapshot, KeysIn(snapshot.accounts, Concat(pushed)));
    }
  }

  lemma HoldingCompletes(c: Codec, snapshot: Store.Snapshot, have: set<Key>)
    requires AllWellFormed(c, snapshot.accounts) && |snapshot.accounts| < 0x1_0000_0000_0000_0000
    requires have <= snapshot.accounts.Keys
    ensures Concluded(Holding(c, snapshot, have))
            == if have == snapshot.accounts.Keys then Ok(Completed(snapshot.slot, DecodeMap(c, snapshot.accounts)))
               else Err(Incomplete)
  {
    var m := snapshot.accounts;
    assert DecodeMap(c, m).Keys == m.Keys;
    SameSize(DecodeMap(c, m), m);
    OnlySize(DecodeMap(c, m), have);
  }

  lemma SameSize<A, B>(a: map<Key, A>, b: map<Key, B>)
    requires a.Keys == b.Keys
    ensures |a| == |b|
  {
    assert |a| == |a.Keys| && |b| == |b.Keys|;
  }

  lemma OnlySize(t: Tables, keys: set<Key>)
    requires keys <= t.Keys
    ensures |Only(t, keys)| == |t| <==> keys == t.Keys
    ensures keys == t.Keys ==> Only(t, keys) == t
  {
    assert Only(t, keys).Keys == keys;
    assert |Only(t, keys)| == |keys| && |t| == |t.Keys|;
    SubsetSize(keys, t.Keys);
  }
}
