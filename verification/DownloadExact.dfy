// Exactly which chunk sequences download, to what, and why the others do not.
module DownloadExact {
  import opened Types
  import opened Keys
  import opened Gate
  import opened Chunks
  import opened Download

  // An entry with a 32-byte address and decodable data.
  predicate IsFine(c: Codec, a: AltAccount) {
    |a.pubkey| == 32 && c.decodeTable(a.data).Some?
  }

  ghost predicate AllFine(c: Codec, accounts: seq<AltAccount>) {
    forall i :: 0 <= i < |accounts| ==> IsFine(c, accounts[i])
  }

  // Entry i is of key k.
  predicate IsEntryOf(accounts: seq<AltAccount>, k: Key, i: int) {
    0 <= i < |accounts| && KeyOf(accounts[i].pubkey) == Some(k)
  }

  // value is the table of the last entry of k, or the start value without one.
  ghost predicate HoldsLast(c: Codec, start: Tables, accounts: seq<AltAccount>, k: Key, value: Option<Table>) {
    || (exists i :: IsEntryOf(accounts, k, i) && (forall j :: i < j < |accounts| ==> !IsEntryOf(accounts, k, j))
                    && value == c.decodeTable(accounts[i].data))
    || ((forall i :: !IsEntryOf(accounts, k, i)) && value == Lookup(start, k))
  }

  lemma {:induction false} AddTablesExactly(c: Codec, start: Tables, accounts: seq<AltAccount>, k: Key)
    ensures AddTables(c, start, accounts).Ok? <==> AllFine(c, accounts)
    ensures AddTables(c, start, accounts).Ok? ==>
              HoldsLast(c, start, accounts, k, Lookup(AddTables(c, start, accounts).value, k))
  {
    if accounts == [] {
    } else {
      var n := |accounts| - 1;
      var init, a := accounts[..n], accounts[n];
      AddTablesExactly(c, start, init, k);
      assert AllFine(c, accounts) <==> AllFine(c, init) && IsFine(c, a);
      if AddTables(c, start, accounts).Ok? {
        HoldsLastSnoc(c, start, init, a, k, Lookup(AddTables(c, start, init).value, k));
        assert init + [a] == accounts;
      }
    }
  }

  lemma HoldsLastSnoc(c: Codec, start: Tables, accounts: seq<AltAccount>, a: AltAccount, k: Key, before: Option<Table>)
    requires HoldsLast(c, start, accounts, k, before)
    ensures HoldsLast(c, start, accounts + [a], k, if KeyOf(a.pubkey) == Some(k) then c.decodeTable(a.data) else before)
  {
    var all, n := accounts + [a], |accounts|;
    forall i
      ensures IsEntryOf(all, k, i) <==> if i == n then KeyOf(a.pubkey) == Some(k) else IsEntryOf(accounts, k, i)
    {
    }
    if KeyOf(a.pubkey) == Some(k) {
      assert IsEntryOf(all, k, n);
    } else if i :| IsEntryOf(accounts, k, i) && (forall j :: i < j < |accounts| ==> !IsEntryOf(accounts, k, j))
                   && before == c.decodeTable(accounts[i].data) {
      assert IsEntryOf(all, k, i);
    }
  }

  // The error is that of the first entry that is not fine.
  lemma {:induction false} AddTablesFails(c: Codec, start: Tables, accounts: seq<AltAccount>, n: nat)
    requires n < |accounts| && AllFine(c, accounts[..n]) && !IsFine(c, accounts[n])
    ensures AddTables(c, start, accounts) == Err(if |accounts[n].pubkey| != 32 then BadAddress else BadTable)
  {
    var someKey: Key := 0;
    AddTablesExactly(c, start, accounts[..n], someKey);
    assert accounts[..n + 1][..n] == accounts[..n];
    FailedPrefix(c, start, accounts, n + 1);
  }

  lemma {:induction false} AddTablesConcat(c: Codec, start: Tables, a: seq<AltAccount>, b: seq<AltAccount>)
    ensures AddTables(c, start, a + b)
            == match AddTables(c, start, a) case Err(e) => Err(e) case Ok(m) => AddTables(c, m, b)
  {
    if b == [] {
      assert a + b == a;
    } else {
      assert (a + b)[..|a + b| - 1] == a + b[..|b| - 1];
      AddTablesConcat(c, start, a, b[..|b| - 1]);
    }
  }

  // ----- Chunk after chunk -----

  // Chunk i has the header of the first and only fine entries.
  ghost predicate ChunkFits(c: Codec, chunks: seq<Chunk>, i: nat)
    requires i < |chunks|
  {
    && chunks[i].confirmedSlot == chunks[0].confirmedSlot
    && chunks[i].totalAccounts == chunks[0].totalAccounts
    && AllFine(c, chunks[i].accounts)
  }

  // The download after chunks that all fit.
  ghost predicate IsDownloaded(c: Codec, chunks: seq<Chunk>, s: DownloadState) {
    if chunks == [] then s == DownloadState(None, None, None)
    else
      && s.slot == Some(chunks[0].confirmedSlot) && s.totalAccounts == Some(chunks[0].totalAccounts)
      && s.tables.Some? && AddTables(c, map[], Concat(chunks)) == Ok(s.tables.value)
  }

  // The first fault of a chunk after those before it.
  ghost predicate IsFault(c: Codec, chunks: seq<Chunk>, n: nat, error: PushError)
    requires n < |chunks|
  {
    if chunks[n].confirmedSlot != chunks[0].confirmedSlot then error == SlotChanged
    else if chunks[n].totalAccounts != chunks[0].totalAccounts then error == CountChanged
    else
      exists i: nat ::
        && i < |chunks[n].accounts| && AllFine(c, chunks[n].accounts[..i]) && !IsFine(c, chunks[n].accounts[i])
        && error == if |chunks[n].accounts[i].pubkey| != 32 then BadAddress else BadTable
  }

  lemma PushExactly(c: Codec, chunks: seq<Chunk>, chunk: Chunk, s: DownloadState)
    requires IsDownloaded(c, chunks, s)
    ensures var all, r := chunks + [chunk], Push(c, s, chunk);
            && (r.Ok? <==> ChunkFits(c, all, |chunks|))
            && (r.Ok? ==> IsDownloaded(c, all, r.value))
            && (r.Err? ==> IsFault(c, all, |chunks|, r.error))
  {
    var all, n := chunks + [chunk], |chunks|;
    assert all[n] == chunk && all[0] == if n == 0 then chunk else chunks[0];
    ConcatSnoc(chunks, chunk);
    AddTablesConcat(c, map[], Concat(chunks), chunk.accounts);
    var start, someKey: Key := OrElse(s.tables, map[]), 0;
    AddTablesExactly(c, start, chunk.accounts, someKey);
    if !AllFine(c, chunk.accounts) {
      var i := FirstFault(c, chunk.accounts);
      AddTablesFails(c, start, chunk.accounts, i);
    }
  }

  lemma {:induction false} FirstFault(c: Codec, accounts: seq<AltAccount>) returns (i: nat)
    requires !AllFine(c, accounts)
    ensures i < |accounts| && AllFine(c, accounts[..i]) && !IsFine(c, accounts[i])
  {
    var n := |accounts| - 1;
    if AllFine(c, accounts[..n]) {
      i := n;
      assert accounts == accounts[..n] + [accounts[n]];
    } else {
      i := FirstFault(c, accounts[..n]);
      assert accounts[..n][..i] == accounts[..i];
    }
  }

  // Pushing succeeds exactly if every chunk fits; the tables are then, for each key, its last entry's.
  // Otherwise it fails at the first that does not, for the first of its faults.
  lemma {:induction false} PushAllExactly(c: Codec, chunks: seq<Chunk>)
    ensures var r := PushAll(c, chunks);
            && (r.Ok? <==> forall i :: 0 <= i < |chunks| ==> ChunkFits(c, chunks, i))
            && (r.Ok? ==> IsDownloaded(c, chunks, r.value))
            && (r.Err? ==> exists n: nat ::
                  && n < |chunks| && (forall i :: 0 <= i < n ==> ChunkFits(c, chunks, i))
                  && !ChunkFits(c, chunks, n) && IsFault(c, chunks, n, r.error))
  {
    if chunks == [] {
    } else {
      var n := |chunks| - 1;
      var init, chunk := chunks[..n], chunks[n];
      assert init + [chunk] == chunks;
      PushAllExactly(c, init);
      assert forall i :: 0 <= i < n ==> (ChunkFits(c, init, i) <==> ChunkFits(c, chunks, i));
      if PushAll(c, init).Ok? {
        PushExactly(c, init, chunk, PushAll(c, init).value);
        assert ChunkFits(c, chunks, n) || !ChunkFits(c, chunks, n);
      } else {
        var e := PushAll(c, init).error;
        var m: nat :| m < n && (forall i :: 0 <= i < m ==> ChunkFits(c, init, i))
                      && !ChunkFits(c, init, m) && IsFault(c, init, m, e);
        assert IsFault(c, chunks, m, e) && !ChunkFits(c, chunks, m);
      }
    }
  }

  // The keys that entries name.
  ghost function NamedKeys(accounts: seq<AltAccount>): set<Key> {
    set i | 0 <= i < |accounts| && KeyOf(accounts[i].pubkey).Some? :: KeyOf(accounts[i].pubkey).value
  }

  // After chunks that fit, the download completes exactly if there was one and they name as many keys as
  // announced; each key then has the table of its last entry.
  lemma CompletesExactly(c: Codec, chunks: seq<Chunk>)
    requires forall i :: 0 <= i < |chunks| ==> ChunkFits(c, chunks, i)
    ensures PushAll(c, chunks).Ok?
    ensures var s := PushAll(c, chunks).value;
            && (s.slot.Some? ==> s.totalAccounts.Some? && s.tables.Some?)
            && var done := Concluded(s);
               && (done.Ok? <==> chunks != [] && |NamedKeys(Concat(chunks))| == chunks[0].totalAccounts)
               && (done == Err(Empty) <==> chunks == [])
               && (done.Ok? ==>
                     && done.value.slot == chunks[0].confirmedSlot
                     && forall k :: HoldsLast(c, map[], Concat(chunks), k, Lookup(done.value.tables, k)))
  {
    PushAllExactly(c, chunks);
    if chunks != [] {
      var accounts, tables := Concat(chunks), PushAll(c, chunks).value.tables.value;
      forall k
        ensures HoldsLast(c, map[], accounts, k, Lookup(tables, k))
        ensures k in tables <==> k in NamedKeys(accounts)
      {
        AddTablesExactly(c, map[], accounts, k);
        NamedIff(accounts, k);
        TableThere(c, accounts, k, Lookup(tables, k));
      }
      assert tables.Keys == NamedKeys(accounts);
      assert |tables| == |tables.Keys|;
    }
  }

  lemma NamedIff(accounts: seq<AltAccount>, k: Key)
    ensures k in NamedKeys(accounts) <==> exists i :: IsEntryOf(accounts, k, i)
  {
    if i :| IsEntryOf(accounts, k, i) {
      assert KeyOf(accounts[i].pubkey).value in NamedKeys(accounts);
    }
    if k in NamedKeys(accounts) {
      var i :| 0 <= i < |accounts| && KeyOf(accounts[i].pubkey).Some? && KeyOf(accounts[i].pubkey).value == k;
      assert IsEntryOf(accounts, k, i);
    }
  }

  lemma TableThere(c: Codec, accounts: seq<AltAccount>, k: Key, value: Option<Table>)
    requires AddTables(c, map[], accounts).Ok? && HoldsLast(c, map[], accounts, k, value)
    ensures value.Some? <==> exists i :: IsEntryOf(accounts, k, i)
  {
    AddTablesExactly(c, map[], accounts, k);
    assert forall i :: 0 <= i < |accounts| ==> IsFine(c, accounts[i]);
  }
}
