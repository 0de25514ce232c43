// Exactly when the paged fetch succeeds, what it then returns, and why else it fails.
module FetchExact {
  import opened Types
  import opened Keys
  import opened Gate
  import opened Fetcher

  // Every funded entry names a 32-byte key.
  ghost predicate KeysParse(c: Codec, entries: seq<UiAccount>) {
    forall i :: 0 <= i < |entries| && entries[i].lamports != 0 ==> ParseKey(c, entries[i].pubkey).Some?
  }

  ghost predicate IsTooLow(minimum: Option<Slot>, replies: seq<Reply>, i: nat)
    requires i < |replies|
  {
    minimum.Some? && replies[i].slot < minimum.value
  }

  ghost predicate RepeatsCursor(replies: seq<Reply>, i: nat)
    requires i < |replies|
  {
    replies[i].paginationKey.Some? && exists j :: 0 <= j < i && replies[j].paginationKey == replies[i].paginationKey
  }

  // Page i has a slot not below the minimum and the first page's, keys that parse, and no cursor of an
  // earlier page.
  ghost predicate IsFine(c: Codec, minimum: Option<Slot>, replies: seq<Reply>, i: nat)
    requires i < |replies|
  {
    && !IsTooLow(minimum, replies, i)
    && replies[0].slot <= replies[i].slot
    && KeysParse(c, replies[i].entries)
    && !RepeatsCursor(replies, i)
  }

  // The first n pages are fine and have a cursor each.
  ghost predicate GoesOn(c: Codec, minimum: Option<Slot>, replies: seq<Reply>, n: nat) {
    n <= |replies| && forall i :: 0 <= i < n ==> IsFine(c, minimum, replies, i) && replies[i].paginationKey.Some?
  }

  // Page n is the last: fine like those before it, and the first without a cursor.
  ghost predicate EndsAt(c: Codec, minimum: Option<Slot>, replies: seq<Reply>, n: nat) {
    && GoesOn(c, minimum, replies, n) && n < |replies|
    && IsFine(c, minimum, replies, n) && replies[n].paginationKey.None?
  }

  // The entries of the first n pages, in order.
  function Entries(replies: seq<Reply>, n: nat): seq<UiAccount>
    requires n <= |replies|
  {
    if n == 0 then [] else Entries(replies, n - 1) + replies[n - 1].entries
  }

  // ----- Accumulating entries -----

  // Entry i is funded and becomes an account of key k.
  ghost predicate IsEntryOf(c: Codec, entries: seq<UiAccount>, k: Key, i: int) {
    && 0 <= i < |entries| && entries[i].lamports != 0
    && FromRpc(c, entries[i]).Some? && KeyOf(FromRpc(c, entries[i]).value.pubkey) == Some(k)
  }

  ghost predicate IsLastEntryOf(c: Codec, entries: seq<UiAccount>, k: Key, i: int) {
    IsEntryOf(c, entries, k, i) && forall j :: i < j < |entries| ==> !IsEntryOf(c, entries, k, j)
  }

  // value is the account of the last such entry, or the start value without one.
  ghost predicate HoldsLastEntry(c: Codec, start: Accounts, entries: seq<UiAccount>, k: Key, value: Option<Account>) {
    || (exists i :: IsLastEntryOf(c, entries, k, i) && value == FromRpc(c, entries[i]))
    || ((forall i :: !IsEntryOf(c, entries, k, i)) && value == Lookup(start, k))
  }

  lemma EntrySnoc(c: Codec, entries: seq<UiAccount>, ui: UiAccount, k: Key, i: int)
    ensures IsEntryOf(c, entries + [ui], k, i)
      <==> if i == |entries| then IsEntryOf(c, [ui], k, 0) else IsEntryOf(c, entries, k, i)
  {
  }

  lemma AddEntryExactly(c: Codec, accounts: Accounts, ui: UiAccount, k: Key)
    ensures AddEntry(c, accounts, ui).Some? <==> KeysParse(c, [ui])
    ensures AddEntry(c, accounts, ui).Some? ==>
              Lookup(AddEntry(c, accounts, ui).value, k)
              == if IsEntryOf(c, [ui], k, 0) then FromRpc(c, ui) else Lookup(accounts, k)
  {
    assert [ui][0] == ui;
    if KeysParse(c, [ui]) {
      assert ui.lamports != 0 ==> ParseKey(c, ui.pubkey).Some?;
    }
  }

  lemma {:induction false} AddEntriesExactly(c: Codec, accounts: Accounts, entries: seq<UiAccount>, k: Key)
    ensures AddEntries(c, accounts, entries).Some? <==> KeysParse(c, entries)
    ensures AddEntries(c, accounts, entries).Some? ==>
              HoldsLastEntry(c, accounts, entries, k, Lookup(AddEntries(c, accounts, entries).value, k))
  {
    if entries == [] {
    } else {
      var n := |entries| - 1;
      var init, ui := entries[..n], entries[n];
      assert entries == init + [ui];
      AddEntriesExactly(c, accounts, init, k);
      KeysParseSnoc(c, init, ui);
      if AddEntries(c, accounts, init).Some? {
        var m := AddEntries(c, accounts, init).value;
        AddEntryExactly(c, m, ui, k);
        if AddEntry(c, m, ui).Some? {
          LastEntrySnoc(c, accounts, init, ui, k, Lookup(m, k), Lookup(AddEntry(c, m, ui).value, k));
        }
      }
    }
  }

  lemma KeysParseSnoc(c: Codec, entries: seq<UiAccount>, ui: UiAccount)
    ensures KeysParse(c, entries + [ui]) <==> KeysParse(c, entries) && KeysParse(c, [ui])
  {
    var all, n := entries + [ui], |entries|;
    assert all[n] == ui && [ui][0] == ui && forall j :: 0 <= j < n ==> all[j] == entries[j];
  }

  lemma LastEntrySnoc(
    c: Codec, start: Accounts, entries: seq<UiAccount>, ui: UiAccount, k: Key, before: Option<Account>,
    after: Option<Account>)
    requires HoldsLastEntry(c, start, entries, k, before)
    requires after == if IsEntryOf(c, [ui], k, 0) then FromRpc(c, ui) else before
    ensures HoldsLastEntry(c, start, entries + [ui], k, after)
  {
    forall i
      ensures IsEntryOf(c, entries + [ui], k, i)
              <==> if i == |entries| then IsEntryOf(c, [ui], k, 0) else IsEntryOf(c, entries, k, i)
    {
      EntrySnoc(c, entries, ui, k, i);
    }
    if IsEntryOf(c, [ui], k, 0) {
      assert IsLastEntryOf(c, entries + [ui], k, |entries|);
    } else if i :| IsLastEntryOf(c, entries, k, i) && before == FromRpc(c, entries[i]) {
      assert IsLastEntryOf(c, entries + [ui], k, i);
    }
  }

  lemma {:induction false} AddEntriesConcat(c: Codec, accounts: Accounts, a: seq<UiAccount>, b: seq<UiAccount>)
    ensures AddEntries(c, accounts, a + b)
            == match AddEntries(c, accounts, a) case None => None case Some(m) => AddEntries(c, m, b)
  {
    if b == [] {
      assert a + b == a;
    } else {
      assert (a + b)[..|a + b| - 1] == a + b[..|b| - 1];
      AddEntriesConcat(c, accounts, a, b[..|b| - 1]);
    }
  }

  // ----- Going from page to page -----

  // Where the loop is after n pages.
  ghost predicate IsAfter(c: Codec, replies: seq<Reply>, n: nat, p: Progress) {
    && n <= |replies|
    && p.contextSlot == (if n == 0 then None else Some(replies[0].slot))
    && AreCursors(replies, n, p.seen)
    && AddEntries(c, map[], Entries(replies, n)) == Some(p.accounts)
  }

  // One more page ends the loop, advances it, or fails for the first of its faults.
  lemma TakeExactly(c: Codec, minimum: Option<Slot>, replies: seq<Reply>, n: nat, p: Progress)
    requires IsAfter(c, replies, n, p) && n < |replies|
    ensures var t := TakePage(c, minimum, p, replies[n]);
            && (t.Done? ==> EndsPage(c, minimum, replies, n) && t.fetched.contextSlot == replies[0].slot
                            && AddEntries(c, map[], Entries(replies, n + 1)) == Some(t.fetched.accounts))
            && (t.More? ==> IsFine(c, minimum, replies, n) && replies[n].paginationKey.Some?
                            && IsAfter(c, replies, n + 1, t.p))
            && (t.Refused? ==> !IsFine(c, minimum, replies, n) && t.error == FaultOf(c, minimum, replies, n))
  {
    AddEntriesConcat(c, map[], Entries(replies, n), replies[n].entries);
    var someKey: Key := 0;
    AddEntriesExactly(c, p.accounts, replies[n].entries, someKey);
    if replies[n].paginationKey.Some? {
      SeenSnoc(replies, n, p.seen);
    }
  }

  // The cursors of the first n pages.
  ghost predicate AreCursors(replies: seq<Reply>, n: nat, seen: set<string>) {
    n <= |replies| && forall s :: s in seen <==> exists j :: 0 <= j < n && replies[j].paginationKey == Some(s)
  }

  lemma SeenSnoc(replies: seq<Reply>, n: nat, seen: set<string>)
    requires AreCursors(replies, n, seen) && n < |replies| && replies[n].paginationKey.Some?
    ensures AreCursors(replies, n + 1, seen + {replies[n].paginationKey.value})
    ensures RepeatsCursor(replies, n) <==> replies[n].paginationKey.value in seen
  {
  }

  ghost predicate EndsPage(c: Codec, minimum: Option<Slot>, replies: seq<Reply>, n: nat)
    requires n < |replies|
  {
    IsFine(c, minimum, replies, n) && replies[n].paginationKey.None?
  }

  // The first fault of page n.
  ghost function FaultOf(c: Codec, minimum: Option<Slot>, replies: seq<Reply>, n: nat): FetchError
    requires n < |replies|
  {
    if IsTooLow(minimum, replies, n) then BelowMinimum
    else if replies[n].slot < replies[0].slot then Regressed
    else if !KeysParse(c, replies[n].entries) then BadKey
    else RepeatedCursor
  }

  // Which of three things becomes of the fetch over these replies, n pages in.
  ghost predicate FateFrom(
    c: Codec, minimum: Option<Slot>, replies: seq<Reply>, n: nat, result: Result<Fetched, FetchError>)
  {
    && GoesOn(c, minimum, replies, n)
    && if n == |replies| then result == Err(RequestFailed)
       else if EndsPage(c, minimum, replies, n) then
         && result.Ok? && result.value.contextSlot == replies[0].slot
         && AddEntries(c, map[], Entries(replies, n + 1)) == Some(result.value.accounts)
       else !IsFine(c, minimum, replies, n) && result == Err(FaultOf(c, minimum, replies, n))
  }

  lemma {:induction false} OutcomeFate(c: Codec, minimum: Option<Slot>, replies: seq<Reply>, n: nat, p: Progress)
    returns (m: nat)
    requires IsAfter(c, replies, n, p) && GoesOn(c, minimum, replies, n)
    ensures FateFrom(c, minimum, replies, m, Outcome(c, minimum, p, replies[n..]))
    decreases |replies| - n
  {
    m := n;
    if n == |replies| {
    } else {
      TakeExactly(c, minimum, replies, n, p);
      assert replies[n..][0] == replies[n] && replies[n..][1..] == replies[n + 1..];
      var t := TakePage(c, minimum, p, replies[n]);
      if t.More? {
        m := OutcomeFate(c, minimum, replies, n + 1, t.p);
      }
    }
  }

  // The fetch succeeds exactly if some page is fine and without a cursor, and all before it fine and with
  // one. It then has the first page's slot, and for each key the account of its last entry.
  lemma FetchSucceedsExactly(c: Codec, minimum: Option<Slot>, replies: seq<Reply>)
    ensures var r := Outcome(c, minimum, START, replies);
            && (r.Ok? <==> exists n: nat :: EndsAt(c, minimum, replies, n))
            && forall n: nat :: r.Ok? && EndsAt(c, minimum, replies, n) ==>
                 && r.value.contextSlot == replies[0].slot
                 && forall k :: HoldsLastEntry(c, map[], Entries(replies, n + 1), k, Lookup(r.value.accounts, k))
  {
    var r := Outcome(c, minimum, START, replies);
    assert replies[0..] == replies;
    var m := OutcomeFate(c, minimum, replies, 0, START);
    forall n: nat | EndsAt(c, minimum, replies, n)
      ensures n == m
    {
    }
    if r.Ok? {
      assert EndsAt(c, minimum, replies, m);
      forall k
        ensures HoldsLastEntry(c, map[], Entries(replies, m + 1), k, Lookup(r.value.accounts, k))
      {
        AddEntriesExactly(c, map[], Entries(replies, m + 1), k);
      }
    }
  }

  // Otherwise it fails at the first page that is not fine, for the first of its faults, or because there
  // are no more replies.
  lemma FetchFailsExactly(c: Codec, minimum: Option<Slot>, replies: seq<Reply>, n: nat)
    requires GoesOn(c, minimum, replies, n) && (n < |replies| ==> !IsFine(c, minimum, replies, n))
    ensures Outcome(c, minimum, START, replies)
            == Err(if n < |replies| then FaultOf(c, minimum, replies, n) else RequestFailed)
  {
    assert replies[0..] == replies;
    var m := OutcomeFate(c, minimum, replies, 0, START);
    assert m == n;
  }
}
