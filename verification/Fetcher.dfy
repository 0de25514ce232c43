// The paged full-state fetch: pages are taken until one has no cursor, context slots may only stay
// at or above the first, and the result is a fuzzy checkpoint.
module Fetcher {
  import opened Types
  import opened Keys
  import opened Gate

  datatype Reply = Reply(slot: Slot, entries: seq<UiAccount>, paginationKey: Option<string>)
  datatype Fetched = Fetched(contextSlot: Slot, accounts: Accounts)
  datatype FetchError = RequestFailed | BelowMinimum | Regressed | BadKey | RepeatedCursor

  datatype Progress = Progress(contextSlot: Option<Slot>, cursor: Option<string>, seen: set<string>, accounts: Accounts)
  datatype Taken = More(p: Progress) | Done(fetched: Fetched) | Refused(error: FetchError)

  const START: Progress := Progress(None, None, {}, map[])

  // A drained entry and one that is no table are skipped, before and after its key is parsed; a key
  // that does not parse fails the whole fetch.
  function AddEntry(c: Codec, accounts: Accounts, ui: UiAccount): Option<Accounts> {
    if ui.lamports == 0 then Some(accounts)
    else
      match ParseKey(c, ui.pubkey)
      case None => None
      case Some(b) =>
        match (KeyOf(b), FromRpc(c, ui))
        case (Some(k), Some(a)) => Some(accounts[k := a])
        case _ => Some(accounts)
  }

  function AddEntries(c: Codec, accounts: Accounts, entries: seq<UiAccount>): Option<Accounts> {
    if entries == [] then Some(accounts)
    else
      match AddEntries(c, accounts, entries[..|entries| - 1])
      case None => None
      case Some(m) => AddEntry(c, m, entries[|entries| - 1])
  }

  function FirstSlot(p: Progress, reply: Reply): Slot {
    if p.contextSlot.Some? then p.contextSlot.value else reply.slot
  }

  function TakePage(c: Codec, minimum: Option<Slot>, p: Progress, reply: Reply): Taken {
    var first := FirstSlot(p, reply);
    if minimum.Some? && reply.slot < minimum.value then Refused(BelowMinimum)
    else if reply.slot < first then Refused(Regressed)
    else
      match AddEntries(c, p.accounts, reply.entries)
      case None => Refused(BadKey)
      case Some(accounts) =>
        match reply.paginationKey
        case None => Done(Fetched(first, accounts))
        case Some(next) =>
          if next in p.seen then Refused(RepeatedCursor)
          else More(Progress(Some(first), Some(next), p.seen + {next}, accounts))
  }

  // The fetch over the replies it would receive; a request beyond the last of them fails.
  function Outcome(c: Codec, minimum: Option<Slot>, p: Progress, replies: seq<Reply>): Result<Fetched, FetchError>
    decreases |replies|
  {
    if replies == [] then Err(RequestFailed)
    else
      match TakePage(c, minimum, p, replies[0])
      case More(q) => Outcome(c, minimum, q, replies[1..])
      case Done(f) => Ok(f)
      case Refused(e) => Err(e)
  }

  method Fetch(c: Codec, minimum: Option<Slot>, replies: seq<Reply>) returns (r: Result<Fetched, FetchError>)
    ensures r == Outcome(c, minimum, START, replies)
  {
    var contextSlot: Option<Slot> := None;
    var cursor: Option<string> := None;
    var seen: set<string> := {};
    var accounts: Accounts := map[];
    var page := 0;
    while page < |replies|
      invariant page <= |replies|
      invariant Outcome(c, minimum, START, replies)
                == Outcome(c, minimum, Progress(contextSlot, cursor, seen, accounts), replies[page..])
    {
      ghost var before := Progress(contextSlot, cursor, seen, accounts);
      var reply := replies[page];
      assert replies[page..][0] == reply && replies[page..][1..] == replies[page + 1..];
      if contextSlot.None? {
        contextSlot := Some(reply.slot);
      }
      if minimum.Some? && reply.slot < minimum.value {
        return Err(BelowMinimum);
      }
      if reply.slot < contextSlot.value {
        return Err(Regressed);
      }
      var added := Accumulate(c, accounts, reply.entries);
      if added.None? {
        return Err(BadKey);
      }
      accounts := added.value;
      if reply.paginationKey.None? {
        return Ok(Fetched(contextSlot.value, accounts));
      }
      if reply.paginationKey.value in seen {
        return Err(RepeatedCursor);
      }
      seen := seen + {reply.paginationKey.value};
      cursor := reply.paginationKey;
      page := page + 1;
      assert TakePage(c, minimum, before, reply) == More(Progress(contextSlot, cursor, seen, accounts));
    }
    r := Err(RequestFailed);
  }

  method Accumulate(c: Codec, start: Accounts, entries: seq<UiAccount>) returns (r: Option<Accounts>)
    ensures r == AddEntries(c, start, entries)
  {
    var accounts := start;
    for i := 0 to |entries|
      invariant AddEntries(c, start, entries[..i]) == Some(accounts)
    {
      assert entries[..i + 1][..i] == entries[..i];
      var ui := entries[i];
      if ui.lamports != 0 {
        var key := ParseKey(c, ui.pubkey);
        if key.None? {
          FailedPrefix(c, start, entries, i + 1);
          return None;
        }
        var account := FromRpc(c, ui);
        if account.Some? {
          accounts := accounts[KeyOf(key.value).value := account.value];
        }
      }
    }
    assert entries[..|entries|] == entries;
    r := Some(accounts);
  }

  lemma {:induction false} FailedPrefix(c: Codec, start: Accounts, entries: seq<UiAccount>, n: nat)
    requires n <= |entries| && AddEntries(c, start, entries[..n]) == None
    ensures AddEntries(c, start, entries) == None
    decreases |entries| - n
  {
    if n == |entries| {
      assert entries[..n] == entries;
    } else {
      assert entries[..n + 1][..n] == entries[..n];
      FailedPrefix(c, start, entries, n + 1);
    }
  }

  // ----- What a completed fetch guarantees -----

  lemma {:induction false} AddEntriesWellFormed(c: Codec, accounts: Accounts, entries: seq<UiAccount>)
    requires AllWellFormed(c, accounts) && AddEntries(c, accounts, entries).Some?
    ensures AllWellFormed(c, AddEntries(c, accounts, entries).value)
  {
    if entries == [] {
    } else {
      AddEntriesWellFormed(c, accounts, entries[..|entries| - 1]);
    }
  }

  // A fetch that succeeds returns well-formed accounts at a context slot not below the minimum.
  lemma {:induction false} FetchedIsWellFormed(c: Codec, minimum: Option<Slot>, p: Progress, replies: seq<Reply>)
    requires AllWellFormed(c, p.accounts)
    requires minimum.Some? && p.contextSlot.Some? ==> minimum.value <= p.contextSlot.value
    requires Outcome(c, minimum, p, replies).Ok?
    ensures var f := Outcome(c, minimum, p, replies).value;
            && AllWellFormed(c, f.accounts)
            && (minimum.Some? ==> minimum.value <= f.contextSlot)
            && (p.contextSlot.Some? ==> f.contextSlot == p.contextSlot.value)
            && (p.contextSlot.None? ==> f.contextSlot == replies[0].slot)
    decreases |replies|
  {
    var reply := replies[0];
    AddEntriesWellFormed(c, p.accounts, reply.entries);
    match TakePage(c, minimum, p, reply)
    case More(q) => FetchedIsWellFormed(c, minimum, q, replies[1..]);
    case Done(f) =>
  }

  // The replies a fetch consumes before it succeeds.
  function Consumed(c: Codec, minimum: Option<Slot>, p: Progress, replies: seq<Reply>): nat
    requires Outcome(c, minimum, p, replies).Ok?
    decreases |replies|
  {
    match TakePage(c, minimum, p, replies[0])
    case More(q) => 1 + Consumed(c, minimum, q, replies[1..])
    case Done(_) => 1
  }

  function PageValue(c: Codec, reply: Reply, k: Key): Option<Account> {
    match AddEntries(c, map[], reply.entries)
    case Some(m) => Lookup(m, k)
    case None => None
  }

  // A key a page carries takes the page's value; any other key keeps what it had.
  lemma {:induction false} AddEntriesLookup(c: Codec, accounts: Accounts, entries: seq<UiAccount>, k: Key)
    requires AddEntries(c, accounts, entries).Some?
    ensures AddEntries(c, map[], entries).Some?
    ensures var m := AddEntries(c, map[], entries).value;
            Lookup(AddEntries(c, accounts, entries).value, k) == if k in m then Some(m[k]) else Lookup(accounts, k)
  {
    if entries == [] {
    } else {
      AddEntriesLookup(c, accounts, entries[..|entries| - 1], k);
    }
  }

  // Every reply consumed is at or above the context slot.
  lemma {:induction false} ConsumedSlots(c: Codec, minimum: Option<Slot>, p: Progress, replies: seq<Reply>)
    requires Outcome(c, minimum, p, replies).Ok?
    ensures var n := Consumed(c, minimum, p, replies);
            && 1 <= n <= |replies|
            && forall i :: 0 <= i < n ==> Outcome(c, minimum, p, replies).value.contextSlot <= replies[i].slot
    decreases |replies|
  {
    var reply := replies[0];
    match TakePage(c, minimum, p, reply)
    case More(q) =>
      ConsumedSlots(c, minimum, q, replies[1..]);
      var n := Consumed(c, minimum, p, replies);
      ContextIsFirst(c, minimum, q, replies[1..]);
      forall i | 0 <= i < n
        ensures Outcome(c, minimum, p, replies).value.contextSlot <= replies[i].slot
      {
        if i > 0 { assert replies[i] == replies[1..][i - 1]; }
      }
    case Done(f) =>
  }

  lemma {:induction false} ContextIsFirst(c: Codec, minimum: Option<Slot>, p: Progress, replies: seq<Reply>)
    requires Outcome(c, minimum, p, replies).Ok? && p.contextSlot.Some?
    ensures Outcome(c, minimum, p, replies).value.contextSlot == p.contextSlot.value
    decreases |replies|
  {
    match TakePage(c, minimum, p, replies[0])
    case More(q) => ContextIsFirst(c, minimum, q, replies[1..]);
    case Done(f) =>
  }

  // If key k is carried by reply `home` at most, the fetch returns that reply's value for it.
  lemma {:induction false} FetchedFromHome(
    c: Codec, minimum: Option<Slot>, p: Progress, replies: seq<Reply>, k: Key, home: int)
    requires Outcome(c, minimum, p, replies).Ok?
    requires home < Consumed(c, minimum, p, replies)
    requires forall i :: 0 <= i < Consumed(c, minimum, p, replies) && i < |replies| && i != home ==>
               PageValue(c, replies[i], k) == None
    ensures var got := Lookup(Outcome(c, minimum, p, replies).value.accounts, k);
            got == if 0 <= home < |replies| && PageValue(c, replies[home], k).Some? then PageValue(c, replies[home], k)
                   else Lookup(p.accounts, k)
    decreases |replies|
  {
    var reply := replies[0];
    AddEntriesLookup(c, p.accounts, reply.entries, k);
    match TakePage(c, minimum, p, reply)
    case More(q) =>
      assert forall i :: 0 <= i < |replies| - 1 ==> replies[1..][i] == replies[i + 1];
      FetchedFromHome(c, minimum, q, replies[1..], k, home - 1);
    case Done(f) =>
  }
}
