// Two results about the paged fetch: with any provider whose pages reflect the ledger it yields a
// fuzzy checkpoint that replay completes, and against the service's own pages it returns exactly
// the snapshot being paged.
module FetchTheorems {
  import opened Types
  import opened Writes
  import opened Gate
  import opened Fetcher
  import opened JsonRpc
  import Staging
  import ClosedForm
  import Ledger
  import Store
  import opened ServedPages
  import opened FetchLoop
  import Paging

  // ----- Any provider -----

  // Each of the first n pages reflects the ledger at its own context slot, for the keys it covers;
  // home says which page covers a key.
  ghost predicate PagesReflect(
    c: Codec, genesis: Accounts, ledger: seq<Write>, replies: seq<Reply>, n: nat, home: Key -> nat)
  {
    n <= |replies| && forall k :: home(k) < n && forall i :: 0 <= i < n ==>
      PageValue(c, replies[i], k)
      == if i == home(k) then Ledger.LedgerAt(genesis, ledger, replies[i].slot, k) else None
  }

  function PageSlot(replies: seq<Reply>, home: Key -> nat): Key -> Slot {
    k => if home(k) < |replies| then replies[home(k)].slot else 0
  }

  lemma FetchIsFuzzyCheckpoint(
    c: Codec, genesis: Accounts, ledger: seq<Write>, minimum: Option<Slot>, replies: seq<Reply>, home: Key -> nat,
    last: Slot)
    requires Outcome(c, minimum, START, replies).Ok?
    requires PagesReflect(c, genesis, ledger, replies, Consumed(c, minimum, START, replies), home)
    requires forall i :: 0 <= i < Consumed(c, minimum, START, replies) && i < |replies| ==> replies[i].slot <= last
    ensures var f := Outcome(c, minimum, START, replies).value;
            Ledger.FuzzyCheckpoint(genesis, ledger, f.accounts, PageSlot(replies, home), f.contextSlot, last)
  {
    var f := Outcome(c, minimum, START, replies).value;
    ConsumedSlots(c, minimum, START, replies);
    forall k
      ensures f.contextSlot <= PageSlot(replies, home)(k) <= last
      ensures Lookup(f.accounts, k) == Ledger.LedgerAt(genesis, ledger, PageSlot(replies, home)(k), k)
    {
      FetchedFromHome(c, minimum, START, replies, k, home(k));
    }
  }

  // Fetching page by page while the ledger moves and then replaying an in-order stream gives the ledger
  // at every drain, exactly when no stale, missed or unconfirmed write makes a difference.
  lemma FetchThenReplayIsLedgerIff(
    c: Codec, genesis: Accounts, ledger: seq<Write>, minimum: Option<Slot>, replies: seq<Reply>, home: Key -> nat,
    last: Slot, es: seq<Staging.Event>, e: Staging.Event)
    requires Ordered(ledger) && Ledger.DeliversInOrder(ledger, es)
    requires Outcome(c, minimum, START, replies).Ok?
    requires PagesReflect(c, genesis, ledger, replies, Consumed(c, minimum, START, replies), home)
    requires forall i :: 0 <= i < Consumed(c, minimum, START, replies) && i < |replies| ==> replies[i].slot <= last
    requires ClosedForm.Drains(e, Staging.MaxConfirmed(Outcome(c, minimum, START, replies).value.contextSlot, es))
    ensures var f := Outcome(c, minimum, START, replies).value;
            var s := Staging.Run(Staging.FromFetched(f.contextSlot, f.accounts), es + [e]);
            Ledger.IsLedger(genesis, ledger, s.confirmed, s.accounts)
            <==> Ledger.NoneWrong(
                   genesis, ledger, f.accounts, PageSlot(replies, home), f.contextSlot, es, s.confirmed)
  {
    var f := Outcome(c, minimum, START, replies).value;
    FetchIsFuzzyCheckpoint(c, genesis, ledger, minimum, replies, home, last);
    Ledger.DrainedIsLedgerIff(
      genesis, ledger, f.accounts, PageSlot(replies, home), f.contextSlot, last, es, e);
  }

  // So it does once the last page's slot is confirmed, if the stream delivers what came after the first.
  lemma FetchThenReplayIsLedger(
    c: Codec, genesis: Accounts, ledger: seq<Write>, minimum: Option<Slot>, replies: seq<Reply>, home: Key -> nat,
    last: Slot, es: seq<Staging.Event>, e: Staging.Event)
    requires Ordered(ledger)
    requires Outcome(c, minimum, START, replies).Ok?
    requires PagesReflect(c, genesis, ledger, replies, Consumed(c, minimum, START, replies), home)
    requires forall i :: 0 <= i < Consumed(c, minimum, START, replies) && i < |replies| ==> replies[i].slot <= last
    requires var context := Outcome(c, minimum, START, replies).value.contextSlot;
             && ClosedForm.Drains(e, Staging.MaxConfirmed(context, es))
             && last <= Staging.MaxConfirmed(context, es + [e])
             && Ledger.Delivers(ledger, context, es, Staging.MaxConfirmed(context, es + [e]))
    ensures var f := Outcome(c, minimum, START, replies).value;
            var s := Staging.Run(Staging.FromFetched(f.contextSlot, f.accounts), es + [e]);
            Ledger.IsLedger(genesis, ledger, s.confirmed, s.accounts)
  {
    var f := Outcome(c, minimum, START, replies).value;
    FetchIsFuzzyCheckpoint(c, genesis, ledger, minimum, replies, home, last);
    Ledger.CheckpointPlusReplayIsLedger(
      genesis, ledger, f.accounts, PageSlot(replies, home), f.contextSlot, last, es, e);
  }

  // ----- The service's own pages -----

  // The first request against a service holding the snapshot: either it ends the fetch, or it pins
  // the snapshot and leaves the loop after the first page of keys.
  lemma FetchStart(
    c: Codec, s: Store.StoreState, now: Store.Time, maxPageSize: nat, minimum: Option<Slot>, visits: seq<Paging.Visit>)
    returns (s': Store.StoreState, q: Progress)
    requires Lawful(c) && AllWellFormed(c, s.current.accounts) && PAGE_SIZE <= maxPageSize
    requires Paging.PinsCurrent(s) && s.ready
    requires minimum.Some? ==> minimum.value <= s.current.slot
    ensures var keys := Store.KeysAfter(s.current.accounts, None);
            && |keys| == |s.current.accounts|
            && (|keys| <= PAGE_SIZE ==>
                  FetchFromService(c, s, now, maxPageSize, minimum, START, visits)
                  == Ok(Fetched(s.current.slot, Restrict(s.current.accounts, keys))))
            && (|keys| > PAGE_SIZE ==>
                  && s' == Store.Page(s, now, None, None, PAGE_SIZE).0
                  && Paging.Retains(s', s.current)
                  && Fetching(c, s.current.slot, s.current.accounts, keys, PAGE_SIZE, q)
                  && (visits != [] ==>
                        var s2 := Paging.Run(s', visits[0].others);
                        FetchFromService(c, s, now, maxPageSize, minimum, START, visits)
                        == FetchFromService(c, s2, visits[0].now, maxPageSize, minimum, q, visits[1..])))
  {
    var m, slot := s.current.accounts, s.current.slot;
    var keys := Store.KeysAfter(m, None);
    Paging.FirstPage(s, now, PAGE_SIZE);
    var (after, page) := Store.Page(s, now, None, None, PAGE_SIZE);
    FirstRequest(c, s, now, maxPageSize, minimum);
    s', q := after, START;
    if |m| > PAGE_SIZE {
      TakeServedPage(c, slot, m, keys, 0, PAGE_SIZE, minimum, START);
      q := TakePage(c, minimum, START, ReplyOf(c, page.value)).p;
    } else {
      assert keys[0..|keys|] == keys && keys[..|keys|] == keys;
      TakeLastPage(c, slot, m, keys, 0, |keys|, minimum, START);
    }
  }

  // Fetching from a service that holds well-formed accounts, and whose cursors continue the current
  // snapshot, while it keeps publishing, returns exactly the snapshot that was current at the first request.
  lemma FetchInvertsPaging(
    c: Codec, s: Store.StoreState, now: Store.Time, maxPageSize: nat, minimum: Option<Slot>, visits: seq<Paging.Visit>)
    requires Lawful(c) && AllWellFormed(c, s.current.accounts) && 10_000 <= maxPageSize
    requires Paging.PinsCurrent(s) && s.ready
    requires minimum.Some? ==> minimum.value <= s.current.slot
    requires Paging.Pages(|s.current.accounts|, 10_000) <= |visits| + 1
    requires var (s', page) := Store.Page(s, now, None, None, 10_000);
             page.Ok? && page.value.next.Some? ==>
               Paging.NotExpired(s', s.current.slot, page.value.next.value, 10_000, visits)
    ensures FetchFromService(c, s, now, maxPageSize, minimum, START, visits)
            == Ok(Fetched(s.current.slot, s.current.accounts))
  {
    var keys := Store.KeysAfter(s.current.accounts, None);
    WholeMap(s.current.accounts, keys);
    Paging.FirstPage(s, now, PAGE_SIZE);
    var s', q := FetchStart(c, s, now, maxPageSize, minimum, visits);
    if |keys| > PAGE_SIZE {
      FetchRest(c, s', s.current, keys, PAGE_SIZE, maxPageSize, minimum, q, visits);
    }
  }

  lemma WholeMap(m: Accounts, keys: seq<Key>)
    requires keys == Store.KeysAfter(m, None)
    ensures Restrict(m, keys) == m
  {
    Store.KeysAfterIsListing(m, None);
  }
}
