// The fetch loop against the service's own pages, once it has begun.
module FetchLoop {
  import opened Types
  import opened Gate
  import opened Fetcher
  import opened JsonRpc
  import opened ServedPages
  import Store
  import Paging

  // One request of the loop: either it ends the fetch with the whole snapshot, or it leaves the loop
  // one page of keys further, with the snapshot still retained.
  lemma FetchTurn(
    c: Codec, s: Store.StoreState, pinned: Store.Snapshot, keys: seq<Key>, i: nat, maxPageSize: nat,
    minimum: Option<Slot>, p: Progress, visits: seq<Paging.Visit>)
    returns (s2: Store.StoreState, q: Progress)
    requires Lawful(c) && AllWellFormed(c, pinned.accounts) && PAGE_SIZE <= maxPageSize
    requires keys == Store.KeysAfter(pinned.accounts, None)
    requires Fetching(c, pinned.slot, pinned.accounts, keys, i, p)
    requires Paging.Retains(s, pinned) && (minimum.Some? ==> minimum.value <= pinned.slot)
    requires visits != [] && Paging.NotExpired(s, pinned.slot, keys[i - 1], PAGE_SIZE, visits)
    ensures var s1 := Paging.Run(s, visits[0].others);
            var got := FetchFromService(c, s1, visits[0].now, maxPageSize, minimum, p, visits[1..]);
            var j := i + PAGE_SIZE;
            && (j >= |keys| ==> got == Ok(Fetched(pinned.slot, Restrict(pinned.accounts, keys))))
            && (j < |keys| ==>
                  && Paging.Retains(s2, pinned)
                  && Paging.NotExpired(s2, pinned.slot, keys[j - 1], PAGE_SIZE, visits[1..])
                  && Fetching(c, pinned.slot, pinned.accounts, keys, j, q)
                  && (|visits| > 1 ==>
                        var s3 := Paging.Run(s2, visits[1].others);
                        got == FetchFromService(c, s3, visits[1].now, maxPageSize, minimum, q, visits[2..])))
  {
    Paging.TurnPage(s, pinned, keys, i, PAGE_SIZE, visits);
    ServedTurn(c, Paging.Run(s, visits[0].others), visits[0].now, maxPageSize, minimum, pinned.slot, keys[i - 1]);
    var (after, page) := Paging.Turn(s, pinned.slot, keys[i - 1], PAGE_SIZE, visits[0]);
    s2, q := after, p;
    var j := i + PAGE_SIZE;
    if j < |keys| {
      TakeServedPage(c, pinned.slot, pinned.accounts, keys, i, j, minimum, p);
      q := TakePage(c, minimum, p, ReplyOf(c, page.value)).p;
    } else {
      assert keys[i..|keys|] == keys[i..] && keys[..|keys|] == keys;
      TakeLastPage(c, pinned.slot, pinned.accounts, keys, i, |keys|, minimum, p);
    }
  }

  lemma {:induction false} FetchRest(
    c: Codec, s: Store.StoreState, pinned: Store.Snapshot, keys: seq<Key>, i: nat, maxPageSize: nat,
    minimum: Option<Slot>, p: Progress, visits: seq<Paging.Visit>)
    requires Lawful(c) && AllWellFormed(c, pinned.accounts) && PAGE_SIZE <= maxPageSize
    requires keys == Store.KeysAfter(pinned.accounts, None)
    requires Fetching(c, pinned.slot, pinned.accounts, keys, i, p)
    requires Paging.Retains(s, pinned) && (minimum.Some? ==> minimum.value <= pinned.slot)
    requires Paging.NotExpired(s, pinned.slot, keys[i - 1], PAGE_SIZE, visits)
    requires Paging.Pages(|keys| - i, PAGE_SIZE) <= |visits|
    ensures FetchFromService(c, Paging.Run(s, visits[0].others), visits[0].now, maxPageSize, minimum, p, visits[1..])
            == Ok(Fetched(pinned.slot, Restrict(pinned.accounts, keys)))
    decreases |keys| - i
  {
    var s2, q := FetchTurn(c, s, pinned, keys, i, maxPageSize, minimum, p, visits);
    if i + PAGE_SIZE >= |keys| {
    } else {
      var rest := visits[1..];
      assert rest[1..] == visits[2..];
      FetchRest(c, s2, pinned, keys, i + PAGE_SIZE, maxPageSize, minimum, q, rest);
    }
  }
}
