// The service's own pages as the fetch loop takes them.
module ServedPages {
  import opened Types
  import opened Ascending
  import opened Gate
  import opened Cursor
  import opened Fetcher
  import opened JsonRpc
  import Store
  import Paging

  const PAGE_SIZE: nat := 10_000

  // The fetch loop run against the paginated method; others act on the store between its requests.
  ghost function FetchFromService(
    c: Codec, s: Store.StoreState, now: Store.Time, maxPageSize: nat, minimum: Option<Slot>, p: Progress,
    visits: seq<Paging.Visit>): Result<Fetched, FetchError>
    decreases |visits|
  {
    var (s', reply) := ProgramAccountsV2(c, s, now, maxPageSize, Request(minimum, Some(PAGE_SIZE), p.cursor));
    match reply
    case Err(_) => Err(RequestFailed)
    case Ok(r) =>
      match TakePage(c, minimum, p, r)
      case Done(f) => Ok(f)
      case Refused(e) => Err(e)
      case More(q) =>
        if visits == [] then Err(RequestFailed)
        else FetchFromService(c, Paging.Run(s', visits[0].others), visits[0].now, maxPageSize, minimum, q, visits[1..])
  }

  function Restrict(m: Accounts, keys: seq<Key>): Accounts
    requires forall i :: 0 <= i < |keys| ==> keys[i] in m
  {
    map k | k in keys :: m[k]
  }

  lemma ServedEntryReturns(c: Codec, m: Accounts, keys: seq<Key>, j: nat)
    requires Lawful(c) && AllWellFormed(c, m) && j < |keys|
    requires forall x :: 0 <= x < |keys| ==> keys[x] in m
    ensures AddEntry(c, Restrict(m, keys[..j]), ToUi(c, m[keys[j]])) == Some(Restrict(m, keys[..j + 1]))
  {
    var k := keys[j];
    UiRoundTrip(c, k, m[k]);
    assert keys[..j + 1] == keys[..j] + [k];
    assert Restrict(m, keys[..j + 1]) == Restrict(m, keys[..j])[k := m[k]];
  }

  lemma UisSnoc(c: Codec, m: Accounts, keys: seq<Key>, i: nat, j: nat)
    requires i <= j < |keys|
    requires forall x :: 0 <= x < |keys| ==> keys[x] in m
    ensures Uis(c, Store.Values(m, keys[i..j + 1])) == Uis(c, Store.Values(m, keys[i..j])) + [ToUi(c, m[keys[j]])]
  {
  }

  lemma AddEntriesSnoc(c: Codec, start: Accounts, entries: seq<UiAccount>, ui: UiAccount)
    requires AddEntries(c, start, entries).Some?
    ensures AddEntries(c, start, entries + [ui]) == AddEntry(c, AddEntries(c, start, entries).value, ui)
  {
    assert (entries + [ui])[..|entries|] == entries;
  }

  lemma ServedStep(c: Codec, m: Accounts, keys: seq<Key>, i: nat, j: nat)
    requires Lawful(c) && AllWellFormed(c, m) && i <= j < |keys|
    requires forall x :: 0 <= x < |keys| ==> keys[x] in m
    requires AddEntries(c, Restrict(m, keys[..i]), Uis(c, Store.Values(m, keys[i..j]))) == Some(Restrict(m, keys[..j]))
    ensures AddEntries(c, Restrict(m, keys[..i]), Uis(c, Store.Values(m, keys[i..j + 1])))
      == Some(Restrict(m, keys[..j + 1]))
  {
    UisSnoc(c, m, keys, i, j);
    ServedEntryReturns(c, m, keys, j);
    AddEntriesSnoc(c, Restrict(m, keys[..i]), Uis(c, Store.Values(m, keys[i..j])), ToUi(c, m[keys[j]]));
  }

  // Entries the service encoded decode to the accounts they came from.
  lemma {:induction false} ServedEntriesReturn(c: Codec, m: Accounts, keys: seq<Key>, i: nat, j: nat)
    requires Lawful(c) && AllWellFormed(c, m) && i <= j <= |keys|
    requires forall x :: 0 <= x < |keys| ==> keys[x] in m
    ensures AddEntries(c, Restrict(m, keys[..i]), Uis(c, Store.Values(m, keys[i..j]))) == Some(Restrict(m, keys[..j]))
    decreases j
  {
    if i >= j {
    } else {
      ServedEntriesReturn(c, m, keys, i, j - 1);
      ServedStep(c, m, keys, i, j - 1);
    }
  }

  // The loop's state once the first i keys have been fetched.
  ghost predicate Fetching(c: Codec, slot: Slot, m: Accounts, keys: seq<Key>, i: nat, p: Progress)
    requires forall x :: 0 <= x < |keys| ==> keys[x] in m
  {
    && 0 < i < |keys|
    && p.contextSlot == Some(slot)
    && p.cursor == Some(FormatCursor(c, slot, keys[i - 1]))
    && p.accounts == Restrict(m, keys[..i])
    && forall s :: s in p.seen ==> exists j :: 0 <= j < i && s == FormatCursor(c, slot, keys[j])
  }

  // A reply holding keys i..j of the snapshot and no cursor ends the loop with all of them.
  lemma TakeLastPage(
    c: Codec, slot: Slot, m: Accounts, keys: seq<Key>, i: nat, j: nat, minimum: Option<Slot>, p: Progress)
    requires Lawful(c) && AllWellFormed(c, m) && i <= j <= |keys|
    requires forall x :: 0 <= x < |keys| ==> keys[x] in m
    requires (i == 0 && p == START) || Fetching(c, slot, m, keys, i, p)
    requires minimum.Some? ==> minimum.value <= slot
    ensures TakePage(c, minimum, p, ReplyOf(c, Store.SnapshotPage(slot, Store.Values(m, keys[i..j]), None)))
            == Done(Fetched(slot, Restrict(m, keys[..j])))
  {
    ServedEntriesReturn(c, m, keys, i, j);
    assert keys[..0] == [] && Restrict(m, []) == map[];
  }

  // The cursors handed out so far do not repeat.
  lemma CursorIsNew(c: Codec, slot: Slot, m: Accounts, keys: seq<Key>, i: nat, j: nat, p: Progress)
    requires Lawful(c) && Increasing(keys) && i < j < |keys|
    requires forall x :: 0 <= x < |keys| ==> keys[x] in m
    requires (i == 0 && p == START) || Fetching(c, slot, m, keys, i, p)
    ensures FormatCursor(c, slot, keys[j - 1]) !in p.seen
  {
    var next := FormatCursor(c, slot, keys[j - 1]);
    if next in p.seen {
      var x :| 0 <= x < i && next == FormatCursor(c, slot, keys[x]);
      CursorInjective(c, slot, keys[j - 1], slot, keys[x]);
    }
  }

  // A reply holding keys i..j of the snapshot and the cursor of the last advances the loop to j.
  lemma TakeServedPage(
    c: Codec, slot: Slot, m: Accounts, keys: seq<Key>, i: nat, j: nat, minimum: Option<Slot>, p: Progress)
    requires Lawful(c) && AllWellFormed(c, m) && Increasing(keys) && i < j < |keys|
    requires forall x :: 0 <= x < |keys| ==> keys[x] in m
    requires (i == 0 && p == START) || Fetching(c, slot, m, keys, i, p)
    requires minimum.Some? ==> minimum.value <= slot
    ensures var page := Store.SnapshotPage(slot, Store.Values(m, keys[i..j]), Some(keys[j - 1]));
            var t := TakePage(c, minimum, p, ReplyOf(c, page));
            t.More? && Fetching(c, slot, m, keys, j, t.p)
  {
    ServedEntriesReturn(c, m, keys, i, j);
    assert keys[..0] == [] && Restrict(m, []) == map[];
    CursorIsNew(c, slot, m, keys, i, j, p);
  }

  // A request carrying the cursor of key i - 1 is the store's continuation after that key.
  lemma ServedTurn(
    c: Codec, s: Store.StoreState, now: Store.Time, maxPageSize: nat, minimum: Option<Slot>, slot: Slot, after: Key)
    requires Lawful(c) && PAGE_SIZE <= maxPageSize
    ensures var (s1, page) := Store.Page(s, now, Some(slot), Some(after), PAGE_SIZE);
            page.Ok? && page.value.slot == slot && (minimum.Some? ==> minimum.value <= slot) ==>
              var request := Request(minimum, Some(PAGE_SIZE), Some(FormatCursor(c, slot, after)));
              ProgramAccountsV2(c, s, now, maxPageSize, request)
              == (s1, Ok(ReplyOf(c, page.value)))
  {
    CursorRoundTrip(c, slot, after);
  }

  lemma FirstRequest(c: Codec, s: Store.StoreState, now: Store.Time, maxPageSize: nat, minimum: Option<Slot>)
    requires PAGE_SIZE <= maxPageSize
    ensures var (s', page) := Store.Page(s, now, None, None, PAGE_SIZE);
            page.Ok? && (minimum.Some? ==> minimum.value <= page.value.slot) ==>
              ProgramAccountsV2(c, s, now, maxPageSize, Request(minimum, Some(PAGE_SIZE), None))
                == (s', Ok(ReplyOf(c, page.value)))
  {
  }
}
