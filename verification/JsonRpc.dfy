// The paginated account method: request checks, cursor parsing, one store page, and the reply.
module JsonRpc {
  import opened Types
  import opened Gate
  import opened Cursor
  import Fetcher
  import Store

  datatype Request = Request(minContextSlot: Option<Slot>, limit: Option<nat>, paginationKey: Option<string>)
  datatype RpcError = InvalidParams | Unavailable | SnapshotExpired | MinContextSlotNotReached

  const DEFAULT_LIMIT: nat := 1_000

  function Limit(req: Request): nat {
    if req.limit.Some? then req.limit.value else DEFAULT_LIMIT
  }

  function Uis(c: Codec, accounts: seq<Account>): seq<UiAccount> {
    seq(|accounts|, i requires 0 <= i < |accounts| => ToUi(c, accounts[i]))
  }

  function ReplyOf(c: Codec, page: Store.SnapshotPage): Fetcher.Reply {
    Fetcher.Reply(page.slot, Uis(c, page.accounts),
                  if page.next.Some? then Some(FormatCursor(c, page.slot, page.next.value)) else None)
  }

  ghost function ProgramAccountsV2(c: Codec, s: Store.StoreState, now: Store.Time, maxPageSize: nat, req: Request)
    : (Store.StoreState, Result<Fetcher.Reply, RpcError>)
  {
    var cursor := if req.paginationKey.Some? then ParseCursor(c, req.paginationKey.value) else None;
    if !(1 <= Limit(req) <= maxPageSize) || (req.paginationKey.Some? && cursor.None?) then (s, Err(InvalidParams))
    else
      var from := if cursor.Some? then Some(cursor.value.0) else None;
      var after := if cursor.Some? then Some(cursor.value.1) else None;
      var (s', page) := Store.Page(s, now, from, after, Limit(req));
      match page
      case Err(_) => (s', Err(if from.Some? then SnapshotExpired else Unavailable))
      case Ok(p) =>
        if req.minContextSlot.Some? && p.slot < req.minContextSlot.value then (s', Err(MinContextSlotNotReached))
        else (s', Ok(ReplyOf(c, p)))
  }

  method Serve(c: Codec, store: Store.Store, now: Store.Time, maxPageSize: nat, req: Request)
    returns (r: Result<Fetcher.Reply, RpcError>)
    modifies store
    ensures (store.State(), r) == ProgramAccountsV2(c, old(store.State()), now, maxPageSize, req)
  {
    var limit := Limit(req);
    if limit < 1 || maxPageSize < limit {
      return Err(InvalidParams);
    }
    var from: Option<Slot>, after: Option<Key> := None, None;
    if req.paginationKey.Some? {
      var cursor := ParseCursor(c, req.paginationKey.value);
      if cursor.None? {
        return Err(InvalidParams);
      }
      from, after := Some(cursor.value.0), Some(cursor.value.1);
    }
    var page := store.PageOf(now, from, after, limit);
    if page.Err? {
      return Err(if from.Some? then SnapshotExpired else Unavailable);
    }
    if req.minContextSlot.Some? && page.value.slot < req.minContextSlot.value {
      return Err(MinContextSlotNotReached);
    }
    r := Ok(ReplyOf(c, page.value));
  }
}
