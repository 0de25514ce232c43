// What the paginated account method answers, in terms of the request and of what the store can serve.
module RpcExact {
  import opened Types
  import opened Gate
  import opened Cursor
  import opened JsonRpc
  import Fetcher
  import Store
  import PagingSafety

  // How many accounts are asked for; a thousand unless the request says otherwise.
  function Asked(req: Request): nat {
    match req.limit
    case Some(limit) => limit
    case None => 1_000
  }

  ghost predicate IsValid(c: Codec, maxPageSize: nat, req: Request) {
    && 1 <= Asked(req) <= maxPageSize
    && (req.paginationKey.Some? ==>
          exists slot: Slot, key: Key :: IsCursor(c, req.paginationKey.value, slot, key))
  }

  // The snapshot a request can be served from: without a cursor the current one, and with one that
  // retained under its slot, if it was touched less than 300 seconds ago; none while unready.
  ghost predicate IsServable(c: Codec, s: Store.StoreState, now: Store.Time, req: Request, snapshot: Store.Snapshot) {
    && s.ready
    && match req.paginationKey
       case None => snapshot == s.current
       case Some(text) =>
         exists slot: Slot, key: Key ::
           && IsCursor(c, text, slot, key)
           && slot in s.retained && now < s.retained[slot].touched + 300_000_000_000
           && snapshot == s.retained[slot].snapshot
  }

  // The key after which the page begins.
  ghost predicate BeginsAfter(c: Codec, req: Request, after: Option<Key>) {
    match req.paginationKey
    case None => after == None
    case Some(text) => after.Some? && exists slot: Slot :: IsCursor(c, text, slot, after.value)
  }

  // The entry an account is served as.
  predicate IsServedAs(c: Codec, a: Account, ui: UiAccount) {
    && ui.pubkey == c.encode58(a.pubkey) && ui.owner == c.encode58(a.owner) && ui.lamports == a.lamports
    && ui.executable == a.executable && ui.rentEpoch == a.rentEpoch && ui.data == Some(a.data)
  }

  // The reply carries the next accounts of the snapshot, and a cursor at the last of them if there are
  // more.
  ghost predicate IsPageOf(
    c: Codec, snapshot: Store.Snapshot, after: Option<Key>, limit: nat, reply: Fetcher.Reply)
  {
    var m, keys := snapshot.accounts, Store.KeysAfter(snapshot.accounts, after);
    && reply.slot == snapshot.slot
    && |reply.entries| == (if limit < |keys| then limit else |keys|)
    && (forall i :: 0 <= i < |reply.entries| ==> IsServedAs(c, m[keys[i]], reply.entries[i]))
    && reply.paginationKey == if 0 < limit < |keys|
                              then Some(FormatCursor(c, snapshot.slot, keys[limit - 1])) else None
  }

  lemma CursorParsed(c: Codec, text: string)
    ensures ParseCursor(c, text).Some? <==> exists slot: Slot, key: Key :: IsCursor(c, text, slot, key)
    ensures forall slot: Slot, key: Key :: IsCursor(c, text, slot, key) ==> ParseCursor(c, text) == Some((slot, key))
  {
    forall slot: Slot, key: Key
      ensures ParseCursor(c, text) == Some((slot, key)) <==> IsCursor(c, text, slot, key)
    {
      CursorExactly(c, text, slot, key);
    }
    if ParseCursor(c, text).Some? {
      assert IsCursor(c, text, ParseCursor(c, text).value.0, ParseCursor(c, text).value.1);
    }
  }

  // The snapshot, the exclusive key and the page of a valid request.
  lemma ServedFrom(c: Codec, s: Store.StoreState, now: Store.Time, maxPageSize: nat, req: Request)
    returns (snapshot: Store.Snapshot, after: Option<Key>)
    requires IsValid(c, maxPageSize, req)
    ensures BeginsAfter(c, req, after)
    ensures (exists x :: IsServable(c, s, now, req, x)) ==> IsServable(c, s, now, req, snapshot)
    ensures forall x :: IsServable(c, s, now, req, x) ==> x == snapshot
    ensures var (s', r) := ProgramAccountsV2(c, s, now, maxPageSize, req);
            if !IsServable(c, s, now, req, snapshot) then
              r == Err(if req.paginationKey.Some? then SnapshotExpired else Unavailable)
            else if req.minContextSlot.Some? && snapshot.slot < req.minContextSlot.value then
              r == Err(MinContextSlotNotReached)
            else r == Ok(ReplyOf(c, PagingSafety.PageFrom(snapshot, after, Asked(req))))
  {
    match req.paginationKey
    case None =>
      snapshot, after := s.current, None;
      assert IsServable(c, s, now, req, snapshot) <==> s.ready;
    case Some(text) =>
      CursorParsed(c, text);
      var (slot, key) := ParseCursor(c, text).value;
      assert IsCursor(c, text, slot, key);
      after := Some(key);
      snapshot := if slot in s.retained then s.retained[slot].snapshot else s.current;
      assert IsServable(c, s, now, req, snapshot)
             <==> s.ready && slot in s.retained && now < s.retained[slot].touched + 300_000_000_000;
  }

  lemma PageIsPage(c: Codec, snapshot: Store.Snapshot, after: Option<Key>, limit: nat)
    requires limit > 0
    ensures IsPageOf(c, snapshot, after, limit, ReplyOf(c, PagingSafety.PageFrom(snapshot, after, limit)))
  {
  }

  // For every request and every store: each error exactly when it should be, and otherwise the page, at a
  // slot not below the minimum asked for.
  lemma AnswersExactly(c: Codec, s: Store.StoreState, now: Store.Time, maxPageSize: nat, req: Request)
    ensures var r := ProgramAccountsV2(c, s, now, maxPageSize, req).1;
            var valid, servable := IsValid(c, maxPageSize, req), exists x :: IsServable(c, s, now, req, x);
            var tooLow := exists x :: IsServable(c, s, now, req, x) && req.minContextSlot.Some?
                                      && x.slot < req.minContextSlot.value;
            && (r == Err(InvalidParams) <==> !valid)
            && (r == Err(Unavailable) <==> valid && req.paginationKey.None? && !s.ready)
            && (r == Err(SnapshotExpired) <==> valid && req.paginationKey.Some? && !servable)
            && (r == Err(MinContextSlotNotReached) <==> valid && tooLow)
            && (r.Ok? <==> valid && servable && !tooLow)
    ensures var r := ProgramAccountsV2(c, s, now, maxPageSize, req).1;
            r.Ok? ==>
              && (req.minContextSlot.Some? ==> req.minContextSlot.value <= r.value.slot)
              && exists snapshot, after :: IsServable(c, s, now, req, snapshot) && BeginsAfter(c, req, after)
                                           && IsPageOf(c, snapshot, after, Asked(req), r.value)
  {
    if req.paginationKey.Some? {
      CursorParsed(c, req.paginationKey.value);
    }
    if IsValid(c, maxPageSize, req) {
      var snapshot, after := ServedFrom(c, s, now, maxPageSize, req);
      PageIsPage(c, snapshot, after, Asked(req));
      if req.paginationKey.None? {
        assert s.ready ==> IsServable(c, s, now, req, s.current);
      }
    }
  }

  // A request changes nothing but what is retained, and an invalid one nothing at all.
  lemma RequestKeeps(c: Codec, s: Store.StoreState, now: Store.Time, maxPageSize: nat, req: Request)
    ensures var (s', r) := ProgramAccountsV2(c, s, now, maxPageSize, req);
            s' == s.(retained := s'.retained) && (r == Err(InvalidParams) ==> s' == s)
  {
  }
}
