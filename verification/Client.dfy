// The client's session: a version-free staging of raw updates over decoded tables, replayed after
// a snapshot download and then followed live.
module Client {
  import opened Types
  import opened Ascending
  import opened Keys
  import opened Gate
  import opened Download

  datatype ClientError = AccountMissing | AddressInvalid | TableInvalid | LateUpdate

  type Staged = map<Slot, seq<WireUpdate>>

  datatype SessionState = SessionState(bootstrap: Slot, confirmed: Slot, tables: Tables, pending: Staged)

  datatype WireEvent = Update(update: WireUpdate) | ConfirmedSlot(slot: Slot)

  function ApplyUpdate(c: Codec, tables: Tables, u: WireUpdate): Result<Tables, ClientError> {
    match u.account
    case None => Err(AccountMissing)
    case Some(a) =>
      match KeyOf(a.pubkey)
      case None => Err(AddressInvalid)
      case Some(k) =>
        if a.lamports == 0 || a.owner != c.programId then Ok(tables - {k})
        else
          match c.decodeTable(a.data)
          case None => Err(TableInvalid)
          case Some(t) => Ok(tables[k := t])
  }

  function ApplyUpdates(c: Codec, tables: Tables, us: seq<WireUpdate>): Result<Tables, ClientError> {
    if us == [] then Ok(tables)
    else
      match ApplyUpdates(c, tables, us[..|us| - 1])
      case Err(e) => Err(e)
      case Ok(t) => ApplyUpdate(c, t, us[|us| - 1])
  }

  // The tables after the staged slots 0..t have been drained in ascending order.
  function DrainTables(c: Codec, tables: Tables, pending: Staged, t: nat): Result<Tables, ClientError> {
    var before := if t == 0 then Ok(tables) else DrainTables(c, tables, pending, t - 1);
    match before
    case Err(e) => Err(e)
    case Ok(m) => if t in pending then ApplyUpdates(c, m, pending[t]) else Ok(m)
  }

  function Later(pending: Staged, t: Slot): Staged {
    map s | s in pending && t < s :: pending[s]
  }

  function Drain(c: Codec, s: SessionState, t: Slot): Result<SessionState, ClientError> {
    match DrainTables(c, s.tables, s.pending, t)
    case Err(e) => Err(e)
    case Ok(tables) => Ok(s.(tables := tables, pending := Later(s.pending, t)))
  }

  function StageUpdate(pending: Staged, u: WireUpdate): Staged {
    pending[u.slot := (if u.slot in pending then pending[u.slot] else []) + [u]]
  }

  // Below the bootstrap slot an update is dropped; while following, one at or below the confirmed
  // slot ends the session.
  function Queue(s: SessionState, u: WireUpdate, recovering: bool): Result<SessionState, ClientError> {
    if u.slot < s.bootstrap then Ok(s)
    else if !recovering && u.slot <= s.confirmed then Err(LateUpdate)
    else Ok(s.(pending := StageUpdate(s.pending, u)))
  }

  function ConfirmSlot(c: Codec, s: SessionState, t: Slot): Result<SessionState, ClientError> {
    if t <= s.confirmed then Ok(s)
    else
      match Drain(c, s, t)
      case Err(e) => Err(e)
      case Ok(d) => Ok(d.(confirmed := t))
  }

  function StepSession(c: Codec, s: SessionState, e: WireEvent, recovering: bool): Result<SessionState, ClientError> {
    match e
    case Update(u) => Queue(s, u, recovering)
    case ConfirmedSlot(t) => ConfirmSlot(c, s, t)
  }

  function RunSession(c: Codec, s: SessionState, es: seq<WireEvent>, recovering: bool)
    : Result<SessionState, ClientError> {
    if es == [] then Ok(s)
    else
      match RunSession(c, s, es[..|es| - 1], recovering)
      case Err(e) => Err(e)
      case Ok(m) => StepSession(c, m, es[|es| - 1], recovering)
  }

  // From a downloaded snapshot: replay what was buffered, then apply what is already confirmed.
  function Established(c: Codec, slot: Slot, tables: Tables, buffered: seq<WireEvent>)
    : Result<SessionState, ClientError> {
    match RunSession(c, SessionState(slot, slot, tables, map[]), buffered, true)
    case Err(e) => Err(e)
    case Ok(s) => Drain(c, s, s.confirmed)
  }

  lemma {:induction false} RunSessionStops(c: Codec, s: SessionState, es: seq<WireEvent>, recovering: bool, n: nat)
    requires n <= |es| && RunSession(c, s, es[..n], recovering).Err?
    ensures RunSession(c, s, es, recovering) == RunSession(c, s, es[..n], recovering)
    decreases |es| - n
  {
    if n == |es| {
      assert es[..n] == es;
    } else {
      assert es[..n + 1][..n] == es[..n];
      RunSessionStops(c, s, es, recovering, n + 1);
    }
  }

  lemma {:induction false} ApplyUpdatesStops(c: Codec, tables: Tables, us: seq<WireUpdate>, n: nat)
    requires n <= |us| && ApplyUpdates(c, tables, us[..n]).Err?
    ensures ApplyUpdates(c, tables, us) == ApplyUpdates(c, tables, us[..n])
    decreases |us| - n
  {
    if n == |us| {
      assert us[..n] == us;
    } else {
      assert us[..n + 1][..n] == us[..n];
      ApplyUpdatesStops(c, tables, us, n + 1);
    }
  }

  // ----- Draining the listed slots only -----

  // Between listed slots there is nothing to drain.
  lemma {:induction false} DrainGap(c: Codec, tables: Tables, pending: Staged, lo: nat, hi: nat)
    requires lo <= hi && forall s :: lo < s <= hi ==> s !in pending
    ensures DrainTables(c, tables, pending, hi) == DrainTables(c, tables, pending, lo)
    decreases hi
  {
    if lo >= hi {
    } else {
      DrainGap(c, tables, pending, lo, hi - 1);
    }
  }

  lemma {:induction false} DrainNothing(c: Codec, tables: Tables, pending: Staged, hi: nat)
    requires forall s :: s <= hi ==> s !in pending
    ensures DrainTables(c, tables, pending, hi) == Ok(tables)
    decreases hi
  {
    if hi == 0 {
    } else {
      DrainNothing(c, tables, pending, hi - 1);
    }
  }

  // The tables before draining the i-th listed slot.
  function DrainBefore(c: Codec, tables: Tables, pending: Staged, slots: seq<nat>, i: nat): Result<Tables, ClientError>
    requires i <= |slots|
  {
    if i == 0 then Ok(tables) else DrainTables(c, tables, pending, slots[i - 1])
  }

  lemma DrainListed(c: Codec, tables: Tables, pending: Staged, slots: seq<nat>, t: nat, i: nat)
    requires Lists(slots, pending.Keys, t) && i < |slots| && DrainBefore(c, tables, pending, slots, i).Ok?
    ensures DrainBefore(c, tables, pending, slots, i + 1)
            == ApplyUpdates(c, DrainBefore(c, tables, pending, slots, i).value, pending[slots[i]])
  {
    var s := slots[i];
    if i == 0 {
      assert forall j :: 0 <= j < |slots| ==> s <= slots[j];
      if s > 0 {
        DrainNothing(c, tables, pending, s - 1);
      }
    } else {
      assert forall j :: 0 <= j < |slots| ==> slots[j] <= slots[i - 1] || s <= slots[j];
      DrainGap(c, tables, pending, slots[i - 1], s - 1);
    }
  }

  lemma DrainListedAll(c: Codec, tables: Tables, pending: Staged, slots: seq<nat>, t: nat)
    requires Lists(slots, pending.Keys, t)
    ensures DrainBefore(c, tables, pending, slots, |slots|) == DrainTables(c, tables, pending, t)
  {
    var n := |slots|;
    if n == 0 {
      DrainNothing(c, tables, pending, t);
    } else {
      assert forall j :: 0 <= j < |slots| ==> slots[j] <= slots[n - 1];
      DrainGap(c, tables, pending, slots[n - 1], t);
    }
  }

  lemma {:induction false} DrainStops(c: Codec, tables: Tables, pending: Staged, lo: nat, hi: nat)
    requires lo <= hi && DrainTables(c, tables, pending, lo).Err?
    ensures DrainTables(c, tables, pending, hi) == DrainTables(c, tables, pending, lo)
    decreases hi
  {
    if lo >= hi {
    } else {
      DrainStops(c, tables, pending, lo, hi - 1);
    }
  }

  // ----- The session object. A session that fails is dropped by its owner, so only its error is
  // specified. -----

  class Session {
    const codec: Codec
    const bootstrapSlot: Slot
    var confirmedSlot: Slot
    var tables: Tables
    var pending: Staged

    ghost function Current(): SessionState
      reads this
    {
      SessionState(bootstrapSlot, confirmedSlot, tables, pending)
    }

    constructor (codec: Codec, slot: Slot, tables: Tables)
      ensures this.codec == codec && Current() == SessionState(slot, slot, tables, map[])
    {
      this.codec := codec;
      bootstrapSlot := slot;
      confirmedSlot := slot;
      this.tables := tables;
      pending := map[];
    }

    method QueueUpdate(u: WireUpdate, recovering: bool) returns (failed: Option<ClientError>)
      modifies this
      ensures match Queue(old(Current()), u, recovering)
              case Ok(s) => failed == None && Current() == s
              case Err(e) => failed == Some(e)
    {
      if u.slot < bootstrapSlot {
        return None;
      }
      if !recovering && u.slot <= confirmedSlot {
        return Some(LateUpdate);
      }
      if u.slot !in pending {
        pending := pending[u.slot := []];
      }
      pending := pending[u.slot := pending[u.slot] + [u]];
      assert pending == StageUpdate(old(pending), u);
      failed := None;
    }

    method Confirm(slot: Slot) returns (r: Result<bool, ClientError>)
      modifies this
      ensures match ConfirmSlot(codec, old(Current()), slot)
              case Ok(s) => r == Ok(old(confirmedSlot) < slot) && Current() == s
              case Err(e) => r == Err(e)
    {
      if slot <= confirmedSlot {
        return Ok(false);
      }
      var failed := ApplyPendingThrough(slot);
      if failed.Some? {
        return Err(failed.value);
      }
      confirmedSlot := slot;
      r := Ok(true);
    }

    method ApplyPendingThrough(slot: Slot) returns (failed: Option<ClientError>)
      modifies this`tables, this`pending
      ensures match Drain(codec, old(Current()), slot)
              case Ok(s) => failed == None && Current() == s
              case Err(e) => failed == Some(e)
    {
      ghost var tables0, pending0 := tables, pending;
      var slots := UpTo(pending.Keys, slot);
      for i := 0 to |slots|
        invariant forall j :: 0 <= j < |slots| ==> (slots[j] in pending <==> i <= j)
        invariant forall s :: s in pending ==> s in pending0 && pending[s] == pending0[s]
        invariant forall s :: s in pending0 && slot < s ==> s in pending
        invariant DrainBefore(codec, tables0, pending0, slots, i) == Ok(tables)
      {
        DrainListed(codec, tables0, pending0, slots, slot, i);
        var updates := pending[slots[i]];
        pending := pending - {slots[i]};
        failed := ApplyAll(updates);
        if failed.Some? {
          DrainStops(codec, tables0, pending0, slots[i], slot);
          return;
        }
      }
      DrainListedAll(codec, tables0, pending0, slots, slot);
      assert pending == Later(pending0, slot);
      failed := None;
    }

    method ApplyAll(updates: seq<WireUpdate>) returns (failed: Option<ClientError>)
      modifies this`tables
      ensures match ApplyUpdates(codec, old(tables), updates)
              case Ok(t) => failed == None && tables == t
              case Err(e) => failed == Some(e)
    {
      for i := 0 to |updates|
        invariant ApplyUpdates(codec, old(tables), updates[..i]) == Ok(tables)
      {
        assert updates[..i + 1][..i] == updates[..i];
        var applied := ApplyUpdate(codec, tables, updates[i]);
        if applied.Err? {
          ApplyUpdatesStops(codec, old(tables), updates, i + 1);
          return Some(applied.error);
        }
        tables := applied.value;
      }
      assert updates[..|updates|] == updates;
      failed := None;
    }

    // Replays what was buffered during the download.
    method Replay(buffered: seq<WireEvent>) returns (failed: Option<ClientError>)
      requires Current() == SessionState(bootstrapSlot, bootstrapSlot, tables, map[])
      modifies this
      ensures match Established(codec, bootstrapSlot, old(tables), buffered)
              case Ok(s) => failed == None && Current() == s
              case Err(e) => failed == Some(e)
    {
      failed := Consume(buffered, true);
      if failed.Some? {
        return;
      }
      failed := ApplyPendingThrough(confirmedSlot);
    }

    // Follows the live stream. The stream's pings change nothing and are left out.
    method Follow(live: seq<WireEvent>) returns (failed: Option<ClientError>)
      modifies this
      ensures match RunSession(codec, old(Current()), live, false)
              case Ok(s) => failed == None && Current() == s
              case Err(e) => failed == Some(e)
    {
      failed := Consume(live, false);
    }

    method Consume(es: seq<WireEvent>, recovering: bool) returns (failed: Option<ClientError>)
      modifies this
      ensures match RunSession(codec, old(Current()), es, recovering)
              case Ok(s) => failed == None && Current() == s
              case Err(e) => failed == Some(e)
    {
      for i := 0 to |es|
        invariant RunSession(codec, old(Current()), es[..i], recovering) == Ok(Current())
      {
        assert es[..i + 1][..i] == es[..i];
        match es[i] {
          case Update(u) =>
            failed := QueueUpdate(u, recovering);
          case ConfirmedSlot(slot) =>
            var r := Confirm(slot);
            failed := if r.Err? then Some(r.error) else None;
        }
        if failed.Some? {
          RunSessionStops(codec, old(Current()), es, recovering, i + 1);
          return;
        }
      }
      assert es[..|es|] == es;
      failed := None;
    }
  }
}
