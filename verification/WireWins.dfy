// Last writer wins, stated on the updates as they come over the wire.
module WireWins {
  import opened Types
  import opened Keys
  import opened Gate
  import opened Staging
  import opened ClosedForm
  import opened LastWriterWins
  import opened Service
  import opened SessionLog

  // What an updater is given: an update, a confirmed slot, or the end of its recovery.
  datatype Entry = Heard(update: WireUpdate) | SlotDone(slot: Slot) | Recovery

  ghost predicate AllDecode(c: Codec, entries: seq<Entry>) {
    forall i :: 0 <= i < |entries| && entries[i].Heard? ==> DecodeUpdate(c, entries[i].update).Ok?
  }

  function EventFor(c: Codec, entry: Entry): Event
    requires entry.Heard? ==> DecodeUpdate(c, entry.update).Ok?
  {
    match entry
    case Heard(u) => Put(DecodeUpdate(c, u).value)
    case SlotDone(slot) => Confirmed(slot)
    case Recovery => FinishRecovery
  }

  ghost function LogOf(c: Codec, entries: seq<Entry>): seq<Event>
    requires AllDecode(c, entries)
  {
    seq(|entries|, i requires 0 <= i < |entries| => EventFor(c, entries[i]))
  }

  // The order of two updates: by slot, then by write version.
  predicate Older(u: WireUpdate, v: WireUpdate)
    requires u.account.Some? && v.account.Some?
  {
    u.slot < v.slot || (u.slot == v.slot && u.account.value.writeVersion < v.account.value.writeVersion)
  }

  // Entry i is an update of the key, at or above the slot.
  predicate IsUpdateOf(entries: seq<Entry>, key: Bytes, lo: Slot, i: int) {
    && 0 <= i < |entries| && entries[i].Heard? && entries[i].update.account.Some?
    && entries[i].update.account.value.pubkey == key && lo <= entries[i].update.slot
  }

  // And newer than every earlier such one.
  ghost predicate IsAccepted(entries: seq<Entry>, key: Bytes, boot: Slot, i: int) {
    && IsUpdateOf(entries, key, boot, i)
    && forall j :: 0 <= j < i && IsUpdateOf(entries, key, boot, j) ==> Older(entries[j].update, entries[i].update)
  }

  // And the newest such one at or below slot t.
  ghost predicate IsNewest(entries: seq<Entry>, key: Bytes, boot: Slot, t: Slot, i: int) {
    && IsAccepted(entries, key, boot, i) && entries[i].update.slot <= t
    && forall j :: IsAccepted(entries, key, boot, j) && entries[j].update.slot <= t ==>
         j == i || Older(entries[j].update, entries[i].update)
  }

  // What such an update leaves behind: the account as it came if it is a table, and otherwise nothing.
  function LeftBy(c: Codec, a: WireAccount): Option<Account> {
    if IsTable(c, a) then Some(Account(a.pubkey, a.lamports, a.owner, a.executable, a.rentEpoch, a.data)) else None
  }

  lemma SameAccepted(c: Codec, entries: seq<Entry>, key: Bytes, boot: Slot, i: int)
    requires AllDecode(c, entries) && |key| == 32
    ensures IsAccepted(entries, key, boot, i)
            <==> AcceptedAt(boot, LogOf(c, entries), i) && LogOf(c, entries)[i].w.key == KeyOf(key).value
  {
    var es := LogOf(c, entries);
    forall j | 0 <= j < |entries|
      ensures IsUpdateOf(entries, key, boot, j)
              <==> es[j].Put? && es[j].w.key == KeyOf(key).value && boot <= es[j].w.slot
      ensures es[j].Put? ==>
                && entries[j].Heard? && entries[j].update.account.Some?
                && es[j].w.slot == entries[j].update.slot
                && es[j].w.version == entries[j].update.account.value.writeVersion
    {
      EntryIsWrite(c, entries[j], key);
    }
  }

  lemma EntryIsWrite(c: Codec, entry: Entry, key: Bytes)
    requires |key| == 32 && (entry.Heard? ==> DecodeUpdate(c, entry.update).Ok?)
    ensures entry.Heard? ==>
              var w, u := EventFor(c, entry).w, entry.update;
              && u.account.Some? && w.slot == u.slot && w.version == u.account.value.writeVersion
              && (w.key == KeyOf(key).value <==> u.account.value.pubkey == key)
              && w.account == LeftBy(c, u.account.value)
  {
    if entry.Heard? {
      DecodesExactly(c, entry.update);
      BytesRoundTrip(key);
    }
  }

  // After a confirm that raises the confirmed slot, and after recovery ends, each key holds what its
  // newest accepted update at or below the confirmed slot leaves, or its fetched value without one.
  lemma NewestUpdateWins(c: Codec, base: Accounts, boot: Slot, entries: seq<Entry>, e: Event, key: Bytes)
    requires AllDecode(c, entries) && |key| == 32
    requires Drains(e, MaxConfirmed(boot, LogOf(c, entries)))
    ensures var s := Run(FromFetched(boot, base), LogOf(c, entries) + [e]);
            var value := Lookup(s.accounts, KeyOf(key).value);
            || (exists i :: IsNewest(entries, key, boot, s.confirmed, i)
                            && value == LeftBy(c, entries[i].update.account.value))
            || ((forall i :: IsAccepted(entries, key, boot, i) ==> s.confirmed < entries[i].update.slot)
                && value == Lookup(base, KeyOf(key).value))
  {
    var es := LogOf(c, entries);
    var t, k := Run(FromFetched(boot, base), es + [e]).confirmed, KeyOf(key).value;
    NewestWriteWins(base, boot, es, e, k);
    forall i | 0 <= i < |entries|
      ensures IsAccepted(entries, key, boot, i) <==> AcceptedAt(boot, es, i) && es[i].w.key == k
      ensures es[i].Put? ==>
                && entries[i].Heard? && entries[i].update.account.Some?
                && es[i].w.slot == entries[i].update.slot
                && es[i].w.version == entries[i].update.account.value.writeVersion
                && es[i].w.account == LeftBy(c, entries[i].update.account.value)
    {
      SameAccepted(c, entries, key, boot, i);
      EntryIsWrite(c, entries[i], key);
    }
    if i :| WinsAt(boot, es, k, t, i) && Lookup(Run(FromFetched(boot, base), es + [e]).accounts, k) == es[i].w.account {
      assert IsNewest(entries, key, boot, t, i);
    }
  }

  // ----- In the service -----

  // What the inputs give an updater that follows the source.
  function EntriesOf(source: nat, inputs: seq<Input>): seq<Entry> {
    if inputs == [] then []
    else
      EntriesOf(source, inputs[..|inputs| - 1])
      + match inputs[|inputs| - 1]
        case FromSource(AccountUpdate(s, u)) => if s == source then [Heard(u)] else []
        case FromSource(SlotConfirmed(s, slot)) => if s == source then [SlotDone(slot)] else []
        case _ => []
  }

  // While the source does not fail, what is received from it is the log of what it sent.
  lemma {:induction false} ReceivedIsLog(cfg: Config, source: nat, inputs: seq<Input>)
    requires forall i :: 0 <= i < |inputs| ==> !SourceFails(cfg, source, inputs[i])
    ensures AllDecode(cfg.codec, EntriesOf(source, inputs))
    ensures Received(cfg, source, inputs) == LogOf(cfg.codec, EntriesOf(source, inputs))
  {
    if inputs == [] {
    } else {
      ReceivedIsLog(cfg, source, inputs[..|inputs| - 1]);
    }
  }
}
