// The staged, versioned map as a value: what queue, confirm and finish_recovery do to it, and
// runs of them. The class StateUpdater is proved against these functions.
module Staging {
  import opened Types
  import opened Writes

  datatype Mutation = Mutation(key: Key, account: Option<Account>)
  type Pending = map<Slot, seq<Mutation>>
  datatype Mark = Mark(slot: Slot, version: U64)

  datatype State = State(
    bootstrap: Slot,
    confirmed: Slot,
    accounts: Accounts,
    pending: Pending,
    versions: map<Key, Mark>,
    recovering: bool)

  // What the updater consumes: the two stream events, and the end of recovery.
  datatype Event = Put(w: Write) | Confirmed(slot: Slot) | FinishRecovery

  function FromFetched(contextSlot: Slot, accounts: Accounts): State {
    State(contextSlot, contextSlot, accounts, map[], map[], true)
  }

  function ApplyMutations(accounts: Accounts, ms: seq<Mutation>): Accounts {
    if ms == [] then accounts
    else
      var m := ms[|ms| - 1];
      Assign(ApplyMutations(accounts, ms[..|ms| - 1]), m.key, m.account)
  }

  // The map after the pending slots 0..t have been drained in ascending order.
  function DrainThrough(accounts: Accounts, pending: Pending, t: nat): Accounts {
    var before := if t == 0 then accounts else DrainThrough(accounts, pending, t - 1);
    if t in pending then ApplyMutations(before, pending[t]) else before
  }

  function After(pending: Pending, t: Slot): Pending {
    map s | s in pending && t < s :: pending[s]
  }

  // A write is refused below the bootstrap slot and at or below the key's watermark.
  predicate Accepts(bootstrap: Slot, versions: map<Key, Mark>, w: Write) {
    && bootstrap <= w.slot
    && (w.key in versions ==>
          var m := versions[w.key];
          m.slot < w.slot || (m.slot == w.slot && m.version < w.version))
  }

  function Stage(pending: Pending, w: Write): Pending {
    pending[w.slot := (if w.slot in pending then pending[w.slot] else []) + [Mutation(w.key, w.account)]]
  }

  function Queued(s: State, w: Write): State {
    if Accepts(s.bootstrap, s.versions, w) then
      s.(versions := s.versions[w.key := Mark(w.slot, w.version)], pending := Stage(s.pending, w))
    else s
  }

  function Drained(s: State, t: Slot): State {
    s.(accounts := DrainThrough(s.accounts, s.pending, t), pending := After(s.pending, t))
  }

  function Confirm(s: State, t: Slot): State {
    if t <= s.confirmed then s else Drained(s, t).(confirmed := t)
  }

  function Finish(s: State): State {
    Drained(s, s.confirmed).(recovering := false)
  }

  function Step(s: State, e: Event): State {
    match e
    case Put(w) => Queued(s, w)
    case Confirmed(t) => Confirm(s, t)
    case FinishRecovery => Finish(s)
  }

  function Run(s: State, es: seq<Event>): State {
    if es == [] then s else Step(Run(s, es[..|es| - 1]), es[|es| - 1])
  }

  lemma RunSnoc(s: State, es: seq<Event>, e: Event)
    ensures Run(s, es + [e]) == Step(Run(s, es), e)
  {
    assert (es + [e])[..|es|] == es;
  }

  lemma {:induction false} RunConcat(s: State, a: seq<Event>, b: seq<Event>)
    ensures Run(s, a + b) == Run(Run(s, a), b)
  {
    if b == [] {
      assert a + b == a;
    } else {
      assert (a + b)[..|a + b| - 1] == a + b[..|b| - 1];
      RunConcat(s, a, b[..|b| - 1]);
    }
  }

  // The confirmed slot never goes down, and ends at least at the confirmed slot of every event.
  lemma {:induction false} ConfirmedMonotone(s: State, es: seq<Event>)
    ensures Run(s, es).confirmed == MaxConfirmed(s.confirmed, es)
    ensures s.confirmed <= Run(s, es).confirmed
    ensures Run(s, es).bootstrap == s.bootstrap
  {
    if es == [] {
    } else {
      ConfirmedMonotone(s, es[..|es| - 1]);
    }
  }

  // The greatest of start and the confirmed slots of es.
  function MaxConfirmed(start: Slot, es: seq<Event>): Slot {
    if es == [] then start
    else
      var m := MaxConfirmed(start, es[..|es| - 1]);
      match es[|es| - 1]
      case Confirmed(t) => Max(m, t)
      case _ => m
  }
}
