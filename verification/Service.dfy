// The updater service as a state machine over its wait points: waiting for a source, bootstrapping
// behind a buffer, and serving with an optional background refresh.
module Service {
  import opened Types
  import opened Gate
  import opened Staging
  import opened Rotation
  import Fetcher
  import Store

  datatype SourceEvent =
    | Connected(source: nat)
    | Disconnected(source: nat)
    | AccountUpdate(source: nat, update: WireUpdate)
    | SlotConfirmed(source: nat, slot: Slot)

  // What ends a wait. A fetch that fails carries no state.
  datatype Input =
    | FromSource(e: SourceEvent)
    | RefreshDue
    | FetchFinished(result: Option<Fetcher.Fetched>)
    | Shutdown
    | SourcesStopped

  datatype Refresh = Refresh(minimum: Slot, buffered: seq<Event>)

  datatype Phase =
    | Waiting
    | Bootstrapping(buffered: seq<Event>)
    | Serving(updater: State, refresh: Option<Refresh>)
    | Stopped
    | Crashed

  datatype Config = Config(codec: Codec, urls: seq<string>, capacity: nat)

  datatype Machine = Machine(phase: Phase, connected: set<nat>, active: nat, store: Store.StoreState)

  function Url(cfg: Config, source: nat): string {
    if source < |cfg.urls| then cfg.urls[source] else ""
  }

  function SelectNext(cfg: Config, m: Machine): Machine {
    match NextConnected(m.active, m.connected, |cfg.urls|)
    case Some(source) => m.(active := source)
    case None => m
  }

  // The top of the service loop: not ready, and on to bootstrapping if a source is connected.
  function EnterWait(cfg: Config, m: Machine): Machine {
    var down := m.(store := m.store.(ready := false));
    var chosen := if m.active in m.connected then down else SelectNext(cfg, down);
    chosen.(phase := if chosen.active in chosen.connected then Bootstrapping([]) else Waiting)
  }

  function Rotate(cfg: Config, m: Machine): Machine {
    EnterWait(cfg, SelectNext(cfg, m))
  }

  function Stop(m: Machine): Machine {
    m.(store := m.store.(ready := false), phase := Stopped)
  }

  const NOTHING: Machine := Machine(Waiting, {}, 0, Store.EMPTY)

  function Start(cfg: Config): Machine {
    EnterWait(cfg, NOTHING)
  }

  // The state event of an update or confirm from the active source; no event if it does not decode.
  function StateEvent(cfg: Config, e: SourceEvent): Option<Event>
    requires e.AccountUpdate? || e.SlotConfirmed?
  {
    match e
    case SlotConfirmed(_, slot) => Some(Confirmed(slot))
    case AccountUpdate(_, u) =>
      match DecodeUpdate(cfg.codec, u)
      case Ok(w) => Some(Put(w))
      case Err(_) => None
  }

  // A raised confirm publishes once recovery is over.
  function Publication(url: string, before: State, e: Event, store: Store.StoreState): Store.StoreState {
    if e.Confirmed? && before.confirmed < e.slot && !before.recovering then
      Store.Published(store, url, e.slot, Confirm(before, e.slot).accounts)
    else store
  }

  // Recovery from a fetched state and the events buffered meanwhile.
  function Recovered(fetched: Fetcher.Fetched, buffered: seq<Event>): State {
    Finish(Run(FromFetched(fetched.contextSlot, fetched.accounts), buffered))
  }

  function Install(cfg: Config, m: Machine, fetched: Fetcher.Fetched, buffered: seq<Event>): Machine {
    var updater := Recovered(fetched, buffered);
    m.(phase := Serving(updater, None),
       store := Store.Published(m.store, Url(cfg, m.active), updater.confirmed, updater.accounts))
  }

  // A full buffer aborts the refresh.
  function Buffer(refresh: Option<Refresh>, e: Event, capacity: nat): Option<Refresh> {
    match refresh
    case None => None
    case Some(r) => if |r.buffered| < capacity then Some(r.(buffered := r.buffered + [e])) else None
  }

  function WaitStep(cfg: Config, m: Machine, e: SourceEvent): Machine {
    match e
    case Connected(source) => m.(connected := m.connected + {source}, active := source, phase := Bootstrapping([]))
    case Disconnected(source) => m.(connected := m.connected - {source})
    case _ => m
  }

  function BootstrapStep(cfg: Config, m: Machine, e: SourceEvent): Machine
    requires m.phase.Bootstrapping?
  {
    match e
    case Connected(source) => m.(connected := m.connected + {source})
    case Disconnected(source) =>
      var left := m.(connected := m.connected - {source});
      if source == m.active then Rotate(cfg, left) else left
    case _ =>
      if e.source != m.active then m
      else if |m.phase.buffered| >= cfg.capacity then m.(phase := Crashed)
      else
        match StateEvent(cfg, e)
        case Some(event) => m.(phase := Bootstrapping(m.phase.buffered + [event]))
        case None => Rotate(cfg, m)
  }

  function ServeStep(cfg: Config, m: Machine, e: SourceEvent): Machine
    requires m.phase.Serving?
  {
    match e
    case Connected(source) => m.(connected := m.connected + {source})
    case Disconnected(source) =>
      var left := m.(connected := m.connected - {source});
      if source == m.active then Rotate(cfg, left) else left
    case _ =>
      if e.source != m.active then m
      else
        match StateEvent(cfg, e)
        case None => Rotate(cfg, m)
        case Some(event) =>
          var u := m.phase.updater;
          m.(phase := Serving(Staging.Step(u, event), Buffer(m.phase.refresh, event, cfg.capacity)),
             store := Publication(Url(cfg, m.active), u, event, m.store))
  }

  function Step(cfg: Config, m: Machine, input: Input): Machine {
    match (m.phase, input)
    case (Stopped, _) => m
    case (Crashed, _) => m
    case (_, Shutdown) => Stop(m)
    case (_, SourcesStopped) => m.(phase := Crashed)
    case (Waiting, FromSource(e)) => WaitStep(cfg, m, e)
    case (Bootstrapping(_), FromSource(e)) => BootstrapStep(cfg, m, e)
    case (Bootstrapping(buffered), FetchFinished(Some(f))) => Install(cfg, m, f, buffered)
    case (Bootstrapping(_), FetchFinished(None)) => EnterWait(cfg, m)
    case (Serving(_, _), FromSource(e)) => ServeStep(cfg, m, e)
    case (Serving(u, None), RefreshDue) => m.(phase := Serving(u, Some(Refresh(u.confirmed, []))))
    case (Serving(_, Some(r)), FetchFinished(Some(f))) => Install(cfg, m, f, r.buffered)
    case (Serving(u, Some(_)), FetchFinished(None)) => m.(phase := Serving(u, None))
    case _ => m
  }

  ghost predicate Refreshing(m: Machine) {
    m.phase.Serving? && m.phase.refresh.Some?
  }

  function RunMachine(cfg: Config, m: Machine, inputs: seq<Input>): Machine {
    if inputs == [] then m else Step(cfg, RunMachine(cfg, m, inputs[..|inputs| - 1]), inputs[|inputs| - 1])
  }

  // What the environment can hand in: sources that are configured, and fetch results as the fetch
  // loop returns them (well-formed accounts, at or above the requested context slot).
  ghost predicate Legal(cfg: Config, m: Machine, input: Input) {
    && (input.FromSource? ==> input.e.source < |cfg.urls|)
    && (input.FetchFinished? && input.result.Some? ==>
          && AllWellFormed(cfg.codec, input.result.value.accounts)
          && (m.phase.Serving? && m.phase.refresh.Some? ==>
                m.phase.refresh.value.minimum <= input.result.value.contextSlot))
  }

  ghost predicate LegalRun(cfg: Config, m: Machine, inputs: seq<Input>) {
    forall i :: 0 <= i < |inputs| ==> Legal(cfg, RunMachine(cfg, m, inputs[..i]), inputs[i])
  }

  lemma LegalPrefix(cfg: Config, m: Machine, inputs: seq<Input>, n: nat)
    requires LegalRun(cfg, m, inputs) && n <= |inputs|
    ensures LegalRun(cfg, m, inputs[..n])
  {
    forall i | 0 <= i < n
      ensures inputs[..n][i] == inputs[i] && inputs[..n][..i] == inputs[..i]
    {
    }
  }

  lemma {:induction false} RunConcat(cfg: Config, m: Machine, a: seq<Input>, b: seq<Input>)
    ensures RunMachine(cfg, m, a + b) == RunMachine(cfg, RunMachine(cfg, m, a), b)
  {
    if b == [] {
      assert a + b == a;
    } else {
      assert (a + b)[..|a + b| - 1] == a + b[..|b| - 1];
      RunConcat(cfg, m, a, b[..|b| - 1]);
    }
  }
}
