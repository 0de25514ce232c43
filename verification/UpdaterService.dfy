// The updater service as an object: each way a wait ends, done in place on the source set, the
// buffers, the updater and the store. Proved step by step against the machine of module Service.
module UpdaterService {
  import opened Types
  import opened Staging
  import opened Rotation
  import opened Service
  import Fetcher
  import Store
  import StateUpdater

  datatype Mode = WaitMode | BootstrapMode | ServeMode | StopMode | CrashMode

  // What a stream delivers; the end of recovery is not one of its events.
  ghost predicate OnlyStream(es: seq<Event>) {
    forall i :: 0 <= i < |es| ==> !es[i].FinishRecovery?
  }

  lemma {:induction false} StaysRecovering(s: State, es: seq<Event>)
    requires s.recovering && OnlyStream(es)
    ensures Run(s, es).recovering
  {
    if es == [] {
    } else {
      StaysRecovering(s, es[..|es| - 1]);
    }
  }

  class UpdaterService {
    const cfg: Config
    const store: Store.Store
    var connected: set<nat>
    var active: nat
    var mode: Mode
    var buffered: seq<Event>
    var refresh: Option<Refresh>
    var updater: StateUpdater.StateUpdater

    ghost function CurrentPhase(): Phase
      reads this, updater
    {
      match mode
      case WaitMode => Waiting
      case BootstrapMode => Bootstrapping(buffered)
      case ServeMode => Serving(updater.Current(), refresh)
      case StopMode => Stopped
      case CrashMode => Crashed
    }

    ghost function Current(): Machine
      reads this, store, updater
    {
      Machine(CurrentPhase(), connected, active, store.State())
    }

    ghost predicate Valid()
      reads this, updater
    {
      && updater.store == store
      && updater.Valid()
      && OnlyStream(buffered)
      && (refresh.Some? ==> OnlyStream(refresh.value.buffered))
      && (mode == ServeMode ==> updater.activeUrl == Url(cfg, active) && !updater.recovering)
    }

    constructor (cfg: Config, store: Store.Store)
      requires store.State() == Store.EMPTY
      modifies store
      ensures Valid() && this.cfg == cfg && this.store == store && fresh(updater)
      ensures Current() == Start(cfg)
    {
      this.cfg := cfg;
      this.store := store;
      connected := {};
      active := 0;
      mode := WaitMode;
      buffered := [];
      refresh := None;
      updater := new StateUpdater.StateUpdater.FromFetchedState(store, "", 0, map[]);
      new;
      ReturnToWait();
    }

    method SelectNextYellowstone()
      modifies this`active
      ensures active == match NextConnected(old(active), connected, |cfg.urls|)
                        case Some(s) => s
                        case None => old(active)
    {
      var next := NextConnected(active, connected, |cfg.urls|);
      if next.Some? {
        active := next.value;
      }
    }

    method ReturnToWait()
      requires Valid()
      modifies this`active, this`mode, this`buffered, this`refresh, store
      ensures Valid()
      ensures Current() == EnterWait(cfg, old(Current()))
    {
      store.Invalidate();
      refresh := None;
      buffered := [];
      mode := WaitMode;
      if active !in connected {
        SelectNextYellowstone();
      }
      if active in connected {
        mode := BootstrapMode;
      }
    }

    method RotateSource()
      requires Valid()
      modifies this`active, this`mode, this`buffered, this`refresh, store
      ensures Valid()
      ensures Current() == Rotate(cfg, old(Current()))
    {
      mode := WaitMode;
      SelectNextYellowstone();
      ReturnToWait();
    }

    method OnWaitEvent(e: SourceEvent)
      requires Valid() && mode == WaitMode
      modifies this
      ensures Valid() && updater == old(updater)
      ensures Current() == WaitStep(cfg, old(Current()), e)
    {
      match e {
        case Connected(source) =>
          connected := connected + {source};
          active := source;
          buffered := [];
          mode := BootstrapMode;
        case Disconnected(source) =>
          connected := connected - {source};
        case _ =>
      }
    }

    method OnBootstrapEvent(e: SourceEvent)
      requires Valid() && mode == BootstrapMode
      modifies this, store
      ensures Valid() && updater == old(updater)
      ensures Current() == BootstrapStep(cfg, old(Current()), e)
    {
      if e.Connected? {
        connected := connected + {e.source};
      } else if e.Disconnected? {
        connected := connected - {e.source};
        if e.source == active {
          RotateSource();
        }
      } else if e.source == active {
        if |buffered| >= cfg.capacity {
          mode := CrashMode;
          return;
        }
        var event := StateEvent(cfg, e);
        if event.None? {
          RotateSource();
        } else {
          buffered := buffered + [event.value];
        }
      }
    }

    // Builds the updater that a fetched state and the events buffered meanwhile lead to, and
    // publishes it.
    method Recover(fetched: Fetcher.Fetched, events: seq<Event>) returns (u: StateUpdater.StateUpdater)
      requires OnlyStream(events)
      modifies store
      ensures fresh(u) && u.Valid() && u.store == store && u.activeUrl == Url(cfg, active)
      ensures u.Current() == Recovered(fetched, events) && !u.recovering
      ensures store.State() == Store.Published(old(store.State()), Url(cfg, active), u.confirmedSlot, u.accounts)
    {
      u := new StateUpdater.StateUpdater.FromFetchedState(store, Url(cfg, active), fetched.contextSlot,
        fetched.accounts);
      ghost var start := u.Current();
      for i := 0 to |events|
        invariant fresh(u) && u.Valid() && u.store == store && u.activeUrl == Url(cfg, active)
        invariant u.Current() == Run(start, events[..i]) && u.recovering
        invariant store.State() == old(store.State())
      {
        StaysRecovering(start, events[..i + 1]);
        RunSnoc(start, events[..i], events[i]);
        assert events[..i + 1] == events[..i] + [events[i]];
        ApplyStateEvent(u, events[i]);
      }
      assert events[..|events|] == events;
      u.FinishRecovery();
    }

    method ApplyStateEvent(u: StateUpdater.StateUpdater, e: Event)
      requires u.Valid() && u.store == store && !e.FinishRecovery?
      modifies u, store
      ensures u.Valid() && u.Current() == Staging.Step(old(u.Current()), e)
      ensures store.State() == Publication(u.activeUrl, old(u.Current()), e, old(store.State()))
    {
      match e {
        case Put(w) =>
          var _ := u.Queue(w);
        case Confirmed(slot) =>
          var _ := u.Confirm(slot);
      }
    }

    method OnBootstrapFetched(result: Option<Fetcher.Fetched>)
      requires Valid() && mode == BootstrapMode
      modifies this, store
      ensures Valid() && (updater == old(updater) || fresh(updater))
      ensures Current() == match result
                           case Some(f) => Install(cfg, old(Current()), f, old(buffered))
                           case None => EnterWait(cfg, old(Current()))
    {
      if result.None? {
        ReturnToWait();
        return;
      }
      updater := Recover(result.value, buffered);
      buffered := [];
      refresh := None;
      mode := ServeMode;
    }

    method OnServeEvent(e: SourceEvent)
      requires Valid() && mode == ServeMode
      modifies this, store, updater
      ensures Valid() && updater == old(updater)
      ensures Current() == ServeStep(cfg, old(Current()), e)
    {
      if e.Connected? {
        connected := connected + {e.source};
      } else if e.Disconnected? {
        connected := connected - {e.source};
        if e.source == active {
          RotateSource();
        }
      } else if e.source == active {
        var event := StateEvent(cfg, e);
        if event.None? {
          RotateSource();
        } else {
          ApplyStateEvent(updater, event.value);
          BufferRefreshEvent(event.value);
        }
      }
    }

    method BufferRefreshEvent(e: Event)
      requires refresh.Some? ==> OnlyStream(refresh.value.buffered)
      requires !e.FinishRecovery?
      modifies this`refresh
      ensures refresh == Buffer(old(refresh), e, cfg.capacity)
      ensures refresh.Some? ==> OnlyStream(refresh.value.buffered)
    {
      if refresh.Some? {
        if |refresh.value.buffered| < cfg.capacity {
          refresh := Some(refresh.value.(buffered := refresh.value.buffered + [e]));
        } else {
          refresh := None;
        }
      }
    }

    method OnRefreshDue()
      requires Valid() && mode == ServeMode
      modifies this`refresh
      ensures Valid()
      ensures Current() == Service.Step(cfg, old(Current()), RefreshDue)
    {
      if refresh.None? {
        refresh := Some(Refresh(updater.confirmedSlot, []));
      }
    }

    method InstallRefreshed(result: Option<Fetcher.Fetched>)
      requires Valid() && mode == ServeMode
      modifies this, store
      ensures Valid() && (updater == old(updater) || fresh(updater))
      ensures Current() == Service.Step(cfg, old(Current()), FetchFinished(result))
    {
      if refresh.None? {
        return;
      }
      var completed := refresh.value;
      refresh := None;
      if result.None? {
        return;
      }
      updater := Recover(result.value, completed.buffered);
    }

    method StopService()
      requires Valid()
      modifies this, store
      ensures Valid() && updater == old(updater)
      ensures Current() == Stop(old(Current()))
    {
      store.Invalidate();
      mode := StopMode;
    }

    // One turn of the service: whatever ends the wait is handled up to the next wait.
    method Handle(input: Input)
      requires Valid()
      modifies this, store, updater
      ensures Valid() && (updater == old(updater) || fresh(updater))
      ensures Current() == Service.Step(cfg, old(Current()), input)
    {
      if mode == StopMode || mode == CrashMode {
        return;
      }
      match input {
        case Shutdown => StopService();
        case SourcesStopped => mode := CrashMode;
        case RefreshDue =>
          if mode == ServeMode {
            OnRefreshDue();
          }
        case FetchFinished(result) =>
          if mode == BootstrapMode {
            OnBootstrapFetched(result);
          } else if mode == ServeMode {
            InstallRefreshed(result);
          }
        case FromSource(e) =>
          if mode == WaitMode {
            OnWaitEvent(e);
          } else if mode == BootstrapMode {
            OnBootstrapEvent(e);
          } else {
            OnServeEvent(e);
          }
      }
    }
  }
}
