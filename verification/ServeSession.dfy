// A serve session with its readers: the service's steps and page reads interleaved.
module ServeSession {
  import opened Types
  import opened Service
  import opened ServiceSafety
  import Paging
  import PagingSafety
  import Store

  datatype Act =
    | Work(input: Input)
    | Read(now: Store.Time, from: Option<Slot>, after: Option<Key>, limit: nat)

  ghost function ActStep(cfg: Config, m: Machine, act: Act): Machine {
    match act
    case Work(input) => Service.Step(cfg, m, input)
    case Read(now, from, after, limit) => m.(store := Store.Page(m.store, now, from, after, limit).0)
  }

  ghost function RunActs(cfg: Config, m: Machine, acts: seq<Act>): Machine {
    if acts == [] then m else ActStep(cfg, RunActs(cfg, m, acts[..|acts| - 1]), acts[|acts| - 1])
  }

  // Every service step gets what the environment can hand in, and the service keeps serving.
  ghost predicate Session(cfg: Config, m: Machine, acts: seq<Act>) {
    && (forall i :: 0 <= i <= |acts| ==> RunActs(cfg, m, acts[..i]).phase.Serving?)
    && (forall i :: 0 <= i < |acts| && acts[i].Work? ==> Legal(cfg, RunActs(cfg, m, acts[..i]), acts[i].input))
  }

  lemma SessionPrefix(cfg: Config, m: Machine, acts: seq<Act>, n: nat)
    requires Session(cfg, m, acts) && n <= |acts|
    ensures Session(cfg, m, acts[..n])
  {
    assert forall i :: 0 <= i <= n ==> acts[..n][..i] == acts[..i];
    assert forall i :: 0 <= i < n ==> acts[..n][i] == acts[i];
  }

  // A step from serving to serving leaves the store alone or is one publication.
  lemma PublishesOrKeeps(cfg: Config, m: Machine, input: Input)
    requires Inv(cfg, m) && Legal(cfg, m, input) && m.phase.Serving? && Service.Step(cfg, m, input).phase.Serving?
    ensures var next := Service.Step(cfg, m, input);
            || next.store == m.store
            || (var u := next.phase.updater;
                next.store == Store.Published(m.store, Url(cfg, m.active), u.confirmed, u.accounts))
    ensures m.store.current.slot <= Service.Step(cfg, m, input).store.current.slot
  {
    StepInv(cfg, m, input);
    match (m.phase, input)
    case (Serving(_, _), FromSource(e)) => ServeInv(cfg, m, e);
    case _ =>
  }

  // Readers change nothing but what is retained.
  lemma ReadKeeps(cfg: Config, m: Machine, act: Act)
    requires act.Read?
    ensures ActStep(cfg, m, act) == m.(store := m.store.(retained := ActStep(cfg, m, act).store.retained))
    ensures Inv(cfg, m) ==> Inv(cfg, ActStep(cfg, m, act))
  {
  }

  lemma ActNamesOnly(cfg: Config, m: Machine, act: Act, pinned: Store.Snapshot)
    requires Inv(cfg, m) && m.phase.Serving? && ActStep(cfg, m, act).phase.Serving?
    requires act.Work? ==> Legal(cfg, m, act.input)
    requires PagingSafety.NamesOnly(m.store, pinned)
    ensures Inv(cfg, ActStep(cfg, m, act)) && PagingSafety.NamesOnly(ActStep(cfg, m, act).store, pinned)
  {
    match act
    case Work(input) =>
      StepInv(cfg, m, input);
      PublishesOrKeeps(cfg, m, input);
      var u := ActStep(cfg, m, act).phase.updater;
      var publish := Paging.Publish(Url(cfg, m.active), u.confirmed, u.accounts);
      if ActStep(cfg, m, act).store != m.store {
        PagingSafety.StepNamesOnly(m.store, pinned, publish);
      }
    case Read(now, from, after, limit) =>
      ReadKeeps(cfg, m, act);
      PagingSafety.StepNamesOnly(m.store, pinned, Paging.Read(now, from, after, limit));
  }

  // Through a whole serve session, however the service's steps, its refreshes and its readers
  // interleave, a nonzero slot served with nothing else retained under it names one map: every later
  // continuation in the session is an error or the page of that map.
  lemma {:induction false} SessionCursorsOneMap(
    cfg: Config, m: Machine, acts: seq<Act>, now: Store.Time, after: Option<Key>, limit: nat)
    requires Inv(cfg, m) && Session(cfg, m, acts) && limit > 0
    requires m.store.current.slot != 0 && PagingSafety.NamesOwnSlot(m.store) && Paging.PinsCurrent(m.store)
    ensures var end := RunActs(cfg, m, acts);
            && Inv(cfg, end) && PagingSafety.NamesOnly(end.store, m.store.current)
            && var answer := Store.Page(end.store, now, Some(m.store.current.slot), after, limit).1;
               answer.Ok? ==> answer == Ok(PagingSafety.PageFrom(m.store.current, after, limit))
  {
    if acts == [] {
    } else {
      var n := |acts| - 1;
      SessionPrefix(cfg, m, acts, n);
      SessionCursorsOneMap(cfg, m, acts[..n], now, after, limit);
      assert acts[..|acts|] == acts;
      assert RunActs(cfg, m, acts[..n]).phase.Serving? && RunActs(cfg, m, acts).phase.Serving?;
      ActNamesOnly(cfg, RunActs(cfg, m, acts[..n]), acts[n], m.store.current);
    }
  }
}
