// What the service has received: the events of the active source among the inputs since a bootstrap or
// a refresh began, what it buffers of them, and what its updater has consumed.
module SessionLog {
  import opened Types
  import opened Gate
  import opened Staging
  import opened Service
  import Fetcher

  // ----- The events of a source among the inputs -----

  // The state event that the input brings from this source, if it does.
  function EventOf(cfg: Config, source: nat, input: Input): seq<Event> {
    match input
    case FromSource(AccountUpdate(s, u)) =>
      if s == source && DecodeUpdate(cfg.codec, u).Ok? then [Put(DecodeUpdate(cfg.codec, u).value)] else []
    case FromSource(SlotConfirmed(s, slot)) => if s == source then [Confirmed(slot)] else []
    case _ => []
  }

  function Received(cfg: Config, source: nat, inputs: seq<Input>): seq<Event> {
    if inputs == [] then []
    else Received(cfg, source, inputs[..|inputs| - 1]) + EventOf(cfg, source, inputs[|inputs| - 1])
  }

  // The source is lost, or sends an update that does not decode.
  predicate SourceFails(cfg: Config, source: nat, input: Input) {
    match input
    case FromSource(Disconnected(s)) => s == source
    case FromSource(AccountUpdate(s, u)) => s == source && DecodeUpdate(cfg.codec, u).Err?
    case _ => false
  }

  lemma ReceivedSnoc(cfg: Config, source: nat, inputs: seq<Input>, input: Input)
    ensures Received(cfg, source, inputs + [input]) == Received(cfg, source, inputs) + EventOf(cfg, source, input)
  {
    assert (inputs + [input])[..|inputs|] == inputs;
  }

  lemma {:induction false} ReceivedConcat(cfg: Config, source: nat, a: seq<Input>, b: seq<Input>)
    ensures Received(cfg, source, a + b) == Received(cfg, source, a) + Received(cfg, source, b)
  {
    if b == [] {
      assert a + b == a;
    } else {
      assert (a + b)[..|a + b| - 1] == a + b[..|b| - 1];
      ReceivedConcat(cfg, source, a, b[..|b| - 1]);
    }
  }

  // The input begins a bootstrap, a new attempt at one, or a refresh.
  predicate Begins(cfg: Config, before: Machine, input: Input, after: Machine) {
    || (after.phase.Bootstrapping?
        && (!before.phase.Bootstrapping? || input.FetchFinished? || SourceFails(cfg, before.active, input)))
    || (after.phase.Serving? && after.phase.refresh.Some? && !(before.phase.Serving? && before.phase.refresh.Some?))
  }

  // How many inputs of the run came before the last bootstrap, attempt or refresh began.
  function Since(cfg: Config, inputs: seq<Input>): (n: nat)
    ensures n <= |inputs|
  {
    if inputs == [] then 0
    else
      var n := |inputs| - 1;
      var before, after := RunMachine(cfg, Start(cfg), inputs[..n]), RunMachine(cfg, Start(cfg), inputs);
      if Begins(cfg, before, inputs[n], after) then |inputs| else Since(cfg, inputs[..n])
  }

  function SinceBegan(cfg: Config, inputs: seq<Input>): seq<Event> {
    Received(cfg, RunMachine(cfg, Start(cfg), inputs).active, inputs[Since(cfg, inputs)..])
  }

  // In every run, a bootstrap and a refresh buffer exactly the events of the active source among the
  // inputs since they began.
  lemma {:induction false} BuffersWhatIsReceived(cfg: Config, inputs: seq<Input>)
    ensures var m := RunMachine(cfg, Start(cfg), inputs);
            && (m.phase.Bootstrapping? ==> m.phase.buffered == SinceBegan(cfg, inputs))
            && (Refreshing(m) ==> m.phase.refresh.value.buffered == SinceBegan(cfg, inputs))
  {
    if inputs == [] {
    } else {
      var n := |inputs| - 1;
      var before, after := RunMachine(cfg, Start(cfg), inputs[..n]), RunMachine(cfg, Start(cfg), inputs);
      BuffersWhatIsReceived(cfg, inputs[..n]);
      BufferStep(cfg, before, inputs[n]);
      if Begins(cfg, before, inputs[n], after) {
        assert inputs[|inputs|..] == [];
      } else {
        var b := Since(cfg, inputs[..n]);
        assert inputs[b..] == inputs[..n][b..] + [inputs[n]];
        ReceivedSnoc(cfg, before.active, inputs[..n][b..], inputs[n]);
      }
    }
  }

  // One input leaves a buffer empty if it begins a bootstrap or refresh, and else adds its event.
  lemma BufferStep(cfg: Config, m: Machine, input: Input)
    ensures var next := Service.Step(cfg, m, input);
            && (next.phase.Bootstrapping? ==>
                  if Begins(cfg, m, input, next) then next.phase.buffered == []
                  else
                    && m.phase.Bootstrapping? && next.active == m.active
                    && next.phase.buffered == m.phase.buffered + EventOf(cfg, m.active, input))
            && (Refreshing(next) ==>
                  if Begins(cfg, m, input, next) then next.phase.refresh.value.buffered == []
                  else
                    && Refreshing(m) && next.active == m.active
                    && next.phase.refresh.value.buffered
                       == m.phase.refresh.value.buffered + EventOf(cfg, m.active, input))
  {
    if Service.Step(cfg, m, input).phase.Bootstrapping? {
      BootstrapBufferStep(cfg, m, input);
    } else if Refreshing(Service.Step(cfg, m, input)) {
      RefreshBufferStep(cfg, m, input);
    }
  }

  lemma BootstrapBufferStep(cfg: Config, m: Machine, input: Input)
    requires Service.Step(cfg, m, input).phase.Bootstrapping?
    ensures var next := Service.Step(cfg, m, input);
            if Begins(cfg, m, input, next) then next.phase.buffered == []
            else
              && m.phase.Bootstrapping? && next.active == m.active
              && next.phase.buffered == m.phase.buffered + EventOf(cfg, m.active, input)
  {
    if m.phase.Bootstrapping? {
      assert m.phase.buffered + [] == m.phase.buffered;
    }
  }

  lemma RefreshBufferStep(cfg: Config, m: Machine, input: Input)
    requires Refreshing(Service.Step(cfg, m, input))
    ensures var next := Service.Step(cfg, m, input);
            if Begins(cfg, m, input, next) then next.phase.refresh.value.buffered == []
            else
              && Refreshing(m) && next.active == m.active
              && next.phase.refresh.value.buffered
                 == m.phase.refresh.value.buffered + EventOf(cfg, m.active, input)
  {
    if Refreshing(m) {
      assert m.phase.refresh.value.buffered + [] == m.phase.refresh.value.buffered;
    }
  }

  // ----- What is installed and consumed -----

  datatype Lineage = Lineage(fetched: Fetcher.Fetched, log: seq<Event>)

  function StateOf(l: Lineage): State {
    Run(FromFetched(l.fetched.contextSlot, l.fetched.accounts), l.log)
  }

  // The input is a fetch that ends a bootstrap or a refresh with success.
  predicate Installs(m: Machine, input: Input) {
    && input.FetchFinished? && input.result.Some?
    && (m.phase.Bootstrapping? || (m.phase.Serving? && m.phase.refresh.Some?))
  }

  // The updater installed after the inputs, if one is: what was fetched, the events received since the
  // bootstrap or refresh began, and the end of recovery.
  function Installing(cfg: Config, inputs: seq<Input>, input: Input): Option<Lineage> {
    if Installs(RunMachine(cfg, Start(cfg), inputs), input) then
      Some(Lineage(input.result.value, SinceBegan(cfg, inputs) + [FinishRecovery]))
    else None
  }

  // The lineage of the last installed updater in a run from the start: what it was installed with, and
  // the events received since.
  function LineageOf(cfg: Config, inputs: seq<Input>): Option<Lineage> {
    if inputs == [] then None
    else
      var n := |inputs| - 1;
      var source := RunMachine(cfg, Start(cfg), inputs[..n]).active;
      match (Installing(cfg, inputs[..n], inputs[n]), LineageOf(cfg, inputs[..n]))
      case (Some(installed), _) => Some(installed)
      case (None, Some(l)) => Some(l.(log := l.log + EventOf(cfg, source, inputs[n])))
      case (None, None) => None
  }

  // What is buffered where an installation finds it.
  ghost function BufferOf(m: Machine): seq<Event> {
    match m.phase
    case Bootstrapping(buffered) => buffered
    case Serving(_, Some(r)) => r.buffered
    case _ => []
  }

  lemma InstallsRecovered(cfg: Config, m: Machine, input: Input)
    requires Installs(m, input)
    ensures var next := Service.Step(cfg, m, input);
            next.phase == Serving(StateOf(Lineage(input.result.value, BufferOf(m) + [FinishRecovery])), None)
  {
    var f := input.result.value;
    RunSnoc(FromFetched(f.contextSlot, f.accounts), BufferOf(m), FinishRecovery);
  }

  lemma InstallsState(cfg: Config, inputs: seq<Input>, input: Input)
    requires Installing(cfg, inputs, input).Some?
    ensures var next := Service.Step(cfg, RunMachine(cfg, Start(cfg), inputs), input);
            next.phase == Serving(StateOf(Installing(cfg, inputs, input).value), None)
  {
    BuffersWhatIsReceived(cfg, inputs);
    InstallsRecovered(cfg, RunMachine(cfg, Start(cfg), inputs), input);
  }

  lemma RunOne(s: State, es: seq<Event>)
    requires |es| <= 1
    ensures Run(s, es) == if es == [] then s else Staging.Step(s, es[0])
  {
    if |es| == 1 {
      assert es[..0] == [];
    }
  }

  // A serving machine that installs nothing moves its updater by what it receives.
  lemma TakesStep(cfg: Config, m: Machine, input: Input)
    requires Service.Step(cfg, m, input).phase.Serving? && !Installs(m, input)
    ensures m.phase.Serving? && Service.Step(cfg, m, input).active == m.active
    ensures Service.Step(cfg, m, input).phase.updater == Run(m.phase.updater, EventOf(cfg, m.active, input))
  {
    ServedBefore(cfg, m, input);
    RunOne(m.phase.updater, EventOf(cfg, m.active, input));
  }

  // Only an installation makes a machine serve.
  lemma ServedBefore(cfg: Config, m: Machine, input: Input)
    requires Service.Step(cfg, m, input).phase.Serving? && !Installs(m, input)
    ensures m.phase.Serving?
  {
  }

  lemma {:induction false} LineageIsUpdater(cfg: Config, inputs: seq<Input>)
    requires RunMachine(cfg, Start(cfg), inputs).phase.Serving?
    ensures LineageOf(cfg, inputs).Some?
    ensures RunMachine(cfg, Start(cfg), inputs).phase.updater == StateOf(LineageOf(cfg, inputs).value)
  {
    if inputs == [] {
    } else {
      var n := |inputs| - 1;
      var before := RunMachine(cfg, Start(cfg), inputs[..n]);
      if Installs(before, inputs[n]) {
        InstallsState(cfg, inputs[..n], inputs[n]);
      } else {
        TakesStep(cfg, before, inputs[n]);
        LineageIsUpdater(cfg, inputs[..n]);
        var l := LineageOf(cfg, inputs[..n]).value;
        Staging.RunConcat(
          FromFetched(l.fetched.contextSlot, l.fetched.accounts), l.log, EventOf(cfg, before.active, inputs[n]));
      }
    }
  }

  // Input i installed the updater that serves at the end of the run.
  ghost predicate InstalledAt(cfg: Config, inputs: seq<Input>, i: int) {
    && 0 <= i < |inputs|
    && Installs(RunMachine(cfg, Start(cfg), inputs[..i]), inputs[i])
    && forall j :: i < j < |inputs| ==> !Installs(RunMachine(cfg, Start(cfg), inputs[..j]), inputs[j])
  }

  // The events received from b on, with the end of recovery in place of input i.
  function LogAround(cfg: Config, source: nat, inputs: seq<Input>, b: nat, i: nat): seq<Event>
    requires b <= i < |inputs|
  {
    Received(cfg, source, inputs[b..i]) + [FinishRecovery] + Received(cfg, source, inputs[i + 1..])
  }

  lemma LogAroundLast(cfg: Config, source: nat, inputs: seq<Input>, b: nat)
    requires b < |inputs|
    ensures var n := |inputs| - 1;
            LogAround(cfg, source, inputs, b, n) == Received(cfg, source, inputs[..n][b..]) + [FinishRecovery]
  {
    var n := |inputs| - 1;
    assert inputs[b..n] == inputs[..n][b..] && inputs[n + 1..] == [];
    var log := Received(cfg, source, inputs[b..n]) + [FinishRecovery];
    assert log + [] == log;
  }

  lemma LogAroundSnoc(cfg: Config, source: nat, inputs: seq<Input>, b: nat, i: nat)
    requires b <= i < |inputs| - 1
    ensures var n := |inputs| - 1;
            LogAround(cfg, source, inputs, b, i)
            == LogAround(cfg, source, inputs[..n], b, i) + EventOf(cfg, source, inputs[n])
  {
    var n := |inputs| - 1;
    assert inputs[..n][b..i] == inputs[b..i];
    assert inputs[i + 1..] == inputs[..n][i + 1..] + [inputs[n]];
    ReceivedSnoc(cfg, source, inputs[..n][i + 1..], inputs[n]);
  }

  lemma InstalledAtSnoc(cfg: Config, inputs: seq<Input>, i: nat)
    requires inputs != [] && InstalledAt(cfg, inputs[..|inputs| - 1], i)
    requires !Installs(RunMachine(cfg, Start(cfg), inputs[..|inputs| - 1]), inputs[|inputs| - 1])
    ensures InstalledAt(cfg, inputs, i) && inputs[..|inputs| - 1][..i] == inputs[..i]
  {
    var n := |inputs| - 1;
    assert forall j :: 0 <= j < n ==> inputs[..n][..j] == inputs[..j] && inputs[..n][j] == inputs[j];
  }

  lemma {:induction false} LineageIsWhatWasReceived(cfg: Config, inputs: seq<Input>) returns (i: nat)
    requires RunMachine(cfg, Start(cfg), inputs).phase.Serving?
    ensures InstalledAt(cfg, inputs, i)
    ensures var source := RunMachine(cfg, Start(cfg), inputs).active;
            && source == RunMachine(cfg, Start(cfg), inputs[..i]).active
            && LineageOf(cfg, inputs)
               == Some(Lineage(inputs[i].result.value,
                               LogAround(cfg, source, inputs, Since(cfg, inputs[..i]), i)))
  {
    assert inputs != [];
    var n := |inputs| - 1;
    var before := RunMachine(cfg, Start(cfg), inputs[..n]);
    if Installs(before, inputs[n]) {
      i := n;
      InstallKeepsSource(cfg, before, inputs[n]);
      LogAroundLast(cfg, before.active, inputs, Since(cfg, inputs[..n]));
    } else {
      TakesStep(cfg, before, inputs[n]);
      i := LineageIsWhatWasReceived(cfg, inputs[..n]);
      InstalledAtSnoc(cfg, inputs, i);
      LogAroundSnoc(cfg, before.active, inputs, Since(cfg, inputs[..i]), i);
    }
  }

  // So the serving updater has consumed the events received since its bootstrap or refresh began, with
  // the end of recovery where the fetch came in.
  lemma UpdaterIsWhatWasReceived(cfg: Config, inputs: seq<Input>)
    requires RunMachine(cfg, Start(cfg), inputs).phase.Serving?
    ensures exists i: nat ::
              && InstalledAt(cfg, inputs, i)
              && var m := RunMachine(cfg, Start(cfg), inputs);
                 var log := LogAround(cfg, m.active, inputs, Since(cfg, inputs[..i]), i);
                 m.phase.updater == StateOf(Lineage(inputs[i].result.value, log))
  {
    LineageIsUpdater(cfg, inputs);
    var i := LineageIsWhatWasReceived(cfg, inputs);
  }

  lemma InstallKeepsSource(cfg: Config, m: Machine, input: Input)
    requires Installs(m, input)
    ensures Service.Step(cfg, m, input).active == m.active
  {
  }

  // The machine keeps serving along the inputs and installs nothing.
  ghost predicate KeepsUpdater(cfg: Config, m: Machine, inputs: seq<Input>) {
    && (forall i :: 0 <= i <= |inputs| ==> RunMachine(cfg, m, inputs[..i]).phase.Serving?)
    && (forall i :: 0 <= i < |inputs| ==> !Installs(RunMachine(cfg, m, inputs[..i]), inputs[i]))
  }

  lemma {:induction false} TakesRun(cfg: Config, m: Machine, inputs: seq<Input>)
    requires KeepsUpdater(cfg, m, inputs)
    ensures m.phase.Serving? && RunMachine(cfg, m, inputs).phase.Serving?
    ensures RunMachine(cfg, m, inputs).active == m.active
    ensures RunMachine(cfg, m, inputs).phase.updater == Run(m.phase.updater, Received(cfg, m.active, inputs))
  {
    assert inputs[..|inputs|] == inputs && inputs[..0] == [];
    if inputs == [] {
    } else {
      var n := |inputs| - 1;
      assert forall i :: 0 <= i <= n ==> inputs[..n][..i] == inputs[..i];
      assert forall i :: 0 <= i < n ==> inputs[..n][i] == inputs[i];
      TakesRun(cfg, m, inputs[..n]);
      var before := RunMachine(cfg, m, inputs[..n]);
      TakesStep(cfg, before, inputs[n]);
      Staging.RunConcat(m.phase.updater, Received(cfg, m.active, inputs[..n]), EventOf(cfg, m.active, inputs[n]));
    }
  }
}
