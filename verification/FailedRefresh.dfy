// Refreshes that fail leave no trace: a run is the run in which only the refreshes that get installed
// were ever started.
module FailedRefresh {
  import opened Types
  import opened Service

  // Along the inputs, the refresh in progress ends without being installed: its fetch fails, its
  // buffer overflows, or the serve session ends.
  ghost predicate Fails(cfg: Config, m: Machine, inputs: seq<Input>)
    decreases |inputs|
  {
    && Refreshing(m)
    && inputs != []
    && if inputs[0].FetchFinished? then inputs[0].result.None?
       else
         var next := Step(cfg, m, inputs[0]);
         !Refreshing(next) || Fails(cfg, next, inputs[1..])
  }

  // The first input starts, is swallowed by, or ends a refresh that fails.
  ghost predicate Erased(cfg: Config, m: Machine, inputs: seq<Input>)
    requires inputs != []
  {
    && m.phase.Serving?
    && (inputs[0].RefreshDue? || inputs[0].FetchFinished?)
    && (if Refreshing(m) then Fails(cfg, m, inputs) else Fails(cfg, Step(cfg, m, inputs[0]), inputs[1..]))
  }

  // The first n inputs without those of failing refreshes.
  ghost function Kept(cfg: Config, m: Machine, inputs: seq<Input>, n: nat): seq<Input>
    requires n <= |inputs|
  {
    if n == 0 then []
    else
      var before := Kept(cfg, m, inputs, n - 1);
      if Erased(cfg, RunMachine(cfg, m, inputs[..n - 1]), inputs[n - 1..]) then before else before + [inputs[n - 1]]
  }

  // m without a refresh that fails along the inputs.
  ghost function Cleared(cfg: Config, m: Machine, inputs: seq<Input>): Machine {
    if Fails(cfg, m, inputs) then m.(phase := Serving(m.phase.updater, None)) else m
  }

  lemma ErasedStep(cfg: Config, m: Machine, inputs: seq<Input>)
    requires inputs != [] && Erased(cfg, m, inputs)
    ensures Cleared(cfg, Step(cfg, m, inputs[0]), inputs[1..]) == Cleared(cfg, m, inputs)
  {
  }

  lemma KeptStep(cfg: Config, m: Machine, inputs: seq<Input>)
    requires inputs != [] && !Erased(cfg, m, inputs)
    ensures Cleared(cfg, Step(cfg, m, inputs[0]), inputs[1..]) == Step(cfg, Cleared(cfg, m, inputs), inputs[0])
  {
  }

  // At every moment of every run, the run without its failing refreshes is in the same state, but
  // that a refresh about to fail has not been started. Installed refreshes stay.
  lemma {:induction false} FailedRefreshesAreInvisible(cfg: Config, m: Machine, inputs: seq<Input>, n: nat)
    requires !Fails(cfg, m, inputs) && n <= |inputs|
    ensures RunMachine(cfg, m, Kept(cfg, m, inputs, n)) == Cleared(cfg, RunMachine(cfg, m, inputs[..n]), inputs[n..])
    decreases n
  {
    if n == 0 {
      assert inputs[..0] == [] && inputs[0..] == inputs;
    } else {
      FailedRefreshesAreInvisible(cfg, m, inputs, n - 1);
      var before, left := RunMachine(cfg, m, inputs[..n - 1]), inputs[n - 1..];
      assert inputs[..n][..n - 1] == inputs[..n - 1] && left[0] == inputs[n - 1] && left[1..] == inputs[n..];
      if Erased(cfg, before, left) {
        ErasedStep(cfg, before, left);
      } else {
        KeptStep(cfg, before, left);
        var rest := Kept(cfg, m, inputs, n - 1);
        assert (rest + [inputs[n - 1]])[..|rest|] == rest;
      }
    }
  }

  // So its end is exactly the same, and so is what is published and retained all along.
  lemma RunWithoutFailedRefreshes(cfg: Config, inputs: seq<Input>, n: nat)
    requires n <= |inputs|
    ensures RunMachine(cfg, Start(cfg), Kept(cfg, Start(cfg), inputs, |inputs|)) == RunMachine(cfg, Start(cfg), inputs)
    ensures var erased := RunMachine(cfg, Start(cfg), Kept(cfg, Start(cfg), inputs, n));
            var full := RunMachine(cfg, Start(cfg), inputs[..n]);
            && erased.store == full.store && erased.active == full.active && erased.connected == full.connected
            && (erased.phase == full.phase
                || (full.phase.Serving? && erased.phase == Serving(full.phase.updater, None)))
  {
    FailedRefreshesAreInvisible(cfg, Start(cfg), inputs, |inputs|);
    FailedRefreshesAreInvisible(cfg, Start(cfg), inputs, n);
    assert inputs[..|inputs|] == inputs && inputs[|inputs|..] == [];
  }
}
