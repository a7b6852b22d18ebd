/** The inner fixed-point solve for one solar flux: each pass recomputes the
    climate from the current covers, grows each species by its birth rate on
    the barren ground less the death rate, and measures how much that growth
    changed since the previous pass. The solve stops once the iteration cap
    is passed or EITHER species' change drops to the tolerance. */
module Solver {
  import opened Parameters
  import opened Climate

  /** Cover fractions of black daisies, white daisies and barren ground. */
  datatype Population = Population(black: real, white: real, barren: real)

  /** The three fractions partition the planet. */
  predicate Partition(p: Population)
  {
    p.black + p.white + p.barren == 1.0
  }

  /** Everything the solve loop updates: the covers, the growth of the
      previous pass, the magnitude of its change, the pass counter and the
      planetary temperature of the last pass. */
  datatype SolverState = SolverState(
    black: real,
    white: real,
    barren: real,
    dAreaBlackOld: real,
    dAreaWhiteOld: real,
    dABlack: real,
    dAWhite: real,
    it: nat,
    tp: Temp)
  {
    function Covers(): Population
    {
      Population(black, white, barren)
    }
  }

  function Abs(x: real): (r: real)
    ensures r >= 0.0 && (r == x || r == -x)
  {
    if x < 0.0 then -x else x
  }

  /** Change in a species' cover over one pass: births on the barren ground
      less deaths, in proportion to the cover it already has. */
  function Growth(cfg: Config, area: real, birth: real, barren: real): real
  {
    area * (birth * barren - cfg.drate)
  }

  /** The state at the start of each flux step: iteration metrics reset, the
      covers taken as given. The planetary temperature is not yet computed. */
  function Start(cfg: Config, p: Population): SolverState
  {
    SolverState(p.black, p.white, p.barren, 0.0, 0.0, 2.0 * cfg.tol, 2.0 * cfg.tol, 0, NaN)
  }

  /** The loop guard: keep going while under the cap and BOTH species are
      still changing by more than the tolerance. */
  predicate Continues(cfg: Config, s: SolverState)
  {
    s.it <= cfg.maxconv && s.dABlack > cfg.tol && s.dAWhite > cfg.tol
  }

  /** One pass of the solve loop. */
  function Step(cfg: Config, flux: real, root4: real -> real, s: SolverState): SolverState
  {
    var albP := Albedo(cfg, s.black, s.white, s.barren);
    var tp := PlanetTemp(cfg, flux, albP, root4);
    var tdBlack := LocalTemp(cfg.insul, tp, albP, cfg.albBlack);
    var tdWhite := LocalTemp(cfg.insul, tp, albP, cfg.albWhite);
    var birthBlack := BirthRate(cfg, tdBlack, cfg.idealBlack, s.black);
    var birthWhite := BirthRate(cfg, tdWhite, cfg.idealWhite, s.white);
    var dBlack := Growth(cfg, s.black, birthBlack, s.barren);
    var dWhite := Growth(cfg, s.white, birthWhite, s.barren);
    var black := s.black + dBlack;
    var white := s.white + dWhite;
    SolverState(black, white, 1.0 - (black + white),
                dBlack, dWhite, Abs(dBlack - s.dAreaBlackOld), Abs(dWhite - s.dAreaWhiteOld),
                s.it + 1, tp)
  }

  /** Passes left before the cap stops the loop. */
  function Budget(cfg: Config, s: SolverState): nat
  {
    if s.it <= cfg.maxconv then cfg.maxconv + 1 - s.it else 0
  }

  /** The state the solve loop ends in, started from `s`. */
  function Run(cfg: Config, flux: real, root4: real -> real, s: SolverState): SolverState
    decreases Budget(cfg, s)
  {
    if Continues(cfg, s) then Run(cfg, flux, root4, Step(cfg, flux, root4, s)) else s
  }

  /** `n` passes from `s`, whatever the guard says. */
  function Iterate(cfg: Config, flux: real, root4: real -> real, s: SolverState, n: nat): (r: SolverState)
    ensures r.it == s.it + n
    decreases n
  {
    if n == 0 then s else Iterate(cfg, flux, root4, Step(cfg, flux, root4, s), n - 1)
  }

  /** The solve for one flux, as the program runs it: a loop over local
      variables, from the covers `p` with the iteration metrics reset. */
  method Solve(cfg: Config, flux: real, root4: real -> real, p: Population) returns (r: SolverState)
    ensures r == Run(cfg, flux, root4, Start(cfg, p))
    ensures !Continues(cfg, r)
    ensures r.it <= cfg.maxconv + 1
  {
    var areaBlack, areaWhite, areaBarren := p.black, p.white, p.barren;
    var it: nat := 0;
    var dABlack, dAWhite := 2.0 * cfg.tol, 2.0 * cfg.tol;
    var dAreaBlackOld, dAreaWhiteOld := 0.0, 0.0;
    var tp := NaN;
    while it <= cfg.maxconv && dABlack > cfg.tol && dAWhite > cfg.tol
      invariant it <= cfg.maxconv + 1
      invariant Run(cfg, flux, root4, SolverState(areaBlack, areaWhite, areaBarren,
                      dAreaBlackOld, dAreaWhiteOld, dABlack, dAWhite, it, tp))
             == Run(cfg, flux, root4, Start(cfg, p))
      decreases cfg.maxconv + 1 - it
    {
      var albP := Albedo(cfg, areaBlack, areaWhite, areaBarren);
      tp := PlanetTemp(cfg, flux, albP, root4);
      var tdBlack := LocalTemp(cfg.insul, tp, albP, cfg.albBlack);
      var tdWhite := LocalTemp(cfg.insul, tp, albP, cfg.albWhite);
      var birthBlack := BirthRate(cfg, tdBlack, cfg.idealBlack, areaBlack);
      var birthWhite := BirthRate(cfg, tdWhite, cfg.idealWhite, areaWhite);
      var dAreaBlack := Growth(cfg, areaBlack, birthBlack, areaBarren);
      var dAreaWhite := Growth(cfg, areaWhite, birthWhite, areaBarren);
      dABlack := Abs(dAreaBlack - dAreaBlackOld);
      dAWhite := Abs(dAreaWhite - dAreaWhiteOld);
      dAreaBlackOld, dAreaWhiteOld := dAreaBlack, dAreaWhite;
      areaBlack := areaBlack + dAreaBlack;
      areaWhite := areaWhite + dAreaWhite;
      areaBarren := 1.0 - (areaBlack + areaWhite);
      it := it + 1;
    }
    r := SolverState(areaBlack, areaWhite, areaBarren, dAreaBlackOld, dAreaWhiteOld, dABlack, dAWhite, it, tp);
  }

  // ---------------------------------------------------------------------
  // Properties of one pass

  /** One pass adds to each cover exactly the growth it records as the new
      previous growth, measures the change against the old previous growth,
      counts itself, and derives the barren cover so the three partition. */
  lemma StepBookkeeping(cfg: Config, flux: real, root4: real -> real, s: SolverState)
    ensures var r := Step(cfg, flux, root4, s);
      && r.black == s.black + r.dAreaBlackOld
      && r.white == s.white + r.dAreaWhiteOld
      && r.dABlack == Abs(r.dAreaBlackOld - s.dAreaBlackOld) >= 0.0
      && r.dAWhite == Abs(r.dAreaWhiteOld - s.dAreaWhiteOld) >= 0.0
      && r.it == s.it + 1
      && Partition(r.Covers())
  {
  }

  /** On the first pass of a flux step the previous growth is 0, so the
      measured change is the magnitude of the growth itself. */
  lemma FirstPassChange(cfg: Config, flux: real, root4: real -> real, p: Population)
    ensures var r := Step(cfg, flux, root4, Start(cfg, p));
      && r.dABlack == Abs(r.black - p.black)
      && r.dAWhite == Abs(r.white - p.white)
      && r.it == 1
  {
  }

  /** The growth of each species uses its own birth rate, gated on the cover
      that species has at the start of the pass: a species below MinCover
      gets no births and changes only by its deaths, so (with a non-negative
      cover and death rate) it only dies back. */
  lemma SparseSpeciesOnlyDies(cfg: Config, flux: real, root4: real -> real, s: SolverState)
    ensures var r := Step(cfg, flux, root4, s);
      && (s.black < MinCover ==> r.dAreaBlackOld == -(s.black * cfg.drate))
      && (s.white < MinCover ==> r.dAreaWhiteOld == -(s.white * cfg.drate))
    ensures 0.0 <= s.black < MinCover && cfg.drate >= 0.0 ==> Step(cfg, flux, root4, s).dAreaBlackOld <= 0.0
    ensures 0.0 <= s.white < MinCover && cfg.drate >= 0.0 ==> Step(cfg, flux, root4, s).dAreaWhiteOld <= 0.0
  {
  }

  // ---------------------------------------------------------------------
  // Properties of the whole solve

  /** When the solve ends, the cap was passed or one of the two species has
      stabilised: one species is enough to stop. */
  lemma {:induction false} RunStops(cfg: Config, flux: real, root4: real -> real, s: SolverState)
    ensures !Continues(cfg, Run(cfg, flux, root4, s))
    ensures var r := Run(cfg, flux, root4, s);
      r.it > cfg.maxconv || r.dABlack <= cfg.tol || r.dAWhite <= cfg.tol
    decreases Budget(cfg, s)
  {
    if Continues(cfg, s) {
      RunStops(cfg, flux, root4, Step(cfg, flux, root4, s));
    }
  }

  /** The solve never runs past the cap: the counter only grows, by one per
      pass, and the guard lets at most maxconv + 1 passes through. */
  lemma {:induction false} RunCounter(cfg: Config, flux: real, root4: real -> real, s: SolverState)
    ensures s.it <= Run(cfg, flux, root4, s).it
    ensures s.it <= cfg.maxconv + 1 ==> Run(cfg, flux, root4, s).it <= cfg.maxconv + 1
    decreases Budget(cfg, s)
  {
    if Continues(cfg, s) {
      RunCounter(cfg, flux, root4, Step(cfg, flux, root4, s));
    }
  }

  /** Run is exactly "step until the guard fails": it is the state reached
      after Run(s).it - s.it passes, and the guard held before each of them. */
  lemma {:induction false} RunIsFirstStop(cfg: Config, flux: real, root4: real -> real, s: SolverState)
    ensures var r := Run(cfg, flux, root4, s);
      && s.it <= r.it
      && r == Iterate(cfg, flux, root4, s, r.it - s.it)
      && !Continues(cfg, r)
      && forall j :: 0 <= j < r.it - s.it ==> Continues(cfg, Iterate(cfg, flux, root4, s, j))
    decreases Budget(cfg, s)
  {
    RunStops(cfg, flux, root4, s);
    if Continues(cfg, s) {
      var s' := Step(cfg, flux, root4, s);
      RunIsFirstStop(cfg, flux, root4, s');
      var r := Run(cfg, flux, root4, s);
      forall j | 0 <= j < r.it - s.it
        ensures Continues(cfg, Iterate(cfg, flux, root4, s, j))
      {
        if j > 0 {
          assert Iterate(cfg, flux, root4, s, j) == Iterate(cfg, flux, root4, s', j - 1);
        }
      }
    }
  }

  /** A solve from the reset metrics always makes at least one pass (the seed
      2*tol exceeds a positive tol) and at most maxconv + 1. */
  lemma SolvePasses(cfg: Config, flux: real, root4: real -> real, p: Population)
    requires cfg.tol > 0.0
    ensures 1 <= Run(cfg, flux, root4, Start(cfg, p)).it <= cfg.maxconv + 1
  {
    var s0 := Start(cfg, p);
    assert Continues(cfg, s0);
    RunCounter(cfg, flux, root4, Step(cfg, flux, root4, s0));
  }

  /** The temperature the solve reports is the planetary temperature of the
      covers the last pass started from, that is, of the returned covers less
      the growth that pass added: it lags the returned covers by one update. */
  lemma {:induction false} RunTemperature(cfg: Config, flux: real, root4: real -> real, s: SolverState)
    requires Continues(cfg, s) && Partition(s.Covers())
    ensures var r := Run(cfg, flux, root4, s);
      var b := r.black - r.dAreaBlackOld;
      var w := r.white - r.dAreaWhiteOld;
      r.tp == PlanetTemp(cfg, flux, Albedo(cfg, b, w, 1.0 - (b + w)), root4)
    decreases Budget(cfg, s)
  {
    var s' := Step(cfg, flux, root4, s);
    StepBookkeeping(cfg, flux, root4, s);
    if Continues(cfg, s') {
      RunTemperature(cfg, flux, root4, s');
    } else {
      assert s.barren == 1.0 - (s.black + s.white);
    }
  }

  /** The covers the solve returns partition the planet whenever the covers it
      started from did, since every pass rederives the barren cover. */
  lemma {:induction false} RunKeepsPartition(cfg: Config, flux: real, root4: real -> real, s: SolverState)
    requires Partition(s.Covers())
    ensures Partition(Run(cfg, flux, root4, s).Covers())
    decreases Budget(cfg, s)
  {
    if Continues(cfg, s) {
      StepBookkeeping(cfg, flux, root4, s);
      RunKeepsPartition(cfg, flux, root4, Step(cfg, flux, root4, s));
    }
  }

  /** A solve that stops before the cap has converged: one of the species'
      change magnitudes is within the tolerance. */
  lemma ConvergedBeforeCap(cfg: Config, flux: real, root4: real -> real, p: Population)
    requires Run(cfg, flux, root4, Start(cfg, p)).it <= cfg.maxconv
    ensures var r := Run(cfg, flux, root4, Start(cfg, p));
      r.dABlack <= cfg.tol || r.dAWhite <= cfg.tol
  {
    RunStops(cfg, flux, root4, Start(cfg, p));
  }
}
