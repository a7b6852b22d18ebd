/** The sweep over solar fluxes: a half-open arithmetic progression of
    fluxes, optionally reversed; before each flux the daisy covers are lifted
    to the minimum cover, then solved to equilibrium, and the result is stored
    in slot j of the result arrays and carried on as the next flux's start. */
module FluxSweep {
  import opened Parameters
  import opened Climate
  import opened Solver

  // ---------------------------------------------------------------------
  // The minimum-cover floor

  /** A daisy cover lifted to MinCover: never lowered, lifted only up to the floor. */
  function Floored(a: real): (r: real)
    ensures r >= MinCover
    ensures r == a || r == MinCover
    ensures a >= MinCover ==> r == a
  {
    if a < MinCover then MinCover else a
  }

  /** The covers a flux step starts from: both daisy covers floored and the
      barren cover derived from them. */
  function FloorCovers(p: Population): (q: Population)
    ensures q.black >= MinCover && q.white >= MinCover
    ensures Partition(q)
    ensures q.black == Floored(p.black) && q.white == Floored(p.white)
  {
    var black := Floored(p.black);
    var white := Floored(p.white);
    Population(black, white, 1.0 - (black + white))
  }

  /** Covers that died out entirely are reseeded at exactly the minimum cover. */
  lemma FloorRevivesExtinct()
    ensures FloorCovers(Population(0.0, 0.0, 1.0)) == Population(MinCover, MinCover, 0.98)
  {
  }

  // ---------------------------------------------------------------------
  // The flux sequence

  /** Number of fluxes fluxMin + k * fluxStep (k = 0, 1, ...) that lie
      strictly below fluxMax: the ceiling of the range over the step. */
  function FluxCount(cfg: Config): nat
  {
    var q := (cfg.fluxMax - cfg.fluxMin) / cfg.fluxStep;
    if q <= 0.0 then 0 else -((-q).Floor)
  }

  /** The fluxes in ascending order. */
  function Ascending(cfg: Config): seq<real>
  {
    seq(FluxCount(cfg), k => cfg.fluxMin + k as real * cfg.fluxStep)
  }

  function Reversed(s: seq<real>): (r: seq<real>)
    ensures |r| == |s|
    ensures forall k :: 0 <= k < |s| ==> r[k] == s[|s| - 1 - k]
  {
    seq(|s|, k requires 0 <= k < |s| => s[|s| - 1 - k])
  }

  /** The fluxes in the order the sweep processes them. */
  function Fluxes(cfg: Config): seq<real>
  {
    if cfg.reverse then Reversed(Ascending(cfg)) else Ascending(cfg)
  }

  lemma QuotientTimesDivisor(x: real, y: real)
    requires y > 0.0
    ensures (x / y) * y == x
  {
  }

  lemma ScaleLess(a: real, b: real, c: real)
    requires c > 0.0
    ensures a * c < b * c <==> a < b
  {
  }

  /** The sequence is exactly the half-open progression: step k is taken if
      and only if fluxMin + k * fluxStep is strictly below fluxMax. */
  lemma FluxCountExact(cfg: Config, k: nat)
    ensures k < FluxCount(cfg) <==> cfg.fluxMin + k as real * cfg.fluxStep < cfg.fluxMax
  {
    var q := (cfg.fluxMax - cfg.fluxMin) / cfg.fluxStep;
    QuotientTimesDivisor(cfg.fluxMax - cfg.fluxMin, cfg.fluxStep);
    ScaleLess(k as real, q, cfg.fluxStep);
    assert k as real < q <==> k < FluxCount(cfg);
  }

  /** The ascending sequence starts at fluxMin (when fluxMin < fluxMax),
      rises strictly, and every flux in it is below fluxMax. */
  lemma AscendingHalfOpen(cfg: Config)
    ensures cfg.fluxMin < cfg.fluxMax <==> |Ascending(cfg)| > 0
    ensures |Ascending(cfg)| > 0 ==> Ascending(cfg)[0] == cfg.fluxMin
    ensures forall x :: x in Ascending(cfg) ==> x < cfg.fluxMax
    ensures forall i, j :: 0 <= i < j < |Ascending(cfg)| ==> Ascending(cfg)[i] < Ascending(cfg)[j]
  {
    var a := Ascending(cfg);
    FluxCountExact(cfg, 0);
    forall x | x in a
      ensures x < cfg.fluxMax
    {
      var k :| 0 <= k < |a| && a[k] == x;
      FluxCountExact(cfg, k);
    }
    forall i, j | 0 <= i < j < |a|
      ensures a[i] < a[j]
    {
      ScaleLess(i as real, j as real, cfg.fluxStep);
    }
  }

  /** With the direction flag set, the sweep visits the same fluxes in
      descending order; without it, in ascending order. */
  lemma FluxesOrder(cfg: Config)
    ensures |Fluxes(cfg)| == FluxCount(cfg)
    ensures forall x :: x in Fluxes(cfg) <==> x in Ascending(cfg)
    ensures !cfg.reverse ==> forall i, j :: 0 <= i < j < |Fluxes(cfg)| ==> Fluxes(cfg)[i] < Fluxes(cfg)[j]
    ensures cfg.reverse ==> forall i, j :: 0 <= i < j < |Fluxes(cfg)| ==> Fluxes(cfg)[i] > Fluxes(cfg)[j]
  {
    AscendingHalfOpen(cfg);
    var a := Ascending(cfg);
    var f := Fluxes(cfg);
    if cfg.reverse {
      forall x ensures x in f <==> x in a {
        if x in f {
          var k :| 0 <= k < |f| && f[k] == x;
          assert a[|a| - 1 - k] == x;
        }
        if x in a {
          var k :| 0 <= k < |a| && a[k] == x;
          assert f[|a| - 1 - k] == x;
        }
      }
      forall i, j | 0 <= i < j < |f|
        ensures f[i] > f[j]
      {
        assert f[i] == a[|a| - 1 - i] && f[j] == a[|a| - 1 - j];
      }
    }
  }

  /** With the program's parameters the sweep has 550 fluxes, 0.5 first and
      1.598 last. */
  lemma DefaultFluxes()
    ensures FluxCount(Default) == 550
    ensures Fluxes(Default)[0] == 0.5 && Fluxes(Default)[549] == 1.598
  {
  }

  // ---------------------------------------------------------------------
  // The sweep

  /** The covers before the first flux step (the barren cover is derived
      once the floor is applied). */
  function Initial(cfg: Config): Population
  {
    Population(cfg.areaBlack0, cfg.areaWhite0, 1.0 - (cfg.areaBlack0 + cfg.areaWhite0))
  }

  /** The final solver state of each flux step, in processing order, the
      covers of one step (floored) seeding the next. */
  function SweepStates(cfg: Config, root4: real -> real, p: Population, fluxes: seq<real>): (rs: seq<SolverState>)
    ensures |rs| == |fluxes|
    decreases |fluxes|
  {
    if |fluxes| == 0 then []
    else
      var r := Run(cfg, fluxes[0], root4, Start(cfg, FloorCovers(p)));
      [r] + SweepStates(cfg, root4, r.Covers(), fluxes[1..])
  }

  /** What the program computes for its configuration. */
  function Outcomes(cfg: Config, root4: real -> real): seq<SolverState>
  {
    SweepStates(cfg, root4, Initial(cfg), Fluxes(cfg))
  }

  /** Step j starts from the floored covers of step j - 1 (of the initial
      covers for j = 0): the populations carry over and only the iteration
      metrics are reset. */
  lemma {:induction false} SweepCarriesOver(cfg: Config, root4: real -> real, p: Population, fluxes: seq<real>, j: nat)
    requires j < |fluxes|
    ensures var prev := if j == 0 then p else SweepStates(cfg, root4, p, fluxes)[j - 1].Covers();
      SweepStates(cfg, root4, p, fluxes)[j] == Run(cfg, fluxes[j], root4, Start(cfg, FloorCovers(prev)))
    decreases j
  {
    if j > 0 {
      var r := Run(cfg, fluxes[0], root4, Start(cfg, FloorCovers(p)));
      var rest := SweepStates(cfg, root4, r.Covers(), fluxes[1..]);
      assert SweepStates(cfg, root4, p, fluxes) == [r] + rest;
      SweepCarriesOver(cfg, root4, r.Covers(), fluxes[1..], j - 1);
    }
  }

  /** Every stored state ended its own solve: the cap was passed or a species
      stabilised, the pass count was reset for that flux (at least one pass,
      at most maxconv + 1), and the three covers partition the planet. */
  lemma SweepStepSolved(cfg: Config, root4: real -> real, p: Population, fluxes: seq<real>, j: nat)
    requires cfg.tol > 0.0
    requires j < |fluxes|
    ensures var r := SweepStates(cfg, root4, p, fluxes)[j];
      && !Continues(cfg, r)
      && 1 <= r.it <= cfg.maxconv + 1
      && Partition(r.Covers())
  {
    SweepCarriesOver(cfg, root4, p, fluxes, j);
    var prev := if j == 0 then p else SweepStates(cfg, root4, p, fluxes)[j - 1].Covers();
    var s0 := Start(cfg, FloorCovers(prev));
    RunStops(cfg, fluxes[j], root4, s0);
    SolvePasses(cfg, fluxes[j], root4, FloorCovers(prev));
    assert s0.Covers() == FloorCovers(prev);
    RunKeepsPartition(cfg, fluxes[j], root4, s0);
  }

  /** The sweep as the program runs it: daisy covers held in local variables
      and carried from flux to flux, one result per flux written into slot j
      of each result array. */
  method Sweep(cfg: Config, root4: real -> real)
    returns (fluxes: seq<real>, areaBlackVec: array<real>, areaWhiteVec: array<real>,
             areaBarrenVec: array<real>, tpVec: array<Temp>)
    requires cfg.tol > 0.0
    ensures fluxes == Fluxes(cfg)
    ensures fresh(areaBlackVec) && fresh(areaWhiteVec) && fresh(areaBarrenVec) && fresh(tpVec)
    ensures areaBlackVec.Length == areaWhiteVec.Length == areaBarrenVec.Length == tpVec.Length == |fluxes|
    ensures forall j :: 0 <= j < |fluxes| ==>
      var r := Outcomes(cfg, root4)[j];
      areaBlackVec[j] == r.black && areaWhiteVec[j] == r.white &&
      areaBarrenVec[j] == r.barren && tpVec[j] == r.tp
  {
    fluxes := Fluxes(cfg);
    var n := |fluxes|;
    areaBlackVec := new real[n](_ => 0.0);
    areaWhiteVec := new real[n](_ => 0.0);
    areaBarrenVec := new real[n](_ => 0.0);
    tpVec := new Temp[n](_ => Kelvin(0.0));
    ghost var all := Outcomes(cfg, root4);
    var areaBlack, areaWhite := cfg.areaBlack0, cfg.areaWhite0;
    var areaBarren := 1.0 - (areaBlack + areaWhite);
    var j := 0;
    while j < n
      invariant 0 <= j <= n
      invariant all[j..] == SweepStates(cfg, root4, Population(areaBlack, areaWhite, areaBarren), fluxes[j..])
      invariant forall k :: 0 <= k < j ==>
        areaBlackVec[k] == all[k].black && areaWhiteVec[k] == all[k].white &&
        areaBarrenVec[k] == all[k].barren && tpVec[k] == all[k].tp
    {
      var flux := fluxes[j];
      ghost var carried := Population(areaBlack, areaWhite, areaBarren);
      if areaBlack < MinCover {
        areaBlack := MinCover;
      }
      if areaWhite < MinCover {
        areaWhite := MinCover;
      }
      areaBarren := 1.0 - (areaBlack + areaWhite);
      assert Population(areaBlack, areaWhite, areaBarren) == FloorCovers(carried);
      var r := Solve(cfg, flux, root4, Population(areaBlack, areaWhite, areaBarren));
      areaBlack, areaWhite, areaBarren := r.black, r.white, r.barren;
      assert fluxes[j..][1..] == fluxes[j + 1..];
      assert all[j..] == [r] + SweepStates(cfg, root4, r.Covers(), fluxes[j + 1..]);
      assert all[j + 1..] == all[j..][1..];
      areaBlackVec[j] := r.black;
      areaWhiteVec[j] := r.white;
      areaBarrenVec[j] := r.barren;
      tpVec[j] := r.tp;
      j := j + 1;
    }
  }
}
