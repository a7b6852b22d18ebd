# Daisyworld equilibrium solver, in Dafny

A model of `daisyworld.py`, the Daisyworld model of Watson & Lovelock (1983):
a planet covered by black daisies, white daisies and barren ground, whose
albedo sets its temperature, which sets the daisies' birth rates, which set
the covers. For a sweep of solar fluxes the program finds, flux by flux, the
covers at which this feedback settles, carrying the covers of one flux on as
the starting point of the next.

The project has four modules, one per part of the script:

- `Parameters` (`parameters.dfy`): the configuration constants of lines 32-60
  as a `Config` value, `Default` being the program's own values; the two
  literals the script repeats (the 0.01 minimum cover and the 0.003265
  birth-rate curvature) are named constants.
- `Climate` (`climate.dfy`): the pure climate relations of one pass:
  planetary albedo, planetary temperature, local patch temperatures and the
  gated parabolic birth rate. A temperature is `Kelvin(k)` or `NaN`, because
  the fourth root of a negative radicand is NaN and every comparison with NaN
  is false, which gates the birth rate to 0.
- `Solver` (`solver.dfy`): the inner `while` loop. `Solve` is the loop over
  local variables as the script writes it; `Step` (one pass) and `Run` (step
  while the guard holds) specify it, and `Solve` is proved equal to `Run`.
- `FluxSweep` (`sweep.dfy`): the outer `for` loop. `Fluxes` is the half-open
  progression, reversed under the direction flag; `SweepStates` specifies the
  sequence of per-flux results; the `Sweep` method writes them into four fresh
  arrays, slot j for the j-th flux processed. The stored temperature is the
  one the last pass computed, so it belongs to the covers one update before
  the stored covers.

All quantities are Dafny `real`s. The fourth root is a parameter
`root4: real -> real` that nothing is assumed about; it is applied only to a
non-negative radicand.

## Model

| member | source | states |
|---|---|---|
| Climate.AlbedoOfPartition | daisyworld.py:92-94 | with barren = 1 - (black + white), the planetary albedo is the barren albedo shifted linearly by each daisy cover |
| Climate.AlbedoMonotone | daisyworld.py:92-94 | holding the other two covers fixed, more of any one cover (black, white or barren) never lowers the albedo exactly when that surface's albedo is non-negative |
| Climate.AlbedoInUnitRange | daisyworld.py:92-94 | covers that are non-negative and sum to 1, with albedos in [0, 1], give a planetary albedo in [0, 1] |
| Climate.PlanetTemp | daisyworld.py:96 | the planetary temperature is NaN exactly when the radicand flux*So*(1-alb_p)/sigma is negative |
| Climate.PlanetTempDefined | daisyworld.py:96 | for positive flux and solar constant the planetary temperature is a number exactly when the albedo is at most 1 |
| Climate.LocalTempGap | daisyworld.py:98-99 | the black and white local temperatures differ by exactly insul*(alb_white - alb_black) |
| Climate.WarmerIffDarker | daisyworld.py:98-99 | with insul > 0 a patch is warmer than Tp exactly when alb_p exceeds its albedo, and cooler exactly when alb_p is below it |
| Climate.BirthRateGated | daisyworld.py:102-114 | the birth rate is exactly 0.0 outside [Td_min, Td_max], for a NaN temperature, or when the species' current cover is below 0.01 |
| Climate.BirthRateParabola | daisyworld.py:102-114 | inside the band with cover at least 0.01 the birth rate is 1 - 0.003265*(Td_ideal - Td)^2, at most 1, and 1 at the ideal |
| Climate.BirthRateAtMostOne | daisyworld.py:102-114 | the birth rate never exceeds 1, for any temperature and cover |
| Climate.DefaultBandInclusive | daisyworld.py:102-114 | with the program's constants both band ends are inclusive: exactly at Td_min or Td_max the rate is 0.00009375, just outside it is 0 |
| Solver.Solve | daisyworld.py:83-130 | the loop ends in the state Run specifies from the reset metrics, with the guard false and at most maxconv + 1 passes counted |
| Solver.StepBookkeeping | daisyworld.py:117-130 | a pass adds to each cover exactly the growth it stores as darea_*_old, sets dA_* to the non-negative change from the previous growth, counts one pass and rederives barren so the covers sum to 1 |
| Solver.FirstPassChange | daisyworld.py:84-88 | on the first pass of a flux step dA_* is the magnitude of the cover's own change, since the previous growth is reset to 0 |
| Solver.SparseSpeciesOnlyDies | daisyworld.py:102-118 | each species is gated on its own current cover: black or white below 0.01 grows by exactly -area*death_rate, which is never positive for a non-negative cover and death rate |
| Solver.RunStops | daisyworld.py:90 | the solve ends only when it > maxconv or dA_black <= tol or dA_white <= tol: one species stabilising stops it |
| Solver.RunCounter | daisyworld.py:84-130 | the pass counter never decreases and, started within the cap, ends at most at maxconv + 1 |
| Solver.RunIsFirstStop | daisyworld.py:90-130 | the solve's end state is the state after exactly it passes, and the guard held before every one of them |
| Solver.SolvePasses | daisyworld.py:84-90 | with tol > 0 a solve from the reset metrics makes at least one and at most maxconv + 1 passes |
| Solver.RunTemperature | daisyworld.py:96-136 | when the covers sum to 1 and the guard holds at the start, the returned Tp is the planetary temperature of the covers the last pass started from (the returned covers less that pass's growth), one update behind the returned covers |
| Solver.RunKeepsPartition | daisyworld.py:81-129 | if the starting covers sum to 1, so do the covers the solve returns |
| Solver.ConvergedBeforeCap | daisyworld.py:90 | a solve that stops within the cap has one species' change magnitude within tol |
| FluxSweep.Floored | daisyworld.py:77-80 | a floored cover is at least 0.01, equals the cover or 0.01, and is unchanged when already at least 0.01 |
| FluxSweep.FloorCovers | daisyworld.py:76-81 | both daisy covers are floored and barren is rederived, so the start covers are at least 0.01 and sum to 1 |
| FluxSweep.FloorRevivesExtinct | daisyworld.py:76-81 | covers at 0 are reseeded at exactly 0.01 each, barren 0.98, before the solve |
| FluxSweep.FluxCountExact | daisyworld.py:66 | step k is in the sweep exactly when Sflux_min + k*Sflux_step < Sflux_max |
| FluxSweep.AscendingHalfOpen | daisyworld.py:66 | the ascending fluxes are non-empty exactly when min < max, start at min, rise strictly and all lie below max |
| FluxSweep.FluxesOrder | daisyworld.py:66-68 | the processed fluxes are the same set, ascending without the REVERSE flag and descending with it |
| FluxSweep.DefaultFluxes | daisyworld.py:58-66 | with the program's limits the sweep has 550 fluxes, from 0.5 to 1.598 |
| FluxSweep.SweepCarriesOver | daisyworld.py:75-88 | flux step j solves from the floored covers of step j - 1 (the initial covers for j = 0); only the iteration metrics are reset |
| FluxSweep.SweepStepSolved | daisyworld.py:75-130 | each stored state ended its own solve, after between 1 and maxconv + 1 passes, with covers summing to 1 |
| FluxSweep.Sweep | daisyworld.py:66-136 | the sweep returns the processed fluxes and fresh arrays whose slot j holds black, white, barren and Tp of the j-th flux's result |

## Left out

- Plotting (daisyworld.py:138-148) and all of `photter.py` are not part of this model: they only draw and save figures, and `photter.py` calls a photosynthesis module that is not available.
- The fourth root (`np.power(..., 0.25)`, daisyworld.py:96) is the parameter `root4`; nothing about fourth roots is proved.
- Floating point is not modelled: all quantities are exact reals, so IEEE rounding and `np.arange`'s floating-step length are not captured (over reals the default sweep has exactly 550 fluxes).
- Whether the solve converges for given parameters, and the shape of any hysteresis between forward and reversed sweeps, depend on the numerics of the nonlinear system and are not stated.
- The covers are not claimed to stay non-negative, nor barren to stay in [0, 1]: the program does not enforce either inside the loop.
- FluxSweep.Sweep requires tol > 0: otherwise the inner loop never runs and the program reads `Tp` before assigning it on the first flux. The model's solver seeds the planetary temperature with NaN, which a positive tol always overwrites.
- A division by a zero Stefan-Boltzmann constant and a zero or negative flux step are excluded by typing `sigma` and `fluxStep` as positive reals; the program's constants are positive.
- No configuration validation or convergence flag is modelled, because the program has neither; the convergence diagnostic is stated instead by Solver.ConvergedBeforeCap.
- Climate.BirthRateParabola: does not state that the rate is below 1 away from the ideal temperature (only at most 1), since the program promises no more.
