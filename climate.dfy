/** The side-effect-free climate relations of one solver pass: planetary
    albedo, planetary (radiative-balance) temperature, local patch temperature
    and the gated parabolic birth rate. */
module Climate {
  import opened Parameters

  /** A temperature as the program computes it: a value in Kelvin, or NaN
      when the fourth root is taken of a negative radicand. Every ordered
      comparison with NaN is false. */
  datatype Temp = Kelvin(k: real) | NaN

  /** Planetary albedo: the cover-weighted sum of the three surface albedos. */
  function Albedo(cfg: Config, black: real, white: real, barren: real): real
  {
    black * cfg.albBlack + white * cfg.albWhite + barren * cfg.albBarren
  }

  /** The radicand of the radiative-balance relation. */
  function Radicand(cfg: Config, flux: real, albP: real): real
  {
    flux * cfg.so * (1.0 - albP) / cfg.sigma
  }

  /** Planetary temperature: the fourth root of the radicand, `root4` standing
      for the fourth-root routine; NaN when the radicand is negative. */
  function PlanetTemp(cfg: Config, flux: real, albP: real, root4: real -> real): (t: Temp)
    ensures t.NaN? <==> Radicand(cfg, flux, albP) < 0.0
  {
    var x := Radicand(cfg, flux, albP);
    if x >= 0.0 then Kelvin(root4(x)) else NaN
  }

  /** Local temperature of a patch of albedo `albS`. */
  function LocalTemp(insul: real, tp: Temp, albP: real, albS: real): Temp
  {
    match tp
    case NaN => NaN
    case Kelvin(t) => Kelvin(insul * (albP - albS) + t)
  }

  /** The viable band [tdMin, tdMax], both ends included; NaN is never in it. */
  predicate InBand(cfg: Config, td: Temp)
  {
    td.Kelvin? && td.k >= cfg.tdMin && td.k <= cfg.tdMax
  }

  function Squared(x: real): real
  {
    x * x
  }

  /** Birth rate of a species whose current cover is `area`, at local
      temperature `td`: the parabola around `ideal` inside the viable band when
      the cover is at least MinCover, exactly 0 otherwise. */
  function BirthRate(cfg: Config, td: Temp, ideal: real, area: real): real
  {
    if InBand(cfg, td) && area >= MinCover then
      1.0 - GrowthCurvature * Squared(ideal - td.k)
    else
      0.0
  }

  // ---------------------------------------------------------------------
  // Properties

  /** With the barren cover derived from the other two, the albedo is the
      bare-ground albedo shifted linearly by each daisy cover. */
  lemma AlbedoOfPartition(cfg: Config, black: real, white: real)
    ensures Albedo(cfg, black, white, 1.0 - (black + white))
         == cfg.albBarren + black * (cfg.albBlack - cfg.albBarren) + white * (cfg.albWhite - cfg.albBarren)
  {
  }

  /** Holding the other two covers fixed, adding cover `d > 0` of one surface
      never lowers the albedo exactly when that surface's albedo is
      non-negative; this holds for each of the three covers. */
  lemma AlbedoMonotone(cfg: Config, black: real, white: real, barren: real, d: real)
    requires d > 0.0
    ensures Albedo(cfg, black, white, barren) <= Albedo(cfg, black + d, white, barren) <==> cfg.albBlack >= 0.0
    ensures Albedo(cfg, black, white, barren) <= Albedo(cfg, black, white + d, barren) <==> cfg.albWhite >= 0.0
    ensures Albedo(cfg, black, white, barren) <= Albedo(cfg, black, white, barren + d) <==> cfg.albBarren >= 0.0
  {
  }

  /** A convex mix of albedos in [0, 1] lies in [0, 1]. */
  lemma AlbedoInUnitRange(cfg: Config, black: real, white: real, barren: real)
    requires 0.0 <= black && 0.0 <= white && 0.0 <= barren && black + white + barren == 1.0
    requires 0.0 <= cfg.albBlack <= 1.0 && 0.0 <= cfg.albWhite <= 1.0 && 0.0 <= cfg.albBarren <= 1.0
    ensures 0.0 <= Albedo(cfg, black, white, barren) <= 1.0
  {
    var u1 := ScaledWithin(black, cfg.albBlack);
    var u2 := ScaledWithin(white, cfg.albWhite);
    var u3 := ScaledWithin(barren, cfg.albBarren);
    assert Albedo(cfg, black, white, barren) == u1 + u2 + u3;
  }

  lemma ScaledWithin(a: real, x: real) returns (ax: real)
    requires a >= 0.0 && 0.0 <= x <= 1.0
    ensures ax == a * x && 0.0 <= ax <= a
  {
    ax := a * x;
    assert a - a * x == a * (1.0 - x);
  }

  /** For positive flux and solar constant, the planetary temperature is a
      number (not NaN) exactly when the albedo is at most 1. */
  lemma PlanetTempDefined(cfg: Config, flux: real, albP: real, root4: real -> real)
    requires flux > 0.0 && cfg.so > 0.0
    ensures PlanetTemp(cfg, flux, albP, root4).Kelvin? <==> albP <= 1.0
  {
  }

  /** The two local temperatures differ by the albedo contrast of the two
      species times the insulation coefficient, whatever the planet does. */
  lemma LocalTempGap(cfg: Config, tp: Temp, albP: real)
    requires tp.Kelvin?
    ensures LocalTemp(cfg.insul, tp, albP, cfg.albBlack).k - LocalTemp(cfg.insul, tp, albP, cfg.albWhite).k
         == cfg.insul * (cfg.albWhite - cfg.albBlack)
  {
  }

  /** With positive insulation, a patch is warmer than the planet exactly when
      it is darker than the planet, and cooler exactly when it is lighter. */
  lemma WarmerIffDarker(insul: real, t: real, albP: real, albS: real)
    requires insul > 0.0
    ensures LocalTemp(insul, Kelvin(t), albP, albS).k > t <==> albP > albS
    ensures LocalTemp(insul, Kelvin(t), albP, albS).k < t <==> albP < albS
  {
  }

  /** Outside the viable band (NaN included) or below MinCover, the birth
      rate is exactly zero. */
  lemma BirthRateGated(cfg: Config, td: Temp, ideal: real, area: real)
    requires !InBand(cfg, td) || area < MinCover
    ensures BirthRate(cfg, td, ideal, area) == 0.0
  {
  }

  /** Inside the band with enough cover, the birth rate is the parabola
      around the ideal temperature: 1 at the ideal, never more than 1. */
  lemma BirthRateParabola(cfg: Config, t: real, ideal: real, area: real)
    requires cfg.tdMin <= t <= cfg.tdMax && area >= MinCover
    ensures BirthRate(cfg, Kelvin(t), ideal, area) == 1.0 - GrowthCurvature * (ideal - t) * (ideal - t)
    ensures BirthRate(cfg, Kelvin(t), ideal, area) <= 1.0
    ensures t == ideal ==> BirthRate(cfg, Kelvin(t), ideal, area) == 1.0
  {
  }

  /** The birth rate never exceeds 1, for every temperature and cover. */
  lemma BirthRateAtMostOne(cfg: Config, td: Temp, ideal: real, area: real)
    ensures BirthRate(cfg, td, ideal, area) <= 1.0
  {
  }

  /** Both band ends are inclusive: with the default parameters, a patch
      exactly at either bound still reproduces (at a small positive rate),
      while one a hundredth of a degree outside does not. */
  lemma DefaultBandInclusive()
    ensures BirthRate(Default, Kelvin(Default.tdMin), Default.idealBlack, MinCover) == 0.00009375
    ensures BirthRate(Default, Kelvin(Default.tdMax), Default.idealWhite, MinCover) == 0.00009375
    ensures BirthRate(Default, Kelvin(Default.tdMin - 0.01), Default.idealBlack, MinCover) == 0.0
    ensures BirthRate(Default, Kelvin(Default.tdMax + 0.01), Default.idealWhite, MinCover) == 0.0
  {
  }
}
