/** Configuration of the Daisyworld model (Watson & Lovelock, 1983): albedos,
    initial cover fractions, growth and death parameters, convergence criteria,
    radiative constants and the solar-flux sweep. */
module Parameters {

  /** A strictly positive real: the Stefan-Boltzmann constant and the flux step. */
  type PosReal = x: real | x > 0.0 witness 1.0

  const KelvinOffset: real := 273.15

  /** Minimum daisy cover: the floor applied before each flux step and the
      cover below which a species does not reproduce. */
  const MinCover: real := 0.01

  /** Shape constant of the parabolic birth-rate curve. */
  const GrowthCurvature: real := 0.003265

  datatype Config = Config(
    reverse: bool,          // sweep the fluxes in descending order
    tdMin: real,            // lowest viable local temperature (K)
    tdMax: real,            // highest viable local temperature (K)
    idealBlack: real,       // ideal local temperature of black daisies (K)
    idealWhite: real,       // ideal local temperature of white daisies (K)
    albWhite: real,
    areaWhite0: real,       // initial white cover
    albBlack: real,
    areaBlack0: real,       // initial black cover
    albBarren: real,
    insul: real,            // insulation coefficient
    drate: real,            // death rate
    maxconv: nat,           // iteration cap of the inner solve
    tol: real,              // convergence tolerance
    so: real,               // solar constant
    sigma: PosReal,         // Stefan-Boltzmann constant
    fluxMin: real,
    fluxMax: real,
    fluxStep: PosReal)

  /** The parameterisation the program runs with. */
  const Default: Config := Config(
    reverse := false,
    tdMin := 5.0 + KelvinOffset,
    tdMax := 40.0 + KelvinOffset,
    idealBlack := 22.5 + KelvinOffset,
    idealWhite := 22.5 + KelvinOffset,
    albWhite := 0.75,
    areaWhite0 := 0.01,
    albBlack := 0.25,
    areaBlack0 := 0.01,
    albBarren := 0.5,
    insul := 20.0,
    drate := 0.3,
    maxconv := 1000,
    tol := 0.000001,
    so := 1000.0,
    sigma := 5.67032e-8,
    fluxMin := 0.5,
    fluxMax := 1.6,
    fluxStep := 0.002)
}
