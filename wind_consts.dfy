/** Instrument constants shared by the wind pipeline (identical in both source files). */
module WindConsts {
  /** Molar mass of dry air, g/mol. */
  const MmAir: real := 28.9647
  /** Molar gas constant, J/(mol K), as scipy.constants.gas_constant. */
  const GasConstant: real := 8.314462618

  /** Trisonica anemometer: pressure error (Pa) and temperature error (degrees C). */
  const ErrTrisonicaP: real := 1000.0
  const ErrTrisonicaT: real := 2.0

  /** M600 Pro aircraft: velocity errors (m/s) and heading error (rad). */
  const ErrM600pVx: real := 0.05
  const ErrM600pVy: real := 0.05
  const ErrM600pPhi: real := 0.05

  /** Trisonica anemometer: wind component errors (m/s) and heading error (rad). */
  const ErrTrisonicaUm: real := 0.2
  const ErrTrisonicaVm: real := 0.2
  const ErrTrisonicaWm: real := 0.2
  const ErrTrisonicaPhi: real := 0.20
}
