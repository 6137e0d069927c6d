/**
 * The equation-of-state record and its input modes. The record is a plain
 * value: `update_thermodynamics` fills a local copy, hands it to the EOS or
 * to the composition routine, and copies it back into the burn state.
 */
module EosType {

  /** The thermodynamic quantities one EOS evaluation reads and fills. */
  datatype EosState = EosState(
    rho: real,
    T: real,
    p: real,
    e: real,
    h: real,
    s: real,
    xn: seq<real>,   // NumSpec mass fractions
    aux: seq<real>,  // NumAux auxiliary quantities
    dpdT: real,
    dpdr: real,
    dedT: real,
    dedr: real,
    dhdT: real,
    dhdr: real,
    dsdT: real,
    dsdr: real,
    dpde: real,
    dpdr_e: real,
    cv: real,
    cp: real,
    xne: real,
    xnp: real,
    eta: real,
    pele: real,
    ppos: real,
    mu: real,
    mu_e: real,
    y_e: real,
    gam1: real,
    cs: real,
    abar: real,
    zbar: real,
    conductivity: real)

  /**
   * Which pair of quantities is the input of an EOS evaluation:
   * density and temperature, density and enthalpy, and so on.
   */
  datatype EosInput =
    | EosInputRT
    | EosInputRH
    | EosInputTP
    | EosInputRP
    | EosInputRE
    | EosInputPS
    | EosInputPH
    | EosInputTH

}
