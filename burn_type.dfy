/**
 * The physical state of one zone being burned, restricted to the fields the
 * VODE state routines read or write: density (which the EOS needs), the
 * mass fractions, temperature and energy, the self-heating flag, and the
 * values cached from the last full EOS evaluation.
 */
module BurnType {

  /** A snapshot of a burn state, as a value. */
  datatype BurnView = BurnView(
    rho: real,
    T: real,
    e: real,
    xn: seq<real>,
    self_heat: bool,
    T_old: real,
    cv_old: real,
    cp_old: real,
    dcvdT: real,
    dcpdT: real)

  /** The burn state, updated in place by the integrator's routines. */
  class BurnState {
    const numSpec: nat
    const xn: array<real>
    var rho: real
    var T: real
    var e: real
    var self_heat: bool
    var T_old: real
    var cv_old: real
    var cp_old: real
    var dcvdT: real
    var dcpdT: real

    ghost predicate Valid()
    {
      xn.Length == numSpec
    }

    /** The current contents of the burn state. */
    function View(): (v: BurnView)
      reads this, xn
      ensures |v.xn| == xn.Length
    {
      BurnView(rho, T, e, xn[..], self_heat, T_old, cv_old, cp_old, dcvdT, dcpdT)
    }

    /** Overwrite every field with the contents of `v`. */
    method Assign(v: BurnView)
      requires Valid() && |v.xn| == numSpec
      modifies this, xn
      ensures Valid() && View() == v
    {
      rho, T, e, self_heat := v.rho, v.T, v.e, v.self_heat;
      T_old, cv_old, cp_old := v.T_old, v.cv_old, v.cp_old;
      dcvdT, dcpdT := v.dcvdT, v.dcpdT;
      forall i | 0 <= i < xn.Length {
        xn[i] := v.xn[i];
      }
      assert xn[..] == v.xn;
    }

    constructor (numSpec: nat)
      ensures Valid() && fresh(xn) && this.numSpec == numSpec
    {
      this.numSpec := numSpec;
      xn := new real[numSpec];
    }
  }
}
