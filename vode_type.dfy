/**
 * The state of the VODE (BDF) integrator and the routines that move the
 * physical state of a zone in and out of it, keep it physically sensible,
 * and refresh the thermodynamics a right-hand-side evaluation needs.
 *
 * Indices follow the source: the integration vector `y` is numbered from 1,
 * species 1..NumSpec come first, then the temperature (`net_itemp`) and the
 * energy (`net_ienuc`). Entry `y(i)` is stored at array position `i - 1`.
 */
module VodeType {
  import opened Species
  import opened EosType
  import opened BurnType

  // ---------------------------------------------------------------------
  // Dimensions and tuning constants
  // ---------------------------------------------------------------------

  /** The maximum order of the backward differentiation formula. */
  const VODE_MAXORD: nat := 5
  const VODE_LMAX: nat := VODE_MAXORD + 1

  /** Machine epsilon of a double-precision `amrex::Real` (2^-52). */
  const UROUND: real := 1.0 / 4503599627370496.0
  const CCMXJ: real := 0.2
  const HMIN: real := 0.0
  const HMXI: real := 0.0

  /** How many steps may pass before the Jacobian is refreshed. */
  const MAX_STEPS_BETWEEN_JACOBIAN_EVALS: nat := 50

  /** Number of equations: the species, the temperature and the energy. */
  function VodeNeqs(numSpec: nat): nat { numSpec + 2 }

  /** 1-based index of the temperature in `y`. */
  function NetITemp(numSpec: nat): nat { numSpec + 1 }

  /** 1-based index of the energy in `y`. */
  function NetIEnuc(numSpec: nat): nat { numSpec + 2 }

  /**
   * The index layout: the species, the temperature and the energy fill
   * 1..VODE_NEQS in that order, so a vector of that length is exactly its
   * species followed by its temperature and its energy.
   */
  lemma {:induction false} IndexLayout(y: seq<real>, numSpec: nat)
    requires |y| == VodeNeqs(numSpec)
    ensures numSpec < NetITemp(numSpec) < NetIEnuc(numSpec) == VodeNeqs(numSpec)
    ensures y == y[..numSpec] + [y[NetITemp(numSpec) - 1], y[NetIEnuc(numSpec) - 1]]
  {
    assert y[numSpec..] == [y[numSpec], y[numSpec + 1]];
    assert y == y[..numSpec] + y[numSpec..];
  }

  // ---------------------------------------------------------------------
  // Run-time configuration read by the routines
  // ---------------------------------------------------------------------

  /**
   * `renormalize_abundances`, `call_eos_in_rhs` and `dT_crit` are integrator
   * parameters, `SMALL_X_SAFE` and `MAX_TEMP` constants of the build, and
   * `mintemp` the smallest temperature the EOS accepts.
   */
  datatype Params = Params(
    renormalize_abundances: bool,
    SMALL_X_SAFE: real,
    MAX_TEMP: real,
    mintemp: real,
    call_eos_in_rhs: bool,
    dT_crit: real)

  function Max(a: real, b: real): real { if a < b then b else a }
  function Min(a: real, b: real): real { if b < a then b else a }
  function Abs(a: real): real { if a < 0.0 then -a else a }

  // ---------------------------------------------------------------------
  // The integrator state
  // ---------------------------------------------------------------------

  /**
   * The integration solution and control variables. Only `y` is written by
   * the routines of this module; the step controller, corrector and Jacobian
   * manager that use the other fields are not part of this model.
   */
  class DvodeState {
    const numSpec: nat

    var CONP: real
    var CRATE: real
    var DRC: real
    var ETA: real
    var ETAMAX: real
    var H: real
    var HNEW: real
    var HSCAL: real
    var PRL1: real
    var RC: real
    var RL1: real
    var tn: real
    var NFE: int
    var NJE: int
    var NST: int
    var ICF: int
    var IPUP: int
    var JCUR: int
    var L: int
    var NEWH: int
    var NEWQ: int
    var NQ: int
    var NQNYH: int
    var NQWAIT: int
    var NSLJ: int
    var NSLP: int

    const el: array<real>
    const tau: array<real>
    const tq: array<real>

    // Tolerances
    const rtol: array<real>
    const atol: array<real>

    // Local time and integration end time
    var t: real
    var tout: real

    // Integration array
    const y: array<real>

    // Dense Jacobian and its saved copy (host build)
    const jac: array2<real>
    const jac_save: array2<real>

    const yh: array2<real>

    const ewt: array<real>
    const savf: array<real>
    const acor: array<real>

    /** The one-dimensional arrays other than `y`. */
    ghost function Others(): set<array<real>>
    {
      {rtol, atol, el, tau, tq, ewt, savf, acor}
    }

    /** Every one-dimensional array of the state, `y` included. */
    ghost function Arrays(): set<array<real>>
    {
      Others() + {y}
    }

    ghost predicate Valid()
    {
      1 <= numSpec &&
      y.Length == VodeNeqs(numSpec) &&
      rtol.Length == VodeNeqs(numSpec) && atol.Length == VodeNeqs(numSpec) &&
      ewt.Length == VodeNeqs(numSpec) && savf.Length == VodeNeqs(numSpec) &&
      acor.Length == VodeNeqs(numSpec) &&
      el.Length == VODE_LMAX && tau.Length == VODE_LMAX && tq.Length == 5 &&
      yh.Length0 == VodeNeqs(numSpec) && yh.Length1 == VODE_LMAX &&
      jac.Length0 == VodeNeqs(numSpec) && jac.Length1 == VodeNeqs(numSpec) &&
      jac_save.Length0 == VodeNeqs(numSpec) && jac_save.Length1 == VodeNeqs(numSpec) &&
      y !in Others()
    }

    /** Every field except the contents of `y` is as it was. */
    twostate predicate OnlyYChanged()
      reads this, Others(), yh, jac, jac_save
    {
      unchanged(this) && unchanged(Others()) && unchanged(yh, jac, jac_save)
    }

    constructor (numSpec: nat)
      requires 1 <= numSpec
      ensures Valid() && this.numSpec == numSpec
      ensures fresh(Arrays()) && fresh(yh) && fresh(jac) && fresh(jac_save)
    {
      this.numSpec := numSpec;
      el := new real[VODE_LMAX];
      tau := new real[VODE_LMAX];
      tq := new real[5];
      rtol := new real[numSpec + 2];
      atol := new real[numSpec + 2];
      y := new real[numSpec + 2];
      jac := new real[numSpec + 2, numSpec + 2];
      jac_save := new real[numSpec + 2, numSpec + 2];
      yh := new real[numSpec + 2, VODE_LMAX];
      ewt := new real[numSpec + 2];
      savf := new real[numSpec + 2];
      acor := new real[numSpec + 2];
    }
  }

  /** The burn state's species array is none of the integrator's arrays. */
  ghost predicate Separate(state: BurnState, vode: DvodeState)
  {
    state.xn !in vode.Arrays()
  }

  // ---------------------------------------------------------------------
  // State transfer
  // ---------------------------------------------------------------------

  /** Copy the integration data to the burn state. */
  method VodeToBurn(vode: DvodeState, state: BurnState)
    requires vode.Valid() && state.Valid() && state.numSpec == vode.numSpec
    requires Separate(state, vode)
    modifies state`T, state`e, state.xn
    ensures state.xn[..] == vode.y[..vode.numSpec]
    ensures state.T == vode.y[NetITemp(vode.numSpec) - 1]
    ensures state.e == vode.y[NetIEnuc(vode.numSpec) - 1]
  {
    var n := 1;
    while n <= vode.numSpec
      invariant 1 <= n <= vode.numSpec + 1
      invariant state.xn[..n - 1] == vode.y[..n - 1]
    {
      state.xn[n - 1] := vode.y[n - 1];
      n := n + 1;
    }
    state.T := vode.y[NetITemp(vode.numSpec) - 1];
    state.e := vode.y[NetIEnuc(vode.numSpec) - 1];
  }

  /** Copy the integration data from the burn state. */
  method BurnToVode(state: BurnState, vode: DvodeState)
    requires vode.Valid() && state.Valid() && state.numSpec == vode.numSpec
    requires Separate(state, vode)
    modifies vode.y
    ensures vode.y[..vode.numSpec] == state.xn[..]
    ensures vode.y[NetITemp(vode.numSpec) - 1] == state.T
    ensures vode.y[NetIEnuc(vode.numSpec) - 1] == state.e
    ensures vode.OnlyYChanged()
  {
    var n := 1;
    while n <= vode.numSpec
      invariant 1 <= n <= vode.numSpec + 1
      invariant vode.y[..n - 1] == state.xn[..n - 1]
    {
      vode.y[n - 1] := state.xn[n - 1];
      n := n + 1;
    }
    vode.y[NetITemp(vode.numSpec) - 1] := state.T;
    vode.y[NetIEnuc(vode.numSpec) - 1] := state.e;
  }

  /**
   * Physical -> integrator -> physical: the burn state comes back exactly as
   * it was, and the integrator keeps a copy of its species, temperature and
   * energy.
   */
  method BurnRoundTrip(state: BurnState, vode: DvodeState)
    requires vode.Valid() && state.Valid() && state.numSpec == vode.numSpec
    requires Separate(state, vode)
    modifies vode.y, state`T, state`e, state.xn
    ensures state.View() == old(state.View())
    ensures vode.y[..] == state.xn[..] + [state.T, state.e]
    ensures vode.OnlyYChanged()
  {
    BurnToVode(state, vode);
    VodeToBurn(vode, state);
    IndexLayout(vode.y[..], vode.numSpec);
  }

  /**
   * Integrator -> physical -> integrator: `y` comes back exactly as it was,
   * because the layout puts every entry of `y` in exactly one field.
   */
  method VodeRoundTrip(vode: DvodeState, state: BurnState)
    requires vode.Valid() && state.Valid() && state.numSpec == vode.numSpec
    requires Separate(state, vode)
    modifies vode.y, state`T, state`e, state.xn
    ensures vode.y[..] == old(vode.y[..])
    ensures vode.OnlyYChanged()
  {
    VodeToBurn(vode, state);
    ghost var copied := vode.y[..];
    BurnToVode(state, vode);
    IndexLayout(vode.y[..], vode.numSpec);
    IndexLayout(copied, vode.numSpec);
  }

  // ---------------------------------------------------------------------
  // Species renormalisation
  // ---------------------------------------------------------------------

  /** Divide every mass fraction by the sum of the mass fractions. */
  method RenormalizeSpecies(vode: DvodeState)
    requires vode.Valid()
    requires Sum(vode.y[..vode.numSpec]) != 0.0
    modifies vode.y
    ensures vode.y[..vode.numSpec] == Renormalized(old(vode.y[..vode.numSpec]))
    ensures vode.y[vode.numSpec..] == old(vode.y[vode.numSpec..])
    ensures vode.OnlyYChanged()
  {
    var ns := vode.numSpec;
    var sum := 0.0;
    var n := 1;
    while n <= ns
      invariant 1 <= n <= ns + 1
      invariant sum == Sum(vode.y[..n - 1])
    {
      assert vode.y[..n][..n - 1] == vode.y[..n - 1];
      sum := sum + vode.y[n - 1];
      n := n + 1;
    }
    ghost var species := vode.y[..ns];
    n := 1;
    while n <= ns
      invariant 1 <= n <= ns + 1
      invariant forall k :: 0 <= k < n - 1 ==> vode.y[k] == species[k] / sum
      invariant forall k :: n - 1 <= k < vode.y.Length ==> vode.y[k] == old(vode.y[k])
    {
      vode.y[n - 1] := vode.y[n - 1] / sum;
      n := n + 1;
    }
    assert vode.y[..ns] == Divided(species, sum);
  }

  // ---------------------------------------------------------------------
  // State sanitisation
  // ---------------------------------------------------------------------

  /** One mass fraction clamped into [floor, 1]. */
  function ClampFraction(x: real, floor: real): (r: real)
    ensures floor <= 1.0 ==> floor <= r <= 1.0
    ensures floor <= x <= 1.0 ==> r == x
    ensures floor <= r
  {
    Max(Min(x, 1.0), floor)
  }

  /** The temperature clamped into [mintemp, MAX_TEMP]. */
  function ClampTemperature(p: Params, T: real): (r: real)
    ensures p.mintemp <= p.MAX_TEMP ==> p.mintemp <= r <= p.MAX_TEMP
    ensures p.mintemp <= T <= p.MAX_TEMP ==> r == T
  {
    Min(p.MAX_TEMP, Max(T, p.mintemp))
  }

  /** Every mass fraction clamped into [SMALL_X_SAFE, 1]. */
  function ClampedSpecies(p: Params, x: seq<real>): (r: seq<real>)
    ensures |r| == |x|
    ensures forall i :: 0 <= i < |r| ==> p.SMALL_X_SAFE <= r[i]
    ensures p.SMALL_X_SAFE <= 1.0 ==> forall i :: 0 <= i < |r| ==> r[i] <= 1.0
    ensures forall i :: 0 <= i < |r| && p.SMALL_X_SAFE <= x[i] <= 1.0 ==> r[i] == x[i]
  {
    seq(|x|, i requires 0 <= i < |x| => ClampFraction(x[i], p.SMALL_X_SAFE))
  }

  /**
   * After clamping, the mass fractions sum to at least NumSpec * SMALL_X_SAFE,
   * which is positive when there is a species and the floor is positive.
   */
  lemma ClampedSumBound(p: Params, x: seq<real>)
    ensures (|x| as real) * p.SMALL_X_SAFE <= Sum(ClampedSpecies(p, x))
    ensures 1 <= |x| && 0.0 < p.SMALL_X_SAFE ==> 0.0 < Sum(ClampedSpecies(p, x))
  {
    SumAtLeast(ClampedSpecies(p, x), p.SMALL_X_SAFE);
    if 1 <= |x| && 0.0 < p.SMALL_X_SAFE {
      assert 0.0 < (|x| as real) * p.SMALL_X_SAFE;
    }
  }

  /** What the cleaning routine requires so that its renormalisation never divides by zero. */
  predicate CleanDefined(p: Params, numSpec: nat)
  {
    p.renormalize_abundances ==> 0.0 < p.SMALL_X_SAFE && 1 <= numSpec
  }

  /** The integration vector after `clean_state`. */
  function Cleaned(p: Params, y: seq<real>, numSpec: nat): (r: seq<real>)
    requires |y| == VodeNeqs(numSpec)
    requires CleanDefined(p, numSpec)
    ensures |r| == |y|
  {
    var x := ClampedSpecies(p, y[..numSpec]);
    ClampedSumBound(p, y[..numSpec]);
    var species := if p.renormalize_abundances then Renormalized(x) else x;
    species + [ClampTemperature(p, y[NetITemp(numSpec) - 1]), y[NetIEnuc(numSpec) - 1]]
  }

  /**
   * Clamp the mass fractions into [SMALL_X_SAFE, 1], renormalise them if so
   * configured, and clamp the temperature into [mintemp, MAX_TEMP].
   */
  method CleanState(vode: DvodeState, p: Params)
    requires vode.Valid()
    requires CleanDefined(p, vode.numSpec)
    modifies vode.y
    ensures vode.y[..] == Cleaned(p, old(vode.y[..]), vode.numSpec)
    ensures vode.OnlyYChanged()
  {
    var ns := vode.numSpec;
    ghost var y0 := vode.y[..];
    var n := 1;
    while n <= ns
      invariant 1 <= n <= ns + 1
      invariant forall k :: 0 <= k < n - 1 ==> vode.y[k] == ClampFraction(y0[k], p.SMALL_X_SAFE)
      invariant forall k :: n - 1 <= k < vode.y.Length ==> vode.y[k] == y0[k]
    {
      vode.y[n - 1] := Max(Min(vode.y[n - 1], 1.0), p.SMALL_X_SAFE);
      n := n + 1;
    }
    assert vode.y[..ns] == ClampedSpecies(p, y0[..ns]);
    if p.renormalize_abundances {
      ClampedSumBound(p, y0[..ns]);
      RenormalizeSpecies(vode);
    }
    vode.y[NetITemp(ns) - 1] := Min(p.MAX_TEMP, Max(vode.y[NetITemp(ns) - 1], p.mintemp));
    assert vode.y[..] == vode.y[..ns] + [vode.y[ns], vode.y[ns + 1]];
  }

  /**
   * Without renormalisation every mass fraction ends in [SMALL_X_SAFE, 1],
   * and a mass fraction already in that range is left as it was.
   */
  lemma CleanClampsSpecies(p: Params, y: seq<real>, numSpec: nat)
    requires |y| == VodeNeqs(numSpec)
    requires !p.renormalize_abundances
    requires 0.0 < p.SMALL_X_SAFE <= 1.0
    ensures forall i :: 0 <= i < numSpec ==> 0.0 < p.SMALL_X_SAFE <= Cleaned(p, y, numSpec)[i] <= 1.0
    ensures forall i :: 0 <= i < numSpec && p.SMALL_X_SAFE <= y[i] <= 1.0 ==> Cleaned(p, y, numSpec)[i] == y[i]
  {
  }

  /** Without renormalisation, cleaning a cleaned state changes nothing. */
  lemma CleanIdempotent(p: Params, y: seq<real>, numSpec: nat)
    requires |y| == VodeNeqs(numSpec)
    requires !p.renormalize_abundances
    ensures Cleaned(p, Cleaned(p, y, numSpec), numSpec) == Cleaned(p, y, numSpec)
  {
    var once := Cleaned(p, y, numSpec);
    var twice := Cleaned(p, once, numSpec);
    forall i | 0 <= i < |y|
      ensures twice[i] == once[i]
    {
      if i < numSpec {
        assert once[i] == ClampFraction(y[i], p.SMALL_X_SAFE);
      }
    }
  }

  /**
   * With renormalisation the mass fractions are strictly positive, at most
   * one, and sum to one.
   */
  lemma CleanRenormalizes(p: Params, y: seq<real>, numSpec: nat)
    requires |y| == VodeNeqs(numSpec)
    requires p.renormalize_abundances
    requires 0.0 < p.SMALL_X_SAFE && 1 <= numSpec
    ensures Sum(Cleaned(p, y, numSpec)[..numSpec]) == 1.0
    ensures forall i :: 0 <= i < numSpec ==> 0.0 < Cleaned(p, y, numSpec)[i] <= 1.0
  {
    var x := ClampedSpecies(p, y[..numSpec]);
    ClampedSumBound(p, y[..numSpec]);
    var r := Renormalized(x);
    assert Cleaned(p, y, numSpec)[..numSpec] == r;
    assert r == Divided(x, Sum(x));
    forall i | 0 <= i < numSpec
      ensures 0.0 < r[i] <= 1.0
    {
      EntryAtMostSum(x, i);
      QuotientInUnit(x[i], Sum(x));
    }
  }

  /**
   * In both modes the temperature ends in [mintemp, MAX_TEMP], a temperature
   * already in range is left as it was, and the energy is never touched.
   */
  lemma CleanTemperatureAndEnergy(p: Params, y: seq<real>, numSpec: nat)
    requires |y| == VodeNeqs(numSpec)
    requires CleanDefined(p, numSpec)
    ensures var T := Cleaned(p, y, numSpec)[NetITemp(numSpec) - 1];
      p.mintemp <= p.MAX_TEMP ==> p.mintemp <= T <= p.MAX_TEMP
    ensures p.mintemp <= y[NetITemp(numSpec) - 1] <= p.MAX_TEMP ==>
      Cleaned(p, y, numSpec)[NetITemp(numSpec) - 1] == y[NetITemp(numSpec) - 1]
    ensures Cleaned(p, y, numSpec)[NetIEnuc(numSpec) - 1] == y[NetIEnuc(numSpec) - 1]
  {
  }

  /**
   * With renormalisation the floor does not survive: clamping [1, 1, 0.1]
   * with SMALL_X_SAFE = 0.1 gives a sum of 2.1, and the third mass fraction
   * ends at 1/21, below the floor.
   */
  lemma RenormalizedCleanBreaksFloor()
    ensures var p := Params(true, 0.1, 1.0e10, 1.0e4, false, 0.0);
      Cleaned(p, [1.0, 1.0, 0.1, 1.0e5, 0.0], 3)[2] < p.SMALL_X_SAFE
  {
    var p := Params(true, 0.1, 1.0e10, 1.0e4, false, 0.0);
    var x := ClampedSpecies(p, [1.0, 1.0, 0.1]);
    assert x == [1.0, 1.0, 0.1];
    SumOfThree(1.0, 1.0, 0.1);
    assert [1.0, 1.0, 0.1, 1.0e5, 0.0][..3] == [1.0, 1.0, 0.1];
    assert Renormalized(x)[2] * 2.1 == 0.1;
  }

  /** With renormalisation cleaning is not idempotent: the example above moves again. */
  lemma RenormalizedCleanNotIdempotent()
    ensures var p := Params(true, 0.1, 1.0e10, 1.0e4, false, 0.0);
      var once := Cleaned(p, [1.0, 1.0, 0.1, 1.0e5, 0.0], 3);
      Cleaned(p, once, 3) != once
  {
    var p := Params(true, 0.1, 1.0e10, 1.0e4, false, 0.0);
    var y := [1.0, 1.0, 0.1, 1.0e5, 0.0];
    var x := ClampedSpecies(p, y[..3]);
    assert y[..3] == [1.0, 1.0, 0.1];
    assert x == [1.0, 1.0, 0.1];
    SumOfThree(1.0, 1.0, 0.1);
    var once := Cleaned(p, y, 3);
    var r := Renormalized(x);
    assert r[0] * 2.1 == 1.0 && r[1] * 2.1 == 1.0 && r[2] * 2.1 == 0.1;
    assert once[..3] == r;
    var x2 := ClampedSpecies(p, once[..3]);
    assert x2 == [r[0], r[1], 0.1];
    SumOfThree(r[0], r[1], 0.1);
    var twice := Cleaned(p, once, 3);
    assert twice[0] * Sum(x2) == r[0];
    assert Sum(x2) != 1.0;
    assert twice[0] != once[0];
  }

  // ---------------------------------------------------------------------
  // Thermodynamic refresh
  // ---------------------------------------------------------------------

  /**
   * The routines `update_thermodynamics` calls but this model does not see:
   * filling an EOS state from a burn state, the EOS itself, the composition
   * calculation, and copying an EOS state back into a burn state.
   */
  datatype Collaborators = Collaborators(
    burnToEos: BurnView -> EosState,
    eos: (EosInput, EosState) -> EosState,
    composition: EosState -> EosState,
    eosToBurn: (EosState, BurnView) -> BurnView)

  /**
   * What the collaborators' interfaces promise: an EOS state holds NumSpec
   * mass fractions, an evaluation with density and temperature as input
   * keeps the temperature, and a burn state keeps the size of its species array.
   */
  ghost predicate Conforms(c: Collaborators, numSpec: nat)
  {
    (forall b :: |c.burnToEos(b).xn| == numSpec) &&
    (forall es :: c.eos(EosInputRT, es).T == es.T) &&
    (forall es, b :: |c.eosToBurn(es, b).xn| == |b.xn|)
  }

  /** One call to a collaborator, as recorded in the trace. */
  datatype Call =
    | BurnToEos(burn: BurnView)
    | Eos(input: EosInput, state: EosState)
    | Composition(state: EosState)
    | EosToBurn(state: EosState, burn: BurnView)

  /** How many calls in `calls` are full EOS evaluations. */
  function EosCalls(calls: seq<Call>): nat
  {
    if calls == [] then 0 else (if calls[0].Eos? then 1 else 0) + EosCalls(calls[1..])
  }

  lemma {:induction false} EosCallsAppend(a: seq<Call>, b: seq<Call>)
    ensures EosCalls(a + b) == EosCalls(a) + EosCalls(b)
  {
    if a == [] {
      assert a + b == b;
    } else {
      assert (a + b)[0] == a[0];
      assert (a + b)[1..] == a[1..] + b;
      EosCallsAppend(a[1..], b);
    }
  }

  lemma EosCallsOfThree(x: Call, y: Call, z: Call)
    ensures EosCalls([x, y, z]) ==
      (if x.Eos? then 1 else 0) + (if y.Eos? then 1 else 0) + (if z.Eos? then 1 else 0)
  {
    assert [x, y, z][1..] == [y, z];
    assert [y, z][1..] == [z];
    assert [z][1..] == [];
    assert EosCalls([z]) == if z.Eos? then 1 else 0;
    assert EosCalls([y, z]) == (if y.Eos? then 1 else 0) + EosCalls([z]);
  }

  /** The fields of a burn state that only `update_thermodynamics` maintains. */
  function Cache(b: BurnView): (real, real, real, real, real)
  {
    (b.T_old, b.cv_old, b.cp_old, b.dcvdT, b.dcpdT)
  }

  /** Copying an EOS state into a burn state leaves the self-heating flag and the cache alone. */
  ghost predicate KeepsIntegratorFields(c: Collaborators)
  {
    forall es, b :: c.eosToBurn(es, b).self_heat == b.self_heat && Cache(c.eosToBurn(es, b)) == Cache(b)
  }

  /**
   * Only the drift branch divides, by T - T_old. It is reached when the zone
   * self-heats and `call_eos_in_rhs` is off, and then passes its test with a
   * zero divisor only when T equals T_old and dT_crit * T is negative; the
   * source divides by zero there. Every other call is unconstrained.
   */
  predicate DriftTestSafe(p: Params, b: BurnView, T: real)
  {
    b.self_heat && !p.call_eos_in_rhs && T == b.T_old ==> 0.0 <= p.dT_crit * T
  }

  /** The local EOS state after it has been filled from the burn state and from `y`. */
  function FilledEosState(c: Collaborators, b: BurnView, y: seq<real>, numSpec: nat): (es: EosState)
    requires |y| == VodeNeqs(numSpec)
    ensures es.xn == y[..numSpec] && es.T == y[NetITemp(numSpec) - 1] && es.e == y[NetIEnuc(numSpec) - 1]
    ensures es.rho == c.burnToEos(b).rho && es.cv == c.burnToEos(b).cv && es.cp == c.burnToEos(b).cp
  {
    c.burnToEos(b).(xn := y[..numSpec], T := y[NetITemp(numSpec) - 1], e := y[NetIEnuc(numSpec) - 1])
  }

  /** The burn state after `update_thermodynamics`, and the calls it made. */
  datatype Refresh = Refresh(burn: BurnView, calls: seq<Call>)

  /**
   * The outcome of the three-way decision: the EOS state after the call,
   * the burn state handed to `eos_to_burn`, and the call that was made.
   */
  datatype Evaluation = Evaluation(out: EosState, handed: BurnView, call: Call)

  /** The three-way decision of `update_thermodynamics` on a filled EOS state, as a value. */
  function Evaluated(p: Params, c: Collaborators, b: BurnView, es: EosState): (r: Evaluation)
    requires Conforms(c, |es.xn|)
    requires DriftTestSafe(p, b, es.T)
    ensures r.call.Eos? <==> b.self_heat && (p.call_eos_in_rhs || Abs(es.T - b.T_old) > p.dT_crit * es.T)
    ensures r.call.Eos? ==> r.call == Eos(EosInputRT, es) && r.out.T == es.T
    ensures !r.call.Eos? ==> r.call == Composition(es)
    ensures Cache(r.handed) != Cache(b) ==> r.call.Eos? && !p.call_eos_in_rhs
    ensures r.handed == b.(T_old := r.handed.T_old, cv_old := r.handed.cv_old, cp_old := r.handed.cp_old,
                           dcvdT := r.handed.dcvdT, dcpdT := r.handed.dcpdT)
  {
    if p.call_eos_in_rhs && b.self_heat then
      Evaluation(c.eos(EosInputRT, es), b, Eos(EosInputRT, es))
    else if Abs(es.T - b.T_old) > p.dT_crit * es.T && b.self_heat then
      var out := c.eos(EosInputRT, es);
      var cached := b.(dcvdT := (out.cv - b.cv_old) / (out.T - b.T_old),
                       dcpdT := (out.cp - b.cp_old) / (out.T - b.T_old),
                       T_old := out.T, cv_old := out.cv, cp_old := out.cp);
      Evaluation(out, cached, Eos(EosInputRT, es))
    else
      Evaluation(c.composition(es), b, Composition(es))
  }

  /** What one call of `update_thermodynamics` does, as a value. */
  function Refreshed(p: Params, c: Collaborators, b: BurnView, y: seq<real>, numSpec: nat): (r: Refresh)
    requires |y| == VodeNeqs(numSpec)
    requires Conforms(c, numSpec)
    requires DriftTestSafe(p, b, y[NetITemp(numSpec) - 1])
    ensures |r.calls| == 3 && r.calls[0] == BurnToEos(b) && r.calls[2].EosToBurn?
    ensures r.burn == c.eosToBurn(r.calls[2].state, r.calls[2].burn)
    ensures r.calls[1].Eos? || r.calls[1].Composition?
    ensures r.calls[1].state.xn == y[..numSpec] && r.calls[1].state.T == y[NetITemp(numSpec) - 1]
    ensures |r.burn.xn| == |b.xn|
  {
    var es := FilledEosState(c, b, y, numSpec);
    var v := Evaluated(p, c, b, es);
    Refresh(c.eosToBurn(v.out, v.handed), [BurnToEos(b), v.call, EosToBurn(v.out, v.handed)])
  }

  /**
   * With self-heating and `call_eos_in_rhs`, the EOS is called once, with
   * density and temperature as input, and the cached values are handed back
   * unchanged.
   */
  lemma RefreshForced(p: Params, c: Collaborators, b: BurnView, y: seq<real>, numSpec: nat)
    requires |y| == VodeNeqs(numSpec) && Conforms(c, numSpec)
    requires p.call_eos_in_rhs && b.self_heat
    ensures var es := FilledEosState(c, b, y, numSpec);
      var out := c.eos(EosInputRT, es);
      Refreshed(p, c, b, y, numSpec) ==
        Refresh(c.eosToBurn(out, b), [BurnToEos(b), Eos(EosInputRT, es), EosToBurn(out, b)])
  {
  }

  /**
   * With self-heating, without `call_eos_in_rhs`, and with the temperature
   * more than dT_crit * T away from T_old, the EOS is called once; the
   * divisor T - T_old is nonzero; dcvdT and dcpdT become the finite
   * differences against the cached values; and T_old, cv_old, cp_old take
   * the new temperature and specific heats.
   */
  lemma RefreshOnDrift(p: Params, c: Collaborators, b: BurnView, y: seq<real>, numSpec: nat)
    requires |y| == VodeNeqs(numSpec) && Conforms(c, numSpec)
    requires DriftTestSafe(p, b, y[NetITemp(numSpec) - 1])
    requires !p.call_eos_in_rhs && b.self_heat
    requires Abs(y[NetITemp(numSpec) - 1] - b.T_old) > p.dT_crit * y[NetITemp(numSpec) - 1]
    ensures var T := y[NetITemp(numSpec) - 1];
      var es := FilledEosState(c, b, y, numSpec);
      var out := c.eos(EosInputRT, es);
      var handed := b.(dcvdT := (out.cv - b.cv_old) / (T - b.T_old),
                       dcpdT := (out.cp - b.cp_old) / (T - b.T_old),
                       T_old := T, cv_old := out.cv, cp_old := out.cp);
      T - b.T_old != 0.0 &&
      handed.dcvdT * (T - b.T_old) == out.cv - b.cv_old &&
      handed.dcpdT * (T - b.T_old) == out.cp - b.cp_old &&
      Refreshed(p, c, b, y, numSpec) ==
        Refresh(c.eosToBurn(out, handed), [BurnToEos(b), Eos(EosInputRT, es), EosToBurn(out, handed)])
  {
  }

  /**
   * Otherwise -- no self-heating, or no forced call and a temperature close
   * to T_old -- only the composition is recomputed, no EOS call is made, and
   * the cached values are handed back unchanged.
   */
  lemma RefreshCompositionOnly(p: Params, c: Collaborators, b: BurnView, y: seq<real>, numSpec: nat)
    requires |y| == VodeNeqs(numSpec) && Conforms(c, numSpec)
    requires !b.self_heat ||
      (!p.call_eos_in_rhs && Abs(y[NetITemp(numSpec) - 1] - b.T_old) <= p.dT_crit * y[NetITemp(numSpec) - 1])
    ensures var es := FilledEosState(c, b, y, numSpec);
      var out := c.composition(es);
      Refreshed(p, c, b, y, numSpec) ==
        Refresh(c.eosToBurn(out, b), [BurnToEos(b), Composition(es), EosToBurn(out, b)])
  {
  }

  /**
   * Exactly one full EOS evaluation happens when the zone self-heats and
   * either `call_eos_in_rhs` is set or the temperature has drifted; none
   * otherwise. Every EOS evaluation takes density and temperature as input,
   * and every EOS or composition call sees the mass fractions, temperature
   * and energy of `y`.
   */
  lemma RefreshEosCalls(p: Params, c: Collaborators, b: BurnView, y: seq<real>, numSpec: nat)
    requires |y| == VodeNeqs(numSpec) && Conforms(c, numSpec)
    requires DriftTestSafe(p, b, y[NetITemp(numSpec) - 1])
    ensures var T := y[NetITemp(numSpec) - 1];
      EosCalls(Refreshed(p, c, b, y, numSpec).calls) ==
        if b.self_heat && (p.call_eos_in_rhs || Abs(T - b.T_old) > p.dT_crit * T) then 1 else 0
    ensures var calls := Refreshed(p, c, b, y, numSpec).calls;
      forall i :: 0 <= i < |calls| && calls[i].Eos? ==> calls[i].input == EosInputRT
    ensures var calls := Refreshed(p, c, b, y, numSpec).calls;
      forall i :: 0 <= i < |calls| && (calls[i].Eos? || calls[i].Composition?) ==>
        calls[i].state.xn == y[..numSpec] &&
        calls[i].state.T == y[NetITemp(numSpec) - 1] &&
        calls[i].state.e == y[NetIEnuc(numSpec) - 1]
  {
    var calls := Refreshed(p, c, b, y, numSpec).calls;
    EosCallsOfThree(calls[0], calls[1], calls[2]);
    assert calls == [calls[0], calls[1], calls[2]];
  }

  /**
   * Every call in a run of `update_thermodynamics`, one per vector in `ys`,
   * is made on a vector of the right length and avoids the zero divisor,
   * judged against the burn state the previous calls left.
   */
  predicate RunDefined(p: Params, c: Collaborators, b: BurnView, ys: seq<seq<real>>, numSpec: nat)
    requires Conforms(c, numSpec)
    decreases |ys|
  {
    ys == [] ||
    (|ys[0]| == VodeNeqs(numSpec) && DriftTestSafe(p, b, ys[0][NetITemp(numSpec) - 1]) &&
     RunDefined(p, c, Refreshed(p, c, b, ys[0], numSpec).burn, ys[1..], numSpec))
  }

  /** `update_thermodynamics` called once per vector in `ys`, in order. */
  function RefreshRun(p: Params, c: Collaborators, b: BurnView, ys: seq<seq<real>>, numSpec: nat): (r: Refresh)
    requires Conforms(c, numSpec)
    requires RunDefined(p, c, b, ys, numSpec)
    ensures |r.calls| == 3 * |ys|
    ensures EosCalls(r.calls) <= |ys|
    ensures |r.burn.xn| == |b.xn|
    decreases |ys|
  {
    if ys == [] then Refresh(b, [])
    else
      var first := Refreshed(p, c, b, ys[0], numSpec);
      var rest := RefreshRun(p, c, first.burn, ys[1..], numSpec);
      EosCallsOfThree(first.calls[0], first.calls[1], first.calls[2]);
      assert first.calls == [first.calls[0], first.calls[1], first.calls[2]];
      EosCallsAppend(first.calls, rest.calls);
      Refresh(rest.burn, first.calls + rest.calls)
  }

  /**
   * With self-heating and `call_eos_in_rhs`, every call of
   * `update_thermodynamics` evaluates the EOS: n calls make n evaluations,
   * and the cached values are never updated.
   */
  lemma {:induction false} ForcedRunCallsEosEveryTime(p: Params, c: Collaborators, b: BurnView, ys: seq<seq<real>>, numSpec: nat)
    requires Conforms(c, numSpec) && KeepsIntegratorFields(c)
    requires forall k :: 0 <= k < |ys| ==> |ys[k]| == VodeNeqs(numSpec)
    requires p.call_eos_in_rhs && b.self_heat
    ensures RunDefined(p, c, b, ys, numSpec)
    ensures EosCalls(RefreshRun(p, c, b, ys, numSpec).calls) == |ys|
    ensures Cache(RefreshRun(p, c, b, ys, numSpec).burn) == Cache(b)
    decreases |ys|
  {
    if ys != [] {
      var first := Refreshed(p, c, b, ys[0], numSpec);
      RefreshForced(p, c, b, ys[0], numSpec);
      RefreshEosCalls(p, c, b, ys[0], numSpec);
      ForcedRunCallsEosEveryTime(p, c, first.burn, ys[1..], numSpec);
      EosCallsAppend(first.calls, RefreshRun(p, c, first.burn, ys[1..], numSpec).calls);
    }
  }

  /**
   * Without self-heating no call of `update_thermodynamics` evaluates the
   * EOS, whatever `call_eos_in_rhs` and the temperatures are, and the cached
   * values are never updated.
   */
  lemma {:induction false} UnheatedRunNeverCallsEos(p: Params, c: Collaborators, b: BurnView, ys: seq<seq<real>>, numSpec: nat)
    requires Conforms(c, numSpec) && KeepsIntegratorFields(c)
    requires forall k :: 0 <= k < |ys| ==> |ys[k]| == VodeNeqs(numSpec)
    requires !b.self_heat
    ensures RunDefined(p, c, b, ys, numSpec)
    ensures EosCalls(RefreshRun(p, c, b, ys, numSpec).calls) == 0
    ensures Cache(RefreshRun(p, c, b, ys, numSpec).burn) == Cache(b)
    decreases |ys|
  {
    if ys != [] {
      var first := Refreshed(p, c, b, ys[0], numSpec);
      RefreshCompositionOnly(p, c, b, ys[0], numSpec);
      RefreshEosCalls(p, c, b, ys[0], numSpec);
      UnheatedRunNeverCallsEos(p, c, first.burn, ys[1..], numSpec);
      EosCallsAppend(first.calls, RefreshRun(p, c, first.burn, ys[1..], numSpec).calls);
    }
  }

  /** The first half of `update_thermodynamics`: fill a local EOS state from the burn state and `y`. */
  method FillEosState(state: BurnState, vode: DvodeState, c: Collaborators) returns (eosState: EosState)
    requires state.Valid() && vode.Valid() && state.numSpec == vode.numSpec
    requires Conforms(c, vode.numSpec)
    ensures eosState == FilledEosState(c, state.View(), vode.y[..], vode.numSpec)
  {
    var ns := vode.numSpec;
    eosState := c.burnToEos(state.View());
    ghost var fromBurn := eosState;
    var n := 1;
    while n <= ns
      invariant 1 <= n <= ns + 1
      invariant |eosState.xn| == ns
      invariant forall k :: 0 <= k < n - 1 ==> eosState.xn[k] == vode.y[k]
      invariant eosState == fromBurn.(xn := eosState.xn)
    {
      eosState := eosState.(xn := eosState.xn[n - 1 := vode.y[n - 1]]);
      n := n + 1;
    }
    assert eosState.xn == vode.y[..ns];
    eosState := eosState.(T := vode.y[NetITemp(ns) - 1]);
    eosState := eosState.(e := vode.y[NetIEnuc(ns) - 1]);
  }

  /**
   * The middle of `update_thermodynamics`: call the EOS unconditionally
   * (`call_eos_in_rhs`), or when the temperature has drifted from T_old
   * (then also update the finite-difference derivatives and the cached
   * values), or else only recompute the composition.
   */
  method EvaluateThermodynamics(state: BurnState, p: Params, c: Collaborators, eosState: EosState)
      returns (out: EosState, ghost call: Call)
    requires Conforms(c, |eosState.xn|)
    requires DriftTestSafe(p, state.View(), eosState.T)
    modifies state`dcvdT, state`dcpdT, state`T_old, state`cv_old, state`cp_old
    ensures Evaluation(out, state.View(), call) == Evaluated(p, c, old(state.View()), eosState)
  {
    if p.call_eos_in_rhs && state.self_heat {
      call := Eos(EosInputRT, eosState);
      out := c.eos(EosInputRT, eosState);
    } else if Abs(eosState.T - state.T_old) > p.dT_crit * eosState.T && state.self_heat {
      call := Eos(EosInputRT, eosState);
      out := c.eos(EosInputRT, eosState);
      state.dcvdT := (out.cv - state.cv_old) / (out.T - state.T_old);
      state.dcpdT := (out.cp - state.cp_old) / (out.T - state.T_old);
      state.T_old := out.T;
      state.cv_old := out.cv;
      state.cp_old := out.cp;
    } else {
      call := Composition(eosState);
      out := c.composition(eosState);
    }
  }

  /**
   * Fill an EOS state from the burn state and the current `y`, refresh the
   * thermodynamics by the three-way decision, and copy the result back into
   * the burn state.
   */
  method UpdateThermodynamics(state: BurnState, vode: DvodeState, p: Params, c: Collaborators)
      returns (ghost calls: seq<Call>)
    requires state.Valid() && vode.Valid() && state.numSpec == vode.numSpec
    requires Separate(state, vode)
    requires Conforms(c, vode.numSpec)
    requires DriftTestSafe(p, state.View(), vode.y[NetITemp(vode.numSpec) - 1])
    modifies state, state.xn
    ensures state.View() == Refreshed(p, c, old(state.View()), vode.y[..], vode.numSpec).burn
    ensures calls == Refreshed(p, c, old(state.View()), vode.y[..], vode.numSpec).calls
    ensures unchanged(vode, vode.y)
  {
    ghost var b := state.View();
    var eosState := FillEosState(state, vode, c);
    ghost var call;
    eosState, call := EvaluateThermodynamics(state, p, c, eosState);
    calls := [BurnToEos(b), call, EosToBurn(eosState, state.View())];
    state.Assign(c.eosToBurn(eosState, state.View()));
  }
}
