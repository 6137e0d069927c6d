# VODE integrator state: transfer, sanitisation and thermodynamic refresh

This project models, in Dafny, the state-handling routines that surround the
VODE (variable-order BDF) integrator of a nuclear reaction network. It covers:

- the integrator state record `dvode_t`;
- the copy of a zone's mass fractions, temperature and energy from its burn
  state into the integration vector `y`, and back;
- proportional renormalisation of the mass fractions;
- `clean_state`, which clamps the mass fractions and the temperature into
  their physical ranges;
- `update_thermodynamics`, which decides per right-hand-side evaluation
  between a full equation-of-state (EOS) call, a full call that also
  refreshes the cached specific-heat derivatives, and a composition-only
  update.

Layout of `y`, as in the source (1-based): species `1..NumSpec`, then the
temperature at `net_itemp = NumSpec + 1`, then the energy at
`net_ienuc = NumSpec + 2`, so `VODE_NEQS = NumSpec + 2`. Entry `y(i)` lives at
array position `i - 1`. `NumSpec >= 1` is a field of each state object.
`net_itemp` and `net_ienuc` are defined by the network, which is not part of
this model. The values used here are the ones consistent with `VODE_NEQS`.

Modules:

- `Species` (species.dfy): the left-to-right sum, division by a number, and
  renormalisation of a vector of mass fractions, with induction lemmas.
- `EosType` (eos_type.dfy): the EOS record `eos_t` as a value, and the input
  modes.
- `BurnType` (burn_type.dfy): the burn state `burn_t`, restricted to the
  fields these routines touch. It is a class updated in place.
- `VodeType` (vode_type.dfy): the constants, the `DvodeState` class, and the
  routines as methods with loops. `VodeToBurn` and `BurnToVode` state the
  copied entries directly and are tied together by the round-trip methods.
  The other methods are proved against specification functions:
  `RenormalizeSpecies` against `Renormalized`, `CleanState` against
  `Cleaned`, `FillEosState` against `FilledEosState`,
  `EvaluateThermodynamics` against `Evaluated` and `UpdateThermodynamics`
  against `Refreshed`. The lemmas state what the routines promise.

Numbers are exact reals: `real` stands for `amrex::Real`. The run-time
configuration is passed as a `Params` value. It holds
`renormalize_abundances`, `SMALL_X_SAFE`, `MAX_TEMP`, `EOSData::mintemp`,
`call_eos_in_rhs` and `dT_crit`.

The routines that `update_thermodynamics` calls are arrow-typed fields of a
`Collaborators` value, so they are uninterpreted: `burn_to_eos`, `eos`,
`composition` and `eos_to_burn`. Their interface assumptions form the
predicate `Conforms`:

- an EOS state holds `NumSpec` mass fractions;
- an evaluation with density and temperature as input (`eos_input_rt`)
  returns the temperature it was given;
- `eos_to_burn` keeps the size of the species array.

`UpdateThermodynamics` returns a ghost trace of the calls it made. The trace
records which branch ran, the input mode, and the EOS state each call saw.

Without `renormalize_abundances`, `clean_state` leaves every mass fraction
in `[SMALL_X_SAFE, 1]` and is idempotent. With `renormalize_abundances` set,
it does neither: dividing by a clamped sum above one can push a fraction
below the floor, and a second cleaning then moves it again
(`RenormalizedCleanBreaksFloor`, `RenormalizedCleanNotIdempotent` give a
concrete input). What the source comment promises in that mode ("positive
and less than or equal to 1") is proved in `CleanRenormalizes`.

`update_thermodynamics` divides by `T - T_old` only in its drift branch,
which runs when the zone self-heats, `call_eos_in_rhs` is off and
`abs(T - T_old) > dT_crit * T`. That test passes with a zero divisor only
when `T == T_old` and `dT_crit * T < 0`. The predicate `DriftTestSafe`
excludes exactly that case and constrains no other call.

## Model

| member | source | states |
|---|---|---|
| `VodeType.IndexLayout` | integration/VODE/vode_type.H:14 | the species, `net_itemp` and `net_ienuc` slots are disjoint, in that order, and end at `VODE_NEQS = NumSpec + 2`; a vector of that length is exactly `y(1..NumSpec) ++ [y(net_itemp), y(net_ienuc)]` (both round trips rely on this) |
| `VodeType.DvodeState.constructor` | integration/VODE/vode_type.H:34-83 | a fresh integrator state whose arrays have the declared dimensions (`VODE_NEQS`, `VODE_LMAX`, 5), with `y` distinct from every other array |
| `VodeType.VodeToBurn` | integration/VODE/vode_type.H:161-171 | the burn state's `xn` equals `y(1..NumSpec)`, `T` equals `y(net_itemp)`, `e` equals `y(net_ienuc)`; only `xn`, `T` and `e` may change |
| `VodeType.BurnToVode` | integration/VODE/vode_type.H:175-185 | `y(1..NumSpec)` equals `xn`, `y(net_itemp)` equals `T`, `y(net_ienuc)` equals `e`; every other field of the integrator state is unchanged |
| `VodeType.BurnRoundTrip` | integration/VODE/vode_type.H:161-185 | copying burn -> integrator -> burn leaves the whole burn state as it was, and `y` is exactly `xn ++ [T, e]` |
| `VodeType.VodeRoundTrip` | integration/VODE/vode_type.H:161-185 | copying integrator -> burn -> integrator leaves `y` exactly as it was |
| `Species.Sum` | integration/VODE/vode_type.H:191-195 | the sum the loop accumulates from `y(1)` to `y(NumSpec)`; a vector of non-negative entries has a non-negative sum |
| `Species.Divided` | integration/VODE/vode_type.H:197-199 | every entry of the result times the divisor gives back the original entry |
| `Species.SumDivided` | integration/VODE/vode_type.H:191-199 | dividing every entry by `c` divides the sum by `c` |
| `Species.Renormalized` | integration/VODE/vode_type.H:189-200 | every entry times the old sum gives the old entry, and the entries sum to one |
| `VodeType.RenormalizeSpecies` | integration/VODE/vode_type.H:189-200 | given a nonzero species sum, the species become `Renormalized` of the old species (each divided by the old sum, so they sum to one); `y(net_itemp)`, `y(net_ienuc)` and all other fields are unchanged |
| `Species.SumAtLeast` | integration/VODE/vode_type.H:210-212 | entries all at least `lo` sum to at least `n * lo` |
| `Species.EntryAtMostSum` | integration/VODE/vode_type.H:207-218 | in a vector of non-negative entries, no entry exceeds the sum |
| `VodeType.ClampFraction` | integration/VODE/vode_type.H:211 | the result is at least `SMALL_X_SAFE`; in `[SMALL_X_SAFE, 1]` when `SMALL_X_SAFE <= 1`; equal to the input when the input is already in range |
| `VodeType.ClampTemperature` | integration/VODE/vode_type.H:222 | the result is in `[mintemp, MAX_TEMP]` when `mintemp <= MAX_TEMP`, and equal to the input when the input is already in range |
| `VodeType.ClampedSpecies` | integration/VODE/vode_type.H:210-212 | every clamped fraction is at least `SMALL_X_SAFE` and at most 1 when the floor is at most 1; in-range fractions are kept |
| `VodeType.ClampedSumBound` | integration/VODE/vode_type.H:210-218 | the clamped sum is at least `NumSpec * SMALL_X_SAFE`, hence positive, so the renormalising division is defined |
| `VodeType.Cleaned` | integration/VODE/vode_type.H:204-224 | the integration vector after `clean_state`; same length as the input |
| `VodeType.CleanState` | integration/VODE/vode_type.H:204-224 | `y` becomes `Cleaned(old y)`; no other field of the integrator state changes |
| `VodeType.CleanClampsSpecies` | integration/VODE/vode_type.H:210-211 | without renormalisation and with `0 < SMALL_X_SAFE <= 1`, every fraction ends in `[SMALL_X_SAFE, 1]`, and a fraction already there is unchanged |
| `VodeType.CleanIdempotent` | integration/VODE/vode_type.H:204-224 | without renormalisation, cleaning twice gives the same vector as cleaning once |
| `VodeType.CleanRenormalizes` | integration/VODE/vode_type.H:207-218 | with renormalisation, the fractions are strictly positive, at most one, and sum to one |
| `VodeType.CleanTemperatureAndEnergy` | integration/VODE/vode_type.H:220-222 | in both modes the temperature ends in `[mintemp, MAX_TEMP]` when `mintemp <= MAX_TEMP`; an in-range temperature is kept; `y(net_ienuc)` is never modified |
| `VodeType.RenormalizedCleanBreaksFloor` | integration/VODE/vode_type.H:207-218 | with renormalisation, `[1, 1, 0.1]` and `SMALL_X_SAFE = 0.1` end with a third fraction (1/21) below the floor |
| `VodeType.RenormalizedCleanNotIdempotent` | integration/VODE/vode_type.H:204-224 | with renormalisation, cleaning that state a second time changes it |
| `VodeType.FilledEosState` | integration/VODE/vode_type.H:235-243 | the local EOS state takes `xn`, `T` and `e` from `y`; its density and specific heats come from `burn_to_eos` |
| `VodeType.FillEosState` | integration/VODE/vode_type.H:235-243 | the loop fills the local EOS state exactly as `FilledEosState` describes |
| `VodeType.Evaluated` | integration/VODE/vode_type.H:253-275 | the EOS is called (with `eos_input_rt`, on the filled state, keeping its temperature) exactly when `self_heat` and (`call_eos_in_rhs` or drift), otherwise only `composition`; the burn state handed on differs from the old one only in the cached values, and those change only on the drift branch |
| `VodeType.Refreshed` | integration/VODE/vode_type.H:228-279 | one call is `burn_to_eos`, then one EOS or composition call on the `xn` and `T` of `y`, then `eos_to_burn`, whose result is the new burn state; the species count is kept |
| `VodeType.RefreshRun` | integration/VODE/vode_type.H:228-279 | n successive calls make 3n collaborator calls, at most n of them EOS evaluations, and keep the species count |
| `VodeType.EvaluateThermodynamics` | integration/VODE/vode_type.H:253-275 | the EOS output, the burn state handed on, and the call made are exactly `Evaluated` of the old burn state |
| `VodeType.UpdateThermodynamics` | integration/VODE/vode_type.H:228-279 | the new burn state and the call trace are exactly `Refreshed` of the old burn state and `y`; the integrator state and `y` are not modified |
| `VodeType.RefreshForced` | integration/VODE/vode_type.H:253-257 | with `self_heat` and `call_eos_in_rhs`: one EOS call with `eos_input_rt`, and the burn state goes to `eos_to_burn` with its cached values untouched |
| `VodeType.RefreshOnDrift` | integration/VODE/vode_type.H:258-270 | with `self_heat`, no forced call, and `abs(T - T_old) > dT_crit * T`: one EOS call with `eos_input_rt`; the divisor `T - T_old` is nonzero; `dcvdT * (T - T_old) = cv - cv_old` and likewise for `cp`; `T_old`, `cv_old`, `cp_old` take the new `T`, `cv`, `cp` |
| `VodeType.RefreshCompositionOnly` | integration/VODE/vode_type.H:271-275 | without `self_heat`, or with no forced call and no drift: only the composition is recomputed, no EOS call, cached values untouched |
| `VodeType.RefreshEosCalls` | integration/VODE/vode_type.H:239-275 | the EOS is called once exactly when `self_heat` and (`call_eos_in_rhs` or drift), otherwise never; every EOS call uses `eos_input_rt`; every EOS or composition call sees the `xn`, `T`, `e` of `y` |
| `VodeType.ForcedRunCallsEosEveryTime` | integration/VODE/vode_type.H:253-257 | with `self_heat` and `call_eos_in_rhs`, every run of refreshes is defined whatever the temperatures and `dT_crit`, n successive refreshes make exactly n EOS calls, and they never update the cached values (given that `eos_to_burn` keeps them) |
| `VodeType.UnheatedRunNeverCallsEos` | integration/VODE/vode_type.H:253-275 | without `self_heat`, every run of refreshes is defined, makes no EOS call whatever `call_eos_in_rhs`, `dT_crit` and the temperatures, and never updates the cached values (given that `eos_to_burn` keeps them) |
| `BurnType.BurnState.Assign` | integration/VODE/vode_type.H:277 | the effect of `eos_to_burn`: the burn state becomes exactly the view `eos_to_burn` returned |

## Left out

- `print_state` (integration/VODE/vode_type.H:85-157): console output only.
- The BDF step controller, Newton corrector, Jacobian manager and Nordsieck
  rescaling are not in the modelled file. Only their fields and constants
  (`CCMXJ`, `HMIN`, `HMXI`, `VODE_MAXORD`, `max_steps_between_jacobian_evals`)
  appear, and they are never read.
- The sparse Jacobian layout (`NETWORK_SOLVER`) and the GPU build without
  `jac_save`. The model has the dense, host layout only.
- The bodies of `eos`, `composition`, `burn_to_eos` and `eos_to_burn`. They
  are uninterpreted parameters, constrained only by `Conforms`.
- The fields of `burn_t` other than density, `xn`, `T`, `e`, `self_heat` and
  the five cached values. The header that declares `burn_t` is not part of
  this model.
- The `eos_iter` enumeration and the `EXTRA_THERMO` fields of `eos_t`.
- Floating-point rounding, NaN and infinities: "sums to one" holds in exact
  arithmetic only. `UROUND` is given for a double-precision build.
- VodeType.RenormalizeSpecies: requires a nonzero species sum. The source
  would divide by zero and produce non-finite values instead.
- VodeType.CleanState: in renormalising mode, requires
  `SMALL_X_SAFE > 0`. That keeps the clamped sum away from zero.
- VodeType.UpdateThermodynamics: requires `DriftTestSafe`. That excludes
  only a self-heating, non-forced call with `T == T_old` and
  `dT_crit * T < 0`, where the drift test passes and the source divides by
  zero. `Evaluated`, `Refreshed`, `EvaluateThermodynamics`,
  `RefreshEosCalls` and `RefreshOnDrift` carry the same requirement, and
  `RefreshRun` requires it at every step (`RunDefined`).
- VodeType.UpdateThermodynamics: that `T_old` becomes `y(net_itemp)` relies
  on the EOS returning the input temperature in `eos_input_rt` mode.
- VodeType.ForcedRunCallsEosEveryTime: the cache and call-count facts over
  several calls assume `eos_to_burn` keeps `self_heat` and the cached values
  (`KeepsIntegratorFields`). The trace shows what each single call hands to
  `eos_to_burn` without that assumption.
- VodeType.UnheatedRunNeverCallsEos: the same assumption as above.
