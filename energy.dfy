/** The cumulative energy sensors: conversion of a raw Echonet Lite
    cumulative register to kWh, and the availability rule. */
module CumulativeEnergy {
  import opened Wrappers
  import opened PyFloat
  import opened EchonetLite

  /** The two cumulative sensors: `NatureRemoEnergySensor` and
      `NatureRemoReturnedEnergySensor`. */
  datatype EnergyKind = Consumed | Returned

  /** The class attribute `_epc`. */
  function Epc(kind: EnergyKind): int {
    match kind
    case Consumed => EPC_CUMULATIVE_CONSUMED
    case Returned => EPC_CUMULATIVE_RETURNED
  }

  /** The class attribute `_sensor_type`. */
  function SensorType(kind: EnergyKind): string {
    match kind
    case Consumed => "Consumed"
    case Returned => "Returned"
  }

  /** `UNIT_TABLE`: the multiplier that turns one unit of the cumulative
      register into kWh, keyed by the unit code of EPC 225. */
  const UNIT_TABLE: map<int, real> := map[
    0 := 1.0, 1 := 0.1, 2 := 0.01, 3 := 0.001, 4 := 0.0001,
    10 := 10.0, 11 := 100.0, 12 := 1000.0]

  /** `UNIT_TABLE.get(unit_code, 1)`. */
  function UnitMultiplier(code: int): real {
    if code in UNIT_TABLE then UNIT_TABLE[code] else 1.0
  }

  function Pow10(n: nat): (p: real)
    ensures p >= 1.0
  {
    if n == 0 then 1.0 else 10.0 * Pow10(n - 1)
  }

  /** The table read as powers of ten: codes 0 to 4 scale down by 10^code,
      codes 10 to 12 scale up by 10^(code - 9), and every other code,
      negative ones included, leaves the reading as it is. */
  lemma UnitMultiplierIsPowerOfTen(code: int)
    ensures 0 <= code <= 4 ==> UnitMultiplier(code) * Pow10(code) == 1.0
    ensures 10 <= code <= 12 ==> UnitMultiplier(code) == Pow10(code - 9)
    ensures !(0 <= code <= 4 || 10 <= code <= 12) ==> UnitMultiplier(code) == 1.0
  {
    if 0 <= code <= 4 || 10 <= code <= 12 {
      assert code in {0, 1, 2, 3, 4, 10, 11, 12};
    }
  }

  /** `props.get(key, default)`. */
  function Get(props: Registers, key: int, default: Float): Float {
    if key in props then props[key] else default
  }

  /** The register `key` is absent or holds a finite number. */
  predicate FiniteOrAbsent(props: Registers, key: int) {
    key !in props || props[key].Finite?
  }

  /** The numeric reading of a register that is absent or finite, with the
      default `calculate_energy` uses when it is absent. */
  function Reading(props: Registers, key: int, default: real): real
    requires FiniteOrAbsent(props, key)
  {
    if key in props then props[key].r else default
  }

  /** `calculate_energy(props, epc)`: reading × coefficient (EPC 211,
      default 1) × the multiplier of the unit code (EPC 225, default 0,
      truncated by `int()`), with `None` when the `try` block raises. It
      raises exactly when `int()` rejects a non-finite unit code; a
      non-finite reading or coefficient yields a non-finite result, not
      `None`. */
  function CalculateEnergy(props: Registers, epc: int): (energy: Option<Float>)
    ensures energy.None? <==> !FiniteOrAbsent(props, EPC_UNIT)
    ensures energy.Some? ==>
      (energy.value.Finite? <==> FiniteOrAbsent(props, epc) && FiniteOrAbsent(props, EPC_COEFFICIENT))
    ensures FiniteOrAbsent(props, epc) && FiniteOrAbsent(props, EPC_COEFFICIENT) && FiniteOrAbsent(props, EPC_UNIT) ==>
      energy == Some(Finite(Kwh(Reading(props, epc, 0.0), Reading(props, EPC_COEFFICIENT, 1.0),
                                UnitMultiplier(TruncateTowardZero(Reading(props, EPC_UNIT, 0.0))))))
  {
    var value := Get(props, epc, Finite(0.0));
    var coefficient := Get(props, EPC_COEFFICIENT, Finite(1.0));
    var unitCode := Int(Get(props, EPC_UNIT, Finite(0.0)));
    if unitCode.None? then None
    else
      var unit := UnitMultiplier(unitCode.value);
      var scaled := Mul(value, coefficient);
      var product := Mul(scaled, Finite(unit));
      MulOfFinite(scaled, Finite(unit));
      MulOfFinite(value, coefficient);
      assert FiniteOrAbsent(props, epc) ==> value.r == Reading(props, epc, 0.0);
      assert FiniteOrAbsent(props, EPC_COEFFICIENT) ==> coefficient.r == Reading(props, EPC_COEFFICIENT, 1.0);
      assert unitCode.value == TruncateTowardZero(Reading(props, EPC_UNIT, 0.0));
      assert value.Finite? && coefficient.Finite? ==> product == Finite(Kwh(value.r, coefficient.r, unit));
      Some(product)
  }

  /** The kWh value of a finite reading: reading × coefficient × unit
      multiplier, multiplied left to right as Python does. */
  function Kwh(raw: real, coefficient: real, unit: real): real {
    raw * coefficient * unit
  }

  /** `epc_exists(props, epc)`. */
  predicate EpcExists(props: Registers, epc: int) {
    epc in props
  }

  /** The `state` property of a cumulative sensor, on the appliance's
      property list. */
  function EnergyState(ps: seq<Property>, kind: EnergyKind): Option<Float> {
    CalculateEnergy(RegisterMap(ps), Epc(kind))
  }

  /** The `available` property of a cumulative sensor: the property list
      lists the sensor's EPC, whatever the conversion gives. */
  function EnergyAvailable(ps: seq<Property>, kind: EnergyKind): (available: bool)
    ensures available <==> exists i :: 0 <= i < |ps| && ps[i].epc == Epc(kind)
  {
    EpcExists(RegisterMap(ps), Epc(kind))
  }

  /** An absent cumulative register reads as 0 kWh, not `None`, while the
      sensor reports itself unavailable. This needs a finite coefficient:
      Python's 0 × infinity is NaN. */
  lemma AbsentRegisterReadsZero(props: Registers, epc: int)
    requires epc !in props
    requires FiniteOrAbsent(props, EPC_COEFFICIENT) && FiniteOrAbsent(props, EPC_UNIT)
    ensures CalculateEnergy(props, epc) == Some(Finite(0.0))
    ensures !EpcExists(props, epc)
  {
  }

  /** With an infinite coefficient an absent register reads as NaN. */
  lemma AbsentRegisterWithInfiniteCoefficient(props: Registers, epc: int)
    requires epc !in props && epc != EPC_COEFFICIENT
    requires EPC_COEFFICIENT in props && props[EPC_COEFFICIENT].Inf?
    requires FiniteOrAbsent(props, EPC_UNIT)
    ensures CalculateEnergy(props, epc) == Some(NaN)
  {
  }

  /** A register present with a non-finite unit code makes the conversion
      fail while the sensor stays available: the two checks are
      independent. */
  lemma AvailabilityIgnoresConversionFailure(props: Registers, epc: int)
    requires epc in props && epc != EPC_UNIT
    requires EPC_UNIT in props && !props[EPC_UNIT].Finite?
    ensures CalculateEnergy(props, epc).None? && EpcExists(props, epc)
  {
  }

  /** Three worked conversions: `{211: 2, 224: 150, 225: 1}` gives
      30 kWh consumed, `{227: 80, 225: 2}` gives 0.8 kWh returned, and
      `{227: 80}` gives 80 kWh returned. */
  lemma ConversionExamples()
    ensures CalculateEnergy(map[211 := Finite(2.0), 224 := Finite(150.0), 225 := Finite(1.0)], 224)
            == Some(Finite(30.0))
    ensures CalculateEnergy(map[227 := Finite(80.0), 225 := Finite(2.0)], 227) == Some(Finite(0.8))
    ensures CalculateEnergy(map[227 := Finite(80.0)], 227) == Some(Finite(80.0))
  {
  }

  /** A unit code is truncated toward zero before the lookup: 2.9 selects
      code 2 and -0.5 selects code 0. */
  lemma UnitCodeIsTruncated(props: Registers, epc: int)
    requires props == map[epc := Finite(5.0), EPC_UNIT := Finite(2.9)] || props == map[epc := Finite(5.0), EPC_UNIT := Finite(-0.5)]
    requires epc != EPC_UNIT && epc != EPC_COEFFICIENT
    ensures props[EPC_UNIT] == Finite(2.9) ==> CalculateEnergy(props, epc) == Some(Finite(0.05))
    ensures props[EPC_UNIT] == Finite(-0.5) ==> CalculateEnergy(props, epc) == Some(Finite(5.0))
  {
    assert TruncateTowardZero(2.9) == 2;
    assert TruncateTowardZero(-0.5) == 0;
  }

  /** The sensor-level conversion fails exactly when the last entry with
      EPC 225 in the property list holds a non-finite value. */
  lemma {:induction false} EnergyStateFailsOnUnitCode(ps: seq<Property>, kind: EnergyKind)
    ensures EnergyState(ps, kind).None? <==>
      exists i :: IsLastOfItsEpc(ps, i) && ps[i].epc == EPC_UNIT && !ps[i].val.Finite?
  {
    var props := RegisterMap(ps);
    if EPC_UNIT in props {
      var x := LastIndexOf(ps, EPC_UNIT);
      RegisterMapLastWins(ps, x);
      assert forall i :: IsLastOfItsEpc(ps, i) && ps[i].epc == EPC_UNIT ==> i == x;
    }
  }

  /** A property-list entry that a later entry with the same EPC overrides
      affects neither the state nor the availability of a cumulative
      sensor. */
  lemma ShadowedEntryDoesNotAffectSensor(ps: seq<Property>, i: nat, j: nat, kind: EnergyKind)
    requires i < j < |ps| && ps[i].epc == ps[j].epc
    ensures EnergyState(ps[..i] + ps[i + 1..], kind) == EnergyState(ps, kind)
    ensures EnergyAvailable(ps[..i] + ps[i + 1..], kind) == EnergyAvailable(ps, kind)
  {
    ShadowedEntryIsIgnored(ps, i, j);
  }
}
