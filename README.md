# Nature Remo E sensors: energy conversion and entity discovery

This project models the sensor platform of the Nature Remo Home Assistant
integration (`sensor.py`). It covers the parts of that file that compute something:

- **Echonet Lite registers** (`echonet.dfy`, module `EchonetLite`). A smart
  meter reports a list of `{epc, val}` properties. The cumulative sensors
  turn that list into a register dictionary keyed by EPC, where a duplicated
  EPC keeps its last value. The power sensor reports the value of the first
  property with EPC 231, and Python raises `StopIteration` when there is none.
- **Cumulative energy** (`energy.dfy`, module `CumulativeEnergy`).
  `calculate_energy` computes reading × coefficient × unit multiplier, with
  these inputs:
  - the reading is EPC 224 (consumed) or EPC 227 (returned), default 0;
  - the coefficient is EPC 211, default 1;
  - the unit multiplier is `UNIT_TABLE` indexed by `int()` of EPC 225,
    default code 0, with multiplier 1 for a code outside the table.

  Failures are caught and give `None`. `epc_exists` gives availability,
  independently of the conversion.
- **Python floats** (`numbers.dfy`, module `PyFloat`). Finite values are
  exact reals, and infinities and NaN are kept. This captures how `*`
  propagates non-finite values and when `int()` raises.
- **Names and unique ids** (`naming.dfy`, module `Naming`). Each sensor's
  display name is `str.strip()` of the base name plus a suffix. The unique
  ids are the cumulative sensors' `-cumulative-energy-consumed` and
  `-cumulative-energy-returned` and the illuminance sensor's `-illuminance`.
- **Platform setup** (`discovery.dfy`, module `Discovery`).
  `async_setup_platform` is modelled imperatively, as the source's nested
  loops.
  - It appends three entities per `EL_SMART_METER` appliance.
  - It then appends one entity per `te`, `hu` or `il` event key of every
    device that no appliance is attached to.

  Each loop is proved against a recursive specification function, and the
  ordering and membership properties are proved about those functions.

Where an operation can fail in Python, the model returns `Option`. `None`
stands for the exception caught by `calculate_energy`, the
`StopIteration` of `next(...)`, or a missing `discovery_info`.

## Model

| member | source | states |
|---|---|---|
| PyFloat.Mul | sensor.py:120 | the product is finite exactly when both factors are, and is then their real product; it is NaN exactly when a factor is NaN or an infinity meets zero; an infinite product carries the sign rule |
| PyFloat.TruncateTowardZero | sensor.py:118 | `int()` of a real: for x ≥ 0 the greatest integer n ≤ x, for x < 0 the least integer n ≥ x (truncation toward zero) |
| PyFloat.TruncationIsUnique | sensor.py:118 | those bounds leave exactly one integer, so they define `int()` of a finite value |
| PyFloat.Int | sensor.py:118 | `int(x)` fails exactly on infinity and NaN; a finite value gives the integer within one unit of it on the side of zero |
| EchonetLite.RegisterMap | sensor.py:133 | the dictionary's keys are exactly the EPCs listed, and the last entry's value is stored under its EPC |
| EchonetLite.RegisterMapLastWins | sensor.py:133 | every EPC maps to the value of the last entry carrying it |
| EchonetLite.ShadowedEntryIsIgnored | sensor.py:133 | removing an entry that a later entry with the same EPC overrides leaves the dictionary unchanged |
| EchonetLite.InstantaneousPower | sensor.py:63-65 | the power state is missing exactly when no entry has EPC 231; otherwise it is the value of the first such entry in list order |
| CumulativeEnergy.UnitMultiplierIsPowerOfTen | sensor.py:102-119 | `UNIT_TABLE.get(code, 1)`, as `UnitMultiplier` reads it: codes 0–4 scale by 10^-code, codes 10–12 by 10^(code-9), every other code by 1 |
| CumulativeEnergy.CalculateEnergy | sensor.py:114-123 | the result is `None` exactly when `int()` of the unit code fails; it is finite exactly when reading and coefficient are finite or absent; it then equals reading × coefficient × multiplier of the truncated unit code, with defaults 0, 1 and 0 |
| CumulativeEnergy.EnergyAvailable | sensor.py:126-141 | `epc_exists` on the register map: a cumulative sensor is available exactly when its EPC occurs somewhere in the property list |
| CumulativeEnergy.AbsentRegisterReadsZero | sensor.py:114-127 | with the selected register absent, a finite or absent coefficient and a finite or absent unit code, the state is 0 kWh and not `None`, while the EPC is reported missing |
| CumulativeEnergy.AbsentRegisterWithInfiniteCoefficient | sensor.py:116-120 | with the register absent, an infinite coefficient and a finite or absent unit code, the state is NaN (0 × inf) |
| CumulativeEnergy.AvailabilityIgnoresConversionFailure | sensor.py:118-127 | a present register with a non-finite unit code gives a `None` state but an available sensor |
| CumulativeEnergy.ConversionExamples | sensor.py:114-120 | `{211: 2, 224: 150, 225: 1}` gives 30 consumed, `{227: 80, 225: 2}` gives 0.8 returned, `{227: 80}` gives 80 returned |
| CumulativeEnergy.UnitCodeIsTruncated | sensor.py:118-119 | the unit code 2.9 selects multiplier 0.01 and -0.5 selects multiplier 1 (code 0) |
| CumulativeEnergy.EnergyStateFailsOnUnitCode | sensor.py:129-134 | the sensor's state is `None` exactly when the last EPC 225 entry of the property list holds a non-finite value |
| CumulativeEnergy.ShadowedEntryDoesNotAffectSensor | sensor.py:129-141 | an entry overridden by a later one with the same EPC changes neither the sensor's state nor its availability |
| Naming.Strip | sensor.py:55 | `strip()` returns a slice of its argument, with only whitespace cut on both sides, that neither starts nor ends with whitespace |
| Naming.StripIgnoresSurroundingSpace | sensor.py:55 | whitespace added before or after a string does not change what `strip()` keeps |
| Naming.NamesIgnoreSurroundingSpace | sensor.py:53-224 | whitespace around the base name shows in none of the power, energy, temperature, humidity and illuminance names |
| Naming.Lower | sensor.py:157 | `lower()` keeps the length, leaves no capital letter, turns each capital into its small letter and keeps every other character |
| Naming.LowerIsIdempotent | sensor.py:157 | lower-casing a lower-cased string changes nothing |
| Naming.CumulativeUniqueId | sensor.py:155-157 | the unique id is the appliance id, `-cumulative-energy-`, then `consumed` or `returned` |
| Naming.CumulativeUniqueIdIsInjective | sensor.py:155-173 | two cumulative sensors share a unique id only when they have the same appliance and the same kind |
| Naming.IlluminanceUniqueIdIsDistinct | sensor.py:226-229 | the illuminance id determines the device and never equals a cumulative sensor's id |
| Naming.SmartMeterNamesAreDistinct | sensor.py:53-100 | a smart meter's power, consumed and returned sensors get three different names |
| Naming.DeviceNamesAreDistinct | sensor.py:179-224 | a device's temperature, humidity and illuminance sensors get three different names |
| Discovery.SetupPlatform | sensor.py:17-46 | without discovery information nothing is added; otherwise one call adds the smart-meter entities followed by the device entities |
| Discovery.AddDeviceSensors | sensor.py:34-44 | the device loop appends the event sensors of each device not attached to an appliance, in device order |
| Discovery.AddEventSensors | sensor.py:38-44 | the key loop appends one sensor per `te`, `hu` or `il` key, in key order |
| Discovery.SmartMeterIds | sensor.py:28-29 | an id is listed exactly when some appliance with that id has type `EL_SMART_METER` |
| Discovery.LinkedDeviceIds | sensor.py:36 | an id is in the list exactly when some appliance, whatever its type, is attached to that device |
| Discovery.SensorKeys | sensor.py:39-44 | the keys kept are exactly the `te`, `hu` and `il` keys of the device |
| Discovery.EventSensorsLayout | sensor.py:38-44 | a device gives exactly one entity per `te`, `hu` or `il` key, the k-th entity being that of the k-th such key |
| Discovery.ApplianceSensorsLayout | sensor.py:28-32 | the appliance entities are three per smart meter, in appliance order: power, consumed energy, returned energy |
| Discovery.ApplianceSensorsMembership | sensor.py:28-32 | an appliance entity exists exactly for each smart-meter sensor of an `EL_SMART_METER` appliance |
| Discovery.DeviceSensorsMembership | sensor.py:34-44 | a device entity exists exactly for each `te`, `hu` or `il` key of a device not in the linked list |
| Discovery.EventSensorsMembership | sensor.py:38-44 | a device's entities are exactly those of its recognised keys |
| Discovery.DeviceSensorsOfDiscover | sensor.py:34-44 | every device entity belongs to a device that no appliance is attached to, smart meter or not, and that has the matching event key |
| Discovery.DiscoverMembership | sensor.py:26-46 | the list passed to `async_add_entities` holds exactly the smart meters' sensors and the event sensors of devices that no appliance is attached to |
| Discovery.AppliancesComeFirst | sensor.py:26-46 | in the list passed to `async_add_entities`, every appliance entity precedes every device entity |

## Left out

- Home Assistant plumbing is not modelled: `SensorEntity`, listener registration, `async_update`, `async_on_remove` and `async_write_ha_state` (sensor.py:79-90, sensor.py:159-163). It is asynchronous framework code with no logic of its own.
- Logging is not modelled, nor are the getters for units, device classes and state classes: they return framework constants.
- The temperature, humidity and illuminance `state` getters are left out: each is a direct dictionary lookup (sensor.py:191-192, sensor.py:210-211, sensor.py:234-235).
- `NatureRemoBase`, `NatureRemoDeviceBase` and `DOMAIN` are defined in the package's `__init__.py`, which is not part of this model.
  - The base name, the appliance id and the device record those classes provide are inputs here.
  - So are the coordinator's appliance and device collections, in the iteration order of their dictionaries.
  - The unique ids of the power, temperature and humidity sensors come from those base classes, so they are not modelled.
- Parsing is not modelled: `float()` of the API's value strings and `int()` of the EPC field (sensor.py:133). Values are taken as already numeric.
  - A value that `float()` rejects would raise out of the `state` and `available` properties, because the comprehension runs outside the `try` block of `calculate_energy`. It would not give a `None` state.
- The power sensor does no parsing either: it compares the raw `epc` field with 231 and returns the raw `val` (sensor.py:63-64), without the `int()` and `float()` of the register map. Both are taken as numeric here, so a string `"231"` matching nothing is not modelled.
- Dictionary lookups that raise `KeyError` are not modelled: a missing appliance, or a missing `smart_meter`, `device`, `id`, `type` or `newest_events` key. Those records are assumed well formed.
- The distinction between Python's `int` and `float` results is not modelled. For example, `0 * 1 * 1` is the int `0`, not `0.0`. Numeric values are compared as numbers.
- PyFloat.Mul: does not model IEEE-754 rounding, overflow of a large finite product to infinity, or the sign of zero. A finite product is the exact real product.
- Naming.Lower: maps only the ASCII letters. It is applied only to the constants `Consumed` and `Returned`, where full Unicode case mapping gives the same result.
- There is no separate returned-energy formula and no calculation-mode attribute in the code. Returned energy uses the same conversion as consumed energy, with EPC 227.
