/** Platform setup: which sensor entities the integration creates from the
    coordinator's appliances and devices, and in which order. */
module Discovery {
  import opened Wrappers
  import opened EchonetLite

  const SMART_METER_TYPE: string := "EL_SMART_METER"

  /** A value of `coordinator.data["appliances"]`: its id, its `type`, the
      id of the Remo device it is attached to (`appliance["device"]["id"]`)
      and, for a smart meter, `smart_meter.echonetlite_properties`. */
  datatype Appliance = Appliance(id: string, kind: string, deviceId: string, properties: seq<Property>)

  /** A value of `coordinator.data["devices"]`: its id and the keys of its
      `newest_events`, in dictionary order. */
  datatype Device = Device(id: string, eventKeys: seq<string>)

  /** A sensor entity handed to `async_add_entities`, with the id of the
      appliance or device it reads. */
  datatype Sensor =
    | Power(applianceId: string)
    | ConsumedEnergy(applianceId: string)
    | ReturnedEnergy(applianceId: string)
    | Temperature(deviceId: string)
    | Humidity(deviceId: string)
    | Illuminance(deviceId: string)
  {
    /** A smart-meter sensor, as opposed to a device sensor. */
    predicate OfAppliance() {
      Power? || ConsumedEnergy? || ReturnedEnergy?
    }
  }

  /** The entities one appliance contributes: power, consumed energy and
      returned energy for a smart meter, nothing for any other type. */
  function SmartMeterSensors(a: Appliance): seq<Sensor> {
    if a.kind == SMART_METER_TYPE then [Power(a.id), ConsumedEnergy(a.id), ReturnedEnergy(a.id)] else []
  }

  /** The entities of the first loop, over all appliances in order. */
  function ApplianceSensors(apps: seq<Appliance>): seq<Sensor> {
    if apps == [] then [] else SmartMeterSensors(apps[0]) + ApplianceSensors(apps[1..])
  }

  /** The ids of the smart meters among `apps`, in order. */
  function SmartMeterIds(apps: seq<Appliance>): (ids: seq<string>)
    ensures forall x :: x in ids <==> exists i :: 0 <= i < |apps| && apps[i].kind == SMART_METER_TYPE && apps[i].id == x
  {
    if apps == [] then []
    else
      var tail := apps[1..];
      assert forall i :: 1 <= i < |apps| ==> apps[i] == tail[i - 1];
      (if apps[0].kind == SMART_METER_TYPE then [apps[0].id] else []) + SmartMeterIds(tail)
  }

  /** The entity one `newest_events` key contributes: `te`, `hu` and `il`
      give a temperature, humidity and illuminance sensor, other keys none. */
  function EventSensor(deviceId: string, key: string): seq<Sensor> {
    if key == "te" then [Temperature(deviceId)]
    else if key == "hu" then [Humidity(deviceId)]
    else if key == "il" then [Illuminance(deviceId)]
    else []
  }

  /** `key` is one of the `newest_events` keys that give a sensor. */
  predicate IsSensorKey(key: string) {
    key == "te" || key == "hu" || key == "il"
  }

  /** The keys among `keys` that give a sensor, in order. */
  function SensorKeys(keys: seq<string>): (r: seq<string>)
    ensures forall x :: x in r <==> x in keys && IsSensorKey(x)
  {
    if keys == [] then []
    else
      var tail := keys[1..];
      assert forall x :: x in keys <==> x == keys[0] || x in tail;
      (if IsSensorKey(keys[0]) then [keys[0]] else []) + SensorKeys(tail)
  }

  /** The entities of one device, key by key. */
  function EventSensors(deviceId: string, keys: seq<string>): seq<Sensor> {
    if keys == [] then [] else EventSensor(deviceId, keys[0]) + EventSensors(deviceId, keys[1..])
  }

  /** `[appliance["device"]["id"] for appliance in appliances.values()]`:
      an id is in the list exactly when some appliance, of any type, is
      attached to that device. */
  function LinkedDeviceIds(apps: seq<Appliance>): (ids: seq<string>)
    ensures forall x :: x in ids <==> exists i :: 0 <= i < |apps| && apps[i].deviceId == x
  {
    var ids := seq(|apps|, i requires 0 <= i < |apps| => apps[i].deviceId);
    assert forall i :: 0 <= i < |apps| ==> ids[i] == apps[i].deviceId;
    ids
  }

  /** The entities of the second loop: every device whose id is not in
      `linked` contributes its event sensors. */
  function DeviceSensors(devs: seq<Device>, linked: seq<string>): seq<Sensor> {
    if devs == [] then []
    else (if devs[0].id in linked then [] else EventSensors(devs[0].id, devs[0].eventKeys)) + DeviceSensors(devs[1..], linked)
  }

  /** The complete list `async_setup_platform` passes to
      `async_add_entities`. */
  function Discover(apps: seq<Appliance>, devs: seq<Device>): seq<Sensor> {
    ApplianceSensors(apps) + DeviceSensors(devs, LinkedDeviceIds(apps))
  }

  /** `async_setup_platform`: nothing is registered without discovery
      information; otherwise `async_add_entities` is called once, with the
      entities of every smart meter followed by those of every device that
      no appliance is attached to. */
  method SetupPlatform(discovered: bool, apps: seq<Appliance>, devs: seq<Device>) returns (added: Option<seq<Sensor>>)
    ensures added == if discovered then Some(Discover(apps, devs)) else None
  {
    if !discovered {
      return None;
    }
    var entities: seq<Sensor> := [];
    for i := 0 to |apps|
      invariant entities == ApplianceSensors(apps[..i])
    {
      var appliance := apps[i];
      ApplianceSensorsStep(apps, i);
      if appliance.kind == SMART_METER_TYPE {
        entities := entities + [Power(appliance.id)];
        entities := entities + [ConsumedEnergy(appliance.id)];
        entities := entities + [ReturnedEnergy(appliance.id)];
      }
    }
    assert apps[..|apps|] == apps;
    entities := AddDeviceSensors(entities, apps, devs);
    return Some(entities);
  }

  /** The second loop of the setup: the event sensors of every device that
      no appliance is attached to, appended to `entities` in device order. */
  method AddDeviceSensors(entities: seq<Sensor>, apps: seq<Appliance>, devs: seq<Device>) returns (result: seq<Sensor>)
    ensures result == entities + DeviceSensors(devs, LinkedDeviceIds(apps))
  {
    result := entities;
    for j := 0 to |devs|
      invariant result == entities + DeviceSensors(devs[..j], LinkedDeviceIds(apps))
    {
      var device := devs[j];
      var linked := LinkedDeviceIds(apps);
      DeviceSensorsStep(devs, linked, j);
      if device.id in linked {
        continue;
      }
      result := AddEventSensors(result, device);
    }
    assert devs[..|devs|] == devs;
  }

  /** The innermost loop of the setup: one entity per `te`, `hu` or `il`
      key of `device`, appended to `entities` in key order. */
  method AddEventSensors(entities: seq<Sensor>, device: Device) returns (result: seq<Sensor>)
    ensures result == entities + EventSensors(device.id, device.eventKeys)
  {
    result := entities;
    var keys := device.eventKeys;
    for k := 0 to |keys|
      invariant result == entities + EventSensors(device.id, keys[..k])
    {
      var sensor := keys[k];
      EventSensorsStep(device.id, keys, k);
      if sensor == "te" {
        result := result + [Temperature(device.id)];
      } else if sensor == "hu" {
        result := result + [Humidity(device.id)];
      } else if sensor == "il" {
        result := result + [Illuminance(device.id)];
      }
    }
    assert keys[..|keys|] == keys;
  }

  lemma ApplianceSensorsStep(apps: seq<Appliance>, i: nat)
    requires i < |apps|
    ensures ApplianceSensors(apps[..i + 1]) == ApplianceSensors(apps[..i]) + SmartMeterSensors(apps[i])
  {
    ApplianceSensorsAppend(apps[..i], [apps[i]]);
    assert apps[..i] + [apps[i]] == apps[..i + 1];
    assert [apps[i]][1..] == [];
  }

  lemma {:induction false} ApplianceSensorsAppend(xs: seq<Appliance>, ys: seq<Appliance>)
    ensures ApplianceSensors(xs + ys) == ApplianceSensors(xs) + ApplianceSensors(ys)
  {
    if xs != [] {
      assert (xs + ys)[1..] == xs[1..] + ys;
      ApplianceSensorsAppend(xs[1..], ys);
    } else {
      assert xs + ys == ys;
    }
  }

  lemma DeviceSensorsStep(devs: seq<Device>, linked: seq<string>, j: nat)
    requires j < |devs|
    ensures devs[j].id in linked ==> DeviceSensors(devs[..j + 1], linked) == DeviceSensors(devs[..j], linked)
    ensures devs[j].id !in linked ==>
      DeviceSensors(devs[..j + 1], linked) == DeviceSensors(devs[..j], linked) + EventSensors(devs[j].id, devs[j].eventKeys)
  {
    DeviceSensorsAppend(devs[..j], [devs[j]], linked);
    assert devs[..j] + [devs[j]] == devs[..j + 1];
    assert [devs[j]][1..] == [];
    assert DeviceSensors(devs[..j], linked) + [] == DeviceSensors(devs[..j], linked);
  }

  lemma {:induction false} DeviceSensorsAppend(xs: seq<Device>, ys: seq<Device>, linked: seq<string>)
    ensures DeviceSensors(xs + ys, linked) == DeviceSensors(xs, linked) + DeviceSensors(ys, linked)
  {
    if xs != [] {
      assert (xs + ys)[1..] == xs[1..] + ys;
      DeviceSensorsAppend(xs[1..], ys, linked);
    } else {
      assert xs + ys == ys;
    }
  }

  lemma EventSensorsStep(deviceId: string, keys: seq<string>, k: nat)
    requires k < |keys|
    ensures EventSensors(deviceId, keys[..k + 1]) == EventSensors(deviceId, keys[..k]) + EventSensor(deviceId, keys[k])
  {
    EventSensorsAppend(deviceId, keys[..k], [keys[k]]);
    assert keys[..k] + [keys[k]] == keys[..k + 1];
    assert [keys[k]][1..] == [];
  }

  /** The event sensors of two runs of keys are those of each run, in
      order. */
  lemma {:induction false} EventSensorsAppend(deviceId: string, xs: seq<string>, ys: seq<string>)
    ensures EventSensors(deviceId, xs + ys) == EventSensors(deviceId, xs) + EventSensors(deviceId, ys)
  {
    if xs != [] {
      assert (xs + ys)[1..] == xs[1..] + ys;
      EventSensorsAppend(deviceId, xs[1..], ys);
    } else {
      assert xs + ys == ys;
    }
  }

  /** Smart meters come in appliance order, three entities each: power,
      consumed energy, returned energy. */
  lemma {:induction false} ApplianceSensorsLayout(apps: seq<Appliance>)
    ensures |ApplianceSensors(apps)| == 3 * |SmartMeterIds(apps)|
    ensures forall k :: 0 <= k < |SmartMeterIds(apps)| ==>
      var ids, r := SmartMeterIds(apps), ApplianceSensors(apps);
      r[3 * k] == Power(ids[k]) && r[3 * k + 1] == ConsumedEnergy(ids[k]) && r[3 * k + 2] == ReturnedEnergy(ids[k])
  {
    if apps != [] {
      var tail := apps[1..];
      ApplianceSensorsLayout(tail);
      var ids, r := SmartMeterIds(apps), ApplianceSensors(apps);
      var ids', r' := SmartMeterIds(tail), ApplianceSensors(tail);
      if apps[0].kind == SMART_METER_TYPE {
        assert ids == [apps[0].id] + ids' && r == SmartMeterSensors(apps[0]) + r';
        forall k | 1 <= k < |ids|
          ensures r[3 * k] == Power(ids[k]) && r[3 * k + 1] == ConsumedEnergy(ids[k]) && r[3 * k + 2] == ReturnedEnergy(ids[k])
        {
          assert ids[k] == ids'[k - 1];
          assert r[3 * k] == r'[3 * (k - 1)] && r[3 * k + 1] == r'[3 * (k - 1) + 1] && r[3 * k + 2] == r'[3 * (k - 1) + 2];
        }
      }
    }
  }

  /** An appliance entity exists exactly for each smart meter, and only
      smart-meter sensors come from the appliances. */
  lemma {:induction false} ApplianceSensorsMembership(apps: seq<Appliance>, s: Sensor)
    ensures s in ApplianceSensors(apps) <==>
      s.OfAppliance() && exists i :: 0 <= i < |apps| && apps[i].kind == SMART_METER_TYPE && apps[i].id == s.applianceId
  {
    if apps != [] {
      var tail := apps[1..];
      ApplianceSensorsMembership(tail, s);
      assert forall i :: 1 <= i < |apps| ==> apps[i] == tail[i - 1];
    }
  }

  /** A device sensor exists exactly for each `te`, `hu` or `il` key of a
      device whose id is not in `linked`. */
  lemma {:induction false} DeviceSensorsMembership(devs: seq<Device>, linked: seq<string>, s: Sensor)
    ensures s in DeviceSensors(devs, linked) <==>
      exists i, k :: 0 <= i < |devs| && devs[i].id !in linked && 0 <= k < |devs[i].eventKeys| &&
        EventSensor(devs[i].id, devs[i].eventKeys[k]) == [s]
  {
    if devs != [] {
      var tail := devs[1..];
      DeviceSensorsMembership(tail, linked, s);
      assert forall i :: 1 <= i < |devs| ==> devs[i] == tail[i - 1];
      if devs[0].id !in linked {
        EventSensorsMembership(devs[0].id, devs[0].eventKeys, s);
      }
    }
  }

  lemma {:induction false} EventSensorsMembership(deviceId: string, keys: seq<string>, s: Sensor)
    ensures s in EventSensors(deviceId, keys) <==> exists k :: 0 <= k < |keys| && EventSensor(deviceId, keys[k]) == [s]
  {
    if keys != [] {
      var tail := keys[1..];
      EventSensorsMembership(deviceId, tail, s);
      assert forall k :: 1 <= k < |keys| ==> keys[k] == tail[k - 1];
    }
  }

  /** A device contributes one entity per `te`, `hu` or `il` key, in key
      order, and nothing for any other key. */
  lemma {:induction false} EventSensorsLayout(deviceId: string, keys: seq<string>)
    ensures |EventSensors(deviceId, keys)| == |SensorKeys(keys)|
    ensures forall k :: 0 <= k < |SensorKeys(keys)| ==>
      EventSensor(deviceId, SensorKeys(keys)[k]) == [EventSensors(deviceId, keys)[k]]
  {
    if keys != [] {
      var tail := keys[1..];
      EventSensorsLayout(deviceId, tail);
      var e, r, r', ks, ks' := EventSensor(deviceId, keys[0]), EventSensors(deviceId, keys),
        EventSensors(deviceId, tail), SensorKeys(keys), SensorKeys(tail);
      assert r == e + r';
      if IsSensorKey(keys[0]) {
        assert ks == [keys[0]] + ks' && |e| == 1;
        forall k | 1 <= k < |ks| ensures EventSensor(deviceId, ks[k]) == [r[k]] {
          assert ks[k] == ks'[k - 1] && r[k] == r'[k - 1];
        }
      } else {
        assert ks == ks' && e == [] && r == r';
      }
    }
  }

  /** A device that any appliance is attached to, smart meter or not,
      contributes no entity; the other devices contribute one per `te`,
      `hu` or `il` key and nothing for other keys. */
  lemma DeviceSensorsOfDiscover(apps: seq<Appliance>, devs: seq<Device>, s: Sensor)
    requires s in Discover(apps, devs) && !s.OfAppliance()
    ensures forall j :: 0 <= j < |apps| ==> apps[j].deviceId != s.deviceId
    ensures exists i, k :: (0 <= i < |devs| && devs[i].id == s.deviceId && 0 <= k < |devs[i].eventKeys| &&
      devs[i].eventKeys[k] == (if s.Temperature? then "te" else if s.Humidity? then "hu" else "il"))
  {
    ApplianceSensorsMembership(apps, s);
    var linked := LinkedDeviceIds(apps);
    DeviceSensorsMembership(devs, linked, s);
    var i, k :| 0 <= i < |devs| && devs[i].id !in linked && 0 <= k < |devs[i].eventKeys| &&
      EventSensor(devs[i].id, devs[i].eventKeys[k]) == [s];
    EventSensorKey(devs[i].id, devs[i].eventKeys[k], s);
  }

  /** The key and device an event sensor comes from. */
  lemma EventSensorKey(deviceId: string, key: string, s: Sensor)
    requires EventSensor(deviceId, key) == [s]
    ensures !s.OfAppliance() && s.deviceId == deviceId
    ensures key == if s.Temperature? then "te" else if s.Humidity? then "hu" else "il"
  {
  }

  /** All appliance entities precede all device entities. */
  lemma AppliancesComeFirst(apps: seq<Appliance>, devs: seq<Device>)
    ensures var r := Discover(apps, devs);
      forall i, j :: 0 <= i < j < |r| && !r[i].OfAppliance() ==> !r[j].OfAppliance()
  {
    var a, d := ApplianceSensors(apps), DeviceSensors(devs, LinkedDeviceIds(apps));
    var r := a + d;
    forall i | 0 <= i < |r| ensures r[i].OfAppliance() <==> i < |a| {
      if i < |a| {
        assert r[i] == a[i];
        ApplianceSensorsMembership(apps, a[i]);
      } else {
        assert r[i] == d[i - |a|];
        DeviceSensorsMembership(devs, LinkedDeviceIds(apps), d[i - |a|]);
      }
    }
  }

  /** The list passed to `async_add_entities` holds exactly the sensors of
      the smart meters and the event sensors of the devices that no
      appliance is attached to. */
  lemma DiscoverMembership(apps: seq<Appliance>, devs: seq<Device>, s: Sensor)
    ensures s in Discover(apps, devs) <==>
      (s.OfAppliance() && exists i :: 0 <= i < |apps| && apps[i].kind == SMART_METER_TYPE && apps[i].id == s.applianceId) ||
      (exists i, k :: 0 <= i < |devs| && (forall j :: 0 <= j < |apps| ==> apps[j].deviceId != devs[i].id) &&
        0 <= k < |devs[i].eventKeys| && EventSensor(devs[i].id, devs[i].eventKeys[k]) == [s])
  {
    var linked := LinkedDeviceIds(apps);
    ApplianceSensorsMembership(apps, s);
    DeviceSensorsMembership(devs, linked, s);
    assert forall i :: 0 <= i < |devs| ==>
      (devs[i].id !in linked <==> forall j :: 0 <= j < |apps| ==> apps[j].deviceId != devs[i].id);
  }
}
