/** The display names and unique identifiers the sensors derive from the
    appliance or device they belong to. */
module Naming {
  import opened CumulativeEnergy

  /** Python's `str.isspace` for one character: the characters `str.strip()`
      removes when called without arguments. */
  predicate IsSpace(c: char) {
    var n := c as int;
    (0x09 <= n <= 0x0D) || (0x1C <= n <= 0x20) || n == 0x85 || n == 0xA0 || n == 0x1680 ||
    (0x2000 <= n <= 0x200A) || n == 0x2028 || n == 0x2029 || n == 0x202F || n == 0x205F || n == 0x3000
  }

  /** `s` with its leading whitespace removed. */
  function StripLeading(s: string): (r: string)
    ensures |r| <= |s| && r == s[|s| - |r|..]
    ensures forall k :: 0 <= k < |s| - |r| ==> IsSpace(s[k])
    ensures r == [] || !IsSpace(r[0])
  {
    if s != [] && IsSpace(s[0]) then StripLeading(s[1..]) else s
  }

  /** `s` with its trailing whitespace removed. */
  function StripTrailing(s: string): (r: string)
    ensures |r| <= |s| && r == s[..|r|]
    ensures forall k :: |r| <= k < |s| ==> IsSpace(s[k])
    ensures r == [] || !IsSpace(r[|r| - 1])
  {
    if s != [] && IsSpace(s[|s| - 1]) then StripTrailing(s[..|s| - 1]) else s
  }

  /** `r` is the slice of `s` starting at `i`, with only whitespace before
      and after it. */
  ghost predicate SpaceFramed(s: string, i: int, r: string) {
    0 <= i <= |s| - |r| && r == s[i..i + |r|] &&
    (forall k :: 0 <= k < i ==> IsSpace(s[k])) && (forall k :: i + |r| <= k < |s| ==> IsSpace(s[k]))
  }

  /** `s.strip()`: the slice of `s` left once the whitespace at both ends is
      removed; it neither starts nor ends with whitespace. */
  function Strip(s: string): (r: string)
    ensures exists i :: SpaceFramed(s, i, r)
    ensures r == [] || (!IsSpace(r[0]) && !IsSpace(r[|r| - 1]))
  {
    var t := StripLeading(s);
    var r := StripTrailing(t);
    StripSlice(s, t, r, |s| - |t|);
    r
  }

  lemma StripSlice(s: string, t: string, r: string, i: int)
    requires t == StripLeading(s) && r == StripTrailing(t) && i == |s| - |t|
    ensures SpaceFramed(s, i, r)
    ensures r == [] || (!IsSpace(r[0]) && !IsSpace(r[|r| - 1]))
  {
    SliceBetweenSpace(s, t, r, i);
  }

  /** The facts of `StripLeading` and `StripTrailing` put together, with `t`
      starting at index `i` of `s`. */
  lemma SliceBetweenSpace(s: string, t: string, r: string, i: nat)
    requires i + |t| == |s| && t == s[i..] && |r| <= |t| && r == t[..|r|]
    requires forall k :: 0 <= k < i ==> IsSpace(s[k])
    requires forall k :: |r| <= k < |t| ==> IsSpace(t[k])
    requires t == [] || !IsSpace(t[0])
    requires r == [] || !IsSpace(r[|r| - 1])
    ensures r == s[i..i + |r|]
    ensures forall k :: i + |r| <= k < |s| ==> IsSpace(s[k])
    ensures r == [] || !IsSpace(r[0])
  {
    assert forall k :: 0 <= k < |r| ==> r[k] == t[k] == s[i + k];
    forall k | i + |r| <= k < |s| ensures IsSpace(s[k]) {
      assert s[k] == t[k - i];
    }
    if r != [] {
      assert r[0] == t[0];
    }
  }

  /** `s` is made of whitespace only. */
  predicate AllSpace(s: string) {
    forall k :: 0 <= k < |s| ==> IsSpace(s[k])
  }

  /** Leading whitespace is removed up to the first other character, so
      text appended after it is kept whole. */
  lemma {:induction false} StripLeadingOfConcat(s: string, b: string)
    ensures StripLeading(s + b) == if AllSpace(s) then StripLeading(b) else StripLeading(s) + b
  {
    if s == [] {
      assert s + b == b;
    } else {
      assert (s + b)[0] == s[0];
      if IsSpace(s[0]) {
        assert (s + b)[1..] == s[1..] + b;
        assert AllSpace(s) <==> AllSpace(s[1..]) by {
          assert forall k :: 1 <= k < |s| ==> s[k] == s[1..][k - 1];
        }
        StripLeadingOfConcat(s[1..], b);
      }
    }
  }

  /** Trailing whitespace appended to a string is removed with the rest. */
  lemma {:induction false} StripTrailingOfSpace(t: string, b: string)
    requires AllSpace(b)
    ensures StripTrailing(t + b) == StripTrailing(t)
  {
    if b == [] {
      assert t + b == t;
    } else {
      var b' := b[..|b| - 1];
      assert (t + b)[..|t + b| - 1] == t + b';
      assert (t + b)[|t + b| - 1] == b[|b| - 1];
      StripTrailingOfSpace(t, b');
    }
  }

  /** Whitespace around the text does not change what `strip()` keeps. */
  lemma StripIgnoresSurroundingSpace(a: string, s: string, b: string)
    requires AllSpace(a) && AllSpace(b)
    ensures Strip(a + s + b) == Strip(s)
  {
    StripEndsIgnoreSurroundingSpace(a, s, b);
  }

  lemma StripEndsIgnoreSurroundingSpace(a: string, s: string, b: string)
    requires AllSpace(a) && AllSpace(b)
    ensures StripTrailing(StripLeading(a + s + b)) == StripTrailing(StripLeading(s))
  {
    StripLeadingOfConcat(a, s);
    if AllSpace(s) {
      AllSpaceOfConcat(a, s);
      StripLeadingOfConcat(a + s, b);
      StripLeadingOfSpace(b);
      StripLeadingOfSpace(s);
    } else {
      var k :| 0 <= k < |s| && !IsSpace(s[k]);
      assert (a + s)[|a| + k] == s[k];
      StripLeadingOfConcat(a + s, b);
      StripTrailingOfSpace(StripLeading(s), b);
    }
  }

  lemma AllSpaceOfConcat(a: string, s: string)
    requires AllSpace(a) && AllSpace(s)
    ensures AllSpace(a + s)
  {
    forall k | 0 <= k < |a + s| ensures IsSpace((a + s)[k]) {
      if k >= |a| {
        assert (a + s)[k] == s[k - |a|];
      }
    }
  }

  lemma StripLeadingOfSpace(s: string)
    requires AllSpace(s)
    ensures StripLeading(s) == []
  {
  }

  /** `c.lower()` on the ASCII letters; other characters are unchanged. */
  function LowerChar(c: char): char {
    if 'A' <= c <= 'Z' then (c as int - 'A' as int + 'a' as int) as char else c
  }

  /** `s.lower()`, for the ASCII text it is applied to here: no capital
      remains, each capital becomes its small letter, and every other
      character is kept. */
  function Lower(s: string): (r: string)
    ensures |r| == |s|
    ensures forall i :: 0 <= i < |r| ==> !('A' <= r[i] <= 'Z')
    ensures forall i :: 0 <= i < |s| && 'A' <= s[i] <= 'Z' ==> r[i] as int == s[i] as int + 32
    ensures forall i :: 0 <= i < |s| && !('A' <= s[i] <= 'Z') ==> r[i] == s[i]
  {
    seq(|s|, i requires 0 <= i < |s| => LowerChar(s[i]))
  }

  /** Lower-casing twice is lower-casing once. */
  lemma LowerIsIdempotent(s: string)
    ensures Lower(Lower(s)) == Lower(s)
  {
    var r := Lower(s);
    assert forall i :: 0 <= i < |r| ==> Lower(r)[i] == r[i];
  }

  /** The `_name` of the power sensor. */
  function PowerName(baseName: string): string {
    Strip(baseName) + " Power"
  }

  /** The `_name` of a cumulative energy sensor. */
  function EnergyName(baseName: string, kind: EnergyKind): string {
    Strip(baseName) + " Energy (" + SensorType(kind) + ")"
  }

  function TemperatureName(baseName: string): string {
    Strip(baseName) + " Temperature"
  }

  function HumidityName(baseName: string): string {
    Strip(baseName) + " Humidity"
  }

  function IlluminanceName(baseName: string): string {
    Strip(baseName) + " Illuminance"
  }

  /** The `unique_id` of a cumulative energy sensor: the appliance id
      followed by `-cumulative-energy-consumed` or
      `-cumulative-energy-returned`. */
  function CumulativeUniqueId(applianceId: string, kind: EnergyKind): (id: string)
    ensures id == applianceId + "-cumulative-energy-" + (if kind == Consumed then "consumed" else "returned")
  {
    var suffix := Lower(SensorType(kind));
    assert suffix == if kind == Consumed then "consumed" else "returned";
    applianceId + "-cumulative-energy-" + suffix
  }

  /** The `unique_id` of the illuminance sensor. */
  function IlluminanceUniqueId(deviceId: string): string {
    deviceId + "-illuminance"
  }

  /** The cumulative unique id determines both the appliance and the kind
      of sensor, so no two cumulative sensors share one. */
  lemma CumulativeUniqueIdIsInjective(a: string, k: EnergyKind, b: string, l: EnergyKind)
    requires CumulativeUniqueId(a, k) == CumulativeUniqueId(b, l)
    ensures a == b && k == l
  {
    var x, y := CumulativeUniqueId(a, k), CumulativeUniqueId(b, l);
    assert |a| == |b|;
    assert a == x[..|a|] && b == y[..|b|];
    assert x[|a| + 19] == if k == Consumed then 'c' else 'r';
    assert y[|b| + 19] == if l == Consumed then 'c' else 'r';
  }

  /** The illuminance unique id determines the device, and it never equals
      a cumulative sensor's unique id: the first ends in 'e', the second in
      'd'. */
  lemma IlluminanceUniqueIdIsDistinct(d: string, e: string, a: string, k: EnergyKind)
    ensures IlluminanceUniqueId(d) == IlluminanceUniqueId(e) ==> d == e
    ensures IlluminanceUniqueId(d) != CumulativeUniqueId(a, k)
  {
    var x, y := IlluminanceUniqueId(d), CumulativeUniqueId(a, k);
    assert x[|x| - 1] == 'e' && y[|y| - 1] == 'd';
    if x == IlluminanceUniqueId(e) {
      assert d == x[..|d|];
    }
  }

  /** Whitespace around the base name does not show in any sensor name. */
  lemma NamesIgnoreSurroundingSpace(a: string, baseName: string, b: string, kind: EnergyKind)
    requires AllSpace(a) && AllSpace(b)
    ensures PowerName(a + baseName + b) == PowerName(baseName)
    ensures EnergyName(a + baseName + b, kind) == EnergyName(baseName, kind)
    ensures TemperatureName(a + baseName + b) == TemperatureName(baseName)
    ensures HumidityName(a + baseName + b) == HumidityName(baseName)
    ensures IlluminanceName(a + baseName + b) == IlluminanceName(baseName)
  {
    StripIgnoresSurroundingSpace(a, baseName, b);
  }

  /** The three sensors of a smart meter get three different names. */
  lemma SmartMeterNamesAreDistinct(baseName: string)
    ensures PowerName(baseName) != EnergyName(baseName, Consumed)
    ensures PowerName(baseName) != EnergyName(baseName, Returned)
    ensures EnergyName(baseName, Consumed) != EnergyName(baseName, Returned)
  {
    var t := Strip(baseName);
    assert |PowerName(baseName)| == |t| + 6;
    assert |EnergyName(baseName, Consumed)| == |t| + 18 == |EnergyName(baseName, Returned)|;
    EnergyNameAt(baseName, Consumed);
    EnergyNameAt(baseName, Returned);
  }

  /** The character of an energy sensor's name that tells the kinds apart. */
  lemma EnergyNameAt(baseName: string, kind: EnergyKind)
    ensures |EnergyName(baseName, kind)| > |Strip(baseName)| + 9
    ensures EnergyName(baseName, kind)[|Strip(baseName)| + 9] == if kind == Consumed then 'C' else 'R'
  {
    var t := Strip(baseName);
    var u := t + " Energy (";
    assert EnergyName(baseName, kind) == u + SensorType(kind) + ")";
    assert (u + SensorType(kind))[|u|] == SensorType(kind)[0];
  }

  /** The sensors of one device get different names. */
  lemma DeviceNamesAreDistinct(baseName: string)
    ensures TemperatureName(baseName) != HumidityName(baseName)
    ensures TemperatureName(baseName) != IlluminanceName(baseName)
    ensures HumidityName(baseName) != IlluminanceName(baseName)
  {
    DeviceSuffixesDiffer(Strip(baseName));
  }

  lemma DeviceSuffixesDiffer(t: string)
    ensures t + " Temperature" != t + " Humidity"
    ensures t + " Temperature" != t + " Illuminance"
    ensures t + " Humidity" != t + " Illuminance"
  {
    var a, b, c := t + " Temperature", t + " Humidity", t + " Illuminance";
    assert |a| == |t| + 12 == |c| && |b| == |t| + 9;
    assert a[|t| + 1] == 'T' && c[|t| + 1] == 'I';
  }
}
