// components/rainmaker_gw/rmk_typemap.c: unit conversions between the Zigbee
// side and the RainMaker app, and the plan of app parameters for a device.
module RmkTypemap {
  import opened Common

  function Clamp(v: int, lo: int, hi: int): int {
    if v < lo then lo else if v > hi then hi else v
  }

  // C division truncates toward zero; every divisor below is positive and every
  // dividend has been clamped non-negative, so Dafny's `/` is the same operator.
  function BriToRm(zb: int): int {
    (Clamp(zb, 0, 254) * 100 + 127) / 254
  }

  function BriFromRm(rm: int): int {
    (Clamp(rm, 0, 100) * 254 + 50) / 100
  }

  function MiredToKelvin(mired: int): int {
    if mired <= 0 then 6500 else Clamp(1000000 / mired, 2700, 6500)
  }

  function KelvinToMired(k: int): int {
    1000000 / Clamp(k, 2700, 6500)
  }

  // For positive n and m: n / (n / m) gives m back as soon as the quotient is at
  // least m, because the rounding of the first division is then too small to
  // reach the next integer.
  lemma DivDiv(n: int, m: int)
    requires m > 0 && n / m >= m
    ensures n / (n / m) == m
  {
    var q, r := n / m, n % m;
    assert n == m * q + r && 0 <= r < m <= q;
    DivUnique(n, q, m, r);
  }

  lemma MulLe(x: int, y: int, k: int)
    requires x <= y && k >= 0
    ensures x * k <= y * k
  {
    assert (y - x) * k >= 0;
  }

  lemma DivUnique(n: int, d: int, q: int, r: int)
    requires d > 0 && 0 <= r < d && n == q * d + r
    ensures n / d == q
  {
    var p := n / d;
    assert n == p * d + n % d;
    if p > q {
      MulLe(q + 1, p, d);
    } else if p < q {
      MulLe(p + 1, q, d);
    }
  }

  lemma DivMonotone(n: int, a: int, b: int)
    requires n >= 0 && 0 < a <= b
    ensures n / b <= n / a
  {
    var p, q := n / a, n / b;
    assert n == p * a + n % a && n == q * b + n % b;
    MulLe(a, b, q);
    assert q * a == a * q && q * b == b * q;
    if q > p {
      MulLe(p + 1, q, a);
    }
  }

  lemma MiredRoundTrip(m: int)
    ensures KelvinToMired(MiredToKelvin(m)) == Clamp(m, 153, 370)
  {
    if m < 153 {
      if m > 0 {
        DivMonotone(1000000, m, 153);
        assert 1000000 / 153 == 6535;
      }
      assert 1000000 / 6500 == 153;
    } else if m > 370 {
      DivMonotone(1000000, 371, m);
      assert 1000000 / 371 == 2695;
      assert 1000000 / 2700 == 370;
    } else {
      DivMonotone(1000000, m, 370);
      assert 1000000 / 370 == 2702;
      DivMonotone(1000000, 153, m);
      if m == 153 {
        assert 1000000 / 153 == 6535 && 1000000 / 6500 == 153;
      } else {
        DivMonotone(1000000, 154, m);
        assert 1000000 / 154 == 6493;
        DivDiv(1000000, m);
      }
    }
  }

  // The app's brightness survives a trip to the device and back.
  lemma BrightnessAppRoundTrip(x: int)
    ensures BriToRm(BriFromRm(x)) == Clamp(x, 0, 100)
  {
    var c := Clamp(x, 0, 100);
    var z := BriFromRm(x);
    // z is the multiple of 254/100 nearest to c, so it is within 1/2 of it.
    assert c * 254 - 50 <= z * 100 <= c * 254 + 50;
    DivUnique(z * 100 + 127, 254, c, z * 100 + 127 - c * 254);
  }

  // The device's brightness comes back within one step, and exactly when the
  // 0..100 scale can express it.
  lemma BrightnessDeviceRoundTrip(z: int)
    ensures -1 <= BriFromRm(BriToRm(z)) - Clamp(z, 0, 254) <= 1
    ensures BriFromRm(BriToRm(z)) == Clamp(z, 0, 254) <==> (exists x :: BriFromRm(x) == Clamp(z, 0, 254))
  {
    var c := Clamp(z, 0, 254);
    var x := BriToRm(z);
    assert c * 100 - 127 <= x * 254 <= c * 100 + 127;
    assert 0 <= x <= 100;
    if y :| BriFromRm(y) == c {
      BrightnessAppRoundTrip(y);
      assert x == Clamp(y, 0, 100);
    }
  }

  // Conversion kinds, app-side values, and one row of the parameter map.
  datatype Conv = ConvNone | ConvBri | ConvCct | ConvDiv100 | ConvContact
  datatype RmVal = RmInt(i: int) | RmFloat(f: real) | RmBool(b: bool)
  datatype Row = Row(key: string, rmName: string, rmType: string, dataType: char,
                     lo: int, hi: int, step: int, conv: Conv)
  datatype Plan = Plan(row: Row, writable: bool, primary: bool)
  datatype Expose = Expose(name: string, writable: bool)
  datatype DevType = Lightbulb | MotionSensor | ContactSensor | Switch | TempSensor | Other

  const MAP: seq<Row> := [
    Row("state",       "Power",       "esp.param.power",                   'b', 0, 0, 0, ConvNone),
    Row("brightness",  "Brightness",  "esp.param.brightness",              'i', 0, 100, 1, ConvBri),
    Row("color_temp",  "CCT",         "esp.param.cct",                     'i', 2700, 6500, 100, ConvCct),
    Row("temperature", "Temperature", "esp.param.temperature",             'f', 0, 0, 0, ConvDiv100),
    Row("humidity",    "Humidity",    "esp.param.humidity",                'f', 0, 0, 0, ConvDiv100),
    Row("occupancy",   "Motion",      "esp.param.motion-detection-state",  'b', 0, 0, 0, ConvNone),
    Row("contact",     "Contact",     "esp.param.contact-detection-state", 'b', 0, 0, 0, ConvContact)
  ]

  function PrimaryFor(t: DevType): string {
    match t
    case Lightbulb => "esp.param.power"
    case Switch => "esp.param.power"
    case MotionSensor => "esp.param.motion-detection-state"
    case ContactSensor => "esp.param.contact-detection-state"
    case TempSensor => "esp.param.temperature"
    case Other => ""
  }

  // Device value to app value; the one conversion both the report path and the
  // write callback's snap-back use (rmk_bridge.c:253-263).
  function ToRm(row: Row, val: int): RmVal {
    match row.conv
    case ConvBri => RmInt(BriToRm(val))
    case ConvCct => RmInt(MiredToKelvin(val))
    case ConvDiv100 => RmFloat(val as real / 100.0)
    case ConvContact => RmBool(val != 0)
    case ConvNone => if row.dataType == 'b' then RmBool(val != 0) else RmInt(val)
  }

  predicate Has(ex: seq<Expose>, name: string) {
    exists i :: 0 <= i < |ex| && ex[i].name == name
  }

  function CountWritable(ex: seq<Expose>): nat {
    if ex == [] then 0 else (if ex[0].writable then 1 else 0) + CountWritable(ex[1..])
  }

  function Classify(ex: seq<Expose>): DevType {
    if Has(ex, "brightness") || Has(ex, "color_temp") || Has(ex, "color_x") || Has(ex, "color_y") then Lightbulb
    else if Has(ex, "occupancy") then MotionSensor
    else if Has(ex, "contact") then ContactSensor
    else if Has(ex, "state") then
      if exists i :: 0 <= i < |ex| && ex[i].name == "state" && ex[i].writable then Switch else Other
    else if Has(ex, "temperature") && CountWritable(ex) == 0 then TempSensor
    else Other
  }

  // Index of the first map row for `name`, or |MAP| when there is none.
  function RowFor(name: string): (r: nat)
    ensures r <= |MAP|
    ensures r < |MAP| ==> MAP[r].key == name
    ensures forall j :: 0 <= j < r ==> MAP[j].key != name
  {
    RowFrom(name, 0)
  }

  function RowFrom(name: string, r: nat): (k: nat)
    requires r <= |MAP|
    requires forall j :: 0 <= j < r ==> MAP[j].key != name
    ensures r <= k <= |MAP|
    ensures k < |MAP| ==> MAP[k].key == name
    ensures forall j :: 0 <= j < k ==> MAP[j].key != name
    decreases |MAP| - r
  {
    if r == |MAP| || MAP[r].key == name then r else RowFrom(name, r + 1)
  }

  // The plan for one expose, if its name is in the map.
  function PlanOf(t: DevType, e: Expose): Option<Plan> {
    var r := RowFor(e.name);
    if r == |MAP| then None
    else Some(Plan(MAP[r], e.writable, MAP[r].rmType == PrimaryFor(t)))
  }

  // The whole plan, before the cap: the mapped exposes, in order.
  function Planned(t: DevType, ex: seq<Expose>): seq<Plan> {
    if ex == [] then []
    else Planned(t, ex[..|ex| - 1]) + (match PlanOf(t, ex[|ex| - 1]) case None => [] case Some(p) => [p])
  }

  // The inner loop of rmk_build_params.
  method FindRow(name: string) returns (r: nat)
    ensures r == RowFor(name)
  {
    r := 0;
    while r < |MAP| && MAP[r].key != name
      invariant r <= |MAP|
      invariant forall j :: 0 <= j < r ==> MAP[j].key != name
    {
      r := r + 1;
    }
  }

  method PlanFor(t: DevType, e: Expose) returns (p: Option<Plan>)
    ensures p == PlanOf(t, e)
  {
    var r := FindRow(e.name);
    if r == |MAP| { return None; }
    return Some(Plan(MAP[r], e.writable, MAP[r].rmType == PrimaryFor(t)));
  }

  lemma PlannedNext(t: DevType, ex: seq<Expose>, i: nat)
    requires i < |ex|
    ensures Planned(t, ex[..i + 1]) ==
            Planned(t, ex[..i]) + match PlanOf(t, ex[i]) case None => [] case Some(p) => [p]
  {
    assert ex[..i + 1][..i] == ex[..i];
  }

  // rmk_build_params: fills `out` with the first out.Length entries of the plan.
  method BuildParams(t: DevType, ex: seq<Expose>, out: array<Plan>) returns (cnt: nat)
    modifies out
    ensures cnt == Min(out.Length, |Planned(t, ex)|)
    ensures out[..cnt] == Planned(t, ex)[..cnt]
  {
    cnt := 0;
    var i := 0;
    while i < |ex| && cnt < out.Length
      invariant 0 <= i <= |ex| && cnt <= out.Length
      invariant out[..cnt] == Planned(t, ex[..i])
    {
      PlannedNext(t, ex, i);
      var p := PlanFor(t, ex[i]);
      if p.Some? {
        out[cnt] := p.value;
        cnt := cnt + 1;
        assert out[..cnt] == out[..cnt - 1] + [p.value];
      }
      i := i + 1;
    }
    PlannedPrefix(t, ex, i);
    assert ex[..|ex|] == ex;
  }

  lemma {:induction false} PlannedPrefix(t: DevType, ex: seq<Expose>, i: nat)
    requires i <= |ex|
    ensures Planned(t, ex[..i]) <= Planned(t, ex)
    decreases |ex|
  {
    if i < |ex| {
      PlannedPrefix(t, ex[..|ex| - 1], i);
      assert ex[..|ex| - 1][..i] == ex[..i];
    } else {
      assert ex[..i] == ex;
    }
  }

  // A device the classifier recognises as anything but a light bulb always has
  // its primary parameter in the plan: the expose that decided the type is mapped.
  lemma ClassifiedHasPrimary(ex: seq<Expose>)
    requires Classify(ex) != Other && Classify(ex) != Lightbulb
    ensures exists p :: p in Planned(Classify(ex), ex) && p.primary
  {
    var t := Classify(ex);
    var key := match t case MotionSensor => "occupancy" case ContactSensor => "contact"
               case Switch => "state" case _ => "temperature";
    assert Has(ex, key);
    var i :| 0 <= i < |ex| && ex[i].name == key;
    assert MAP[0].key == "state" && MAP[3].key == "temperature" && MAP[5].key == "occupancy" && MAP[6].key == "contact";
    var r := RowFor(ex[i].name);
    PlannedHas(t, ex, i);
  }

  lemma {:induction false} PlannedHas(t: DevType, ex: seq<Expose>, i: nat)
    requires i < |ex| && PlanOf(t, ex[i]).Some?
    ensures PlanOf(t, ex[i]).value in Planned(t, ex)
    decreases |ex|
  {
    if i < |ex| - 1 {
      PlannedHas(t, ex[..|ex| - 1], i);
    }
  }
}
