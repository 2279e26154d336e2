/** The plant health summary of one reading: an ordered list of issues joined
    into one line, or a healthy message when there is none. */
module Health {
  import opened Modes
  import opened Readings
  import opened Generator

  /** The issues the summary can report, in the order they are checked. */
  datatype Issue = SoilDry | SoilWet | TooHot | TooCold | LowLight | LowHumidity | HighHumidity

  /** The condition under which each issue is reported (temperature and
      humidity in tenths: 35 °C is 350). */
  predicate Fires(i: Issue, r: Reading)
  {
    match i
    case SoilDry => r.soil < 1800
    case SoilWet => r.soil > 2600
    case TooHot => r.temp > 350
    case TooCold => r.temp < 200
    case LowLight => r.light < 500
    case LowHumidity => r.humidity < 400
    case HighHumidity => r.humidity > 800
  }

  /** Position of each issue in the checking order: soil, temperature, light,
      humidity. */
  function Rank(i: Issue): nat
  {
    match i
    case SoilDry => 0
    case SoilWet => 1
    case TooHot => 2
    case TooCold => 3
    case LowLight => 4
    case LowHumidity => 5
    case HighHumidity => 6
  }

  const AllIssues: seq<Issue> := [SoilDry, SoilWet, TooHot, TooCold, LowLight, LowHumidity, HighHumidity]

  /** The issues of `candidates` whose condition holds of `r`, in order. */
  function Select(candidates: seq<Issue>, r: Reading): seq<Issue>
  {
    if candidates == [] then []
    else (if Fires(candidates[0], r) then [candidates[0]] else []) + Select(candidates[1..], r)
  }

  /** The issues reported for `r`: every issue whose condition holds, in
      checking order. */
  function Detected(r: Reading): seq<Issue>
  {
    Select(AllIssues, r)
  }

  function Label(i: Issue): string
  {
    match i
    case SoilDry => "Soil too dry!"
    case SoilWet => "Soil too wet!"
    case TooHot => "Too hot!"
    case TooCold => "Too cold!"
    case LowLight => "Low light!"
    case LowHumidity => "Low humidity!"
    case HighHumidity => "High humidity!"
  }

  const HealthyMessage := "Plant healthy!"
  const Separator := " | "

  /** The labels of `issues` joined by the separator: the summary begins with
      the first issue's full label, followed by the separator when more
      issues follow. */
  function JoinLabels(issues: seq<Issue>): (s: string)
    ensures issues != [] ==> Label(issues[0]) <= s
    ensures |issues| > 1 ==> Label(issues[0]) + Separator <= s
    ensures |issues| == 1 ==> s == Label(issues[0])
  {
    if issues == [] then ""
    else if |issues| == 1 then Label(issues[0])
    else Label(issues[0]) + Separator + JoinLabels(issues[1..])
  }

  /** The summary line for a list of issues. */
  function StatusLine(issues: seq<Issue>): string
  {
    if issues == [] then HealthyMessage else JoinLabels(issues)
  }

  /** The issue each sensor contributes; its two checks are exclusive. */
  function SensorIssues(first: Issue, second: Issue, r: Reading): seq<Issue>
  {
    if Fires(first, r) then [first] else if Fires(second, r) then [second] else []
  }

  /** Selecting from the single check of the light sensor. */
  lemma SelectSingle(x: Issue, r: Reading)
    ensures Select([x], r) == SensorIssues(x, x, r)
  {
    assert [x][1..] == [];
  }

  /** Selecting from the two checks of one sensor, which never both hold. */
  lemma SelectPair(x: Issue, y: Issue, r: Reading)
    requires !(Fires(x, r) && Fires(y, r))
    ensures Select([x, y], r) == SensorIssues(x, y, r)
  {
    assert [y][1..] == [];
    assert Select([y], r) == if Fires(y, r) then [y] else [];
    assert [x, y][1..] == [y];
  }

  /** Selecting from two lists one after the other selects from their
      concatenation. */
  lemma {:induction false} SelectAppend(a: seq<Issue>, b: seq<Issue>, r: Reading)
    ensures Select(a + b, r) == Select(a, r) + Select(b, r)
    decreases |a|
  {
    if a == [] {
      assert a + b == b;
    } else {
      assert (a + b)[1..] == a[1..] + b;
      SelectAppend(a[1..], b, r);
    }
  }

  /** The issues reported for `r`, sensor by sensor. */
  lemma DetectedBySensor(r: Reading)
    ensures Detected(r) == SensorIssues(SoilDry, SoilWet, r) + SensorIssues(TooHot, TooCold, r) +
      SensorIssues(LowLight, LowLight, r) + SensorIssues(LowHumidity, HighHumidity, r)
  {
    var soil, temp, light, humidity := [SoilDry, SoilWet], [TooHot, TooCold], [LowLight], [LowHumidity, HighHumidity];
    SelectPair(SoilDry, SoilWet, r);
    SelectPair(TooHot, TooCold, r);
    SelectSingle(LowLight, r);
    SelectPair(LowHumidity, HighHumidity, r);
    SelectAppend(soil, temp, r);
    SelectAppend(soil + temp, light, r);
    SelectAppend(soil + temp + light, humidity, r);
    assert soil + temp + light + humidity == AllIssues;
  }

  /** Checks the sensors in order and collects one issue per failed check; at
      most one of each exclusive pair is reported. */
  method GetHealthStatus(r: Reading) returns (status: string)
    ensures status == StatusLine(Detected(r))
  {
    var issues: seq<Issue> := [];
    if r.soil < 1800 {
      issues := issues + [SoilDry];
    } else if r.soil > 2600 {
      issues := issues + [SoilWet];
    }
    assert issues == SensorIssues(SoilDry, SoilWet, r);
    ghost var soil := issues;
    if r.temp > 350 {
      issues := issues + [TooHot];
    } else if r.temp < 200 {
      issues := issues + [TooCold];
    }
    assert issues == soil + SensorIssues(TooHot, TooCold, r);
    ghost var temp := issues;
    if r.light < 500 {
      issues := issues + [LowLight];
    }
    assert issues == temp + SensorIssues(LowLight, LowLight, r);
    ghost var light := issues;
    if r.humidity < 400 {
      issues := issues + [LowHumidity];
    } else if r.humidity > 800 {
      issues := issues + [HighHumidity];
    }
    assert issues == light + SensorIssues(LowHumidity, HighHumidity, r);
    DetectedBySensor(r);
    status := if issues == [] then HealthyMessage else JoinLabels(issues);
  }

  lemma {:induction false} SelectSpec(candidates: seq<Issue>, r: Reading)
    ensures forall i :: i in Select(candidates, r) <==> i in candidates && Fires(i, r)
    ensures forall a, b :: 0 <= a < b < |Select(candidates, r)| ==>
      (forall x, y :: 0 <= x < y < |candidates| ==> Rank(candidates[x]) < Rank(candidates[y])) ==>
      Rank(Select(candidates, r)[a]) < Rank(Select(candidates, r)[b])
    decreases |candidates|
  {
    if candidates != [] {
      SelectSpec(candidates[1..], r);
      var head := if Fires(candidates[0], r) then [candidates[0]] else [];
      var rest := Select(candidates[1..], r);
      assert Select(candidates, r) == head + rest;
      forall a, b | 0 <= a < b < |Select(candidates, r)| &&
        (forall x, y :: 0 <= x < y < |candidates| ==> Rank(candidates[x]) < Rank(candidates[y]))
        ensures Rank(Select(candidates, r)[a]) < Rank(Select(candidates, r)[b])
      {
        assert forall x, y :: 0 <= x < y < |candidates[1..]| ==>
          Rank(candidates[1..][x]) < Rank(candidates[1..][y]) by {
          forall x, y | 0 <= x < y < |candidates[1..]|
            ensures Rank(candidates[1..][x]) < Rank(candidates[1..][y])
          {
            assert candidates[1..][x] == candidates[x + 1] && candidates[1..][y] == candidates[y + 1];
          }
        }
        if |head| == 1 && a == 0 {
          var e := Select(candidates, r)[b];
          assert e in rest;
          var k :| 0 <= k < |candidates[1..]| && candidates[1..][k] == e;
          assert candidates[1..][k] == candidates[k + 1];
        }
      }
    }
  }

  /** An issue is reported exactly when its condition holds; the reported
      issues come in checking order (soil, temperature, light, humidity); and
      of each exclusive pair at most one is reported. */
  lemma DetectedSpec(r: Reading)
    ensures forall i :: i in Detected(r) <==> Fires(i, r)
    ensures forall a, b :: 0 <= a < b < |Detected(r)| ==> Rank(Detected(r)[a]) < Rank(Detected(r)[b])
    ensures !(SoilDry in Detected(r) && SoilWet in Detected(r))
    ensures !(TooHot in Detected(r) && TooCold in Detected(r))
    ensures !(LowHumidity in Detected(r) && HighHumidity in Detected(r))
  {
    SelectSpec(AllIssues, r);
    forall i ensures i in AllIssues {
      match i
      case SoilDry => assert AllIssues[0] == i;
      case SoilWet => assert AllIssues[1] == i;
      case TooHot => assert AllIssues[2] == i;
      case TooCold => assert AllIssues[3] == i;
      case LowLight => assert AllIssues[4] == i;
      case LowHumidity => assert AllIssues[5] == i;
      case HighHumidity => assert AllIssues[6] == i;
    }
  }

  /** The summary is the healthy message exactly when no issue is reported. */
  lemma HealthyIffNoIssue(r: Reading)
    ensures StatusLine(Detected(r)) == HealthyMessage <==> Detected(r) == []
    ensures StatusLine(Detected(r)) == HealthyMessage <==> forall i :: !Fires(i, r)
  {
    DetectedSpec(r);
    var d := Detected(r);
    if d != [] {
      var s := JoinLabels(d);
      assert s[0] == Label(d[0])[0];
      assert s[0] != HealthyMessage[0] by {
        match d[0]
        case SoilDry => {}
        case SoilWet => {}
        case TooHot => {}
        case TooCold => {}
        case LowLight => {}
        case LowHumidity => {}
        case HighHumidity => {}
      }
    }
    if d == [] {
      forall i ensures !Fires(i, r) {
        assert i !in d;
      }
    } else {
      assert d[0] in d;
    }
  }

  /** A reading on which no condition holds raises no issue. */
  lemma {:induction false} SelectNone(candidates: seq<Issue>, r: Reading)
    requires forall i :: !Fires(i, r)
    ensures Select(candidates, r) == []
    decreases |candidates|
  {
    if candidates != [] {
      SelectNone(candidates[1..], r);
    }
  }

  /** A healthy-plant reading never raises an issue. */
  lemma NormalAlwaysHealthy(count: int, d: Draw)
    ensures Detected(Generate(Normal, count, DefaultThresholds(), d)) == []
  {
    var r := Generate(Normal, count, DefaultThresholds(), d);
    forall i ensures !Fires(i, r) {
    }
    SelectNone(AllIssues, r);
  }

  /** A night reading always reports low light. */
  lemma NightAlwaysLowLight(count: int, d: Draw)
    ensures LowLight in Detected(Generate(NightTime, count, DefaultThresholds(), d))
  {
    DetectedSpec(Generate(NightTime, count, DefaultThresholds(), d));
  }

  /** From the 15th drought reading on, the baseline is at most 1650, so the
      soil is at most 1750 and dry soil is always the first issue reported. */
  lemma DroughtEventuallyDry(count: int, d: Draw)
    requires count >= 15
    ensures var r := Generate(DrySoil, count, DefaultThresholds(), d);
      Detected(r) != [] && Detected(r)[0] == SoilDry
  {
    var r := Generate(DrySoil, count, DefaultThresholds(), d);
    DetectedSpec(r);
    assert SoilDry in Detected(r);
  }

  /** With the default thresholds the fully random scenario never raises an
      issue: the thresholds are the health check's own healthy ranges. */
  lemma RandomDefaultAlwaysHealthy(count: int, d: Draw)
    ensures Detected(Generate(Random, count, DefaultThresholds(), d)) == []
  {
    var r := Generate(Random, count, DefaultThresholds(), d);
    forall i ensures !Fires(i, r) {
    }
    SelectNone(AllIssues, r);
  }
}
