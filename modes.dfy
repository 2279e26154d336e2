/** The five simulation scenarios and the selection of one of them from the
    command line. */
module Modes {

  datatype Option<T> = None | Some(value: T)

  /** A closed set of simulation scenarios, fixed for a simulator's lifetime. */
  datatype Mode = Normal | DrySoil | HotWeather | NightTime | Random

  /** The string value each scenario carries (its enum value). */
  function ModeValue(m: Mode): string
  {
    match m
    case Normal => "normal"
    case DrySoil => "dry_soil"
    case HotWeather => "hot_weather"
    case NightTime => "night_time"
    case Random => "random"
  }

  /** Looking a scenario up by its exact value: the enum constructor, which
      fails (here `None`) on any string that is not one of the five values. */
  function LookupMode(v: string): (r: Option<Mode>)
    ensures r.Some? ==> ModeValue(r.value) == v
    ensures forall m :: ModeValue(m) == v ==> r == Some(m)
  {
    if v == "normal" then Some(Normal)
    else if v == "dry_soil" then Some(DrySoil)
    else if v == "hot_weather" then Some(HotWeather)
    else if v == "night_time" then Some(NightTime)
    else if v == "random" then Some(Random)
    else None
  }

  function LowerChar(c: char): char
  {
    if 'A' <= c <= 'Z' then (c as int - 'A' as int + 'a' as int) as char else c
  }

  /** Lower-casing of the ASCII letters; every other character is kept. */
  function Lower(s: string): (r: string)
    ensures |r| == |s|
    ensures forall i :: 0 <= i < |s| ==> r[i] == LowerChar(s[i])
  {
    seq(|s|, i requires 0 <= i < |s| => LowerChar(s[i]))
  }

  /** The scenario chosen by the program's arguments (`argv[0]` is the program
      name): the scenario whose value equals the lower-cased first argument,
      and `Normal` when there is no argument or it names no scenario. */
  function ModeFromArgs(argv: seq<string>): (m: Mode)
    ensures |argv| <= 1 ==> m == Normal
    ensures |argv| > 1 ==> forall k :: ModeValue(k) == Lower(argv[1]) ==> m == k
    ensures |argv| > 1 && LookupMode(Lower(argv[1])).None? ==> m == Normal
    ensures m == Normal || (|argv| > 1 && Lower(argv[1]) == ModeValue(m))
  {
    if |argv| > 1 then
      match LookupMode(Lower(argv[1]))
      case Some(k) => k
      case None => Normal
    else Normal
  }

  /** Distinct scenarios carry distinct values, so a selection is unambiguous. */
  lemma ModeValueInjective(m: Mode, k: Mode)
    requires ModeValue(m) == ModeValue(k)
    ensures m == k
  {
    assert LookupMode(ModeValue(m)) == Some(m);
  }

  /** Every value is already lower case, so the value of any scenario, and any
      spelling of it whose lower-casing gives it back, selects that scenario. */
  lemma {:induction false} ValueSelectsMode(m: Mode, program: string)
    ensures ModeFromArgs([program, ModeValue(m)]) == m
  {
    var v := ModeValue(m);
    assert Lower(v) == v by {
      forall i | 0 <= i < |v| ensures Lower(v)[i] == v[i] {
        assert !('A' <= v[i] <= 'Z');
      }
    }
  }

  /** A concrete upper-case argument selects the scenario it spells. */
  lemma UpperCaseArgument()
    ensures ModeFromArgs(["simulator.py", "DRY_SOIL"]) == DrySoil
  {
    var s := "DRY_SOIL";
    assert Lower(s) == "dry_soil" by {
      assert Lower(s)[0] == 'd' && Lower(s)[1] == 'r' && Lower(s)[2] == 'y' && Lower(s)[3] == '_';
      assert Lower(s)[4] == 's' && Lower(s)[5] == 'o' && Lower(s)[6] == 'i' && Lower(s)[7] == 'l';
    }
  }
}
