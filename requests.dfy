/** The argument checks of the Lakeshore 350's setters: each either yields the
    one command the setter writes or the ValueError it raises instead, and a
    setter writes its command only on a configured instrument. */
module Requests {
  import opened Wrappers
  import opened Text
  import opened Decimal
  import opened Transport
  import opened Protocol

  const RangeMessage := "Heater range or output outside of allowed range!"
  const ManualOutputMessage := "Heater range or value outside of allowed range!"
  const SetpointMessage := "Heater output outside of allowed range!"
  const OutputModeMessage := "Heater output, mode, or input outside of allowed range!"

  /** `output in [1,2]`: the two heater outputs the driver drives. */
  predicate IsHeater(output: int)
  {
    output in {1, 2}
  }

  /** set_heater_range: output 1 or 2 and range 0 (off) to 5. */
  function HeaterRangeRequest(output: int, range: int): (r: Result<Command, Error>)
    ensures r.Ok? <==> (output == 1 || output == 2) && 0 <= range <= 5
    ensures r.Ok? ==> Encode(r.value) == CommandLine("RANGE", [NatToString(output), NatToString(range)])
    ensures r.Err? ==> r.error == BadArgument(RangeMessage)
  {
    if IsHeater(output) && 0 <= range <= 5 then
      var c := HeaterRange(output, range);
      EncodeWithArguments(c);
      assert Arguments(c) == [NatToString(output), NatToString(range)];
      Ok(c)
    else Err(BadArgument(RangeMessage))
  }

  /** set_heater_output: output 1 or 2 and a percentage from 0 to 100, both
      ends included, written with two decimals. */
  function ManualOutputRequest(output: int, value: real): (r: Result<Command, Error>)
    ensures r.Ok? <==> (output == 1 || output == 2) && 0.0 <= value <= 100.0
    ensures r.Ok? ==> Encode(r.value) == CommandLine("MOUT", [NatToString(output), FormatFixed(value, 2)])
    ensures r.Err? ==> r.error == BadArgument(ManualOutputMessage)
  {
    if IsHeater(output) && value >= 0.0 && value <= 100.0 then
      var c := ManualOutput(output, RoundToFixed(value, PercentPlaces));
      EncodeWithArguments(c);
      assert Arguments(c) == [NatToString(output), FormatFixed(value, 2)];
      Ok(c)
    else Err(BadArgument(ManualOutputMessage))
  }

  /** set_PID_temp: only the output is checked; any setpoint is written with
      six decimals. */
  function SetpointRequest(output: int, temp: real): (r: Result<Command, Error>)
    ensures r.Ok? <==> output == 1 || output == 2
    ensures r.Ok? ==> Encode(r.value) == CommandLine("SETP", [NatToString(output), FormatFixed(temp, 6)])
    ensures r.Err? ==> r.error == BadArgument(SetpointMessage)
  {
    if IsHeater(output) then
      var c := Setpoint(output, RoundToFixed(temp, FloatPlaces));
      EncodeWithArguments(c);
      assert Arguments(c) == [NatToString(output), FormatFixed(temp, 6)];
      Ok(c)
    else Err(BadArgument(SetpointMessage))
  }

  /** set_PID_params: nothing is checked. */
  function PidGainsRequest(p: real, i: real, d: real): (r: Result<Command, Error>)
    ensures r.Ok?
    ensures Encode(r.value) == CommandLine("PID", [FormatFixed(p, 6), FormatFixed(i, 6), FormatFixed(d, 6)])
  {
    var gains := [RoundToFixed(p, FloatPlaces), RoundToFixed(i, FloatPlaces), RoundToFixed(d, FloatPlaces)];
    var c := PidGains(gains[0], gains[1], gains[2]);
    EncodeWithArguments(c);
    assert Arguments(c) == [FormatFixed(p, 6), FormatFixed(i, 6), FormatFixed(d, 6)];
    Ok(c)
  }

  /** config_output: output 1 or 2, mode in range(6), input in range(5); the
      fourth field, powerup enable, is always 0. */
  function OutputModeRequest(output: int, mode: int, input: int): (r: Result<Command, Error>)
    ensures r.Ok? <==> (output == 1 || output == 2) && 0 <= mode < 6 && 0 <= input < 5
    ensures r.Ok? ==>
      Encode(r.value) == CommandLine("OUTMODE", [NatToString(output), NatToString(mode), NatToString(input), "0"])
    ensures r.Err? ==> r.error == BadArgument(OutputModeMessage)
  {
    if IsHeater(output) && 0 <= mode < 6 && 0 <= input < 5 then
      var c := OutputMode(output, mode, input);
      EncodeWithArguments(c);
      assert Arguments(c) == [NatToString(output), NatToString(mode), NatToString(input), "0"];
      Ok(c)
    else Err(BadArgument(OutputModeMessage))
  }

  /** A manual output level that passes the check is written as a percentage
      that itself lies between 0 and 100: rounding to two decimals never
      leaves the range. */
  lemma PercentInRange(value: real)
    requires 0.0 <= value <= 100.0
    ensures var level := RoundToFixed(value, PercentPlaces);
      !level.negative && 0.0 <= FixedValue(level, PercentPlaces) <= 100.0
  {
    var level := RoundToFixed(value, PercentPlaces);
    assert Pow10(PercentPlaces) == 100;
    RoundedPercent(value, level.scaled);
    assert FixedValue(level, PercentPlaces) == level.scaled as real / 100.0;
  }

  lemma RoundedPercent(value: real, n: nat)
    requires 0.0 <= value <= 100.0 && n == RoundHalfEven(Abs(value) * 100.0)
    ensures n <= 10000
  {
  }

  /** What a setter returns: the ValueError first, then the AttributeError of
      an instrument whose construction stopped early, else nothing. */
  function SettingOutcome(request: Result<Command, Error>, configured: bool): (r: Outcome<Error>)
    ensures r.Pass? <==> request.Ok? && configured
    ensures request.Err? ==> r == Fail(request.error)
  {
    if request.Err? then Fail(request.error)
    else if !configured then Fail(Unconfigured)
    else Pass
  }

  /** What a setter does to the session of a configured instrument. */
  function SettingSession(request: Result<Command, Error>, s: Session): Session
  {
    if request.Ok? then Transmit(s, Encode(request.value)) else s
  }

  /** A setter on a configured instrument writes exactly one line, the
      encoded command, when its arguments pass the check, and nothing when
      they do not; it reads nothing either way. */
  lemma SettingWrites(request: Result<Command, Error>, s: Session)
    ensures SettingSession(request, s).replies == s.replies
    ensures SettingOutcome(request, true).Pass? ==>
      SettingSession(request, s).trace == s.trace + [Sent(Encode(request.value))]
    ensures SettingOutcome(request, true).Fail? ==> SettingSession(request, s) == s
  {
  }

  /** The line a passing setter writes reads back, at the instrument, as the
      command it encodes. */
  lemma SettingDecodes(request: Result<Command, Error>)
    requires request.Ok?
    ensures Decode(Encode(request.value)) == Some(request.value)
  {
    DecodeEncode(request.value);
  }

  lemma RequestExamples()
    ensures HeaterRangeRequest(1, 3) == Ok(HeaterRange(1, 3))
    ensures HeaterRangeRequest(3, 0) == Err(BadArgument(RangeMessage))
    ensures HeaterRangeRequest(2, 6) == Err(BadArgument(RangeMessage))
    ensures ManualOutputRequest(1, 100.0).Ok? && ManualOutputRequest(1, 100.01).Err?
    ensures ManualOutputRequest(2, 0.0).Ok? && ManualOutputRequest(2, -0.5).Err?
    ensures SetpointRequest(0, 4.0).Err? && SetpointRequest(2, -1.0).Ok?
    ensures OutputModeRequest(2, 1, 4) == Ok(OutputMode(2, 1, 4))
    ensures OutputModeRequest(1, 6, 0).Err? && OutputModeRequest(1, 0, 5).Err?
  {
  }
}
