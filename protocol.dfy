/** The Lakeshore command language and the decoding of batched responses.
    A command is one ASCII line: a mnemonic, optionally a space and
    comma-separated arguments, then CR LF. A batched response is one line of
    comma-separated numbers, one per channel in declaration order. */
module Protocol {
  import opened Wrappers
  import opened Text
  import opened Decimal

  /** Fraction digits of the '%.2f' in MOUT and of the '%f' in SETP and PID. */
  const PercentPlaces: nat := 2
  const FloatPlaces: nat := 6

  datatype Command =
    | KelvinReading(channel: Option<nat>)          // KRDG? [n]
    | SensorReading(channel: Option<nat>)          // SRDG? [n]
    | PowerReading(sensor: nat)                    // RDGPWR? n
    | HeaterRange(output: nat, range: nat)         // RANGE o,r
    | ManualOutput(output: nat, percent: Fixed)    // MOUT o,v
    | Setpoint(output: nat, kelvin: Fixed)         // SETP o,t
    | PidGains(p: Fixed, i: Fixed, d: Fixed)       // PID p,i,d
    | OutputMode(output: nat, mode: nat, input: nat)  // OUTMODE o,m,i,0

  /** The exceptions the driver raises, by cause. */
  datatype Error =
    | BadArgument(message: string)  // ValueError raised by a heater setter
    | NotANumber(text: string)      // ValueError raised by float() on a response
    | MissingField                  // IndexError: fewer response fields than channel names
    | NoReply                       // socket timeout or serial fault while reading
    | Unconfigured                  // AttributeError: a Lakeshore350 whose construction stopped early

  function Mnemonic(c: Command): string
  {
    match c
    case KelvinReading(_) => "KRDG?"
    case SensorReading(_) => "SRDG?"
    case PowerReading(_) => "RDGPWR?"
    case HeaterRange(_, _) => "RANGE"
    case ManualOutput(_, _) => "MOUT"
    case Setpoint(_, _) => "SETP"
    case PidGains(_, _, _) => "PID"
    case OutputMode(_, _, _) => "OUTMODE"
  }

  function ChannelArguments(channel: Option<nat>): seq<string>
  {
    match channel
    case None => []
    case Some(n) => [NatToString(n)]
  }

  function Arguments(c: Command): seq<string>
  {
    match c
    case KelvinReading(ch) => ChannelArguments(ch)
    case SensorReading(ch) => ChannelArguments(ch)
    case PowerReading(n) => [NatToString(n)]
    case HeaterRange(o, r) => [NatToString(o), NatToString(r)]
    case ManualOutput(o, v) => [NatToString(o), RenderFixed(v, PercentPlaces)]
    case Setpoint(o, t) => [NatToString(o), RenderFixed(t, FloatPlaces)]
    case PidGains(p, i, d) => [RenderFixed(p, FloatPlaces), RenderFixed(i, FloatPlaces), RenderFixed(d, FloatPlaces)]
    case OutputMode(o, m, i) => [NatToString(o), NatToString(m), NatToString(i), "0"]
  }

  /** The bytes of one command line, as the driver writes them. */
  function Encode(c: Command): string
  {
    var args := Arguments(c);
    Mnemonic(c) + (if args == [] then "" else " " + Join(args, ',')) + "\r\n"
  }

  /** A line with arguments: the mnemonic, one space, the comma-separated
      arguments, CR LF. */
  function CommandLine(mnemonic: string, args: seq<string>): string
  {
    mnemonic + " " + Join(args, ',') + "\r\n"
  }

  lemma EncodeWithArguments(c: Command)
    requires Arguments(c) != []
    ensures Encode(c) == CommandLine(Mnemonic(c), Arguments(c))
  {
  }

  /** The instrument's reading of a command line. */
  function Decode(line: string): Option<Command>
  {
    match Words(line)
    case None => None
    case Some((mnemonic, args)) => FromWords(mnemonic, args)
  }

  /** A line cut into its mnemonic and its arguments: CR LF at the end, at
      most one space, the arguments separated by commas. */
  function Words(line: string): Option<(string, seq<string>)>
  {
    if |line| < 2 || line[|line| - 2..] != "\r\n" then None
    else
      var words := Split(line[..|line| - 2], ' ');
      if |words| == 1 then Some((words[0], []))
      else if |words| == 2 then Some((words[0], Split(words[1], ',')))
      else None
  }

  function ChannelFrom(args: seq<string>): Option<Option<nat>>
  {
    if args == [] then Some(None)
    else if |args| == 1 then
      match ParseNat(args[0])
      case None => None
      case Some(n) => Some(Some(n))
    else None
  }

  function FromWords(mnemonic: string, args: seq<string>): Option<Command>
  {
    if mnemonic == "KRDG?" then
      match ChannelFrom(args)
      case None => None
      case Some(ch) => Some(KelvinReading(ch))
    else if mnemonic == "SRDG?" then
      match ChannelFrom(args)
      case None => None
      case Some(ch) => Some(SensorReading(ch))
    else if mnemonic == "RDGPWR?" && |args| == 1 then
      match ParseNat(args[0])
      case None => None
      case Some(n) => Some(PowerReading(n))
    else if mnemonic == "RANGE" && |args| == 2 then
      match (ParseNat(args[0]), ParseNat(args[1]))
      case (Some(o), Some(r)) => Some(HeaterRange(o, r))
      case _ => None
    else if mnemonic == "MOUT" && |args| == 2 then
      match (ParseNat(args[0]), ParseFixed(args[1], PercentPlaces))
      case (Some(o), Some(v)) => Some(ManualOutput(o, v))
      case _ => None
    else if mnemonic == "SETP" && |args| == 2 then
      match (ParseNat(args[0]), ParseFixed(args[1], FloatPlaces))
      case (Some(o), Some(t)) => Some(Setpoint(o, t))
      case _ => None
    else if mnemonic == "PID" && |args| == 3 then
      match (ParseFixed(args[0], FloatPlaces), ParseFixed(args[1], FloatPlaces), ParseFixed(args[2], FloatPlaces))
      case (Some(p), Some(i), Some(d)) => Some(PidGains(p, i, d))
      case _ => None
    else if mnemonic == "OUTMODE" && |args| == 4 && args[3] == "0" then
      match (ParseNat(args[0]), ParseNat(args[1]), ParseNat(args[2]))
      case (Some(o), Some(m), Some(i)) => Some(OutputMode(o, m, i))
      case _ => None
    else None
  }

  lemma NatToStringAvoids(n: nat, c: char)
    requires !IsDigit(c)
    ensures c !in NatToString(n)
  {
    var s := NatToString(n);
    assert forall i :: 0 <= i < |s| ==> IsDigit(s[i]);
  }

  /** No argument contains a space, a comma or a line break. */
  lemma ArgumentsAvoid(c: Command, x: char)
    requires x == ' ' || x == ','
    ensures forall i :: 0 <= i < |Arguments(c)| ==> x !in Arguments(c)[i]
  {
    forall n: nat { NatToStringAvoids(n, x); }
    forall f: Fixed, places: nat { RenderFixedAvoids(f, places, x); }
  }

  /** The arguments read back as the command they came from. */
  lemma FromWordsArguments(c: Command)
    ensures FromWords(Mnemonic(c), Arguments(c)) == Some(c)
  {
    if c.KelvinReading? || c.SensorReading? || c.PowerReading? || c.HeaterRange? {
      QueryArguments(c);
    } else if c.OutputMode? {
      var o, m, i := c.output, c.mode, c.input;
      ParseNatToString(o); ParseNatToString(m); ParseNatToString(i);
    } else {
      SettingArguments(c);
    }
  }

  lemma QueryArguments(c: Command)
    requires c.KelvinReading? || c.SensorReading? || c.PowerReading? || c.HeaterRange?
    ensures FromWords(Mnemonic(c), Arguments(c)) == Some(c)
  {
    match c
    case KelvinReading(ch) => if ch.Some? { ParseNatToString(ch.value); }
    case SensorReading(ch) => if ch.Some? { ParseNatToString(ch.value); }
    case PowerReading(n) => ParseNatToString(n);
    case HeaterRange(o, r) => ParseNatToString(o); ParseNatToString(r);
  }

  lemma SettingArguments(c: Command)
    requires c.ManualOutput? || c.Setpoint? || c.PidGains?
    ensures FromWords(Mnemonic(c), Arguments(c)) == Some(c)
  {
    match c
    case ManualOutput(o, v) => ManualOutputArguments(o, v);
    case Setpoint(o, t) => SetpointArguments(o, t);
    case PidGains(p, i, d) => PidGainsArguments(p, i, d);
  }

  lemma ManualOutputArguments(o: nat, v: Fixed)
    ensures FromWords("MOUT", [NatToString(o), RenderFixed(v, PercentPlaces)]) == Some(ManualOutput(o, v))
  {
    ParseNatToString(o);
    ParseRenderFixed(v, PercentPlaces);
  }

  lemma SetpointArguments(o: nat, t: Fixed)
    ensures FromWords("SETP", [NatToString(o), RenderFixed(t, FloatPlaces)]) == Some(Setpoint(o, t))
  {
    ParseNatToString(o);
    ParseRenderFixed(t, FloatPlaces);
  }

  lemma PidGainsArguments(p: Fixed, i: Fixed, d: Fixed)
    ensures FromWords("PID", [RenderFixed(p, FloatPlaces), RenderFixed(i, FloatPlaces), RenderFixed(d, FloatPlaces)])
      == Some(PidGains(p, i, d))
  {
    ParseRenderFixed(p, FloatPlaces);
    ParseRenderFixed(i, FloatPlaces);
    ParseRenderFixed(d, FloatPlaces);
  }

  /** Every command line the driver writes is read by the instrument as the
      command it encodes. */
  lemma DecodeEncode(c: Command)
    ensures Decode(Encode(c)) == Some(c)
  {
    var m, args := Mnemonic(c), Arguments(c);
    assert ' ' !in m;
    if args == [] {
      assert Encode(c) == m + "\r\n";
      WordsBare(m);
    } else {
      EncodeWithArguments(c);
      ArgumentsAvoid(c, ' ');
      ArgumentsAvoid(c, ',');
      WordsWith(m, args);
    }
    FromWordsArguments(c);
  }

  /** A mnemonic alone on its line. */
  lemma WordsBare(m: string)
    requires ' ' !in m
    ensures Words(m + "\r\n") == Some((m, []))
  {
    var line := m + "\r\n";
    assert line[|line| - 2..] == "\r\n";
    assert line[..|line| - 2] == m;
    SplitWithoutSeparator(m, ' ');
  }

  /** A mnemonic and arguments that hold no space or comma come back out of
      their line. */
  lemma WordsWith(m: string, args: seq<string>)
    requires ' ' !in m && args != []
    requires forall i :: 0 <= i < |args| ==> ' ' !in args[i]
    requires forall i :: 0 <= i < |args| ==> ',' !in args[i]
    ensures Words(CommandLine(m, args)) == Some((m, args))
  {
    var j := Join(args, ',');
    var line := CommandLine(m, args);
    var body := m + " " + j;
    assert line == body + "\r\n";
    assert line[|line| - 2..] == "\r\n";
    assert line[..|line| - 2] == body;
    JoinAvoids(args, ',', ' ');
    SplitTwoWords(m, j);
    SplitJoin(args, ',');
  }

  /** Two words without spaces, joined by one space, split back into those
      two words. */
  lemma SplitTwoWords(m: string, j: string)
    requires ' ' !in m && ' ' !in j
    ensures Split(m + " " + j, ' ') == [m, j]
  {
    assert m + " " + j == m + [' '] + j;
    SplitAround(m, j, ' ');
    SplitWithoutSeparator(m, ' ');
    SplitWithoutSeparator(j, ' ');
  }

  lemma EncodeExamples()
    ensures Encode(HeaterRange(1, 3)) == "RANGE 1,3\r\n"
    ensures Encode(OutputMode(2, 1, 4)) == "OUTMODE 2,1,4,0\r\n"
    ensures Encode(KelvinReading(Some(0))) == "KRDG? 0\r\n"
    ensures Encode(KelvinReading(None)) == "KRDG?\r\n"
    ensures Encode(PowerReading(12)) == "RDGPWR? 12\r\n"
  {
    assert NatToString(12) == "12";
  }

  // ---------------------------------------------------------------------------
  // Batched responses: the response split at commas, field j read as a number
  // and stored under channel name j, for each name in turn

  /** The dictionary built by storing vals[j] under keys[j] for j = 0, 1, ...
      in turn, a later key overwriting an earlier equal one. */
  function Assign<K, V>(m: map<K, V>, keys: seq<K>, vals: seq<V>): map<K, V>
    requires |keys| == |vals|
    decreases |keys|
  {
    if keys == [] then m else Assign(m[keys[0] := vals[0]], keys[1..], vals[1..])
  }

  lemma {:induction false} AssignKeys<K, V>(m: map<K, V>, keys: seq<K>, vals: seq<V>)
    requires |keys| == |vals|
    ensures Assign(m, keys, vals).Keys == m.Keys + (set j | 0 <= j < |keys| :: keys[j])
    decreases |keys|
  {
    if keys != [] {
      AssignKeys(m[keys[0] := vals[0]], keys[1..], vals[1..]);
      var rest := set j | 0 <= j < |keys| - 1 :: keys[1..][j];
      var all := set j | 0 <= j < |keys| :: keys[j];
      assert all == {keys[0]} + rest by {
        forall k | k in all ensures k in {keys[0]} + rest {
          var j :| 0 <= j < |keys| && keys[j] == k;
          if j > 0 { assert keys[1..][j - 1] == k; }
        }
      }
    }
  }

  lemma {:induction false} AssignUntouched<K, V>(m: map<K, V>, keys: seq<K>, vals: seq<V>, k: K)
    requires |keys| == |vals| && k in m
    requires forall j :: 0 <= j < |keys| ==> keys[j] != k
    ensures k in Assign(m, keys, vals) && Assign(m, keys, vals)[k] == m[k]
    decreases |keys|
  {
    if keys != [] {
      AssignUntouched(m[keys[0] := vals[0]], keys[1..], vals[1..], k);
    }
  }

  /** A key holds the value stored with its last occurrence. */
  lemma {:induction false} AssignLast<K, V>(m: map<K, V>, keys: seq<K>, vals: seq<V>, j: nat)
    requires |keys| == |vals| && j < |keys|
    requires forall i :: j < i < |keys| ==> keys[i] != keys[j]
    ensures keys[j] in Assign(m, keys, vals) && Assign(m, keys, vals)[keys[j]] == vals[j]
    decreases |keys|
  {
    if j == 0 {
      AssignUntouched(m[keys[0] := vals[0]], keys[1..], vals[1..], keys[0]);
    } else {
      AssignLast(m[keys[0] := vals[0]], keys[1..], vals[1..], j - 1);
    }
  }

  /** float() of every field, or None when one of them is not a number. */
  function ParseAll(fields: seq<string>): (r: Option<seq<real>>)
    ensures r.Some? ==> |r.value| == |fields|
    decreases |fields|
  {
    if fields == [] then Some([])
    else
      match (ParseFloat(fields[0]), ParseAll(fields[1..]))
      case (Some(v), Some(vs)) => Some([v] + vs)
      case _ => None
  }

  lemma {:induction false} ParseAllEach(fields: seq<string>)
    ensures ParseAll(fields).Some? <==> forall j :: 0 <= j < |fields| ==> ParseFloat(fields[j]).Some?
    ensures ParseAll(fields).Some? ==> forall j :: 0 <= j < |fields| ==> ParseAll(fields).value[j] == ParseFloat(fields[j]).value
    decreases |fields|
  {
    if fields != [] {
      ParseAllEach(fields[1..]);
      assert forall j :: 1 <= j < |fields| ==> fields[1..][j - 1] == fields[j];
    }
  }

  /** The comprehension over channel names and response fields, evaluated left
      to right: the first field that is missing or not a number raises. */
  function Tabulate(names: seq<string>, fields: seq<string>, acc: map<string, real>): Result<map<string, real>, Error>
    decreases |names|
  {
    if names == [] then Ok(acc)
    else if fields == [] then Err(MissingField)
    else
      match ParseFloat(fields[0])
      case None => Err(NotANumber(fields[0]))
      case Some(v) => Tabulate(names[1..], fields[1..], acc[names[0] := v])
  }

  /** The readings in one batched response, keyed by channel name. */
  function DecodeBatch(names: seq<string>, response: string): Result<map<string, real>, Error>
  {
    Tabulate(names, Split(response, ','), map[])
  }

  lemma {:induction false} TabulateSucceeds(names: seq<string>, fields: seq<string>, acc: map<string, real>)
    ensures Tabulate(names, fields, acc).Ok? <==> |names| <= |fields| && ParseAll(fields[..|names|]).Some?
    decreases |names|
  {
    if names != [] && fields != [] {
      var v := ParseFloat(fields[0]);
      if v.Some? {
        TabulateSucceeds(names[1..], fields[1..], acc[names[0] := v.value]);
      }
      PrefixStep(fields, |names|);
    }
  }

  lemma PrefixStep(fields: seq<string>, n: nat)
    requires 0 < n
    ensures n <= |fields| ==> fields[..n][0] == fields[0] && fields[..n][1..] == fields[1..][..n - 1]
  {
  }

  lemma {:induction false} TabulateValue(names: seq<string>, fields: seq<string>, acc: map<string, real>)
    requires |names| <= |fields| && ParseAll(fields[..|names|]).Some?
    ensures Tabulate(names, fields, acc) == Ok(Assign(acc, names, ParseAll(fields[..|names|]).value))
    decreases |names|
  {
    if names != [] {
      PrefixStep(fields, |names|);
      var v := ParseFloat(fields[0]).value;
      TabulateValue(names[1..], fields[1..], acc[names[0] := v]);
    }
  }

  lemma {:induction false} TabulateShort(names: seq<string>, fields: seq<string>, acc: map<string, real>)
    requires |fields| < |names| && ParseAll(fields).Some?
    ensures Tabulate(names, fields, acc) == Err(MissingField)
    decreases |fields|
  {
    if fields != [] {
      var v := ParseFloat(fields[0]).value;
      TabulateShort(names[1..], fields[1..], acc[names[0] := v]);
    }
  }

  /** Read as a whole: a batch decodes exactly when the response has at least
      one field per name and those fields are numbers; then every name maps to
      the number in its own field (or the last field of its name, if names
      repeat), and no other key is present. */
  lemma DecodeBatchMeaning(names: seq<string>, response: string)
    ensures var fields, n := Split(response, ','), |names|;
      DecodeBatch(names, response).Ok? <==>
        n <= |fields| && forall j :: 0 <= j < n ==> ParseFloat(fields[j]).Some?
    ensures DecodeBatch(names, response).Ok? ==>
      DecodeBatch(names, response).value.Keys == set j | 0 <= j < |names| :: names[j]
    ensures var fields := Split(response, ',');
      forall j :: 0 <= j < |names| && DecodeBatch(names, response).Ok? && (forall i :: j < i < |names| ==> names[i] != names[j]) ==>
        names[j] in DecodeBatch(names, response).value
        && DecodeBatch(names, response).value[names[j]] == ParseFloat(fields[j]).value
  {
    var fields, n := Split(response, ','), |names|;
    TabulateSucceeds(names, fields, map[]);
    if n <= |fields| {
      ParseAllEach(fields[..n]);
      assert forall j :: 0 <= j < n ==> fields[..n][j] == fields[j];
      if ParseAll(fields[..n]).Some? {
        var vals := ParseAll(fields[..n]).value;
        TabulateValue(names, fields, map[]);
        AssignKeys(map[], names, vals);
        forall j | 0 <= j < n && (forall i :: j < i < n ==> names[i] != names[j])
          ensures names[j] in Assign(map[], names, vals) && Assign(map[], names, vals)[names[j]] == ParseFloat(fields[j]).value
        {
          AssignLast(map[], names, vals, j);
        }
      }
    }
  }

  /** A response with fewer fields than names, all of them numbers, raises
      IndexError: no partial dictionary is returned. */
  lemma DecodeBatchShort(names: seq<string>, response: string)
    requires |Split(response, ',')| < |names|
    requires forall j :: 0 <= j < |Split(response, ',')| ==> ParseFloat(Split(response, ',')[j]).Some?
    ensures DecodeBatch(names, response) == Err(MissingField)
  {
    ParseAllEach(Split(response, ','));
    TabulateShort(names, Split(response, ','), map[]);
  }

  lemma {:induction false} TabulateIgnoresExtra(names: seq<string>, fields: seq<string>, more: seq<string>, acc: map<string, real>)
    requires |names| <= |fields|
    ensures Tabulate(names, fields + more, acc) == Tabulate(names, fields, acc)
    decreases |names|
  {
    if names != [] {
      assert (fields + more)[0] == fields[0];
      assert (fields + more)[1..] == fields[1..] + more;
      var v := ParseFloat(fields[0]);
      if v.Some? {
        TabulateIgnoresExtra(names[1..], fields[1..], more, acc[names[0] := v.value]);
      }
    }
  }

  /** Fields after the last channel's are ignored, whatever they hold. */
  lemma DecodeBatchIgnoresExtra(names: seq<string>, response: string, extra: string)
    requires |names| <= |Split(response, ',')|
    ensures DecodeBatch(names, response + "," + extra) == DecodeBatch(names, response)
  {
    assert response + "," + extra == response + [','] + extra;
    SplitAround(response, extra, ',');
    TabulateIgnoresExtra(names, Split(response, ','), Split(extra, ','), map[]);
  }

  // ---------------------------------------------------------------------------
  // What an instrument sends back

  function RenderAll(values: seq<Fixed>, places: nat): (r: seq<string>)
    ensures |r| == |values|
    decreases |values|
  {
    if values == [] then [] else [RenderFixed(values[0], places)] + RenderAll(values[1..], places)
  }

  function ValuesOf(values: seq<Fixed>, places: nat): (r: seq<real>)
    ensures |r| == |values|
    decreases |values|
  {
    if values == [] then [] else [FixedValue(values[0], places)] + ValuesOf(values[1..], places)
  }

  /** A response line carrying fixed-point readings: the rendered numbers
      separated by commas, then CR LF. */
  function Response(values: seq<Fixed>, places: nat): string
  {
    Join(RenderAll(values, places), ',') + "\r\n"
  }

  /** The CR LF goes to the last field; the others are the rendered numbers. */
  lemma ResponseFields(values: seq<Fixed>, places: nat)
    requires values != []
    ensures var fields := Split(Response(values, places), ',');
      && |fields| == |values|
      && (forall j :: 0 <= j < |values| - 1 ==> fields[j] == RenderFixed(values[j], places))
      && fields[|values| - 1] == RenderFixed(values[|values| - 1], places) + "\r\n"
  {
    var r := RenderAll(values, places);
    var n := |values|;
    var fields := Split(Response(values, places), ',');
    ResponseSplit(values, places);
    forall j | 0 <= j < n - 1 ensures fields[j] == RenderFixed(values[j], places) {
      assert fields[j] == r[j];
      RenderAllAt(values, places, j);
    }
    assert fields[n - 1] == r[n - 1] + "\r\n";
    RenderAllAt(values, places, n - 1);
  }

  /** Splitting a response gives the rendered readings, the last with CR LF. */
  lemma ResponseSplit(values: seq<Fixed>, places: nat)
    requires values != []
    ensures var r := RenderAll(values, places);
      Split(Response(values, places), ',') == r[..|values| - 1] + [r[|values| - 1] + "\r\n"]
  {
    RenderAllAvoids(values, places);
    assert ',' !in "\r\n";
    SplitJoinSuffix(RenderAll(values, places), ',', "\r\n");
  }

  lemma RenderAllAvoids(values: seq<Fixed>, places: nat)
    ensures forall i :: 0 <= i < |values| ==> ',' !in RenderAll(values, places)[i]
  {
    forall i | 0 <= i < |values| ensures ',' !in RenderAll(values, places)[i] {
      RenderAllAt(values, places, i);
      RenderFixedAvoids(values[i], places, ',');
    }
  }

  lemma {:induction false} RenderAllAt(values: seq<Fixed>, places: nat, j: nat)
    requires j < |values|
    ensures RenderAll(values, places)[j] == RenderFixed(values[j], places)
    decreases j
  {
    if j > 0 { RenderAllAt(values[1..], places, j - 1); }
  }

  lemma {:induction false} ValuesOfAt(values: seq<Fixed>, places: nat, j: nat)
    requires j < |values|
    ensures ValuesOf(values, places)[j] == FixedValue(values[j], places)
    decreases j
  {
    if j > 0 { ValuesOfAt(values[1..], places, j - 1); }
  }

  lemma {:induction false} ValuesOfPrefix(values: seq<Fixed>, places: nat, k: nat)
    requires k <= |values|
    ensures ValuesOf(values[..k], places) == ValuesOf(values, places)[..k]
    decreases k
  {
    if k > 0 {
      assert values[..k][1..] == values[1..][..k - 1];
      ValuesOfPrefix(values[1..], places, k - 1);
    }
  }

  lemma {:induction false} ParseAllPrefix(fields: seq<string>, k: nat)
    requires k <= |fields| && ParseAll(fields).Some?
    ensures ParseAll(fields[..k]) == Some(ParseAll(fields).value[..k])
    decreases k
  {
    if k > 0 {
      var vs := ParseAll(fields).value;
      var v := ParseFloat(fields[0]).value;
      var rest := ParseAll(fields[1..]).value;
      assert vs == [v] + rest;
      PrefixStep(fields, k);
      ParseAllPrefix(fields[1..], k - 1);
      assert ParseAll(fields[..k]) == Some([v] + rest[..k - 1]);
      assert vs[..k] == [v] + rest[..k - 1];
    }
  }

  /** Every field of a response parses, to the reading it was rendered from. */
  lemma ResponseReadings(values: seq<Fixed>, places: nat)
    requires values != []
    ensures ParseAll(Split(Response(values, places), ',')) == Some(ValuesOf(values, places))
  {
    var fields := Split(Response(values, places), ',');
    var n := |values|;
    ResponseFields(values, places);
    ResponseFieldsParse(values, places, fields);
    ParseAllEach(fields);
    var parsed := ParseAll(fields).value;
    var expected := ValuesOf(values, places);
    forall j | 0 <= j < n ensures parsed[j] == expected[j] {
      ValuesOfAt(values, places, j);
    }
    assert |parsed| == |expected|;
    assert parsed == expected;
  }

  lemma ResponseFieldsParse(values: seq<Fixed>, places: nat, fields: seq<string>)
    requires |fields| == |values| > 0
    requires forall j :: 0 <= j < |values| - 1 ==> fields[j] == RenderFixed(values[j], places)
    requires fields[|values| - 1] == RenderFixed(values[|values| - 1], places) + "\r\n"
    ensures forall j :: 0 <= j < |fields| ==> ParseFloat(fields[j]) == Some(FixedValue(values[j], places))
  {
    forall j | 0 <= j < |fields| ensures ParseFloat(fields[j]) == Some(FixedValue(values[j], places)) {
      if j < |fields| - 1 { ParseFloatRender(values[j], places); }
      else { ParseFloatRenderTerminated(values[j], places); }
    }
  }

  /** An instrument response with one fixed-point reading per channel decodes
      to exactly those readings under the channel names; a longer response
      decodes the same from its first readings, and a shorter one raises
      IndexError. */
  lemma DecodeResponse(names: seq<string>, values: seq<Fixed>, places: nat)
    requires values != []
    ensures |names| <= |values| ==>
      DecodeBatch(names, Response(values, places)) == Ok(Assign(map[], names, ValuesOf(values[..|names|], places)))
    ensures |values| < |names| ==> DecodeBatch(names, Response(values, places)) == Err(MissingField)
  {
    var fields := Split(Response(values, places), ',');
    ResponseReadings(values, places);
    if |values| < |names| {
      TabulateShort(names, fields, map[]);
    } else {
      var k := |names|;
      ParseAllPrefix(fields, k);
      ValuesOfPrefix(values, places, k);
      TabulateValue(names, fields, map[]);
    }
  }

  lemma RenderExamples()
    ensures RenderFixed(Fixed(false, 105), 1) == "10.5"
    ensures RenderFixed(Fixed(false, 203), 1) == "20.3"
    ensures RenderFixed(Fixed(false, 150), 1) == "15.0"
  {
    assert Shift(105, 1) == 10 && Shift(203, 1) == 20 && Shift(150, 1) == 15;
    assert NatToString(1) == "1" && NatToString(2) == "2";
    assert NatToString(10) == "10" && NatToString(20) == "20" && NatToString(15) == "15";
    assert FixedDigits(105, 1) == "5" && FixedDigits(203, 1) == "3" && FixedDigits(150, 1) == "0";
  }

  lemma ParseFieldExample1()
    ensures ParseFloat("10.5") == Some(10.5)
  {
    RenderExamples();
    ParseFloatRender(Fixed(false, 105), 1);
    assert FixedValue(Fixed(false, 105), 1) == 10.5;
  }

  lemma ParseFieldExample2()
    ensures ParseFloat("20.3") == Some(20.3)
  {
    RenderExamples();
    ParseFloatRender(Fixed(false, 203), 1);
    assert FixedValue(Fixed(false, 203), 1) == 20.3;
  }

  lemma ParseFieldExample3()
    ensures ParseFloat("15.0") == Some(15.0)
  {
    RenderExamples();
    ParseFloatRender(Fixed(false, 150), 1);
    assert FixedValue(Fixed(false, 150), 1) == 15.0;
  }

  /** The readings of a three-channel response line. */
  lemma DecodeBatchExample()
    ensures DecodeBatch(["A", "B", "C"], "10.5,20.3,15.0") == Ok(map["A" := 10.5, "B" := 20.3, "C" := 15.0])
  {
    var fields := ["10.5", "20.3", "15.0"];
    assert "10.5,20.3,15.0" == fields[0] + [','] + (fields[1] + [','] + fields[2]);
    assert Join(fields[1..], ',') == fields[1] + [','] + fields[2];
    assert Join(fields, ',') == "10.5,20.3,15.0";
    SplitJoin(fields, ',');
    ParseFieldExample1();
    ParseFieldExample2();
    ParseFieldExample3();
    var m := map["A" := 10.5, "B" := 20.3, "C" := 15.0];
    assert Tabulate(["C"], ["15.0"], map["A" := 10.5, "B" := 20.3]) == Ok(m);
    assert Tabulate(["B", "C"], ["20.3", "15.0"], map["A" := 10.5]) == Ok(m);
  }
}
