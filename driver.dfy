/** The three instrument classes. Each holds the link it talks over; every
    operation's effect on that link and its result are those of the matching
    function of Readings or Requests applied to the link's session. */
module Driver {
  import opened Wrappers
  import opened Decimal
  import opened Transport
  import opened Protocol
  import opened Requests
  import opened Readings

  const TcpPort: nat := 7777

  /** The Lakeshore 218 monitor on an RS-232 port: 9600 baud, seven data
      bits, odd parity, one stop bit. */
  class Lakeshore218 {
    const deviceName: string
    const channelNames: seq<string>
    const serialInterface: Link

    constructor(device: string, channames: seq<string>, port: Link)
      modifies port
      ensures deviceName == device && channelNames == channames && serialInterface == port
      ensures port.endpoint == SerialPort(device, 9600, 7, Odd, 1)
      ensures port.timeout == None && port.State() == old(port.State())
    {
      deviceName := device;
      channelNames := channames;
      serialInterface := port;
      new;
      port.Open(SerialPort(device, 9600, 7, Odd, 1));
    }

    /** One batched reading over the serial port. */
    method ReadBatch(query: Command) returns (readings: Result<map<string, real>, Error>)
      modifies serialInterface
      ensures serialInterface.endpoint == old(serialInterface.endpoint)
      ensures serialInterface.timeout == old(serialInterface.timeout)
      ensures var r := Batch(channelNames, query, Serial, old(serialInterface.State()));
        readings == r.result && serialInterface.State() == r.after
    {
      serialInterface.Send(Encode(query));
      var output := serialInterface.ReadWaiting();
      match output
      case None => readings := Err(NoReply);
      case Some(text) => readings := DecodeBatch(channelNames, text);
    }

    /** get_temps: `KRDG?` for every input at once. */
    method GetTemps() returns (temps: Result<map<string, real>, Error>)
      modifies serialInterface
      ensures serialInterface.endpoint == old(serialInterface.endpoint)
      ensures serialInterface.timeout == old(serialInterface.timeout)
      ensures var r := Batch(channelNames, KelvinReading(None), Serial, old(serialInterface.State()));
        temps == r.result && serialInterface.State() == r.after
    {
      temps := ReadBatch(KelvinReading(None));
    }

    /** get_voltage: `SRDG?` for every input at once. */
    method GetVoltage() returns (volts: Result<map<string, real>, Error>)
      modifies serialInterface
      ensures serialInterface.endpoint == old(serialInterface.endpoint)
      ensures serialInterface.timeout == old(serialInterface.timeout)
      ensures var r := Batch(channelNames, SensorReading(None), Serial, old(serialInterface.State()));
        volts == r.result && serialInterface.State() == r.after
    {
      volts := ReadBatch(SensorReading(None));
    }
  }

  /** The Lakeshore 350 temperature controller on TCP port 7777. A
      construction given other than four channel names stops before setting
      any attribute; every later use of the socket then raises. */
  class Lakeshore350 {
    const ipAddress: Option<string>
    const channelNames: Option<seq<string>>
    const tcpInterface: Option<Link>

    /** Either every attribute is set, with four channel names, or none is. */
    predicate Valid()
    {
      && ipAddress.Some? == channelNames.Some? == tcpInterface.Some?
      && (channelNames.Some? ==> |channelNames.value| == 4)
    }

    function Footprint(): set<object>
    {
      if tcpInterface.Some? then {tcpInterface.value} else {}
    }

    constructor(address: string, channames: seq<string>, socket: Link)
      modifies socket
      ensures Valid()
      ensures |channames| != 4 ==> ipAddress == None && channelNames == None && tcpInterface == None
      ensures |channames| != 4 ==> socket.endpoint == old(socket.endpoint) && socket.timeout == old(socket.timeout)
      ensures |channames| == 4 ==>
        && ipAddress == Some(address) && channelNames == Some(channames) && tcpInterface == Some(socket)
        && socket.endpoint == TcpSocket(address, TcpPort) && socket.timeout == Some(1.0)
      ensures socket.State() == old(socket.State())
    {
      if |channames| != 4 {
        ipAddress := None;
        channelNames := None;
        tcpInterface := None;
      } else {
        ipAddress := Some(address);
        channelNames := Some(channames);
        tcpInterface := Some(socket);
      }
      new;
      if |channames| == 4 {
        socket.Open(TcpSocket(address, TcpPort));
        socket.SetTimeout(1.0);
      }
    }

    /** query_temps: `KRDG? 0`, every input at once. */
    method QueryTemps() returns (r: Outcome<Error>)
      modifies Footprint()
      ensures tcpInterface.None? ==> r == Fail(Unconfigured)
      ensures tcpInterface.Some? ==>
        && r == Pass
        && tcpInterface.value.endpoint == old(tcpInterface.value.endpoint)
        && tcpInterface.value.timeout == old(tcpInterface.value.timeout)
        && tcpInterface.value.State() == Transmit(old(tcpInterface.value.State()), Encode(KelvinReading(Some(0))))
    {
      if tcpInterface.None? {
        return Fail(Unconfigured);
      }
      tcpInterface.value.Send(Encode(KelvinReading(Some(0))));
      r := Pass;
    }

    /** read_queue: one read of the socket. */
    method ReadQueue() returns (output: Result<string, Error>)
      modifies Footprint()
      ensures tcpInterface.None? ==> output == Err(Unconfigured)
      ensures tcpInterface.Some? ==>
        var reply := SocketReply(old(tcpInterface.value.State()));
        && output == (if reply.None? then Err(NoReply) else Ok(reply.value))
        && tcpInterface.value.endpoint == old(tcpInterface.value.endpoint)
        && tcpInterface.value.timeout == old(tcpInterface.value.timeout)
        && tcpInterface.value.State() == Consume(old(tcpInterface.value.State()), reply)
    {
      if tcpInterface.None? {
        return Err(Unconfigured);
      }
      var reply := tcpInterface.value.Receive();
      match reply
      case None => output := Err(NoReply);
      case Some(text) => output := Ok(text);
    }

    /** get_temps: query, read once, decode one reading per channel name. */
    method GetTemps() returns (temps: Result<map<string, real>, Error>)
      requires Valid()
      modifies Footprint()
      ensures tcpInterface.None? ==> temps == Err(Unconfigured)
      ensures tcpInterface.Some? ==>
        var r := Batch(channelNames.value, KelvinReading(Some(0)), Socket, old(tcpInterface.value.State()));
        && temps == r.result && tcpInterface.value.State() == r.after
        && tcpInterface.value.endpoint == old(tcpInterface.value.endpoint)
        && tcpInterface.value.timeout == old(tcpInterface.value.timeout)
    {
      var sent := QueryTemps();
      if sent.Fail? {
        return Err(sent.error);
      }
      var output := ReadQueue();
      if output.Err? {
        return Err(output.error);
      }
      temps := DecodeBatch(channelNames.value, output.value);
    }

    /** The common shape of the setters: a rejected request raises its
        ValueError and writes nothing; an accepted one on a configured
        instrument writes its command. */
    method Apply(request: Result<Command, Error>) returns (r: Outcome<Error>)
      modifies Footprint()
      ensures r == SettingOutcome(request, tcpInterface.Some?)
      ensures tcpInterface.Some? ==>
        && tcpInterface.value.State() == SettingSession(request, old(tcpInterface.value.State()))
        && tcpInterface.value.endpoint == old(tcpInterface.value.endpoint)
        && tcpInterface.value.timeout == old(tcpInterface.value.timeout)
    {
      if request.Err? {
        return Fail(request.error);
      }
      if tcpInterface.None? {
        return Fail(Unconfigured);
      }
      tcpInterface.value.Send(Encode(request.value));
      r := Pass;
    }

    method SetHeaterRange(output: int, range: int) returns (r: Outcome<Error>)
      modifies Footprint()
      ensures r == SettingOutcome(HeaterRangeRequest(output, range), tcpInterface.Some?)
      ensures tcpInterface.Some? ==>
        && tcpInterface.value.State() == SettingSession(HeaterRangeRequest(output, range), old(tcpInterface.value.State()))
        && tcpInterface.value.endpoint == old(tcpInterface.value.endpoint)
        && tcpInterface.value.timeout == old(tcpInterface.value.timeout)
    {
      r := Apply(HeaterRangeRequest(output, range));
    }

    method SetHeaterOutput(output: int, value: real) returns (r: Outcome<Error>)
      modifies Footprint()
      ensures r == SettingOutcome(ManualOutputRequest(output, value), tcpInterface.Some?)
      ensures tcpInterface.Some? ==>
        && tcpInterface.value.State() == SettingSession(ManualOutputRequest(output, value), old(tcpInterface.value.State()))
        && tcpInterface.value.endpoint == old(tcpInterface.value.endpoint)
        && tcpInterface.value.timeout == old(tcpInterface.value.timeout)
    {
      r := Apply(ManualOutputRequest(output, value));
    }

    method SetPIDTemp(output: int, temp: real) returns (r: Outcome<Error>)
      modifies Footprint()
      ensures r == SettingOutcome(SetpointRequest(output, temp), tcpInterface.Some?)
      ensures tcpInterface.Some? ==>
        && tcpInterface.value.State() == SettingSession(SetpointRequest(output, temp), old(tcpInterface.value.State()))
        && tcpInterface.value.endpoint == old(tcpInterface.value.endpoint)
        && tcpInterface.value.timeout == old(tcpInterface.value.timeout)
    {
      r := Apply(SetpointRequest(output, temp));
    }

    method SetPIDParams(p: real, i: real, d: real) returns (r: Outcome<Error>)
      modifies Footprint()
      ensures r == SettingOutcome(PidGainsRequest(p, i, d), tcpInterface.Some?)
      ensures tcpInterface.Some? ==>
        && tcpInterface.value.State() == SettingSession(PidGainsRequest(p, i, d), old(tcpInterface.value.State()))
        && tcpInterface.value.endpoint == old(tcpInterface.value.endpoint)
        && tcpInterface.value.timeout == old(tcpInterface.value.timeout)
    {
      r := Apply(PidGainsRequest(p, i, d));
    }

    method ConfigOutput(output: int, mode: int, input: int) returns (r: Outcome<Error>)
      modifies Footprint()
      ensures r == SettingOutcome(OutputModeRequest(output, mode, input), tcpInterface.Some?)
      ensures tcpInterface.Some? ==>
        && tcpInterface.value.State() == SettingSession(OutputModeRequest(output, mode, input), old(tcpInterface.value.State()))
        && tcpInterface.value.endpoint == old(tcpInterface.value.endpoint)
        && tcpInterface.value.timeout == old(tcpInterface.value.timeout)
    {
      r := Apply(OutputModeRequest(output, mode, input));
    }
  }

  /** The Lakeshore 372 resistance bridge on TCP port 7777. Its channel
      dictionary maps channel numbers to names, in insertion order. */
  class Lakeshore372 {
    const ipAddress: string
    const channelNames: seq<Channel>
    const tcpInterface: Link

    constructor(address: string, channames: seq<Channel>, socket: Link)
      modifies socket
      ensures ipAddress == address && channelNames == channames && tcpInterface == socket
      ensures socket.endpoint == TcpSocket(address, TcpPort) && socket.timeout == Some(10.0)
      ensures socket.State() == old(socket.State())
    {
      ipAddress := address;
      channelNames := channames;
      tcpInterface := socket;
      new;
      socket.Open(TcpSocket(address, TcpPort));
      socket.SetTimeout(10.0);
    }

    /** Write the query for `q` on channel `channum`. */
    method Query(q: Quantity, channum: nat)
      modifies tcpInterface
      ensures tcpInterface.endpoint == old(tcpInterface.endpoint) && tcpInterface.timeout == old(tcpInterface.timeout)
      ensures tcpInterface.State() == Transmit(old(tcpInterface.State()), Encode(QueryFor(q, channum)))
    {
      tcpInterface.Send(Encode(QueryFor(q, channum)));
    }

    /** query_temp: `KRDG? channum`. */
    method QueryTemp(channum: nat)
      modifies tcpInterface
      ensures tcpInterface.endpoint == old(tcpInterface.endpoint) && tcpInterface.timeout == old(tcpInterface.timeout)
      ensures tcpInterface.State() == Transmit(old(tcpInterface.State()), Encode(KelvinReading(Some(channum))))
    {
      Query(Temperature, channum);
    }

    /** query_r: `SRDG? channum`. */
    method QueryR(channum: nat)
      modifies tcpInterface
      ensures tcpInterface.endpoint == old(tcpInterface.endpoint) && tcpInterface.timeout == old(tcpInterface.timeout)
      ensures tcpInterface.State() == Transmit(old(tcpInterface.State()), Encode(SensorReading(Some(channum))))
    {
      Query(Resistance, channum);
    }

    /** query_excitation: `RDGPWR? channum`. */
    method QueryExcitation(channum: nat)
      modifies tcpInterface
      ensures tcpInterface.endpoint == old(tcpInterface.endpoint) && tcpInterface.timeout == old(tcpInterface.timeout)
      ensures tcpInterface.State() == Transmit(old(tcpInterface.State()), Encode(PowerReading(channum)))
    {
      Query(ExcitationPower, channum);
    }

    /** read_queue: one read of the socket. */
    method ReadQueue() returns (output: Result<string, Error>)
      modifies tcpInterface
      ensures tcpInterface.endpoint == old(tcpInterface.endpoint) && tcpInterface.timeout == old(tcpInterface.timeout)
      ensures var reply := SocketReply(old(tcpInterface.State()));
        && output == (if reply.None? then Err(NoReply) else Ok(reply.value))
        && tcpInterface.State() == Consume(old(tcpInterface.State()), reply)
    {
      var reply := tcpInterface.Receive();
      match reply
      case None => output := Err(NoReply);
      case Some(text) => output := Ok(text);
    }

    /** The loop of get_temps, get_rs and get_excitations: for each channel
        in the dictionary's order, write its query, read once, and store
        `float()` of the whole reply under its name; the first read or parse
        that raises ends the loop with no dictionary. */
    method ReadAll(q: Quantity) returns (readings: Result<map<string, real>, Error>)
      modifies tcpInterface
      ensures tcpInterface.endpoint == old(tcpInterface.endpoint) && tcpInterface.timeout == old(tcpInterface.timeout)
      ensures var r := Sweep(q, channelNames, old(tcpInterface.State()), map[]);
        readings == r.result && tcpInterface.State() == r.after
    {
      var acc: map<string, real> := map[];
      var i := 0;
      while i < |channelNames|
        invariant 0 <= i <= |channelNames|
        invariant tcpInterface.endpoint == old(tcpInterface.endpoint) && tcpInterface.timeout == old(tcpInterface.timeout)
        invariant Sweep(q, channelNames, old(tcpInterface.State()), map[])
          == Sweep(q, channelNames[i..], tcpInterface.State(), acc)
      {
        var channel := channelNames[i];
        ghost var before := tcpInterface.State();
        SweepStep(q, channelNames[i..], before, acc);
        assert channelNames[i..][0] == channel && channelNames[i..][1..] == channelNames[i + 1..];
        Query(q, channel.number);
        var output := ReadQueue();
        assert tcpInterface.State() == Exchange(q, channel, before);
        if output.Err? {
          return Err(output.error);
        }
        var value := ParseFloat(output.value);
        if value.None? {
          return Err(NotANumber(output.value));
        }
        acc := acc[channel.name := value.value];
        i := i + 1;
      }
      readings := Ok(acc);
    }

    method GetTemps() returns (temps: Result<map<string, real>, Error>)
      modifies tcpInterface
      ensures tcpInterface.endpoint == old(tcpInterface.endpoint) && tcpInterface.timeout == old(tcpInterface.timeout)
      ensures var r := Sweep(Temperature, channelNames, old(tcpInterface.State()), map[]);
        temps == r.result && tcpInterface.State() == r.after
    {
      temps := ReadAll(Temperature);
    }

    method GetRs() returns (rs: Result<map<string, real>, Error>)
      modifies tcpInterface
      ensures tcpInterface.endpoint == old(tcpInterface.endpoint) && tcpInterface.timeout == old(tcpInterface.timeout)
      ensures var r := Sweep(Resistance, channelNames, old(tcpInterface.State()), map[]);
        rs == r.result && tcpInterface.State() == r.after
    {
      rs := ReadAll(Resistance);
    }

    method GetExcitations() returns (excitations: Result<map<string, real>, Error>)
      modifies tcpInterface
      ensures tcpInterface.endpoint == old(tcpInterface.endpoint) && tcpInterface.timeout == old(tcpInterface.timeout)
      ensures var r := Sweep(ExcitationPower, channelNames, old(tcpInterface.State()), map[]);
        excitations == r.result && tcpInterface.State() == r.after
    {
      excitations := ReadAll(ExcitationPower);
    }
  }
}
