/** What the reading operations do to a link, as functions of its session:
    the batched query of the 218 and the 350 (one command, one read, one
    response split at commas) and the per-channel sweep of the 372 (one
    command and one read per channel, in the dictionary's order). */
module Readings {
  import opened Wrappers
  import opened Text
  import opened Decimal
  import opened Transport
  import opened Protocol

  /** The dictionary a reading operation returns, or the exception it raises,
      and the session it leaves behind. */
  datatype Reading = Reading(result: Result<map<string, real>, Error>, after: Session)

  /** How a link reads: a serial port returns what is waiting, a socket
      waits for the next reply. */
  datatype Medium = Serial | Socket

  function ReplyOn(medium: Medium, s: Session): Option<string>
  {
    match medium
    case Serial => PortReply(s)
    case Socket => SocketReply(s)
  }

  // ---------------------------------------------------------------------------
  // The 218 and the 350: one query, one read

  /** Write `query`, read once, and decode the reply as one reading per name. */
  function Batch(names: seq<string>, query: Command, medium: Medium, s: Session): Reading
  {
    var sent := Transmit(s, Encode(query));
    var reply := ReplyOn(medium, sent);
    var result := match reply
      case None => Err(NoReply)
      case Some(text) => DecodeBatch(names, text);
    Reading(result, Consume(sent, reply))
  }

  /** A batched reading writes exactly the query and then reads exactly once,
      consuming one queued reply; it succeeds exactly when that read returns
      a text that decodes, and then returns the decoded dictionary. */
  lemma BatchExchange(names: seq<string>, query: Command, medium: Medium, s: Session)
    ensures var r, reply := Batch(names, query, medium, s), ReplyOn(medium, s);
      && r.after.trace == s.trace + [Sent(Encode(query)), ReplyEvent(reply)]
      && r.after.replies == (Later(s.replies))
      && (reply.None? ==> r.result == Err(NoReply))
      && (reply.Some? ==> r.result == DecodeBatch(names, reply.value))
  {
    var sent := Transmit(s, Encode(query));
    assert ReplyOn(medium, sent) == ReplyOn(medium, s);
  }

  /** When the next reply is an instrument response carrying one fixed-point
      number per channel, a batched reading returns those numbers under the
      channel names; with fewer numbers than names it raises IndexError. */
  lemma BatchOfResponse(names: seq<string>, query: Command, medium: Medium, s: Session, values: seq<Fixed>, places: nat)
    requires values != [] && s.replies != [] && s.replies[0] == Some(Response(values, places))
    ensures |names| <= |values| ==>
      Batch(names, query, medium, s).result == Ok(Assign(map[], names, ValuesOf(values[..|names|], places)))
    ensures |values| < |names| ==> Batch(names, query, medium, s).result == Err(MissingField)
  {
    BatchExchange(names, query, medium, s);
    DecodeResponse(names, values, places);
  }

  /** On a serial port with nothing waiting the read returns no bytes, so a
      reading of at least one channel raises ValueError on the empty text;
      on a socket the read times out. */
  lemma BatchOfNothing(names: seq<string>, query: Command, medium: Medium, s: Session)
    requires s.replies == [] && names != []
    ensures medium == Serial ==> Batch(names, query, medium, s).result == Err(NotANumber(""))
    ensures medium == Socket ==> Batch(names, query, medium, s).result == Err(NoReply)
  {
    BatchExchange(names, query, medium, s);
    assert Split("", ',') == [""];
    assert ParseFloat("") == None;
  }

  // ---------------------------------------------------------------------------
  // The 372: one query and one read per channel

  /** One entry of the 372's channel dictionary. */
  datatype Channel = Channel(number: nat, name: string)

  datatype Quantity = Temperature | Resistance | ExcitationPower

  /** The query for one channel: KRDG?, SRDG? or RDGPWR? with its number. */
  function QueryFor(q: Quantity, number: nat): Command
  {
    match q
    case Temperature => KelvinReading(Some(number))
    case Resistance => SensorReading(Some(number))
    case ExcitationPower => PowerReading(number)
  }

  /** The line of a channel query: `KRDG? n`, `SRDG? n` or `RDGPWR? n`, the
      number in decimal, then CR LF. */
  lemma QueryLine(q: Quantity, number: nat)
    ensures Encode(QueryFor(q, number)) ==
      (match q case Temperature => "KRDG?" case Resistance => "SRDG?" case ExcitationPower => "RDGPWR?")
        + " " + NatToString(number) + "\r\n"
  {
  }

  /** The reply `j` reads later, counted from the next one: past the end of
      the queue every read times out. */
  function ReplyAt(replies: seq<Option<string>>, j: nat): Option<string>
  {
    if j < |replies| then replies[j] else None
  }

  /** `float()` of a reply, when the read returned one. */
  function ReadingOf(reply: Option<string>): Option<real>
  {
    match reply
    case None => None
    case Some(text) => ParseFloat(text)
  }

  /** The exception of a read that raised or returned no number. */
  function Failure(reply: Option<string>): Error
  {
    match reply
    case None => NoReply
    case Some(text) => NotANumber(text)
  }

  /** The two events of one exchange: `line` written, then one read. */
  function Step(line: string, replies: seq<Option<string>>): seq<Event>
  {
    [Sent(line), ReplyEvent(ReplyAt(replies, 0))]
  }

  /** The query lines of a sweep over `channels`, in order. */
  function QueryLines(q: Quantity, channels: seq<Channel>): (lines: seq<string>)
    ensures |lines| == |channels|
    decreases |channels|
  {
    if channels == [] then [] else [Encode(QueryFor(q, channels[0].number))] + QueryLines(q, channels[1..])
  }

  /** Line j of a sweep is channel j's query. */
  lemma {:induction false} QueryLinesAt(q: Quantity, channels: seq<Channel>, j: nat)
    requires j < |channels|
    ensures QueryLines(q, channels)[j] == Encode(QueryFor(q, channels[j].number))
    decreases j
  {
    var rest := QueryLines(q, channels[1..]);
    assert QueryLines(q, channels) == [Encode(QueryFor(q, channels[0].number))] + rest;
    if j > 0 {
      QueryLinesAt(q, channels[1..], j - 1);
      assert channels[1..][j - 1] == channels[j];
    }
  }

  /** One channel's exchange: its query written, then one read. */
  function Exchange(q: Quantity, channel: Channel, s: Session): (t: Session)
    ensures t.trace == s.trace + Step(Encode(QueryFor(q, channel.number)), s.replies)
    ensures t.replies == Later(s.replies)
  {
    var sent := Transmit(s, Encode(QueryFor(q, channel.number)));
    Consume(sent, SocketReply(sent))
  }

  /** The loop of get_temps, get_rs and get_excitations from `channels` on,
      with `acc` the dictionary built so far: query, read, parse, store, and
      stop at the first read or parse that raises. */
  function Sweep(q: Quantity, channels: seq<Channel>, s: Session, acc: map<string, real>): Reading
    decreases |channels|
  {
    if channels == [] then Reading(Ok(acc), s)
    else
      var reply := ReplyAt(s.replies, 0);
      match ReadingOf(reply)
      case None => Reading(Err(Failure(reply)), Exchange(q, channels[0], s))
      case Some(v) => Sweep(q, channels[1..], Exchange(q, channels[0], s), acc[channels[0].name := v])
  }

  /** One turn of the sweep: the reply the channel's read returns is the
      head of the queue, and the sweep either stops on it or goes on from
      the session after the exchange. */
  lemma SweepStep(q: Quantity, channels: seq<Channel>, s: Session, acc: map<string, real>)
    requires channels != []
    ensures SocketReply(Transmit(s, Encode(QueryFor(q, channels[0].number)))) == ReplyAt(s.replies, 0)
    ensures var reply := ReplyAt(s.replies, 0);
      var next := Exchange(q, channels[0], s);
      Sweep(q, channels, s, acc) ==
        if ReadingOf(reply).None? then Reading(Err(Failure(reply)), next)
        else Sweep(q, channels[1..], next, acc[channels[0].name := ReadingOf(reply).value])
  {
  }

  /** The exchanges of a sweep that writes `lines`: each line in order,
      then one read. */
  function Dialogue(lines: seq<string>, replies: seq<Option<string>>): (d: seq<Event>)
    ensures |d| == 2 * |lines|
    decreases |lines|
  {
    if lines == [] then []
    else
      Step(lines[0], replies) + Dialogue(lines[1..], Later(replies))
  }

  function Names(channels: seq<Channel>): (names: seq<string>)
    ensures |names| == |channels|
    ensures forall j :: 0 <= j < |channels| ==> names[j] == channels[j].name
    decreases |channels|
  {
    if channels == [] then [] else [channels[0].name] + Names(channels[1..])
  }

  /** `replies` without its first n entries. */
  function Drop(replies: seq<Option<string>>, n: nat): seq<Option<string>>
  {
    if n <= |replies| then replies[n..] else []
  }

  lemma DropLater(replies: seq<Option<string>>, n: nat)
    requires n > 0
    ensures Drop(Later(replies), n - 1) == Drop(replies, n)
  {
  }

  /** Every one of the first n replies comes and parses. */
  predicate AllReadable(replies: seq<Option<string>>, n: nat)
  {
    forall j :: 0 <= j < n ==> ReadingOf(ReplyAt(replies, j)).Some?
  }

  lemma AllReadableLater(replies: seq<Option<string>>, n: nat)
    requires n > 0
    ensures AllReadable(replies, n) <==> ReadingOf(ReplyAt(replies, 0)).Some? && AllReadable(Later(replies), n - 1)
  {
    if ReadingOf(ReplyAt(replies, 0)).Some? && AllReadable(Later(replies), n - 1) {
      forall j | 0 < j < n ensures ReadingOf(ReplyAt(replies, j)).Some? {
        ReplyAtNext(replies, j - 1);
      }
    }
    if AllReadable(replies, n) {
      forall j | 0 <= j < n - 1 ensures ReadingOf(ReplyAt(Later(replies), j)).Some? {
        ReplyAtNext(replies, j);
      }
    }
  }

  /** The first n replies, read by `float()`. */
  function ReplyValues(replies: seq<Option<string>>, n: nat): (vals: seq<real>)
    requires AllReadable(replies, n)
    ensures |vals| == n
    decreases n
  {
    if n == 0 then []
    else
      AllReadableLater(replies, n);
      [ReadingOf(ReplyAt(replies, 0)).value] + ReplyValues(Later(replies), n - 1)
  }

  lemma {:induction false} ReplyValuesAt(replies: seq<Option<string>>, n: nat, j: nat)
    requires AllReadable(replies, n) && j < n
    ensures ReplyValues(replies, n)[j] == ReadingOf(ReplyAt(replies, j)).value
    decreases j
  {
    AllReadableLater(replies, n);
    var later := Later(replies);
    var head := ReadingOf(ReplyAt(replies, 0)).value;
    var rest := ReplyValues(later, n - 1);
    assert ReplyValues(replies, n) == [head] + rest;
    if j > 0 {
      ReplyValuesAt(later, n - 1, j - 1);
      ReplyAtNext(replies, j - 1);
      assert ([head] + rest)[j] == rest[j - 1];
      assert rest[j - 1] == ReadingOf(ReplyAt(later, j - 1)).value;
    }
  }

  /** A sweep returns a dictionary exactly when every channel's reply comes
      and parses. */
  lemma {:induction false} SweepSucceeds(q: Quantity, channels: seq<Channel>, s: Session, acc: map<string, real>)
    ensures Sweep(q, channels, s, acc).result.Ok? <==> AllReadable(s.replies, |channels|)
    decreases |channels|
  {
    if channels != [] {
      AllReadableLater(s.replies, |channels|);
      var reading := ReadingOf(ReplyAt(s.replies, 0));
      if reading.Some? {
        var e := Exchange(q, channels[0], s);
        SweepSucceeds(q, channels[1..], e, acc[channels[0].name := reading.value]);
      }
    }
  }

  lemma IndexAfter(head: seq<Event>, rest: seq<Event>, i: nat)
    requires |head| <= i < |head| + |rest|
    ensures (head + rest)[i] == rest[i - |head|]
  {
  }

  lemma AppendAssociates(a: seq<Event>, b: seq<Event>, c: seq<Event>)
    ensures (a + b) + c == a + (b + c)
  {
  }

  /** A sweep that succeeds writes every channel's query in order, each
      followed by exactly one read, and consumes one reply per channel. */
  lemma {:induction false} SweepTrace(q: Quantity, channels: seq<Channel>, s: Session, acc: map<string, real>)
    requires AllReadable(s.replies, |channels|)
    ensures Sweep(q, channels, s, acc).after.trace == s.trace + Dialogue(QueryLines(q, channels), s.replies)
    ensures Sweep(q, channels, s, acc).after.replies == Drop(s.replies, |channels|)
    decreases |channels|
  {
    if channels != [] {
      AllReadableLater(s.replies, |channels|);
      var e := Exchange(q, channels[0], s);
      var v := ReadingOf(ReplyAt(s.replies, 0)).value;
      var acc' := acc[channels[0].name := v];
      assert Sweep(q, channels, s, acc) == Sweep(q, channels[1..], e, acc');
      SweepTrace(q, channels[1..], e, acc');
      var lines := QueryLines(q, channels);
      assert lines == [Encode(QueryFor(q, channels[0].number))] + QueryLines(q, channels[1..]);
      assert lines[1..] == QueryLines(q, channels[1..]);
      var rest := Dialogue(lines[1..], Later(s.replies));
      var head := Step(lines[0], s.replies);
      assert e.trace == s.trace + head;
      assert Dialogue(lines, s.replies) == head + rest;
      AppendAssociates(s.trace, head, rest);
      DropLater(s.replies, |channels|);
    }
  }

  /** A sweep that succeeds stores each channel's reading under its name, in
      the dictionary's order. */
  lemma {:induction false} SweepValue(q: Quantity, channels: seq<Channel>, s: Session, acc: map<string, real>)
    requires AllReadable(s.replies, |channels|)
    ensures Sweep(q, channels, s, acc).result == Ok(Assign(acc, Names(channels), ReplyValues(s.replies, |channels|)))
    decreases |channels|
  {
    if channels != [] {
      AllReadableLater(s.replies, |channels|);
      var e := Exchange(q, channels[0], s);
      var v := ReadingOf(ReplyAt(s.replies, 0)).value;
      var acc' := acc[channels[0].name := v];
      assert Sweep(q, channels, s, acc) == Sweep(q, channels[1..], e, acc');
      SweepValue(q, channels[1..], e, acc');
      var names, vals := Names(channels), ReplyValues(s.replies, |channels|);
      assert names == [channels[0].name] + Names(channels[1..]);
      assert vals == [v] + ReplyValues(Later(s.replies), |channels| - 1);
      assert names[1..] == Names(channels[1..]);
      assert vals[1..] == ReplyValues(Later(s.replies), |channels| - 1);
      assert Assign(acc, names, vals) == Assign(acc', names[1..], vals[1..]);
    }
  }

  /** A sweep whose channel k is the first whose read raises or whose reply
      does not parse stops there: it has written the queries of channels 0
      to k, each followed by one read, and raises that channel's exception
      with no dictionary. */
  lemma SweepStops(q: Quantity, channels: seq<Channel>, s: Session, acc: map<string, real>, k: nat)
    requires k < |channels| && AllReadable(s.replies, k)
    requires ReadingOf(ReplyAt(s.replies, k)).None?
    ensures Sweep(q, channels, s, acc).result == Err(Failure(ReplyAt(s.replies, k)))
    ensures Sweep(q, channels, s, acc).after.trace == s.trace + Dialogue(QueryLines(q, channels)[..k + 1], s.replies)
    ensures Sweep(q, channels, s, acc).after.replies == Drop(s.replies, k + 1)
  {
    SweepStopsResult(q, channels, s, acc, k);
    SweepStopsTrace(q, channels, s, acc, k);
  }

  lemma {:induction false} SweepStopsResult(q: Quantity, channels: seq<Channel>, s: Session, acc: map<string, real>, k: nat)
    requires k < |channels| && AllReadable(s.replies, k)
    requires ReadingOf(ReplyAt(s.replies, k)).None?
    ensures Sweep(q, channels, s, acc).result == Err(Failure(ReplyAt(s.replies, k)))
    ensures Sweep(q, channels, s, acc).after.replies == Drop(s.replies, k + 1)
    decreases k
  {
    var e := Exchange(q, channels[0], s);
    var reply := ReplyAt(s.replies, 0);
    SweepStep(q, channels, s, acc);
    DropLater(s.replies, k + 1);
    if k == 0 {
      assert Sweep(q, channels, s, acc) == Reading(Err(Failure(reply)), e);
    } else {
      AllReadableLater(s.replies, k);
      ReplyAtNext(s.replies, k - 1);
      var acc' := acc[channels[0].name := ReadingOf(reply).value];
      assert Sweep(q, channels, s, acc) == Sweep(q, channels[1..], e, acc');
      SweepStopsResult(q, channels[1..], e, acc', k - 1);
    }
  }

  lemma {:induction false} SweepStopsTrace(q: Quantity, channels: seq<Channel>, s: Session, acc: map<string, real>, k: nat)
    requires k < |channels| && AllReadable(s.replies, k)
    requires ReadingOf(ReplyAt(s.replies, k)).None?
    ensures Sweep(q, channels, s, acc).after.trace == s.trace + Dialogue(QueryLines(q, channels)[..k + 1], s.replies)
    decreases k
  {
    var e := Exchange(q, channels[0], s);
    var reply := ReplyAt(s.replies, 0);
    SweepStep(q, channels, s, acc);
    var lines := QueryLines(q, channels);
    QueryLinesStep(q, channels);
    var head := Step(lines[0], s.replies);
    assert e.trace == s.trace + head;
    var rest := Dialogue(lines[1..][..k], Later(s.replies));
    DialoguePrefix(lines, s.replies, k);
    if k == 0 {
      assert Sweep(q, channels, s, acc).after == e;
      assert rest == [] && head + [] == head;
    } else {
      AllReadableLater(s.replies, k);
      ReplyAtNext(s.replies, k - 1);
      var acc' := acc[channels[0].name := ReadingOf(reply).value];
      var r := Sweep(q, channels[1..], e, acc');
      assert Sweep(q, channels, s, acc) == r;
      SweepStopsTrace(q, channels[1..], e, acc', k - 1);
      assert r.after.trace == e.trace + rest;
      AppendAssociates(s.trace, head, rest);
    }
  }

  lemma QueryLinesStep(q: Quantity, channels: seq<Channel>)
    requires channels != []
    ensures QueryLines(q, channels)[0] == Encode(QueryFor(q, channels[0].number))
    ensures QueryLines(q, channels)[1..] == QueryLines(q, channels[1..])
  {
    assert QueryLines(q, channels) == [Encode(QueryFor(q, channels[0].number))] + QueryLines(q, channels[1..]);
  }

  /** The dialogue of the first k + 1 lines: the first exchange, then the
      dialogue of the next k. */
  lemma DialoguePrefix(lines: seq<string>, replies: seq<Option<string>>, k: nat)
    requires k < |lines|
    ensures Dialogue(lines[..k + 1], replies) == Step(lines[0], replies) + Dialogue(lines[1..][..k], Later(replies))
  {
    var prefix := lines[..k + 1];
    assert prefix[0] == lines[0];
    assert prefix[1..] == lines[1..][..k];
  }

  /** In the dialogue of a sweep, events 2j and 2j + 1 are the j-th
      exchange: line j written, and then the one read that follows it. */
  lemma {:induction false} DialogueAt(lines: seq<string>, replies: seq<Option<string>>, j: nat)
    requires j < |lines|
    ensures Dialogue(lines, replies)[2 * j] == Sent(lines[j])
    ensures Dialogue(lines, replies)[2 * j + 1] == ReplyEvent(ReplyAt(replies, j))
    decreases j
  {
    var head := Step(lines[0], replies);
    var tail, later := lines[1..], Later(replies);
    var rest := Dialogue(tail, later);
    var d := Dialogue(lines, replies);
    assert d == head + rest;
    assert |head| == 2;
    if j == 0 {
      assert d[0] == head[0] && d[1] == head[1];
    } else {
      var k := j - 1;
      DialogueAt(tail, later, k);
      ReplyAtNext(replies, k);
      IndexAfter(head, rest, 2 * j);
      IndexAfter(head, rest, 2 * j + 1);
      assert d[2 * j] == rest[2 * k];
      assert d[2 * j + 1] == rest[2 * k + 1];
    }
  }

  /** Channel j's query is event 2j of a sweep's dialogue, and the read of
      reply j is event 2j + 1. */
  lemma SweepEventsAt(q: Quantity, channels: seq<Channel>, replies: seq<Option<string>>, j: nat)
    requires j < |channels|
    ensures Dialogue(QueryLines(q, channels), replies)[2 * j] == Sent(Encode(QueryFor(q, channels[j].number)))
    ensures Dialogue(QueryLines(q, channels), replies)[2 * j + 1] == ReplyEvent(ReplyAt(replies, j))
  {
    DialogueAt(QueryLines(q, channels), replies, j);
    QueryLinesAt(q, channels, j);
  }

  lemma ReplyAtNext(replies: seq<Option<string>>, j: nat)
    ensures ReplyAt(Later(replies), j) == ReplyAt(replies, j + 1)
  {
  }

  /** The dictionary of a complete sweep from an empty one: its keys are the
      channel names, and a name holds the reading of the last channel that
      carries it. */
  lemma SweepReadings(q: Quantity, channels: seq<Channel>, s: Session)
    requires AllReadable(s.replies, |channels|)
    ensures Sweep(q, channels, s, map[]).result.Ok?
    ensures Sweep(q, channels, s, map[]).result.value.Keys == set j | 0 <= j < |channels| :: channels[j].name
    ensures forall j :: 0 <= j < |channels| && (forall i :: j < i < |channels| ==> channels[i].name != channels[j].name) ==>
      Sweep(q, channels, s, map[]).result.value[channels[j].name] == ReadingOf(ReplyAt(s.replies, j)).value
  {
    SweepValue(q, channels, s, map[]);
    var names, vals := Names(channels), ReplyValues(s.replies, |channels|);
    AssignKeys(map[], names, vals);
    assert (set j | 0 <= j < |names| :: names[j]) == set j | 0 <= j < |channels| :: channels[j].name;
    forall j | 0 <= j < |channels| && (forall i :: j < i < |channels| ==> channels[i].name != channels[j].name)
      ensures Assign(map[], names, vals)[channels[j].name] == ReadingOf(ReplyAt(s.replies, j)).value
    {
      AssignLast(map[], names, vals, j);
      ReplyValuesAt(s.replies, |channels|, j);
    }
  }
}
