/** The byte streams the drivers talk over: an RS-232 port for the 218 and a
    TCP socket on port 7777 for the 350 and the 372. Neither is simulated: a
    link keeps the record of everything written and read, and the replies the
    instrument will give, in order. */
module Transport {
  import opened Wrappers

  datatype Parity = NoParity | Odd | Even

  /** Where a link is connected. */
  datatype Endpoint =
    | Closed
    | SerialPort(device: string, baud: nat, dataBits: nat, parity: Parity, stopBits: nat)
    | TcpSocket(address: string, port: nat)

  /** One thing that happened on a link. */
  datatype Event =
    | Sent(line: string)
    | Received(text: string)
    | ReadFailed                 // the read raised: a socket timeout or a port fault

  /** What a link has done so far and what it still has to deliver. `None` in
      the queue is a read that raises. */
  datatype Session = Session(trace: seq<Event>, replies: seq<Option<string>>)

  function ReplyEvent(reply: Option<string>): Event
  {
    match reply
    case None => ReadFailed
    case Some(text) => Received(text)
  }

  /** One line written to the link. */
  function Transmit(s: Session, line: string): (t: Session)
    ensures |t.trace| == |s.trace| + 1
  {
    Session(s.trace + [Sent(line)], s.replies)
  }

  /** What `recvfrom` returns: the next reply; with nothing queued the socket
      times out. */
  function SocketReply(s: Session): (reply: Option<string>)
    ensures s.replies == [] ==> reply == None
  {
    if s.replies == [] then None else s.replies[0]
  }

  /** What `read(inWaiting())` returns on a serial port: the next reply; with
      nothing waiting it reads zero bytes. */
  function PortReply(s: Session): (reply: Option<string>)
    ensures s.replies == [] ==> reply == Some("")
  {
    if s.replies == [] then Some("") else s.replies[0]
  }

  /** The queue after one read. */
  function Later(replies: seq<Option<string>>): (rest: seq<Option<string>>)
    ensures |rest| == if replies == [] then 0 else |replies| - 1
  {
    if replies == [] then [] else replies[1..]
  }

  /** The session after one read that returned `reply`. */
  function Consume(s: Session, reply: Option<string>): (t: Session)
    ensures |t.trace| == |s.trace| + 1 && t.trace[..|s.trace|] == s.trace
  {
    Session(s.trace + [ReplyEvent(reply)], Later(s.replies))
  }

  class Link {
    var endpoint: Endpoint
    var timeout: Option<real>
    var trace: seq<Event>
    var replies: seq<Option<string>>

    function State(): Session
      reads this
    {
      Session(trace, replies)
    }

    /** A closed link that will deliver `replies`. */
    constructor(replies: seq<Option<string>>)
      ensures endpoint == Closed && timeout == None
      ensures State() == Session([], replies)
    {
      endpoint := Closed;
      timeout := None;
      trace := [];
      this.replies := replies;
    }

    /** Connect to `e` with the library's default: no timeout, so a read
        blocks until data arrives. Nothing is written or read. */
    method Open(e: Endpoint)
      modifies this
      ensures endpoint == e && timeout == None && State() == old(State())
    {
      endpoint := e;
      timeout := None;
    }

    method SetTimeout(seconds: real)
      modifies this
      ensures timeout == Some(seconds) && endpoint == old(endpoint) && State() == old(State())
    {
      timeout := Some(seconds);
    }

    method Send(line: string)
      modifies this
      ensures endpoint == old(endpoint) && timeout == old(timeout)
      ensures State() == Transmit(old(State()), line)
    {
      trace := trace + [Sent(line)];
    }

    /** A socket read: the next reply, or None when it raises. */
    method Receive() returns (reply: Option<string>)
      modifies this
      ensures endpoint == old(endpoint) && timeout == old(timeout)
      ensures reply == SocketReply(old(State()))
      ensures State() == Consume(old(State()), reply)
    {
      if replies == [] {
        reply := None;
      } else {
        reply := replies[0];
        replies := replies[1..];
      }
      trace := trace + [ReplyEvent(reply)];
    }

    /** A serial read of whatever is waiting: the next reply, the empty text
        when nothing is, or None when the port raises. */
    method ReadWaiting() returns (reply: Option<string>)
      modifies this
      ensures endpoint == old(endpoint) && timeout == old(timeout)
      ensures reply == PortReply(old(State()))
      ensures State() == Consume(old(State()), reply)
    {
      if replies == [] {
        reply := Some("");
      } else {
        reply := replies[0];
        replies := replies[1..];
      }
      trace := trace + [ReplyEvent(reply)];
    }
  }
}
