/** Messages over a stream: every payload travels behind its length, and the stream may be cut anywhere. */
module Ipc {
  newtype Byte = x: int | 0 <= x < 256

  type Bytes = seq<Byte>

  const MAX_PAYLOAD: nat := 0xffff_ffff
  const HEADER: nat := 4
  const CHUNK: nat := 4096

  // ----- frames

  /** The length in network order. */
  function Header(n: nat): (h: Bytes)
    requires n <= MAX_PAYLOAD
    ensures |h| == HEADER
  {
    [(n / 0x100_0000) as Byte, (n / 0x1_0000 % 0x100) as Byte, (n / 0x100 % 0x100) as Byte, (n % 0x100) as Byte]
  }

  function Length(h: Bytes): nat
    requires |h| >= HEADER
  {
    h[0] as nat * 0x100_0000 + h[1] as nat * 0x1_0000 + h[2] as nat * 0x100 + h[3] as nat
  }

  lemma HeaderLength(n: nat)
    requires n <= MAX_PAYLOAD
    ensures Length(Header(n)) == n
  {
    var a := n / 0x100;
    var b := a / 0x100;
    assert n / 0x1_0000 == b && n / 0x100_0000 == b / 0x100;
    assert n == a * 0x100 + n % 0x100 && a == b * 0x100 + a % 0x100 && b == b / 0x100 * 0x100 + b % 0x100;
  }

  /** A number from its digits, the most significant first. */
  function Number(digits: Bytes): nat {
    if digits == [] then 0 else Number(digits[..|digits| - 1]) * 0x100 + digits[|digits| - 1] as nat
  }

  lemma NetworkOrder(h: Bytes)
    requires |h| == HEADER
    ensures Length(h) == Number(h)
  {
    assert h[..3][..2] == h[..2] && h[..2][..1] == h[..1] && h[..1][..0] == [];
    assert Number(h[..1]) == h[0] as nat;
    assert Number(h[..2]) == h[0] as nat * 0x100 + h[1] as nat;
    assert Number(h[..3]) == (h[0] as nat * 0x100 + h[1] as nat) * 0x100 + h[2] as nat;
  }

  function Frame(payload: Bytes): Bytes
    requires |payload| <= MAX_PAYLOAD
  {
    Header(|payload|) + payload
  }

  predicate Sendable(payloads: seq<Bytes>) { forall p <- payloads :: |p| <= MAX_PAYLOAD }

  function Frames(payloads: seq<Bytes>): Bytes
    requires Sendable(payloads)
  {
    if payloads == [] then [] else Frame(payloads[0]) + Frames(payloads[1..])
  }

  /** The stream starts with a whole frame. */
  predicate Complete(b: Bytes) { |b| >= HEADER && |b| >= HEADER + Length(b) }

  function First(b: Bytes): Bytes
    requires Complete(b)
  {
    b[HEADER..HEADER + Length(b)]
  }

  function AfterFirst(b: Bytes): Bytes
    requires Complete(b)
  {
    b[HEADER + Length(b)..]
  }

  lemma FrameFirst(payload: Bytes, rest: Bytes)
    requires |payload| <= MAX_PAYLOAD
    ensures Complete(Frame(payload) + rest) && First(Frame(payload) + rest) == payload && AfterFirst(Frame(payload) + rest) == rest
  {
    var b := Frame(payload) + rest;
    HeaderLength(|payload|);
    assert b[..HEADER] == Header(|payload|);
    assert forall i :: 0 <= i < HEADER ==> b[i] == b[..HEADER][i];
    assert b == Header(|payload|) + (payload + rest);
  }

  lemma {:induction false} FramesAppend(a: seq<Bytes>, b: seq<Bytes>)
    requires Sendable(a) && Sendable(b)
    ensures Sendable(a + b) && Frames(a + b) == Frames(a) + Frames(b)
  {
    if a == [] {
      assert a + b == b;
    } else {
      FramesAppend(a[1..], b);
      assert a + b == [a[0]] + (a[1..] + b);
      assert Frame(a[0]) + (Frames(a[1..]) + Frames(b)) == (Frame(a[0]) + Frames(a[1..])) + Frames(b);
    }
  }

  lemma FramesSnoc(a: seq<Bytes>, p: Bytes)
    requires Sendable(a) && |p| <= MAX_PAYLOAD
    ensures Sendable(a + [p]) && Frames(a + [p]) == Frames(a) + Frame(p)
  {
    FramesAppend(a, [p]);
    assert Frames([p]) == Frame(p) + [];
  }

  /** Messages arrive in order and unchanged: if what was sent is what was received and then some bytes still on their
      way, the payloads received are the first of those sent; and they are all of them once no whole frame is on its way. */
  lemma {:induction false} Fifo(sent: seq<Bytes>, received: seq<Bytes>, rest: Bytes)
    requires Sendable(sent) && Sendable(received) && Frames(sent) == Frames(received) + rest
    ensures received <= sent && rest == Frames(sent[|received|..])
    ensures received == sent <==> !Complete(rest)
  {
    if received == [] {
      assert [] + rest == rest && sent[0..] == sent;
      if sent != [] {
        FrameFirst(sent[0], Frames(sent[1..]));
      }
    } else {
      var more := Frames(received[1..]) + rest;
      FrameFirst(received[0], more);
      assert Frames(sent) == Frame(received[0]) + more;
      assert sent != [];
      FrameFirst(sent[0], Frames(sent[1..]));
      assert received[0] == sent[0] && Frames(sent[1..]) == more;
      Fifo(sent[1..], received[1..], rest);
      assert sent == [sent[0]] + sent[1..] && received == [received[0]] + received[1..];
      assert sent[1..][|received| - 1..] == sent[|received|..];
    }
  }

  // ----- the two ends

  datatype SendAnswer = Accepted(n: nat) | SendWouldBlock | SendInterrupted | SendFailed

  datatype SendResult = Queued | NotConnected | TooLarge | ConnectionLost

  datatype ReadAnswer = Arrived(n: nat) | ReadWouldBlock | ReadInterrupted | ReadFailed

  datatype Received = Message(payload: Bytes) | Undecodable(payload: Bytes) | Nothing | Lost

  /** How many of `n` bytes a series of attempts to write takes, and whether the connection survives. */
  function Written(answers: seq<SendAnswer>, n: nat): (nat, bool) {
    if answers == [] || n == 0 then (0, true)
    else
      match answers[0]
      case SendInterrupted => Written(answers[1..], n)
      case SendWouldBlock => (0, true)
      case SendFailed => (0, false)
      case Accepted(k) =>
        if k == 0 then (0, false)
        else if k >= n then (n, true)
        else
          var (rest, ok) := Written(answers[1..], n - k);
          (k + rest, ok)
  }

  /** The system takes all of `n` bytes, in whatever portions. */
  predicate TakesAll(answers: seq<SendAnswer>, n: nat) {
    n == 0 || (answers != [] && match answers[0]
                                case SendInterrupted => TakesAll(answers[1..], n)
                                case Accepted(k) => 0 < k <= n && TakesAll(answers[1..], n - k)
                                case _ => false)
  }

  lemma {:induction false} AllWritten(answers: seq<SendAnswer>, n: nat)
    requires TakesAll(answers, n)
    ensures Written(answers, n) == (n, true)
  {
    if n > 0 {
      match answers[0]
      case SendInterrupted => AllWritten(answers[1..], n);
      case Accepted(k) => AllWritten(answers[1..], n - k);
    }
  }

  /** How many bytes a series of attempts to read takes off a wire that holds `n`, and whether the connection survives. */
  function Moved(answers: seq<ReadAnswer>, n: nat): (nat, bool) {
    if answers == [] then (0, true)
    else
      match answers[0]
      case ReadInterrupted => Moved(answers[1..], n)
      case ReadWouldBlock => (0, true)
      case ReadFailed => (0, false)
      case Arrived(m) =>
        var k := if m <= CHUNK then m else CHUNK;
        if k == 0 then (0, false)
        else if k > n then (0, true)
        else
          var (rest, ok) := Moved(answers[1..], n - k);
          (k + rest, ok)
  }

  /** The system hands over all of `n` bytes, in portions of at most a chunk, and then has no more. */
  predicate HandsOver(answers: seq<ReadAnswer>, n: nat) {
    if answers == [] then n == 0
    else
      match answers[0]
      case ReadInterrupted => HandsOver(answers[1..], n)
      case ReadWouldBlock => n == 0
      case ReadFailed => false
      case Arrived(k) => 0 < k <= n && k <= CHUNK && HandsOver(answers[1..], n - k)
  }

  lemma {:induction false} AllMoved(answers: seq<ReadAnswer>, n: nat)
    requires HandsOver(answers, n)
    ensures Moved(answers, n) == (n, true)
  {
    if answers != [] {
      match answers[0]
      case ReadInterrupted => AllMoved(answers[1..], n);
      case Arrived(k) => AllMoved(answers[1..], n - k);
      case _ =>
    }
  }

  /** The bytes that one end has given to the system and the other has not read yet. */
  class Channel {
    var wire: Bytes

    constructor ()
      ensures wire == []
    {
      wire := [];
    }
  }

  class Sender {
    const channel: Channel
    var open: bool
    var sendBuffer: Bytes
    ghost var sent: seq<Bytes>
    /** What was sent and has not reached the wire: the buffer, and once the connection is lost what it never will take. */
    ghost var unsent: Bytes

    ghost predicate Valid() reads this { Sendable(sent) && (open ==> unsent == sendBuffer) }

    constructor (channel: Channel)
      ensures this.channel == channel && open && sendBuffer == [] && sent == [] && unsent == [] && Valid()
    {
      this.channel := channel;
      open, sendBuffer, sent, unsent := true, [], [], [];
    }

    /** `answers` is what the system says to one attempt to write after another; after the last it would block.
        Nothing is reordered or lost: the payload's frame is behind all that was on its way before, and as much of it all is
        written as the system takes. */
    method SendMessage(payload: Bytes, answers: seq<SendAnswer>) returns (r: SendResult)
      requires Valid()
      modifies this`open, this`sendBuffer, this`sent, this`unsent, channel
      ensures Valid()
      ensures !old(open) <==> r.NotConnected?
      ensures r.TooLarge? <==> old(open) && |payload| > MAX_PAYLOAD
      ensures r.NotConnected? || r.TooLarge? ==>
                sent == old(sent) && unsent == old(unsent) && sendBuffer == old(sendBuffer)
                && channel.wire == old(channel.wire) && open == old(open)
      ensures r.Queued? || r.ConnectionLost? ==>
                && open == r.Queued? && |payload| <= MAX_PAYLOAD && sent == old(sent) + [payload]
                && channel.wire + unsent == old(channel.wire) + old(unsent) + Frame(payload)
                && (|channel.wire| - |old(channel.wire)|, open) == Written(answers, |old(sendBuffer)| + |Frame(payload)|)
    {
      if !open { return NotConnected; }
      if |payload| > MAX_PAYLOAD { return TooLarge; }
      ghost var all := channel.wire + sendBuffer + Frame(payload);
      sendBuffer := sendBuffer + Frame(payload);
      assert channel.wire + sendBuffer == all;
      sent := sent + [payload];
      var written, ok := Flush(answers);
      unsent := sendBuffer[written..];
      assert sendBuffer == sendBuffer[..written] + unsent;
      if !ok {
        open := false;
        return ConnectionLost;
      }
      sendBuffer := sendBuffer[written..];
      return Queued;
    }

    /** Writes from the start of the buffer until the system takes no more. */
    method Flush(answers: seq<SendAnswer>) returns (written: nat, ok: bool)
      modifies channel
      ensures (written, ok) == Written(answers, |sendBuffer|) && written <= |sendBuffer|
      ensures channel.wire == old(channel.wire) + sendBuffer[..written]
    {
      written := 0;
      var i: nat := 0;
      assert answers[0..] == answers;
      while written < |sendBuffer| && i < |answers|
        invariant written <= |sendBuffer| && i <= |answers|
        invariant channel.wire == old(channel.wire) + sendBuffer[..written]
        invariant Written(answers, |sendBuffer|)
               == (written + Written(answers[i..], |sendBuffer| - written).0, Written(answers[i..], |sendBuffer| - written).1)
        decreases |answers| - i
      {
        var answer := answers[i];
        assert answers[i..][1..] == answers[i + 1..];
        i := i + 1;
        match answer
        case SendInterrupted => continue;
        case SendWouldBlock => return written, true;
        case SendFailed => return written, false;
        case Accepted(n) =>
          if n == 0 { return written, false; }
          var k := if n <= |sendBuffer| - written then n else |sendBuffer| - written;
          assert sendBuffer[..written + k] == sendBuffer[..written] + sendBuffer[written..written + k];
          channel.wire := channel.wire + sendBuffer[written..written + k];
          written := written + k;
      }
      return written, true;
    }
  }

  class Receiver {
    const channel: Channel
    var open: bool
    var recvBuffer: Bytes
    ghost var received: seq<Bytes>

    constructor (channel: Channel)
      ensures this.channel == channel && open && recvBuffer == [] && received == []
    {
      this.channel := channel;
      open, recvBuffer, received := true, [], [];
    }

    /** Reads until the system has no more. Gives up the connection if that fails. */
    method Drain(answers: seq<ReadAnswer>) returns (ok: bool)
      requires open
      modifies this`open, this`recvBuffer, channel
      ensures recvBuffer + channel.wire == old(recvBuffer + channel.wire) && ok == open
      ensures (|old(channel.wire)| - |channel.wire|, ok) == Moved(answers, |old(channel.wire)|)
    {
      assert answers[0..] == answers;
      for i := 0 to |answers|
        invariant open && recvBuffer + channel.wire == old(recvBuffer + channel.wire) && |channel.wire| <= |old(channel.wire)|
        invariant Moved(answers, |old(channel.wire)|)
               == (|old(channel.wire)| - |channel.wire| + Moved(answers[i..], |channel.wire|).0, Moved(answers[i..], |channel.wire|).1)
      {
        assert answers[i..][1..] == answers[i + 1..];
        match answers[i]
        case ReadInterrupted => continue;
        case ReadWouldBlock => return true;
        case ReadFailed =>
          open := false;
          return false;
        case Arrived(n) =>
          if n == 0 {
            open := false;
            return false;
          }
          var k := if n <= CHUNK then n else CHUNK;
          if k > |channel.wire| { return true; }
          assert recvBuffer + channel.wire == (recvBuffer + channel.wire[..k]) + channel.wire[k..];
          recvBuffer := recvBuffer + channel.wire[..k];
          channel.wire := channel.wire[k..];
      }
      return true;
    }

    /** Gives the first message that has arrived as a whole, and takes exactly its frame off the stream. */
    method ReceiveMessage(answers: seq<ReadAnswer>, decodes: Bytes -> bool) returns (r: Received)
      requires Sendable(received)
      modifies this`open, this`recvBuffer, this`received, channel
      ensures Sendable(received)
      ensures Frames(received) + recvBuffer + channel.wire == old(Frames(received) + recvBuffer + channel.wire)
      ensures old(open) ==> (|old(channel.wire)| - |channel.wire|, r != Lost) == Moved(answers, |old(channel.wire)|)
      ensures old(open) ==> open == !r.Lost?
      ensures !old(open) ==> r == Nothing && !open && channel.wire == old(channel.wire) && recvBuffer == old(recvBuffer)
      ensures match r
              case Message(p) => received == old(received) + [p] && decodes(p)
              case Undecodable(p) => received == old(received) + [p] && !decodes(p)
              case Nothing => received == old(received) && (open ==> !Complete(recvBuffer))
              case Lost => received == old(received) && !open
    {
      if !open { return Nothing; }
      assert Frames(received) + recvBuffer + channel.wire == Frames(received) + (recvBuffer + channel.wire);
      var ok := Drain(answers);
      assert Frames(received) + recvBuffer + channel.wire == Frames(received) + (recvBuffer + channel.wire);
      if !ok { return Lost; }
      if |recvBuffer| < HEADER { return Nothing; }
      if |recvBuffer| < HEADER + Length(recvBuffer) { return Nothing; }
      var payload := TakeFirst();
      return if decodes(payload) then Message(payload) else Undecodable(payload);
    }

    method TakeFirst() returns (payload: Bytes)
      requires Sendable(received) && Complete(recvBuffer)
      modifies this`recvBuffer, this`received
      ensures payload == First(old(recvBuffer)) && recvBuffer == AfterFirst(old(recvBuffer))
      ensures Sendable(received) && received == old(received) + [payload]
      ensures Frames(received) + recvBuffer == old(Frames(received) + recvBuffer)
    {
      var n := Length(recvBuffer);
      payload := recvBuffer[HEADER..HEADER + n];
      FrameOfFirst(recvBuffer);
      FramesSnoc(received, payload);
      assert Frames(received) + recvBuffer == (Frames(received) + Frame(payload)) + AfterFirst(recvBuffer);
      recvBuffer := recvBuffer[HEADER + n..];
      received := received + [payload];
    }
  }

  lemma LengthHeader(h: Bytes)
    requires |h| == HEADER
    ensures Length(h) <= MAX_PAYLOAD && Header(Length(h)) == h
  {
    Digits(h[0] as nat, h[1] as nat, h[2] as nat, h[3] as nat);
  }

  lemma Digits(a: nat, b: nat, c: nat, d: nat)
    requires a < 256 && b < 256 && c < 256 && d < 256
    ensures var n := a * 0x100_0000 + b * 0x1_0000 + c * 0x100 + d;
      n / 0x100_0000 == a && n / 0x1_0000 % 0x100 == b && n / 0x100 % 0x100 == c && n % 0x100 == d
  {
    var n := a * 0x100_0000 + b * 0x1_0000 + c * 0x100 + d;
    assert n / 0x1_0000 == a * 0x100 + b;
    assert n / 0x100 == (a * 0x100 + b) * 0x100 + c;
  }

  /** What is taken for the first frame is that payload's frame, byte for byte. */
  lemma FrameOfFirst(b: Bytes)
    requires Complete(b)
    ensures Length(b) <= MAX_PAYLOAD && b == Frame(First(b)) + AfterFirst(b)
  {
    LengthHeader(b[..HEADER]);
    assert b == b[..HEADER] + b[HEADER..];
  }

  // ----- a connection

  /** All that was sent is what was received, and then what is on its way or has been lost with the connection. */
  ghost predicate Consistent(s: Sender, r: Receiver)
    reads s, r, s.channel
  {
    && s.channel == r.channel && s.Valid() && Sendable(r.received)
    && Frames(s.sent) == Frames(r.received) + (r.recvBuffer + s.channel.wire + s.unsent)
  }

  method Connect() returns (s: Sender, r: Receiver)
    ensures fresh(s) && fresh(r) && fresh(s.channel) && Consistent(s, r)
  {
    var channel := new Channel();
    s := new Sender(channel);
    r := new Receiver(channel);
  }

  /** However sending ends, what has been received stays the first of what has been sent. */
  method Send(s: Sender, r: Receiver, payload: Bytes, answers: seq<SendAnswer>) returns (result: SendResult)
    requires Consistent(s, r)
    modifies s, s.channel
    ensures Consistent(s, r) && r.received == old(r.received) && r.received <= s.sent
    ensures s.sent == if result.Queued? || result.ConnectionLost? then old(s.sent) + [payload] else old(s.sent)
  {
    ghost var sent, wire, unsent := s.sent, s.channel.wire, s.unsent;
    result := s.SendMessage(payload, answers);
    if result.Queued? || result.ConnectionLost? {
      FramesSnoc(sent, payload);
      Behind(Frames(r.received), r.recvBuffer, wire, unsent, Frame(payload), s.channel.wire, s.unsent);
    }
    Fifo(s.sent, r.received, r.recvBuffer + s.channel.wire + s.unsent);
  }

  lemma Behind(done: Bytes, read: Bytes, wire: Bytes, unsent: Bytes, frame: Bytes, wire': Bytes, unsent': Bytes)
    requires wire' + unsent' == wire + unsent + frame
    ensures done + (read + wire' + unsent') == done + (read + wire + unsent) + frame
  {
    assert read + wire' + unsent' == read + (wire' + unsent');
  }

  lemma Grouped(a: Bytes, b: Bytes, c: Bytes, d: Bytes)
    ensures a + (b + c + d) == (a + b + c) + d
  {}

  /** What is received next is what was sent next, also after the sender has lost its connection. Nothing is received
      only when what has arrived holds no whole frame, or the receiver's own connection is lost. */
  method Receive(s: Sender, r: Receiver, answers: seq<ReadAnswer>, decodes: Bytes -> bool) returns (result: Received)
    requires Consistent(s, r)
    modifies r, r.channel
    ensures Consistent(s, r) && r.received <= s.sent
    ensures result.Message? || result.Undecodable? ==> result == if decodes(result.payload) then Message(result.payload) else Undecodable(result.payload)
    ensures result.Message? || result.Undecodable? ==>
              |old(r.received)| < |s.sent| && result.payload == s.sent[|old(r.received)|] && r.received == old(r.received) + [result.payload]
    ensures result.Nothing? && r.open ==> !Complete(r.recvBuffer) && r.received == old(r.received)
    ensures old(r.open) ==> r.open == !result.Lost?
    ensures old(r.open) && s.unsent == [] && HandsOver(answers, |old(s.channel.wire)|) ==>
              r.open && s.channel.wire == [] && (|old(r.received)| < |s.sent| <==> result.Message? || result.Undecodable?)
    ensures s.sent == old(s.sent) && s.unsent == old(s.unsent) && s.open == old(s.open)
  {
    ghost var wire := s.channel.wire;
    if HandsOver(answers, |wire|) { AllMoved(answers, |wire|); }
    Grouped(Frames(r.received), r.recvBuffer, s.channel.wire, s.unsent);
    result := r.ReceiveMessage(answers, decodes);
    Grouped(Frames(r.received), r.recvBuffer, s.channel.wire, s.unsent);
    Fifo(s.sent, r.received, r.recvBuffer + s.channel.wire + s.unsent);
  }

  /** Once all that was sent is on the wire and the system hands it over, receiving until nothing comes gives
      every message that was sent and has not been received yet. */
  method ReceiveAll(s: Sender, r: Receiver, answers: seq<ReadAnswer>, decodes: Bytes -> bool) returns (results: seq<Received>)
    requires Consistent(s, r) && r.open && s.unsent == [] && HandsOver(answers, |s.channel.wire|)
    modifies r, r.channel
    ensures Consistent(s, r) && r.open && s.sent == old(s.sent) && r.received == s.sent
    ensures |results| == |s.sent| - |old(r.received)|
    ensures forall i :: 0 <= i < |results| ==>
              var p := s.sent[|old(r.received)| + i]; results[i] == if decodes(p) then Message(p) else Undecodable(p)
  {
    results := [];
    var result := Receive(s, r, answers, decodes);
    while !result.Nothing?
      invariant Consistent(s, r) && r.open && s.unsent == [] && s.channel.wire == [] && s.sent == old(s.sent)
      invariant result.Message? || result.Undecodable? || result.Nothing?
      invariant |r.received| == |old(r.received)| + |results| + (if result.Nothing? then 0 else 1) && r.received <= s.sent
      invariant result.Nothing? <==> |old(r.received)| + |results| == |s.sent|
      invariant !result.Nothing? ==>
                  var p := s.sent[|old(r.received)| + |results|]; result == if decodes(p) then Message(p) else Undecodable(p)
      invariant forall i :: 0 <= i < |results| ==>
                  var p := s.sent[|old(r.received)| + i]; results[i] == if decodes(p) then Message(p) else Undecodable(p)
      decreases |s.sent| - |results|
    {
      results := results + [result];
      result := Receive(s, r, [ReadWouldBlock], decodes);
    }
  }
}
