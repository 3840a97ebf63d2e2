/** The meek relay: a byte stream carried in both directions over retried HTTP round trips
    (psiphon/meekConn.go on the client, psiphon/server/meek.go on the server).

    The client's writers, readers and relay goroutine exchange one send buffer and one receive
    buffer through channels of capacity one. The relay sends the send buffer as a request body and
    retries a failed round trip; the server skips a repeated body by its checksum and answers a
    retry from its cached response, from the position in the Range header. The machine below
    interleaves the atomic steps of all parties with a network that may fail at every stage.
  */
module MeekRelay {
  import opened Bytes
  import opened MeekPadding

  const MAX_REQUEST_PAYLOAD_LENGTH := 65536

  datatype Config = Config(
    limit: nat,              // limitRequestPayloadLength
    padded: bool,            // payload padding mode
    minPadding: nat,         // sizes of the padding of polls
    maxPadding: nat,
    fullReceive: nat,        // fullReceiveBufferLength
    chunk: nat,              // readPayloadChunkLength
    checksum: bytes -> int,
    requestCipher: Cipher,
    responseCipher: Cipher)

  ghost predicate ValidConfig(c: Config) {
    && (if c.padded then PREFIX_SIZE + 1 else 1) <= c.limit <= MAX_REQUEST_PAYLOAD_LENGTH
    && c.minPadding <= c.maxPadding <= MAX_PADDING_SIZE
    && 1 <= c.fullReceive && 1 <= c.chunk
    && Involutive(c.requestCipher) && Involutive(c.responseCipher)
  }

  // ---------------------------------------------------------------- buffers and channels

  datatype Class = Empty | Partial | Full

  datatype Channels = Channels(empty: Option<bytes>, partial: Option<bytes>, full: Option<bytes>)
  {
    function Slot(k: Class): Option<bytes> {
      match k
      case Empty => empty
      case Partial => partial
      case Full => full
    }

    function Set(k: Class, v: Option<bytes>): Channels {
      match k
      case Empty => this.(empty := v)
      case Partial => this.(partial := v)
      case Full => this.(full := v)
    }
  }

  /** Where a buffer is: in a channel, held by a writer or reader, held by the relay, or dropped
      while closing. */
  datatype Place = In(k: Class) | WithUser(id: nat) | WithRelay | Gone

  /** A Write call in progress: waiting for the send buffer, or holding it. */
  datatype Writer = Wants(rest: bytes) | Holds(buffer: bytes, rest: bytes)

  datatype SendSide = SendSide(ch: Channels, writers: map<nat, Writer>, place: Place, accepted: bytes)

  datatype ReceiveSide = ReceiveSide(ch: Channels, readers: map<nat, bytes>, relay: Option<bytes>, place: Place,
                                     delivered: bytes, readOut: bytes)

  /** What an emptied send buffer holds: room for the padding prefix in padding mode. */
  function Placeholder(c: Config): bytes {
    if c.padded then [0] else []
  }

  function Payload(c: Config, buffer: bytes): bytes {
    if |Placeholder(c)| <= |buffer| then buffer[|Placeholder(c)|..] else []
  }

  /** The channel replaceSendBuffer picks. */
  function SendClass(c: Config, buffer: bytes): Class {
    if |buffer| == 0 then Empty else if |buffer| >= c.limit then Full else Partial
  }

  /** The channel replaceReceiveBuffer picks. */
  function ReceiveClass(c: Config, buffer: bytes): Class {
    if |buffer| == 0 then Empty else if |buffer| >= c.fullReceive then Full else Partial
  }

  /** How much of rest one turn of the Write loop appends. */
  function WriteLength(c: Config, buffer: bytes, rest: bytes): nat {
    if |buffer| >= c.limit then 0
    else if c.limit - |buffer| > |rest| then |rest| else c.limit - |buffer|
  }

  // ---------------------------------------------------------------- server

  /** The cached response: everything written since the last reset, of which the last kept bytes
      are still there; its padding header, the cipher position of that header, and its payload. */
  datatype Cache = Cache(stream: bytes, kept: nat, pad: Padding, start: nat, data: bytes)

  predicate HasPosition(cache: Cache, position: nat) {
    cache.kept != 0 && cache.kept <= |cache.stream| && |cache.stream| - cache.kept <= position <= |cache.stream|
  }

  datatype Server = Server(
    last: Option<int>,       // lastReadChecksum
    requestRx: Receiver,     // request padding state
    relayed: bytes,          // upstream bytes passed on
    cache: Cache,
    responsePos: nat,        // response cipher position
    produced: bytes,         // downstream bytes written into responses
    deleted: bool)

  /** Downstream traffic picked up for a response, its padding, and how much the cache keeps. */
  datatype Pump = Pump(data: bytes, pad: Padding, kept: nat)

  predicate ValidPump(c: Config, srv: Server, p: Pump) {
    && ValidPadding(p.pad)
    && (if !c.padded then p.pad.Omitted? else p.data != [] ==> p.pad.Bare?)
    && (if ResponseBody(c, srv, p) == [] then p.kept == 0 else 1 <= p.kept <= |ResponseBody(c, srv, p)|)
  }

  function ResponseBody(c: Config, srv: Server, p: Pump): bytes
    requires ValidPadding(p.pad)
  {
    Header(c.responseCipher, srv.responsePos, p.pad) + p.data
  }

  /** Whether pumpReads takes a body for empty or for a repeat of the last one. */
  predicate Skips(c: Config, srv: Server, body: bytes) {
    body == [] || srv.last == Some(c.checksum(body))
  }

  /** pumpReads: the new server state and whether the body was accepted. */
  function PumpReads(c: Config, srv: Server, body: bytes): (r: (Server, bool))
    ensures r.0.cache == srv.cache && r.0.responsePos == srv.responsePos
    ensures r.0.produced == srv.produced && r.0.deleted == srv.deleted
  {
    if |body| > MAX_REQUEST_PAYLOAD_LENGTH then (srv, false)
    else if Skips(c, srv, body) then (srv, true)
    else
      var srv' := srv.(last := Some(c.checksum(body)));
      if !c.padded then (srv'.(relayed := srv.relayed + body), true)
      else
        var r := Consume(c.requestCipher, srv.requestRx, body, Eof);
        if !r.outcome.Done? then (srv'.(requestRx := r.rx), false)
        else (srv'.(requestRx := r.rx, relayed := srv.relayed + body[r.read..]), true)
  }

  datatype Reply = Body(body: bytes) | NotFound

  /** The response: from the cache, or a new one. */
  function Respond(c: Config, srv: Server, range: Option<nat>, allowCached: bool, pump: Pump): (Server, Reply)
    requires ValidPump(c, srv, pump)
  {
    if range.Some? && (range.value > 0 || (HasPosition(srv.cache, 0) && allowCached)) then
      if !HasPosition(srv.cache, range.value) then (srv.(deleted := true), NotFound)
      else (srv, Body(srv.cache.stream[range.value..]))
    else
      var stream := ResponseBody(c, srv, pump);
      (srv.(cache := Cache(stream, pump.kept, pump.pad, srv.responsePos, pump.data),
            responsePos := srv.responsePos + PreambleSize(pump.pad),
            produced := srv.produced + pump.data),
       Body(stream))
  }

  /** The relay request handler. A body that cannot be accepted leaves the reply empty. */
  function Serve(c: Config, srv: Server, body: bytes, range: Option<nat>, pump: Pump): (Server, Reply)
    requires ValidPump(c, srv, pump)
  {
    if srv.deleted then (srv, NotFound)
    else
      var (srv1, accepted) := PumpReads(c, srv, body);
      if accepted then Respond(c, srv1, range, Skips(c, srv, body), pump) else (srv1, Body([]))
  }

  // ---------------------------------------------------------------- relay

  datatype Stage =
    | Sending                                          // about to make a request
    | Reading(left: bytes, end: End, total: nat)       // readPayload, total bytes relayed so far
    | Failed(err: bool)                                // before the retry decision, with relayRoundTrip's err

  /** One relayRoundTrip call. pad, payload and start (the bytes delivered before the round) are
      history, as is arrived: whether a request of this round has reached the server. */
  datatype Round = Round(
    body: bytes, pad: Padding, payload: bytes, held: Option<bytes>,
    acked: bool, arrived: bool, tries: nat, retries: nat,
    received: nat,           // receivedPayloadSize
    paddingSize: nat,        // totalPaddingSize
    morePadding: bool, start: bytes, stage: Stage)

  datatype Relay = Idle | InRound(r: Round) | Stopped

  /** sent is history: the payloads of all acknowledged rounds. */
  datatype World = World(send: SendSide, recv: ReceiveSide, relay: Relay,
                         requestPos: nat, rx: Receiver, sent: bytes, srv: Server, closed: bool)

  function Init(c: Config): World {
    World(
      SendSide(Channels(Some(Placeholder(c)), None, None), map[], In(Empty), []),
      ReceiveSide(Channels(Some([]), None, None), map[], None, In(Empty), [], []),
      Idle, 0, Receiver(0, Prefix), [],
      Server(None, Receiver(0, Prefix), [], Cache([], 0, Omitted, 0, []), 0, [], false),
      false)
  }

  /** What the client sees of an answered request: nothing, or the status and the first m bytes of
      the body, followed by its end or by a failure. */
  datatype Seen = Lost | Got(m: nat, end: End)

  datatype Network = Unreached | Answered(pump: Pump, seen: Seen)

  datatype Step =
    | BeginWrite(id: nat, data: bytes)
    | WriterTake(id: nat, k: Class)
    | WriterPut(id: nat)
    | RelayTake(k: Class)
    | RelayPoll(pad: Padding)
    | Attempt(net: Network)
    | Retry
    | GiveUp
    | RelayTakeReceive(k: Class)
    | RelayFillReceive
    | ReaderTake(id: nat, k: Class)
    | ReaderPut(id: nat, size: nat)
    | Close
    | Abort(drop: bool)

  function Range(r: Round): Option<nat> {
    if r.tries > 0 then Some(r.received) else None
  }

  /** The request payload is left out once the server has acknowledged it. */
  function RequestBody(r: Round): bytes {
    if r.acked then [] else r.body
  }

  predicate Enabled(c: Config, w: World, s: Step) {
    match s
    case BeginWrite(id, data) => !w.closed && id !in w.send.writers && data != []
    case WriterTake(id, k) =>
      !k.Full? && w.send.ch.Slot(k).Some? && id in w.send.writers && w.send.writers[id].Wants?
    case WriterPut(id) =>
      && id in w.send.writers && w.send.writers[id].Holds?
      && w.send.ch.Slot(SendClass(c, Filled(c, w.send.writers[id]))).None?
    case RelayTake(k) => !k.Empty? && w.relay.Idle? && w.send.ch.Slot(k).Some?
    case RelayPoll(pad) =>
      && w.relay.Idle? && ValidPadding(pad) && (if c.padded then !pad.Bare? else pad.Omitted?)
      && (pad.Padded? ==> c.minPadding <= |pad.pad| <= c.maxPadding)
    case Attempt(net) =>
      && w.relay.InRound? && w.relay.r.stage.Sending?
      && (net.Answered? ==>
            && ValidPump(c, w.srv, net.pump)
            && (net.seen.Got? ==>
                  var reply := Serve(c, w.srv, RequestBody(w.relay.r), Range(w.relay.r), net.pump).1;
                  && (reply.Body? ==> net.seen.m <= |reply.body| && (net.seen.end.Eof? ==> net.seen.m == |reply.body|))
                  && CanReplaceSend(w)))
    case Retry => w.relay.InRound? && w.relay.r.stage.Failed?
    case GiveUp => w.relay.InRound? && w.relay.r.stage.Failed? && w.relay.r.retries >= 1 && CanReplaceSend(w)
    case RelayTakeReceive(k) =>
      && !k.Full? && w.relay.InRound? && w.relay.r.stage.Reading? && w.recv.relay.None?
      && w.recv.ch.Slot(k).Some?
    case RelayFillReceive =>
      && w.relay.InRound? && w.relay.r.stage.Reading? && w.recv.relay.Some?
      && w.recv.ch.Slot(ReceiveClass(c, w.recv.relay.value + NextChunk(c, w.relay.r.stage.left))).None?
    case ReaderTake(id, k) => !k.Empty? && id !in w.recv.readers && w.recv.ch.Slot(k).Some?
    case ReaderPut(id, size) =>
      && id in w.recv.readers
      && w.recv.ch.Slot(ReceiveClass(c, w.recv.readers[id][ReadLength(w.recv.readers[id], size)..])).None?
    case Close => true
    case Abort(drop) => w.closed && !w.relay.Stopped? && w.recv.relay.None? && (drop || CanReplaceSend(w))
  }

  /** The relay can put a held send buffer back in the empty channel without blocking. */
  predicate CanReplaceSend(w: World) {
    w.relay.InRound? && w.relay.r.held.Some? ==> w.send.ch.empty.None?
  }

  function Filled(c: Config, writer: Writer): bytes
    requires writer.Holds?
  {
    writer.buffer + writer.rest[..WriteLength(c, writer.buffer, writer.rest)]
  }

  function NextChunk(c: Config, left: bytes): bytes {
    if |left| < c.chunk then left else left[..c.chunk]
  }

  function ReadLength(buffer: bytes, size: nat): (n: nat)
    ensures n <= |buffer|
  {
    if size < |buffer| then size else |buffer|
  }

  function Apply(c: Config, w: World, s: Step): World
    requires Enabled(c, w, s)
  {
    match s
    case BeginWrite(id, data) => w.(send := w.send.(writers := w.send.writers[id := Wants(data)]))
    case WriterTake(id, k) =>
      w.(send := w.send.(ch := w.send.ch.Set(k, None), place := WithUser(id),
        writers := w.send.writers[id := Holds(w.send.ch.Slot(k).value, w.send.writers[id].rest)]))
    case WriterPut(id) => w.(send := PutWritten(c, w.send, id))
    case RelayTake(k) => StartRound(c, w, k)
    case RelayPoll(pad) =>
      var body := if c.padded then Header(c.requestCipher, w.requestPos, pad) else [];
      w.(requestPos := w.requestPos + PreambleSize(pad), relay := InRound(NewRound(c, w, body, pad, [], None)))
    case Attempt(net) => AfterAttempt(c, w, w.relay.r, net)
    case Retry =>
      var r := w.relay.r;
      w.(relay := InRound(r.(tries := r.tries + 1, retries := r.retries + 1, stage := Sending)))
    case GiveUp =>
      if w.relay.r.stage.err then Stop(c, w) else w.(relay := Idle)
    case RelayTakeReceive(k) =>
      w.(recv := w.recv.(ch := w.recv.ch.Set(k, None), relay := w.recv.ch.Slot(k), place := WithRelay))
    case RelayFillReceive => FillReceive(c, w, w.relay.r)
    case ReaderTake(id, k) =>
      w.(recv := w.recv.(ch := w.recv.ch.Set(k, None), place := WithUser(id),
        readers := w.recv.readers[id := w.recv.ch.Slot(k).value]))
    case ReaderPut(id, size) => w.(recv := PutRead(c, w.recv, id, size))
    case Close => w.(closed := true)
    case Abort(drop) =>
      if drop && w.relay.InRound? && w.relay.r.held.Some? then
        w.(relay := Stopped, send := w.send.(place := Gone))
      else Stop(c, w)
  }

  /** One turn of the Write loop after taking the send buffer: append and put it back. */
  function PutWritten(c: Config, s: SendSide, id: nat): SendSide
    requires id in s.writers && s.writers[id].Holds?
  {
    var writer := s.writers[id];
    var n := WriteLength(c, writer.buffer, writer.rest);
    var k := SendClass(c, Filled(c, writer));
    SendSide(s.ch.Set(k, Some(Filled(c, writer))),
             if n == |writer.rest| then s.writers - {id} else s.writers[id := Wants(writer.rest[n..])],
             In(k),
             s.accepted + writer.rest[..n])
  }

  /** Read after taking the receive buffer: hand out up to size bytes and put it back. */
  function PutRead(c: Config, s: ReceiveSide, id: nat, size: nat): ReceiveSide
    requires id in s.readers
  {
    var buffer := s.readers[id];
    var n := ReadLength(buffer, size);
    var k := ReceiveClass(c, buffer[n..]);
    s.(ch := s.ch.Set(k, Some(buffer[n..])), readers := s.readers - {id}, place := In(k),
       readOut := s.readOut + buffer[..n])
  }

  function NewRound(c: Config, w: World, body: bytes, pad: Padding, payload: bytes, held: Option<bytes>): Round {
    Round(body, pad, payload, held, false, false, 0, 0, 0, 0, c.padded, w.recv.delivered, Sending)
  }

  /** The relay takes a non-empty send buffer and fills in the padding prefix. A buffer too short
      to hold a payload, or a closed connection, ends the relay. */
  function StartRound(c: Config, w: World, k: Class): World
    requires !k.Empty? && w.send.ch.Slot(k).Some?
  {
    var buffer := w.send.ch.Slot(k).value;
    var w' := w.(send := w.send.(ch := w.send.ch.Set(k, None), place := WithRelay));
    if w.closed || (c.padded && |buffer| < PREFIX_SIZE + 1) then
      w'.(relay := Stopped, send := w'.send.(place := Gone))
    else if c.padded then
      var body := Header(c.requestCipher, w.requestPos, Bare) + Payload(c, buffer);
      w'.(requestPos := w.requestPos + PreambleSize(Bare),
          relay := InRound(NewRound(c, w, body, Bare, Payload(c, buffer), Some(buffer))))
    else
      w'.(relay := InRound(NewRound(c, w, buffer, Omitted, buffer, Some(buffer))))
  }

  /** relayRoundTrip returns with an error; a send buffer it still holds is emptied and put back. */
  function Stop(c: Config, w: World): World {
    if w.relay.InRound? && w.relay.r.held.Some? then
      w.(relay := Stopped, send := ReplaceTruncated(c, w.send))
    else w.(relay := Stopped)
  }

  /** truncateAndReplaceSendBuffer */
  function ReplaceTruncated(c: Config, s: SendSide): SendSide {
    s.(ch := s.ch.Set(Empty, Some(Placeholder(c))), place := In(Empty))
  }

  /** A request of the round has reached the server, which is now in state srv. */
  function Answer(w: World, srv: Server): (w': World)
    requires w.relay.InRound?
    ensures w'.relay.InRound?
  {
    w.(srv := srv, relay := InRound(w.relay.r.(arrived := true)))
  }

  function AfterAttempt(c: Config, w: World, r: Round, net: Network): World
    requires w.relay == InRound(r) && (net.Answered? ==> ValidPump(c, w.srv, net.pump))
  {
    if net.Unreached? then w.(relay := InRound(r.(stage := Failed(true))))
    else
      var (srv, reply) := Serve(c, w.srv, RequestBody(r), Range(r), net.pump);
      var w1 := Answer(w, srv);
      if net.seen.Lost? then w1.(relay := InRound(r.(arrived := true, stage := Failed(true))))
      else if reply.NotFound? then Stop(c, w1)
      else
        var w2 := Acknowledge(c, w1);
        var got := if net.seen.m <= |reply.body| then reply.body[..net.seen.m] else [];
        Receive(c, w2, w2.relay.r, got, net.seen.end)
  }

  /** A status code has arrived, so the server has the request payload: the send buffer is put
      back for the writers. */
  function Acknowledge(c: Config, w: World): (w': World)
    requires w.relay.InRound?
    ensures w'.relay.InRound?
  {
    var r := w.relay.r;
    var w1 := w.(relay := InRound(r.(acked := true, held := None)),
                 sent := if r.acked then w.sent else w.sent + r.payload);
    if r.held.Some? then w1.(send := ReplaceTruncated(c, w.send)) else w1
  }

  /** The start of a response body: consume padding, then go on to the payload. */
  function Receive(c: Config, w: World, r: Round, got: bytes, end: End): World
    requires w.relay == InRound(r)
  {
    if !r.morePadding then w.(relay := InRound(r.(stage := Reading(got, end, 0))))
    else AfterPadding(c, w, r, got, end, Consume(c.responseCipher, w.rx, got, end))
  }

  function AfterPadding(c: Config, w: World, r: Round, got: bytes, end: End, p: Consumed): World
    requires w.relay == InRound(r) && p.read <= |got|
  {
    if p.outcome.ImmediateEof? then w.(relay := Idle)
    else if p.outcome.UnknownPrefix? then Stop(c, w.(rx := p.rx))
    else
      var r' := r.(received := r.received + p.read, paddingSize := r.paddingSize + p.read);
      if p.outcome.Incomplete? then
        w.(rx := p.rx, relay := InRound(r'.(tries := r.tries + 1, stage := Sending)))
      else
        w.(rx := p.rx, relay := InRound(r'.(morePadding := false, stage := Reading(got[p.read..], end, 0))))
  }

  /** One turn of readPayload after taking the receive buffer. */
  function FillReceive(c: Config, w: World, r: Round): World
    requires w.relay == InRound(r) && r.stage.Reading? && w.recv.relay.Some?
  {
    var Reading(left, end, total) := r.stage;
    var part := NextChunk(c, left);
    var buffer := w.recv.relay.value + part;
    var k := ReceiveClass(c, buffer);
    var recv := w.recv.(ch := w.recv.ch.Set(k, Some(buffer)), relay := None, place := In(k),
                        delivered := w.recv.delivered + part);
    var relay :=
      if |left| < c.chunk && end.Failure? then
        InRound(r.(received := r.received + total + |part|, stage := Failed(false)))
      else if |part| == 0 then Idle
      else InRound(r.(stage := Reading(left[|part|..], end, total + |part|)));
    w.(recv := recv, relay := relay)
  }

  // ---------------------------------------------------------------- runs

  predicate ValidRun(c: Config, w: World, run: seq<Step>)
    decreases |run|
  {
    run == [] || (Enabled(c, w, run[0]) && ValidRun(c, Apply(c, w, run[0]), run[1..]))
  }

  function Exec(c: Config, w: World, run: seq<Step>): World
    requires ValidRun(c, w, run)
    decreases |run|
  {
    if run == [] then w else Exec(c, Apply(c, w, run[0]), run[1..])
  }
}
