/** The meek server's relay handler in place (psiphon/server/meek.go): one session with its padding
    receiver and its ring of cached response bytes. It refines the server of the relay machine, whose delivery
    theorems therefore hold with this server. */
module MeekServer {
  import opened Bytes
  import opened MeekPadding
  import opened CachedResponses
  import opened MeekRelay

  class Session {
    const c: Config
    var lastReadChecksum: Option<int>
    const requestPadding: PaddingReceiver
    const cachedResponse: CachedResponse
    var responsePos: nat
    var deleted: bool
    /** Upstream bytes passed on, downstream bytes sent, and the header and payload of the last response. */
    ghost var relayed: bytes
    ghost var produced: bytes
    ghost var pad: Padding
    ghost var start: nat
    ghost var data: bytes

    ghost predicate Valid()
      reads this, cachedResponse
    {
      cachedResponse.Valid() && requestPadding.cipher == c.requestCipher
    }

    /** The session as the relay machine sees it. */
    ghost function View(): Server
      reads this, requestPadding, cachedResponse
    {
      Server(lastReadChecksum, requestPadding.View(), relayed,
             Cache(cachedResponse.stream, cachedResponse.readAvailable, pad, start, data),
             responsePos, produced, deleted)
    }

    constructor (c: Config, requestPadding: PaddingReceiver, cachedResponse: CachedResponse)
      requires requestPadding.cipher == c.requestCipher && requestPadding.View() == Receiver(0, Prefix)
      requires cachedResponse.Valid() && cachedResponse.stream == []
      ensures Valid() && View() == Init(c).srv
      ensures this.c == c && this.requestPadding == requestPadding && this.cachedResponse == cachedResponse
    {
      this.c, this.requestPadding, this.cachedResponse := c, requestPadding, cachedResponse;
      lastReadChecksum, responsePos, deleted := None, 0, false;
      relayed, produced, pad, start, data := [], [], Omitted, 0, [];
      new;
      cachedResponse.View().KeptAmount([]);
    }

    /** Reads a request body: refuses it when too long, skips it when empty or the last one again, and
        otherwise strips its padding and passes it on. */
    method PumpReads(body: bytes) returns (allowCachedResponse: bool, ok: bool)
      requires Valid()
      modifies this`lastReadChecksum, this`relayed, requestPadding
      ensures Valid() && (View(), ok) == MeekRelay.PumpReads(c, old(View()), body)
      ensures ok ==> allowCachedResponse == Skips(c, old(View()), body)
      ensures cachedResponse.View() == old(cachedResponse.View())
    {
      if |body| > MAX_REQUEST_PAYLOAD_LENGTH {
        return false, false;
      }
      if |body| == 0 {
        return true, true;
      }
      var checksum := c.checksum(body);
      if lastReadChecksum == Some(checksum) {
        return true, true;
      }
      lastReadChecksum := Some(checksum);
      var n := 0;
      if c.padded {
        var resume, outcome;
        n, resume, outcome := requestPadding.ReceiverConsumePadding(body, Eof);
        if !outcome.Done? {
          return false, false;
        }
      } else {
        assert body[0..] == body;
      }
      relayed := relayed + body[n..];
      return false, true;
    }

    /** Streams a new response into the cache and to the client: downstream traffic behind a bare
        padding prefix, or padding alone when there is no traffic. */
    method PumpWrites(buffers: seq<bytes>, emptyPad: Padding) returns (sent: bytes)
      requires Valid() && cachedResponse.stream == [] && ValidPadding(emptyPad) && !emptyPad.Bare?
      modifies this`responsePos, this`produced, this`pad, this`start, this`data, cachedResponse, cachedResponse.pool
      ensures pad == ResponsePad(c, buffers, emptyPad) && start == old(responsePos) && data == Concat(buffers)
      ensures Valid() && sent == cachedResponse.stream == Header(c.responseCipher, start, pad) + data
      ensures responsePos == start + PreambleSize(pad) && produced == old(produced) + data
    {
      start, pad, data := responsePos, ResponsePad(c, buffers, emptyPad), Concat(buffers);
      produced := produced + data;
      var header := Header(c.responseCipher, responsePos, ResponsePad(c, buffers, emptyPad));
      responsePos := responsePos + PreambleSize(ResponsePad(c, buffers, emptyPad));
      cachedResponse.WriteAll([header] + buffers);
      assert ([header] + buffers)[1..] == buffers;
      sent := header + Concat(buffers);
    }

    /** Resumes the cached response; a position that is gone ends the session. */
    method ResumeResponse(position: nat) returns (reply: Reply)
      requires Valid()
      modifies this`deleted
      ensures Valid()
      ensures (View(), reply) ==
        if MeekRelay.HasPosition(old(View()).cache, position)
        then (old(View()), Body(old(View()).cache.stream[position..])) else (old(View()).(deleted := true), NotFound)
    {
      cachedResponse.View().KeptAmount(cachedResponse.stream);
      if !cachedResponse.HasPosition(position) {
        deleted := true;
        return NotFound;
      }
      var sent := cachedResponse.CopyFromPosition(position);
      return Body(sent.value);
    }

    /** Gives the buffers of the previous response back and streams a new one. */
    method NewResponse(buffers: seq<bytes>, emptyPad: Padding) returns (reply: Reply, ghost kept: nat)
      requires Valid() && ValidPadding(emptyPad) && !emptyPad.Bare?
      modifies this`responsePos, this`produced, this`pad, this`start, this`data, cachedResponse, cachedResponse.pool
      ensures Valid()
      ensures var pump := Pump(Concat(buffers), ResponsePad(c, buffers, emptyPad), kept);
        ValidPump(c, old(View()), pump) && (View(), reply) == MeekRelay.Respond(c, old(View()), None, false, pump)
    {
      cachedResponse.Reset();
      var sent := PumpWrites(buffers, emptyPad);
      cachedResponse.View().KeptAmount(cachedResponse.stream);
      return Body(sent), cachedResponse.readAvailable;
    }

    /** Answers a request whose body was read: from the cache when the client is to resume, or else
        with a new response. */
    method Respond(range: Option<nat>, allowCachedResponse: bool, buffers: seq<bytes>, emptyPad: Padding)
      returns (reply: Reply, ghost kept: nat)
      requires Valid() && ValidPadding(emptyPad) && !emptyPad.Bare?
      modifies this`deleted, this`responsePos, this`produced, this`pad, this`start, this`data
      modifies cachedResponse, cachedResponse.pool
      ensures Valid()
      ensures var pump := Pump(Concat(buffers), ResponsePad(c, buffers, emptyPad), kept);
        && ValidPump(c, old(View()), pump)
        && (View(), reply) == MeekRelay.Respond(c, old(View()), range, allowCachedResponse, pump)
    {
      cachedResponse.View().KeptAmount(cachedResponse.stream);
      if range.Some? && (range.value > 0 || (cachedResponse.HasPosition(0) && allowCachedResponse)) {
        kept := Least(ResponseBody(c, View(), Pump(Concat(buffers), ResponsePad(c, buffers, emptyPad), 0)));
        reply := ResumeResponse(range.value);
      } else {
        reply, kept := NewResponse(buffers, emptyPad);
      }
    }

    /** The handler for one relay request: what it answers and the session it leaves are those of the
        relay machine's server. */
    method ServeRelay(body: bytes, range: Option<nat>, buffers: seq<bytes>, emptyPad: Padding)
      returns (reply: Reply, ghost kept: nat)
      requires Valid() && ValidPadding(emptyPad) && !emptyPad.Bare?
      modifies this, requestPadding, cachedResponse, cachedResponse.pool
      ensures Valid()
      ensures var pump := Pump(Concat(buffers), ResponsePad(c, buffers, emptyPad), kept);
        ValidPump(c, old(View()), pump) && (View(), reply) == Serve(c, old(View()), body, range, pump)
    {
      kept := Least(ResponseBody(c, View(), Pump(Concat(buffers), ResponsePad(c, buffers, emptyPad), 0)));
      if deleted {
        return NotFound, kept;
      }
      var allowCachedResponse, ok := PumpReads(body);
      if !ok {
        return Body([]), kept;
      }
      reply, kept := Respond(range, allowCachedResponse, buffers, emptyPad);
    }
  }

  /** The least that a cache keeps of a response. */
  ghost function Least(stream: bytes): nat {
    if stream == [] then 0 else 1
  }

  /** The padding of a response: a bare prefix before traffic, padding or nothing otherwise. */
  function ResponsePad(c: Config, buffers: seq<bytes>, emptyPad: Padding): Padding {
    if !c.padded then Omitted else if buffers != [] then Bare else emptyPad
  }
}
