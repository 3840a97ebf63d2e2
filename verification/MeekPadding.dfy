/** Payload padding of the meek protocol (psiphon/common/protocol/meek.go).

    In padding mode every non-empty request and response body starts with a padding header: a
    one byte prefix and, for padded empty payloads, a big-endian 16-bit size and that many padding
    bytes. The prefix and the size are obfuscated with a stream cipher whose position the two
    sides keep in step; the padding bytes are not. The receiver reads a body piecemeal, across
    retries, and resumes in the middle of a header.
  */
module MeekPadding {

  import opened Bytes

  /** A stream cipher: what it makes of a byte at a stream position. */
  type Cipher = (nat, byte) -> byte

  /** Applying the cipher again at the same position gives back the clear byte. */
  ghost predicate Involutive(cipher: Cipher) {
    forall pos: nat, b: byte :: cipher(pos, cipher(pos, b)) == b
  }

  const PREFIX_NO_PADDING: byte := 0
  const PREFIX_PADDING: byte := 1
  const PREFIX_SIZE := 1
  const PADDING_HEADER_SIZE := 3
  const MAX_PADDING_SIZE := 65533

  /** Exclusive or of the low n bits of a and b. */
  function XorBits(a: nat, b: nat, n: nat): nat {
    if n == 0 then 0
    else (if a % 2 != b % 2 then 1 else 0) + 2 * XorBits(a / 2, b / 2, n - 1)
  }

  function Pow2(n: nat): (r: nat) {
    if n == 0 then 1 else 2 * Pow2(n - 1)
  }

  lemma {:induction false} XorBitsTwice(a: nat, k: nat, n: nat)
    requires a < Pow2(n)
    ensures XorBits(a, k, n) < Pow2(n)
    ensures XorBits(XorBits(a, k, n), k, n) == a
  {
    if n > 0 {
      XorBitsTwice(a / 2, k / 2, n - 1);
      var bit: nat := if a % 2 != k % 2 then 1 else 0;
      var x := XorBits(a, k, n);
      assert x % 2 == bit && x / 2 == XorBits(a / 2, k / 2, n - 1);
    }
  }

  function Xor(a: byte, k: byte): (r: byte)
    ensures r as nat == XorBits(a as nat, k as nat, 8)
  {
    assert Pow2(8) == 256;
    XorBitsTwice(a as nat, k as nat, 8);
    XorBits(a as nat, k as nat, 8) as byte
  }

  /** XORKeyStream with any key stream is such a cipher. */
  lemma XorInvolutive(key: nat -> byte)
    ensures Involutive((pos: nat, b: byte) => Xor(b, key(pos)))
  {
    forall pos: nat, b: byte
      ensures Xor(Xor(b, key(pos)), key(pos)) == b
    {
      assert Pow2(8) == 256;
      XorBitsTwice(b as nat, key(pos) as nat, 8);
    }
  }

  function Encrypt(cipher: Cipher, pos: nat, data: bytes): (r: bytes)
    ensures |r| == |data|
  {
    seq(|data|, i requires 0 <= i < |data| => cipher(pos + i, data[i]))
  }

  /** What the sender prepends: nothing at all, the bare prefix of a real payload, or a full
      header with padding. */
  datatype Padding = Omitted | Bare | Padded(pad: bytes)

  predicate ValidPadding(p: Padding) {
    p.Padded? ==> |p.pad| <= MAX_PADDING_SIZE
  }

  /** Number of key stream bytes a header uses up. */
  function PreambleSize(p: Padding): nat {
    match p
    case Omitted => 0
    case Bare => 1
    case Padded(_) => 3
  }

  function Preamble(p: Padding): bytes
    requires ValidPadding(p)
  {
    match p
    case Omitted => []
    case Bare => [PREFIX_NO_PADDING]
    case Padded(pad) => [PREFIX_PADDING, (|pad| / 256) as byte, (|pad| % 256) as byte]
  }

  /** The header bytes of SenderGetNextPadding with the cipher at position pos. */
  function Header(cipher: Cipher, pos: nat, p: Padding): (h: bytes)
    requires ValidPadding(p)
    ensures |h| == PreambleSize(p) + if p.Padded? then |p.pad| else 0
  {
    Encrypt(cipher, pos, Preamble(p)) + if p.Padded? then p.pad else []
  }

  datatype Phase = Prefix | SizeByte1 | SizeByte2(high: byte) | PaddingBytes(remaining: nat)

  /** Receiver state: cipher position and parse phase. */
  datatype Receiver = Receiver(pos: nat, phase: Phase)

  /** How a body ends for the reader once its available bytes are used up. */
  datatype End = Eof | Failure

  datatype Outcome = Done | ImmediateEof | Incomplete | UnknownPrefix

  datatype Consumed = Consumed(read: nat, outcome: Outcome, rx: Receiver)

  /** The phase after reading one header byte, or None for an unknown prefix. The boolean tells
      whether the header is complete. */
  function NextPhase(cipher: Cipher, rx: Receiver, b: byte): (r: (Phase, bool, bool))
    requires !rx.phase.PaddingBytes?
  {
    var clear := cipher(rx.pos, b);
    match rx.phase
    case Prefix =>
      if clear == PREFIX_NO_PADDING then (Prefix, true, true)
      else if clear == PREFIX_PADDING then (SizeByte1, false, true)
      else (Prefix, false, false)
    case SizeByte1 => (SizeByte2(clear), false, true)
    case SizeByte2(high) => (PaddingBytes(high as nat * 256 + clear as nat), false, true)
  }

  /** ReceiverConsumePadding on a reader that yields input and then ends as told. */
  function Consume(cipher: Cipher, rx: Receiver, input: bytes, end: End): (r: Consumed)
    ensures r.read <= |input| && (r.outcome.ImmediateEof? ==> end.Eof?)
    decreases |input|, if rx.phase.PaddingBytes? then 0 else 1
  {
    if rx.phase.PaddingBytes? then
      var remaining := rx.phase.remaining;
      if remaining <= |input| then Consumed(remaining, Done, Receiver(rx.pos, Prefix))
      else Consumed(|input|, Incomplete, Receiver(rx.pos, PaddingBytes(remaining - |input|)))
    else if input == [] then
      Consumed(0, if rx.phase.Prefix? && end.Eof? then ImmediateEof else Incomplete, rx)
    else
      var (phase, done, known) := NextPhase(cipher, rx, input[0]);
      var rx' := Receiver(rx.pos + 1, phase);
      if !known then Consumed(1, UnknownPrefix, rx')
      else if done then Consumed(1, Done, rx')
      else
        var rest := Consume(cipher, rx', input[1..], end);
        Consumed(1 + rest.read, rest.outcome, rest.rx)
  }

  /** The result of a read that went on after n bytes were already consumed. */
  function After(n: nat, c: Consumed): Consumed {
    c.(read := n + c.read)
  }

  /** The receiver at the sender's cipher position recovers each preamble byte. */
  lemma HeaderByte(cipher: Cipher, pos: nat, p: Padding, payload: bytes, i: nat)
    requires Involutive(cipher) && ValidPadding(p) && i < |Preamble(p)|
    ensures |Header(cipher, pos, p)| > i
    ensures cipher(pos + i, (Header(cipher, pos, p) + payload)[i]) == Preamble(p)[i]
  {
  }

  /** From the first size byte on, the receiver reads the size and skips the padding. */
  lemma SizeRoundTrip(cipher: Cipher, pos: nat, p: Padding, payload: bytes, end: End)
    requires Involutive(cipher) && ValidPadding(p) && p.Padded?
    ensures Consume(cipher, Receiver(pos + 1, SizeByte1), (Header(cipher, pos, p) + payload)[1..], end)
         == Consumed(2 + |p.pad|, Done, Receiver(pos + 3, Prefix))
  {
    var body, high, n := Header(cipher, pos, p) + payload, Preamble(p)[1], |p.pad|;
    HeaderByte(cipher, pos, p, payload, 1);
    HeaderByte(cipher, pos, p, payload, 2);
    assert body[1..][1..] == body[2..] && body[2..][1..] == body[3..];
    assert Consume(cipher, Receiver(pos + 2, SizeByte2(high)), body[2..], end)
        == Consumed(1 + n, Done, Receiver(pos + 3, Prefix)) by {
      assert NextPhase(cipher, Receiver(pos + 2, SizeByte2(high)), body[2]).0 == PaddingBytes(n);
    }
  }

  /** The receiver in step with the sender reads back exactly the sender's header, whatever payload
      follows, and ends in step with the sender again. */
  lemma HeaderRoundTrip(cipher: Cipher, pos: nat, p: Padding, payload: bytes, end: End)
    requires Involutive(cipher) && ValidPadding(p) && !p.Omitted?
    ensures Consume(cipher, Receiver(pos, Prefix), Header(cipher, pos, p) + payload, end)
         == Consumed(|Header(cipher, pos, p)|, Done, Receiver(pos + PreambleSize(p), Prefix))
  {
    HeaderByte(cipher, pos, p, payload, 0);
    if p.Padded? {
      SizeRoundTrip(cipher, pos, p, payload, end);
    }
  }

  /** Resuming after an interrupted read is the same as one uninterrupted read: the bytes of the
      two reads add up and the parser ends in the same state with the same outcome. */
  lemma {:induction false} ConsumeResumes(cipher: Cipher, rx: Receiver, a: bytes, b: bytes, end: End)
    requires Consume(cipher, rx, a, Failure).outcome.Incomplete?
    ensures Consume(cipher, rx, a, Failure).read == |a|
    ensures |a| > 0 ==> !Consume(cipher, rx, a, Failure).rx.phase.Prefix?
    ensures Consume(cipher, rx, a + b, end)
         == After(|a|, Consume(cipher, Consume(cipher, rx, a, Failure).rx, b, end))
    decreases |a|
  {
    if rx.phase.PaddingBytes? {
    } else if a == [] {
      assert a + b == b;
    } else {
      var (phase, done, known) := NextPhase(cipher, rx, a[0]);
      var rx' := Receiver(rx.pos + 1, phase);
      assert known && !done && !phase.Prefix?;
      assert (a + b)[0] == a[0] && (a + b)[1..] == a[1..] + b;
      ConsumeResumes(cipher, rx', a[1..], b, end);
      var first, second := Consume(cipher, rx, a, Failure), Consume(cipher, rx', a[1..], Failure);
      assert first == After(1, second);
      assert Consume(cipher, rx, a + b, end) == After(1, Consume(cipher, rx', a[1..] + b, end));
    }
  }

  /** A header that has been read completely, or refused, is not looked at again. */
  lemma {:induction false} ConsumeStops(cipher: Cipher, rx: Receiver, a: bytes, b: bytes, end: End, end': End)
    requires Consume(cipher, rx, a, end).outcome.Done? || Consume(cipher, rx, a, end).outcome.UnknownPrefix?
    ensures Consume(cipher, rx, a + b, end') == Consume(cipher, rx, a, end)
    decreases |a|
  {
    if !rx.phase.PaddingBytes? {
      assert (a + b)[0] == a[0] && (a + b)[1..] == a[1..] + b;
      var (phase, done, known) := NextPhase(cipher, rx, a[0]);
      if known && !done {
        ConsumeStops(cipher, Receiver(rx.pos + 1, phase), a[1..], b, end, end');
      }
    }
  }

  /** Part of a header leaves the receiver waiting for more. */
  lemma HeaderPrefix(cipher: Cipher, pos: nat, p: Padding, n: nat)
    requires Involutive(cipher) && ValidPadding(p) && n < |Header(cipher, pos, p)|
    ensures var r := Consume(cipher, Receiver(pos, Prefix), Header(cipher, pos, p)[..n], Failure);
            r.outcome.Incomplete? && r.read == n
  {
    var h, rx := Header(cipher, pos, p), Receiver(pos, Prefix);
    HeaderRoundTrip(cipher, pos, p, [], Failure);
    assert h + [] == h && h[..n] + h[n..] == h;
    if !Consume(cipher, rx, h[..n], Failure).outcome.Incomplete? {
      ConsumeStops(cipher, rx, h[..n], h[n..], Failure, Failure);
    }
    ConsumeResumes(cipher, rx, h[..n], [], Failure);
  }

  /** Reading on in a body after the first j bytes. */
  lemma ResumeInside(cipher: Cipher, rx: Receiver, body: bytes, j: nat, n: nat, end: End)
    requires j <= n <= |body| && Consume(cipher, rx, body[..j], Failure).outcome.Incomplete?
    ensures After(j, Consume(cipher, Consume(cipher, rx, body[..j], Failure).rx, body[j..n], end))
         == Consume(cipher, rx, body[..n], end)
  {
    assert body[..j] + body[j..n] == body[..n];
    ConsumeResumes(cipher, rx, body[..j], body[j..n], end);
  }

  /** Reading a body on from inside its header: more of the header leaves the receiver waiting where
      a single read would, and the rest of the header completes it. */
  lemma HeaderResumes(cipher: Cipher, pos: nat, p: Padding, payload: bytes, j: nat, n: nat, end: End)
    requires Involutive(cipher) && ValidPadding(p)
    requires j < |Header(cipher, pos, p)| && j <= n <= |Header(cipher, pos, p) + payload|
    requires end.Eof? ==> n == |Header(cipher, pos, p) + payload|
    ensures var h, rx := Header(cipher, pos, p), Receiver(pos, Prefix);
      var body := h + payload;
      var next := Consume(cipher, Consume(cipher, rx, body[..j], Failure).rx, body[j..n], end);
      if n < |h| then
        && Consume(cipher, rx, body[..n], Failure).outcome.Incomplete?
        && next == Consumed(n - j, Incomplete, Consume(cipher, rx, body[..n], Failure).rx)
      else next == Consumed(|h| - j, Done, Receiver(pos + PreambleSize(p), Prefix))
  {
    var h, rx := Header(cipher, pos, p), Receiver(pos, Prefix);
    var body := h + payload;
    assert body[..j] == h[..j];
    HeaderPrefix(cipher, pos, p, j);
    ResumeInside(cipher, rx, body, j, n, end);
    if n < |h| {
      assert body[..n] == h[..n];
      HeaderPrefix(cipher, pos, p, n);
    } else {
      assert body[..n] == h + payload[..n - |h|];
      HeaderRoundTrip(cipher, pos, p, payload[..n - |h|], end);
    }
  }

  const CONSUME_BUFFER_SIZE := 1024

  /** The receiver half of MeekPayloadPaddingState: cipher position and parse phase, updated in
      place by each read. */
  class PaddingReceiver {
    const cipher: Cipher
    var pos: nat
    var phase: Phase

    ghost function View(): Receiver
      reads this
    {
      Receiver(pos, phase)
    }

    constructor (cipher: Cipher)
      ensures this.cipher == cipher && View() == Receiver(0, Prefix)
    {
      this.cipher := cipher;
      pos, phase := 0, Prefix;
    }

    /** Skips padding in blocks, as far as there is input. */
    method SkipPadding(size: nat) returns (n: nat)
      requires phase.PaddingBytes?
      modifies this`phase
      ensures phase.PaddingBytes? && n <= size && phase.remaining + n == old(phase.remaining)
      ensures phase.remaining > 0 ==> n == size
    {
      n := 0;
      while phase.remaining > 0
        invariant phase.PaddingBytes? && n <= size && phase.remaining + n == old(phase.remaining)
        decreases phase.remaining
      {
        var m := if phase.remaining > CONSUME_BUFFER_SIZE then CONSUME_BUFFER_SIZE else phase.remaining;
        var read := if size - n < m then size - n else m;
        n := n + read;
        phase := PaddingBytes(phase.remaining - read);
        if read < m {
          return;
        }
      }
    }

    /** Reads header bytes one at a time, and padding in blocks, until the header is complete or
        the input is used up. resume tells the caller to call again with the rest of the body. */
    method ReceiverConsumePadding(input: bytes, end: End)
      returns (bytesRead: nat, resume: bool, outcome: Outcome)
      modifies this
      ensures Consumed(bytesRead, outcome, View()) == Consume(cipher, old(View()), input, end)
      ensures resume == outcome.Incomplete?
    {
      bytesRead := 0;
      while true
        invariant bytesRead <= |input|
        invariant bytesRead > 0 ==> !phase.Prefix?
        invariant Consume(cipher, old(View()), input, end)
               == After(bytesRead, Consume(cipher, View(), input[bytesRead..], end))
        decreases |input| - bytesRead
      {
        if phase.PaddingBytes? {
          var n := SkipPadding(|input| - bytesRead);
          bytesRead := bytesRead + n;
          if phase.remaining > 0 {
            return bytesRead, true, Incomplete;
          }
          phase := Prefix;
          return bytesRead, false, Done;
        }
        if bytesRead == |input| {
          if phase.Prefix? && end.Eof? {
            return 0, false, ImmediateEof;
          }
          return bytesRead, true, Incomplete;
        }
        var (next, done, known) := NextPhase(cipher, Receiver(pos, phase), input[bytesRead]);
        assert input[bytesRead..][1..] == input[bytesRead + 1..];
        pos, phase, bytesRead := pos + 1, next, bytesRead + 1;
        if !known {
          return bytesRead, false, UnknownPrefix;
        }
        if done {
          return bytesRead, false, Done;
        }
      }
    }
  }
}
