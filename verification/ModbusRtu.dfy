/** Modbus RTU exchanges of src/ventilation_core/infrastructure/modbus_rtu.py:
    reading registers (FC03, FC04) and writing one register (FC06), following
    sections 6.3, 6.4 and 6.6 of the MODBUS Application Protocol Specification
    V1.1b3.

    The serial line is a script: the bytes still to come, and for every read how
    many bytes it may return and how long it takes.  All results hold for every
    script, so they do not depend on how the bytes are split into chunks.
 */
module ModbusRtu {
  import opened Common
  import opened Crc16
  import opened Octets

  // ----- the line

  datatype Grant = Grant(count: nat, elapsed: nat)

  datatype Line = Line(inbound: seq<byte>, grants: seq<Grant>, now: nat)

  function Min(a: nat, b: nat): nat {
    if a <= b then a else b
  }

  /** One read call.  A read that returns nothing has waited for at least one tick. */
  function Grab(line: Line, size: nat): (r: (Line, seq<byte>))
    ensures |r.1| <= size && r.1 + r.0.inbound == line.inbound
    ensures r.0.now >= line.now && (r.1 == [] ==> r.0.now > line.now)
  {
    var g := if line.grants == [] then Grant(0, 1) else line.grants[0];
    var n := Min(size, Min(g.count, |line.inbound|));
    var elapsed := if n == 0 then Max(g.elapsed, 1) else g.elapsed;
    (Line(line.inbound[n..], if line.grants == [] then [] else line.grants[1..], line.now + elapsed),
     line.inbound[..n])
  }

  function TimeLeft(now: nat, deadline: nat): nat {
    if now < deadline then deadline - now else 0
  }

  /** Reads until size bytes have come or the deadline has passed. */
  function Collect(line: Line, size: nat, deadline: nat): (r: (Line, seq<byte>))
    ensures |r.1| <= size && r.1 + r.0.inbound == line.inbound
    ensures r.0.now >= line.now
    ensures |r.1| < size ==> r.0.now >= deadline
    decreases TimeLeft(line.now, deadline) + size
  {
    if size == 0 || line.now >= deadline then (line, [])
    else
      var (after, chunk) := Grab(line, size);
      var (end, rest) := Collect(after, size - |chunk|, deadline);
      assert chunk + (rest + end.inbound) == (chunk + rest) + end.inbound;
      (end, chunk + rest)
  }

  /** How many bytes the reads that begin before the deadline may return. */
  function Offered(grants: seq<Grant>, now: nat, deadline: nat): nat {
    if grants == [] || now >= deadline then 0
    else
      var g := grants[0];
      g.count + Offered(grants[1..], now + if g.count == 0 then Max(g.elapsed, 1) else g.elapsed, deadline)
  }

  /** However the bytes are split, all of them are collected exactly when the reads
      that begin before the deadline have room for them. */
  lemma {:induction false} CollectsWhatIsOffered(line: Line, size: nat, deadline: nat)
    requires |line.inbound| >= size
    ensures |Collect(line, size, deadline).1| == size <==> Offered(line.grants, line.now, deadline) >= size
    decreases TimeLeft(line.now, deadline) + size
  {
    if size > 0 && line.now < deadline {
      var (after, chunk) := Grab(line, size);
      CollectsWhatIsOffered(after, size - |chunk|, deadline);
      var (end, rest) := Collect(after, size - |chunk|, deadline);
      assert Collect(line, size, deadline) == (end, chunk + rest);
      if line.grants != [] && line.grants[0].count >= size {
        assert |chunk| == size;
        assert |chunk + rest| == size;
      }
    }
  }

  /** The offers that are left, and the time, once size bytes have been taken. */
  function Spent(grants: seq<Grant>, now: nat, size: nat): (seq<Grant>, nat)
    decreases grants
  {
    if size == 0 || grants == [] then (grants, now)
    else
      var g := grants[0];
      var n := Min(size, g.count);
      Spent(grants[1..], now + if n == 0 then Max(g.elapsed, 1) else g.elapsed, size - n)
  }

  /** Collecting all of size bytes uses exactly the offers for them. */
  lemma {:induction false} CollectSpends(line: Line, size: nat, deadline: nat)
    requires |line.inbound| >= size && Offered(line.grants, line.now, deadline) >= size
    ensures var (left, later) := Spent(line.grants, line.now, size);
            Collect(line, size, deadline).0 == Line(line.inbound[size..], left, later)
    decreases size, |line.grants|
  {
    if size > 0 {
      OfferUnfolds(line, size, deadline);
      var (after, chunk) := Grab(line, size);
      CollectUnfolds(line, size, deadline);
      hide *;
      CollectSpends(after, size - |chunk|, deadline);
      assert line.inbound[|chunk|..][size - |chunk|..] == line.inbound[size..];
    } else {
      assert line.inbound[size..] == line.inbound;
    }
  }

  lemma OfferUnfolds(line: Line, size: nat, deadline: nat)
    requires |line.inbound| >= size > 0 && Offered(line.grants, line.now, deadline) >= size
    ensures line.now < deadline && line.grants != []
    ensures var (after, chunk) := Grab(line, size);
            && |chunk| <= size && after.inbound == line.inbound[|chunk|..] && |after.grants| < |line.grants|
            && Offered(after.grants, after.now, deadline) >= size - |chunk|
            && Spent(line.grants, line.now, size) == Spent(after.grants, after.now, size - |chunk|)
  {
    GrabTakesOffer(line, size);
    hide Grab;
  }

  lemma CollectUnfolds(line: Line, size: nat, deadline: nat)
    requires size > 0 && line.now < deadline
    ensures var (after, chunk) := Grab(line, size);
            Collect(line, size, deadline).0 == Collect(after, size - |chunk|, deadline).0
  {
    hide Grab;
  }

  lemma GrabTakesOffer(line: Line, size: nat)
    requires |line.inbound| >= size > 0 && line.grants != []
    ensures var g := line.grants[0];
            var n := Min(size, g.count);
            var (after, chunk) := Grab(line, size);
            && |chunk| == n
            && after == Line(line.inbound[n..], line.grants[1..],
                             line.now + if n == 0 then Max(g.elapsed, 1) else g.elapsed)
  {
  }

  class SerialPort {
    var line: Line
    var sent: seq<byte>
    /** What the slave answers to the bytes written to it. */
    const slave: seq<byte> -> seq<byte>
    /** How many bytes one write call takes. */
    const room: nat

    constructor (line: Line, slave: seq<byte> -> seq<byte>, room: nat)
      ensures this.line == line && this.slave == slave && this.room == room && sent == []
    {
      this.line, this.slave, this.room, sent := line, slave, room, [];
    }

    method ResetInputBuffer()
      modifies this
      ensures line == old(line).(inbound := []) && sent == old(sent)
    {
      line := line.(inbound := []);
    }

    method Write(data: seq<byte>) returns (written: nat)
      modifies this
      ensures written == Min(room, |data|)
      ensures sent == old(sent) + data[..written]
      ensures line == old(line).(inbound := old(line.inbound) + slave(data[..written]))
    {
      written := Min(room, |data|);
      sent := sent + data[..written];
      line := line.(inbound := line.inbound + slave(data[..written]));
    }

    method Read(size: nat) returns (chunk: seq<byte>)
      modifies this
      ensures (line, chunk) == Grab(old(line), size)
      ensures sent == old(sent)
    {
      var (after, taken) := Grab(line, size);
      line, chunk := after, taken;
    }
  }

  /** What is already read plus what the rest of the loop will read. */
  function Resume(line: Line, bytes: seq<byte>, size: nat, deadline: nat): (Line, seq<byte>)
    requires |bytes| <= size
  {
    var (end, rest) := Collect(line, size - |bytes|, deadline);
    (end, bytes + rest)
  }

  lemma ResumeStep(line: Line, bytes: seq<byte>, size: nat, deadline: nat)
    requires |bytes| < size && line.now < deadline
    ensures var (after, chunk) := Grab(line, size - |bytes|);
            Resume(line, bytes, size, deadline) == Resume(after, bytes + chunk, size, deadline)
  {
    var (after, chunk) := Grab(line, size - |bytes|);
    var (end, rest) := Collect(after, size - |bytes| - |chunk|, deadline);
    assert bytes + (chunk + rest) == (bytes + chunk) + rest;
  }

  method ReadExact(port: SerialPort, size: nat, timeout: nat) returns (bytes: seq<byte>)
    modifies port
    ensures (port.line, bytes) == Collect(old(port.line), size, old(port.line.now) + timeout)
    ensures port.sent == old(port.sent)
  {
    hide Grab;
    var deadline := port.line.now + timeout;
    bytes := [];
    assert bytes + Collect(port.line, size, deadline).1 == Collect(port.line, size, deadline).1;
    while |bytes| < size && port.line.now < deadline
      invariant |bytes| <= size && port.sent == old(port.sent)
      invariant Collect(old(port.line), size, deadline) == Resume(port.line, bytes, size, deadline)
      decreases TimeLeft(port.line.now, deadline) + size - |bytes|
    {
      ResumeStep(port.line, bytes, size, deadline);
      ghost var before := bytes;
      var chunk := port.Read(size - |bytes|);
      if |chunk| > 0 {
        bytes := bytes + chunk;
      }
      assert bytes == before + chunk;
    }
    assert bytes + [] == bytes;
  }

  // ----- big-endian words

  predicate IsWord(n: int) {
    0 <= n < 0x10000
  }

  function Word(n: int): (w: seq<byte>)
    requires IsWord(n)
    ensures |w| == 2
  {
    [n / 256, n % 256]
  }

  function Value(hi: byte, lo: byte): (n: int)
    ensures IsWord(n)
  {
    hi * 256 + lo
  }

  lemma WordThenValue(n: int)
    requires IsWord(n)
    ensures Value(Word(n)[0], Word(n)[1]) == n
  {
  }

  lemma ValueThenWord(hi: byte, lo: byte)
    ensures Word(Value(hi, lo)) == [hi, lo]
  {
    var n := Value(hi, lo);
    assert n / 256 == hi && n % 256 == lo;
  }

  ghost predicate AreWords(regs: seq<int>) {
    forall i :: 0 <= i < |regs| ==> IsWord(regs[i])
  }

  function Pack(regs: seq<int>): (bytes: seq<byte>)
    requires AreWords(regs)
    ensures |bytes| == 2 * |regs|
  {
    if regs == [] then [] else Word(regs[0]) + Pack(regs[1..])
  }

  function Unpack(bytes: seq<byte>): (regs: seq<int>)
    requires |bytes| % 2 == 0
    ensures |regs| == |bytes| / 2 && AreWords(regs)
  {
    if bytes == [] then [] else [Value(bytes[0], bytes[1])] + Unpack(bytes[2..])
  }

  lemma {:induction false} UnpackThenPack(bytes: seq<byte>)
    requires |bytes| % 2 == 0
    ensures Pack(Unpack(bytes)) == bytes
  {
    if bytes != [] {
      ValueThenWord(bytes[0], bytes[1]);
      UnpackThenPack(bytes[2..]);
      assert Unpack(bytes)[1..] == Unpack(bytes[2..]);
      assert bytes == [bytes[0], bytes[1]] + bytes[2..];
    }
  }

  lemma {:induction false} PackThenUnpack(regs: seq<int>)
    requires AreWords(regs)
    ensures Unpack(Pack(regs)) == regs
  {
    if regs != [] {
      WordThenValue(regs[0]);
      PackThenUnpack(regs[1..]);
      assert Pack(regs)[2..] == Pack(regs[1..]);
    }
  }

  // ----- frames

  predicate IsSlave(address: int) {
    1 <= address <= 247
  }

  function RequestFrame(slave: int, function_: byte, register: int, word: int): (f: seq<byte>)
    requires IsSlave(slave) && IsWord(register) && IsWord(word)
    ensures |f| == 8
  {
    AppendCrc([slave, function_] + Word(register) + Word(word))
  }

  /** The answer an honest slave gives to a read request. */
  function ReadResponse(slave: int, function_: byte, regs: seq<int>): (f: seq<byte>)
    requires IsSlave(slave) && 1 <= |regs| <= 125 && AreWords(regs)
    ensures |f| == 5 + 2 * |regs|
  {
    AppendCrc([slave, function_, 2 * |regs|] + Pack(regs))
  }

  /** The function code of an exception response: bit 7 set, for codes below 0x80. */
  function ExceptionCode(f: int): int {
    f + 0x80
  }

  datatype ModbusError =
    | BadArgument
    | ShortWrite
    | ShortHeader
    | WrongSlave
    | ExceptionResponse(code: byte)
    | WrongFunction
    | WrongLength
    | ShortFrame
    | BadCrc
    | EchoMismatch

  const READ_HOLDING: byte := 0x03
  const READ_INPUT: byte := 0x04
  const WRITE_SINGLE: byte := 0x06

  predicate ValidRead(function_: byte, slave: int, start: int, quantity: int, timeout: nat) {
    && (function_ == READ_HOLDING || function_ == READ_INPUT)
    && IsSlave(slave) && IsWord(start) && timeout > 0
    && 1 <= quantity <= 125
    && start + quantity <= 0x10000
  }

  /** The line once the request has been written and the slave has answered. */
  function Answered(line: Line, answer: seq<byte>): Line {
    line.(inbound := answer)
  }

  /** The two reads of an exchange: a header, then a tail with a deadline of its own. */
  function Received(line: Line, header: nat, tail: nat, timeout: nat): (r: (Line, seq<byte>))
    ensures |r.1| <= header + tail && r.1 + r.0.inbound == line.inbound
    ensures |r.1| < header + tail && header > 0 && tail > 0 ==> r.0.now >= line.now + timeout
  {
    var (mid, h) := Collect(line, header, line.now + timeout);
    var (end, t) := Collect(mid, tail, mid.now + timeout);
    assert h + (t + end.inbound) == h + t + end.inbound;
    (end, h + t)
  }

  /** The port offers room for the header before its deadline, and after it room for the
      tail before a deadline of its own. */
  predicate Prompt(line: Line, header: nat, tail: nat, timeout: nat) {
    Offered(line.grants, line.now, line.now + timeout) >= header &&
    var (left, later) := Spent(line.grants, line.now, header);
    Offered(left, later, later + timeout) >= tail
  }

  /** When the bytes are on the line, that is when all of them are received. */
  lemma PromptIsReceived(line: Line, header: nat, tail: nat, timeout: nat)
    requires |line.inbound| >= header + tail
    ensures Prompt(line, header, tail, timeout) <==> |Received(line, header, tail, timeout).1| == header + tail
  {
    hide Collect, Offered, Spent;
    var (mid, h) := Collect(line, header, line.now + timeout);
    CollectsWhatIsOffered(line, header, line.now + timeout);
    if |h| == header {
      CollectSpends(line, header, line.now + timeout);
      CollectsWhatIsOffered(mid, tail, mid.now + timeout);
    }
  }

  /** A complete frame starts with three bytes, then its payload and two CRC bytes. */
  function DecodeRead(frame: seq<byte>): (regs: seq<int>)
    requires |frame| >= 5 && |frame| % 2 == 1
    ensures |regs| == (|frame| - 5) / 2 && AreWords(regs)
  {
    Unpack(frame[3..|frame| - 2])
  }

  /** An accepted read response is the honest response for the registers decoded from it. */
  lemma AcceptedFrameIsResponse(frame: seq<byte>, slave: int, function_: byte, quantity: int)
    requires IsSlave(slave) && 1 <= quantity <= 125 && |frame| == 5 + 2 * quantity
    requires frame[0] == slave && frame[1] == function_ && frame[2] == 2 * quantity
    requires VerifyCrc(frame)
    ensures frame == ReadResponse(slave, function_, DecodeRead(frame))
  {
    hide AppendCrc, VerifyCrc, Pack, Unpack;
    var body := frame[..|frame| - 2];
    VerifiedIsAppended(frame);
    UnpackThenPack(frame[3..|frame| - 2]);
    assert body == [frame[0], frame[1], frame[2]] + frame[3..|frame| - 2];
  }

  /** An honest response passes every check and decodes to its registers. */
  lemma ResponseIsAccepted(slave: int, function_: byte, regs: seq<int>)
    requires IsSlave(slave) && 1 <= |regs| <= 125 && AreWords(regs)
    ensures var f := ReadResponse(slave, function_, regs);
            && f[0] == slave && f[1] == function_ && f[2] == 2 * |regs|
            && VerifyCrc(f) && DecodeRead(f) == regs
  {
    hide AppendCrc, VerifyCrc, Pack, Unpack;
    var body := [slave, function_, 2 * |regs|] + Pack(regs);
    var f := AppendCrc(body);
    AppendedCrcVerifies(body);
    PackThenUnpack(regs);
    assert f[..|body|] == body;
    assert f[3..|f| - 2] == f[..|body|][3..] == Pack(regs);
    assert f[0] == f[..|body|][0] && f[1] == f[..|body|][1] && f[2] == f[..|body|][2];
  }

  /** The registers of a complete frame, once its checksum has been verified. */
  function Checked(frame: seq<byte>, quantity: nat): Result<seq<int>, ModbusError> {
    if |frame| != 5 + 2 * quantity then Failure(ShortFrame)
    else if !VerifyCrc(frame) then Failure(BadCrc)
    else Success(DecodeRead(frame))
  }

  /** The error reported for a frame that carries an exception response. */
  function Refused(frame: seq<byte>): ModbusError {
    if |frame| != 5 then ShortFrame
    else if !VerifyCrc(frame) then BadCrc
    else ExceptionResponse(frame[2])
  }

  /** What a read exchange makes of the bytes on the line. */
  function ReadOutcome(line: Line, function_: byte, slave: int, quantity: int, timeout: nat)
    : (r: (Line, Result<seq<int>, ModbusError>))
    requires IsSlave(slave) && 1 <= quantity <= 125
  {
    var (mid, header) := Collect(line, 3, line.now + timeout);
    if |header| != 3 then (mid, Failure(ShortHeader))
    else if header[0] != slave then (mid, Failure(WrongSlave))
    else if header[1] == ExceptionCode(function_) then
      var (end, tail) := Collect(mid, 2, mid.now + timeout);
      (end, Failure(Refused(header + tail)))
    else if header[1] != function_ then (mid, Failure(WrongFunction))
    else if header[2] != 2 * quantity then (mid, Failure(WrongLength))
    else
      var (end, tail) := Collect(mid, 2 * quantity + 2, mid.now + timeout);
      (end, Checked(header + tail, quantity))
  }

  /** Registers are returned only for a well-formed response that was really received. */
  lemma ReadIsSound(line: Line, function_: byte, slave: int, quantity: int, timeout: nat)
    requires IsSlave(slave) && 1 <= quantity <= 125
    ensures var (after, r) := ReadOutcome(line, function_, slave, quantity, timeout);
            r.Success? ==>
              && |r.value| == quantity && AreWords(r.value)
              && line.inbound == ReadResponse(slave, function_, r.value) + after.inbound
  {
    hide Crc, Pair, Word, VerifyCrc, Collect, ReadResponse, DecodeRead;
    var (after, r) := ReadOutcome(line, function_, slave, quantity, timeout);
    if r.Success? {
      var frame := Received(line, 3, 2 * quantity + 2, timeout).1;
      AcceptedFrameIsResponse(frame, slave, function_, quantity);
    }
  }

  /** The registers an honest slave sends are returned if and only if the port offers room
      for the bytes before the two deadlines, however it splits them. */
  lemma ReadIsExact(line: Line, function_: byte, slave: int, regs: seq<int>, timeout: nat)
    requires function_ == READ_HOLDING || function_ == READ_INPUT
    requires IsSlave(slave) && 1 <= |regs| <= 125 && AreWords(regs)
    requires ReadResponse(slave, function_, regs) <= line.inbound
    ensures var (after, r) := ReadOutcome(line, function_, slave, |regs|, timeout);
            if Prompt(line, 3, 2 * |regs| + 2, timeout) then r == Success(regs)
            else r.Failure? && after.now >= line.now + timeout
  {
    hide Crc, Pair, Word, VerifyCrc, Collect, ReadResponse, DecodeRead, Prompt;
    var f := ReadResponse(slave, function_, regs);
    PromptIsReceived(line, 3, 2 * |regs| + 2, timeout);
    ResponseIsAccepted(slave, function_, regs);
    var (mid, header) := Collect(line, 3, line.now + timeout);
    assert header == line.inbound[..|header|] == f[..|header|];
    var received := Received(line, 3, 2 * |regs| + 2, timeout).1;
    assert received == line.inbound[..|received|] == f[..|received|];
    assert f[..|f|] == f;
  }

  lemma SamePrefix<T>(a: seq<T>, b: seq<T>, s: seq<T>)
    requires |a| == |b| && a <= s && b <= s
    ensures a == b
  {
    assert a == s[..|a|];
  }

  /** A response damaged in any sixteen consecutive bits never yields registers. */
  lemma DamagedReadFails(line: Line, function_: byte, slave: int, regs: seq<int>, timeout: nat,
                         damaged: seq<byte>, p: nat)
    requires IsSlave(slave) && 1 <= |regs| <= 125 && AreWords(regs)
    requires damaged <= line.inbound && damaged != ReadResponse(slave, function_, regs)
    requires DifferInBurst(ReadResponse(slave, function_, regs), damaged, p)
    ensures ReadOutcome(line, function_, slave, |regs|, timeout).1.Failure?
  {
    hide Word, VerifyCrc, ReadOutcome, AppendCrc, DecodeRead;
    var (after, r) := ReadOutcome(line, function_, slave, |regs|, timeout);
    ReadIsSound(line, function_, slave, |regs|, timeout);
    ResponseIsAccepted(slave, function_, regs);
    BurstDetected(ReadResponse(slave, function_, regs), damaged, p);
    if r.Success? {
      var other := ReadResponse(slave, function_, r.value);
      ResponseIsAccepted(slave, function_, r.value);
      SamePrefix(damaged, other, line.inbound);
    }
  }

  method ReadRegisters(port: SerialPort, function_: byte, slave: int, start: int, quantity: int, timeout: nat)
    returns (r: Result<seq<int>, ModbusError>)
    modifies port
    ensures r == Failure(BadArgument) <==> !ValidRead(function_, slave, start, quantity, timeout)
    ensures r == Failure(BadArgument) ==> port.line == old(port.line) && port.sent == old(port.sent)
    ensures r != Failure(BadArgument) ==>
      var request := RequestFrame(slave, function_, start, quantity);
      && port.sent == old(port.sent) + request[..Min(port.room, 8)]
      && if port.room < 8 then r == Failure(ShortWrite)
         else (port.line, r) ==
              ReadOutcome(Answered(old(port.line), port.slave(request)), function_, slave, quantity, timeout)
  {
    hide Crc, Pair, Word, VerifyCrc, Collect, DecodeRead, AppendCrc;
    if !ValidRead(function_, slave, start, quantity, timeout) {
      return Failure(BadArgument);
    }
    var request := RequestFrame(slave, function_, start, quantity);
    port.ResetInputBuffer();
    var written := port.Write(request);
    if written != |request| {
      return Failure(ShortWrite);
    }
    assert request[..8] == request;
    assert port.line == Answered(old(port.line), port.slave(request));

    var header := ReadExact(port, 3, timeout);
    if |header| != 3 {
      return Failure(ShortHeader);
    }
    if header[0] != slave {
      return Failure(WrongSlave);
    }
    if header[1] == ExceptionCode(function_) {
      var tail := ReadExact(port, 2, timeout);
      var frame := header + tail;
      if |frame| != 5 {
        return Failure(ShortFrame);
      }
      if !VerifyCrc(frame) {
        return Failure(BadCrc);
      }
      return Failure(ExceptionResponse(header[2]));
    }
    if header[1] != function_ {
      return Failure(WrongFunction);
    }
    if header[2] != 2 * quantity {
      return Failure(WrongLength);
    }
    var tail := ReadExact(port, 2 * quantity + 2, timeout);
    var frame := header + tail;
    if |frame| != 5 + 2 * quantity {
      return Failure(ShortFrame);
    }
    if !VerifyCrc(frame) {
      return Failure(BadCrc);
    }
    r := Success(DecodeRead(frame));
  }

  // ----- writing one register

  /** What a write exchange makes of the bytes on the line. */
  function WriteOutcome(line: Line, slave: int, request: seq<byte>, timeout: nat)
    : (r: (Line, Result<(), ModbusError>))
    requires IsSlave(slave)
  {
    var (mid, header) := Collect(line, 2, line.now + timeout);
    if |header| != 2 then (mid, Failure(ShortHeader))
    else if header[0] != slave then (mid, Failure(WrongSlave))
    else if header[1] == ExceptionCode(WRITE_SINGLE) then
      var (end, tail) := Collect(mid, 3, mid.now + timeout);
      (end, Failure(Refused(header + tail)))
    else if header[1] != WRITE_SINGLE then (mid, Failure(WrongFunction))
    else
      var (end, tail) := Collect(mid, 6, mid.now + timeout);
      (end, if |header + tail| != 8 then Failure(ShortFrame)
            else if !VerifyCrc(header + tail) then Failure(BadCrc)
            else if header + tail != request then Failure(EchoMismatch)
            else Success(()))
  }

  /** A write returns normally exactly when the eight bytes received are the request. */
  lemma WriteNeedsExactEcho(line: Line, slave: int, register: int, value: int, timeout: nat)
    requires IsSlave(slave) && IsWord(register) && IsWord(value)
    ensures var request := RequestFrame(slave, WRITE_SINGLE, register, value);
            WriteOutcome(line, slave, request, timeout).1.Success? <==>
            Received(line, 2, 6, timeout).1 == request
  {
    RequestHead(slave, register, value);
    hide *;
    EchoDecides(line, slave, RequestFrame(slave, WRITE_SINGLE, register, value), timeout);
  }

  lemma RequestHead(slave: int, register: int, value: int)
    requires IsSlave(slave) && IsWord(register) && IsWord(value)
    ensures var request := RequestFrame(slave, WRITE_SINGLE, register, value);
            |request| == 8 && request[0] == slave && request[1] == WRITE_SINGLE && VerifyCrc(request)
  {
    hide AppendCrc, Word, VerifyCrc;
    var body := [slave, WRITE_SINGLE] + Word(register) + Word(value);
    AppendedCrcVerifies(body);
    var request := AppendCrc(body);
    assert request[0] == request[..|body|][0] && request[1] == request[..|body|][1];
  }

  lemma EchoDecides(line: Line, slave: int, request: seq<byte>, timeout: nat)
    requires IsSlave(slave) && |request| == 8
    requires request[0] == slave && request[1] == WRITE_SINGLE && VerifyCrc(request)
    ensures WriteOutcome(line, slave, request, timeout).1.Success? <==> Received(line, 2, 6, timeout).1 == request
  {
    hide VerifyCrc, Collect, Refused;
    var (mid, header) := Collect(line, 2, line.now + timeout);
    var (end, tail) := Collect(mid, 6, mid.now + timeout);
    if header + tail == request {
      assert |header| == 2 && |tail| == 6;
      assert header[0] == (header + tail)[0] && header[1] == (header + tail)[1];
    }
  }

  method WriteSingleRegister(port: SerialPort, slave: int, register: int, value: int, timeout: nat)
    returns (r: Result<(), ModbusError>)
    modifies port
    ensures r == Failure(BadArgument) <==> !(IsSlave(slave) && IsWord(register) && IsWord(value) && timeout > 0)
    ensures r == Failure(BadArgument) ==> port.line == old(port.line) && port.sent == old(port.sent)
    ensures r != Failure(BadArgument) ==>
      var request := RequestFrame(slave, WRITE_SINGLE, register, value);
      && port.sent == old(port.sent) + request[..Min(port.room, 8)]
      && if port.room < 8 then r == Failure(ShortWrite)
         else (port.line, r) ==
              WriteOutcome(Answered(old(port.line), port.slave(request)), slave, request, timeout)
  {
    hide Crc, Pair, Word, VerifyCrc, Collect, AppendCrc;
    if !(IsSlave(slave) && IsWord(register) && timeout > 0) {
      return Failure(BadArgument);
    }
    if !IsWord(value) {
      return Failure(BadArgument);
    }
    var request := RequestFrame(slave, WRITE_SINGLE, register, value);
    port.ResetInputBuffer();
    var written := port.Write(request);
    if written != |request| {
      return Failure(ShortWrite);
    }
    assert request[..8] == request;
    assert port.line == Answered(old(port.line), port.slave(request));

    var header := ReadExact(port, 2, timeout);
    if |header| != 2 {
      return Failure(ShortHeader);
    }
    if header[0] != slave {
      return Failure(WrongSlave);
    }
    if header[1] == ExceptionCode(WRITE_SINGLE) {
      var tail := ReadExact(port, 3, timeout);
      var frame := header + tail;
      if |frame| != 5 {
        return Failure(ShortFrame);
      }
      if !VerifyCrc(frame) {
        return Failure(BadCrc);
      }
      return Failure(ExceptionResponse(frame[2]));
    }
    if header[1] != WRITE_SINGLE {
      return Failure(WrongFunction);
    }
    var tail := ReadExact(port, 6, timeout);
    var frame := header + tail;
    if |frame| != 8 {
      return Failure(ShortFrame);
    }
    if !VerifyCrc(frame) {
      return Failure(BadCrc);
    }
    if frame != request {
      return Failure(EchoMismatch);
    }
    r := Success(());
  }
}
