/** The Modbus exchanges against a device that reads the request frame by itself, byte by
    byte: what a write has written and what a read has read. */
module ModbusSlave {
  import opened Common
  import opened Crc16
  import opened Octets
  import opened ModbusRtu

  /** A slave with its two banks of registers. */
  datatype Device = Device(address: int, holding: map<int, int>, input: map<int, int>)

  ghost predicate GoodDevice(d: Device) {
    && IsSlave(d.address)
    && (forall a :: a in d.holding ==> 0 <= d.holding[a] < 0x10000)
    && (forall a :: a in d.input ==> 0 <= d.input[a] < 0x10000)
  }

  /** The bank that a read function addresses. */
  function Bank(d: Device, code: byte): map<int, int> {
    if code == 0x03 then d.holding else d.input
  }

  predicate HasAll(bank: map<int, int>, start: int, quantity: int) {
    forall a :: start <= a < start + quantity ==> a in bank
  }

  /** The registers of a range, high byte first. */
  function DataBytes(bank: map<int, int>, start: int, quantity: nat): (bytes: seq<byte>)
    requires HasAll(bank, start, quantity)
    requires forall a :: a in bank ==> 0 <= bank[a] < 0x10000
    ensures |bytes| == 2 * quantity
  {
    seq(2 * quantity, i requires 0 <= i < 2 * quantity =>
      if i % 2 == 0 then bank[start + i / 2] / 256 else bank[start + i / 2] % 256)
  }

  function HighLow(hi: int, lo: int): int {
    256 * hi + lo
  }

  function Exception(d: Device, code: byte, reason: byte): seq<byte>
    requires IsSlave(d.address) && code < 0x80
  {
    AppendCrc([d.address, 0x80 + code, reason])
  }

  /** The device takes the eight bytes of a request apart: address, function, a register
      and a word, both high byte first, and the checksum.  It answers a write with the same
      bytes, a read with the registers, and silence or an exception otherwise. */
  function Serve(d: Device, frame: seq<byte>): (Device, seq<byte>)
    requires GoodDevice(d)
  {
    if |frame| != 8 || !VerifyCrc(frame) || frame[0] != d.address then (d, [])
    else
      var code := frame[1];
      var register, word := HighLow(frame[2], frame[3]), HighLow(frame[4], frame[5]);
      if code == 0x06 then
        if register in d.holding then (d.(holding := d.holding[register := word]), frame)
        else (d, Exception(d, code, 2))
      else if code == 0x03 || code == 0x04 then
        if 1 <= word <= 125 && HasAll(Bank(d, code), register, word)
        then (d, AppendCrc([d.address, code, 2 * word] + DataBytes(Bank(d, code), register, word)))
        else (d, Exception(d, code, 2))
      else if code < 0x80 then (d, Exception(d, code, 1))
      else (d, [])
  }

  /** The bytes of a request. */
  lemma RequestBytes(slave: int, code: byte, register: int, word: int)
    requires IsSlave(slave) && IsWord(register) && IsWord(word)
    ensures var f := RequestFrame(slave, code, register, word);
            && |f| == 8 && VerifyCrc(f) && f[0] == slave && f[1] == code
            && HighLow(f[2], f[3]) == register && HighLow(f[4], f[5]) == word
  {
    hide AppendCrc, VerifyCrc;
    var body := [slave, code] + Word(register) + Word(word);
    AppendedCrcVerifies(body);
    var f := AppendCrc(body);
    assert forall i :: 0 <= i < 6 ==> f[i] == f[..6][i] == body[i];
  }

  /** A write that returns normally has written exactly this register of this slave; it
      returns normally if and only if the device has the register and its answer arrives
      before the two deadlines. */
  lemma WriteReachesRegister(d: Device, line: Line, slave: int, register: int, value: int, timeout: nat)
    requires GoodDevice(d) && IsSlave(slave) && IsWord(register) && IsWord(value)
    ensures var request := RequestFrame(slave, WRITE_SINGLE, register, value);
            var (after, answer) := Serve(d, request);
            var reached := WriteOutcome(Answered(line, answer), slave, request, timeout).1.Success?;
            && (reached <==> d.address == slave && register in d.holding && Prompt(line, 2, 6, timeout))
            && (reached ==> after == d.(holding := d.holding[register := value]))
            && (d.address != slave || register !in d.holding ==> after == d)
  {
    var request := RequestFrame(slave, WRITE_SINGLE, register, value);
    RequestBytes(slave, WRITE_SINGLE, register, value);
    ServeWrite(d, request);
    hide *;
    var answer := Serve(d, request).1;
    WriteNeedsExactEcho(Answered(line, answer), slave, register, value, timeout);
    ReceivedBytes(line, answer, 2, 6, timeout);
  }

  lemma ServeWrite(d: Device, frame: seq<byte>)
    requires GoodDevice(d) && |frame| == 8 && VerifyCrc(frame) && frame[1] == WRITE_SINGLE
    ensures var register, word := HighLow(frame[2], frame[3]), HighLow(frame[4], frame[5]);
            var (after, answer) := Serve(d, frame);
            if frame[0] == d.address && register in d.holding
            then after == d.(holding := d.holding[register := word]) && answer == frame
            else after == d && |answer| < 8
  {
    hide VerifyCrc, HighLow, AppendCrc;
  }

  lemma ReceivedBytes(line: Line, answer: seq<byte>, header: nat, tail: nat, timeout: nat)
    ensures var got := Received(Answered(line, answer), header, tail, timeout).1;
            && got <= answer
            && (|answer| == header + tail ==> (got == answer <==> Prompt(line, header, tail, timeout)))
  {
    var all := Answered(line, answer);
    var (after, got) := Received(all, header, tail, timeout);
    assert got + after.inbound == answer;
    if |answer| == header + tail {
      PromptIsReceived(all, header, tail, timeout);
      assert Prompt(all, header, tail, timeout) == Prompt(line, header, tail, timeout);
    }
  }

  /** The registers of a range as a list. */
  function Registers(bank: map<int, int>, start: int, quantity: nat): (regs: seq<int>)
    requires HasAll(bank, start, quantity)
    ensures |regs| == quantity && forall i :: 0 <= i < quantity ==> regs[i] == bank[start + i]
  {
    seq(quantity, i requires 0 <= i < quantity => bank[start + i])
  }

  lemma {:induction false} PackedAt(regs: seq<int>, i: nat)
    requires AreWords(regs) && i < |regs|
    ensures Pack(regs)[2 * i] == regs[i] / 256 && Pack(regs)[2 * i + 1] == regs[i] % 256
  {
    if i > 0 {
      PackedAt(regs[1..], i - 1);
      assert Pack(regs)[2..] == Pack(regs[1..]);
    }
  }

  lemma DataIsPacked(bank: map<int, int>, start: int, quantity: nat)
    requires HasAll(bank, start, quantity) && forall a :: a in bank ==> 0 <= bank[a] < 0x10000
    ensures AreWords(Registers(bank, start, quantity))
    ensures DataBytes(bank, start, quantity) == Pack(Registers(bank, start, quantity))
  {
    var regs := Registers(bank, start, quantity);
    var data := DataBytes(bank, start, quantity);
    assert AreWords(regs);
    forall i | 0 <= i < 2 * quantity ensures data[i] == Pack(regs)[i] {
      PackedAt(regs, i / 2);
    }
  }

  /** The reads that are sent: both read functions, to the 247 addresses of single slaves,
      for registers that all exist in the 16-bit address space and whose answer fits the 256
      bytes of a frame. */
  lemma AcceptedReads(code: byte, slave: int, start: int, quantity: int, timeout: nat)
    ensures ValidRead(code, slave, start, quantity, timeout) <==>
              && code in {3, 4} && slave > 0 && slave < 248 && timeout > 0
              && quantity > 0 && |[slave, code]| + 1 + 2 * quantity + 2 <= 256
              && forall a :: start <= a < start + quantity ==> IsWord(a)
  {
    if quantity > 0 && forall a :: start <= a < start + quantity ==> IsWord(a) {
      assert IsWord(start) && IsWord(start + quantity - 1);
    }
  }

  /** What the device makes of a read request. */
  lemma ServeRead(d: Device, frame: seq<byte>, quantity: nat)
    requires GoodDevice(d) && |frame| == 8 && VerifyCrc(frame) && frame[1] in {READ_HOLDING, READ_INPUT}
    requires HighLow(frame[4], frame[5]) == quantity && 1 <= quantity <= 125
    ensures var start := HighLow(frame[2], frame[3]);
            var bank := Bank(d, frame[1]);
            var (after, answer) := Serve(d, frame);
            && after == d
            && if frame[0] == d.address && HasAll(bank, start, quantity)
               then AreWords(Registers(bank, start, quantity)) &&
                    answer == ReadResponse(d.address, frame[1], Registers(bank, start, quantity))
               else |answer| <= 5
  {
    var start := HighLow(frame[2], frame[3]);
    var bank := Bank(d, frame[1]);
    if HasAll(bank, start, quantity) { DataIsPacked(bank, start, quantity); }
    hide VerifyCrc, HighLow, AppendCrc, HasAll, DataBytes, Registers, Pack;
  }

  /** A read that succeeds returns exactly the registers asked for, and succeeds if and only
      if the device has all of them and its answer arrives before the two deadlines. */
  lemma ReadReturnsRegisters(
    d: Device, line: Line, code: byte, slave: int, start: int, quantity: nat, timeout: nat)
    requires GoodDevice(d) && code in {READ_HOLDING, READ_INPUT}
    requires IsSlave(slave) && IsWord(start) && 1 <= quantity <= 125
    ensures var (after, answer) := Serve(d, RequestFrame(slave, code, start, quantity));
            var r := ReadOutcome(Answered(line, answer), code, slave, quantity, timeout).1;
            && after == d
            && (r.Success? <==> d.address == slave && HasAll(Bank(d, code), start, quantity) &&
                                Prompt(line, 3, 2 * quantity + 2, timeout))
            && (r.Success? ==>
                  && |r.value| == quantity && HasAll(Bank(d, code), start, quantity)
                  && forall i :: 0 <= i < quantity ==> r.value[i] == Bank(d, code)[start + i])
  {
    var request := RequestFrame(slave, code, start, quantity);
    RequestBytes(slave, code, start, quantity);
    ServeRead(d, request, quantity);
    hide Serve, RequestFrame, VerifyCrc, HighLow, ReadOutcome, ReadResponse, Prompt, HasAll, Bank, GoodDevice;
    var answer := Serve(d, request).1;
    var all := Answered(line, answer);
    PromptIgnoresInbound(line, answer, 3, 2 * quantity + 2, timeout);
    if d.address == slave && HasAll(Bank(d, code), start, quantity) {
      ReadIsExact(all, code, slave, Registers(Bank(d, code), start, quantity), timeout);
    } else {
      ReadIsSound(all, code, slave, quantity, timeout);
    }
  }

  lemma PromptIgnoresInbound(line: Line, answer: seq<byte>, header: nat, tail: nat, timeout: nat)
    ensures Prompt(Answered(line, answer), header, tail, timeout) == Prompt(line, header, tail, timeout)
  {
  }

  /** A register that the device does not have is reported with its exception code. */
  lemma MissingRegisterIsReported(d: Device, line: Line, register: int, value: int, timeout: nat)
    requires GoodDevice(d) && IsWord(register) && IsWord(value) && register !in d.holding
    requires Prompt(line, 2, 3, timeout)
    ensures var request := RequestFrame(d.address, WRITE_SINGLE, register, value);
            WriteOutcome(Answered(line, Serve(d, request).1), d.address, request, timeout).1 ==
            Failure(ExceptionResponse(2))
  {
    var request := RequestFrame(d.address, WRITE_SINGLE, register, value);
    RequestBytes(d.address, WRITE_SINGLE, register, value);
    var answer := Exception(d, WRITE_SINGLE, 2);
    assert Serve(d, request).1 == answer by { hide VerifyCrc, AppendCrc; }
    ExceptionBytes(d, WRITE_SINGLE, 2);
    hide Serve, RequestFrame, VerifyCrc, AppendCrc, Exception, Prompt, Received, HighLow;
    ReceivedBytes(line, answer, 2, 3, timeout);
    ExceptionDecides(Answered(line, answer), d.address, request, answer, timeout);
  }

  lemma ExceptionBytes(d: Device, code: byte, reason: byte)
    requires GoodDevice(d) && code < 0x80
    ensures var f := Exception(d, code, reason);
            |f| == 5 && f[0] == d.address && f[1] == 0x80 + code && f[2] == reason && VerifyCrc(f)
  {
    hide AppendCrc, VerifyCrc;
    var body := [d.address, 0x80 + code, reason];
    AppendedCrcVerifies(body);
    var f := AppendCrc(body);
    assert forall i :: 0 <= i < 3 ==> f[i] == f[..3][i] == body[i];
  }

  lemma ExceptionDecides(line: Line, slave: int, request: seq<byte>, answer: seq<byte>, timeout: nat)
    requires IsSlave(slave) && |answer| == 5 && VerifyCrc(answer)
    requires answer[0] == slave && answer[1] == 0x86 && Received(line, 2, 3, timeout).1 == answer
    ensures WriteOutcome(line, slave, request, timeout).1 == Failure(ExceptionResponse(answer[2]))
  {
    hide VerifyCrc, Collect;
    var (mid, header) := Collect(line, 2, line.now + timeout);
    var (end, tail) := Collect(mid, 3, mid.now + timeout);
    assert |header| == 2 && |tail| == 3;
    assert header[0] == (header + tail)[0] && header[1] == (header + tail)[1];
  }
}
