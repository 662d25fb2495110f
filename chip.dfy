/** `GpioChip`: an open gpiochip device, its identification, per-line
    information, and the three requests that mint line, array and event
    handles.

    Each request fills a zeroed kernel record in place, hands it to the
    kernel and wraps the descriptor the kernel returns. The kernel's answer
    is an argument; the record handed to it is returned as `sent`. */
module Chip {

  import opened Types
  import opened Abi
  import opened Handles

  /** `LineInfo`: what `info` reports about one line. */
  datatype LineInfo = LineInfo(gpio: u32, name: seq<u8>, consumer: seq<u8>, flags: bv32)

  /** `chipinfo`: decode the name and label the kernel filled in, and pass
      the line count through. */
  function ChipInfo(reply: Sys<ChipInfoRecord>): (r: Result<(seq<u8>, seq<u8>, u32)>)
    ensures r.Ok? <==> reply.Done?
    ensures reply.Failed? ==> r == Err(Os(reply.errno))
    ensures r.Ok? ==> IsCString(r.value.0, reply.value.name)
    ensures r.Ok? ==> IsCString(r.value.1, reply.value.chipLabel)
    ensures r.Ok? ==> r.value.2 == reply.value.lines
  {
    match reply
    case Failed(e) => Err(Os(e))
    case Done(info) => Ok((DecodeField(info.name), DecodeField(info.chipLabel), info.lines))
  }

  /** What `info` reports: the line index is the argument, not what the
      kernel wrote back; the flag bits are copied verbatim; name and consumer
      are the text before the first NUL of their fields. */
  function DecodeLineInfo(gpio: u32, reply: Sys<LineInfoRecord>): (r: Result<LineInfo>)
    ensures r.Ok? <==> reply.Done?
    ensures reply.Failed? ==> r == Err(Os(reply.errno))
    ensures r.Ok? ==> r.value.gpio == gpio && r.value.flags == reply.value.flags
    ensures r.Ok? ==> IsCString(r.value.name, reply.value.name)
    ensures r.Ok? ==> IsCString(r.value.consumer, reply.value.consumer)
  {
    match reply
    case Failed(e) => Err(Os(e))
    case Done(info) => Ok(LineInfo(gpio, DecodeField(info.name), DecodeField(info.consumer), info.flags))
  }

  datatype GpioChip = GpioChip(fd: Fd, name: seq<u8>, chipLabel: seq<u8>, lines: u32) {

    /** `new`: open the device, then query its chip info. A failed open
        issues no ioctl; a failed query is an error; otherwise the chip
        keeps the opened descriptor and the decoded identification. */
    static function New(device: Sys<Fd>, info: Sys<ChipInfoRecord>): (r: Result<GpioChip>)
      ensures device.Failed? ==> r == Err(Os(device.errno))
      ensures device.Done? ==> (r.Ok? <==> info.Done?)
      ensures device.Done? && info.Failed? ==> r == Err(Os(info.errno))
      ensures r.Ok? ==> r.value.fd == device.value && r.value.lines == info.value.lines
      ensures r.Ok? ==> IsCString(r.value.name, info.value.name)
      ensures r.Ok? ==> IsCString(r.value.chipLabel, info.value.chipLabel)
    {
      match device
      case Failed(e) => Err(Os(e))
      case Done(fd) =>
        match ChipInfo(info)
        case Err(e) => Err(e)
        case Ok(id) => Ok(GpioChip(fd, id.0, id.1, id.2))
    }

    /** `info`: the query record sent asks about line `gpio` and is zero in
        every other field; the answer is decoded by `DecodeLineInfo`. */
    method Info(gpio: u32, reply: Sys<LineInfoRecord>) returns (res: Result<LineInfo>, sent: LineInfoRecord)
      ensures sent.lineOffset == gpio && sent.flags == 0
      ensures |sent.name| == LABEL_LEN && |sent.consumer| == LABEL_LEN
      ensures forall i :: 0 <= i < LABEL_LEN ==> sent.name[i] == 0 && sent.consumer[i] == 0
      ensures res == DecodeLineInfo(gpio, reply)
    {
      var query := LineInfoRecord(0, 0, seq(LABEL_LEN, _ => 0), seq(LABEL_LEN, _ => 0));
      query := query.(lineOffset := gpio);
      sent := query;
      res := DecodeLineInfo(gpio, reply);
    }

    /** `request`: one line. The record carries one offset and one default
        value in slot 0, zeros in the other 63 slots, a line count of 1, the
        requested flags and the encoded consumer label. */
    method Request(consumer: seq<u8>, flags: bv32, gpio: u32, defaultValue: u8, reply: Sys<Fd>)
      returns (res: Result<GpioHandle>, sent: HandleRequestRecord)
      ensures sent.lines == 1 && sent.flags == flags
      ensures |sent.lineOffsets| == MAX_LINES && sent.lineOffsets[0] == gpio
      ensures |sent.defaultValues| == MAX_LINES && sent.defaultValues[0] == defaultValue
      ensures forall i :: 1 <= i < MAX_LINES ==> sent.lineOffsets[i] == 0 && sent.defaultValues[i] == 0
      ensures sent.consumerLabel == EncodeLabel(consumer)
      ensures reply.Failed? ==> res == Err(Os(reply.errno))
      ensures reply.Done? ==> res == Ok(GpioHandle(reply.value, gpio, consumer, flags))
    {
      var lineOffsets := new u32[MAX_LINES](_ => 0);
      var defaultValues := new u8[MAX_LINES](_ => 0);
      var consumerLabel := new u8[LABEL_LEN](_ => 0);
      lineOffsets[0] := gpio;
      defaultValues[0] := defaultValue;
      CopyLabel(consumerLabel, consumer);
      sent := HandleRequestRecord(lineOffsets[..], flags, defaultValues[..], consumerLabel[..], 1);
      match reply {
        case Failed(e) => res := Err(Os(e));
        case Done(fd) => res := Ok(GpioHandle(fd, gpio, consumer, flags));
      }
    }

    /** `request_array`: more than 64 lines, or a default-value count other
        than the line count, is rejected with InvalidInput before the ioctl.
        Otherwise the record carries the offsets and default values in their
        first slots and zeros after them, and the handle keeps the offsets in
        the order given. */
    method RequestArray(consumer: seq<u8>, flags: bv32, gpios: seq<u32>, defaultValues: seq<u8>, reply: Sys<Fd>)
      returns (res: Result<GpioArrayHandle>, sent: Option<HandleRequestRecord>)
      ensures sent.None? <==> (|gpios| > MAX_LINES || |defaultValues| != |gpios|)
      ensures sent.None? ==> res == Err(InvalidInput)
      ensures sent.Some? ==> sent.value == HandleRequestRecord(
        ZeroPadded(gpios, MAX_LINES, 0), flags, ZeroPadded(defaultValues, MAX_LINES, 0),
        EncodeLabel(consumer), |gpios|)
      ensures sent.Some? && reply.Failed? ==> res == Err(Os(reply.errno))
      ensures sent.Some? && reply.Done? ==> res == Ok(GpioArrayHandle(reply.value, gpios, consumer, flags))
    {
      if |gpios| > MAX_LINES {
        return Err(InvalidInput), None;
      }
      if |gpios| != |defaultValues| {
        return Err(InvalidInput), None;
      }
      var lineOffsets := new u32[MAX_LINES](_ => 0);
      var values := new u8[MAX_LINES](_ => 0);
      var consumerLabel := new u8[LABEL_LEN](_ => 0);
      var kept: seq<u32> := [];
      CopyLabel(consumerLabel, consumer);
      for x := 0 to |gpios|
        invariant consumerLabel[..] == EncodeLabel(consumer)
        invariant kept == gpios[..x]
        invariant forall k :: 0 <= k < MAX_LINES ==> lineOffsets[k] == if k < x then gpios[k] else 0
        invariant forall k :: 0 <= k < MAX_LINES ==> values[k] == if k < x then defaultValues[k] else 0
      {
        lineOffsets[x] := gpios[x];
        values[x] := defaultValues[x];
        kept := kept + [gpios[x]];
      }
      assert kept == gpios;
      assert lineOffsets[..] == ZeroPadded(gpios, MAX_LINES, 0);
      assert values[..] == ZeroPadded(defaultValues, MAX_LINES, 0);
      sent := Some(HandleRequestRecord(lineOffsets[..], flags, values[..], consumerLabel[..], |gpios|));
      match reply {
        case Failed(e) => res := Err(Os(e));
        case Done(fd) => res := Ok(GpioArrayHandle(fd, kept, consumer, flags));
      }
    }

    /** `request_event`: the record carries the offset, both flag words and
        the encoded consumer label; the handle keeps the same. */
    method RequestEvent(consumer: seq<u8>, gpio: u32, handleFlags: bv32, eventFlags: bv32, reply: Sys<Fd>)
      returns (res: Result<GpioEventHandle>, sent: EventRequestRecord)
      ensures sent.lineOffset == gpio && sent.handleFlags == handleFlags && sent.eventFlags == eventFlags
      ensures sent.consumerLabel == EncodeLabel(consumer)
      ensures reply.Failed? ==> res == Err(Os(reply.errno))
      ensures reply.Done? ==> res == Ok(GpioEventHandle(reply.value, gpio, eventFlags, handleFlags))
    {
      var consumerLabel := new u8[LABEL_LEN](_ => 0);
      CopyLabel(consumerLabel, consumer);
      sent := EventRequestRecord(gpio, handleFlags, eventFlags, consumerLabel[..]);
      match reply {
        case Failed(e) => res := Err(Os(e));
        case Done(fd) => res := Ok(GpioEventHandle(fd, gpio, eventFlags, handleFlags));
      }
    }
  }

  /** `info` on a line whose consumer field holds the label a request sent
      reports the consumer's bytes before its first NUL, cut at 32 bytes;
      a NUL-free consumer shorter than the field comes back unchanged. */
  lemma InfoReportsRequestedConsumer(gpio: u32, flags: bv32, name: seq<u8>, consumer: seq<u8>)
    ensures DecodeLineInfo(gpio, Done(LineInfoRecord(gpio, flags, name, EncodeLabel(consumer)))).Ok?
    ensures DecodeLineInfo(gpio, Done(LineInfoRecord(gpio, flags, name, EncodeLabel(consumer)))).value.consumer
      == DecodeField(consumer[..Min(|consumer|, LABEL_LEN)])
    ensures |consumer| < LABEL_LEN && 0 !in consumer ==>
      DecodeLineInfo(gpio, Done(LineInfoRecord(gpio, flags, name, EncodeLabel(consumer)))).value.consumer == consumer
  {
    LabelDecodesToConsumerPrefix(consumer);
    if |consumer| < LABEL_LEN && 0 !in consumer {
      LabelRoundTrip(consumer);
    }
  }

  /** What `request_array` does as written, where the two length checks
      build an error and drop it: the copy loop panics on the 65th offset or
      on a missing default value; otherwise the ioctl is issued, with any
      surplus default values ignored. */
  datatype AsWritten = Panics | Issues(record: HandleRequestRecord)

  function RequestArrayAsWritten(consumer: seq<u8>, flags: bv32, gpios: seq<u32>, defaultValues: seq<u8>): (o: AsWritten)
    ensures o.Issues? <==> |gpios| <= MAX_LINES && |defaultValues| >= |gpios|
  {
    if |gpios| > MAX_LINES || |defaultValues| < |gpios| then Panics
    else Issues(HandleRequestRecord(
      ZeroPadded(gpios, MAX_LINES, 0), flags, ZeroPadded(defaultValues[..|gpios|], MAX_LINES, 0),
      EncodeLabel(consumer), |gpios|))
  }

  /** As written, one line with two default values reaches the kernel, and
      65 lines panic instead of failing with InvalidInput. */
  lemma DroppedChecksLetMismatchThrough()
    ensures RequestArrayAsWritten([], 0, [5], [1, 0]).Issues?
    ensures RequestArrayAsWritten([], 0, seq(65, _ => 0), seq(65, _ => 0)) == Panics
  {
  }

  /** A line count within the limit and default values of the same count
      send the same record as written and as corrected. */
  lemma AsWrittenAgreesOnValidInput(consumer: seq<u8>, flags: bv32, gpios: seq<u32>, defaultValues: seq<u8>)
    requires |gpios| <= MAX_LINES && |defaultValues| == |gpios|
    ensures RequestArrayAsWritten(consumer, flags, gpios, defaultValues)
      == Issues(HandleRequestRecord(ZeroPadded(gpios, MAX_LINES, 0), flags,
           ZeroPadded(defaultValues, MAX_LINES, 0), EncodeLabel(consumer), |gpios|))
  {
    assert defaultValues[..|gpios|] == defaultValues;
  }
}
