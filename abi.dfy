/** The fixed-layout records exchanged with the kernel's GPIO ioctls, and the
    encoding of text into, and out of, their fixed-size byte fields.

    Field order and widths follow the records of src/lib.rs (`gpiochip_info`,
    `gpioline_info`, `gpiohandle_request`, `gpioevent_request`,
    `gpiohandle_data`). Array fields are sequences: the records the model
    sends are proved to have their fixed lengths, while kernel replies may
    hold fields of any length, and decoding is proved for every length.
    Padding and byte offsets are not modelled. */
module Abi {

  import opened Types

  /** Length of every fixed text field: names, labels, consumers. */
  const LABEL_LEN: nat := 32
  /** Number of line slots in a handle request and in a value buffer. */
  const MAX_LINES: nat := 64
  /** `size_of::<GpioEvent>()`: a 64-bit timestamp and a 32-bit event id,
      padded to the 8-byte alignment of the timestamp. */
  const EVENT_RECORD_SIZE: nat := 16

  /** `gpiochip_info`, as the kernel fills it. */
  datatype ChipInfoRecord = ChipInfoRecord(name: seq<u8>, chipLabel: seq<u8>, lines: u32)

  /** `gpioline_info`: the caller sets `lineOffset`, the kernel the rest. */
  datatype LineInfoRecord = LineInfoRecord(lineOffset: u32, flags: bv32, name: seq<u8>, consumer: seq<u8>)

  /** `gpiohandle_request` without its output field `fd`, which comes back in
      the kernel's reply. */
  datatype HandleRequestRecord = HandleRequestRecord(
    lineOffsets: seq<u32>,
    flags: bv32,
    defaultValues: seq<u8>,
    consumerLabel: seq<u8>,
    lines: u32)

  /** `gpioevent_request` without its output field `fd`. */
  datatype EventRequestRecord = EventRequestRecord(
    lineOffset: u32,
    handleFlags: bv32,
    eventFlags: bv32,
    consumerLabel: seq<u8>)

  function Min(a: nat, b: nat): nat {
    if a <= b then a else b
  }

  /** A fixed field of `n` slots whose first `|s|` slots hold `s` and whose
      remaining slots keep the zero they were initialised with. */
  function ZeroPadded<T>(s: seq<T>, n: nat, zero: T): (r: seq<T>)
    requires |s| <= n
    ensures |r| == n
    ensures forall i :: 0 <= i < n ==> r[i] == if i < |s| then s[i] else zero
  {
    s + seq(n - |s|, _ => zero)
  }

  /** The 32-byte consumer label a request carries: the consumer's first
      bytes, up to 32 of them, then zeros. A consumer of 32 bytes or more
      fills the whole field. */
  function EncodeLabel(consumer: seq<u8>): (field: seq<u8>)
    ensures |field| == LABEL_LEN
    ensures forall i :: 0 <= i < LABEL_LEN ==> field[i] == if i < |consumer| then consumer[i] else 0
  {
    ZeroPadded(consumer[..Min(|consumer|, LABEL_LEN)], LABEL_LEN, 0)
  }

  /** `s` is the C string held in `field`: a prefix of the field that holds
      no NUL byte and stops at a NUL or at the end of the field. */
  predicate IsCString(s: seq<u8>, field: seq<u8>) {
    && s <= field
    && 0 !in s
    && (|s| == |field| || field[|s|] == 0)
  }

  /** The text in a fixed field: the bytes before its first NUL, or the whole
      field when it holds none. */
  function DecodeField(field: seq<u8>): (s: seq<u8>)
    ensures IsCString(s, field)
  {
    if field == [] || field[0] == 0 then [] else [field[0]] + DecodeField(field[1..])
  }

  /** A field holds exactly one C string, so `DecodeField` is the only
      decoding that meets `IsCString`. */
  lemma {:induction false} DecodeFieldUnique(s: seq<u8>, field: seq<u8>)
    requires IsCString(s, field)
    ensures s == DecodeField(field)
  {
    if field != [] && field[0] != 0 {
      assert s[0] == field[0];
      DecodeFieldUnique(s[1..], field[1..]);
    }
  }

  /** A field with no NUL byte decodes to all of its bytes. */
  lemma DecodeUnterminated(field: seq<u8>)
    requires 0 !in field
    ensures DecodeField(field) == field
  {
  }

  /** Reading back an encoded label gives the consumer's bytes before its
      first NUL, cut at 32 bytes. */
  lemma LabelDecodesToConsumerPrefix(consumer: seq<u8>)
    ensures DecodeField(EncodeLabel(consumer)) == DecodeField(consumer[..Min(|consumer|, LABEL_LEN)])
  {
    var m := Min(|consumer|, LABEL_LEN);
    var encoded := EncodeLabel(consumer);
    var t := DecodeField(consumer[..m]);
    assert encoded[..m] == consumer[..m];
    assert t <= encoded;
    if |t| < m {
      assert encoded[|t|] == consumer[..m][|t|];
    }
    DecodeFieldUnique(t, encoded);
  }

  /** A consumer shorter than the field and free of NUL bytes round-trips
      through the label. */
  lemma LabelRoundTrip(consumer: seq<u8>)
    requires |consumer| < LABEL_LEN && 0 !in consumer
    ensures DecodeField(EncodeLabel(consumer)) == consumer
  {
    LabelDecodesToConsumerPrefix(consumer);
    assert consumer[..Min(|consumer|, LABEL_LEN)] == consumer;
    DecodeUnterminated(consumer);
  }

  /** A consumer of 32 or more NUL-free leading bytes leaves no NUL
      terminator anywhere in the label; the label holds its first 32 bytes. */
  lemma LongLabelUnterminated(consumer: seq<u8>)
    requires |consumer| >= LABEL_LEN && 0 !in consumer[..LABEL_LEN]
    ensures 0 !in EncodeLabel(consumer)
    ensures EncodeLabel(consumer) == consumer[..LABEL_LEN]
  {
    var encoded := EncodeLabel(consumer);
    assert encoded == consumer[..LABEL_LEN];
  }

  /** The label loop of `request`, `request_array` and `request_event`:
      copy consumer bytes into a zeroed 32-byte field until either runs out. */
  method CopyLabel(field: array<u8>, consumer: seq<u8>)
    requires field.Length == LABEL_LEN
    requires forall k :: 0 <= k < field.Length ==> field[k] == 0
    modifies field
    ensures field[..] == EncodeLabel(consumer)
  {
    var i := 0;
    while i < field.Length
      invariant i <= field.Length && i <= |consumer|
      invariant forall k :: 0 <= k < i ==> field[k] == consumer[k]
      invariant forall k :: i <= k < field.Length ==> field[k] == 0
    {
      if i >= |consumer| {
        break;
      }
      field[i] := consumer[i];
      i := i + 1;
    }
    assert forall k :: 0 <= k < LABEL_LEN ==> field[..][k] == EncodeLabel(consumer)[k];
  }
}
