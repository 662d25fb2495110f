# gpiochip marshalling model

A Dafny model of the marshalling layer of the `gpiochip` Rust crate. The crate is a client of the Linux GPIO character-device interface, version 1 of the uAPI (`include/uapi/linux/gpio.h`).

The model covers five pieces:

- **Request builders.** The chip's three request operations fill zeroed kernel records:
  - `request` and `request_array` fill a `gpiohandle_request`, which has 64 offset slots, 64 default-value slots and a 32-byte consumer label. `request` writes only slot 0 of each array.
  - `request_event` fills a `gpioevent_request`, which has one line offset, two flag words and a 32-byte consumer label.
- **Value buffers.** Line and array handles exchange 64-byte `gpiohandle_data` buffers in `get` and `set`.
- **Decoding.** Fixed, NUL-terminated text fields become the names, labels and consumers that `chipinfo` and `info` report. `read` on an event handle checks for a short read.
- **Readiness.** `wait_for_event` polls event handles and turns their `revents` into a `u64` bitmap. `flush` uses it to drain an event handle.
- **Flags.** The bit values of the three flag types.

Every kernel call (ioctl, open(2), read(2), poll(2)) is represented by its answer. The operations receive these answers in two ways:

- Most operations take the answer as an argument. `Sys<T>` is either the data the kernel filled in or the errno it failed with. `PollReply` and `ReadReply` play the same role for poll(2) and read(2).
- `flush` is the exception: it takes its answers from an `EventQueue` object. The queue holds, in order, what the descriptor will do next: the answer to a read, or a failing poll. Its poll reports the descriptor readable exactly while deliveries are pending.

Some operations also return what they hand to the kernel:

- The three requests, `info`, and `set` on line and array handles return the record or buffer they send as `sent`. `wait_for_event` returns its poll call as `polled`.
- Where the library can reject its input before the call, that result is an `Option`, and `None` means no call was made.
- `chipinfo`, the `get`s and `read` hand the kernel only a zeroed record or buffer for it to fill, so they take just the answer.

The builders fill arrays in loops, as the source does, and are proved against reference functions:

- `Abi.ZeroPadded` is the padded fixed field.
- `Abi.EncodeLabel` is the 32-byte label.
- `Abi.DecodeField` is the text before the first NUL.

The `u64` bitmap is an unbounded natural number, described bit by bit through `Bits.Bit`, `Bits.Pow2` and `Bits.Or`. Its bound of 2^64 is proved.

Modules: `Types` (integer widths, errors, kernel answers), `Flags`, `Abi` (kernel records, label encoding and decoding), `Bits`, `Handles` (line, array and event handles, `wait_for_event`), `Chip` (the chip and its requests).

## Model

| member | source | states |
|---|---|---|
| Types.FromSys | src/lib.rs:228-233 | a failed call becomes an `Os` error with the same errno; a successful one passes its data through |
| Flags.NamedFlagsAreDistinctBits | src/lib.rs:85-125 | each named line, request and single-edge flag is one bit, and the flags of one type are pairwise disjoint |
| Flags.RequestBitsMatchLineBits | src/lib.rs:101-114 | requested modes share bit positions with the reported line states |
| Flags.BothEdgesIsUnion | src/lib.rs:119-126 | BOTH_EDGES is exactly RISING_EDGE or FALLING_EDGE and contains exactly what their union contains |
| Abi.ZeroPadded | src/lib.rs:186-193 | a field of `n` slots holding `s` in its first slots and zero in every later slot |
| Abi.EncodeLabel | src/lib.rs:416-421 | label byte `i` is consumer byte `i` for `i < min(32, len)` and 0 from there on |
| Abi.CopyLabel | src/lib.rs:416-421 | the copy loop leaves a zeroed 32-byte field equal to `EncodeLabel(consumer)` |
| Abi.DecodeField | src/lib.rs:376-377 | the result is a prefix of the field with no NUL, ending at a NUL or at the field's end |
| Abi.DecodeFieldUnique | src/lib.rs:376-377 | that prefix is the only one: any C string held in the field equals `DecodeField` of it |
| Abi.DecodeUnterminated | src/lib.rs:376-377 | a field with no NUL byte decodes to all of its bytes |
| Abi.LabelDecodesToConsumerPrefix | src/lib.rs:445-450 | decoding an encoded label gives the consumer's text before its first NUL, cut at 32 bytes |
| Abi.LabelRoundTrip | src/lib.rs:469-474 | a NUL-free consumer shorter than 32 bytes decodes back from its label unchanged |
| Abi.LongLabelUnterminated | src/lib.rs:416-421 | a consumer with 32 or more NUL-free leading bytes leaves no NUL in the label, which holds exactly its first 32 bytes |
| Bits.OrBits | src/lib.rs:512 | a bit is set in the bitwise or of `a` and `b` exactly when it is set in `a` or in `b` |
| Bits.Pow2Bits | src/lib.rs:512 | `1 << n` has bit `n` set and no other |
| Bits.OrBelow | src/lib.rs:508-514 | or-ing values below `2^k` stays below `2^k`, so the bitmap stays a `u64` |
| Bits.BitsDetermine | src/lib.rs:508-514 | two numbers with the same bits are equal |
| Handles.LineValue | src/lib.rs:297-317 | `get` on a line or event handle returns slot 0 of the buffer the kernel filled, or the errno of a failed ioctl |
| Handles.GpioHandle.Set | src/lib.rs:321-330 | the buffer sent holds the value in slot 0 and zero in the other 63 slots; the result is the ioctl's |
| Handles.SetThenGet | src/lib.rs:310-330 | a kernel that reports the buffer `set` sent makes `get` return the value that was set |
| Handles.GpioArrayHandle.Get | src/lib.rs:335-343 | the whole 64-slot buffer the kernel filled, or the errno |
| Handles.GpioArrayHandle.Set | src/lib.rs:346-361 | a value count other than the line count, or above 64, is InvalidData with no ioctl; otherwise the buffer holds the values and then zeros |
| Handles.ArraySetThenGet | src/lib.rs:335-361 | a kernel that reports what was set returns the set values in the first slots of `get` |
| Handles.GpioEventHandle.Read | src/lib.rs:273-282 | a failed read gives its errno; fewer than 16 bytes is InvalidData; a full record is the event |
| Handles.GpioEventHandle.Flush | src/lib.rs:285-294 | success exactly when no queued poll fails and every queued read delivers a full record, and then the queue is empty; otherwise it stops at the first failing poll or read, consumes it, and returns its error |
| Handles.WaitForEvent | src/lib.rs:491-517 | more than 64 handles is InvalidData with no poll; otherwise one entry per handle in order with interest POLLIN and POLLPRI; a failed poll gives its errno; a count of 0 gives 0; otherwise bit `j` is set exactly when `j < len` and entry `j` reported events, and the bitmap is 0 exactly when no entry did |
| Handles.OnlySecondReady | src/lib.rs:508-514 | with three handles of which only the second reported, the bitmap is 0b010 |
| Handles.EventId.Code | src/lib.rs:143-149 | the rising edge has code 1 and the falling edge code 2 |
| Chip.ChipInfo | src/lib.rs:369-380 | a failed ioctl gives its errno; otherwise name and label are the C strings of their fields and the line count is passed through |
| Chip.GpioChip.New | src/lib.rs:385-390 | a failed open gives its errno and makes no query; a failed query gives its errno; otherwise the chip holds the opened descriptor, the decoded name and label, and the line count |
| Chip.DecodeLineInfo | src/lib.rs:397-404 | a failed ioctl gives its errno; otherwise the reported line index is the argument, the flags are copied verbatim, and name and consumer are the C strings of their fields |
| Chip.GpioChip.Info | src/lib.rs:393-405 | the query record sent asks about line `gpio`, with flags, name and consumer zero; the result is `DecodeLineInfo` of the kernel's answer |
| Chip.InfoReportsRequestedConsumer | src/lib.rs:393-421 | a consumer field holding a request's label reads back as the consumer's prefix before its first NUL, cut at 32 bytes, and as the consumer itself when that is shorter and NUL-free |
| Chip.GpioChip.Request | src/lib.rs:408-428 | the record has line count 1, the offset and default value in slot 0, zero in slots 1 to 63, the flags, and the encoded label; the handle holds the descriptor returned, the line, the full consumer and the flags |
| Chip.GpioChip.RequestArray | src/lib.rs:431-463 | more than 64 lines, or a default-value count other than the line count, is InvalidInput with no ioctl; otherwise the record holds the offsets and default values padded with zeros, the line count, the flags and the label, and the handle keeps the offsets in input order |
| Chip.GpioChip.RequestEvent | src/lib.rs:466-485 | the record carries the offset, both flag words and the encoded label; the handle keeps offset and flags |
| Chip.RequestArrayAsWritten | src/lib.rs:435-456 | as written: the copy loop panics on more than 64 lines or too few default values, and otherwise the ioctl is issued |
| Chip.DroppedChecksLetMismatchThrough | src/lib.rs:435-441 | as written, one line with two default values reaches the kernel, and 65 lines panic rather than fail |
| Chip.AsWrittenAgreesOnValidInput | src/lib.rs:431-456 | on valid input the record sent as written equals the corrected one |

## Left out

- Kernel calls: the ioctls, `File::open`, read(2) and `libc::poll` are not executed. Each is replaced by its answer. `flush` takes its answers from an `EventQueue`; every other operation takes the answer as an argument.
- Ioctl numbers: the number encoding (`ioctl_read!` and `ioctl_readwrite!` with magic 0xB4) is not modelled.
- Record layout: byte offsets and padding are not modelled. Records are datatypes whose array fields are sequences. The records the model sends are proved to have their fixed lengths. Kernel replies may hold fields of any length, and decoding is proved for every length.
- Event record size: 16 bytes, assuming a `u64` aligned to 8 bytes.
- `ptr::read`: the reinterpretation of the read bytes as a `GpioEvent` is not modelled; a full read delivers the event directly.
- `to_string_lossy`: UTF-8 conversion is not modelled. Names, labels and consumers are byte sequences, and `c_char` label bytes are modelled as `u8`.
- Unterminated fields: `CStr::from_ptr` on a 32-byte field with no NUL reads past the field, which is undefined behaviour. `DecodeField` stops at the field's end.
- `from_nix_error`: only the system-call errno is modelled; `nix` errors that are not errnos are not distinguished.
- Raw descriptors: the `FromRawFd`, `IntoRawFd` and `AsRawFd` implementations (src/lib.rs:519-573) transfer descriptor ownership and are not modelled. So is closing descriptors on drop.
- Blocking and concurrency: blocking, timeouts actually expiring, and the kernel's exclusive line claims are not modelled. `timeoutMs` is only recorded in the poll call.
- Handles.GpioEventHandle.Flush: the queue's poll reports the descriptor readable exactly while a read is pending. Two cases are therefore not covered: a poll that reports readiness with no read pending, and a poll that reports nothing while events wait.
- Handles.WaitForEvent: requires at least one handle, because the source indexes `fds[0]` and panics on an empty slice.
- Line reads: `Handles.GpioHandle.Get` and `Handles.GpioEventHandle.Get` delegate to `Handles.LineValue`, which carries their contract.
- Device mode: the chip device is opened read-only, as `File::open` does.
- Empty arrays: a request for zero lines is not rejected, as in the source; the kernel decides.
- Error kinds: InvalidData, not InvalidInput, is what the source returns for `GpioArrayHandle::set` with the wrong count and for `wait_for_event` with more than 64 handles. The model follows the source.

## Findings

| source | as written | input that shows it | evidently intended | confidence | as-written member | corrected member |
|---|---|---|---|---|---|---|
| src/lib.rs:435-441 | both length checks build an `io::Error` and discard it, so `request_array` goes on: it panics when indexing past 64 lines or past the default values, and with surplus default values it issues the ioctl, ignoring the surplus | `gpios = [5]`, `default_values = [1, 0]` issues the request; 65 lines panic | return InvalidInput before the ioctl when there are more than 64 lines or the counts differ | not executed | Chip.DroppedChecksLetMismatchThrough | Chip.GpioChip.RequestArray |
