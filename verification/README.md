# rip-converter: the DFPWM encoder and the .rip container writer

This project models the two pieces of logic in rip-converter that are not glue code:

- **The DFPWM encoder** (`src/dfpwm.rs`). It is an adaptive delta modulator. Each unsigned sample byte becomes one bit: is the sample above the tracked `level`? The bit moves `level` toward 127 or -128. The step is the distance to that target scaled by `response / 1024` and rounded. A step that rounds to zero short of the target is nudged by one. `response` climbs by one toward 1023 while bits repeat and drops by one toward 0 when they change, but never stays below 8. Eight bits pack into one byte, first sample in bit 0.
- **The .rip writer** (`src/rip.rs`). A record is:
  - the magic `72 69 70`;
  - three empty metadata strings, each a big-endian u16 length with no bytes after it;
  - a big-endian u32 payload length;
  - the payload.

## Files

- `bytes.dfy`, module `Bytes`: the `uint8` type (Rust's `u8`) and the i32 range predicate.
- `dfpwm.dfy`, module `Dfpwm`:
  - The pure specification. `Update` is one `ctx_update`. `Run` and `Bits` give the state and the bits after a sequence of samples. `Pack` packs bits least significant first. `GroupByte` is the byte of one group of eight samples.
  - The class `Encoder` holds the struct's fields and updates them in place. `CtxUpdate`, `CompressGroup` and `Compress` are proved against those functions.
- `rip.dfy`, module `Rip`:
  - `Writer` is an in-memory byte sink that is only appended to. `WriteRip` and `SizedStrU16Be` write through it.
  - The closed forms `SizedStr` and `RipRecord` give the exact bytes written.
  - Two readers are reference definitions for the round-trip lemmas: `ParseSizedStr` reads one length-prefixed string and `ParseRip` reads one whole record.

## Behaviour as the code has it

Some details of `src/dfpwm.rs` are easy to misread, and the model keeps each one as written:

- The response floor is `2 << (RESP_PREC - 8)`, which is 8 (`src/dfpwm.rs:54-58`).
- Samples are read as unsigned bytes 0 to 255 (`src/dfpwm.rs:71`).
- The bit rule is `in_level > level || (in_level == level && level == 127)`, and no sample value is treated specially. So any byte of 128 or more encodes as 1, including `0x80` (`HighSamplesGiveOnes`).
- `compress` encodes exactly `len` whole groups. A partial group is never padded.
- `compress` stores every group's byte at `dest[dest_offs]` and never advances `dest_offs`. Only the last group's byte remains there, and `Compress` states exactly that.

## Model

| member | source | states |
|---|---|---|
| Dfpwm.Target | src/dfpwm.rs:26-29 | Definition: the level a bit drives toward, 127 for a 1 bit and -128 for a 0 bit |
| Dfpwm.NextLevel | src/dfpwm.rs:26-37 | Definition: `level + ((response * (target - level) + 512) >> 10)` with `>>` as floor division, plus one toward the target when that leaves the level unchanged short of the target. Its properties are in the `StepBounds`, `NextLevelTowardTarget` and `UpdateFitsI32` rows |
| Dfpwm.NextResponse | src/dfpwm.rs:39-58 | Definition: the response moved one unit toward `rtarget` (1023 on a repeated bit, 0 on a changed one) unless already there, then raised to 8 when `RESP_PREC > 8`. Its exact values are in the `NextResponseTowardRunTarget` row |
| Dfpwm.Update | src/dfpwm.rs:25-63 | Definition: the whole state after `ctx_update(bit)`, namely `NextResponse`, `NextLevel` (both from the old state) and `last_bit := bit`. `CtxUpdate` is proved equal to it; `UpdateValid` and `UpdateFitsI32` state its properties |
| Dfpwm.Decide | src/dfpwm.rs:71-75 | Definition: the bit for a sample, `in_level > level \|\| (in_level == level && level == 127)` on the unsigned byte. `DecideHigh` and `HighSamplesGiveOnes` state its consequences |
| Dfpwm.Run | src/dfpwm.rs:67-82 | Definition: the state after deciding and updating on each sample in order from a given state. `RunValid`, `RunAppend` and `NextGroup` state its properties |
| Dfpwm.GroupByte | src/dfpwm.rs:68-83 | Definition: the byte of one group of eight samples, the packing (first bit lowest) of the group's eight bits. `CompressGroup` and `Compress` are proved against it; `GroupByteOfStream` and `HighGroupByte` state its properties |
| Dfpwm.ShiftConstants | src/dfpwm.rs:3 | With RESP_PREC = 10, the shifts `ctx_update` writes are the constants used: the rounding bias `1 << 9` = 512, the scale of `>> 10` = 1024, the run target `(1 << 10) - 1` = 1023 and the floor `2 << 2` = 8 |
| Dfpwm.StepBounds | src/dfpwm.rs:30-31 | For a response in [0, 1023], the rounded step `(response * diff + 512) >> 10` lies between 0 and `diff` inclusive, whatever the sign of `diff` |
| Dfpwm.NextLevelTowardTarget | src/dfpwm.rs:26-37 | From a level in [-128, 127], the new level lies between the old level and the target inclusive. So it stays in [-128, 127] and never overshoots. It changes if and only if the old level differs from the target (the anti-stall nudge) |
| Dfpwm.NextResponseTowardRunTarget | src/dfpwm.rs:39-58 | The new response is in [8, 1023]. On a repeated bit it is `max(8, min(response + 1, 1023))`; on a changed bit it is `max(8, response - 1)` |
| Dfpwm.UpdateValid | src/dfpwm.rs:25-63 | One update keeps response in [0, 1023] and level in [-128, 127], leaves the response at least 8 and records the bit as `last_bit` |
| Dfpwm.UpdateFitsI32 | src/dfpwm.rs:30-52 | From a valid state, every i32 intermediate of `ctx_update` is within the i32 range: the distance `target - level`, the product `response * (target - level)`, the product plus bias, the level before the nudge, the new level and `response ± 1`. So the unbounded-integer model has no overflow to miss |
| Dfpwm.DecideHigh | src/dfpwm.rs:71-75 | With the level at most 127, the bit is 1 for a sample byte of 128 or more, and for any sample when the level is negative |
| Dfpwm.Bits | src/dfpwm.rs:67-82 | Encoding emits exactly one bit per sample |
| Dfpwm.RunValid | src/dfpwm.rs:67-82 | Encoding any number of samples from a valid state keeps it valid; after at least one sample the response is at least 8 |
| Dfpwm.RunAppend | src/dfpwm.rs:67-82 | Encoding `s + t` is encoding `s`, then encoding `t` from the state left behind (the encoder carries its state across groups and calls) |
| Dfpwm.BitsAppend | src/dfpwm.rs:67-82 | The bits of `s + t` are the bits of `s` followed by the bits of `t` encoded from the state `s` left behind |
| Dfpwm.HighSamplesGiveOnes | src/dfpwm.rs:71-75 | From any valid state, samples that are all 128 or more encode as all 1 bits |
| Dfpwm.Pack | src/dfpwm.rs:76-80 | Packing n bits gives a number below 2^n |
| Dfpwm.PackBits | src/dfpwm.rs:68-83 | Packing is exact: bit k of the packed number is the k-th bit packed (the first sample lands in bit 0), and every higher bit is clear |
| Dfpwm.PackSnoc | src/dfpwm.rs:76-80 | Appending a bit adds it at the next higher bit position |
| Dfpwm.PackOnes | src/dfpwm.rs:76-80 | Packing n 1 bits gives 2^n - 1 |
| Dfpwm.PackStep | src/dfpwm.rs:76-80 | One `d >>= 1; d += 128 * bit` step turns the accumulator of j bits (their packing shifted to the top of the byte) into that of j + 1 bits |
| Dfpwm.SnocStep | src/dfpwm.rs:70-82 | Encoding one more sample applies one update with that sample's bit and appends that bit |
| Dfpwm.PackedStep | src/dfpwm.rs:74-80 | The packing accumulator after one more sample of a group, in terms of the group's bits |
| Dfpwm.NextGroup | src/dfpwm.rs:67-84 | Encoding up to the end of the next group is encoding up to its start and then the group |
| Dfpwm.GroupByteOfStream | src/dfpwm.rs:67-83 | The byte of group g is the packing of bits 8g to 8g + 7 of the whole bit stream |
| Dfpwm.HighGroupByte | src/dfpwm.rs:67-83 | A group of eight samples of 128 or more encodes to 0xFF from any valid state |
| Dfpwm.Encoder.constructor | src/dfpwm.rs:15-23 | `new` sets every field to zero (and `last_bit` to false), which is a valid state |
| Dfpwm.Encoder.CtxUpdate | src/dfpwm.rs:25-63 | The new state is `Update(old state, cur_bit)`. It stays valid, the response is at least 8, `last_bit` becomes `cur_bit`, and `last_level` and `lpf_level` are untouched |
| Dfpwm.Encoder.CompressGroup | src/dfpwm.rs:68-82 | The inner loop encodes the eight samples at `src[offs..offs + 8]`. The state advances by exactly those samples, and `d` is below 256 and equals the group's packed byte, so `d as u8` is lossless |
| Dfpwm.Encoder.Compress | src/dfpwm.rs:65-85 | Given `src_offs + 8 * len <= src.len()`, and `dest_offs < dest.len()` when `len > 0`, the state advances by exactly the `8 * len` samples read. When `len > 0`, `dest` changes only at `dest_offs`, which holds the last group's byte; when `len == 0`, nothing changes. `src` is outside the frame. The unused fields are untouched |
| Rip.SizedStr | src/rip.rs:5-10 | Definition: the bytes of `sized_str_u16be(s)`, the big-endian u16 of \|s\| mod 65536 followed by `s`. `SizedStrU16Be` is proved equal to it; `SizedStrReadBack` states its round trip |
| Rip.RipRecord | src/rip.rs:12-27 | Definition: the bytes `write_rip` appends, namely the magic, three `SizedStr` of the empty string, the big-endian u32 of \|payload\| mod 2^32 and the payload. `WriteRip` is proved to append it; `RipRecordLayout`, `RipRecordEmpty` and `RipRoundTrip` state its layout and round trip |
| Rip.U16Be | src/rip.rs:7 | `write_u16::<BigEndian>` bytes: two bytes that read back as the same number, most significant first |
| Rip.U32Be | src/rip.rs:26 | `write_u32::<BigEndian>` bytes: four bytes that read back as the same number, most significant first |
| Rip.Writer.constructor | src/rip.rs:6 | A new buffer is empty |
| Rip.Writer.WriteAll | src/rip.rs:8 | A write appends the given bytes and keeps what was there |
| Rip.Writer.WriteU16Be | src/rip.rs:7 | Appends the two big-endian bytes of a u16 |
| Rip.Writer.WriteU32Be | src/rip.rs:26 | Appends the four big-endian bytes of a u32 |
| Rip.SizedStrU16Be | src/rip.rs:5-10 | The result has length 2 + \|s\|. Its first two bytes read as \|s\| mod 65536 big-endian (the `as u16` cast), and the rest is `s` unchanged |
| Rip.SizedStrReadBack | src/rip.rs:5-10 | Reading back a length-prefixed string yields its first \|s\| mod 65536 bytes, followed by the rest. It yields exactly `s` and the following bytes if and only if \|s\| < 65536 |
| Rip.RipRecordLayout | src/rip.rs:12-27 | A record has 13 + \|payload\| bytes: `72 69 70 00 00 00 00 00 00`, then \|payload\| mod 2^32 as a big-endian u32, then the payload |
| Rip.RipRecordEmpty | src/rip.rs:14-27 | With an empty payload, the record is exactly `72 69 70` followed by ten zero bytes |
| Rip.RipRoundTrip | src/rip.rs:12-27 | Reading a record back yields three empty strings and the payload if and only if the payload is shorter than 2^32 bytes; otherwise reading fails |
| Rip.WriteRip | src/rip.rs:12-27 | The writer's contents become the old contents followed by the record, so 13 + \|dfpwm\| bytes are added and the old contents stay as a prefix |

## Left out

- `src/main.rs` is not part of this model. That covers ffmpeg decoding and resampling, argument parsing, temporary and output files, timing and printing. Its calls to `compress` and `write_rip` also do not match these definitions' signatures.
- Write failures: every `.unwrap()` in `src/rip.rs` panics on an I/O error. The model's writer is an in-memory sequence whose writes always succeed, so no error path is modelled. Writers other than a byte buffer are not modelled.
- Panics in `compress`: an out-of-range `src` or `dest` index panics in Rust. The model has preconditions instead: `srcOffs + 8 * len <= src.Length`, and `destOffs < dest.Length` when `len > 0`. `usize` offsets are `nat`.
- `src` and `dest` are two distinct arrays (`requires src != dest`). Rust's borrow rules guarantee this for two `&mut Vec<u8>`. `src` is never written, and the model shows that by leaving it out of the `modifies` frame rather than by an `ensures` clause.
- i32 arithmetic: `response`, `level` and the intermediates are unbounded integers. `UpdateFitsI32` shows that none of them leaves the i32 range from a valid state. `CtxUpdate` and `Compress` require a valid state (response in [0, 1023], level in [-128, 127]). The struct's fields are private, so the only states a caller can reach are from `new` followed by updates, and every one of those is valid.
- The low-pass filter: `LPF_STRENGTH`, `RESP_INC`, `RESP_DEC` and the fields `last_level` and `lpf_level` are declared and never used. The two fields are carried as state that every method leaves untouched.
- Loop structure: the inner `for _ in 0..8` loop of `compress` is the separate method `CompressGroup`, which `Compress` calls once per group. Inside it the read position still advances by one per sample, exactly as in the source.
- Metadata: `write_rip` writes three hard-coded empty strings. `SizedStrU16Be` is modelled for any byte string. A `&str`'s bytes are taken as given, with no UTF-8 encoding, and its `len()` is the byte count.
- No decoder exists in the repository. `ParseSizedStr` and `ParseRip` are reference readers, used only to state the round trips.
