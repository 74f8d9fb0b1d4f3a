/**
 * The ".rip" container writer of src/rip.rs.
 *
 * A record is the magic "rip", three length-prefixed metadata strings (title,
 * artist, album; always written empty), a big-endian u32 payload length and
 * the DFPWM payload. The writer is an in-memory byte sequence that is only
 * ever appended to.
 */
module Rip {
  import opened Bytes

  datatype Option<T> = None | Some(value: T)

  /** The three bytes "rip" every record starts with. */
  const Magic: seq<uint8> := [0x72, 0x69, 0x70]
  /** One more than the largest u16. */
  const U16Limit: nat := 0x1_0000
  /** One more than the largest u32. */
  const U32Limit: nat := 0x1_0000_0000

  // ---------------------------------------------------------------------
  // Big-endian integers (byteorder's `write_u16` / `write_u32` with BigEndian)
  // ---------------------------------------------------------------------

  /** The big-endian u16 held in the first two bytes of `b`. */
  function ReadU16Be(b: seq<uint8>): nat
    requires |b| >= 2
  {
    b[0] as nat * 0x100 + b[1] as nat
  }

  /** The big-endian u32 held in the first four bytes of `b`. */
  function ReadU32Be(b: seq<uint8>): nat
    requires |b| >= 4
  {
    ReadU16Be(b) * 0x1_0000 + ReadU16Be(b[2..])
  }

  /** `n` as two bytes, most significant first. */
  function U16Be(n: nat): (b: seq<uint8>)
    requires n < U16Limit
    ensures |b| == 2 && ReadU16Be(b) == n
  {
    [(n / 0x100) as uint8, (n % 0x100) as uint8]
  }

  /** `n` as four bytes, most significant first. */
  function U32Be(n: nat): (b: seq<uint8>)
    requires n < U32Limit
    ensures |b| == 4 && ReadU32Be(b) == n
  {
    var b := U16Be(n / U16Limit) + U16Be(n % U16Limit);
    assert b[2..] == U16Be(n % U16Limit);
    b
  }

  // ---------------------------------------------------------------------
  // The writer
  // ---------------------------------------------------------------------

  /**
   * The sink `write_rip` appends to (any `std::io::Write` in the source; here an
   * in-memory byte sequence whose writes always succeed).
   */
  class Writer {
    var bytes: seq<uint8>

    constructor ()
      ensures bytes == []
    {
      bytes := [];
    }

    /** `write_all` (and `Vec::write`, which writes everything): append `buf`. */
    method WriteAll(buf: seq<uint8>)
      modifies this
      ensures bytes == old(bytes) + buf
    {
      bytes := bytes + buf;
    }

    /** `write_u16::<BigEndian>`: append `n` as two big-endian bytes. */
    method WriteU16Be(n: nat)
      requires n < U16Limit
      modifies this
      ensures bytes == old(bytes) + U16Be(n)
    {
      bytes := bytes + U16Be(n);
    }

    /** `write_u32::<BigEndian>`: append `n` as four big-endian bytes. */
    method WriteU32Be(n: nat)
      requires n < U32Limit
      modifies this
      ensures bytes == old(bytes) + U32Be(n)
    {
      bytes := bytes + U32Be(n);
    }
  }

  // ---------------------------------------------------------------------
  // Length-prefixed strings
  // ---------------------------------------------------------------------

  /**
   * The bytes `sized_str_u16be` builds: the length, cast to u16 (so taken
   * modulo 65536), big-endian, then the string's bytes unchanged.
   */
  function SizedStr(s: seq<uint8>): (r: seq<uint8>)
  {
    U16Be(|s| % U16Limit) + s
  }

  /** `sized_str_u16be`: fill a fresh buffer with the u16 length prefix and the bytes of `s`. */
  method SizedStrU16Be(s: seq<uint8>) returns (out: seq<uint8>)
    ensures out == SizedStr(s)
    ensures |out| == 2 + |s|
    ensures ReadU16Be(out) == |s| % U16Limit
    ensures out[2..] == s
  {
    var buf := new Writer();
    buf.WriteU16Be(|s| % U16Limit);
    buf.WriteAll(s);
    out := buf.bytes;
    assert out == U16Be(|s| % U16Limit) + s;
  }

  /**
   * A reader of one length-prefixed string: a big-endian u16 `n`, then `n`
   * bytes. Gives the string and what follows it, or None when `b` is too short.
   */
  function ParseSizedStr(b: seq<uint8>): Option<(seq<uint8>, seq<uint8>)>
  {
    if |b| < 2 then None
    else
      var n := ReadU16Be(b);
      if |b| < 2 + n then None else Some((b[2 .. 2 + n], b[2 + n ..]))
  }

  /**
   * Reading back a length-prefixed string returns its first `|s| mod 65536`
   * bytes, and the rest of `s` stays in front of what follows; so it returns
   * exactly `s` and `rest` if and only if `s` is shorter than 65536 bytes.
   */
  lemma SizedStrReadBack(s: seq<uint8>, rest: seq<uint8>)
    ensures ParseSizedStr(SizedStr(s) + rest)
      == Some((s[.. |s| % U16Limit], s[|s| % U16Limit ..] + rest))
    ensures ParseSizedStr(SizedStr(s) + rest) == Some((s, rest)) <==> |s| < U16Limit
  {
    var b := SizedStr(s) + rest;
    var n := |s| % U16Limit;
    var t := s + rest;
    assert b == U16Be(n) + t;
    assert ReadU16Be(b) == n;
    assert b[2..] == t;
    assert b[2 .. 2 + n] == t[..n] == s[..n];
    assert b[2 + n ..] == t[n..] == s[n..] + rest;
    if |s| >= U16Limit {
      assert |s[..n]| != |s|;
    }
  }

  // ---------------------------------------------------------------------
  // The container record
  // ---------------------------------------------------------------------

  /** The bytes `write_rip` appends for a payload: magic, three empty strings, u32 length, payload. */
  function RipRecord(payload: seq<uint8>): (r: seq<uint8>)
  {
    Magic + SizedStr([]) + SizedStr([]) + SizedStr([]) + U32Be(|payload| % U32Limit) + payload
  }

  /**
   * The record layout: 13 header bytes, of which the first nine are the magic
   * and three zero u16 lengths, the next four the payload length modulo 2^32
   * big-endian; the payload follows unchanged.
   */
  lemma RipRecordLayout(payload: seq<uint8>)
    ensures |RipRecord(payload)| == 13 + |payload|
    ensures RipRecord(payload)[..9] == [0x72, 0x69, 0x70, 0, 0, 0, 0, 0, 0]
    ensures ReadU32Be(RipRecord(payload)[9..13]) == |payload| % U32Limit
    ensures RipRecord(payload)[13..] == payload
  {
    var r := RipRecord(payload);
    var len := U32Be(|payload| % U32Limit);
    assert SizedStr([]) == [0, 0];
    assert r == [0x72, 0x69, 0x70, 0, 0, 0, 0, 0, 0] + len + payload;
    assert r[9..13] == len;
  }

  /** With an empty payload the record is the 13 bytes `72 69 70` followed by ten zeros. */
  lemma RipRecordEmpty()
    ensures RipRecord([]) == [0x72, 0x69, 0x70, 0, 0, 0, 0, 0, 0, 0, 0, 0, 0]
  {
    assert SizedStr([]) == [0, 0];
    assert U32Be(0) == [0, 0, 0, 0];
  }

  /** The fields of a record as a reader sees them. */
  datatype RipFile = RipFile(title: seq<uint8>, artist: seq<uint8>, album: seq<uint8>, payload: seq<uint8>)

  /**
   * A reader of a whole record: the magic, three length-prefixed strings, a
   * big-endian u32 length and exactly that many payload bytes, with nothing
   * after them (the layout has no trailer).
   */
  function ParseRip(b: seq<uint8>): Option<RipFile>
  {
    if |b| < 3 || b[..3] != Magic then None
    else match ParseSizedStr(b[3..])
      case None => None
      case Some((title, r1)) =>
        match ParseSizedStr(r1)
        case None => None
        case Some((artist, r2)) =>
          match ParseSizedStr(r2)
          case None => None
          case Some((album, r3)) =>
            if |r3| < 4 || ReadU32Be(r3) != |r3| - 4 then None
            else Some(RipFile(title, artist, album, r3[4..]))
  }

  /**
   * Round trip: a reader recovers three empty strings and the payload from
   * the record exactly when the payload's length fits the u32 prefix; for a
   * longer payload the truncated length no longer matches and reading fails.
   */
  lemma RipRoundTrip(payload: seq<uint8>)
    ensures ParseRip(RipRecord(payload))
      == if |payload| < U32Limit then Some(RipFile([], [], [], payload)) else None
  {
    var n := |payload| % U32Limit;
    var tail := U32Be(n) + payload;
    var r := RipRecord(payload);
    assert r == Magic + (SizedStr([]) + (SizedStr([]) + (SizedStr([]) + tail)));
    assert r[..3] == Magic;
    assert r[3..] == SizedStr([]) + (SizedStr([]) + (SizedStr([]) + tail));
    SizedStrReadBack([], SizedStr([]) + (SizedStr([]) + tail));
    SizedStrReadBack([], SizedStr([]) + tail);
    SizedStrReadBack([], tail);
    assert tail[..4] == U32Be(n);
    assert ReadU32Be(tail) == n;
    assert tail[4..] == payload;
  }

  /**
   * `write_rip`: append the record for `dfpwm` to the writer. What the writer
   * already held stays in front, and exactly 13 + |dfpwm| bytes are added.
   */
  method WriteRip(writer: Writer, dfpwm: seq<uint8>)
    modifies writer
    ensures writer.bytes == old(writer.bytes) + RipRecord(dfpwm)
    ensures |writer.bytes| == |old(writer.bytes)| + 13 + |dfpwm|
    ensures writer.bytes[.. |old(writer.bytes)|] == old(writer.bytes)
  {
    writer.WriteAll(Magic);
    var title := SizedStrU16Be([]);
    writer.WriteAll(title);
    var artist := SizedStrU16Be([]);
    writer.WriteAll(artist);
    var album := SizedStrU16Be([]);
    writer.WriteAll(album);
    writer.WriteU32Be(|dfpwm| % U32Limit);
    writer.WriteAll(dfpwm);
    RipRecordLayout(dfpwm);
  }
}
