/**
 * The pmsg mirror of exynos-snapshot: `exynos_ss_hook_pmsg` receives the
 * chunks Android's logger writes to the pstore pmsg device and forwards the
 * text of each log record to the `log_platform` item through the hook
 * registered by `register_hook_logger` (`Snapshot.HookLogger`).
 *
 * A record arrives as a 7-byte pmsg header, an 11-byte Android log header, a
 * one-byte priority and the NUL-terminated message text. The dispatcher
 * tells them apart by length alone; `exynos_ss_combine_pmsg` then writes a
 * formatted header line or a two-character priority prefix into the
 * logger's scratch buffer, or passes the text through, and hands the result
 * to the hook. Records of the events log (id 2) are not mirrored.
 *
 * The header line is printed from the kernel clock, the wall-clock fields,
 * the CPU number and the current task's name; its text is a parameter here.
 * Multi-byte header fields are little-endian.
 */
module SnapshotPmsg {
  import opened CInt
  import opened Wrappers

  const ENOMEM: int := 12

  /** The scratch buffer `register_hook_logger` allocates: three pages. */
  const PAGE_SIZE: nat := 4096
  const LOGGER_BUFFER_SIZE: nat := 3 * PAGE_SIZE

  /** ESS_LOGGER_LEVEL_*, ESS_LOGGER_SKIP_COUNT, ESS_LOGGER_STRING_PAD and ESS_LOGGER_HEADER_SIZE. */
  const LEVEL_HEADER: nat := 1
  const LEVEL_PREFIX: nat := 2
  const LEVEL_TEXT: nat := 3
  const SKIP_COUNT: nat := 4
  const STRING_PAD: nat := 1
  const HEADER_SIZE: nat := 68

  /** ESS_LOG_ID_EVENTS, and the largest id that selects a header line. */
  const LOG_ID_EVENTS: nat := 2
  const LOG_ID_MAX: nat := 7

  /** sizeof(ess_pmsg_log_header_t) and sizeof(ess_android_log_header_t), both packed. */
  const PMSG_HEADER_LEN: nat := 7
  const ANDROID_HEADER_LEN: nat := 11

  /** The magic byte 'l' of a pmsg header. */
  const PMSG_MAGIC: Byte := 108

  /** The characters of "!.VDIWEFS", the fallback '?' and the space. */
  const PRIO_CHARS: seq<Byte> := [33, 46, 86, 68, 73, 87, 69, 70, 83]
  const UNKNOWN_PRIO: Byte := 63
  const SPACE: Byte := 32

  /** A little-endian uint16_t at offset i. */
  function U16At(b: seq<Byte>, i: nat): (v: int)
    requires i + 1 < |b|
    ensures 0 <= v < 0x1_0000
  {
    b[i] as int + 256 * (b[i + 1] as int)
  }

  /** A little-endian int32_t at offset i. */
  function I32At(b: seq<Byte>, i: nat): (v: int)
    requires i + 3 < |b|
    ensures -0x8000_0000 <= v < 0x8000_0000
  {
    I32(b[i] as int + 256 * (b[i + 1] as int) + 0x1_0000 * (b[i + 2] as int) + 0x100_0000 * (b[i + 3] as int))
  }

  /** The bytes of a uint16_t and of an int32_t, least significant first. */
  function U16Bytes(v: int): (b: seq<Byte>)
    requires 0 <= v < 0x1_0000
    ensures |b| == 2
  {
    [v % 256, v / 256]
  }

  function I32Bytes(v: int): (b: seq<Byte>)
    requires -0x8000_0000 <= v < 0x8000_0000
    ensures |b| == 4
  {
    var u := U32(v);
    var u1 := u / 256;
    var u2 := u1 / 256;
    [u % 256, u1 % 256, u2 % 256, u2 / 256]
  }

  /** The fields of `struct ess_logger` the dispatcher sets; `msg0` is the byte a priority chunk stores. */
  datatype Fields = Fields(len: int, id: int, pid: int, tid: int, uid: int, tvSec: int, tvNsec: int, msg0: Byte)

  /** The scratch buffer after `snprintf(logbuf, ESS_LOGGER_HEADER_SIZE, ...)` prints `text`: its first 67 characters at most, then a NUL. */
  function Printed(scratch: seq<Byte>, text: seq<Byte>): (s: seq<Byte>)
    requires |scratch| >= HEADER_SIZE
    ensures |s| == |scratch|
  {
    var n := Min(|text|, HEADER_SIZE - 1);
    text[..n] + [0] + scratch[n + 1..]
  }

  /**
   * The header bytes handed to the hook: one fewer than the header text,
   * and never more than `snprintf` wrote.
   */
  function HeaderChunk(text: seq<Byte>): (c: seq<Byte>)
    requires |text| >= 1
    ensures c <= text && |c| == Min(|text| - 1, HEADER_SIZE - 1)
  {
    text[..Min(|text| - 1, HEADER_SIZE - 1)]
  }

  /** As written: the hook is handed `logbuf_len - 1` bytes, `logbuf_len` being the length of the untruncated text. */
  function HeaderChunkAsWritten(scratch: seq<Byte>, text: seq<Byte>): (c: seq<Byte>)
    requires |scratch| >= HEADER_SIZE && 1 <= |text| <= |scratch| + 1
    ensures |c| == |text| - 1
  {
    Printed(scratch, text)[..|text| - 1]
  }

  /** Read back from the scratch buffer, the corrected header chunk is exactly what `snprintf` printed. */
  lemma HeaderChunkPrinted(scratch: seq<Byte>, text: seq<Byte>)
    requires |scratch| >= HEADER_SIZE && |text| >= 1
    ensures Printed(scratch, text)[..|HeaderChunk(text)|] == HeaderChunk(text)
  {
    var n := Min(|text|, HEADER_SIZE - 1);
    assert Printed(scratch, text)[..n] == text[..n];
  }

  /** Up to the 68 characters the format prints at its narrowest, the two agree. */
  lemma HeaderChunksAgree(scratch: seq<Byte>, text: seq<Byte>)
    requires |scratch| >= HEADER_SIZE && 1 <= |text| <= HEADER_SIZE
    ensures HeaderChunkAsWritten(scratch, text) == HeaderChunk(text)
  {
    var n := Min(|text|, HEADER_SIZE - 1);
    assert Printed(scratch, text)[..n] == text[..n];
  }

  /**
   * As written, a 69-character header (the uptime has reached 100000
   * seconds, so "%5lu" prints six digits) reaches the hook with a NUL in
   * place of its 68th character.
   */
  lemma HeaderChunkCarriesNul(scratch: seq<Byte>, text: seq<Byte>)
    requires |scratch| >= HEADER_SIZE && |text| == HEADER_SIZE + 1 && text[HEADER_SIZE - 1] != 0
    ensures HeaderChunkAsWritten(scratch, text)[HEADER_SIZE - 1] == 0
    ensures HeaderChunkAsWritten(scratch, text)[HEADER_SIZE - 1] != text[HEADER_SIZE - 1]
  {
  }

  /** The prefix a priority byte prints: its letter, or '?' past the table, then a space. */
  function PrefixOf(prio: Byte): (p: seq<Byte>)
    ensures |p| == 2 && p[1] == SPACE
    ensures p[0] == if prio < |PRIO_CHARS| then PRIO_CHARS[prio] else UNKNOWN_PRIO
  {
    [if prio < |PRIO_CHARS| then PRIO_CHARS[prio] else UNKNOWN_PRIO, SPACE]
  }

  /** The result of one dispatch: the logger's fields and scratch buffer afterwards, and the bytes handed to the hook. */
  datatype Outcome = Outcome(fields: Fields, scratch: seq<Byte>, out: Option<seq<Byte>>)

  /** `exynos_ss_combine_pmsg` at one level, with the logger's buffer allocated. */
  function Combine(f: Fields, chunk: seq<Byte>, level: nat, text: seq<Byte>, scratch: seq<Byte>): (o: Outcome)
    requires |chunk| >= 1 && |text| >= HEADER_SIZE && |scratch| == LOGGER_BUFFER_SIZE
    ensures o.fields == f && |o.scratch| == LOGGER_BUFFER_SIZE
    ensures f.id == LOG_ID_EVENTS ==> o.out.None? && o.scratch == scratch
    ensures level == LEVEL_TEXT && o.out.Some? ==> o.out.value == chunk[..|chunk| - STRING_PAD]
  {
    if f.id == LOG_ID_EVENTS then Outcome(f, scratch, None)
    else if level == LEVEL_HEADER then
      Outcome(f, Printed(scratch, text), Some(HeaderChunk(text)))
    else if level == LEVEL_PREFIX then
      var p := PrefixOf(f.msg0);
      Outcome(f, scratch[0 := p[0]][1 := p[1]], Some(p))
    else if level == LEVEL_TEXT then
      if |chunk| == SKIP_COUNT && chunk[|chunk| - STRING_PAD] != 0 then Outcome(f, scratch, None)
      else Outcome(f, scratch, Some(chunk[..|chunk| - STRING_PAD]))
    else Outcome(f, scratch, None)
  }

  /** `exynos_ss_hook_pmsg` with the logger's buffer allocated: the chunk is told apart by its length. */
  function Dispatch(f: Fields, chunk: seq<Byte>, text: seq<Byte>, scratch: seq<Byte>): (o: Outcome)
    requires |chunk| >= 1 && |text| >= HEADER_SIZE && |scratch| == LOGGER_BUFFER_SIZE
    ensures |o.scratch| == LOGGER_BUFFER_SIZE
    ensures |chunk| == PMSG_HEADER_LEN && chunk[0] == PMSG_MAGIC ==>
      o.out.None? && o.scratch == scratch && o.fields.id == f.id && o.fields.msg0 == f.msg0
    ensures |chunk| == ANDROID_HEADER_LEN ==> o.fields.id == chunk[0] && o.fields.msg0 == f.msg0
    ensures |chunk| == 1 ==> o.fields == f.(msg0 := chunk[0])
    ensures |chunk| !in {1, PMSG_HEADER_LEN, ANDROID_HEADER_LEN} ==> o.fields == f
  {
    if |chunk| == PMSG_HEADER_LEN then
      if chunk[0] != PMSG_MAGIC then Combine(f, chunk, LEVEL_TEXT, text, scratch)
      else Outcome(f.(pid := U16At(chunk, 5), uid := U16At(chunk, 3), len := U16At(chunk, 1)), scratch, None)
    else if |chunk| == ANDROID_HEADER_LEN then
      var g := f.(id := chunk[0], tid := U16At(chunk, 1), tvSec := I32At(chunk, 3), tvNsec := I32At(chunk, 7));
      Combine(g, chunk, if g.id > LOG_ID_MAX then LEVEL_TEXT else LEVEL_HEADER, text, scratch)
    else if |chunk| == 1 then
      Combine(f.(msg0 := chunk[0]), chunk, LEVEL_PREFIX, text, scratch)
    else
      Combine(f, chunk, LEVEL_TEXT, text, scratch)
  }

  /** The 11 bytes of an Android log header. */
  function AndroidHeader(id: Byte, tid: int, sec: int, nsec: int): (b: seq<Byte>)
    requires 0 <= tid < 0x1_0000 && -0x8000_0000 <= sec < 0x8000_0000 && -0x8000_0000 <= nsec < 0x8000_0000
    ensures |b| == ANDROID_HEADER_LEN
  {
    [id] + U16Bytes(tid) + I32Bytes(sec) + I32Bytes(nsec)
  }

  /** The 7 bytes of a pmsg header with the magic byte. */
  function PmsgHeader(len: int, uid: int, pid: int): (b: seq<Byte>)
    requires 0 <= len < 0x1_0000 && 0 <= uid < 0x1_0000 && 0 <= pid < 0x1_0000
    ensures |b| == PMSG_HEADER_LEN
  {
    [PMSG_MAGIC] + U16Bytes(len) + U16Bytes(uid) + U16Bytes(pid)
  }

  lemma U16RoundTrip(b: seq<Byte>, i: nat, v: int)
    requires 0 <= v < 0x1_0000 && i + 1 < |b| && b[i..i + 2] == U16Bytes(v)
    ensures U16At(b, i) == v
  {
    assert b[i] == v % 256 && b[i + 1] == v / 256;
  }

  /** The four bytes of a 32-bit value put back together. */
  lemma Bytes4(u: int)
    requires 0 <= u < U32_MOD
    ensures var u1 := u / 256; var u2 := u1 / 256;
      u % 256 + 256 * (u1 % 256) + 0x1_0000 * (u2 % 256) + 0x100_0000 * (u2 / 256) == u
  {
    var u1 := u / 256;
    var u2 := u1 / 256;
    assert u == 256 * u1 + u % 256;
    assert u1 == 256 * u2 + u1 % 256;
    assert u2 == 256 * (u2 / 256) + u2 % 256;
  }

  lemma I32RoundTrip(b: seq<Byte>, i: nat, v: int)
    requires -0x8000_0000 <= v < 0x8000_0000 && i + 3 < |b| && b[i..i + 4] == I32Bytes(v)
    ensures I32At(b, i) == v
  {
    var u := U32(v);
    Bytes4(u);
    assert b[i] as int + 256 * (b[i + 1] as int) + 0x1_0000 * (b[i + 2] as int) + 0x100_0000 * (b[i + 3] as int) == u;
    I32OfU32(v);
    if v >= 0 {
      DivModUnique(v, U32_MOD, 0, v);
    } else {
      DivModUnique(v, U32_MOD, -1, v + U32_MOD);
    }
  }

  /** A pmsg header with the magic byte stores its length, uid and pid, and nothing is mirrored. */
  lemma PmsgHeaderStored(f: Fields, len: int, uid: int, pid: int, text: seq<Byte>, scratch: seq<Byte>)
    requires 0 <= len < 0x1_0000 && 0 <= uid < 0x1_0000 && 0 <= pid < 0x1_0000
    requires |text| >= HEADER_SIZE && |scratch| == LOGGER_BUFFER_SIZE
    ensures Dispatch(f, PmsgHeader(len, uid, pid), text, scratch) == Outcome(f.(len := len, uid := uid, pid := pid), scratch, None)
  {
    var b := PmsgHeader(len, uid, pid);
    assert b[1..3] == U16Bytes(len) && b[3..5] == U16Bytes(uid) && b[5..7] == U16Bytes(pid);
    U16RoundTrip(b, 1, len);
    U16RoundTrip(b, 3, uid);
    U16RoundTrip(b, 5, pid);
  }

  /**
   * An Android log header stores its id, tid and time, and, for an id
   * other than the events log's and at most 7, hands the hook the header
   * line; an events header hands it nothing.
   */
  lemma AndroidHeaderStored(f: Fields, id: Byte, tid: int, sec: int, nsec: int, text: seq<Byte>, scratch: seq<Byte>)
    requires 0 <= tid < 0x1_0000 && -0x8000_0000 <= sec < 0x8000_0000 && -0x8000_0000 <= nsec < 0x8000_0000
    requires |text| >= HEADER_SIZE && |scratch| == LOGGER_BUFFER_SIZE
    ensures var o := Dispatch(f, AndroidHeader(id, tid, sec, nsec), text, scratch);
      o.fields == f.(id := id, tid := tid, tvSec := sec, tvNsec := nsec) &&
      o.out == (if id == LOG_ID_EVENTS then None
                else if id <= LOG_ID_MAX then Some(HeaderChunk(text))
                else Some(AndroidHeader(id, tid, sec, nsec)[..ANDROID_HEADER_LEN - STRING_PAD]))
  {
    var b := AndroidHeader(id, tid, sec, nsec);
    assert b[1..3] == U16Bytes(tid) && b[3..7] == I32Bytes(sec) && b[7..11] == I32Bytes(nsec);
    U16RoundTrip(b, 1, tid);
    I32RoundTrip(b, 3, sec);
    I32RoundTrip(b, 7, nsec);
  }

  /**
   * A whole Android record from a non-events log is mirrored as its header
   * line, its two-character priority prefix and its text without the
   * terminating NUL.
   */
  lemma RecordMirrored(f: Fields, id: Byte, tid: int, sec: int, nsec: int, prio: Byte, msg: seq<Byte>,
                       text: seq<Byte>, scratch: seq<Byte>)
    requires 0 <= tid < 0x1_0000 && -0x8000_0000 <= sec < 0x8000_0000 && -0x8000_0000 <= nsec < 0x8000_0000
    requires id <= LOG_ID_MAX && id != LOG_ID_EVENTS
    requires |msg| + 1 != PMSG_HEADER_LEN && |msg| + 1 != ANDROID_HEADER_LEN && |msg| + 1 != 1
    requires |text| >= HEADER_SIZE && |scratch| == LOGGER_BUFFER_SIZE
    ensures var o1 := Dispatch(f, AndroidHeader(id, tid, sec, nsec), text, scratch);
      var o2 := Dispatch(o1.fields, [prio], text, o1.scratch);
      var o3 := Dispatch(o2.fields, msg + [0], text, o2.scratch);
      o1.out == Some(HeaderChunk(text)) && o2.out == Some(PrefixOf(prio)) && o3.out == Some(msg)
  {
    AndroidHeaderStored(f, id, tid, sec, nsec, text, scratch);
    assert (msg + [0])[..|msg|] == msg;
  }

  /** After an events-log header, a priority and a text chunk are not mirrored either. */
  lemma EventsNotMirrored(f: Fields, chunk: seq<Byte>, text: seq<Byte>, scratch: seq<Byte>)
    requires f.id == LOG_ID_EVENTS && |chunk| >= 1 && |chunk| != ANDROID_HEADER_LEN
    requires |text| >= HEADER_SIZE && |scratch| == LOGGER_BUFFER_SIZE
    ensures Dispatch(f, chunk, text, scratch).out.None?
    ensures Dispatch(f, chunk, text, scratch).scratch == scratch
  {
  }

  /**
   * `logger.msg[0]` is a zero-length array placed where the packed
   * `struct ess_logger` keeps its `buffer` pointer, so the store of a
   * priority byte overwrites the pointer's low byte (the targets are
   * little-endian). As written the pointer afterwards is this.
   */
  function BufferAfterPrefixAsWritten(ptr: Uint64, prio: Byte): (p: Uint64)
  {
    ptr - ptr % 256 + prio
  }

  /**
   * With the page-aligned pointer vmalloc returns, a priority byte p moves
   * the scratch buffer p bytes on; the writes that follow stay inside the
   * three pages, so the mirrored bytes are unaffected.
   */
  lemma PrefixMovesBuffer(ptr: Uint64, prio: Byte)
    requires ptr % PAGE_SIZE == 0 && prio != 0
    ensures BufferAfterPrefixAsWritten(ptr, prio) == ptr + prio != ptr
    ensures BufferAfterPrefixAsWritten(ptr, prio) + HEADER_SIZE <= ptr + LOGGER_BUFFER_SIZE
  {
    DivModUnique(ptr, 256, (ptr / PAGE_SIZE) * 16, 0);
  }

  /** `struct ess_logger`; the priority byte has its own field here. */
  class Logger {
    var len: int
    var id: int
    var pid: int
    var tid: int
    var uid: int
    var tvSec: int
    var tvNsec: int
    var msg0: Byte
    /** The scratch buffer, null when its allocation failed. */
    var buffer: array?<Byte>

    function State(): (f: Fields)
      reads this
      ensures f.id == id && f.msg0 == msg0
    {
      Fields(len, id, pid, tid, uid, tvSec, tvNsec, msg0)
    }

    predicate Valid()
      reads this
    {
      buffer != null ==> buffer.Length == LOGGER_BUFFER_SIZE
    }

    /** The zero-initialised static `logger` after `register_hook_logger` allocated (or failed to allocate) `scratch`. */
    constructor (scratch: array?<Byte>)
      requires scratch != null ==> scratch.Length == LOGGER_BUFFER_SIZE
      ensures Valid() && buffer == scratch && State() == Fields(0, 0, 0, 0, 0, 0, 0, 0)
    {
      len, id, pid, tid, uid, tvSec, tvNsec, msg0 := 0, 0, 0, 0, 0, 0, 0, 0;
      buffer := scratch;
    }

    /** `exynos_ss_combine_pmsg`: the bytes handed to the hook, if any. */
    method CombinePmsg(chunk: seq<Byte>, level: nat, text: seq<Byte>) returns (out: Option<seq<Byte>>)
      requires Valid() && buffer != null && |chunk| >= 1 && |text| >= HEADER_SIZE
      modifies buffer
      ensures var o := Combine(State(), chunk, level, text, old(buffer[..]));
        buffer[..] == o.scratch && out == o.out
    {
      out := None;
      var logbuf := buffer;
      if level == LEVEL_HEADER {
        if id == LOG_ID_EVENTS {
          return;
        }
        var n := Min(|text|, HEADER_SIZE - 1);
        forall k | 0 <= k < n {
          logbuf[k] := text[k];
        }
        logbuf[n] := 0;
        assert logbuf[..] == Printed(old(logbuf[..]), text);
        HeaderChunkPrinted(old(logbuf[..]), text);
        out := Some(logbuf[..Min(|text| - 1, HEADER_SIZE - 1)]);
      } else if level == LEVEL_PREFIX {
        var prio := msg0;
        if id == LOG_ID_EVENTS {
          return;
        }
        logbuf[0] := if prio < |PRIO_CHARS| then PRIO_CHARS[prio] else UNKNOWN_PRIO;
        logbuf[1] := SPACE;
        assert logbuf[..2] == [logbuf[0], logbuf[1]];
        out := Some(logbuf[..2]);
      } else if level == LEVEL_TEXT {
        if id == LOG_ID_EVENTS {
          return;
        }
        if |chunk| == SKIP_COUNT && chunk[|chunk| - STRING_PAD] != 0 {
          return;
        }
        out := Some(chunk[..|chunk| - 1]);
      }
    }

    /**
     * `exynos_ss_hook_pmsg`: -ENOMEM and nothing changed without a scratch
     * buffer; otherwise 0, with the fields, the scratch buffer and the bytes
     * handed to the hook as `Dispatch` gives them. The buffer pointer never
     * changes.
     */
    method HookPmsg(chunk: seq<Byte>, text: seq<Byte>) returns (r: int, out: Option<seq<Byte>>)
      requires Valid() && |chunk| >= 1 && |text| >= HEADER_SIZE
      modifies this, buffer
      ensures Valid() && buffer == old(buffer)
      ensures old(buffer) == null ==> r == -ENOMEM && out.None? && State() == old(State())
      ensures old(buffer) != null ==> (r == 0 &&
        var o := Dispatch(old(State()), chunk, text, old(buffer[..]));
        State() == o.fields && buffer[..] == o.scratch && out == o.out)
    {
      if buffer == null {
        return -ENOMEM, None;
      }
      r := 0;
      if |chunk| == PMSG_HEADER_LEN {
        if chunk[0] != PMSG_MAGIC {
          out := CombinePmsg(chunk, LEVEL_TEXT, text);
        } else {
          pid := U16At(chunk, 5);
          uid := U16At(chunk, 3);
          len := U16At(chunk, 1);
          out := None;
        }
      } else if |chunk| == ANDROID_HEADER_LEN {
        id := chunk[0];
        tid := U16At(chunk, 1);
        tvSec := I32At(chunk, 3);
        tvNsec := I32At(chunk, 7);
        if id > LOG_ID_MAX {
          out := CombinePmsg(chunk, LEVEL_TEXT, text);
        } else {
          out := CombinePmsg(chunk, LEVEL_HEADER, text);
        }
      } else if |chunk| == 1 {
        msg0 := chunk[0];
        out := CombinePmsg(chunk, LEVEL_PREFIX, text);
      } else {
        out := CombinePmsg(chunk, LEVEL_TEXT, text);
      }
    }
  }
}
