/** Big-endian integers and checksummed frames. */
module Frames {
  import opened Outcomes

  function Pow256(w: nat): (p: nat)
    ensures p > 0
  {
    if w == 0 then 1 else 256 * Pow256(w - 1)
  }

  function BigEndian(v: nat, w: nat): (b: seq<Byte>)
    ensures |b| == w
  {
    if w == 0 then [] else BigEndian(v / 256, w - 1) + [v % 256]
  }

  function FromBigEndian(b: seq<Byte>): (v: nat)
    ensures v < Pow256(|b|)
  {
    if b == [] then 0 else FromBigEndian(b[..|b| - 1]) * 256 + b[|b| - 1]
  }

  lemma {:induction false} BigEndianRoundTrip(v: nat, w: nat)
    requires v < Pow256(w)
    ensures FromBigEndian(BigEndian(v, w)) == v
  {
    if w > 0 {
      BigEndianRoundTrip(v / 256, w - 1);
      var b := BigEndian(v, w);
      assert b[..|b| - 1] == BigEndian(v / 256, w - 1);
    }
  }

  /** Writing an integer into a buffer, least significant byte first. */
  method PutUint(buf: array<Byte>, off: nat, w: nat, v: nat)
    requires off + w <= buf.Length
    modifies buf
    ensures buf[off..off + w] == BigEndian(v, w)
    ensures buf[..off] == old(buf[..off]) && buf[off + w..] == old(buf[off + w..])
  {
    var k, x := w, v;
    ghost var after := buf[off + w..];
    while k > 0
      invariant 0 <= k <= w
      invariant BigEndian(v, w) == BigEndian(x, k) + buf[off + k..off + w]
      invariant buf[..off] == old(buf[..off]) && buf[off + w..] == after
    {
      ghost var tail := buf[off + k..off + w];
      k := k - 1;
      buf[off + k] := x % 256;
      assert buf[off + k..off + w] == [x % 256] + tail;
      x := x / 256;
    }
  }

  /** The checksum: any function into 32-bit words. */
  type Checksum = f: seq<Byte> -> int | forall b :: 0 <= f(b) < 0x1_0000_0000 witness (b: seq<Byte>) => 0

  const CRC32: Checksum

  const VERSION := 1
  const HEADER := 16

  function Header(magic: nat, body: seq<Byte>): (h: seq<Byte>)
    ensures |h| == HEADER
  {
    BigEndian(magic, 4) + BigEndian(VERSION, 2) + BigEndian(0, 2) + BigEndian(|body| % 0x1_0000_0000, 4) + BigEndian(CRC32(body), 4)
  }

  function Frame(magic: nat, body: seq<Byte>): seq<Byte> {
    Header(magic, body) + body
  }

  method FrameHeader(magic: nat, body: seq<Byte>) returns (hdr: array<Byte>)
    ensures fresh(hdr) && hdr[..] == Header(magic, body)
  {
    hdr := new Byte[HEADER];
    hide BigEndian;
    PutUint(hdr, 0, 4, magic);
    PutUint(hdr, 4, 2, VERSION);
    assert hdr[..6] == hdr[..4] + hdr[4..6];
    PutUint(hdr, 6, 2, 0);
    assert hdr[..8] == hdr[..6] + hdr[6..8];
    PutUint(hdr, 8, 4, |body| % 0x1_0000_0000);
    assert hdr[..12] == hdr[..8] + hdr[8..12];
    PutUint(hdr, 12, 4, CRC32(body));
    assert hdr[..] == hdr[..12] + hdr[12..16];
  }

  datatype ReadError = Missing | Short | BadMagic | BadLength | ChecksumMismatch | BadBody

  /** Reading a frame; want is the body length insisted on, if any. */
  function Unframe(magic: nat, want: Option<nat>, file: seq<Byte>): (r: Result<seq<Byte>, ReadError>)
    ensures r.Ok? && want.Some? ==> |r.value| == want.value
  {
    if |file| < HEADER then Err(Short)
    else if FromBigEndian(file[0..4]) != magic then Err(BadMagic)
    else
      var length := FromBigEndian(file[8..12]);
      if want.Some? && length != want.value then Err(BadLength)
      else if |file| < HEADER + length then Err(Short)
      else
        var body := file[HEADER..HEADER + length];
        if CRC32(body) != FromBigEndian(file[12..16]) then Err(ChecksumMismatch) else Ok(body)
  }

  lemma Pow256Values()
    ensures Pow256(4) == 0x1_0000_0000 && Pow256(8) == 0x1_0000_0000_0000_0000
  {
    assert Pow256(2) == 65536;
    assert Pow256(4) == 256 * (256 * Pow256(2));
    assert Pow256(6) == 256 * (256 * Pow256(4));
    assert Pow256(8) == 256 * (256 * Pow256(6));
  }

  lemma HeaderFields(magic: nat, body: seq<Byte>, file: seq<Byte>)
    requires magic < 0x1_0000_0000 && |file| >= HEADER && file[..HEADER] == Header(magic, body)
    ensures FromBigEndian(file[0..4]) == magic
    ensures FromBigEndian(file[8..12]) == |body| % 0x1_0000_0000
    ensures FromBigEndian(file[12..16]) == CRC32(body)
  {
    Pow256Values();
    BigEndianRoundTrip(magic, 4);
    BigEndianRoundTrip(|body| % 0x1_0000_0000, 4);
    BigEndianRoundTrip(CRC32(body), 4);
    hide BigEndian;
    hide FromBigEndian;
    hide Pow256;
    assert forall i :: 0 <= i < HEADER ==> file[i] == Header(magic, body)[i];
    assert file[0..4] == BigEndian(magic, 4);
    assert file[8..12] == BigEndian(|body| % 0x1_0000_0000, 4);
    assert file[12..16] == BigEndian(CRC32(body), 4);
  }

  /** A frame reads back, whatever follows it in the file. */
  lemma FrameRoundTrip(magic: nat, want: Option<nat>, body: seq<Byte>, extra: seq<Byte>)
    requires magic < 0x1_0000_0000 && |body| < 0x1_0000_0000 && (want.Some? ==> want.value == |body|)
    ensures Unframe(magic, want, Frame(magic, body) + extra) == Ok(body)
  {
    var file := Frame(magic, body) + extra;
    assert file[..HEADER] == Header(magic, body);
    HeaderFields(magic, body, file);
    assert file[HEADER..HEADER + |body|] == body;
  }

  /** Four bytes as a number, the first weighing most. */
  function Word(a: Byte, b: Byte, c: Byte, d: Byte): int {
    a * 0x100_0000 + b * 0x1_0000 + c * 0x100 + d
  }

  lemma WordOf(b: seq<Byte>)
    requires |b| == 4
    ensures FromBigEndian(b) == Word(b[0], b[1], b[2], b[3])
  {
    var b3, b2, b1 := b[..3], b[..2], b[..1];
    assert b3[..2] == b2 && b2[..1] == b1 && b1[..0] == [];
    assert FromBigEndian(b1) == b[0];
    assert FromBigEndian(b2) == FromBigEndian(b1) * 256 + b[1];
    assert FromBigEndian(b3) == FromBigEndian(b2) * 256 + b[2];
  }

  lemma WordBytes(a: Byte, b: Byte, c: Byte, d: Byte)
    ensures BigEndian(Word(a, b, c, d), 4) == [a, b, c, d]
  {
    var v := Word(a, b, c, d);
    var v1 := a * 0x1_0000 + b * 0x100 + c;
    var v2 := a * 0x100 + b;
    assert v / 256 == v1 && v % 256 == d;
    assert v1 / 256 == v2 && v1 % 256 == c;
    assert v2 / 256 == a && v2 % 256 == b;
    assert BigEndian(a, 1) == [a];
    assert BigEndian(v2, 2) == BigEndian(a, 1) + [b];
    assert BigEndian(v1, 3) == BigEndian(v2, 2) + [c];
  }

  /** Exactly which files read as a frame: the magic number, a length that is the one
      insisted on and does not pass the end, and the checksum of the body. The version is
      not looked at, nor what follows the body. */
  lemma UnframeExact(magic: nat, want: Option<nat>, file: seq<Byte>)
    ensures Unframe(magic, want, file).Ok? <==>
      && 16 <= |file|
      && Word(file[0], file[1], file[2], file[3]) == magic
      && var length := Word(file[8], file[9], file[10], file[11]);
         && (want.Some? ==> length == want.value)
         && 16 + length <= |file|
         && CRC32(file[16..16 + length]) == Word(file[12], file[13], file[14], file[15])
    ensures Unframe(magic, want, file).Ok? ==>
      var length := Word(file[8], file[9], file[10], file[11]);
      Unframe(magic, want, file).value == file[16..16 + length]
  {
    if |file| >= 16 {
      WordOf(file[0..4]);
      WordOf(file[8..12]);
      WordOf(file[12..16]);
      hide FromBigEndian;
    }
  }

  /** A body of the right length whose checksum is not the header's is rejected. */
  lemma ChecksumRejected(magic: nat, want: Option<nat>, body: seq<Byte>, found: seq<Byte>)
    requires magic < 0x1_0000_0000 && |body| < 0x1_0000_0000 && (want.Some? ==> want.value == |body|)
    requires |found| == |body| && CRC32(found) != CRC32(body)
    ensures Unframe(magic, want, Header(magic, body) + found) == Err(ChecksumMismatch)
  {
    var file := Header(magic, body) + found;
    assert file[..HEADER] == Header(magic, body);
    HeaderFields(magic, body, file);
    hide FromBigEndian;
    assert file[HEADER..HEADER + |body|] == found;
  }

  /** A body too long for the length field: at best a strict prefix of it reads back. */
  lemma LongFrame(magic: nat, body: seq<Byte>)
    requires magic < 0x1_0000_0000 && |body| >= 0x1_0000_0000
    ensures var r, l := Unframe(magic, None, Frame(magic, body)), |body| % 0x1_0000_0000;
            l < |body| && r == if CRC32(body[..l]) == CRC32(body) then Ok(body[..l]) else Err(ChecksumMismatch)
  {
    var file, l := Frame(magic, body), |body| % 0x1_0000_0000;
    assert file[..HEADER] == Header(magic, body);
    HeaderFields(magic, body, file);
    assert file[HEADER..HEADER + l] == body[..l];
  }

  /** Every strict prefix of a frame is rejected. */
  lemma FramePrefixRejected(magic: nat, want: Option<nat>, body: seq<Byte>, n: nat)
    requires magic < 0x1_0000_0000 && |body| < 0x1_0000_0000 && (want.Some? ==> want.value == |body|)
    requires n < |Frame(magic, body)|
    ensures Unframe(magic, want, Frame(magic, body)[..n]) == Err(Short)
  {
    var file := Frame(magic, body)[..n];
    if n >= HEADER {
      assert file[..HEADER] == Header(magic, body);
      HeaderFields(magic, body, file);
    }
  }
}

/** Replacing a file so that a crash at any point loses nothing: write a temporary file,
    move the old file to a backup, move the temporary file into place. */
module CrashSafe {
  import opened Outcomes
  import opened Frames

  type File = Option<seq<Byte>>

  datatype Disk = Disk(main: File, bak: File, tmp: File)

  const EMPTY := Disk(None, None, None)

  /** One attempt to save: how many of its four steps took effect before a crash or an
      error, what a torn write leaves in the temporary file, and whether moving the old
      file to the backup succeeds (its failure is ignored). */
  datatype Attempt = Attempt(bytes: seq<Byte>, steps: nat, torn: seq<Byte>, moved: bool)

  predicate Promoted(a: Attempt) {
    a.steps >= 4
  }

  function BackUp(d: Disk, moved: bool): Disk {
    if d.main.Some? && moved then d.(main := None, bak := d.main) else d
  }

  /** The disk once the attempt's steps have taken effect. */
  function Save(d: Disk, a: Attempt): Disk {
    if a.steps == 0 then d
    else if a.steps == 1 then d.(tmp := Some(a.torn))
    else if a.steps == 2 then d.(tmp := Some(a.bytes))
    else if a.steps == 3 then BackUp(d, a.moved).(tmp := Some(a.bytes))
    else BackUp(d, a.moved).(main := Some(a.bytes), tmp := None)
  }

  function SaveAll(d: Disk, attempts: seq<Attempt>): Disk {
    if attempts == [] then d else Save(SaveAll(d, attempts[..|attempts| - 1]), attempts[|attempts| - 1])
  }

  function ReadFile<T>(read: seq<Byte> -> Result<T, ReadError>, f: File): Result<T, ReadError> {
    if f.None? then Err(Missing) else read(f.value)
  }

  /** The main file, or failing that the backup. */
  function Load<T>(read: seq<Byte> -> Result<T, ReadError>, d: Disk): Result<T, ReadError> {
    if ReadFile(read, d.main).Ok? then ReadFile(read, d.main)
    else if ReadFile(read, d.bak).Ok? then ReadFile(read, d.bak)
    else Err(Missing)
  }

  /** The last attempt that got as far as moving its file into place, or -1. */
  function LastPromoted(attempts: seq<Attempt>): (j: int)
    ensures -1 <= j < |attempts|
    ensures j >= 0 ==> Promoted(attempts[j])
    ensures forall i :: j < i < |attempts| ==> !Promoted(attempts[i])
  {
    if attempts == [] then -1
    else if Promoted(attempts[|attempts| - 1]) then |attempts| - 1
    else LastPromoted(attempts[..|attempts| - 1])
  }

  function BytesOf(attempts: seq<Attempt>, j: int): Option<seq<Byte>>
    requires j < |attempts|
  {
    if j < 0 then None else Some(attempts[j].bytes)
  }

  /** The bytes are in the main file, or only in the backup. */
  ghost predicate Keeps(d: Disk, bytes: Option<seq<Byte>>) {
    if bytes.None? then d.main.None? && d.bak.None?
    else d.main == bytes || (d.main.None? && d.bak == bytes)
  }

  lemma {:induction false} KeepsLast(attempts: seq<Attempt>)
    ensures Keeps(SaveAll(EMPTY, attempts), BytesOf(attempts, LastPromoted(attempts)))
  {
    if attempts != [] {
      KeepsLast(attempts[..|attempts| - 1]);
    }
  }

  /** Crash safety: after any sequence of attempts, each cut short at any step and torn in
      any way, loading gives what the last promoted attempt wrote. In particular a
      completed save is only ever replaced by a later one, as a whole. */
  lemma {:induction false} LoadsLast<T>(read: seq<Byte> -> Result<T, ReadError>, attempts: seq<Attempt>)
    requires forall i :: 0 <= i < |attempts| ==> read(attempts[i].bytes).Ok?
    ensures var j := LastPromoted(attempts);
            Load(read, SaveAll(EMPTY, attempts)) == if j < 0 then Err(Missing) else read(attempts[j].bytes)
  {
    KeepsLast(attempts);
  }

  /** When every move to the backup succeeds, a main file is the last promoted attempt's and
      the backup the one promoted before it. */
  ghost predicate KeepsTwo(d: Disk, attempts: seq<Attempt>) {
    var j := LastPromoted(attempts);
    if d.main.None? then d.bak == BytesOf(attempts, j)
    else j >= 0 && d.main == BytesOf(attempts, j) && d.bak == BytesOf(attempts, LastPromoted(attempts[..j]))
  }

  lemma KeepsTwoStep(d: Disk, attempts: seq<Attempt>)
    requires attempts != [] && attempts[|attempts| - 1].moved && KeepsTwo(d, attempts[..|attempts| - 1])
    requires var before := attempts[..|attempts| - 1];
             LastPromoted(before) >= 0 ==> before[..LastPromoted(before)] == attempts[..LastPromoted(before)]
    ensures KeepsTwo(Save(d, attempts[|attempts| - 1]), attempts)
  {
  }

  lemma {:induction false} BackupIsPrevious(attempts: seq<Attempt>)
    requires forall i :: 0 <= i < |attempts| ==> attempts[i].moved
    ensures KeepsTwo(SaveAll(EMPTY, attempts), attempts)
  {
    if attempts != [] {
      hide Save;
      hide KeepsTwo;
      var n := |attempts| - 1;
      var before := attempts[..n];
      BackupIsPrevious(before);
      var j := LastPromoted(before);
      assert j >= 0 ==> before[..j] == attempts[..j];
      KeepsTwoStep(SaveAll(EMPTY, before), attempts);
    }
  }

  /** A main file that went bad costs one save at most: loading gives what the attempt
      promoted before the last one wrote. */
  lemma CorruptMain<T>(read: seq<Byte> -> Result<T, ReadError>, attempts: seq<Attempt>, bad: seq<Byte>)
    requires forall i :: 0 <= i < |attempts| ==> read(attempts[i].bytes).Ok? && attempts[i].moved
    requires SaveAll(EMPTY, attempts).main.Some? && read(bad).Err?
    ensures LastPromoted(attempts) >= 0
    ensures var i := LastPromoted(attempts[..LastPromoted(attempts)]);
            Load(read, SaveAll(EMPTY, attempts).(main := Some(bad))) == if i < 0 then Err(Missing) else read(attempts[i].bytes)
  {
    BackupIsPrevious(attempts);
  }
}

/** The last-state file of internal/state/file_store.go and the session file of
    internal/tss/dkg/beast_session_store.go. */
module FileStore {
  import opened Outcomes
  import opened Frames
  import opened CrashSafe

  const STATE_MAGIC := 0x53544442
  const SESSION_MAGIC := 0x42445353

  type Word64 = w: int | 0 <= w < 0x1_0000_0000_0000_0000

  datatype LastState = LastState(height: Word64, round: Word64)

  function Payload(s: LastState): (b: seq<Byte>)
    ensures |b| == 16
  {
    BigEndian(s.height, 8) + BigEndian(s.round, 8)
  }

  function Encode(s: LastState): seq<Byte> {
    Frame(STATE_MAGIC, Payload(s))
  }

  function Decode(file: seq<Byte>): Result<LastState, ReadError> {
    match Unframe(STATE_MAGIC, Some(16), file)
    case Err(e) => Err(e)
    case Ok(body) =>
      Pow256Values();
      Ok(LastState(FromBigEndian(body[..8]), FromBigEndian(body[8..])))
  }

  /** The codec round-trips for all pairs of 64-bit integers. */
  lemma LastStateRoundTrip(s: LastState)
    ensures Decode(Encode(s)) == Ok(s)
  {
    FrameRoundTrip(STATE_MAGIC, Some(16), Payload(s), []);
    assert Encode(s) + [] == Encode(s);
    Pow256Values();
    BigEndianRoundTrip(s.height, 8);
    BigEndianRoundTrip(s.round, 8);
    assert Payload(s)[..8] == BigEndian(s.height, 8) && Payload(s)[8..] == BigEndian(s.round, 8);
  }

  /** And it rejects every strict prefix, so a torn file is never taken for a state. */
  lemma TornStateRejected(s: LastState, n: nat)
    requires n < |Encode(s)|
    ensures Decode(Encode(s)[..n]) == Err(Short)
  {
    FramePrefixRejected(STATE_MAGIC, Some(16), Payload(s), n);
  }

  /** A session is framed the same way around its serialised body. */
  function EncodeSession(body: seq<Byte>): seq<Byte> {
    Frame(SESSION_MAGIC, body)
  }

  function DecodeSession(file: seq<Byte>): Result<seq<Byte>, ReadError> {
    Unframe(SESSION_MAGIC, None, file)
  }

  /** A session reads back if and only if its length fits the 32-bit field; every strict
      prefix of one that fits is rejected. */
  lemma SessionRoundTrip(body: seq<Byte>, n: nat)
    ensures DecodeSession(EncodeSession(body)) == Ok(body) <==> |body| < 0x1_0000_0000
    ensures |body| < 0x1_0000_0000 && n < |EncodeSession(body)| ==> DecodeSession(EncodeSession(body)[..n]) == Err(Short)
  {
    if |body| < 0x1_0000_0000 {
      FrameRoundTrip(SESSION_MAGIC, None, body, []);
      assert EncodeSession(body) + [] == EncodeSession(body);
      if n < |EncodeSession(body)| {
        FramePrefixRejected(SESSION_MAGIC, None, body, n);
      }
    } else {
      LongFrame(SESSION_MAGIC, body);
    }
  }

  /** The fixed part of the two headers, byte by byte. */
  lemma HeaderLayout(s: LastState, body: seq<Byte>)
    ensures Encode(s)[..12] == [0x53, 0x54, 0x44, 0x42, 0, 1, 0, 0, 0, 0, 0, 16] && |Encode(s)| == 32
    ensures EncodeSession(body)[..8] == [0x42, 0x44, 0x53, 0x53, 0, 1, 0, 0] && |EncodeSession(body)| == 16 + |body|
  {
    hide BigEndian;
    HeaderBytes(0x53, 0x54, 0x44, 0x42, Payload(s));
    HeaderBytes(0x42, 0x44, 0x53, 0x53, body);
    WordBytes(0, 0, 0, 16);
    assert Encode(s)[..12] == Header(STATE_MAGIC, Payload(s))[..12];
    assert EncodeSession(body)[..8] == Header(SESSION_MAGIC, body)[..8];
  }

  lemma HeaderBytes(a: Byte, b: Byte, c: Byte, d: Byte, body: seq<Byte>)
    ensures var h := Header(Word(a, b, c, d), body);
            h[..8] == [a, b, c, d] + [0, 1] + [0, 0] && h[..12] == h[..8] + BigEndian(|body| % 0x1_0000_0000, 4)
  {
    hide BigEndian;
    hide Word;
    WordBytes(a, b, c, d);
    SmallBytes();
    var fixed, length := [a, b, c, d] + [0, 1] + [0, 0], BigEndian(|body| % 0x1_0000_0000, 4);
    Prefixes(fixed, length, BigEndian(CRC32(body), 4));
  }

  lemma Prefixes(fixed: seq<Byte>, length: seq<Byte>, sum: seq<Byte>)
    requires |fixed| == 8 && |length| == 4
    ensures (fixed + length + sum)[..8] == fixed && (fixed + length + sum)[..12] == fixed + length
  {
  }

  lemma SmallBytes()
    ensures BigEndian(VERSION, 2) == [0, 1] && BigEndian(0, 2) == [0, 0]
  {
    assert BigEndian(0, 1) == [0];
  }

  /** Exactly which files read as a state, and what is read. */
  lemma DecodeExact(file: seq<Byte>)
    ensures Decode(file).Ok? <==>
      && 32 <= |file|
      && file[0..4] == [0x53, 0x54, 0x44, 0x42] && file[8..12] == [0, 0, 0, 16]
      && CRC32(file[16..32]) == Word(file[12], file[13], file[14], file[15])
    ensures Decode(file).Ok? ==>
      Decode(file).value == LastState(
        Word(file[16], file[17], file[18], file[19]) * 0x1_0000_0000 + Word(file[20], file[21], file[22], file[23]),
        Word(file[24], file[25], file[26], file[27]) * 0x1_0000_0000 + Word(file[28], file[29], file[30], file[31]))
  {
    hide Unframe;
    hide Word;
    hide FromBigEndian;
    UnframeExact(STATE_MAGIC, Some(16), file);
    if 32 <= |file| {
      BytesOfWord(file[0..4], 0x53, 0x54, 0x44, 0x42);
      BytesOfWord(file[8..12], 0, 0, 0, 16);
      MagicWords();
      var body := file[16..32];
      DoubleWord(body[..8]);
      DoubleWord(body[8..]);
      assert body[..8] == file[16..24] && body[8..] == file[24..32];
    }
  }

  lemma MagicWords()
    ensures Word(0x53, 0x54, 0x44, 0x42) == STATE_MAGIC && Word(0x42, 0x44, 0x53, 0x53) == SESSION_MAGIC && Word(0, 0, 0, 16) == 16
  {
  }

  /** Four bytes are told by the number they stand for. */
  lemma BytesOfWord(s: seq<Byte>, a: Byte, b: Byte, c: Byte, d: Byte)
    requires |s| == 4
    ensures Word(s[0], s[1], s[2], s[3]) == Word(a, b, c, d) <==> s == [a, b, c, d]
  {
    assert s == [a, b, c, d] <==> s[0] == a && s[1] == b && s[2] == c && s[3] == d;
  }

  lemma DoubleWord(b: seq<Byte>)
    requires |b| == 8
    ensures FromBigEndian(b) == Word(b[0], b[1], b[2], b[3]) * 0x1_0000_0000 + Word(b[4], b[5], b[6], b[7])
  {
    WordOf(b[..4]);
    var b7, b6, b5, b4 := b[..7], b[..6], b[..5], b[..4];
    assert b7[..6] == b6 && b6[..5] == b5 && b5[..4] == b4;
    assert FromBigEndian(b5) == FromBigEndian(b4) * 256 + b[4];
    assert FromBigEndian(b6) == FromBigEndian(b5) * 256 + b[5];
    assert FromBigEndian(b7) == FromBigEndian(b6) * 256 + b[6];
  }

  /** Exactly which files read as a session, and what is read. */
  lemma DecodeSessionExact(file: seq<Byte>)
    ensures DecodeSession(file).Ok? <==>
      && 16 <= |file|
      && file[0..4] == [0x42, 0x44, 0x53, 0x53]
      && var length := Word(file[8], file[9], file[10], file[11]);
         16 + length <= |file| && CRC32(file[16..16 + length]) == Word(file[12], file[13], file[14], file[15])
    ensures DecodeSession(file).Ok? ==> DecodeSession(file).value == file[16..16 + Word(file[8], file[9], file[10], file[11])]
  {
    hide Unframe;
    hide Word;
    UnframeExact(SESSION_MAGIC, None, file);
    if 16 <= |file| {
      BytesOfWord(file[0..4], 0x42, 0x44, 0x53, 0x53);
      MagicWords();
    }
  }

  /** A state or session whose body no longer matches its checksum is rejected. */
  lemma CorruptBodyRejected(s: LastState, body: seq<Byte>, found: seq<Byte>)
    ensures |found| == 16 && CRC32(found) != CRC32(Payload(s)) ==> Decode(Encode(s)[..16] + found) == Err(ChecksumMismatch)
    ensures |body| < 0x1_0000_0000 && |found| == |body| && CRC32(found) != CRC32(body) ==>
      DecodeSession(EncodeSession(body)[..16] + found) == Err(ChecksumMismatch)
  {
    if |found| == 16 && CRC32(found) != CRC32(Payload(s)) {
      ChecksumRejected(STATE_MAGIC, Some(16), Payload(s), found);
      assert Encode(s)[..16] == Header(STATE_MAGIC, Payload(s));
    }
    if |body| < 0x1_0000_0000 && |found| == |body| && CRC32(found) != CRC32(body) {
      ChecksumRejected(SESSION_MAGIC, None, body, found);
      assert EncodeSession(body)[..16] == Header(SESSION_MAGIC, body);
    }
  }

  /** Neither file is ever taken for the other. */
  lemma FilesApart(s: LastState, body: seq<Byte>)
    ensures Decode(EncodeSession(body)) == Err(BadMagic) && DecodeSession(Encode(s)) == Err(BadMagic)
  {
    HeaderFields(SESSION_MAGIC, body, EncodeSession(body));
    HeaderFields(STATE_MAGIC, Payload(s), Encode(s));
  }

  /** Over any sequence of saves and crashes, the state loaded is the last one promoted. */
  lemma {:induction false} StateCrashSafe(states: seq<LastState>, attempts: seq<Attempt>)
    requires |states| == |attempts| && forall i :: 0 <= i < |states| ==> attempts[i].bytes == Encode(states[i])
    ensures var j := LastPromoted(attempts);
            Load(Decode, SaveAll(EMPTY, attempts)) == if j < 0 then Err(Missing) else Ok(states[j])
  {
    forall i | 0 <= i < |attempts|
      ensures Decode(attempts[i].bytes) == Ok(states[i])
    {
      LastStateRoundTrip(states[i]);
    }
    LoadsLast(Decode, attempts);
  }

  /** The same for session files. */
  lemma {:induction false} SessionCrashSafe(bodies: seq<seq<Byte>>, attempts: seq<Attempt>)
    requires |bodies| == |attempts|
    requires forall i :: 0 <= i < |bodies| ==> attempts[i].bytes == EncodeSession(bodies[i]) && |bodies[i]| < 0x1_0000_0000
    ensures var j := LastPromoted(attempts);
            Load(DecodeSession, SaveAll(EMPTY, attempts)) == if j < 0 then Err(Missing) else Ok(bodies[j])
  {
    forall i | 0 <= i < |attempts|
      ensures DecodeSession(attempts[i].bytes) == Ok(bodies[i])
    {
      SessionRoundTrip(bodies[i], 0);
    }
    hide EncodeSession;
    LoadsLast(DecodeSession, attempts);
  }

  /** With every backup made, a state file that goes bad costs one save at most. */
  lemma {:induction false} StateFallback(states: seq<LastState>, attempts: seq<Attempt>, bad: seq<Byte>)
    requires |states| == |attempts|
    requires forall i :: 0 <= i < |states| ==> attempts[i].bytes == Encode(states[i]) && attempts[i].moved
    requires SaveAll(EMPTY, attempts).main.Some? && Decode(bad).Err?
    ensures LastPromoted(attempts) >= 0
    ensures var i := LastPromoted(attempts[..LastPromoted(attempts)]);
            Load(Decode, SaveAll(EMPTY, attempts).(main := Some(bad))) == if i < 0 then Err(Missing) else Ok(states[i])
  {
    forall i | 0 <= i < |attempts|
      ensures Decode(attempts[i].bytes) == Ok(states[i])
    {
      LastStateRoundTrip(states[i]);
    }
    hide Decode;
    hide Encode;
    CorruptMain(Decode, attempts, bad);
  }

  /** The store object over the three files. */
  class Store {
    var main: File
    var bak: File
    var tmp: File
    /** Every attempt to save made so far. */
    ghost var attempts: seq<Attempt>

    ghost predicate Valid()
      reads this
    {
      Disk(main, bak, tmp) == SaveAll(EMPTY, attempts)
    }

    constructor ()
      ensures Valid() && attempts == []
    {
      main, bak, tmp, attempts := None, None, None, [];
    }

    /** Saves, unless a crash or an error stops it after the given number of steps. */
    method WriteFileAtomic(s: LastState, steps: nat, torn: seq<Byte>, moved: bool) returns (ok: bool)
      requires Valid()
      modifies this
      ensures Valid() && attempts == old(attempts) + [Attempt(Encode(s), steps, torn, moved)]
      ensures ok <==> steps >= 4
    {
      var payload := Payload(s);
      var hdr := FrameHeader(STATE_MAGIC, payload);
      var bytes := hdr[..] + payload;
      attempts := attempts + [Attempt(bytes, steps, torn, moved)];
      assert attempts[..|attempts| - 1] == old(attempts);
      ok := false;
      if steps == 0 {
        return;
      }
      tmp := Some(torn);
      if steps == 1 {
        return;
      }
      tmp := Some(bytes);
      if steps == 2 {
        return;
      }
      if main.Some? && moved {
        bak := main;
        main := None;
      }
      if steps == 3 {
        return;
      }
      main := tmp;
      tmp := None;
      ok := true;
    }

    method LoadLastState() returns (r: Result<LastState, ReadError>)
      ensures r == Load(Decode, Disk(main, bak, tmp))
      ensures main.Some? && Decode(main.value).Ok? ==> r == Decode(main.value)
      ensures (main.Some? ==> Decode(main.value).Err?) && bak.Some? && Decode(bak.value).Ok? ==> r == Decode(bak.value)
      ensures (main.Some? ==> Decode(main.value).Err?) && (bak.Some? ==> Decode(bak.value).Err?) ==> r == Err(Missing)
    {
      hide Decode;
      r := ReadFile(Decode, main);
      if r.Ok? {
        return;
      }
      r := ReadFile(Decode, bak);
      if r.Ok? {
        return;
      }
      r := Err(Missing);
    }
  }
}
