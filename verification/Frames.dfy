/** Frames inside a decrypted payload: the writers (src/wire/frame.h) and the parse loops. */
module Frames {
  import opened Bytes

  const UNRELIABLE_DATA: Byte := 0x03
  const RELIABLE_DATA: Byte := 0x04
  const FRAGMENT_DATA: Byte := 0x05
  const DISCONNECT: Byte := 0x06

  datatype Frame =
    | Unreliable(channel: Byte, data: seq<Byte>)
    | Reliable(channel: Byte, sequence: int, data: seq<Byte>)
    | Fragment(channel: Byte, id: int, index: Byte, count: Byte, data: seq<Byte>)
    | Disconnect(reason: Byte)

  // ---------------------------------------------------------------- what the writers produce

  /** The length and number fields are cast to 16 bits. */
  function Encode(f: Frame): seq<Byte> {
    match f
    case Unreliable(ch, data) => [UNRELIABLE_DATA, ch] + Put16(Cast16(|data|)) + data
    case Reliable(ch, sequence, data) =>
      [RELIABLE_DATA, ch] + Put16(Cast16(sequence)) + Put16(Cast16(|data|)) + data
    case Fragment(ch, id, index, count, data) => [FRAGMENT_DATA, ch] + Put16(Cast16(id)) + [index, count] + data
    case Disconnect(reason) => [DISCONNECT, reason]
  }

  function EncodeAll(fs: seq<Frame>): seq<Byte> {
    if fs == [] then [] else Encode(fs[0]) + EncodeAll(fs[1..])
  }

  /** Writes an unreliable frame at `at`, or returns -1 if `avail` bytes are not enough. */
  method WriteUnreliable(buf: array<Byte>, at: nat, avail: int, channel: Byte, data: seq<Byte>) returns (n: int)
    requires at + avail <= buf.Length
    modifies buf
    ensures n == if 4 + |data| > avail then -1 else 4 + |data|
    ensures n == -1 ==> buf[..] == old(buf[..])
    ensures n != -1 ==> |Encode(Unreliable(channel, data))| == n
    ensures n != -1 ==> buf[..] == Splice(old(buf[..]), at, Encode(Unreliable(channel, data)))
  {
    n := 4 + |data|;
    if n > avail {
      return -1;
    }
    CopyInto(buf, at, Encode(Unreliable(channel, data)));
  }

  /** Writes a reliable frame at `at`, or returns -1 if `avail` bytes are not enough. */
  method WriteReliable(buf: array<Byte>, at: nat, avail: int, channel: Byte, sequence: int, data: seq<Byte>)
    returns (n: int)
    requires at + avail <= buf.Length
    modifies buf
    ensures n == if 6 + |data| > avail then -1 else 6 + |data|
    ensures n == -1 ==> buf[..] == old(buf[..])
    ensures n != -1 ==> |Encode(Reliable(channel, sequence, data))| == n
    ensures n != -1 ==> buf[..] == Splice(old(buf[..]), at, Encode(Reliable(channel, sequence, data)))
  {
    n := 6 + |data|;
    if n > avail {
      return -1;
    }
    CopyInto(buf, at, Encode(Reliable(channel, sequence, data)));
  }

  // ---------------------------------------------------------------- parsing

  /** One round of the parse loop: stop, take a last frame, or take a frame of `size` bytes. */
  datatype Reading = Stop | Last(frame: Frame) | More(next: Frame, size: nat)

  /** Reads one frame from `b`; anything malformed stops the loop.  Fragments are only
      understood by the server. */
  function Read(b: seq<Byte>, channels: nat, fragments: bool): (r: Reading)
    requires b != []
    ensures r.More? ==> 0 < r.size <= |b|
  {
    if b[0] == UNRELIABLE_DATA && |b| >= 4 then
      var end := 4 + Le16(b[2], b[3]);
      if end > |b| || b[1] as int >= channels then Stop else More(Unreliable(b[1], b[4..end]), end)
    else if b[0] == RELIABLE_DATA && |b| >= 6 then
      var end := 6 + Le16(b[4], b[5]);
      if end > |b| || b[1] as int >= channels then Stop
      else More(Reliable(b[1], Le16(b[2], b[3]), b[6..end]), end)
    else if fragments && b[0] == FRAGMENT_DATA && |b| > 6 then
      Last(Fragment(b[1], Le16(b[2], b[3]), b[4], b[5], b[6..]))
    else if b[0] == DISCONNECT then Last(Disconnect(if |b| > 1 then b[1] else 0))
    else Stop
  }

  /** All frames read from `b`. */
  function Parse(b: seq<Byte>, channels: nat, fragments: bool): seq<Frame>
    decreases |b|
  {
    if b == [] then [] else
      match Read(b, channels, fragments)
      case Stop => []
      case Last(f) => [f]
      case More(f, size) => [f] + Parse(b[size..], channels, fragments)
  }

  /** `done` are the first frames of `all`, and reading from `pos` on gives the others. */
  ghost predicate Halfway(all: seq<Frame>, done: nat, pt: seq<Byte>, pos: nat, channels: nat, fragments: bool) {
    done <= |all| && pos <= |pt| && all[done..] == Parse(pt[pos..], channels, fragments)
  }

  /** One round of the loop. */
  lemma ParseStep(all: seq<Frame>, done: nat, pt: seq<Byte>, pos: nat, channels: nat, fragments: bool, r: Reading)
    requires Halfway(all, done, pt, pos, channels, fragments) && pos < |pt| && r == Read(pt[pos..], channels, fragments)
    ensures r.Stop? ==> done == |all|
    ensures r.Last? ==> done + 1 == |all| && all[done] == r.frame
    ensures r.More? ==> done < |all| && all[done] == r.next
    ensures r.More? ==> Halfway(all, done + 1, pt, pos + r.size, channels, fragments)
  {
    var rest := all[done..];
    if r.More? {
      assert pt[pos..][r.size..] == pt[pos + r.size..];
      assert rest[1..] == all[done + 1..];
      assert rest[0] == all[done];
    } else if r.Last? {
      assert rest[0] == all[done];
    }
  }

  /** The receive loop over a decrypted payload, whose first eight bytes are the ack fields. */
  method ParsePayload(pt: seq<Byte>, channels: nat, fragments: bool) returns (frames: seq<Frame>)
    ensures frames == if |pt| < 8 then [] else Parse(pt[8..], channels, fragments)
  {
    frames := [];
    if |pt| < 8 {
      return;
    }
    ghost var all := Parse(pt[8..], channels, fragments);
    var pos, more := 8, true;
    while more && pos < |pt|
      invariant more ==> Halfway(all, |frames|, pt, pos, channels, fragments) && frames == all[..|frames|]
      invariant !more ==> frames == all
      decreases more, |pt| - pos
    {
      frames, pos, more := ParseRound(pt, pos, channels, fragments, frames, all);
    }
  }

  lemma PrefixGrows(all: seq<Frame>, n: nat)
    requires n <= |all|
    ensures n < |all| ==> all[..n] + [all[n]] == all[..n + 1]
    ensures n == |all| ==> all[..n] == all
    ensures n + 1 == |all| ==> all[..n + 1] == all
  {
  }

  method ParseRound(pt: seq<Byte>, pos0: nat, channels: nat, fragments: bool, frames0: seq<Frame>,
                    ghost all: seq<Frame>)
    returns (frames: seq<Frame>, pos: nat, more: bool)
    requires Halfway(all, |frames0|, pt, pos0, channels, fragments) && pos0 < |pt| && frames0 == all[..|frames0|]
    ensures more ==> pos0 < pos && Halfway(all, |frames|, pt, pos, channels, fragments) && frames == all[..|frames|]
    ensures !more ==> frames == all
  {
    frames, pos, more := frames0, pos0, false;
    var r := ReadFrame(pt, pos, channels, fragments);
    ParseStep(all, |frames|, pt, pos, channels, fragments, r);
    PrefixGrows(all, |frames|);
    match r
    case Stop =>
    case Last(f) => frames := frames + [f];
    case More(f, size) => frames, pos, more := frames + [f], pos + size, true;
  }

  lemma SubSlice(pt: seq<Byte>, start: nat, i: nat, j: nat)
    requires start <= |pt| && i <= j <= |pt| - start
    ensures pt[start..][i..j] == pt[start + i..start + j]
  {
  }

  /** The frame at `start`, read byte by byte from the payload. */
  method ReadFrame(pt: seq<Byte>, start: nat, channels: nat, fragments: bool) returns (r: Reading)
    requires start < |pt|
    ensures r == Read(pt[start..], channels, fragments)
  {
    ghost var b := pt[start..];
    assert forall i :: 0 <= i < |b| ==> b[i] == pt[start + i];
    var kind := pt[start];
    var pos := start + 1;
    if kind == UNRELIABLE_DATA && pos + 3 <= |pt| {
      var ch, length := pt[pos], Le16(pt[pos + 1], pt[pos + 2]);
      pos := pos + 3;
      if pos + length > |pt| || ch as int >= channels {
        return Stop;
      }
      SubSlice(pt, start, 4, 4 + length);
      return More(Unreliable(ch, pt[pos..pos + length]), 4 + length);
    } else if kind == RELIABLE_DATA && pos + 5 <= |pt| {
      var ch, sequence, length := pt[pos], Le16(pt[pos + 1], pt[pos + 2]), Le16(pt[pos + 3], pt[pos + 4]);
      pos := pos + 5;
      if pos + length > |pt| || ch as int >= channels {
        return Stop;
      }
      SubSlice(pt, start, 6, 6 + length);
      return More(Reliable(ch, sequence, pt[pos..pos + length]), 6 + length);
    } else if fragments && kind == FRAGMENT_DATA && pos + 5 <= |pt| {
      if |pt| - (pos + 5) <= 0 {
        return Stop;
      }
      SubSlice(pt, start, 6, |b|);
      return Last(Fragment(pt[pos], Le16(pt[pos + 1], pt[pos + 2]), pt[pos + 3], pt[pos + 4], pt[pos + 5..]));
    } else if kind == DISCONNECT {
      return Last(Disconnect(if pos < |pt| then pt[pos] else 0));
    }
    return Stop;
  }

  // ---------------------------------------------------------------- parsing undoes writing

  /** A data frame for one of the channels whose fields fit their 16 bits. */
  predicate IsData(f: Frame, channels: nat) {
    match f
    case Unreliable(ch, data) => ch as int < channels && |data| < 0x1_0000
    case Reliable(ch, sequence, data) => ch as int < channels && |data| < 0x1_0000 && 0 <= sequence < 0x1_0000
    case _ => false
  }

  lemma ReadUnreliable(ch: Byte, data: seq<Byte>, rest: seq<Byte>, channels: nat, fragments: bool)
    requires ch as int < channels && |data| < 0x1_0000
    ensures Read([UNRELIABLE_DATA, ch] + Put16(|data|) + data + rest, channels, fragments)
            == More(Unreliable(ch, data), 4 + |data|)
  {
    var b := [UNRELIABLE_DATA, ch] + Put16(|data|) + data + rest;
    assert b[2] == Put16(|data|)[0] && b[3] == Put16(|data|)[1];
    assert b[4..4 + |data|] == data;
  }

  lemma ReadReliable(ch: Byte, sequence: int, data: seq<Byte>, rest: seq<Byte>, channels: nat, fragments: bool)
    requires ch as int < channels && |data| < 0x1_0000 && 0 <= sequence < 0x1_0000
    ensures Read([RELIABLE_DATA, ch] + Put16(sequence) + Put16(|data|) + data + rest, channels, fragments)
            == More(Reliable(ch, sequence, data), 6 + |data|)
  {
    var b := [RELIABLE_DATA, ch] + Put16(sequence) + Put16(|data|) + data + rest;
    assert b[2] == Put16(sequence)[0] && b[3] == Put16(sequence)[1];
    assert b[4] == Put16(|data|)[0] && b[5] == Put16(|data|)[1];
    assert b[6..6 + |data|] == data;
  }

  lemma EncodeIs(f: Frame, channels: nat)
    requires IsData(f, channels)
    ensures f.Unreliable? ==> Encode(f) == [UNRELIABLE_DATA, f.channel] + Put16(|f.data|) + f.data
    ensures f.Reliable? ==>
              Encode(f) == [RELIABLE_DATA, f.channel] + Put16(f.sequence) + Put16(|f.data|) + f.data
    ensures |Encode(f)| == (if f.Unreliable? then 4 else 6) + |f.data|
  {
  }

  lemma ReadOne(f: Frame, rest: seq<Byte>, channels: nat, fragments: bool)
    requires IsData(f, channels)
    ensures Read(Encode(f) + rest, channels, fragments) == More(f, |Encode(f)|)
  {
    EncodeIs(f, channels);
    if f.Unreliable? {
      ReadUnreliable(f.channel, f.data, rest, channels, fragments);
    } else {
      ReadReliable(f.channel, f.sequence, f.data, rest, channels, fragments);
    }
  }

  lemma ParseOne(f: Frame, rest: seq<Byte>, channels: nat, fragments: bool)
    requires IsData(f, channels)
    ensures Parse(Encode(f) + rest, channels, fragments) == [f] + Parse(rest, channels, fragments)
  {
    ReadOne(f, rest, channels, fragments);
    assert (Encode(f) + rest)[|Encode(f)|..] == rest;
  }

  lemma {:induction false} EncodeAllPush(fs: seq<Frame>, f: Frame)
    ensures EncodeAll(fs + [f]) == EncodeAll(fs) + Encode(f)
  {
    if fs == [] {
      assert fs + [f] == [f] && [f][1..] == [];
      assert EncodeAll([f]) == Encode(f) + [] == Encode(f);
    } else {
      assert (fs + [f])[1..] == fs[1..] + [f];
      EncodeAllPush(fs[1..], f);
      Assoc(Encode(fs[0]), EncodeAll(fs[1..]), Encode(f));
    }
  }

  /** The frames of a payload are read back exactly as they were written. */
  lemma {:induction false} ParseUndoesWrite(fs: seq<Frame>, channels: nat, fragments: bool)
    requires forall i :: 0 <= i < |fs| ==> IsData(fs[i], channels)
    ensures Parse(EncodeAll(fs), channels, fragments) == fs
  {
    if fs != [] {
      ParseOne(fs[0], EncodeAll(fs[1..]), channels, fragments);
      ParseUndoesWrite(fs[1..], channels, fragments);
    }
  }
  /** Data frames in front of anything else are read first. */
  lemma {:induction false} ParseAfter(fs: seq<Frame>, rest: seq<Byte>, channels: nat, fragments: bool)
    requires forall i :: 0 <= i < |fs| ==> IsData(fs[i], channels)
    ensures Parse(EncodeAll(fs) + rest, channels, fragments) == fs + Parse(rest, channels, fragments)
  {
    if fs == [] {
      assert EncodeAll(fs) + rest == rest && fs + Parse(rest, channels, fragments) == Parse(rest, channels, fragments);
    } else {
      var tail := EncodeAll(fs[1..]) + rest;
      ParseAfter(fs[1..], rest, channels, fragments);
      calc {
        Parse(EncodeAll(fs) + rest, channels, fragments);
        { Assoc(Encode(fs[0]), EncodeAll(fs[1..]), rest); }
        Parse(Encode(fs[0]) + tail, channels, fragments);
        { ParseOne(fs[0], tail, channels, fragments); }
        [fs[0]] + (fs[1..] + Parse(rest, channels, fragments));
        { Assoc([fs[0]], fs[1..], Parse(rest, channels, fragments)); }
        [fs[0]] + fs[1..] + Parse(rest, channels, fragments);
        { assert [fs[0]] + fs[1..] == fs; }
        fs + Parse(rest, channels, fragments);
      }
    }
  }

  /** A disconnect frame behind data frames is read back, by server and client, and nothing behind it is read. */
  lemma ParseDisconnect(fs: seq<Frame>, reason: Byte, channels: nat, fragments: bool)
    requires forall i :: 0 <= i < |fs| ==> IsData(fs[i], channels)
    ensures Parse(EncodeAll(fs) + [0x06, reason], channels, fragments) == fs + [Disconnect(reason)]
  {
    ParseAfter(fs, [0x06, reason], channels, fragments);
  }

  /** A fragment frame with data behind data frames is read back by the server; it takes the rest of the payload. */
  lemma ParseFragment(fs: seq<Frame>, ch: Byte, id: int, index: Byte, count: Byte, data: seq<Byte>, channels: nat)
    requires (forall i :: 0 <= i < |fs| ==> IsData(fs[i], channels)) && 0 <= id < 65536 && data != []
    ensures Parse(EncodeAll(fs) + Encode(Fragment(ch, id, index, count, data)), channels, true) ==
            fs + [Fragment(ch, id, index, count, data)]
    ensures Parse(EncodeAll(fs) + Encode(Fragment(ch, id, index, count, data)), channels, false) == fs
  {
    var b := Encode(Fragment(ch, id, index, count, data));
    assert b[0] == 0x05 && b[2] == Put16(id)[0] && b[3] == Put16(id)[1] && b[6..] == data;
    ParseAfter(fs, b, channels, true);
    ParseAfter(fs, b, channels, false);
  }

  /** What stops the loop: an unknown type, a header or a payload that is cut off, a channel that does not exist. */
  lemma MalformedStops(b: seq<Byte>, channels: nat, fragments: bool)
    requires b != []
    ensures b[0] == 3 ==>
              (Read(b, channels, fragments) == Stop <==>
                |b| < 4 || 4 + b[2] as int + 256 * b[3] as int > |b| || b[1] as int >= channels)
    ensures b[0] == 4 ==>
              (Read(b, channels, fragments) == Stop <==>
                |b| < 6 || 6 + b[4] as int + 256 * b[5] as int > |b| || b[1] as int >= channels)
    ensures b[0] == 5 ==> (Read(b, channels, fragments) == Stop <==> !fragments || |b| <= 6)
    ensures b[0] < 3 || b[0] > 6 ==> Read(b, channels, fragments) == Stop
  {
  }

  /** The bytes of each frame on the wire. */
  lemma FrameBytes(ch: Byte, data: seq<Byte>, number: int, index: Byte, count: Byte)
    requires |data| < 65536 && 0 <= number < 65536
    ensures var size := [(|data| % 256) as Byte, (|data| / 256) as Byte];
            var id := [(number % 256) as Byte, (number / 256) as Byte];
            Encode(Unreliable(ch, data)) == [3, ch] + size + data &&
            Encode(Reliable(ch, number, data)) == [4, ch] + id + size + data &&
            Encode(Fragment(ch, number, index, count, data)) == [5, ch] + id + [index, count] + data &&
            Encode(Disconnect(index)) == [6, index]
  {
  }
}
