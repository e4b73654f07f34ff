// Replaying the recording of a terminal (src/lib/terminalLogReplay.ts): its
// frames in a buffer of bytes, when each plays, and how many have played.
module LogReplay {
  import opened Sequences

  type Byte = x: int | 0 <= x < 256

  // `atUs`: when, counted in microseconds from the first moment of the log.
  datatype ReplayFrame =
    | Output(atUs: nat, data: seq<Byte>)
    | Resize(atUs: nat, cols: nat, rows: nat)

  function AtMs(frame: ReplayFrame): real {
    frame.atUs as real / 1000.0
  }

  const FRAME_OUTPUT := 0
  const FRAME_RESIZE := 1

  // ----- numbers in bytes, the least first -----

  function Little(bytes: seq<Byte>): nat {
    if bytes == [] then 0 else bytes[0] + 256 * Little(bytes[1..])
  }

  function LittleBytes(n: nat, value: nat): (r: seq<Byte>)
    ensures |r| == n
  {
    if n == 0 then [] else [value % 256] + LittleBytes(n - 1, value / 256)
  }

  // How many numbers fit in that many bytes.
  function Range(n: nat): nat {
    if n == 0 then 1 else 256 * Range(n - 1)
  }

  lemma {:induction false} LittleOfBytes(n: nat, value: nat)
    requires value < Range(n)
    ensures Little(LittleBytes(n, value)) == value
  {
    if n > 0 {
      LittleOfBytes(n - 1, value / 256);
      assert LittleBytes(n, value)[1..] == LittleBytes(n - 1, value / 256);
    }
  }

  lemma {:induction false} BytesOfLittle(bytes: seq<Byte>)
    ensures LittleBytes(|bytes|, Little(bytes)) == bytes && Little(bytes) < Range(|bytes|)
  {
    if bytes != [] {
      BytesOfLittle(bytes[1..]);
      var v := Little(bytes);
      assert v % 256 == bytes[0] && v / 256 == Little(bytes[1..]);
      assert bytes == [bytes[0]] + bytes[1..];
    }
  }

  // The numbers of two, four and eight bytes, the least byte first.
  lemma LittleIs(bytes: seq<Byte>)
    ensures var b: seq<int> := bytes;
      && (|b| == 2 ==> Little(bytes) == b[0] + 0x100 * b[1])
      && (|b| == 4 ==> Little(bytes) == b[0] + 0x100 * b[1] + 0x1_0000 * b[2] + 0x100_0000 * b[3])
      && (|b| == 8 ==>
            Little(bytes)
            == b[0] + 0x100 * b[1] + 0x1_0000 * b[2] + 0x100_0000 * b[3]
               + 0x1_0000_0000 * (b[4] + 0x100 * b[5] + 0x1_0000 * b[6] + 0x100_0000 * b[7]))
  {
    if |bytes| == 2 {
      LittleOfTwo(bytes);
    } else if |bytes| == 4 {
      LittleOfFour(bytes);
    } else if |bytes| == 8 {
      LittleOfFour(bytes[4..]);
      LittleAfterTwo(bytes);
      LittleAfterTwo(bytes[2..]);
      assert bytes[2..][2..] == bytes[4..];
    }
  }

  lemma LittleOfTwo(bytes: seq<Byte>)
    requires |bytes| == 2
    ensures var b: seq<int> := bytes; Little(bytes) == b[0] + 0x100 * b[1]
  {
    LittleAfterTwo(bytes);
    assert bytes[2..] == [];
  }

  lemma LittleOfFour(bytes: seq<Byte>)
    requires |bytes| == 4
    ensures var b: seq<int> := bytes; Little(bytes) == b[0] + 0x100 * b[1] + 0x1_0000 * b[2] + 0x100_0000 * b[3]
  {
    LittleAfterTwo(bytes);
    LittleOfTwo(bytes[2..]);
  }

  lemma LittleAfterTwo(bytes: seq<Byte>)
    requires |bytes| >= 2
    ensures var b: seq<int> := bytes; Little(bytes) == b[0] + 0x100 * b[1] + 0x1_0000 * Little(bytes[2..])
  {
    var rest := bytes[1..];
    assert rest[1..] == bytes[2..] && rest[0] == bytes[1];
    assert Little(rest) == rest[0] + 256 * Little(rest[1..]);
  }

  // ----- parsing -----

  datatype Parsed = Parsed(frame: ReplayFrame, length: nat)

  // The frame the bytes start with, when it is there whole.
  function FirstFrame(bytes: seq<Byte>): (r: Option<Parsed>)
    ensures r.Some? ==> 13 <= r.value.length <= |bytes|
  {
    if |bytes| < 13 then None
    else
      var at := Little(bytes[1..9]);
      if bytes[0] == FRAME_OUTPUT then
        var length := Little(bytes[9..13]);
        if 13 + length > |bytes| then None else Some(Parsed(Output(at, bytes[13..13 + length]), 13 + length))
      else if bytes[0] == FRAME_RESIZE then Some(Parsed(Resize(at, Little(bytes[9..11]), Little(bytes[11..13])), 13))
      else None
  }

  // A frame is its kind, eight bytes of time, and then either four bytes of
  // length and as many of data, or two bytes each of columns and rows.
  lemma FirstFrameIs(bytes: seq<Byte>)
    requires |bytes| >= 13
    ensures var first, length := FirstFrame(bytes), Little(bytes[9..13]);
      && (bytes[0] == 0 && 13 + length <= |bytes| ==>
            first == Some(Parsed(Output(Little(bytes[1..9]), bytes[13..13 + length]), 13 + length)))
      && (bytes[0] == 1 ==>
            first == Some(Parsed(Resize(Little(bytes[1..9]), Little(bytes[9..11]), Little(bytes[11..13])), 13)))
      && (bytes[0] > 1 || (bytes[0] == 0 && 13 + length > |bytes|) ==> first == None)
  {
  }

  function ParseFrames(bytes: seq<Byte>): seq<ReplayFrame>
    decreases |bytes|
  {
    var first := FirstFrame(bytes);
    if first.None? then [] else [first.value.frame] + ParseFrames(bytes[first.value.length..])
  }

  // Reads the frame at the offset field by field; none when it is cut short
  // or of no known kind.
  method ReadFrame(buffer: seq<Byte>, start: nat) returns (frame: Option<ReplayFrame>, offset: nat)
    requires start + 9 <= |buffer|
    ensures frame.Some? ==> start + 13 <= offset <= |buffer|
    ensures FirstFrame(buffer[start..]) == if frame.Some? then Some(Parsed(frame.value, offset - start)) else None
  {
    ghost var rest := buffer[start..];
    var kind := buffer[start];
    var at := Little(buffer[start + 1..start + 9]);
    offset := start + 9;
    if (kind != FRAME_OUTPUT && kind != FRAME_RESIZE) || offset + 4 > |buffer| {
      return None, offset;
    }
    assert rest[1..9] == buffer[start + 1..start + 9];
    if kind == FRAME_OUTPUT {
      assert rest[9..13] == buffer[offset..offset + 4];
      var length := Little(buffer[offset..offset + 4]);
      offset := offset + 4;
      if offset + length > |buffer| {
        return None, offset;
      }
      assert rest[13..13 + length] == buffer[offset..offset + length];
      return Some(Output(at, buffer[offset..offset + length])), offset + length;
    }
    assert rest[9..11] == buffer[offset..offset + 2] && rest[11..13] == buffer[offset + 2..offset + 4];
    return Some(Resize(at, Little(buffer[offset..offset + 2]), Little(buffer[offset + 2..offset + 4]))), offset + 4;
  }

  method ParseReplayFrames(buffer: seq<Byte>) returns (frames: seq<ReplayFrame>)
    ensures frames == ParseFrames(buffer)
  {
    frames := [];
    var offset := 0;
    assert buffer[0..] == buffer;
    while offset + 9 <= |buffer|
      invariant offset <= |buffer| && ParseFrames(buffer) == frames + ParseFrames(buffer[offset..])
      decreases |buffer| - offset
    {
      var frame, next := ReadFrame(buffer, offset);
      if frame.None? {
        break;
      }
      assert buffer[offset..][next - offset..] == buffer[next..];
      Associates(frames, [frame.value], ParseFrames(buffer[next..]));
      frames := frames + [frame.value];
      offset := next;
    }
    assert ParseFrames(buffer[offset..]) == [];
  }

  // ----- the documented format -----

  // The frame's numbers fit in their fields.
  predicate Fits(frame: ReplayFrame) {
    frame.atUs < Range(8) &&
    match frame
    case Output(_, data) => |data| < Range(4)
    case Resize(_, cols, rows) => cols < Range(2) && rows < Range(2)
  }

  function Print(frame: ReplayFrame): seq<Byte> {
    match frame
    case Output(at, data) => [FRAME_OUTPUT] + LittleBytes(8, at) + LittleBytes(4, |data|) + data
    case Resize(at, cols, rows) => [FRAME_RESIZE] + LittleBytes(8, at) + LittleBytes(2, cols) + LittleBytes(2, rows)
  }

  function PrintFrames(frames: seq<ReplayFrame>): seq<Byte> {
    if frames == [] then [] else Print(frames[0]) + PrintFrames(frames[1..])
  }

  lemma FieldsAt(kind: Byte, at: seq<Byte>, b: seq<Byte>, c: seq<Byte>, rest: seq<Byte>)
    requires |at| == 8
    ensures var bytes := [kind] + at + b + c + rest;
      && bytes[0] == kind && bytes[1..9] == at && bytes[9..9 + |b|] == b
      && bytes[9 + |b|..9 + |b| + |c|] == c && |[kind] + at + b + c| == 9 + |b| + |c|
  {
  }

  lemma FirstOfPrinted(frame: ReplayFrame, rest: seq<Byte>)
    requires Fits(frame)
    ensures FirstFrame(Print(frame) + rest) == Some(Parsed(frame, |Print(frame)|))
  {
    hide Little;
    hide LittleBytes;
    hide Range;
    LittleOfBytes(8, frame.atUs);
    match frame {
      case Output(at, data) =>
        LittleOfBytes(4, |data|);
        FieldsAt(FRAME_OUTPUT, LittleBytes(8, at), LittleBytes(4, |data|), data, rest);
      case Resize(at, cols, rows) =>
        LittleOfBytes(2, cols);
        LittleOfBytes(2, rows);
        FieldsAt(FRAME_RESIZE, LittleBytes(8, at), LittleBytes(2, cols), LittleBytes(2, rows), rest);
    }
  }

  // Frames printed in the documented format parse back, whatever follows.
  lemma {:induction false} PrintedFramesParseBack(frames: seq<ReplayFrame>, rest: seq<Byte>)
    requires forall i :: 0 <= i < |frames| ==> Fits(frames[i])
    ensures ParseFrames(PrintFrames(frames) + rest) == frames + ParseFrames(rest)
  {
    if frames == [] {
      assert PrintFrames(frames) + rest == rest;
      assert frames + ParseFrames(rest) == ParseFrames(rest);
    } else {
      var more := PrintFrames(frames[1..]) + rest;
      FirstOfPrinted(frames[0], more);
      PrintedFramesParseBack(frames[1..], rest);
      Associates(Print(frames[0]), PrintFrames(frames[1..]), rest);
      assert (Print(frames[0]) + more)[|Print(frames[0])|..] == more;
      Associates([frames[0]], frames[1..], ParseFrames(rest));
      assert frames == [frames[0]] + frames[1..];
    }
  }

  lemma CutInFour(s: seq<Byte>, n: nat)
    requires 13 <= n <= |s|
    ensures s[..n] == [s[0]] + s[1..9] + s[9..13] + s[13..n]
    ensures s[..13] == [s[0]] + s[1..9] + s[9..11] + s[11..13]
  {
  }

  lemma PrintedFirst(bytes: seq<Byte>)
    requires FirstFrame(bytes).Some?
    ensures var first := FirstFrame(bytes).value;
            Fits(first.frame) && Print(first.frame) == bytes[..first.length]
  {
    hide Little;
    hide LittleBytes;
    hide Range;
    CutInFour(bytes, FirstFrame(bytes).value.length);
    BytesOfLittle(bytes[1..9]);
    if bytes[0] == FRAME_OUTPUT {
      BytesOfLittle(bytes[9..13]);
    } else {
      BytesOfLittle(bytes[9..11]);
      BytesOfLittle(bytes[11..13]);
    }
  }

  // What was parsed prints as the bytes it was parsed from: the parser takes
  // no other bytes for a frame and skips none.
  lemma {:induction false} ParsedFramesPrintBack(bytes: seq<Byte>)
    ensures PrintFrames(ParseFrames(bytes)) <= bytes
    decreases |bytes|
  {
    hide FirstFrame;
    hide Print;
    if FirstFrame(bytes).Some? {
      var first := FirstFrame(bytes).value;
      var rest := bytes[first.length..];
      var frames := ParseFrames(rest);
      PrintedFirst(bytes);
      ParsedFramesPrintBack(rest);
      PrintsOneMore(first.frame, frames);
      PrefixAfter(Print(first.frame), PrintFrames(frames), rest);
      assert bytes == bytes[..first.length] + rest;
    }
  }

  lemma {:induction false} ParsedFramesFit(bytes: seq<Byte>)
    ensures forall frame :: frame in ParseFrames(bytes) ==> Fits(frame)
    decreases |bytes|
  {
    hide FirstFrame;
    hide Print;
    hide Fits;
    if FirstFrame(bytes).Some? {
      PrintedFirst(bytes);
      ParsedFramesFit(bytes[FirstFrame(bytes).value.length..]);
    }
  }

  lemma PrintsOneMore(frame: ReplayFrame, frames: seq<ReplayFrame>)
    ensures PrintFrames([frame] + frames) == Print(frame) + PrintFrames(frames)
  {
    assert ([frame] + frames)[1..] == frames;
  }

  lemma PrefixAfter(first: seq<Byte>, part: seq<Byte>, rest: seq<Byte>)
    requires part <= rest
    ensures first + part <= first + rest
  {
  }

  // A recording cut anywhere gives a prefix of its frames.
  lemma {:induction false} PrefixGivesPrefix(part: seq<Byte>, whole: seq<Byte>)
    requires part <= whole
    ensures ParseFrames(part) <= ParseFrames(whole)
    decreases |part|
  {
    if FirstFrame(part).Some? {
      var first := FirstFrame(part).value;
      assert part[1..9] == whole[1..9] && part[9..13] == whole[9..13] && part[9..11] == whole[9..11]
             && part[11..13] == whole[11..13];
      assert part[13..first.length] == whole[13..first.length];
      assert FirstFrame(whole) == FirstFrame(part);
      PrefixGivesPrefix(part[first.length..], whole[first.length..]);
    }
  }

  // ----- the timeline -----

  function Shortened(gap: real, idleLimitMs: Option<real>): real {
    if idleLimitMs.Some? && idleLimitMs.value < gap then idleLimitMs.value else gap
  }

  // The pause before a frame, none when it is earlier than the one before.
  function Pause(before: ReplayFrame, frame: ReplayFrame, idleLimitMs: Option<real>): real {
    Shortened(if AtMs(frame) > AtMs(before) then AtMs(frame) - AtMs(before) else 0.0, idleLimitMs)
  }

  ghost predicate IsTimeline(timeline: seq<real>, frames: seq<ReplayFrame>, idleLimitMs: Option<real>) {
    && |timeline| == |frames|
    && (timeline != [] ==> timeline[0] == Shortened(0.0, idleLimitMs))
    && forall i :: 0 <= i < |timeline| - 1 ==>
         timeline[i + 1] == timeline[i] + Pause(frames[i], frames[i + 1], idleLimitMs)
  }

  method BuildReplayTimeline(frames: seq<ReplayFrame>, idleLimitMs: Option<real>) returns (timeline: seq<real>)
    ensures IsTimeline(timeline, frames, idleLimitMs)
  {
    hide Shortened;
    hide AtMs;
    timeline := [];
    var previousAt := if frames != [] then AtMs(frames[0]) else 0.0;
    var playAt := 0.0;
    for i := 0 to |frames|
      invariant |timeline| == i && IsTimeline(timeline, frames[..i], idleLimitMs)
      invariant i == 0 ==> playAt == 0.0 && (frames != [] ==> previousAt == AtMs(frames[0]))
      invariant i > 0 ==> playAt == timeline[i - 1] && previousAt == AtMs(frames[i - 1])
    {
      var gap := if AtMs(frames[i]) - previousAt > 0.0 then AtMs(frames[i]) - previousAt else 0.0;
      playAt := playAt + Shortened(gap, idleLimitMs);
      previousAt := AtMs(frames[i]);
      timeline := timeline + [playAt];
      assert frames[..i + 1] == frames[..i] + [frames[i]];
    }
    assert frames[..|frames|] == frames;
  }

  ghost predicate Sorted(timeline: seq<real>) {
    forall i, j :: 0 <= i <= j < |timeline| ==> timeline[i] <= timeline[j]
  }

  // No pause plays longer than the limit, and time never runs back.
  lemma TimelineKeepsTheLimit(timeline: seq<real>, frames: seq<ReplayFrame>, idleLimitMs: Option<real>)
    requires IsTimeline(timeline, frames, idleLimitMs) && (idleLimitMs.Some? ==> idleLimitMs.value >= 0.0)
    ensures Sorted(timeline) && (timeline != [] ==> timeline[0] == 0.0)
    ensures idleLimitMs.Some? ==>
      forall i :: 0 <= i < |timeline| - 1 ==> timeline[i + 1] - timeline[i] <= idleLimitMs.value
  {
    forall i, j | 0 <= i <= j < |timeline| ensures timeline[i] <= timeline[j] {
      NeverBack(timeline, frames, idleLimitMs, i, j);
    }
  }

  lemma {:induction false} NeverBack(timeline: seq<real>, frames: seq<ReplayFrame>, idleLimitMs: Option<real>, i: nat,
          j: nat)
    requires IsTimeline(timeline, frames, idleLimitMs) && (idleLimitMs.Some? ==> idleLimitMs.value >= 0.0)
    requires i <= j < |timeline|
    ensures timeline[i] <= timeline[j]
  {
    if i < j {
      NeverBack(timeline, frames, idleLimitMs, i, j - 1);
      assert timeline[j - 1 + 1] == timeline[j - 1] + Pause(frames[j - 1], frames[j], idleLimitMs);
    }
  }

  // A pause plays as long as it was, but no longer than the limit; a frame
  // earlier than the one before plays at once.
  lemma PausesAre(timeline: seq<real>, frames: seq<ReplayFrame>, idleLimitMs: Option<real>, i: nat)
    requires IsTimeline(timeline, frames, idleLimitMs) && i + 1 < |frames|
    ensures var pause, was := timeline[i + 1] - timeline[i], frames[i + 1].atUs - frames[i].atUs;
      && (was >= 0 && (idleLimitMs.Some? ==> was as real / 1000.0 <= idleLimitMs.value)
          ==> pause == was as real / 1000.0)
      && (was >= 0 && idleLimitMs.Some? && was as real / 1000.0 > idleLimitMs.value ==> pause == idleLimitMs.value)
      && (was < 0 && (idleLimitMs.Some? ==> idleLimitMs.value >= 0.0) ==> pause == 0.0)
  {
    assert timeline[i + 1] == timeline[i] + Pause(frames[i], frames[i + 1], idleLimitMs);
  }

  // Without a limit, and with frames in order, each plays when it came.
  lemma {:induction false} WithoutLimitAsRecorded(timeline: seq<real>, frames: seq<ReplayFrame>, j: nat)
    requires IsTimeline(timeline, frames, None) && j < |frames|
    requires forall i :: 0 <= i < |frames| - 1 ==> AtMs(frames[i]) <= AtMs(frames[i + 1])
    ensures timeline[j] == AtMs(frames[j]) - AtMs(frames[0])
  {
    if j > 0 {
      WithoutLimitAsRecorded(timeline, frames, j - 1);
      assert timeline[j - 1 + 1] == timeline[j - 1] + Pause(frames[j - 1], frames[j], None);
    }
  }

  // ----- how many have played -----

  // How many of the frames are due by the time.
  function Due(timeline: seq<real>, timeMs: real): nat {
    if timeline == [] then 0 else (if timeline[0] <= timeMs then 1 else 0) + Due(timeline[1..], timeMs)
  }

  method FramesPlayedBy(timeline: seq<real>, timeMs: real) returns (low: nat)
    ensures low <= |timeline|
    ensures Sorted(timeline) ==> low == Due(timeline, timeMs)
    ensures Sorted(timeline) ==> forall i :: 0 <= i < |timeline| ==> (timeline[i] <= timeMs <==> i < low)
  {
    low := 0;
    var high := |timeline|;
    while low < high
      invariant low <= high <= |timeline|
      invariant Sorted(timeline) ==> forall i :: 0 <= i < low ==> timeline[i] <= timeMs
      invariant Sorted(timeline) ==> forall i :: high <= i < |timeline| ==> timeline[i] > timeMs
    {
      var middle := (low + high) / 2;
      if timeline[middle] <= timeMs {
        low := middle + 1;
      } else {
        high := middle;
      }
    }
    if Sorted(timeline) {
      DueOfSplit(timeline, timeMs, low);
    }
  }

  lemma {:induction false} DueOfSplit(timeline: seq<real>, timeMs: real, k: nat)
    requires k <= |timeline| && forall i :: 0 <= i < |timeline| ==> (timeline[i] <= timeMs <==> i < k)
    ensures Due(timeline, timeMs) == k
  {
    if timeline != [] {
      var rest := timeline[1..];
      forall i | 0 <= i < |rest| ensures rest[i] <= timeMs <==> i < (if k == 0 then 0 else k - 1) {
        assert rest[i] == timeline[i + 1];
      }
      DueOfSplit(rest, timeMs, if k == 0 then 0 else k - 1);
    }
  }
}