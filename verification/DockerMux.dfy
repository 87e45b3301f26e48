/** The demultiplexer of Docker's log stream: frames of an 8-byte header and a payload, whose payloads together are
    one byte stream that a line assembler cuts at newlines. */
module DockerMux {

  import opened Bytes

  const NEWLINE: byte := 10
  const RETURN: byte := 13
  const MAX_FRAME := 1_048_576
  const MAX_LINE := 131_072

  type Line = seq<byte>

  /* ---- The meaning of a stream: its lines ---- */

  /** The position of the first newline, or -1. */
  function IndexNewline(s: seq<byte>): (i: int)
    ensures -1 <= i < |s|
    ensures i >= 0 ==> s[i] == NEWLINE && NEWLINE !in s[..i]
    ensures i < 0 ==> NEWLINE !in s
  {
    if s == [] then -1
    else if s[0] == NEWLINE then 0
    else
      var i := IndexNewline(s[1..]);
      assert s == [s[0]] + s[1..];
      assert i >= 0 ==> s[..i + 1] == [s[0]] + s[1..][..i];
      if i < 0 then -1 else i + 1
  }

  function StripReturn(line: Line): Line {
    if line != [] && line[|line| - 1] == RETURN then line[..|line| - 1] else line
  }

  function Cap(line: Line, max: nat): Line {
    if |line| > max then line[..max] else line
  }

  /** The newline-terminated lines of a stream, each capped, then stripped of a final CR. */
  function Lines(stream: seq<byte>, max: nat): seq<Line>
    decreases |stream|
  {
    var i := IndexNewline(stream);
    if i < 0 then [] else [StripReturn(Cap(stream[..i], max))] + Lines(stream[i + 1..], max)
  }

  lemma FirstNewline(s: seq<byte>, i: nat)
    requires i < |s| && s[i] == 10 && forall k :: 0 <= k < i ==> s[k] != 10
    ensures IndexNewline(s) == i
  {
    assert s[i] in s;
  }

  lemma {:induction false} LineAndRest(whole: seq<byte>, rest: seq<byte>, max: nat)
    requires 10 !in whole
    ensures Lines(whole + [10] + rest, max) == [StripReturn(Cap(whole, max))] + Lines(rest, max)
  {
    hide IndexNewline, StripReturn, Cap;
    var s := whole + [10] + rest;
    assert forall k :: 0 <= k < |whole| ==> s[k] == whole[k] && whole[k] != 10;
    FirstNewline(s, |whole|);
    assert s[..|whole|] == whole && s[|whole| + 1..] == rest;
  }

  lemma CutAndStripped(line: seq<byte>, cr: seq<byte>, max: nat)
    requires cr == [] || cr == [13]
    ensures |line| <= max && (line == [] || line[|line| - 1] != 13) ==> StripReturn(Cap(line + cr, max)) == line
    ensures |line| > max && (max == 0 || line[max - 1] != 13) ==> StripReturn(Cap(line + cr, max)) == line[..max]
  {
    var whole := line + cr;
    assert |line| >= max ==> whole[..max] == line[..max];
    assert line[..|line|] == line && whole[..|line|] == line;
  }

  /** A line ends at LF or CR LF and comes without either; what is over the maximum is cut off; and bytes without LF
      are no line. */
  lemma {:induction false} LineIsCut(line: seq<byte>, cr: seq<byte>, rest: seq<byte>, max: nat)
    requires 10 !in line && (cr == [] || cr == [13])
    ensures |line| <= max && (line == [] || line[|line| - 1] != 13) ==>
              Lines((line + cr) + [10] + rest, max) == [line] + Lines(rest, max)
    ensures |line| > max && (max == 0 || line[max - 1] != 13) ==>
              Lines((line + cr) + [10] + rest, max) == [line[..max]] + Lines(rest, max)
    ensures Lines(line, max) == []
  {
    LineAndRest(line + cr, rest, max);
    CutAndStripped(line, cr, max);
    hide StripReturn, Cap;
  }

  /** The lines delivered before the callback asks to stop: it sees all the lines delivered so far. */
  function Until(delivered: seq<Line>, lines: seq<Line>, stop: seq<Line> -> bool): seq<Line>
    decreases |lines|
  {
    if lines == [] then delivered
    else if stop(delivered + [lines[0]]) then delivered + [lines[0]]
    else Until(delivered + [lines[0]], lines[1..], stop)
  }

  ghost predicate Stops(delivered: seq<Line>, lines: seq<Line>, stop: seq<Line> -> bool)
    decreases |lines|
  {
    lines != [] && (stop(delivered + [lines[0]]) || Stops(delivered + [lines[0]], lines[1..], stop))
  }

  /** Lines are delivered in order and none is skipped, up to the first on which the callback asks to stop, or all. */
  lemma {:induction false} UntilIsPrefix(delivered: seq<Line>, lines: seq<Line>, stop: seq<Line> -> bool)
      returns (n: nat)
    ensures n <= |lines| && Until(delivered, lines, stop) == delivered + lines[..n]
    ensures forall k :: 0 < k < n ==> !stop(delivered + lines[..k])
    ensures if Stops(delivered, lines, stop) then n > 0 && stop(delivered + lines[..n])
            else n == |lines| && (n > 0 ==> !stop(delivered + lines))
    decreases |lines|
  {
    if lines == [] {
      n := 0;
      assert delivered + lines[..0] == delivered;
    } else if stop(delivered + [lines[0]]) {
      n := 1;
      assert lines[..1] == [lines[0]];
    } else {
      var more := delivered + [lines[0]];
      var m := UntilIsPrefix(more, lines[1..], stop);
      n := m + 1;
      forall k | 0 <= k <= |lines| - 1 ensures more + lines[1..][..k] == delivered + lines[..k + 1] {
      }
      assert more + lines[1..] == delivered + lines;
      forall k | 0 < k < n ensures !stop(delivered + lines[..k]) {
        assert more + lines[1..][..k - 1] == delivered + lines[..k];
        assert lines[1..][..0] == [] && more + [] == more;
      }
    }
  }

  /* ---- The assembler, byte by byte ---- */

  /** The assembler's buffer, the lines delivered so far, and whether the callback has asked to stop. */
  datatype Progress = Progress(line: Line, delivered: seq<Line>, stopped: bool)

  const Start := Progress([], [], false)

  ghost function Step(p: Progress, b: byte, max: nat, stop: seq<Line> -> bool): Progress {
    if p.stopped then p
    else if b != NEWLINE then p.(line := if |p.line| < max then p.line + [b] else p.line)
    else
      var delivered := p.delivered + [StripReturn(p.line)];
      if stop(delivered) then Progress(p.line, delivered, true) else Progress([], delivered, false)
  }

  ghost function Steps(p: Progress, s: seq<byte>, max: nat, stop: seq<Line> -> bool): Progress {
    if s == [] then p else Step(Steps(p, s[..|s| - 1], max, stop), s[|s| - 1], max, stop)
  }

  /** Feeding respects concatenation: how a stream is chopped does not matter. */
  lemma {:induction false} StepsConcat(p: Progress, a: seq<byte>, b: seq<byte>, max: nat, stop: seq<Line> -> bool)
    ensures Steps(p, a + b, max, stop) == Steps(Steps(p, a, max, stop), b, max, stop)
  {
    if b == [] {
      assert a + b == a;
    } else {
      hide Step;
      StepsConcat(p, a, b[..|b| - 1], max, stop);
      assert (a + b)[..|a + b| - 1] == a + b[..|b| - 1];
    }
  }

  lemma {:induction false} StepsStopped(p: Progress, s: seq<byte>, max: nat, stop: seq<Line> -> bool)
    requires p.stopped
    ensures Steps(p, s, max, stop) == p
  {
    if s != [] {
      StepsStopped(p, s[..|s| - 1], max, stop);
    }
  }

  /** Bytes without a newline only fill the buffer, up to its cap. */
  lemma {:induction false} StepsPlain(p: Progress, s: seq<byte>, max: nat, stop: seq<Line> -> bool)
    requires !p.stopped && |p.line| <= max && NEWLINE !in s
    ensures Steps(p, s, max, stop) == p.(line := Cap(p.line + s, max))
  {
    if s == [] {
      assert p.line + s == p.line;
    } else {
      var init := s[..|s| - 1];
      assert s == init + [s[|s| - 1]];
      StepsPlain(p, init, max, stop);
      assert p.line + s == (p.line + init) + [s[|s| - 1]];
    }
  }

  /** Bytes up to and including the first newline complete one line. */
  lemma {:induction false} StepsLine(p: Progress, s: seq<byte>, max: nat, stop: seq<Line> -> bool)
    requires !p.stopped && |p.line| <= max && IndexNewline(s) >= 0
    ensures var i := IndexNewline(s);
            var line := Cap(p.line + s[..i], max);
            var delivered := p.delivered + [StripReturn(line)];
            Steps(p, s, max, stop) == if stop(delivered) then Progress(line, delivered, true)
                                      else Steps(Progress([], delivered, false), s[i + 1..], max, stop)
  {
    var i := IndexNewline(s);
    StepsPlain(p, s[..i], max, stop);
    assert s[..i + 1] == s[..i] + [s[i]];
    StepsConcat(p, s[..i], [s[i]], max, stop);
    assert s == s[..i + 1] + s[i + 1..];
    StepsConcat(p, s[..i + 1], s[i + 1..], max, stop);
    var q := p.(line := Cap(p.line + s[..i], max));
    assert Steps(q, [s[i]], max, stop) == Step(q, s[i], max, stop);
    if Step(q, s[i], max, stop).stopped {
      StepsStopped(Step(q, s[i], max, stop), s[i + 1..], max, stop);
    }
  }

  /** What the assembler delivers for a whole stream: its lines, up to the callback's stop. */
  lemma {:induction false} DeliversLines(delivered: seq<Line>, stream: seq<byte>, max: nat, stop: seq<Line> -> bool)
    ensures Steps(Progress([], delivered, false), stream, max, stop).delivered
            == Until(delivered, Lines(stream, max), stop)
    ensures Steps(Progress([], delivered, false), stream, max, stop).stopped <==>
            Stops(delivered, Lines(stream, max), stop)
    decreases |stream|
  {
    hide Steps, StripReturn, Cap, IndexNewline;
    var p := Progress([], delivered, false);
    var i := IndexNewline(stream);
    if i < 0 {
      StepsPlain(p, stream, max, stop);
    } else {
      StepsLine(p, stream, max, stop);
      assert [] + stream[..i] == stream[..i];
      var line := StripReturn(Cap(stream[..i], max));
      assert Lines(stream, max)[1..] == Lines(stream[i + 1..], max);
      DeliversLines(delivered + [line], stream[i + 1..], max, stop);
    }
  }

  lemma {:induction false} NeverStops(delivered: seq<Line>, lines: seq<Line>, stop: seq<Line> -> bool)
    requires forall d :: !stop(d)
    ensures Until(delivered, lines, stop) == delivered + lines && !Stops(delivered, lines, stop)
    decreases |lines|
  {
    if lines == [] {
      assert delivered + [] == delivered;
    } else {
      NeverStops(delivered + [lines[0]], lines[1..], stop);
      assert delivered + [lines[0]] + lines[1..] == delivered + lines;
    }
  }

  /* ---- The assembler, as written ---- */

  class LineAssembler {
    const max: nat
    var line: Line

    constructor (maxLine: nat)
      ensures max == maxLine && line == []
    {
      max, line := maxLine, [];
    }

    /** Appends what fits of a segment. */
    method AppendCapped(line: Line, segment: Line) returns (r: Line)
      requires |line| <= max
      ensures r == Cap(line + segment, max)
    {
      r := line;
      var seg, room := segment, max - |line|;
      if room > 0 {
        if |seg| > room {
          seg := seg[..room];
        }
        r := r + seg;
      }
    }

    /** feed: scans a chunk newline by newline. The callback answers on the lines delivered so far. */
    method Feed(chunk: seq<byte>, before: seq<Line>, stop: seq<Line> -> bool)
        returns (delivered: seq<Line>, stopped: bool)
      requires |line| <= max
      modifies this
      ensures |line| <= max
      ensures Progress(line, delivered, stopped) == Steps(Progress(old(line), before, false), chunk, max, stop)
    {
      hide Steps, Step, IndexNewline;
      var rest := chunk;
      delivered := before;
      while true
        invariant |line| <= max
        invariant Steps(Progress(line, delivered, false), rest, max, stop)
                == Steps(Progress(old(line), before, false), chunk, max, stop)
        decreases |rest|
      {
        var idx := IndexNewline(rest);
        var seg := rest;
        if idx >= 0 {
          seg := rest[..idx];
          StepsLine(Progress(line, delivered, false), rest, max, stop);
        } else {
          StepsPlain(Progress(line, delivered, false), rest, max, stop);
        }
        line := AppendCapped(line, seg);
        if idx < 0 {
          return delivered, false;
        }
        var l := line;
        if |l| > 0 && l[|l| - 1] == RETURN {
          l := l[..|l| - 1];
        }
        delivered := delivered + [l];
        if stop(delivered) {
          return delivered, true;
        }
        line := [];
        rest := rest[idx + 1..];
      }
    }
  }

  /* ---- Frames ---- */

  datatype Frame = Frame(stream: byte, pad1: byte, pad2: byte, pad3: byte, payload: seq<byte>)

  function BigEndian(a: byte, b: byte, c: byte, d: byte): nat {
    ((a * 256 + b) * 256 + c) * 256 + d
  }

  function EncodeFrame(f: Frame): seq<byte>
    requires |f.payload| < 0x1_0000_0000
  {
    var n := |f.payload|;
    [f.stream, f.pad1, f.pad2, f.pad3, n / 256 / 256 / 256, n / 256 / 256 % 256, n / 256 % 256, n % 256] + f.payload
  }

  /** Frames the demultiplexer accepts. */
  ghost predicate Legal(frames: seq<Frame>) {
    forall f :: f in frames ==> |f.payload| <= MAX_FRAME
  }

  function Encode(frames: seq<Frame>): seq<byte>
    requires Legal(frames)
  {
    if frames == [] then [] else EncodeFrame(frames[0]) + Encode(frames[1..])
  }

  datatype Ending = CleanEnd | HeaderError | FrameTooBig | PayloadError | Cancelled | Stopped {
    /** Whether the demultiplexer returns nil. */
    predicate Ok() {
      CleanEnd? || Cancelled? || Stopped?
    }
  }

  function SizeAt(input: seq<byte>): nat
    requires |input| >= 8
  {
    BigEndian(input[4], input[5], input[6], input[7])
  }

  /** Whether input starts with a whole frame of legal size. */
  predicate HasFrame(input: seq<byte>) {
    |input| >= 8 && SizeAt(input) <= MAX_FRAME && SizeAt(input) <= |input| - 8
  }

  function FrameAt(input: seq<byte>): Frame
    requires HasFrame(input)
  {
    Frame(input[0], input[1], input[2], input[3], input[8..8 + SizeAt(input)])
  }

  /** The length of a payload is in the last four bytes of its header, the highest first. */
  lemma HeaderSize(input: seq<byte>)
    requires |input| >= 8
    ensures SizeAt(input) == input[4] as int * 16_777_216 + input[5] as int * 65_536 + input[6] as int * 256 + input[7]
    ensures HasFrame(input) ==> |FrameAt(input).payload| == SizeAt(input) && FrameAt(input).payload <= input[8..]
  {
  }

  datatype Decoded = Decoded(frames: seq<Frame>, tail: seq<byte>)

  /** The frames of a stream and what is left after them. */
  function Decode(input: seq<byte>): (r: Decoded)
    ensures !HasFrame(r.tail)
    decreases |input|
  {
    if !HasFrame(input) then Decoded([], input)
    else
      var rest := Decode(input[8 + SizeAt(input)..]);
      Decoded([FrameAt(input)] + rest.frames, rest.tail)
  }

  /** How reading ends on the bytes left; fails says that the reader then reports an error, not the end of input. */
  function EndOf(tail: seq<byte>, fails: bool): Ending
    requires !HasFrame(tail)
  {
    if |tail| < 8 then (if fails then HeaderError else CleanEnd)
    else if SizeAt(tail) > MAX_FRAME then FrameTooBig
    else PayloadError
  }

  lemma {:induction false} BigEndianOfDigits(n: nat)
    requires n < 0x1_0000_0000
    ensures BigEndian(n / 256 / 256 / 256, n / 256 / 256 % 256, n / 256 % 256, n % 256) == n
  {
    var p := n / 256;
    var q := p / 256;
    assert n == p * 256 + n % 256 && p == q * 256 + p % 256 && q == q / 256 * 256 + q % 256;
  }

  lemma {:induction false} LastDigit(x: nat, d: byte)
    ensures (x * 256 + d) / 256 == x && (x * 256 + d) % 256 == d
  {
  }

  lemma {:induction false} DigitsOfBigEndian(a: byte, b: byte, c: byte, d: byte)
    ensures var n := BigEndian(a, b, c, d);
            n / 256 / 256 / 256 == a && n / 256 / 256 % 256 == b && n / 256 % 256 == c && n % 256 == d
  {
    LastDigit((a * 256 + b) * 256 + c, d);
    LastDigit(a * 256 + b, c);
    LastDigit(a, b);
  }

  lemma {:induction false} HeaderHoldsSize(f: Frame, rest: seq<byte>)
    requires |f.payload| <= MAX_FRAME
    ensures HasFrame(EncodeFrame(f) + rest)
    ensures SizeAt(EncodeFrame(f) + rest) == |f.payload|
    ensures FrameAt(EncodeFrame(f) + rest) == f
    ensures (EncodeFrame(f) + rest)[8 + |f.payload|..] == rest
  {
    hide BigEndian;
    var input := EncodeFrame(f) + rest;
    var n := |f.payload|;
    BigEndianOfDigits(n);
    assert SizeAt(input) == n;
    assert input[8..8 + n] == f.payload;
  }

  lemma {:induction false} PrependFrame(f: Frame, frames: seq<Frame>, tail: seq<byte>)
    requires |f.payload| <= MAX_FRAME && Legal(frames)
    ensures Legal([f] + frames)
    ensures Encode([f] + frames) + tail == EncodeFrame(f) + (Encode(frames) + tail)
  {
    hide EncodeFrame;
    assert ([f] + frames)[1..] == frames;
  }

  lemma {:induction false} DecodeFirst(f: Frame, rest: seq<byte>)
    requires |f.payload| <= MAX_FRAME
    ensures Decode(EncodeFrame(f) + rest) == Decoded([f] + Decode(rest).frames, Decode(rest).tail)
  {
    hide EncodeFrame, SizeAt, FrameAt, HasFrame;
    HeaderHoldsSize(f, rest);
  }

  /** Decoding undoes encoding, whatever the stream types, the padding and the frame lengths. */
  lemma {:induction false} DecodeEncode(frames: seq<Frame>, tail: seq<byte>)
    requires Legal(frames) && !HasFrame(tail)
    ensures Decode(Encode(frames) + tail) == Decoded(frames, tail)
  {
    hide EncodeFrame, HasFrame;
    if frames == [] {
      assert Encode(frames) + tail == tail;
    } else {
      assert [frames[0]] + frames[1..] == frames;
      PrependFrame(frames[0], frames[1..], tail);
      DecodeFirst(frames[0], Encode(frames[1..]) + tail);
      DecodeEncode(frames[1..], tail);
    }
  }

  lemma {:induction false} ReencodeFrame(input: seq<byte>)
    requires HasFrame(input)
    ensures |FrameAt(input).payload| == SizeAt(input)
    ensures EncodeFrame(FrameAt(input)) == input[..8 + SizeAt(input)]
  {
    hide BigEndian;
    DigitsOfBigEndian(input[4], input[5], input[6], input[7]);
    assert input[..8 + SizeAt(input)] == input[..8] + input[8..8 + SizeAt(input)];
  }

  /** Encoding undoes decoding, on every byte string. */
  lemma {:induction false} EncodeDecode(input: seq<byte>)
    ensures Legal(Decode(input).frames) && Encode(Decode(input).frames) + Decode(input).tail == input
    decreases |input|
  {
    DecodeUnfold(input);
    EncodeNone();
    hide *;
    if HasFrame(input) {
      FrameFits(input);
      var n := 8 + SizeAt(input);
      EncodeDecode(input[n..]);
      ReencodeFrame(input);
      PrependFrame(FrameAt(input), Decode(input[n..]).frames, Decode(input[n..]).tail);
      assert input == input[..n] + input[n..];
    }
  }

  lemma FrameFits(input: seq<byte>)
    requires HasFrame(input)
    ensures |input| >= 8 && SizeAt(input) <= |input| - 8
    ensures |FrameAt(input).payload| <= MAX_FRAME
  {
    hide SizeAt;
  }

  lemma EncodeNone()
    ensures Legal([]) && Encode([]) == []
  {
  }

  /** The payload stream the frames carry. */
  function Payloads(frames: seq<Frame>): seq<byte> {
    if frames == [] then [] else Payloads(frames[..|frames| - 1]) + frames[|frames| - 1].payload
  }

  /* ---- The read loop ---- */

  lemma DecodeUnfold(s: seq<byte>)
    ensures if HasFrame(s) then
              Decode(s) == Decoded([FrameAt(s)] + Decode(s[8 + SizeAt(s)..]).frames, Decode(s[8 + SizeAt(s)..]).tail)
            else Decode(s) == Decoded([], s)
  {
    hide SizeAt, FrameAt;
  }

  /** DemuxDockerLogStream on a reader that yields `input` and then ends or fails; cancelled(i) is what the context says
      at the i-th turn of the loop. It feeds the payloads of the first k frames, all of them unless cancelled or
      stopped. */
  method Demux(input: seq<byte>, fails: bool, cancelled: nat -> bool, stop: seq<Line> -> bool)
      returns (delivered: seq<Line>, end: Ending, k: nat)
    ensures k <= |Decode(input).frames|
    ensures delivered == Until([], Lines(Payloads(Decode(input).frames[..k]), MAX_LINE), stop)
    ensures match end
            case Cancelled => cancelled(k)
            case Stopped => Stops([], Lines(Payloads(Decode(input).frames[..k]), MAX_LINE), stop)
            case _ => k == |Decode(input).frames| && end == EndOf(Decode(input).tail, fails)
    ensures end.Ok() <==> end.Cancelled? || end.Stopped? || (!fails && |Decode(input).tail| < 8)
    ensures var tail := Decode(input).tail;
            && (end.HeaderError? ==> fails && |tail| < 8)
            && (end.FrameTooBig? ==> |tail| >= 8 && SizeAt(tail) > 1_048_576)
            && (end.PayloadError? ==> |tail| >= 8 && |tail| - 8 < SizeAt(tail) <= 1_048_576)
  {
    hide Steps, Until, Stops, Decode, Lines, Payloads, BigEndian, FrameAt;
    ghost var whole, fed := Decode(input), [];
    var asm := new LineAssembler(MAX_LINE);
    var rest := input;
    delivered, k := [], 0;
    NoBytes(MAX_LINE, stop);
    while true
      invariant whole.frames == fed + Decode(rest).frames && whole.tail == Decode(rest).tail && k == |fed|
      invariant asm.max == MAX_LINE && |asm.line| <= MAX_LINE
      invariant Progress(asm.line, delivered, false) == Steps(Start, Payloads(fed), MAX_LINE, stop)
      decreases |rest|
    {
      assert whole.frames[..k] == fed;
      DeliversLines([], Payloads(fed), MAX_LINE, stop);
      DecodeUnfold(rest);
      if cancelled(k) {
        return delivered, Cancelled, k;
      }
      if |rest| < 8 {
        return delivered, if fails then HeaderError else CleanEnd, k;
      }
      var size := BigEndian(rest[4], rest[5], rest[6], rest[7]);
      ghost var more := fed;
      if HasFrame(rest) {
        PayloadOf(rest);
        FeedFrame(fed, FrameAt(rest), MAX_LINE, stop);
        more := fed + [FrameAt(rest)];
        assert more + Decode(rest[8 + size..]).frames == fed + ([FrameAt(rest)] + Decode(rest[8 + size..]).frames);
      }
      if size == 0 {
        fed, rest, k := more, rest[8..], k + 1;
        continue;
      }
      if size > MAX_FRAME {
        return delivered, FrameTooBig, k;
      }
      if |rest| - 8 < size {
        return delivered, PayloadError, k;
      }
      var payload := rest[8..8 + size];
      fed, rest, k := more, rest[8 + size..], k + 1;
      var stopped;
      delivered, stopped := asm.Feed(payload, delivered, stop);
      if stopped {
        assert whole.frames[..k] == fed;
        DeliversLines([], Payloads(fed), MAX_LINE, stop);
        return delivered, Stopped, k;
      }
    }
  }

  lemma PayloadOf(rest: seq<byte>)
    requires HasFrame(rest)
    ensures FrameAt(rest).payload == rest[8..8 + SizeAt(rest)]
  {
    hide BigEndian;
  }

  lemma NoBytes(max: nat, stop: seq<Line> -> bool)
    ensures Steps(Start, [], max, stop) == Start && Payloads([]) == []
    ensures forall p :: Steps(p, [], max, stop) == p
  {
  }

  lemma {:induction false} FeedFrame(fed: seq<Frame>, f: Frame, max: nat, stop: seq<Line> -> bool)
    ensures Steps(Start, Payloads(fed + [f]), max, stop)
         == Steps(Steps(Start, Payloads(fed), max, stop), f.payload, max, stop)
  {
    assert (fed + [f])[..|fed|] == fed;
    StepsConcat(Start, Payloads(fed), f.payload, max, stop);
  }

  /** End to end: however a payload stream is chopped into frames, with any stream types, padding and empty frames, and
      whatever incomplete bytes follow, an undisturbed run delivers the lines of the payload stream. */
  method DemuxEncoded(input: seq<byte>, ghost frames: seq<Frame>, ghost tail: seq<byte>, fails: bool)
      returns (delivered: seq<Line>, end: Ending)
    requires Legal(frames) && !HasFrame(tail) && input == Encode(frames) + tail
    ensures delivered == Lines(Payloads(frames), 131_072) && end == EndOf(tail, fails)
    ensures end.Ok() <==> !fails && |tail| < 8
  {
    DecodeEncode(frames, tail);
    var never: seq<Line> -> bool := _ => false;
    var k;
    delivered, end, k := Demux(input, fails, _ => false, never);
    NeverStops([], Lines(Payloads(frames[..k]), MAX_LINE), never);
    assert frames[..|frames|] == frames;
  }
}
