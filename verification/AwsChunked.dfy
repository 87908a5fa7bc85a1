/**
 The aws-chunked decoder of the S3 shim.  A body is a list of frames
 "<hex size>[;extension] CRLF data CRLF", closed by a frame header of size zero; whatever
 follows that header line (trailer lines, the last CRLF) is not looked at.
 */
module AwsChunked {
  import opened ByteStrings
  import opened Common

  const CR: byte := 13
  const LF: byte := 10
  const CRLF: Bytes := [CR, LF]
  const SEMICOLON: byte := 59

  datatype Failure = MissingHeader | BadSize | Truncated | MissingTerminator

  datatype Decoded = Ok(bytes: Bytes) | Err(failure: Failure) {
    function Prepend(head: Bytes): Decoded {
      match this
      case Ok(bytes) => Ok(head + bytes)
      case Err(_) => this
    }
  }

  // ----- The chunk header: parseInt(header.split(";")[0].trim(), 16)

  function UpToSemicolon(h: Bytes): Bytes {
    if h == [] || h[0] == SEMICOLON then [] else [h[0]] + UpToSemicolon(h[1..])
  }

  /** How many bytes of UTF-8 the white space character at the front takes; 0 if there is none.  A byte order
      mark counts: the text decoder drops one at the start, and trim and parseInt drop the others. */
  function SpaceLength(h: Bytes): (n: nat)
    ensures n <= |h|
  {
    if h == [] then 0
    else if 9 <= h[0] <= 13 || h[0] == 32 then 1
    else if |h| >= 2 && h[0] == 0xC2 && h[1] == 0xA0 then 2
    else if |h| >= 3 && ThreeByteSpace(h[0], h[1], h[2]) then 3
    else 0
  }

  predicate ThreeByteSpace(a: byte, b: byte, c: byte) {
    || (a == 0xE1 && b == 0x9A && c == 0x80)
    || (a == 0xE2 && b == 0x80 && (0x80 <= c <= 0x8A || c == 0xA8 || c == 0xA9 || c == 0xAF))
    || (a == 0xE2 && b == 0x81 && c == 0x9F)
    || (a == 0xE3 && b == 0x80 && c == 0x80)
    || (a == 0xEF && b == 0xBB && c == 0xBF)
  }

  /** White space at the end need not be trimmed: parseInt stops at it. */
  function TrimStart(h: Bytes): Bytes {
    if SpaceLength(h) > 0 then TrimStart(h[SpaceLength(h)..]) else h
  }

  predicate IsHexDigit(b: byte) { 48 <= b <= 57 || 65 <= b <= 70 || 97 <= b <= 102 }

  function HexValue(b: byte): nat
    requires IsHexDigit(b)
  {
    if b <= 57 then b - 48 else if b <= 70 then b - 55 else b - 87
  }

  /** The value of the longest run of hex digits at the front, accumulated from the left. */
  function HexPrefix(h: Bytes, acc: nat): nat {
    if h == [] || !IsHexDigit(h[0]) then acc else HexPrefix(h[1..], acc * 16 + HexValue(h[0]))
  }

  /** None stands for NaN. */
  function ParseInt16(h: Bytes): Option<int> {
    var negative := h != [] && h[0] == 45;
    var unsigned := if h != [] && (h[0] == 45 || h[0] == 43) then h[1..] else h;
    var digits :=
      if |unsigned| >= 2 && unsigned[0] == 48 && (unsigned[1] == 120 || unsigned[1] == 88)
      then unsigned[2..] else unsigned;
    if digits == [] || !IsHexDigit(digits[0]) then None
    else
      var magnitude: int := HexPrefix(digits, 0);
      Some(if negative then -magnitude else magnitude)
  }

  function ParseSize(header: Bytes): Option<int> {
    ParseInt16(TrimStart(UpToSemicolon(header)))
  }

  // ----- The decoder as a function of the bytes that are left

  /** Index of the first CRLF, or -1. */
  function LineEnd(b: Bytes): (i: int)
    ensures i == -1 || 0 <= i < |b| - 1
  {
    if |b| < 2 then -1
    else if b[..2] == CRLF then 0
    else
      var i := LineEnd(b[1..]);
      if i < 0 then -1 else i + 1
  }

  /** What the front of the remaining bytes holds. */
  datatype Front = Bad(failure: Failure) | Final | Chunk(data: Bytes, rest: Bytes)

  function NextFrame(b: Bytes): (f: Front)
    ensures f.Chunk? ==> |f.rest| < |b|
  {
    var end := LineEnd(b);
    if end < 0 then Bad(MissingHeader)
    else
      match ParseSize(b[..end])
      case None => Bad(BadSize)
      case Some(size) => AfterHeader(b[end + 2..], size)
  }

  function AfterHeader(b: Bytes, size: int): (f: Front)
    ensures f.Chunk? ==> |f.rest| < |b|
  {
    if size < 0 then Bad(BadSize)
    else if size == 0 then Final
    else if size > |b| then Bad(Truncated)
    else if !(CRLF <= b[size..]) then Bad(MissingTerminator)
    else Chunk(b[..size], b[size + 2..])
  }

  function Decode(b: Bytes): Decoded
    decreases |b|
  {
    match NextFrame(b)
    case Bad(failure) => Err(failure)
    case Final => Ok([])
    case Chunk(data, rest) => Decode(rest).Prepend(data)
  }

  // ----- The decoder as the shim runs it: a cursor, a list of chunks, an output buffer

  ghost predicate NoCrlf(b: Bytes) {
    forall i :: 0 <= i < |b| - 1 ==> !(b[i] == CR && b[i + 1] == LF)
  }

  lemma {:induction false} LineEndAt(b: Bytes, n: nat)
    requires n + 1 < |b| && b[n] == CR && b[n + 1] == LF
    requires forall i :: 0 <= i < n ==> !(b[i] == CR && b[i + 1] == LF)
    ensures LineEnd(b) == n
  {
    if n > 0 {
      assert b[..2][0] == b[0] && b[..2][1] == b[1];
      var t := b[1..];
      forall i | 0 <= i < n - 1 ensures !(t[i] == CR && t[i + 1] == LF) {
        assert t[i] == b[i + 1] && t[i + 1] == b[i + 2];
      }
      LineEndAt(t, n - 1);
    } else {
      assert b[..2] == CRLF;
    }
  }

  lemma {:induction false} LineEndNone(b: Bytes)
    requires NoCrlf(b)
    ensures LineEnd(b) == -1
  {
    if |b| >= 2 {
      assert b[..2][0] == b[0] && b[..2][1] == b[1];
      assert NoCrlf(b[1..]) by {
        forall i | 0 <= i < |b[1..]| - 1 ensures !(b[1..][i] == CR && b[1..][i + 1] == LF) {
          assert b[1..][i] == b[i + 1] && b[1..][i + 1] == b[i + 2];
        }
      }
      LineEndNone(b[1..]);
    }
  }

  lemma {:induction false} LineEndFinds(b: Bytes)
    requires LineEnd(b) >= 0
    ensures b[LineEnd(b)] == CR && b[LineEnd(b) + 1] == LF
    ensures NoCrlf(b[..LineEnd(b)])
  {
    if b[..2] != CRLF {
      LineEndFinds(b[1..]);
      var n := LineEnd(b);
      var h := b[..n];
      forall i | 0 <= i < n - 1 ensures !(h[i] == CR && h[i + 1] == LF) {
        if i > 0 {
          assert b[1..][..n - 1][i - 1] == h[i] && b[1..][..n - 1][i] == h[i + 1];
        } else {
          assert b[..2][0] == h[0] && b[..2][1] == h[1];
        }
      }
    } else {
      assert b[..2][0] == b[0] && b[..2][1] == b[1];
    }
  }

  method FindLineEnd(body: Bytes, from: nat) returns (end: int)
    requires from <= |body|
    ensures LineEnd(body[from..]) < 0 ==> end == -1
    ensures LineEnd(body[from..]) >= 0 ==> end == from + LineEnd(body[from..])
  {
    var i := from;
    while i + 1 < |body|
      invariant from <= i <= |body|
      invariant forall j :: from <= j < i && j + 1 < |body| ==> !(body[j] == CR && body[j + 1] == LF)
    {
      if body[i] == CR && body[i + 1] == LF {
        LineEndAt(body[from..], i - from);
        return i;
      }
      i := i + 1;
    }
    LineEndNone(body[from..]);
    return -1;
  }

  /** One turn of the loop: the header line at pos, its chunk, and the cursor after the chunk. */
  method ReadFrame(body: Bytes, pos: nat) returns (front: Front, next: nat)
    requires pos <= |body|
    ensures front == NextFrame(body[pos..])
    ensures front.Chunk? ==> pos < next <= |body| && front.rest == body[next..]
  {
    next := pos;
    var end := FindLineEnd(body, pos);
    if end < 0 {
      return Bad(MissingHeader), next;
    }
    FrameAt(body, pos, end);
    var size := ParseSize(body[pos..end]);
    if size.None? || size.value < 0 {
      return Bad(BadSize), next;
    }
    front, next := ReadChunk(body, end + 2, size.value);
  }

  /** The rest of the turn, once the header line is behind the cursor. */
  method ReadChunk(body: Bytes, pos: nat, size: nat) returns (front: Front, next: nat)
    requires pos <= |body|
    ensures front == FrontAt(body, pos, size)
    ensures front.Chunk? ==> pos < next <= |body| && front.rest == body[next..]
  {
    next := pos;
    if size == 0 {
      return Final, next;
    }
    if next + size > |body| {
      return Bad(Truncated), next;
    }
    var datum := body[next..next + size];
    next := next + size;
    if next + 1 >= |body| || body[next] != CR || body[next + 1] != LF {
      return Bad(MissingTerminator), next;
    }
    next := next + 2;
    front := Chunk(datum, body[next..]);
  }

  method DecodeAwsChunked(body: Bytes) returns (r: Decoded)
    ensures r == Decode(body)
  {
    var chunks: seq<Bytes> := [];
    var total := 0;
    var pos := 0;
    assert body[0..] == body;
    while true
      invariant 0 <= pos <= |body|
      invariant Decode(body) == Decode(body[pos..]).Prepend(Concat(chunks))
      invariant total == |Concat(chunks)|
      decreases |body| - pos
    {
      var front, next := ReadFrame(body, pos);
      if front.Bad? {
        return Err(front.failure);
      }
      if front.Final? {
        break;
      }
      AppendChunk(chunks, front.data);
      PrependTwice(Decode(front.rest), Concat(chunks), front.data);
      chunks := chunks + [front.data];
      total := total + |front.data|;
      pos := next;
    }
    var out := FillOutput(chunks, total);
    r := Ok(out[..]);
  }

  /** NextFrame of the suffix at pos, in terms of positions in the whole body. */
  lemma FrameAt(body: Bytes, pos: nat, end: int)
    requires pos <= |body| && LineEnd(body[pos..]) >= 0 && end == pos + LineEnd(body[pos..])
    ensures NextFrame(body[pos..]) ==
            match ParseSize(body[pos..end])
            case None => Bad(BadSize)
            case Some(size) => FrontAt(body, end + 2, size)
  {
    assert body[pos..][..end - pos] == body[pos..end];
    assert body[pos..][end - pos + 2..] == body[end + 2..];
    match ParseSize(body[pos..end])
    case None =>
    case Some(size) => AfterHeaderAt(body, end + 2, size);
  }

  ghost function FrontAt(body: Bytes, pos: nat, size: int): Front
    requires pos <= |body|
  {
    if size < 0 then Bad(BadSize)
    else if size == 0 then Final
    else if pos + size > |body| then Bad(Truncated)
    else if pos + size + 1 >= |body| || body[pos + size] != CR || body[pos + size + 1] != LF then Bad(MissingTerminator)
    else Chunk(body[pos..pos + size], body[pos + size + 2..])
  }

  lemma AfterHeaderAt(body: Bytes, pos: nat, size: int)
    requires pos <= |body|
    ensures AfterHeader(body[pos..], size) == FrontAt(body, pos, size)
  {
    if 0 < size <= |body| - pos {
      var b := body[pos..];
      assert b[..size] == body[pos..pos + size];
      assert b[size..] == body[pos + size..];
      if pos + size + 1 < |body| {
        assert b[size + 2..] == body[pos + size + 2..];
      }
    }
  }

  lemma PrependTwice(d: Decoded, a: Bytes, b: Bytes)
    ensures d.Prepend(b).Prepend(a) == d.Prepend(a + b)
  {
    if d.Ok? {
      assert a + (b + d.bytes) == (a + b) + d.bytes;
    }
  }

  method FillOutput(chunks: seq<Bytes>, total: nat) returns (out: array<byte>)
    requires total == |Concat(chunks)|
    ensures fresh(out) && out[..] == Concat(chunks)
  {
    out := new byte[total];
    var off := 0;
    assert chunks[..|chunks|] == chunks;
    for k := 0 to |chunks|
      invariant off == |Concat(chunks[..k])| <= total
      invariant out[..off] == Concat(chunks[..k])
    {
      var c := chunks[k];
      assert chunks[..k + 1][..k] == chunks[..k];
      ConcatPrefix(chunks, k + 1);
      forall i | 0 <= i < |c| {
        out[off + i] := c[i];
      }
      assert out[..off + |c|] == Concat(chunks[..k]) + c;
      off := off + |c|;
    }
  }

  lemma {:induction false} ConcatPrefix(chunks: seq<Bytes>, k: nat)
    requires k <= |chunks|
    ensures |Concat(chunks[..k])| <= |Concat(chunks)|
    decreases |chunks| - k
  {
    if k == |chunks| {
      assert chunks[..k] == chunks;
    } else {
      ConcatPrefix(chunks, k + 1);
      assert chunks[..k + 1][..k] == chunks[..k];
    }
  }

  // ----- The wire format

  /** One data frame: its header line (size and extension, without CRLF) and its payload. */
  datatype Frame = Frame(line: Bytes, data: Bytes)

  ghost predicate IsHeader(line: Bytes, size: nat) {
    NoCrlf(line) && ParseSize(line) == Some(size)
  }

  ghost predicate ValidFrame(f: Frame) {
    f.data != [] && IsHeader(f.line, |f.data|)
  }

  ghost function Wire(f: Frame): Bytes {
    f.line + CRLF + f.data + CRLF
  }

  /** All frames, the zero-size header line, and whatever comes after it. */
  ghost function Body(frames: seq<Frame>, last: Bytes, trailer: Bytes): Bytes {
    if frames == [] then last + CRLF + trailer
    else Wire(frames[0]) + Body(frames[1..], last, trailer)
  }

  ghost function Payload(frames: seq<Frame>): Bytes {
    if frames == [] then [] else frames[0].data + Payload(frames[1..])
  }

  ghost predicate ValidBody(frames: seq<Frame>, last: Bytes) {
    (forall i :: 0 <= i < |frames| ==> ValidFrame(frames[i])) && IsHeader(last, 0)
  }

  lemma LineThenCrlf(line: Bytes, b: Bytes)
    requires NoCrlf(line)
    ensures LineEnd(line + CRLF + b) == |line|
    ensures (line + CRLF + b)[..|line|] == line
  {
    var whole := line + CRLF + b;
    forall i | 0 <= i < |line| ensures !(whole[i] == CR && whole[i + 1] == LF) {
      assert whole[i] == line[i];
      assert i + 1 < |line| ==> whole[i + 1] == line[i + 1];
    }
    LineEndAt(whole, |line|);
  }

  lemma FrameIsNext(f: Frame, b: Bytes)
    requires ValidFrame(f)
    ensures NextFrame(Wire(f) + b) == Chunk(f.data, b)
  {
    var tail := f.data + CRLF + b;
    var whole := f.line + CRLF + tail;
    assert Wire(f) + b == whole;
    LineThenCrlf(f.line, tail);
    assert whole[|f.line| + 2..] == tail;
    AfterValidHeader(f.data, b);
  }

  lemma AfterValidHeader(data: Bytes, b: Bytes)
    requires data != []
    ensures AfterHeader(data + CRLF + b, |data|) == Chunk(data, b)
  {
    var tail := data + CRLF + b;
    assert tail[|data|..] == CRLF + b;
    assert tail[..|data|] == data && tail[|data| + 2..] == b;
  }

  /** Every framed body decodes to the concatenation of its payloads, whatever the trailer. */
  lemma {:induction false} DecodeBody(frames: seq<Frame>, last: Bytes, trailer: Bytes)
    requires ValidBody(frames, last)
    ensures Decode(Body(frames, last, trailer)) == Ok(Payload(frames))
  {
    if frames == [] {
      LineThenCrlf(last, trailer);
    } else {
      DecodeBody(frames[1..], last, trailer);
      FrameIsNext(frames[0], Body(frames[1..], last, trailer));
    }
  }

  /** Conversely, only framed bodies are accepted. */
  lemma {:induction false} AcceptedIsFramed(b: Bytes) returns (frames: seq<Frame>, last: Bytes, trailer: Bytes)
    requires Decode(b).Ok?
    ensures ValidBody(frames, last) && b == Body(frames, last, trailer)
    ensures Decode(b).bytes == Payload(frames)
    decreases |b|
  {
    match NextFrame(b)
    case Final =>
      LineEndFinds(b);
      last, trailer := b[..LineEnd(b)], b[LineEnd(b) + 2..];
      frames := [];
      assert b == last + CRLF + trailer;
    case Chunk(data, rest) =>
      var f := FrameOf(b);
      var fs;
      fs, last, trailer := AcceptedIsFramed(rest);
      frames := [f] + fs;
      assert frames[1..] == fs && frames[0] == f;
  }

  lemma FrameOf(b: Bytes) returns (f: Frame)
    requires NextFrame(b).Chunk?
    ensures ValidFrame(f) && b == Wire(f) + NextFrame(b).rest && f.data == NextFrame(b).data
  {
    LineEndFinds(b);
    var end := LineEnd(b);
    var data, rest := NextFrame(b).data, NextFrame(b).rest;
    f := Frame(b[..end], data);
    SplitAfterHeader(b[end + 2..], ParseSize(f.line).value);
    assert b == f.line + CRLF + (data + CRLF + rest);
    assert f.line + CRLF + (data + CRLF + rest) == Wire(f) + rest;
  }

  lemma SplitAfterHeader(b: Bytes, size: int)
    requires AfterHeader(b, size).Chunk?
    ensures var front := AfterHeader(b, size);
            |front.data| == size > 0 && b == front.data + CRLF + front.rest
  {
    assert b == b[..size] + b[size..];
    assert b[size..] == CRLF + b[size + 2..];
  }

  /** The accepted inputs and what they decode to, exactly. */
  lemma DecodeCharacterised(b: Bytes, out: Bytes)
    ensures Decode(b) == Ok(out) <==>
            exists frames, last, trailer ::
              ValidBody(frames, last) && b == Body(frames, last, trailer) && out == Payload(frames)
  {
    if Decode(b) == Ok(out) {
      var frames, last, trailer := AcceptedIsFramed(b);
    }
    forall frames, last, trailer
      | ValidBody(frames, last) && b == Body(frames, last, trailer) && out == Payload(frames)
      ensures Decode(b) == Ok(out)
    {
      DecodeBody(frames, last, trailer);
    }
  }

  // ----- Cut uploads

  lemma NoCrlfInCutLine(line: Bytes, b: Bytes, k: nat)
    requires NoCrlf(line) && k < |line| + 2
    ensures NoCrlf((line + CRLF + b)[..k])
  {
    var cut := (line + CRLF + b)[..k];
    forall i | 0 <= i < |cut| - 1 ensures !(cut[i] == CR && cut[i + 1] == LF) {
      assert cut[i] == (line + CRLF)[i] && cut[i + 1] == (line + CRLF)[i + 1];
      assert i < |line|;
      assert cut[i] == line[i];
      assert i + 1 < |line| ==> cut[i + 1] == line[i + 1];
    }
  }

  lemma CutInsideFrame(f: Frame, b: Bytes, k: nat)
    requires ValidFrame(f) && k < |Wire(f)|
    ensures Decode((Wire(f) + b)[..k]).Err?
  {
    var tail := f.data + CRLF + b;
    assert Wire(f) + b == f.line + CRLF + tail;
    var cut := (f.line + CRLF + tail)[..k];
    if k < |f.line| + 2 {
      NoCrlfInCutLine(f.line, tail, k);
      LineEndNone(cut);
    } else {
      var m := k - |f.line| - 2;
      assert cut == f.line + CRLF + tail[..m];
      LineThenCrlf(f.line, tail[..m]);
      assert cut[|f.line| + 2..] == tail[..m];
    }
  }

  lemma CutAfterFrame(f: Frame, b: Bytes, k: nat)
    requires ValidFrame(f) && |Wire(f)| <= k <= |Wire(f) + b|
    requires Decode(b[..k - |Wire(f)|]).Err?
    ensures Decode((Wire(f) + b)[..k]).Err?
  {
    var rest := b[..k - |Wire(f)|];
    assert (Wire(f) + b)[..k] == Wire(f) + rest;
    FrameIsNext(f, rest);
  }

  lemma CutLastLine(last: Bytes, trailer: Bytes, k: nat)
    requires NoCrlf(last) && k < |last| + 2
    ensures Decode((last + CRLF + trailer)[..k]).Err?
  {
    NoCrlfInCutLine(last, trailer, k);
    LineEndNone((last + CRLF + trailer)[..k]);
  }

  /** A body cut anywhere before its zero-size header line is complete is rejected. */
  lemma {:induction false} CutBodyIsRejected(frames: seq<Frame>, last: Bytes, trailer: Bytes, k: nat)
    requires ValidBody(frames, last)
    requires k < |Body(frames, last, [])|
    ensures k <= |Body(frames, last, trailer)|
    ensures Decode(Body(frames, last, trailer)[..k]).Err?
  {
    BodyLength(frames, last, trailer);
    if frames == [] {
      CutLastLine(last, trailer, k);
    } else {
      var head, tail := Wire(frames[0]), Body(frames[1..], last, trailer);
      if k < |head| {
        CutInsideFrame(frames[0], tail, k);
      } else {
        CutBodyIsRejected(frames[1..], last, trailer, k - |head|);
        CutAfterFrame(frames[0], tail, k);
      }
    }
  }

  lemma {:induction false} BodyLength(frames: seq<Frame>, last: Bytes, trailer: Bytes)
    ensures |Body(frames, last, trailer)| == |Body(frames, last, [])| + |trailer|
  {
    if frames != [] {
      BodyLength(frames[1..], last, trailer);
    }
  }

  // ----- What the clients send: a hex size, then nothing or ";extension"

  /** The byte stands for the digit k, in either case. */
  predicate Shows(d: byte, k: nat) {
    if k < 10 then d == '0' as int + k else k < 16 && (d == 'a' as int + k - 10 || d == 'A' as int + k - 10)
  }

  /** The digits write n in hex, in either case and with any number of leading zeros. */
  predicate WritesHex(h: Bytes, n: nat) {
    if h == [] then n == 0 else Shows(h[|h| - 1], n % 16) && WritesHex(h[..|h| - 1], n / 16)
  }

  lemma {:induction false} EverySizeIsWritten(n: nat) returns (h: Bytes)
    ensures h != [] && WritesHex(h, n)
  {
    var d: byte := if n % 16 < 10 then 48 + n % 16 else 87 + n % 16;
    if n < 16 {
      h := [d];
    } else {
      h := EverySizeIsWritten(n / 16);
      h := h + [d];
    }
  }

  lemma {:induction false} HexPrefixAppend(a: Bytes, d: byte, acc: nat)
    requires forall i :: 0 <= i < |a| ==> IsHexDigit(a[i])
    requires IsHexDigit(d)
    ensures HexPrefix(a + [d], acc) == HexPrefix(a, acc) * 16 + HexValue(d)
  {
    if a == [] {
      assert a + [d] == [d];
      assert HexPrefix([d][1..], acc * 16 + HexValue(d)) == acc * 16 + HexValue(d);
    } else {
      assert (a + [d])[1..] == a[1..] + [d];
      HexPrefixAppend(a[1..], d, acc * 16 + HexValue(a[0]));
    }
  }

  lemma {:induction false} ParseUndoesWriting(h: Bytes, n: nat)
    requires WritesHex(h, n)
    ensures HexPrefix(h, 0) == n && forall i :: 0 <= i < |h| ==> IsHexDigit(h[i])
  {
    if h != [] {
      var front, last := h[..|h| - 1], h[|h| - 1];
      ParseUndoesWriting(front, n / 16);
      HexPrefixAppend(front, last, 0);
      assert h == front + [last];
    }
  }

  lemma {:induction false} UpToSemicolonStops(h: Bytes, ext: Bytes)
    requires SEMICOLON !in h
    requires ext == [] || ext[0] == SEMICOLON
    ensures UpToSemicolon(h + ext) == h
  {
    if h == [] {
      assert h + ext == ext;
    } else {
      assert (h + ext)[1..] == h[1..] + ext;
      UpToSemicolonStops(h[1..], ext);
    }
  }

  /** Hex digits alone have no white space, sign or prefix in front of them. */
  lemma HexIsParsed(h: Bytes)
    requires h != [] && forall i :: 0 <= i < |h| ==> IsHexDigit(h[i])
    ensures ParseInt16(TrimStart(h)) == Some(HexPrefix(h, 0))
  {
    assert IsHexDigit(h[0]) && SpaceLength(h) == 0;
    assert |h| >= 2 ==> IsHexDigit(h[1]);
  }

  /** A size written in hex, with any CRLF-free extension, is a header of that size. */
  lemma CanonicalHeader(h: Bytes, n: nat, ext: Bytes)
    requires h != [] && WritesHex(h, n)
    requires ext == [] || ext[0] == SEMICOLON
    requires NoCrlf(ext)
    ensures IsHeader(h + ext, n)
  {
    ParseUndoesWriting(h, n);
    UpToSemicolonStops(h, ext);
    HexIsParsed(h);
    var line := h + ext;
    forall i | 0 <= i < |line| - 1 ensures !(line[i] == CR && line[i + 1] == LF) {
      if i < |h| {
        assert IsHexDigit(line[i]);
      } else {
        assert line[i] == ext[i - |h|] && line[i + 1] == ext[i - |h| + 1];
      }
    }
  }

  /** A chunk of a client's upload, with its size as written and its extension. */
  datatype Upload = Upload(data: Bytes, size: Bytes, ext: Bytes)

  ghost predicate ValidExt(ext: Bytes) {
    NoCrlf(ext) && (ext == [] || ext[0] == SEMICOLON)
  }

  ghost predicate ValidUploads(us: seq<Upload>) {
    forall i :: 0 <= i < |us| ==>
      us[i].data != [] && us[i].size != [] && WritesHex(us[i].size, |us[i].data|) && ValidExt(us[i].ext)
  }

  /** The last line of a body: zeros and an extension. */
  ghost predicate ValidEnd(zeros: Bytes, ext: Bytes) {
    zeros != [] && WritesHex(zeros, 0) && ValidExt(ext)
  }

  ghost function Frames(us: seq<Upload>): seq<Frame> {
    seq(|us|, i requires 0 <= i < |us| => Frame(us[i].size + us[i].ext, us[i].data))
  }

  ghost function Joined(us: seq<Upload>): Bytes {
    if us == [] then [] else us[0].data + Joined(us[1..])
  }

  lemma {:induction false} PayloadIsJoined(us: seq<Upload>)
    ensures Payload(Frames(us)) == Joined(us)
  {
    if us != [] {
      assert Frames(us)[1..] == Frames(us[1..]);
      PayloadIsJoined(us[1..]);
    }
  }

  lemma UploadIsValidBody(us: seq<Upload>, zeros: Bytes, lastExt: Bytes)
    requires ValidUploads(us) && ValidEnd(zeros, lastExt)
    ensures ValidBody(Frames(us), zeros + lastExt)
  {
    forall i | 0 <= i < |us| ensures ValidFrame(Frames(us)[i]) {
      CanonicalHeader(us[i].size, |us[i].data|, us[i].ext);
    }
    CanonicalHeader(zeros, 0, lastExt);
  }

  /** Every chunked upload decodes to the joined chunks, whatever extensions and trailer it has. */
  lemma UploadRoundTrip(us: seq<Upload>, zeros: Bytes, lastExt: Bytes, trailer: Bytes)
    requires ValidUploads(us) && ValidEnd(zeros, lastExt)
    ensures Decode(Body(Frames(us), zeros + lastExt, trailer)) == Ok(Joined(us))
  {
    UploadIsValidBody(us, zeros, lastExt);
    DecodeBody(Frames(us), zeros + lastExt, trailer);
    PayloadIsJoined(us);
  }

  /** Every chunked upload cut before the end of its last line is refused. */
  lemma CutUploadIsRejected(us: seq<Upload>, zeros: Bytes, lastExt: Bytes, trailer: Bytes, k: nat)
    requires ValidUploads(us) && ValidEnd(zeros, lastExt)
    requires k < |Body(Frames(us), zeros + lastExt, [])|
    ensures k <= |Body(Frames(us), zeros + lastExt, trailer)|
    ensures Decode(Body(Frames(us), zeros + lastExt, trailer)[..k]).Err?
  {
    UploadIsValidBody(us, zeros, lastExt);
    CutBodyIsRejected(Frames(us), zeros + lastExt, trailer, k);
  }
}
