/** The terminal auditor (apps/api/src/auth/exec-audit.ts): bytes in, lines of at most 4096 bytes out. */
module ExecAudit {
  import Bits

  type Byte = Bits.Byte

  const MAX_LINE_BYTES := 4 * 1024
  const MAX_BUFFER_BYTES := 16 * 1024

  predicate IsSeparator(b: Byte) {
    b == 0x0a || b == 0x0d
  }

  // ----- What should come out -----------------------------------------------------------------------

  /** The pieces between separators; the last one is still open. */
  function Segments(bytes: seq<Byte>): (r: seq<seq<Byte>>)
    ensures |r| > 0
  {
    if bytes == [] then [[]]
    else if IsSeparator(bytes[0]) then [[]] + Segments(bytes[1..])
    else Longer(bytes[0], Segments(bytes[1..]))
  }

  /** The first segment begins with `b`. */
  function Longer(b: Byte, segments: seq<seq<Byte>>): (r: seq<seq<Byte>>)
    requires |segments| > 0
    ensures |r| == |segments|
  {
    [[b] + segments[0]] + segments[1..]
  }

  /** The last segment ends with `b`. */
  function Extended(segments: seq<seq<Byte>>, b: Byte): seq<seq<Byte>>
    requires |segments| > 0
  {
    segments[..|segments| - 1] + [segments[|segments| - 1] + [b]]
  }

  /** A line keeps its first 4096 bytes. */
  function Cut(segment: seq<Byte>): seq<Byte> {
    if |segment| <= MAX_LINE_BYTES then segment else segment[..MAX_LINE_BYTES]
  }

  /** The non-empty segments, each cut. */
  function Lines(segments: seq<seq<Byte>>): seq<seq<Byte>> {
    if segments == [] then []
    else (if segments[0] == [] then [] else [Cut(segments[0])]) + Lines(segments[1..])
  }

  function Closed(bytes: seq<Byte>): seq<seq<Byte>> {
    var s := Segments(bytes);
    s[..|s| - 1]
  }

  function Open(bytes: seq<Byte>): seq<Byte> {
    var s := Segments(bytes);
    s[|s| - 1]
  }

  /** Bytes beyond the first 4096 of their segment. */
  function Excess(segments: seq<seq<Byte>>): nat {
    if segments == [] then 0 else |segments[0]| - |Cut(segments[0])| + Excess(segments[1..])
  }

  function Size(lines: seq<seq<Byte>>): nat {
    if lines == [] then 0 else |lines[0]| + Size(lines[1..])
  }

  function Separators(bytes: seq<Byte>): nat {
    if bytes == [] then 0 else (if IsSeparator(bytes[0]) then 1 else 0) + Separators(bytes[1..])
  }

  // ----- One more byte ------------------------------------------------------------------------------

  lemma LongerExtended(a: Byte, segments: seq<seq<Byte>>, b: Byte)
    requires |segments| > 0
    ensures Longer(a, Extended(segments, b)) == Extended(Longer(a, segments), b)
    ensures Longer(a, segments + [[]]) == Longer(a, segments) + [[]]
  {
    if |segments| == 1 {
      assert [a] + (segments[0] + [b]) == [a] + segments[0] + [b];
    }
  }

  lemma EmptyExtended(segments: seq<seq<Byte>>, b: Byte)
    requires |segments| > 0
    ensures Extended([[]] + segments, b) == [[]] + Extended(segments, b)
  {
  }

  lemma SegmentsOne(b: Byte)
    ensures Segments([b]) == if IsSeparator(b) then [[], []] else [[b]]
  {
    assert [b][1..] == [];
    assert [b] + [] == [b];
  }

  lemma {:induction false} SegmentsSnoc(bytes: seq<Byte>, b: Byte)
    ensures Segments(bytes + [b]) == if IsSeparator(b) then Segments(bytes) + [[]] else Extended(Segments(bytes), b)
  {
    if bytes == [] {
      assert bytes + [b] == [b];
      SegmentsOne(b);
      assert [] + [b] == [b];
    } else {
      var rest := Segments(bytes[1..]);
      SegmentsSnoc(bytes[1..], b);
      assert (bytes + [b])[1..] == bytes[1..] + [b];
      LongerExtended(bytes[0], rest, b);
      EmptyExtended(rest, b);
      assert [[]] + (rest + [[]]) == [[]] + rest + [[]];
    }
  }

  lemma {:induction false} LinesSnoc(segments: seq<seq<Byte>>, last: seq<Byte>)
    ensures Lines(segments + [last]) == Lines(segments) + if last == [] then [] else [Cut(last)]
    ensures Excess(segments + [last]) == Excess(segments) + |last| - |Cut(last)|
  {
    if segments == [] {
      assert segments + [last] == [last];
    } else {
      LinesSnoc(segments[1..], last);
      assert (segments + [last])[1..] == segments[1..] + [last];
    }
  }

  /** The state of the auditor is a function of the bytes so far. */
  ghost predicate Agrees(bytes: seq<Byte>, flushed: seq<seq<Byte>>, buf: seq<Byte>, dropped: nat) {
    && flushed == Lines(Closed(bytes))
    && buf == Cut(Open(bytes))
    && dropped == Excess(Segments(bytes))
  }

  lemma SplitLast(bytes: seq<Byte>)
    ensures Segments(bytes) == Closed(bytes) + [Open(bytes)]
  {
  }

  lemma SeparatorAgrees(bytes: seq<Byte>, b: Byte)
    requires IsSeparator(b)
    ensures Closed(bytes + [b]) == Segments(bytes) && Open(bytes + [b]) == []
    ensures Lines(Closed(bytes + [b])) == Lines(Closed(bytes)) + if Open(bytes) == [] then [] else [Cut(Open(bytes))]
    ensures Excess(Segments(bytes + [b])) == Excess(Segments(bytes))
  {
    SegmentsSnoc(bytes, b);
    SplitLast(bytes);
    LinesSnoc(Closed(bytes), Open(bytes));
    LinesSnoc(Segments(bytes), []);
  }

  lemma OtherAgrees(bytes: seq<Byte>, b: Byte)
    requires !IsSeparator(b)
    ensures Closed(bytes + [b]) == Closed(bytes) && Open(bytes + [b]) == Open(bytes) + [b]
    ensures Excess(Segments(bytes + [b]))
         == Excess(Segments(bytes)) + if |Open(bytes)| >= MAX_LINE_BYTES then 1 else 0
  {
    SegmentsSnoc(bytes, b);
    SplitLast(bytes);
    SplitLast(bytes + [b]);
    LinesSnoc(Closed(bytes), Open(bytes));
    LinesSnoc(Closed(bytes), Open(bytes) + [b]);
  }

  // ----- Typed lines --------------------------------------------------------------------------------

  /** A line as it is typed: text without line feeds and carriage returns, and one of these behind it. */
  datatype Typed = Typed(text: seq<Byte>, end: Byte)

  predicate IsTyped(line: Typed) {
    (line.end == 10 || line.end == 13) && forall i | 0 <= i < |line.text| :: line.text[i] != 10 && line.text[i] != 13
  }

  function Keys(lines: seq<Typed>): seq<Byte> {
    if lines == [] then [] else lines[0].text + ([lines[0].end] + Keys(lines[1..]))
  }

  /** Up to 4096 bytes of each line that is not empty. */
  function Recorded(lines: seq<Typed>): seq<seq<Byte>> {
    if lines == [] then []
    else if lines[0].text == [] then Recorded(lines[1..])
    else [if |lines[0].text| <= 4096 then lines[0].text else lines[0].text[..4096]] + Recorded(lines[1..])
  }

  function Beyond(lines: seq<Typed>): nat {
    if lines == [] then 0
    else (if |lines[0].text| <= 4096 then 0 else |lines[0].text| - 4096) + Beyond(lines[1..])
  }

  lemma {:induction false} SegmentsOfLine(text: seq<Byte>, end: Byte, rest: seq<Byte>)
    requires IsTyped(Typed(text, end))
    ensures Segments(text + ([end] + rest)) == [text] + Segments(rest)
  {
    if text == [] {
      assert text + ([end] + rest) == [end] + rest;
      assert ([end] + rest)[1..] == rest;
    } else {
      var all := text + ([end] + rest);
      assert all[1..] == text[1..] + ([end] + rest);
      SegmentsOfLine(text[1..], end, rest);
      assert [text[0]] + text[1..] == text;
      assert ([text[1..]] + Segments(rest))[1..] == Segments(rest);
    }
  }

  /** What is recorded of typed lines is exactly these lines, and what is dropped exactly the rest of the long ones. */
  lemma {:induction false} TypedIsRecorded(lines: seq<Typed>)
    requires forall i | 0 <= i < |lines| :: IsTyped(lines[i])
    ensures Lines(Segments(Keys(lines))) == Recorded(lines) && Excess(Segments(Keys(lines))) == Beyond(lines)
  {
    if lines == [] {
      assert Segments([]) == [[]];
    } else {
      var text, rest := lines[0].text, Keys(lines[1..]);
      TypedIsRecorded(lines[1..]);
      SegmentsOfLine(text, lines[0].end, rest);
      assert ([text] + Segments(rest))[1..] == Segments(rest);
    }
  }

  // ----- Conservation -------------------------------------------------------------------------------

  lemma {:induction false} SegmentsCount(bytes: seq<Byte>)
    ensures |bytes| == Size(Segments(bytes)) + Separators(bytes)
    ensures |Segments(bytes)| == Separators(bytes) + 1
  {
    if bytes != [] {
      SegmentsCount(bytes[1..]);
      var rest, s := Segments(bytes[1..]), Segments(bytes);
      if IsSeparator(bytes[0]) {
        assert s[1..] == rest;
      } else {
        assert s[1..] == rest[1..];
      }
    }
  }

  lemma {:induction false} LinesCount(segments: seq<seq<Byte>>)
    ensures Size(segments) == Size(Lines(segments)) + Excess(segments)
  {
    if segments != [] {
      LinesCount(segments[1..]);
      if segments[0] == [] {
        assert [] + Lines(segments[1..]) == Lines(segments[1..]);
      } else {
        assert ([Cut(segments[0])] + Lines(segments[1..]))[1..] == Lines(segments[1..]);
      }
    }
  }

  lemma {:induction false} SizeSnoc(lines: seq<seq<Byte>>, last: seq<Byte>)
    ensures Size(lines + [last]) == Size(lines) + |last|
  {
    if lines == [] {
      assert lines + [last] == [last];
    } else {
      SizeSnoc(lines[1..], last);
      assert (lines + [last])[1..] == lines[1..] + [last];
    }
  }

  /** Every byte is a separator, part of a flushed line, in the buffer, or counted as dropped. */
  lemma EveryByteAccounted(bytes: seq<Byte>, flushed: seq<seq<Byte>>, buf: seq<Byte>, dropped: nat)
    requires Agrees(bytes, flushed, buf, dropped)
    ensures |bytes| == Separators(bytes) + Size(flushed) + |buf| + dropped
  {
    SegmentsCount(bytes);
    LinesCount(Segments(bytes));
    SplitLast(bytes);
    SizeOfLines(Closed(bytes), Open(bytes));
  }

  lemma SizeOfLines(segments: seq<seq<Byte>>, last: seq<Byte>)
    ensures Size(Lines(segments + [last])) == Size(Lines(segments)) + |Cut(last)|
  {
    LinesSnoc(segments, last);
    if last == [] {
      assert Lines(segments) + [] == Lines(segments);
    } else {
      SizeSnoc(Lines(segments), Cut(last));
    }
  }

  /** No line is empty or too long. */
  lemma {:induction false} LinesFit(segments: seq<seq<Byte>>)
    ensures forall line <- Lines(segments) :: 0 < |line| <= MAX_LINE_BYTES
  {
    if segments != [] {
      LinesFit(segments[1..]);
    }
  }

  // ----- The auditor --------------------------------------------------------------------------------

  function Flatten(chunks: seq<seq<Byte>>): seq<Byte> {
    if chunks == [] then [] else Flatten(chunks[..|chunks| - 1]) + chunks[|chunks| - 1]
  }

  class Auditor {
    var buf: seq<Byte>
    var dropped: nat
    /** The lines handed over for encryption and storage. */
    var flushed: seq<seq<Byte>>
    /** All bytes fed. */
    ghost var bytes: seq<Byte>

    ghost predicate Valid()
      reads this
    {
      Agrees(bytes, flushed, buf, dropped)
    }

    constructor ()
      ensures Valid() && bytes == []
    {
      buf, dropped, flushed, bytes := [], 0, [], [];
    }

    method FlushLine()
      modifies this
      ensures flushed == old(flushed) + [old(buf)] && buf == []
      ensures dropped == old(dropped) && bytes == old(bytes)
    {
      flushed := flushed + [buf];
      buf := [];
    }

    /** The body of the loop of `feed`. */
    method FeedByte(b: Byte)
      requires Valid()
      modifies this
      ensures Valid() && bytes == old(bytes) + [b]
    {
      if IsSeparator(b) {
        SeparatorAgrees(bytes, b);
        if |buf| > 0 {
          FlushLine();
        }
      } else {
        OtherAgrees(bytes, b);
        if |buf| >= MAX_LINE_BYTES {
          dropped := dropped + 1;
        } else {
          buf := buf + [b];
        }
      }
      bytes := bytes + [b];
    }

    /** `feed`. The buffer never exceeds a line, so the reset at 16 KB is never taken. */
    method Feed(chunk: seq<Byte>)
      requires Valid()
      modifies this
      ensures Valid() && bytes == old(bytes) + chunk
      ensures |buf| <= MAX_LINE_BYTES
    {
      for i := 0 to |chunk|
        invariant Valid() && bytes == old(bytes) + chunk[..i]
      {
        FeedByte(chunk[i]);
      }
      if |buf| > MAX_BUFFER_BYTES {
        assert false;
      }
    }

    /** `flushFinal`: every non-empty segment has now been flushed. */
    method FlushFinal()
      requires Valid()
      modifies this
      ensures buf == [] && flushed == Lines(Segments(old(bytes)))
      ensures dropped == old(dropped)
    {
      SplitLast(bytes);
      LinesSnoc(Closed(bytes), Open(bytes));
      if |buf| > 0 {
        FlushLine();
      }
    }
  }

  /** A whole session: the lines depend on the bytes alone, not on how they were cut into chunks. */
  method Session(chunks: seq<seq<Byte>>) returns (lines: seq<seq<Byte>>, dropped: nat)
    ensures lines == Lines(Segments(Flatten(chunks)))
    ensures forall typed: seq<Typed> |
              Flatten(chunks) == Keys(typed) && forall i | 0 <= i < |typed| :: IsTyped(typed[i]) ::
              lines == Recorded(typed) && dropped == Beyond(typed)
    ensures dropped == Excess(Segments(Flatten(chunks)))
    ensures |Flatten(chunks)| == Separators(Flatten(chunks)) + Size(lines) + dropped
  {
    var auditor := new Auditor();
    for i := 0 to |chunks|
      invariant auditor.Valid() && auditor.bytes == Flatten(chunks[..i])
    {
      assert chunks[..i + 1][..i] == chunks[..i];
      auditor.Feed(chunks[i]);
    }
    assert chunks[..|chunks|] == chunks;
    auditor.FlushFinal();
    lines, dropped := auditor.flushed, auditor.dropped;
    SegmentsCount(Flatten(chunks));
    LinesCount(Segments(Flatten(chunks)));
    forall typed: seq<Typed> | Flatten(chunks) == Keys(typed) && forall i | 0 <= i < |typed| :: IsTyped(typed[i])
      ensures lines == Recorded(typed) && dropped == Beyond(typed)
    {
      TypedIsRecorded(typed);
    }
  }
}
