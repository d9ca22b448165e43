/**
 The timed narration response: a timing manifest and an Ogg file as two parts of one multipart body, and its
 reading by section 5.1.1 of RFC 2046. Octets are characters.
 */
module Multipart {
  import opened Prelude

  const CRLF := "\r\n"

  predicate Occurs(s: string, t: string, i: nat) {
    i + |t| <= |s| && forall j | 0 <= j < |t| :: s[i + j] == t[j]
  }

  ghost predicate Contains(s: string, t: string) {
    exists i: nat :: Occurs(s, t, i)
  }

  function FindFrom(s: string, t: string, from: nat): (r: Option<nat>)
    requires from <= |s|
    ensures r.Some? ==> from <= r.value && Occurs(s, t, r.value)
    ensures forall i: nat | from <= i && (r.None? || i < r.value) :: !Occurs(s, t, i)
    decreases |s| - from
  {
    if Occurs(s, t, from) then Some(from)
    else if from == |s| then None
    else FindFrom(s, t, from + 1)
  }

  function Find(s: string, t: string): (r: Option<nat>)
    ensures r.Some? ==> Occurs(s, t, r.value) && r.value + |t| <= |s|
    ensures r.None? <==> !Contains(s, t)
    ensures forall i: nat | r.Some? && i < r.value :: !Occurs(s, t, i)
  {
    FindFrom(s, t, 0)
  }

  // The text between the occurrences of `d`, taken from the left.
  function SplitOn(s: string, d: string): (r: seq<string>)
    requires d != ""
    ensures |r| >= 1
    decreases |s|
  {
    var i := Find(s, d);
    if i.None? then [s] else [s[..i.value]] + SplitOn(s[i.value + |d|..], d)
  }

  // ----- writing and reading a body -------------------------------------------------------------------

  function Delimiter(boundary: string): string {
    CRLF + "--" + boundary
  }

  // `headers` is the header block without the line ends around it.
  datatype Part = Part(headers: string, content: string)

  const MANIFEST_HEADERS := ["Content-Type: application/json", "Content-Disposition: form-data;" + " name=\"manifest\""]
  const AUDIO_HEADERS := ["Content-Type: audio/ogg",
    "Content-Disposition: form-data;" + " name=\"audio\";" + " filename=\"chapter.opus\"",
    "Content-Transfer-Encoding: binary"]

  function Head(lines: seq<string>): string {
    if lines == [] then "" else CRLF + lines[0] + Head(lines[1..])
  }

  function Segment(lines: seq<string>, content: string): string {
    Head(lines) + CRLF + CRLF + content
  }

  function BodyOf(boundary: string, manifestHead: seq<string>, manifest: string, audioHead: seq<string>, audio: string)
      : string {
    "--" + boundary + Segment(manifestHead, manifest)
    + Delimiter(boundary) + Segment(audioHead, audio)
    + Delimiter(boundary) + "--" + CRLF
  }

  // The body written by `_timed_narration_response`
  function Body(boundary: string, manifest: string, audio: string): string {
    BodyOf(boundary, MANIFEST_HEADERS, manifest, AUDIO_HEADERS, audio)
  }

  function SkipPadding(s: string): (r: string)
    ensures |r| <= |s|
  {
    if s != "" && (s[0] == ' ' || s[0] == '\t') then SkipPadding(s[1..]) else s
  }

  predicate StartsLine(s: string) {
    |s| >= 2 && s[0] == '\r' && s[1] == '\n'
  }

  predicate Closes(s: string) {
    |s| >= 2 && s[0] == '-' && s[1] == '-'
  }

  // `transport-padding CRLF body-part`, the text between two delimiters
  function ReadSegment(s: string): Option<Part> {
    var t := SkipPadding(s);
    var i := Find(t, CRLF + CRLF);
    if !StartsLine(t) || i.None? then None
    else Some(Part(if i.value < 2 then "" else t[2..i.value], t[i.value + 4..]))
  }

  // Segments up to the close delimiter; what follows it is ignored.
  function ReadSegments(ss: seq<string>): Option<seq<Part>> {
    if ss == [] then None
    else if Closes(ss[0]) then Some([])
    else
      var first, rest := ReadSegment(ss[0]), ReadSegments(ss[1..]);
      if first.None? || rest.None? then None else Some([first.value] + rest.value)
  }

  // The first delimiter may stand at the very start of the body, and a preamble is ignored.
  function ReadBody(boundary: string, body: string): Option<seq<Part>> {
    ReadSegments(SplitOn(CRLF + body, Delimiter(boundary))[1..])
  }

  function TypeOf(p: Part): string {
    var end := Find(p.headers, CRLF);
    var line := if end.Some? then p.headers[..end.value] else p.headers;
    if "Content-Type: " <= line then line[14..] else "text/plain"
  }

  // The last part of the given type, as the receiver's loop leaves it
  function LastOf(ps: seq<Part>, t: string): (r: Option<string>)
    ensures r.Some? ==> exists p | p in ps :: p.content == r.value
  {
    if ps == [] then None
    else if TypeOf(ps[|ps| - 1]) == t then Some(ps[|ps| - 1].content)
    else LastOf(ps[..|ps| - 1], t)
  }

  // What `_parse_timed_narration` takes from a body: the manifest text and the audio.
  function Received(boundary: string, body: string): Option<(string, string)> {
    var ps := ReadBody(boundary, body);
    if ps.None? then None
    else
      var manifest, audio := LastOf(ps.value, "application/json"), LastOf(ps.value, "audio/ogg");
      if manifest.None? || audio.None? then None else Some((manifest.value, audio.value))
  }

  // The delimiter does not show up in the content, nor across the line end before it.
  ghost predicate Clear(boundary: string, content: string) {
    !Contains(CRLF + content, Delimiter(boundary))
  }

  // ----- proofs ---------------------------------------------------------------------------------------

  // What occurs in a suffix occurs in the whole, and conversely.
  lemma OccursSuffix(s: string, k: nat, t: string, i: nat)
    requires k <= |s|
    ensures Occurs(s[k..], t, i) <==> Occurs(s, t, k + i)
  {}

  lemma ContainsSuffix(s: string, k: nat, t: string)
    requires k <= |s| && Contains(s[k..], t)
    ensures Contains(s, t)
  {
    var i: nat :| Occurs(s[k..], t, i);
    OccursSuffix(s, k, t, i);
  }

  // What occurs in a prefix occurs in the whole, and conversely where it fits.
  lemma OccursPrefix(s: string, k: nat, t: string, i: nat)
    requires k <= |s| && i + |t| <= k
    ensures Occurs(s[..k], t, i) <==> Occurs(s, t, i)
  {}

  lemma OccursAt(s: string, t: string, i: nat, j: nat)
    requires Occurs(s, t, i) && j < |t|
    ensures s[i + j] == t[j]
  {}

  // Find returns the one place where `t` occurs first.
  lemma FoundAt(s: string, t: string, k: nat)
    requires Occurs(s, t, k) && forall i: nat | i < k :: !Occurs(s, t, i)
    ensures Find(s, t) == Some(k)
  {}

  // Two occurrences of a delimiter never overlap: only its first character is a carriage return.
  lemma NoOverlap(s: string, boundary: string, i: nat, k: nat)
    requires '\r' !in boundary && Occurs(s, Delimiter(boundary), i) && Occurs(s, Delimiter(boundary), k) && i < k
    ensures i + |Delimiter(boundary)| <= k
  {
    var d := Delimiter(boundary);
    assert s[k + 0] == d[0] == '\r';
    if k < i + |d| {
      OccursAt(s, d, i, k - i);
    }
    assert forall j | 0 < j < |d| :: d[j] != '\r';
  }

  lemma FirstDelimiter(a: string, boundary: string, rest: string)
    requires '\r' !in boundary && !Contains(a, Delimiter(boundary))
    ensures SplitOn(a + Delimiter(boundary) + rest, Delimiter(boundary)) == [a] + SplitOn(rest, Delimiter(boundary))
  {
    var d := Delimiter(boundary);
    var s := a + d + rest;
    assert forall j | 0 <= j < |d| :: s[|a| + j] == d[j];
    assert s[..|a|] == a;
    forall i: nat | i < |a| ensures !Occurs(s, d, i) {
      if Occurs(s, d, i) {
        NoOverlap(s, boundary, i, |a|);
        OccursPrefix(s, |a|, d, i);
        assert false;
      }
    }
    FoundAt(s, d, |a|);
    assert s[..|a|] == a && s[|a| + |d|..] == rest;
  }

  predicate Plain(s: string) {
    forall i | 0 <= i < |s| :: s[i] >= ' '
  }

  predicate HeaderLine(line: string) {
    line != "" && Plain(line) && line[0] != '-'
  }

  lemma PlainAppend(a: string, b: string)
    requires Plain(a) && Plain(b)
    ensures Plain(a + b)
  {}

  // Starts with a line end and then a character that starts no header line
  predicate AfterLine(t: string) {
    |t| > 2 && t[0] == '\r' && t[1] == '\n' && (t[2] == '-' || t[2] == '\r')
  }

  lemma {:induction false} HeadIsSkipped(lines: seq<string>, x: string, t: string, i: nat)
    requires AfterLine(t) && (forall l | l in lines :: HeaderLine(l))
    requires Occurs(Head(lines) + CRLF + x, t, i)
    ensures i >= |Head(lines)|
  {
    if lines != [] {
      var s := Head(lines) + CRLF + x;
      var line, rest := lines[0], Head(lines[1..]) + CRLF + x;
      assert HeaderLine(line) && s == CRLF + line + rest;
      assert s[i] == '\r' && s[i + 1] == '\n' && s[i + 2] == t[2] != line[0];
      assert rest[..2] == CRLF;
      assert s[0] == '\r' && s[1] == '\n';
      assert forall j | 0 <= j < |line| :: s[2 + j] == line[j];
      assert i >= 2 + |line|;
      OccursSuffix(s, 2 + |line|, t, i - 2 - |line|);
      assert s[2 + |line|..] == rest;
      HeadIsSkipped(lines[1..], x, t, i - 2 - |line|);
    }
  }

  // A segment is free of the delimiter exactly when its content is.
  lemma SegmentClear(boundary: string, lines: seq<string>, content: string)
    requires forall l | l in lines :: HeaderLine(l)
    ensures Contains(Segment(lines, content), Delimiter(boundary)) <==> !Clear(boundary, content)
  {
    var s, d, h := Segment(lines, content), Delimiter(boundary), |Head(lines)|;
    assert s[h + 2..] == CRLF + content;
    if i: nat :| Occurs(s, d, i) {
      assert s == Head(lines) + CRLF + (CRLF + content);
      HeadIsSkipped(lines, CRLF + content, d, i);
      assert s[i] == d[0] && s[i + 1] == d[1] && s[i + 2] == d[2] == '-';
      assert s[h + 1] == '\n' && s[h + 2] == '\r';
      OccursSuffix(s, h + 2, d, i - h - 2);
    } else if !Clear(boundary, content) {
      ContainsSuffix(s, h + 2, d);
    }
  }

  // The blank line after the header is the first place with two line ends in a row.
  lemma BlankLineAt(s: string, lines: seq<string>, content: string)
    requires s == Head(lines) + CRLF + (CRLF + content) && forall l | l in lines :: HeaderLine(l)
    ensures Find(s, CRLF + CRLF) == Some(|Head(lines)|)
  {
    var h, t := |Head(lines)|, CRLF + CRLF;
    assert s[h] == '\r' && s[h + 1] == '\n' && s[h + 2] == '\r' && s[h + 3] == '\n';
    assert Occurs(s, t, h);
    forall i: nat | i < h ensures !Occurs(s, t, i) {
      if Occurs(s, t, i) {
        HeadIsSkipped(lines, CRLF + content, t, i);
      }
    }
    FoundAt(s, t, h);
  }

  lemma SegmentAt(s: string, h: nat)
    requires StartsLine(s) && h >= 2 && Find(s, CRLF + CRLF) == Some(h)
    ensures ReadSegment(s) == Some(Part(s[2..h], s[h + 4..]))
  {}

  lemma SegmentShape(head: string, content: string)
    requires StartsLine(head)
    ensures var s := head + CRLF + CRLF + content;
      && s == head + CRLF + (CRLF + content) && StartsLine(s)
      && s[2..|head|] == head[2..] && s[|head| + 4..] == content
  {}

  // Reading a written segment gives back its header block and its content.
  lemma SegmentReads(lines: seq<string>, content: string)
    requires lines != [] && forall l | l in lines :: HeaderLine(l)
    ensures StartsLine(Segment(lines, content))
    ensures ReadSegment(Segment(lines, content)) == Some(Part(Head(lines)[2..], content))
  {
    SegmentShape(Head(lines), content);
    BlankLineAt(Segment(lines, content), lines, content);
    SegmentAt(Segment(lines, content), |Head(lines)|);
  }

  lemma FirstLine(block: string, line: string, rest: string)
    requires block == line + rest && StartsLine(rest) && Plain(line)
    ensures Find(block, CRLF) == Some(|line|)
  {
    assert block[|line|] == '\r' && block[|line| + 1] == '\n';
    assert Occurs(block, CRLF, |line|);
    forall i: nat | i < |line| ensures !Occurs(block, CRLF, i) {
      assert block[i] == line[i] != CRLF[0];
    }
    FoundAt(block, CRLF, |line|);
  }

  // The type of a written part is that of its first header line.
  lemma TypeReads(lines: seq<string>, content: string, t: string)
    requires |lines| > 1 && lines[0] == "Content-Type: " + t && HeaderLine(lines[0])
    ensures TypeOf(Part(Head(lines)[2..], content)) == t
  {
    var line, rest, block := lines[0], Head(lines[1..]), Head(lines)[2..];
    assert block == line + rest;
    assert rest[0] == '\r' && rest[1] == '\n';
    FirstLine(block, line, rest);
    LineType(block, line, t);
  }

  lemma LineType(block: string, line: string, t: string)
    requires line == "Content-Type: " + t && line <= block && Find(block, CRLF) == Some(|line|)
    ensures TypeOf(Part(block, "")) == t && forall content: string :: TypeOf(Part(block, content)) == t
  {
    assert block[..|line|] == line && line[14..] == t;
  }

  lemma TailHasNone(boundary: string)
    ensures SplitOn("--" + CRLF, Delimiter(boundary)) == ["--" + CRLF]
  {
    var tail, d := "--" + CRLF, Delimiter(boundary);
    assert tail[0] == '-' && d[0] == '\r' && |d| >= |tail|;
    assert forall i: nat | Occurs(tail, d, i) :: tail[i + 0] == d[0];
  }

  // The body splits into nothing, the two segments and what follows the last boundary.
  lemma BodySplits(boundary: string, m: string, a: string)
    requires '\r' !in boundary && !Contains(m, Delimiter(boundary)) && !Contains(a, Delimiter(boundary))
    ensures var d := Delimiter(boundary);
      SplitOn("" + d + (m + d + (a + d + ("--" + CRLF))), d) == ["", m, a, "--" + CRLF]
  {
    var d, tail := Delimiter(boundary), "--" + CRLF;
    TailHasNone(boundary);
    FirstDelimiter(a, boundary, tail);
    FirstDelimiter(m, boundary, a + d + tail);
    FirstDelimiter("", boundary, m + d + (a + d + tail));
    FourPieces("", m, a, tail);
  }

  lemma FourPieces(p: string, q: string, r: string, s: string)
    ensures [p] + ([q] + ([r] + [s])) == [p, q, r, s]
  {}

  // No piece holds the separator.
  lemma {:induction false} PiecesAreClear(s: string, d: string)
    requires d != ""
    ensures forall p | p in SplitOn(s, d) :: !Contains(p, d)
    decreases |s|
  {
    var i := Find(s, d);
    if i.Some? {
      var a := s[..i.value];
      forall j: nat ensures !Occurs(a, d, j) {
        if j + |d| <= |a| {
          OccursPrefix(s, i.value, d, j);
        }
      }
      PiecesAreClear(s[i.value + |d|..], d);
    }
  }

  lemma {:induction false} PaddingIsPrefix(s: string)
    ensures s[|s| - |SkipPadding(s)|..] == SkipPadding(s)
  {
    if s != "" && (s[0] == ' ' || s[0] == '\t') {
      PaddingIsPrefix(s[1..]);
    }
  }

  lemma AfterBlankLine(t: string, i: nat)
    requires Occurs(t, CRLF + CRLF, i)
    ensures i + 4 <= |t| && t[i + 2..] == CRLF + t[i + 4..]
  {
    OccursAt(t, CRLF + CRLF, i, 2);
    OccursAt(t, CRLF + CRLF, i, 3);
  }

  // Blanks and tabs after a delimiter are skipped, and the last delimiter is the one with two hyphens after it.
  lemma {:induction false} PaddingIsSkipped(padding: string, s: string)
    requires forall i | 0 <= i < |padding| :: padding[i] == ' ' || padding[i] == '\t'
    requires s == "" || (s[0] != ' ' && s[0] != '\t')
    ensures SkipPadding(padding + s) == s
    ensures Closes(s) <==> "--" <= s
  {
    if padding == "" {
      assert padding + s == s;
    } else {
      assert (padding + s)[1..] == padding[1..] + s;
      PaddingIsSkipped(padding[1..], s);
    }
  }

  // The content of a segment, with the line end before it, is a suffix of the segment.
  lemma SegmentTail(s: string) returns (k: nat)
    requires ReadSegment(s).Some?
    ensures k <= |s| && s[k..] == CRLF + ReadSegment(s).value.content
  {
    var t := SkipPadding(s);
    var i := Find(t, CRLF + CRLF).value;
    PaddingIsPrefix(s);
    AfterBlankLine(t, i);
    k := |s| - |t| + i + 2;
    assert s[k..] == s[|s| - |t|..][i + 2..];
  }

  lemma PartIsClear(boundary: string, s: string)
    requires !Contains(s, Delimiter(boundary)) && ReadSegment(s).Some?
    ensures Clear(boundary, ReadSegment(s).value.content)
  {
    var k := SegmentTail(s);
    if !Clear(boundary, ReadSegment(s).value.content) {
      ContainsSuffix(s, k, Delimiter(boundary));
    }
  }

  lemma {:induction false} PartsAreClear(boundary: string, ss: seq<string>)
    requires forall s | s in ss :: !Contains(s, Delimiter(boundary))
    ensures ReadSegments(ss).Some? ==> forall p | p in ReadSegments(ss).value :: Clear(boundary, p.content)
  {
    if ss != [] && !Closes(ss[0]) && ReadSegments(ss).Some? {
      PartsAreClear(boundary, ss[1..]);
      PartIsClear(boundary, ss[0]);
    }
  }

  /** Whatever body arrives, neither the manifest nor the audio taken from it contains the delimiter. */
  lemma ReceivedIsClear(boundary: string, body: string)
    ensures Received(boundary, body).Some? ==>
      Clear(boundary, Received(boundary, body).value.0) && Clear(boundary, Received(boundary, body).value.1)
  {
    var ss := SplitOn(CRLF + body, Delimiter(boundary));
    PiecesAreClear(CRLF + body, Delimiter(boundary));
    PartsAreClear(boundary, ss[1..]);
  }

  lemma TwoSegmentsRead(ss: seq<string>, m: Part, a: Part)
    requires |ss| == 3 && ReadSegment(ss[0]) == Some(m) && ReadSegment(ss[1]) == Some(a)
    requires StartsLine(ss[0]) && StartsLine(ss[1]) && Closes(ss[2])
    ensures ReadSegments(ss) == Some([m, a])
  {
    assert ReadSegments(ss[2..]) == Some([]);
    assert ss[1..][1..] == ss[2..];
    assert [a] + [] == [a] && [m] + [a] == [m, a];
    assert ReadSegments(ss[1..]) == Some([a]);
  }

  lemma LastOfTwo(m: Part, a: Part)
    requires TypeOf(m) == "application/json" && TypeOf(a) == "audio/ogg"
    ensures LastOf([m, a], "application/json") == Some(m.content) && LastOf([m, a], "audio/ogg") == Some(a.content)
  {}

  lemma Regroup(c: string, p: string, m: string, d: string, a: string, x: string, y: string)
    requires c + p == d
    ensures c + (p + m + d + a + d + x + y) == "" + d + (m + d + (a + d + (x + y)))
  {}

  lemma BodyGroups(boundary: string, mh: seq<string>, manifest: string, ah: seq<string>, audio: string)
    ensures CRLF + BodyOf(boundary, mh, manifest, ah, audio)
      == "" + Delimiter(boundary) + (Segment(mh, manifest) + Delimiter(boundary)
        + (Segment(ah, audio) + Delimiter(boundary) + ("--" + CRLF)))
  {
    assert CRLF + ("--" + boundary) == Delimiter(boundary);
    Regroup(CRLF, "--" + boundary, Segment(mh, manifest), Delimiter(boundary), Segment(ah, audio), "--", CRLF);
  }

  lemma BodyReads(boundary: string, mh: seq<string>, manifest: string, ah: seq<string>, audio: string)
    requires '\r' !in boundary && Clear(boundary, manifest) && Clear(boundary, audio) && |mh| > 1 && |ah| > 1
    requires (forall l | l in mh :: HeaderLine(l)) && (forall l | l in ah :: HeaderLine(l))
    ensures ReadBody(boundary, BodyOf(boundary, mh, manifest, ah, audio))
      == Some([Part(Head(mh)[2..], manifest), Part(Head(ah)[2..], audio)])
  {
    SegmentClear(boundary, mh, manifest);
    SegmentClear(boundary, ah, audio);
    SegmentReads(mh, manifest);
    SegmentReads(ah, audio);
    SegmentsInBody(boundary, mh, manifest, ah, audio, Segment(mh, manifest), Segment(ah, audio));
  }

  lemma SegmentsInBody(boundary: string, mh: seq<string>, manifest: string, ah: seq<string>, audio: string,
      m: string, a: string)
    requires '\r' !in boundary && m == Segment(mh, manifest) && a == Segment(ah, audio)
    requires !Contains(m, Delimiter(boundary)) && !Contains(a, Delimiter(boundary))
    requires StartsLine(m) && StartsLine(a) && ReadSegment(m).Some? && ReadSegment(a).Some?
    ensures ReadBody(boundary, BodyOf(boundary, mh, manifest, ah, audio))
      == Some([ReadSegment(m).value, ReadSegment(a).value])
  {
    BodyGroups(boundary, mh, manifest, ah, audio);
    BodySplits(boundary, m, a);
    TwoSegmentsRead(["", m, a, "--" + CRLF][1..], ReadSegment(m).value, ReadSegment(a).value);
  }

  lemma DispositionIsPlain()
    ensures Plain("Content-Disposition: form-data;")
  {}

  lemma NameHeader()
    ensures HeaderLine("Content-Disposition: form-data;" + " name=\"manifest\"")
  {
    DispositionIsPlain();
    PlainAppend("Content-Disposition: form-data;", " name=\"manifest\"");
  }

  lemma ManifestHeaders()
    ensures forall l | l in MANIFEST_HEADERS :: HeaderLine(l)
  {
    NameHeader();
    JsonHeader();
  }

  lemma JsonHeader()
    ensures HeaderLine("Content-Type: application/json")
  {}

  lemma OggHeader()
    ensures HeaderLine("Content-Type: audio/ogg")
  {}

  lemma EncodingHeader()
    ensures HeaderLine("Content-Transfer-Encoding: binary")
  {}

  lemma FileNameIsPlain()
    ensures Plain(" filename=\"chapter.opus\"")
  {}

  lemma FileHeader()
    ensures HeaderLine("Content-Disposition: form-data;" + " name=\"audio\";" + " filename=\"chapter.opus\"")
  {
    var kind, name, file := "Content-Disposition: form-data;", " name=\"audio\";", " filename=\"chapter.opus\"";
    DispositionIsPlain();
    FileNameIsPlain();
    PlainAppend(kind, name);
    PlainAppend(kind + name, file);
  }

  lemma AudioHeaders()
    ensures forall l | l in AUDIO_HEADERS :: HeaderLine(l)
  {
    FileHeader();
    OggHeader();
    EncodingHeader();
  }

  lemma ReceivesWhatWasSent(boundary: string, mh: seq<string>, manifest: string, ah: seq<string>, audio: string)
    requires '\r' !in boundary && Clear(boundary, manifest) && Clear(boundary, audio) && |mh| > 1 && |ah| > 1
    requires (forall l | l in mh :: HeaderLine(l)) && (forall l | l in ah :: HeaderLine(l))
    requires mh[0] == "Content-Type: " + "application/json" && ah[0] == "Content-Type: " + "audio/ogg"
    ensures Received(boundary, BodyOf(boundary, mh, manifest, ah, audio)) == Some((manifest, audio))
  {
    BodyReads(boundary, mh, manifest, ah, audio);
    TypeReads(mh, manifest, "application/json");
    TypeReads(ah, audio, "audio/ogg");
    LastOfTwo(Part(Head(mh)[2..], manifest), Part(Head(ah)[2..], audio));
  }

  /**
   The receiver gets back exactly the manifest and the audio that were sent, if and only if neither contains the
   delimiter.
   */
  lemma RoundTrip(boundary: string, manifest: string, audio: string)
    requires '\r' !in boundary
    ensures Received(boundary, Body(boundary, manifest, audio)) == Some((manifest, audio))
      <==> Clear(boundary, manifest) && Clear(boundary, audio)
  {
    if Clear(boundary, manifest) && Clear(boundary, audio) {
      ManifestHeaders();
      AudioHeaders();
      ReceivesWhatWasSent(boundary, MANIFEST_HEADERS, manifest, AUDIO_HEADERS, audio);
    } else {
      ReceivedIsClear(boundary, Body(boundary, manifest, audio));
    }
  }

  // ----- the manifest ---------------------------------------------------------------------------------

  function Digit(n: nat): char
    requires n < 10
  {
    (48 + n) as char
  }

  function Decimal(n: nat): string {
    if n < 10 then [Digit(n)] else Decimal(n / 10) + [Digit(n % 10)]
  }

  // Numbers separated by commas
  function Listed(ns: seq<nat>): string {
    if ns == [] then ""
    else if |ns| == 1 then Decimal(ns[0])
    else Listed(ns[..|ns| - 1]) + "," + Decimal(ns[|ns| - 1])
  }

  const DURATION_AS := "{\"version\":1,\"duration_ms\":"
  const SILENCE_AS := ",\"silence_ms\":"
  const LISTED_AS := ",\"paragraph_durations_ms\":"

  // The compact JSON text of a timing manifest
  function ManifestText(duration: nat, silence: nat, durations: seq<nat>): string {
    DURATION_AS + Decimal(duration) + (SILENCE_AS + Decimal(silence)) + (LISTED_AS + ("[" + Listed(durations) + "]}"))
  }

  lemma {:induction false} DecimalIsPlain(n: nat)
    ensures Plain(Decimal(n))
  {
    if n >= 10 {
      DecimalIsPlain(n / 10);
    }
  }

  lemma {:induction false} ListedIsPlain(ns: seq<nat>)
    ensures Plain(Listed(ns))
  {
    if ns != [] {
      DecimalIsPlain(ns[|ns| - 1]);
      ListedIsPlain(ns[..|ns| - 1]);
    }
  }

  lemma ManifestIsPlain(duration: nat, silence: nat, durations: seq<nat>)
    ensures var text := ManifestText(duration, silence, durations); text != "" && text[0] == '{' && Plain(text)
  {
    DecimalIsPlain(duration);
    DecimalIsPlain(silence);
    ListedIsPlain(durations);
    LabelsArePlain();
    PlainAppend("[", Listed(durations));
    PlainAppend("[" + Listed(durations), "]}");
    PlainAppend(LISTED_AS, "[" + Listed(durations) + "]}");
    PlainAppend(SILENCE_AS, Decimal(silence));
    PlainAppend(DURATION_AS, Decimal(duration));
    PlainAppend(DURATION_AS + Decimal(duration), SILENCE_AS + Decimal(silence));
    PlainAppend(DURATION_AS + Decimal(duration) + (SILENCE_AS + Decimal(silence)),
                LISTED_AS + ("[" + Listed(durations) + "]}"));
  }

  lemma LabelsArePlain()
    ensures Plain(DURATION_AS) && DURATION_AS != "" && DURATION_AS[0] == '{'
    ensures Plain(SILENCE_AS) && Plain(LISTED_AS) && Plain("[") && Plain("]}")
  {}

  /** The manifest of a narration never contains the delimiter: it opens with a brace and has no line ends. */
  lemma ManifestIsClear(boundary: string, duration: nat, silence: nat, durations: seq<nat>)
    ensures Clear(boundary, ManifestText(duration, silence, durations))
  {
    ManifestIsPlain(duration, silence, durations);
    BracedIsClear(boundary, ManifestText(duration, silence, durations));
  }

  lemma BracedIsClear(boundary: string, manifest: string)
    requires manifest != "" && manifest[0] == '{' && Plain(manifest)
    ensures Clear(boundary, manifest)
  {
    var s, d := CRLF + manifest, Delimiter(boundary);
    forall i: nat ensures !Occurs(s, d, i) {
      if i + |d| <= |s| {
        assert s[i + 0] == d[0] ==> i == 0;
        assert s[0 + 2] == '{' && d[2] == '-';
      }
    }
  }

  // ----- reading the manifest -------------------------------------------------------------------------

  predicate IsDigit(c: char) {
    '0' <= c <= '9'
  }

  // The number at the start of a text, after the digits worth `value` already read, and what follows it
  function ReadDigits(s: string, value: nat): (nat, string) {
    if s == "" || !IsDigit(s[0]) then (value, s) else ReadDigits(s[1..], 10 * value + (s[0] as int - 48))
  }

  // A number: digits, without a leading zero unless it is zero
  function ReadNumber(s: string): Option<(nat, string)> {
    if s == "" || !IsDigit(s[0]) then None
    else if s[0] == '0' then Some((0, s[1..]))
    else Some(ReadDigits(s, 0))
  }

  function ReadLiteral(s: string, literal: string): Option<string> {
    if literal <= s then Some(s[|literal|..]) else None
  }

  // Numbers up to a closing bracket, each after the first behind a comma
  function ReadList(s: string, first: bool): Option<(seq<nat>, string)>
    decreases |s|
  {
    if s != "" && s[0] == ']' then Some(([], s[1..]))
    else
      var t := if first then Some(s) else ReadLiteral(s, ",");
      if t.None? then None
      else
        var n := ReadNumber(t.value);
        if n.None? then None
        else
          ReadNumberShortens(t.value);
          var rest := ReadList(n.value.1, false);
          if rest.None? then None else Some(([n.value.0] + rest.value.0, rest.value.1))
  }

  lemma {:induction false} ReadDigitsShortens(s: string, value: nat)
    ensures |ReadDigits(s, value).1| <= |s|
  {
    if s != "" && IsDigit(s[0]) {
      ReadDigitsShortens(s[1..], 10 * value + (s[0] as int - 48));
    }
  }

  lemma ReadNumberShortens(s: string)
    ensures ReadNumber(s).Some? ==> |ReadNumber(s).value.1| < |s|
  {
    if s != "" && IsDigit(s[0]) {
      ReadDigitsShortens(s[1..], 10 * 0 + (s[0] as int - 48));
    }
  }

  datatype Manifest = Manifest(duration: nat, silence: nat, durations: seq<nat>)

  // The JSON object of the four members, in the order and without the white space of the writer
  function ReadManifest(text: string): Option<Manifest> {
    var a := ReadLiteral(text, "{\"version\":1,\"duration_ms\":");
    var duration := if a.None? then None else ReadNumber(a.value);
    var b := if duration.None? then None else ReadLiteral(duration.value.1, ",\"silence_ms\":");
    var silence := if b.None? then None else ReadNumber(b.value);
    var c := if silence.None? then None else ReadLiteral(silence.value.1, ",\"paragraph_durations_ms\":[");
    var durations := if c.None? then None else ReadList(c.value, true);
    if durations.None? || durations.value.1 != "}" then None
    else Some(Manifest(duration.value.0, silence.value.0, durations.value.0))
  }

  predicate NoDigitFirst(s: string) {
    s == "" || !IsDigit(s[0])
  }

  // The digits of `n` read after `value` amount to `value` shifted by their number, and `n`.
  lemma {:induction false} DigitsRead(n: nat, rest: string, value: nat)
    requires NoDigitFirst(rest)
    ensures ReadDigits(Decimal(n) + rest, value) == (value * Pow10(|Decimal(n)|) + n, rest)
    decreases n
  {
    if n < 10 {
      assert (Decimal(n) + rest)[1..] == rest;
      assert Pow10(1) == 10;
    } else {
      var last := [Digit(n % 10)] + rest;
      DigitsReadBefore(n / 10, last, value);
      assert Decimal(n) + rest == Decimal(n / 10) + last;
      assert last[1..] == rest;
      ShiftOne(value, Pow10(|Decimal(n / 10)|), n);
    }
  }

  // The same where more digits follow
  lemma {:induction false} DigitsReadBefore(n: nat, rest: string, value: nat)
    ensures ReadDigits(Decimal(n) + rest, value) == ReadDigits(rest, value * Pow10(|Decimal(n)|) + n)
    decreases n
  {
    if n < 10 {
      assert (Decimal(n) + rest)[1..] == rest;
      assert Pow10(1) == 10;
    } else {
      var last := [Digit(n % 10)] + rest;
      DigitsReadBefore(n / 10, last, value);
      assert Decimal(n) + rest == Decimal(n / 10) + last;
      assert last[1..] == rest;
      ShiftOne(value, Pow10(|Decimal(n / 10)|), n);
    }
  }

  function Pow10(k: nat): nat {
    if k == 0 then 1 else 10 * Pow10(k - 1)
  }

  lemma ShiftOne(value: nat, p: nat, n: nat)
    ensures 10 * (value * p + n / 10) + n % 10 == value * (10 * p) + n
  {}

  lemma {:induction false} DecimalStarts(n: nat)
    ensures Decimal(n) != "" && IsDigit(Decimal(n)[0]) && (Decimal(n)[0] == '0' ==> n == 0)
  {
    if n >= 10 {
      DecimalStarts(n / 10);
    }
  }

  lemma NumberReads(n: nat, rest: string)
    requires NoDigitFirst(rest)
    ensures ReadNumber(Decimal(n) + rest) == Some((n, rest))
  {
    DecimalStarts(n);
    DigitsRead(n, rest, 0);
    assert n == 0 ==> (Decimal(n) + rest)[1..] == rest;
  }

  lemma {:induction false} ListedFront(ns: seq<nat>)
    requires |ns| > 1
    ensures Listed(ns) == Decimal(ns[0]) + ("," + Listed(ns[1..]))
  {
    var n := |ns| - 1;
    if |ns| == 2 {
      assert ns[..1][0] == ns[0] && |ns[..1]| == 1 && ns[1..] == [ns[1]];
    } else {
      ListedFront(ns[..n]);
      assert ns[..n][1..] == ns[1..][..n - 1];
      assert Listed(ns) == Decimal(ns[0]) + ("," + Listed(ns[1..][..n - 1])) + "," + Decimal(ns[n]);
    }
  }

  // One number in front of a list
  lemma OneMoreReads(n: nat, tail: string, ns: seq<nat>, rest: string)
    requires NoDigitFirst(tail) && ReadList(tail, false) == Some((ns, rest))
    ensures ReadList(Decimal(n) + tail, true) == Some(([n] + ns, rest))
    ensures ReadList("," + (Decimal(n) + tail), false) == Some(([n] + ns, rest))
  {
    var s := Decimal(n) + tail;
    NumberReads(n, tail);
    DecimalStarts(n);
    LiteralReads(",", s);
    assert s[0] == Decimal(n)[0];
  }

  lemma ListEnds(rest: string)
    ensures ReadList("]" + rest, false) == Some(([], rest)) && ReadList("]" + rest, true) == Some(([], rest))
  {
    assert ("]" + rest)[1..] == rest;
  }

  function ListText(ns: seq<nat>, rest: string): string {
    Listed(ns) + ("]" + rest)
  }

  lemma ListTextOne(n: nat, rest: string)
    ensures ListText([n], rest) == Decimal(n) + ("]" + rest)
  {}

  lemma ListTextMore(ns: seq<nat>, rest: string)
    requires |ns| > 1
    ensures ListText(ns, rest) == Decimal(ns[0]) + ("," + ListText(ns[1..], rest))
  {
    ListedFront(ns);
  }

  // A list read from its first number on, or from the comma before it
  lemma {:induction false} ListReads(ns: seq<nat>, rest: string)
    requires ns != []
    ensures ReadList(ListText(ns, rest), true) == Some((ns, rest))
    ensures ReadList("," + ListText(ns, rest), false) == Some((ns, rest))
    decreases |ns|
  {
    var tail := if |ns| == 1 then "]" + rest else "," + ListText(ns[1..], rest);
    assert ReadList(tail, false) == Some((ns[1..], rest)) by {
      if |ns| == 1 {
        ListEnds(rest);
      } else {
        ListReads(ns[1..], rest);
      }
    }
    assert ListText(ns, rest) == Decimal(ns[0]) + tail by {
      if |ns| == 1 {
        assert ns == [ns[0]];
        ListTextOne(ns[0], rest);
      } else {
        ListTextMore(ns, rest);
      }
    }
    OneMoreReads(ns[0], tail, ns[1..], rest);
    assert [ns[0]] + ns[1..] == ns;
  }

  lemma LiteralReads(literal: string, rest: string)
    ensures ReadLiteral(literal + rest, literal) == Some(rest)
  {
    assert (literal + rest)[|literal|..] == rest;
  }

  lemma ManifestGroups(d: string, s: string, l: string)
    ensures DURATION_AS + d + (SILENCE_AS + s) + (LISTED_AS + ("[" + l + "]}"))
      == DURATION_AS + (d + (SILENCE_AS + (s + (LISTED_AS + "[" + (l + ("]" + "}"))))))
  {
    assert "[" + l + "]}" == "[" + (l + ("]" + "}"));
  }

  /** The manifest reads back to the numbers it was written from. */
  lemma ManifestReads(duration: nat, silence: nat, durations: seq<nat>)
    ensures ReadManifest(ManifestText(duration, silence, durations)) == Some(Manifest(duration, silence, durations))
  {
    var c := ListText(durations, "}");
    var open := LISTED_AS + "[";
    var b := Decimal(silence) + (open + c);
    var a := Decimal(duration) + (SILENCE_AS + b);
    ManifestGroups(Decimal(duration), Decimal(silence), Listed(durations));
    LiteralReads(DURATION_AS, a);
    NumberReads(duration, SILENCE_AS + b);
    LiteralReads(SILENCE_AS, b);
    NumberReads(silence, open + c);
    LiteralReads(open, c);
    assert open == ",\"paragraph_durations_ms\":[";
    if durations == [] {
      ListEnds("}");
    } else {
      ListReads(durations, "}");
    }
  }

  /** So a timed narration arrives as it was sent if and only if its audio does not contain the delimiter. */
  lemma NarrationArrives(boundary: string, duration: nat, silence: nat, durations: seq<nat>, audio: string)
    requires '\r' !in boundary
    ensures var manifest := ManifestText(duration, silence, durations);
      Received(boundary, Body(boundary, manifest, audio)) == Some((manifest, audio)) <==> Clear(boundary, audio)
    ensures Clear(boundary, audio) ==>
      var got := Received(boundary, Body(boundary, ManifestText(duration, silence, durations), audio));
      && got.Some? && got.value.1 == audio
      && ReadManifest(got.value.0) == Some(Manifest(duration, silence, durations))
  {
    ManifestReads(duration, silence, durations);
    ManifestIsClear(boundary, duration, silence, durations);
    RoundTrip(boundary, ManifestText(duration, silence, durations), audio);
  }
}
