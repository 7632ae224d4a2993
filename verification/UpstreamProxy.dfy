/** The proxy's path handling, decode then check then re-encode, and its bounded body reader. */
module UpstreamProxy {
  import opened Wrappers
  import opened UriComponent
  import Segments

  datatype Outcome<+T> = Ok(value: T) | Rejected(status: int) | MalformedUri

  // ---------------------------------------------------------------- segments

  function SafeDecode(segment: Str): Str {
    match Decode(segment) case Some(d) => d case None => segment
  }

  predicate Control(u: int) {
    u <= 0x1F || u == 0x7F
  }

  predicate Refused(decoded: Str) {
    || decoded == [] || decoded == [DOT] || decoded == [DOT, DOT]
    || (exists i :: 0 <= i < |decoded| && (decoded[i] == SLASH || decoded[i] == BACKSLASH || Control(decoded[i])))
  }

  function SanitizeSegment(segment: Str): Outcome<Str> {
    var decoded := SafeDecode(segment);
    if Refused(decoded) then Rejected(400)
    else match Encode(decoded) case None => MalformedUri case Some(e) => Ok(e)
  }

  /** Segments are handled in order and the first failure ends the whole call. */
  function SanitizePath(path: seq<Str>): (r: Outcome<seq<Str>>)
    ensures r.Ok? ==> |r.value| == |path|
  {
    if |path| == 0 then Ok([])
    else
      match SanitizePath(path[..|path| - 1])
      case Rejected(status) => Rejected(status)
      case MalformedUri => MalformedUri
      case Ok(done) =>
        match SanitizeSegment(path[|path| - 1])
        case Rejected(status) => Rejected(status)
        case MalformedUri => MalformedUri
        case Ok(e) => Ok(done + [e])
  }

  lemma {:induction false} SanitizedEach(path: seq<Str>, i: nat)
    requires SanitizePath(path).Ok? && i < |path|
    ensures SanitizeSegment(path[i]) == Ok(SanitizePath(path).value[i])
  {
    if i < |path| - 1 {
      SanitizedEach(path[..|path| - 1], i);
    }
  }

  lemma {:induction false} SanitizeAll(path: seq<Str>, out: seq<Str>)
    requires |out| == |path| && forall i :: 0 <= i < |path| ==> SanitizeSegment(path[i]) == Ok(out[i])
    ensures SanitizePath(path) == Ok(out)
  {
    hide SanitizeSegment;
    if |path| > 0 {
      var n := |path| - 1;
      SanitizeAll(path[..n], out[..n]);
      assert out == out[..n] + [out[n]];
    } else {
      assert out == [];
    }
  }

  /** Decoding a sanitised segment once gives exactly the string that was checked. */
  lemma DecodesToChecked(segment: Str)
    requires SanitizeSegment(segment).Ok?
    ensures Decode(SanitizeSegment(segment).value) == Some(SafeDecode(segment))
    ensures !Refused(SafeDecode(segment))
  {
    DecodeInvertsEncode(SafeDecode(segment));
  }

  /** Text that names one plain segment: not empty, not a dot segment, without slash, backslash or control character. */
  ghost predicate Clean(d: Str) {
    && d != [] && d != [0x2E] && d != [0x2E, 0x2E]
    && forall i :: 0 <= i < |d| ==> d[i] != 0x2F && d[i] != 0x5C && d[i] > 0x1F && d[i] != 0x7F
  }

  /** A segment gets through exactly when what it decodes to, or itself where it does not decode, is clean and has no
      lone surrogate; then that is what is sent. What is not clean is a bad request. */
  lemma SegmentAcceptedIff(segment: Str)
    ensures var d := if Decode(segment).Some? then Decode(segment).value else segment;
            var r := SanitizeSegment(segment);
            && (r.Ok? <==> Clean(d) && WellFormed(d))
            && (r.Ok? ==> Decode(r.value) == Some(d))
            && (r.MalformedUri? <==> Clean(d) && !WellFormed(d))
            && (r.Rejected? ==> r.status == 400)
  {
    hide Decode, Encode, WellFormed;
    EncodeDefinedIff(SafeDecode(segment));
    if SanitizeSegment(segment).Ok? {
      DecodesToChecked(segment);
    }
  }

  /** A path fails as its first segment that fails. */
  lemma {:induction false} PathFailsFirst(path: seq<Str>) returns (i: nat)
    requires !SanitizePath(path).Ok?
    ensures i < |path| && forall k :: 0 <= k < i ==> SanitizeSegment(path[k]).Ok?
    ensures match SanitizeSegment(path[i])
            case Ok(_) => false
            case Rejected(status) => SanitizePath(path) == Rejected(status)
            case MalformedUri => SanitizePath(path) == MalformedUri
  {
    hide SanitizeSegment;
    var n := |path| - 1;
    if SanitizePath(path[..n]).Ok? {
      i := n;
      forall k | 0 <= k < i
        ensures SanitizeSegment(path[k]).Ok?
      {
        SanitizedEach(path[..n], k);
      }
    } else {
      i := PathFailsFirst(path[..n]);
    }
  }

  /** Sanitising what was sanitised changes nothing. */
  lemma SanitizeIsIdempotent(path: seq<Str>)
    requires SanitizePath(path).Ok?
    ensures SanitizePath(SanitizePath(path).value) == SanitizePath(path)
  {
    hide Decode, Encode, Refused;
    var out := SanitizePath(path).value;
    forall i | 0 <= i < |out|
      ensures SanitizeSegment(out[i]) == Ok(out[i])
    {
      SanitizedEach(path, i);
      DecodesToChecked(path[i]);
    }
    SanitizeAll(out, out);
  }

  // ---------------------------------------------------------------- joining and splitting

  ghost predicate NoSlash(s: Str) {
    SLASH !in s
  }

  lemma SanitizedHasNoSlash(segment: Str)
    requires SanitizeSegment(segment).Ok?
    ensures NoSlash(SanitizeSegment(segment).value) && |SanitizeSegment(segment).value| > 0
    ensures SanitizeSegment(segment).value != [DOT] && SanitizeSegment(segment).value != [DOT, DOT]
  {
    hide Encode;
    var out := SanitizeSegment(segment).value;
    EncodedAlphabet(SafeDecode(segment));
    DecodesToChecked(segment);
    DotsDecode();
  }

  lemma DotsDecode()
    ensures Decode([]) == Some([]) && Decode([DOT]) == Some([DOT]) && Decode([DOT, DOT]) == Some([DOT, DOT])
  {
    var none: Str, one: Str, two: Str := [], [DOT], [DOT, DOT];
    assert one[1..] == none && two[1..] == one;
    assert [one[0]] + none == one && [two[0]] + one == two;
    assert Decode(one) == Prepend([one[0]], Decode(one[1..]));
    assert Decode(two) == Prepend([two[0]], Decode(two[1..]));
  }

  /** The upstream path is read back as the segments that were sent. */
  lemma UpstreamPathSplits(path: seq<Str>)
    requires |path| > 0 && SanitizePath(path).Ok?
    ensures Segments.Split(Segments.Join(SanitizePath(path).value, SLASH), SLASH) == SanitizePath(path).value
  {
    hide SanitizeSegment;
    var out := SanitizePath(path).value;
    forall i | 0 <= i < |out|
      ensures NoSlash(out[i])
    {
      SanitizedEach(path, i);
      SanitizedHasNoSlash(path[i]);
    }
    Segments.SplitInvertsJoin(out, SLASH);
  }

  // ---------------------------------------------------------------- dot segments

  predicate StartsWith(s: Str, p: Str) {
    |p| <= |s| && forall i :: 0 <= i < |p| ==> s[i] == p[i]
  }

  /** Drop the last segment and its slash. */
  function DropLast(output: Str): Str {
    if |output| == 0 then []
    else if output[|output| - 1] == SLASH then output[..|output| - 1]
    else DropLast(output[..|output| - 1])
  }

  /** `remove_dot_segments` of section 5.2.4 of RFC 3986, step for step. */
  function RemoveDotSegments(input: Str, output: Str): Str
    decreases |input|
  {
    if |input| == 0 then output
    else if StartsWith(input, [DOT, DOT, SLASH]) then RemoveDotSegments(input[3..], output)
    else if StartsWith(input, [DOT, SLASH]) then RemoveDotSegments(input[2..], output)
    else if StartsWith(input, [SLASH, DOT, SLASH]) then RemoveDotSegments(input[2..], output)
    else if input == [SLASH, DOT] then RemoveDotSegments([SLASH], output)
    else if StartsWith(input, [SLASH, DOT, DOT, SLASH]) then RemoveDotSegments(input[3..], DropLast(output))
    else if input == [SLASH, DOT, DOT] then RemoveDotSegments([SLASH], DropLast(output))
    else if input == [DOT] || input == [DOT, DOT] then RemoveDotSegments([], output)
    else
      var k := 1 + Segments.SeparatorAt(input[1..], SLASH);
      RemoveDotSegments(input[k..], output + input[..k])
  }

  /** A path of segments, each with its leading slash. */
  function Absolute(segments: seq<Str>): Str {
    if |segments| == 0 then [] else [SLASH] + segments[0] + Absolute(segments[1..])
  }

  ghost predicate PlainSegment(s: Str) {
    |s| > 0 && NoSlash(s) && s != [DOT] && s != [DOT, DOT]
  }

  /** A segment that stays as it is; it may be empty. */
  ghost predicate KeptSegment(s: Str) {
    NoSlash(s) && s != [DOT] && s != [DOT, DOT]
  }

  lemma StepsOver(segment: Str, rest: Str, output: Str)
    requires KeptSegment(segment) && (|rest| > 0 ==> rest[0] == SLASH)
    ensures RemoveDotSegments([SLASH] + segment + rest, output) == RemoveDotSegments(rest, output + [SLASH] + segment)
  {
    var input := [SLASH] + segment + rest;
    assert input[1..] == segment + rest;
    Segments.SeparatorAtIs(segment + rest, SLASH, |segment|);
    assert input[..1 + |segment|] == [SLASH] + segment && input[1 + |segment|..] == rest;
    assert output + ([SLASH] + segment) == output + [SLASH] + segment;
    assert input[0] == SLASH;
    NotDotPrefix(segment, rest);
  }

  lemma NotDotPrefix(segment: Str, rest: Str)
    requires KeptSegment(segment) && (|rest| > 0 ==> rest[0] == SLASH)
    ensures var input := [SLASH] + segment + rest;
            && !StartsWith(input, [SLASH, DOT, SLASH]) && input != [SLASH, DOT]
            && !StartsWith(input, [SLASH, DOT, DOT, SLASH]) && input != [SLASH, DOT, DOT]
  {
    var input := [SLASH] + segment + rest;
    if |segment| == 0 {
      assert |rest| > 0 ==> input[1] == SLASH;
    } else if |segment| == 1 {
      assert segment == [segment[0]] && input[1] == segment[0];
      assert |rest| > 0 ==> input[2] == SLASH;
    } else {
      assert input[1] == segment[0] && input[2] == segment[1] != SLASH;
      if |segment| == 2 {
        assert segment == [segment[0], segment[1]];
      } else {
        assert input[3] == segment[2] != SLASH;
      }
    }
  }

  lemma NothingToRemove(output: Str)
    ensures RemoveDotSegments([], output) == output
  {
  }

  /** A path of plain segments has no dot segments to remove. */
  lemma {:induction false} PlainPathIsStable(segments: seq<Str>, output: Str)
    requires forall i :: 0 <= i < |segments| ==> PlainSegment(segments[i])
    ensures RemoveDotSegments(Absolute(segments), output) == output + Absolute(segments)
  {
    hide RemoveDotSegments;
    if |segments| == 0 {
      NothingToRemove(output);
      assert output + [] == output;
    } else {
      var rest := segments[1..];
      StepsOver(segments[0], Absolute(rest), output);
      PlainPathIsStable(rest, output + [SLASH] + segments[0]);
      assert output + [SLASH] + segments[0] + Absolute(rest) == output + ([SLASH] + segments[0] + Absolute(rest));
    }
  }

  /** The segments a path leads to: a dot stays where it is, two dots go up one, and either at the end leaves a
      trailing slash. */
  function Resolve(segments: seq<Str>, kept: seq<Str>): seq<Str> {
    if |segments| == 0 then kept
    else
      var s := segments[0];
      var here := if s == [DOT] then kept
                  else if s == [DOT, DOT] then (if |kept| > 0 then kept[..|kept| - 1] else [])
                  else kept + [s];
      if |segments| == 1 && (s == [DOT] || s == [DOT, DOT]) then here + [[]] else Resolve(segments[1..], here)
  }

  lemma {:induction false} AbsoluteAppend(segments: seq<Str>, s: Str)
    ensures Absolute(segments + [s]) == Absolute(segments) + [SLASH] + s
  {
    if |segments| == 0 {
      assert segments + [s] == [s] && [s][1..] == [];
    } else {
      AbsoluteAppend(segments[1..], s);
      assert (segments + [s])[1..] == segments[1..] + [s];
    }
  }

  lemma {:induction false} DropsOne(before: Str, s: Str)
    requires NoSlash(s)
    ensures DropLast(before + [SLASH] + s) == before
  {
    var all := before + [SLASH] + s;
    if |s| == 0 {
      assert all[..|all| - 1] == before;
    } else {
      assert all[|all| - 1] == s[|s| - 1] != SLASH;
      assert all[..|all| - 1] == before + [SLASH] + s[..|s| - 1];
      DropsOne(before, s[..|s| - 1]);
    }
  }

  lemma DropsLast(kept: seq<Str>)
    requires forall i :: 0 <= i < |kept| ==> NoSlash(kept[i])
    ensures DropLast(Absolute(kept)) == Absolute(if |kept| > 0 then kept[..|kept| - 1] else [])
  {
    if |kept| > 0 {
      var n := |kept| - 1;
      assert kept == kept[..n] + [kept[n]];
      AbsoluteAppend(kept[..n], kept[n]);
      DropsOne(Absolute(kept[..n]), kept[n]);
    }
  }

  lemma TrailingSlash(output: Str)
    ensures RemoveDotSegments([SLASH], output) == output + [SLASH]
  {
    StepsOver([], [], output);
    assert [SLASH] + [] + [] == [SLASH];
    assert output + [SLASH] + [] == output + [SLASH];
    NothingToRemove(output + [SLASH]);
  }

  lemma DotsStep(s: Str, rest: Str, output: Str)
    requires (s == [DOT] || s == [DOT, DOT]) && (|rest| > 0 ==> rest[0] == SLASH)
    ensures RemoveDotSegments([SLASH] + s + rest, output)
         == RemoveDotSegments(if |rest| == 0 then [SLASH] else rest, if s == [DOT] then output else DropLast(output))
  {
    var input := [SLASH] + s + rest;
    assert input[0] == SLASH && input[1] == DOT;
    if s == [DOT] {
      if |rest| == 0 {
        assert input == [SLASH, DOT];
      } else {
        assert input[2] == SLASH && input[2..] == rest;
      }
    } else {
      assert input[2] == DOT;
      if |rest| == 0 {
        assert input == [SLASH, DOT, DOT];
      } else {
        assert input[3] == SLASH && input[3..] == rest;
      }
    }
  }

  /** Removing dot segments from an absolute path, character by character, resolves its segments. */
  lemma {:induction false} DotSegmentsResolve(segments: seq<Str>, kept: seq<Str>)
    requires forall i :: 0 <= i < |segments| ==> NoSlash(segments[i])
    requires forall i :: 0 <= i < |kept| ==> NoSlash(kept[i])
    ensures RemoveDotSegments(Absolute(segments), Absolute(kept)) == Absolute(Resolve(segments, kept))
  {
    hide RemoveDotSegments, DropLast;
    if |segments| == 0 {
      NothingToRemove(Absolute(kept));
    } else {
      var s, rest := segments[0], segments[1..];
      if s == [DOT] || s == [DOT, DOT] {
        var here := if s == [DOT] then kept else if |kept| > 0 then kept[..|kept| - 1] else [];
        DropsLast(kept);
        DotsStep(s, Absolute(rest), Absolute(kept));
        if |rest| == 0 {
          TrailingSlash(Absolute(here));
          AbsoluteAppend(here, []);
          assert Absolute(here) + [SLASH] + [] == Absolute(here) + [SLASH];
        } else {
          DotSegmentsResolve(rest, here);
        }
      } else {
        StepsOver(s, Absolute(rest), Absolute(kept));
        AbsoluteAppend(kept, s);
        DotSegmentsResolve(rest, kept + [s]);
      }
    }
  }

  /** The path part of the upstream URL: the prefix, then the sanitised segments. */
  function UpstreamPath(prefix: Str, path: seq<Str>): Outcome<Str> {
    match SanitizePath(path)
    case Rejected(status) => Rejected(status)
    case MalformedUri => MalformedUri
    case Ok(out) => Ok([SLASH] + prefix + [SLASH] + Segments.Join(out, SLASH))
  }

  lemma {:induction false} AbsoluteIsJoin(segments: seq<Str>)
    requires |segments| > 0
    ensures Absolute(segments) == [SLASH] + Segments.Join(segments, SLASH)
  {
    if |segments| > 1 {
      AbsoluteIsJoin(segments[1..]);
      assert [SLASH] + segments[0] + ([SLASH] + Segments.Join(segments[1..], SLASH)) == [SLASH]
          + (segments[0] + [SLASH] + Segments.Join(segments[1..], SLASH));
    } else {
      assert Absolute(segments[1..]) == [];
    }
  }

  /** No client path can move the upstream path out of its prefix: removing dot segments leaves it as it is. */
  lemma UpstreamPathStaysInPrefix(prefix: Str, path: seq<Str>)
    requires PlainSegment(prefix) && |path| > 0 && UpstreamPath(prefix, path).Ok?
    ensures var p := UpstreamPath(prefix, path).value;
            RemoveDotSegments(p, []) == p && StartsWith(p, [SLASH] + prefix + [SLASH])
  {
    hide SanitizeSegment, RemoveDotSegments;
    var out := SanitizePath(path).value;
    var all := [prefix] + out;
    forall i | 0 <= i < |all|
      ensures PlainSegment(all[i])
    {
      if i > 0 {
        SanitizedEach(path, i - 1);
        SanitizedHasNoSlash(path[i - 1]);
      }
    }
    PlainPathIsStable(all, []);
    AbsoluteIsJoin(out);
    assert all[1..] == out;
    var p := UpstreamPath(prefix, path).value;
    assert Absolute(all) == p;
    assert [] + p == p;
    assert p[..|prefix| + 2] == [SLASH] + prefix + [SLASH];
  }

  /** URL parsers also take %2e for a dot; those spellings decode to dots, so no sanitised segment is one of them. */
  lemma NoEscapedDotSegment(segment: Str, e: Str)
    requires SanitizeSegment(segment).Ok? && |e| == 3 && e[0] == PERCENT && e[1] == 50 && (e[2] == 101 || e[2] == 69)
    ensures var out := SanitizeSegment(segment).value;
            out != e && out != e + [DOT] && out != [DOT] + e && out != e + e
  {
    hide SanitizeSegment;
    DecodesToChecked(segment);
    DotsDecode();
    EscapedDot(e, []);
    EscapedDot(e, [DOT]);
    EscapedDot(e, e);
    assert e + [] == e;
    assert ([DOT] + e)[1..] == e;
  }

  lemma EscapedDot(e: Str, rest: Str)
    requires |e| == 3 && e[0] == PERCENT && e[1] == 50 && (e[2] == 101 || e[2] == 69)
    ensures Decode(e + rest) == Prepend([DOT], Decode(rest))
  {
    var s := e + rest;
    assert OctetAt(s, 0) == Some(46);
    assert s[3..] == rest;
    assert OctetsAt(s[3..], 0) == Some([]);
    var one: seq<Octet> := [46];
    assert one + [] == one;
    assert OctetsAt(s, 1) == Some(one);
    assert Utf8Point([46]) == Some(46) && UnitsOf(46) == [DOT];
  }

  // ---------------------------------------------------------------- bounded body

  datatype Body = Body(bytes: seq<Octet>) | TooLarge | InvalidLength

  function Concat(chunks: seq<seq<Octet>>): seq<Octet> {
    if |chunks| == 0 then [] else Concat(chunks[..|chunks| - 1]) + chunks[|chunks| - 1]
  }

  /** The value of a declared length, when it is all digits after trimming. */
  datatype Declared = Absent | NotANumber | Length(value: nat)

  lemma {:induction false} ConcatGrows(chunks: seq<seq<Octet>>, k: nat)
    requires k <= |chunks|
    ensures |Concat(chunks[..k])| <= |Concat(chunks)|
  {
    if k < |chunks| {
      assert chunks[..|chunks| - 1][..k] == chunks[..k];
      ConcatGrows(chunks[..|chunks| - 1], k);
    } else {
      assert chunks[..k] == chunks;
    }
  }

  /** Gives the whole body exactly when it fits; never holds more than the bound, and stops at the first chunk past
      it. */
  method ReadBoundedBody(declared: Declared, stream: Option<seq<seq<Octet>>>, maxBytes: nat)
    returns (r: Body, held: nat)
    ensures r == (
      if declared == NotANumber then InvalidLength
      else if declared.Length? && declared.value > maxBytes then TooLarge
      else if stream.None? then Body([])
      else if |Concat(stream.value)| > maxBytes then TooLarge
      else Body(Concat(stream.value)))
    ensures held <= maxBytes
  {
    held := 0;
    if declared == NotANumber {
      return InvalidLength, held;
    }
    if declared.Length? && declared.value > maxBytes {
      return TooLarge, held;
    }
    if stream == None {
      return Body([]), held;
    }
    var source := stream.value;
    var chunks: seq<seq<Octet>> := [];
    var total := 0;
    for i := 0 to |source|
      invariant chunks == source[..i] && total == held == |Concat(chunks)| <= maxBytes
    {
      total := total + |source[i]|;
      assert source[..i + 1][..i] == source[..i];
      if total > maxBytes {
        ConcatGrows(source, i + 1);
        return TooLarge, held;
      }
      chunks := chunks + [source[i]];
      held := total;
    }
    assert source[..|source|] == source;
    var body := new Octet[total];
    CopyChunks(chunks, body);
    r := Body(body[..]);
  }

  /** Lay the chunks out one after the other. */
  method CopyChunks(chunks: seq<seq<Octet>>, body: array<Octet>)
    requires body.Length == |Concat(chunks)|
    modifies body
    ensures body[..] == Concat(chunks)
  {
    var offset := 0;
    for i := 0 to |chunks|
      invariant offset == |Concat(chunks[..i])| <= body.Length
      invariant body[..offset] == Concat(chunks[..i])
    {
      ConcatGrows(chunks, i + 1);
      assert chunks[..i + 1][..i] == chunks[..i];
      ghost var before := body[..offset];
      forall k | 0 <= k < |chunks[i]| {
        body[offset + k] := chunks[i][k];
      }
      assert body[..offset] == before;
      assert body[offset..offset + |chunks[i]|] == chunks[i];
      assert body[..offset + |chunks[i]|] == body[..offset] + body[offset..offset + |chunks[i]|];
      offset := offset + |chunks[i]|;
    }
    assert chunks[..|chunks|] == chunks;
  }
}
