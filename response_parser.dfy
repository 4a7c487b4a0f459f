/**
 * Splitting the model's reply into the free-text analysis and the JSON
 * segment delimited by the two sentinel tokens, and handing the segment to
 * the JSON decoder.
 */
module ResponseParser {
  import opened Wrappers
  import opened PyStr

  const StartMarker: string := "[JSON_START]"
  const EndMarker: string := "[JSON_END]"
  const ParseErrorPrefix: string := "Failed to parse structured data from response: "

  /** FastAPI's `HTTPException`: a status code and a detail message. */
  datatype HttpError = HttpError(status: int, detail: string)

  /**
   * `json.loads` is not modelled: a decoder is any function from text to a
   * value or to the message of the exception it raised (`str(e)`). The one
   * thing assumed of it is that it rejects the empty string.
   */
  predicate RejectsEmpty<J>(decode: string -> Result<J, string>) {
    decode("").Failure?
  }

  /** Neither marker can begin inside a copy of itself. */
  lemma MarkersUnbordered()
    ensures forall k :: 0 < k < |StartMarker| ==> StartMarker[k] != StartMarker[0]
    ensures forall k :: 0 < k < |EndMarker| ==> EndMarker[k] != EndMarker[0]
  {
  }

  /**
   * `text[text.find(start_marker) + len(start_marker):text.find(end_marker)]`:
   * both markers are searched from the beginning of the whole text, so the
   * slice never reaches into the first end marker and never holds one.
   */
  function SegmentSlice(text: string): (r: string)
    ensures |r| <= |text|
    ensures !Contains(r, EndMarker)
    ensures WellDelimited(text) ==>
              r == text[PyFind(text, StartMarker) + |StartMarker|..PyFind(text, EndMarker)]
  {
    var start, stop := PyFind(text, StartMarker) + |StartMarker|, PyFind(text, EndMarker);
    var r := PySlice(text, start, stop);
    var lo := ClampIndex(start, |text|);
    if r == [] then r
    else
      PieceAvoids(text, EndMarker, lo, |r|, if stop >= 0 then stop else |text|);
      r
  }

  /** The stripped segment that is handed to the decoder: it never holds an end marker. */
  function JsonSegment(text: string): (r: string)
    ensures !Contains(r, EndMarker)
    ensures IsStripOf(r, SegmentSlice(text))
  {
    StripAvoids(SegmentSlice(text), EndMarker);
    Strip(SegmentSlice(text))
  }

  /**
   * `full_response[:full_response.find("[JSON_START]")].strip()`: the text
   * before the first start marker, stripped; with no start marker, the text
   * but its last character. Either way it never holds a start marker.
   */
  function Analysis(text: string): (r: string)
    ensures |r| <= |text|
    ensures !Contains(r, StartMarker)
    ensures var k := PyFind(text, StartMarker);
            && (k >= 0 ==> IsStripOf(r, text[..k]))
            && (k < 0 ==> IsStripOf(r, if text == [] then [] else text[..|text| - 1]))
  {
    var k := PyFind(text, StartMarker);
    var prefix := PySlice(text, 0, k);
    AnalysisPrefix(text, k, prefix);
    PieceAvoids(text, StartMarker, 0, |prefix|, if k >= 0 then k else |text|);
    StripAvoids(prefix, StartMarker);
    Strip(prefix)
  }

  /** `text[:k]` for the result `k` of `find`: up to the marker, or all but the last character. */
  lemma AnalysisPrefix(text: string, k: int, prefix: string)
    requires -1 <= k <= |text|
    requires prefix == PySlice(text, 0, k)
    ensures prefix == if k >= 0 then text[..k] else if text == [] then [] else text[..|text| - 1]
  {
    if k < 0 && text != [] {
      assert ClampIndex(k, |text|) == |text| - 1;
    }
  }

  /** Wraps a decoder failure the way `extract_json_from_text` does. */
  function ParseError(message: string): (e: HttpError)
    ensures e.status == 500
    ensures ParseErrorPrefix <= e.detail && e.detail[|ParseErrorPrefix|..] == message
  {
    HttpError(500, ParseErrorPrefix + message)
  }

  /**
   * `extract_json_from_text`: decode the stripped segment; any decoder
   * failure becomes a 500 error whose detail starts with the parse-error
   * prefix followed by the decoder's message.
   */
  function ExtractJson<J>(text: string, decode: string -> Result<J, string>): (r: Result<J, HttpError>)
    ensures r.Success? <==> decode(JsonSegment(text)).Success?
    ensures r.Success? ==> r.value == decode(JsonSegment(text)).value
    ensures r.Failure? ==> r.error.status == 500 && ParseErrorPrefix <= r.error.detail
    ensures r.Failure? ==> r.error == ParseError(decode(JsonSegment(text)).error)
  {
    match decode(JsonSegment(text))
    case Success(v) => Success(v)
    case Failure(message) => Failure(ParseError(message))
  }

  /**
   * The reply `a + "[JSON_START]" + j + "[JSON_END]" + b` splits back into
   * the stripped `a` and the stripped `j`, provided the markers found first
   * are the ones shown: `a` holds no start marker and nothing before the end
   * marker holds an end marker.
   */
  lemma {:induction false} RoundTrip(a: string, j: string, b: string)
    requires !Contains(a, StartMarker)
    requires !Contains(a + StartMarker + j, EndMarker)
    ensures var text := a + StartMarker + j + EndMarker + b;
            && SegmentSlice(text) == j
            && JsonSegment(text) == Strip(j)
            && Analysis(text) == Strip(a)
  {
    var text := a + StartMarker + j + EndMarker + b;
    MarkersUnbordered();
    FindAfterPrefix(a, StartMarker, j + EndMarker + b);
    assert a + StartMarker + (j + EndMarker + b) == text;
    FindAfterPrefix(a + StartMarker + j, EndMarker, b);
    var s := |a| + |StartMarker|;
    assert text[s..s + |j|] == j;
    assert text[0..|a|] == a;
  }

  /** With a well-formed reply the decoder sees exactly the stripped `j`. */
  lemma ExtractJsonRoundTrip<J>(a: string, j: string, b: string, decode: string -> Result<J, string>)
    requires !Contains(a, StartMarker)
    requires !Contains(a + StartMarker + j, EndMarker)
    ensures ExtractJson(a + StartMarker + j + EndMarker + b, decode)
              == match decode(Strip(j))
                 case Success(v) => Success(v)
                 case Failure(m) => Failure(ParseError(m))
  {
    RoundTrip(a, j, b);
  }

  /**
   * When the first end marker begins before the first start marker ends,
   * the slice is empty, and so the decoder fails and an error results.
   */
  lemma {:induction false} EndBeforeStartFails<J>(text: string, decode: string -> Result<J, string>)
    requires RejectsEmpty(decode)
    requires 0 <= PyFind(text, EndMarker) < PyFind(text, StartMarker) + |StartMarker|
    ensures SegmentSlice(text) == []
    ensures ExtractJson(text, decode) == Failure(ParseError(decode("").error))
  {
    var e := PyFind(text, EndMarker);
    var lo := PyFind(text, StartMarker) + |StartMarker|;
    assert ClampIndex(e, |text|) == e;
    assert e < ClampIndex(lo, |text|);
    assert Strip([]) == [] by {
      assert StrippedAt([], [], 0);
      StripCharacterized([], []);
    }
  }

  /**
   * With no start marker, `find` yields -1: the analysis is the whole text
   * but its last character, stripped, and the segment slice starts at
   * offset 11.
   */
  lemma MissingStart(text: string)
    requires !Contains(text, StartMarker)
    ensures Analysis(text) == Strip(if text == [] then [] else text[..|text| - 1])
    ensures SegmentSlice(text) == PySlice(text, 11, PyFind(text, EndMarker))
  {
  }

  /**
   * With a start marker and no end marker, `find` yields -1 for the end,
   * so the slice runs from just after the start marker to the last
   * character, exclusive.
   */
  lemma MissingEnd(text: string)
    requires Contains(text, StartMarker) && !Contains(text, EndMarker)
    ensures var lo := PyFind(text, StartMarker) + |StartMarker|;
            SegmentSlice(text) == if lo < |text| then text[lo..|text| - 1] else []
  {
  }

  /**
   * As written, a reply whose end marker is missing can still be decoded:
   * `find` yields -1 for the end, the slice runs to the last character, and
   * the decoder receives `{}`.
   */
  lemma {:induction false} MissingEndAccepted<J>(decode: string -> Result<J, string>, v: J)
    requires decode("{}") == Success(v)
    ensures var text := StartMarker + "{}\n";
            && !Contains(text, EndMarker)
            && JsonSegment(text) == "{}"
            && ExtractJson(text, decode) == Success(v)
  {
    var text := StartMarker + "{}\n";
    forall i | 0 <= i
      ensures !OccursAt(text, EndMarker, i)
    {
      if i == 0 {
        assert text[6] != EndMarker[6];
      } else if i + |EndMarker| <= |text| {
        assert text[i] != EndMarker[0];
      }
    }
    assert OccursAt(text, StartMarker, 0);
    assert SegmentSlice(text) == text[12..14] == "{}";
    assert StrippedAt("{}", "{}", 0);
    StripCharacterized("{}", "{}");
  }

  /** Both markers are present and the end marker follows the whole start marker. */
  predicate WellDelimited(text: string) {
    && PyFind(text, StartMarker) >= 0
    && PyFind(text, EndMarker) >= PyFind(text, StartMarker) + |StartMarker|
  }

  const MarkersMissing: string := "missing or misplaced [JSON_START] / [JSON_END] markers"

  /**
   * The parser as the service means it: a reply that is not well delimited
   * is a parse error before anything is decoded; otherwise it behaves as
   * `ExtractJson`.
   */
  function ExtractJsonStrict<J>(text: string, decode: string -> Result<J, string>): (r: Result<J, HttpError>)
    ensures r.Failure? ==> r.error.status == 500 && ParseErrorPrefix <= r.error.detail
    ensures r.Success? ==> WellDelimited(text) && decode(JsonSegment(text)) == Success(r.value)
  {
    if WellDelimited(text) then ExtractJson(text, decode)
    else Failure(ParseError(MarkersMissing))
  }

  /** Without either marker, the corrected parser always reports a parse error. */
  lemma StrictRejectsMissingMarker<J>(text: string, decode: string -> Result<J, string>)
    requires !Contains(text, StartMarker) || !Contains(text, EndMarker)
    ensures ExtractJsonStrict(text, decode) == Failure(ParseError(MarkersMissing))
  {
  }

  /** The correction changes nothing for a well-formed reply. */
  lemma {:induction false} StrictRoundTrip<J>(a: string, j: string, b: string, decode: string -> Result<J, string>)
    requires !Contains(a, StartMarker)
    requires !Contains(a + StartMarker + j, EndMarker)
    ensures ExtractJsonStrict(a + StartMarker + j + EndMarker + b, decode)
              == ExtractJson(a + StartMarker + j + EndMarker + b, decode)
  {
    var text := a + StartMarker + j + EndMarker + b;
    MarkersUnbordered();
    FindAfterPrefix(a, StartMarker, j + EndMarker + b);
    assert a + StartMarker + (j + EndMarker + b) == text;
    FindAfterPrefix(a + StartMarker + j, EndMarker, b);
  }
}
