/** Locating the numeric payload in the instrument's reply and cutting it
    into samples: the text after the first `ready`, split on commas, blank
    segments dropped, every remaining segment required to be a float. The
    samples are kept as the token strings `float()` would convert. */
module Payload {
  import opened Wrappers
  import opened FloatSyntax

  /** Marker that separates the instrument's echo and status text from the data. */
  const Sentinel: string := "ready"

  predicate OccursAt(s: string, pat: string, i: nat)
  {
    i + |pat| <= |s| && s[i..i + |pat|] == pat
  }

  /** The first position at or after `from` where `pat` occurs, if any. */
  function FindFrom(s: string, pat: string, from: nat): (r: Option<nat>)
    ensures r.Some? ==> from <= r.value && OccursAt(s, pat, r.value)
    ensures r.Some? ==> forall j: nat :: from <= j < r.value ==> !OccursAt(s, pat, j)
    ensures r.None? ==> forall j: nat :: from <= j ==> !OccursAt(s, pat, j)
    decreases |s| - from
  {
    if from + |pat| > |s| then None
    else if OccursAt(s, pat, from) then Some(from)
    else FindFrom(s, pat, from + 1)
  }

  /** `s.find(pat)` as an option: the first position where `pat` occurs. */
  function Find(s: string, pat: string): (r: Option<nat>)
    ensures r.Some? ==> OccursAt(s, pat, r.value) && forall j: nat :: j < r.value ==> !OccursAt(s, pat, j)
    ensures r.None? <==> forall j: nat :: !OccursAt(s, pat, j)
  {
    FindFrom(s, pat, 0)
  }

  /** `'ready' in text`. */
  predicate Contains(text: string)
  {
    Find(text, Sentinel).Some?
  }

  /** `text.split('ready', 1)[1]`: everything after the first sentinel. */
  function AfterSentinel(text: string): string
    requires Contains(text)
  {
    text[Find(text, Sentinel).value + |Sentinel|..]
  }

  /** `s.split(",")`: the segments between commas, at least one. */
  function Split(s: string): (r: seq<string>)
    ensures |r| >= 1
    ensures forall k :: 0 <= k < |r| ==> ',' !in r[k]
  {
    if s == [] then [""]
    else
      var rest := Split(s[1..]);
      if s[0] == ',' then [""] + rest else [[s[0]] + rest[0]] + rest[1..]
  }

  /** `",".join(segs)`, the inverse of `Split`. */
  function Join(segs: seq<string>): string
    requires |segs| >= 1
  {
    if |segs| == 1 then segs[0] else segs[0] + "," + Join(segs[1..])
  }

  /** Splitting loses nothing: joining the segments gives back the text. */
  lemma {:induction false} JoinSplit(s: string)
    ensures Join(Split(s)) == s
  {
    if s != [] {
      var rest := Split(s[1..]);
      JoinSplit(s[1..]);
      if s[0] != ',' {
        JoinConsChar(s[0], rest);
      }
    }
  }

  lemma {:induction false} JoinConsChar(c: char, segs: seq<string>)
    requires |segs| >= 1
    ensures Join([[c] + segs[0]] + segs[1..]) == [c] + Join(segs)
  {
    var t := [[c] + segs[0]] + segs[1..];
    assert |t| == |segs| && t[0] == [c] + segs[0];
    if |segs| > 1 {
      assert t[1..] == segs[1..];
      var tail := Join(segs[1..]);
      assert Join(t) == ([c] + segs[0]) + "," + tail;
      assert Join(segs) == segs[0] + "," + tail;
      assert ([c] + segs[0]) + "," + tail == [c] + (segs[0] + "," + tail);
    }
  }

  /** Segments free of commas come back unchanged from a join and a split. */
  lemma {:induction false} SplitJoin(segs: seq<string>)
    requires |segs| >= 1
    requires forall k :: 0 <= k < |segs| ==> ',' !in segs[k]
    ensures Split(Join(segs)) == segs
    decreases |Join(segs)|
  {
    var s := Join(segs);
    if segs[0] == [] {
      if |segs| > 1 {
        assert s == [','] + Join(segs[1..]);
        assert s[1..] == Join(segs[1..]);
        SplitJoin(segs[1..]);
      }
    } else {
      var c := segs[0][0];
      var smaller := [segs[0][1..]] + segs[1..];
      assert segs[0] == [c] + segs[0][1..];
      assert smaller[1..] == segs[1..];
      JoinConsChar(c, smaller);
      assert [[c] + smaller[0]] + smaller[1..] == segs;
      assert s == [c] + Join(smaller);
      assert s[1..] == Join(smaller);
      SplitJoin(smaller);
    }
  }

  lemma {:induction false} JoinAppend(a: seq<string>, b: seq<string>)
    requires |a| >= 1 && |b| >= 1
    ensures Join(a + b) == Join(a) + "," + Join(b)
  {
    if |a| > 1 {
      assert (a + b)[1..] == a[1..] + b;
      JoinAppend(a[1..], b);
    }
  }

  /** A comma cuts the text in two independent halves. */
  lemma SplitAppend(a: string, b: string)
    ensures Split(a + "," + b) == Split(a) + Split(b)
  {
    JoinSplit(a);
    JoinSplit(b);
    JoinAppend(Split(a), Split(b));
    SplitJoin(Split(a) + Split(b));
  }

  lemma {:induction false} SplitCount(s: string)
    ensures |Split(s)| <= |s| + 1
  {
    if s != [] {
      SplitCount(s[1..]);
    }
  }

  /** The comprehension's `if segment.strip()`: blank segments are dropped. */
  function NonBlank(segs: seq<string>): (r: seq<string>)
    ensures |r| <= |segs|
  {
    if segs == [] then []
    else (if IsBlank(segs[0]) then [] else [segs[0]]) + NonBlank(segs[1..])
  }

  /** The segments kept are exactly the non-blank ones. */
  lemma {:induction false} NonBlankMembers(segs: seq<string>)
    ensures forall x :: x in NonBlank(segs) <==> x in segs && !IsBlank(x)
  {
    if segs != [] {
      NonBlankMembers(segs[1..]);
      assert forall x :: x in segs <==> x == segs[0] || x in segs[1..];
    }
  }

  lemma {:induction false} NonBlankAppend(a: seq<string>, b: seq<string>)
    ensures NonBlank(a + b) == NonBlank(a) + NonBlank(b)
  {
    if a == [] {
      assert a + b == b;
    } else {
      assert (a + b)[1..] == a[1..] + b;
      NonBlankAppend(a[1..], b);
    }
  }

  /** The samples in a payload, in their original order. */
  function Tokens(payload: string): seq<string>
  {
    NonBlank(Split(payload))
  }

  /** Samples on either side of a comma are those of each side, in order. */
  lemma TokensAppend(a: string, b: string)
    ensures Tokens(a + "," + b) == Tokens(a) + Tokens(b)
  {
    SplitAppend(a, b);
    NonBlankAppend(Split(a), Split(b));
  }

  /** A comma-free segment is one sample, unless it is blank. */
  lemma TokensSegment(x: string)
    requires ',' !in x
    ensures Tokens(x) == if IsBlank(x) then [] else [x]
  {
    SplitJoin([x]);
  }

  /** A trailing comma adds no sample. */
  lemma TrailingCommaIgnored(payload: string)
    ensures Tokens(payload + ",") == Tokens(payload)
  {
    TokensAppend(payload, "");
    TokensSegment("");
    assert payload + "," + "" == payload + ",";
  }

  /** Every token is accepted by `float()`. */
  predicate AllFloat(tokens: seq<string>)
  {
    forall k :: 0 <= k < |tokens| ==> IsFloat(tokens[k])
  }

  /** Index of the first token `float()` rejects, or -1. */
  function FirstNonFloat(tokens: seq<string>): (r: int)
    ensures -1 <= r < |tokens|
    ensures r >= 0 ==> !IsFloat(tokens[r])
    ensures forall j :: 0 <= j < |tokens| && (r < 0 || j < r) ==> IsFloat(tokens[j])
  {
    if tokens == [] then -1
    else if !IsFloat(tokens[0]) then 0
    else
      var k := FirstNonFloat(tokens[1..]);
      if k < 0 then -1 else k + 1
  }

  /** Why a reply yields no trace. */
  datatype ParseError = NoResponse | NoSentinel | NotAFloat(token: string)

  /** The parse of OSA.get_single_trace and of the acquisition script: the
      non-blank comma-separated tokens after the first `ready`, converted in
      order, the first token `float()` rejects raising. */
  function ParseTrace(text: string): (r: Result<seq<string>, ParseError>)
    ensures r.Err? ==> r.error == NoSentinel || r.error.NotAFloat?
    ensures r == Err(NoSentinel) <==> !Contains(text)
    ensures Contains(text) ==> (r.Ok? <==> AllFloat(Tokens(AfterSentinel(text))))
    ensures r.Ok? ==> r.value == Tokens(AfterSentinel(text))
    ensures r.Err? && r.error.NotAFloat? ==> r.error.token in Tokens(AfterSentinel(text)) && !IsFloat(r.error.token)
  {
    match Find(text, Sentinel)
    case None => Err(NoSentinel)
    case Some(i) =>
      var tokens := Tokens(text[i + |Sentinel|..]);
      var bad := FirstNonFloat(tokens);
      if bad >= 0 then Err(NotAFloat(tokens[bad])) else Ok(tokens)
  }

  /** What a successful parse yields are float-convertible, non-blank,
      comma-free segments of the payload. */
  lemma ParsedSamples(text: string)
    requires ParseTrace(text).Ok?
    ensures forall k :: 0 <= k < |ParseTrace(text).value| ==>
      IsFloat(ParseTrace(text).value[k]) && !IsBlank(ParseTrace(text).value[k]) && ',' !in ParseTrace(text).value[k]
  {
    var segments := Split(AfterSentinel(text));
    var tokens := ParseTrace(text).value;
    NonBlankMembers(segments);
    forall k | 0 <= k < |tokens|
      ensures !IsBlank(tokens[k]) && ',' !in tokens[k]
    {
      assert tokens[k] in tokens;
    }
  }

  /** `if trace_data:` first, then the parse: `None` and the empty reply are
      no response at all. */
  function ParseResponse(response: Option<string>): (r: Result<seq<string>, ParseError>)
    ensures r == Err(NoResponse) <==> response == None || response == Some("")
    ensures response.Some? && response.value != "" ==> r == ParseTrace(response.value)
  {
    match response
    case None => Err(NoResponse)
    case Some(text) => if text == "" then Err(NoResponse) else ParseTrace(text)
  }

  /** Only the first sentinel counts: text before it has no effect on the parse. */
  lemma SentinelFirst(prefix: string, payload: string)
    requires !Contains(prefix)
    ensures Find(prefix + Sentinel + payload, Sentinel) == Some(|prefix|)
    ensures AfterSentinel(prefix + Sentinel + payload) == payload
    ensures ParseTrace(prefix + Sentinel + payload) == ParseTrace(Sentinel + payload)
  {
    var text := prefix + Sentinel + payload;
    assert OccursAt(text, Sentinel, |prefix|);
    forall j: nat | j < |prefix|
      ensures !OccursAt(text, Sentinel, j)
    {
      if j + |Sentinel| <= |prefix| {
        assert !OccursAt(prefix, Sentinel, j);
        assert prefix[j..j + |Sentinel|] == text[j..j + |Sentinel|];
      } else {
        // a match straddling the boundary would need an 'r' among "eady"
        var m := |prefix| - j;
        assert 1 <= m <= 4;
        assert text[j..j + |Sentinel|][m] == text[|prefix|] == 'r';
        assert Sentinel[m] != 'r' by {
          assert Sentinel == ['r', 'e', 'a', 'd', 'y'];
        }
      }
    }
    assert OccursAt(Sentinel + payload, Sentinel, 0);
    assert (Sentinel + payload)[|Sentinel|..] == payload;
    assert text[|prefix| + |Sentinel|..] == payload;
  }

  /** A reply whose sentinel ends it carries zero samples. */
  lemma NothingAfterSentinel(prefix: string)
    requires !Contains(prefix)
    ensures ParseTrace(prefix + Sentinel) == Ok([])
  {
    SentinelFirst(prefix, "");
    assert prefix + Sentinel + "" == prefix + Sentinel;
    TokensSegment("");
  }

  /** A reply without a `y` cannot hold the sentinel. */
  lemma NoSentinelWithoutY(text: string)
    requires 'y' !in text
    ensures !Contains(text)
  {
    forall j: nat
      ensures !OccursAt(text, Sentinel, j)
    {
      if j + |Sentinel| <= |text| {
        assert text[j + 4] in text;
        assert text[j..j + |Sentinel|][4] == text[j + 4] != 'y' == Sentinel[4];
      }
    }
  }

  lemma MissingSentinelExample()
    ensures ParseTrace("no-sentinel-here,1,2,3") == Err(NoSentinel)
  {
    NoSentinelWithoutY("no-sentinel-here,1,2,3");
  }

  /** Echo text before the sentinel is ignored and the empty segment is skipped. */
  lemma ParseExample()
    ensures ParseTrace("junk,ready,1.0,2.0,,3.0") == Ok(["1.0", "2.0", "3.0"])
  {
    var prefix, payload := "junk,", ",1.0,2.0,,3.0";
    var text := prefix + Sentinel + payload;
    assert text == "junk,ready,1.0,2.0,,3.0";
    NoSentinelWithoutY(prefix);
    SentinelFirst(prefix, payload);
    ExamplePayloadTokens();
    var samples := ["1.0", "2.0", "3.0"];
    ShortDecimal('1', '0');
    ShortDecimal('2', '0');
    ShortDecimal('3', '0');
    assert AllFloat(samples);
  }

  lemma ExamplePayloadTokens()
    ensures Tokens(",1.0,2.0,,3.0") == ["1.0", "2.0", "3.0"]
  {
    var x, y, z := "1.0", "2.0", "3.0";
    assert !IsSpace(x[0]) && !IsSpace(y[0]) && !IsSpace(z[0]);
    ThreeSamples(x, y, z);
    assert "," + (x + "," + (y + "," + ("," + z))) == ",1.0,2.0,,3.0";
  }

  /** A leading comma adds no sample. */
  lemma LeadingCommaIgnored(rest: string)
    ensures Tokens("," + rest) == Tokens(rest)
  {
    TokensAppend("", rest);
    TokensSegment("");
    assert "" + "," + rest == "," + rest;
  }

  /** A non-blank comma-free segment before a comma is the first sample. */
  lemma FirstSample(a: string, rest: string)
    requires ',' !in a && !IsBlank(a)
    ensures Tokens(a + "," + rest) == [a] + Tokens(rest)
  {
    TokensAppend(a, rest);
    TokensSegment(a);
  }

  /** An empty leading segment and a doubled comma add no samples. */
  lemma ThreeSamples(x: string, y: string, z: string)
    requires ',' !in x && ',' !in y && ',' !in z
    requires !IsBlank(x) && !IsBlank(y) && !IsBlank(z)
    ensures Tokens("," + (x + "," + (y + "," + ("," + z)))) == [x, y, z]
  {
    var s1 := "," + z;
    TokensSegment(z);
    LeadingCommaIgnored(z);
    var s2 := y + "," + s1;
    FirstSample(y, s1);
    var s3 := x + "," + s2;
    FirstSample(x, s2);
    LeadingCommaIgnored(s3);
  }

  /** The wavelength axis handed on with the samples: `linspace(first, last,
      points)`, kept by its bounds (as the text they are given in) and its
      number of points. */
  datatype Axis = Axis(first: string, last: string, points: nat)

  datatype Trace = Trace(axis: Axis, samples: seq<string>)

  /** `ArrayForLabview` as written: no blank filtering, so an empty or blank
      segment makes `float()` raise, and the axis has one point per character
      of the whole input. */
  function ArrayForLabview(input: string, start: string, stop: string): (r: Result<Trace, ParseError>)
    ensures r == Err(NoSentinel) <==> !Contains(input)
    ensures r.Ok? <==> Contains(input) && AllFloat(Split(AfterSentinel(input)))
    ensures r.Ok? ==> r.value.axis == Axis(start, stop, |input|) && r.value.samples == Split(AfterSentinel(input))
  {
    match Find(input, Sentinel)
    case None => Err(NoSentinel)
    case Some(i) =>
      var segments := Split(input[i + |Sentinel|..]);
      var bad := FirstNonFloat(segments);
      if bad >= 0 then Err(NotAFloat(segments[bad]))
      else Ok(Trace(Axis(start, stop, |input|), segments))
  }

  /** A blank segment after the sentinel (a trailing comma, say) makes it raise. */
  lemma LabviewRejectsBlankSegment(input: string, start: string, stop: string, k: nat)
    requires Contains(input) && k < |Split(AfterSentinel(input))|
    requires IsBlank(Split(AfterSentinel(input))[k])
    ensures ArrayForLabview(input, start, stop).Err?
  {
    if IsFloat(Split(AfterSentinel(input))[k]) {
      FloatIsNotBlank(Split(AfterSentinel(input))[k]);
    }
  }

  /** The axis it returns never matches the samples: it always has more points. */
  lemma LabviewAxisOutgrowsSamples(input: string, start: string, stop: string)
    requires ArrayForLabview(input, start, stop).Ok?
    ensures ArrayForLabview(input, start, stop).value.axis.points > |ArrayForLabview(input, start, stop).value.samples|
  {
    SplitCount(AfterSentinel(input));
  }

  /** `ArrayForLabview` with the axis sized by the samples, as the other
      parsers do it. */
  function ArrayForLabviewCorrected(input: string, start: string, stop: string): (r: Result<Trace, ParseError>)
    ensures r.Ok? ==> r.value.axis == Axis(start, stop, |r.value.samples|)
    ensures r.Ok? <==> ArrayForLabview(input, start, stop).Ok?
    ensures r.Ok? ==> r.value.samples == ArrayForLabview(input, start, stop).value.samples
    ensures r.Err? ==> r == ArrayForLabview(input, start, stop)
  {
    match ArrayForLabview(input, start, stop)
    case Err(e) => Err(e)
    case Ok(trace) => Ok(Trace(Axis(start, stop, |trace.samples|), trace.samples))
  }
}
