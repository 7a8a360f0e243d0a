/** ProxyURLExtractor::Extract(keys, raw_url) (proxy_url/proxy_url/proxy_url_extractor.h):
    recover the target URL that a translator or redirect gateway carries in one of its
    query parameters.

    The query is everything after the first '?'.  It is cut into segments at every '&',
    each segment into a key and a value at its first '='.  The result is the value of the
    first segment whose key is one of the candidate keys and whose value is not empty,
    exactly as it stands in the URL; with no such segment it is the empty string.

    Extract states the algorithm on split pieces; ValueSpan finds the same value by
    scanning indices of the URL, and ExtractIsValueSpan proves the two agree, which shows
    where in the URL the result lies.  Answer states the same rule once more on a query
    given as a list of segments; ExtractOfSegments proves Extract agrees with it on the
    text those segments make, and ExtractIsAnswer, reading every query back as segments,
    on every URL. */
module ProxyUrlExtractor {

  datatype Option<T> = None | Some(value: T)

  /** The index of the first c in s[from..upto], or upto when there is none. */
  function Find(s: string, c: char, from: nat, upto: nat): (i: nat)
    requires from <= upto <= |s|
    ensures from <= i <= upto
    ensures i < upto ==> s[i] == c
    ensures forall k :: from <= k < i ==> s[k] != c
    decreases upto - from
  {
    if from == upto || s[from] == c then from else Find(s, c, from + 1, upto)
  }

  /** An index with the three properties of Find's result is Find's result. */
  lemma FindIsFirst(s: string, c: char, from: nat, upto: nat, i: nat)
    requires from <= i <= upto <= |s|
    requires i < upto ==> s[i] == c
    requires forall k :: from <= k < i ==> s[k] != c
    ensures Find(s, c, from, upto) == i
  {
  }

  /** The pieces of s between the occurrences of sep, in order, empty pieces kept. */
  function Split(s: string, sep: char): (parts: seq<string>)
    ensures |parts| >= 1
    decreases |s|
  {
    var i := Find(s, sep, 0, |s|);
    if i == |s| then [s] else [s[..i]] + Split(s[i + 1..], sep)
  }

  /** No piece holds the separator. */
  lemma {:induction false} SplitPiecesLackSep(s: string, sep: char)
    ensures forall k :: 0 <= k < |Split(s, sep)| ==> sep !in Split(s, sep)[k]
    decreases |s|
  {
    var i := Find(s, sep, 0, |s|);
    if i < |s| {
      SplitPiecesLackSep(s[i + 1..], sep);
    }
  }

  /** The pieces put back together with sep between them. */
  function Join(parts: seq<string>, sep: char): string
    requires |parts| >= 1
  {
    if |parts| == 1 then parts[0] else parts[0] + [sep] + Join(parts[1..], sep)
  }

  /** Splitting loses nothing: joining the pieces gives back the string. */
  lemma {:induction false} JoinSplit(s: string, sep: char)
    ensures Join(Split(s, sep), sep) == s
    decreases |s|
  {
    var i := Find(s, sep, 0, |s|);
    if i < |s| {
      var parts := Split(s, sep);
      assert parts == [s[..i]] + Split(s[i + 1..], sep);
      assert parts[1..] == Split(s[i + 1..], sep);
      JoinSplit(s[i + 1..], sep);
      assert Join(parts, sep) == s[..i] + [sep] + s[i + 1..];
      assert s == s[..i] + [sep] + s[i + 1..];
    }
  }

  /** A piece without sep followed by sep and a rest splits into that piece and the
      pieces of the rest. */
  lemma SplitCons(piece: string, sep: char, rest: string)
    requires sep !in piece
    ensures Split(piece + [sep] + rest, sep) == [piece] + Split(rest, sep)
  {
    var s := piece + [sep] + rest;
    FindIsFirst(s, sep, 0, |s|, |piece|);
    assert s[..|piece|] == piece;
    assert s[|piece| + 1..] == rest;
  }

  /** A string without sep is a single piece. */
  lemma SplitSingle(piece: string, sep: char)
    requires sep !in piece
    ensures Split(piece, sep) == [piece]
  {
    FindIsFirst(piece, sep, 0, |piece|, |piece|);
  }

  /** Joining pieces that hold no sep and splitting again gives the pieces back. */
  lemma {:induction false} SplitJoin(parts: seq<string>, sep: char)
    requires |parts| >= 1
    requires forall k :: 0 <= k < |parts| ==> sep !in parts[k]
    ensures Split(Join(parts, sep), sep) == parts
    decreases |parts|
  {
    if |parts| == 1 {
      SplitSingle(parts[0], sep);
    } else {
      SplitJoin(parts[1..], sep);
      SplitCons(parts[0], sep, Join(parts[1..], sep));
    }
  }

  /** One query parameter: the key and the value of a segment. */
  datatype Param = Param(key: string, value: string)

  /** A segment cut at its first '='.  Without '=' the whole segment is the key and the
      value is empty. */
  function ParseParam(segment: string): Param
  {
    var i := Find(segment, '=', 0, |segment|);
    if i == |segment| then Param(segment, "") else Param(segment[..i], segment[i + 1..])
  }

  /** Parsing loses nothing: the key holds no '=', and the segment is the key alone when it
      has no '=', else the key, '=' and the value. */
  lemma ParseParamRoundTrip(segment: string)
    ensures '=' !in ParseParam(segment).key
    ensures var p := ParseParam(segment);
      segment == if '=' in segment then p.key + "=" + p.value else p.key
  {
    var i := Find(segment, '=', 0, |segment|);
    if i < |segment| {
      assert segment == segment[..i] + "=" + segment[i + 1..];
    }
  }

  /** `key=value` with a key free of '=' parses back into that key and value. */
  lemma ParseKeyValue(key: string, value: string)
    requires '=' !in key
    ensures ParseParam(key + "=" + value) == Param(key, value)
  {
    var s := key + "=" + value;
    FindIsFirst(s, '=', 0, |s|, |key|);
    assert s[..|key|] == key;
    assert s[|key| + 1..] == value;
  }

  /** A segment without '=' is a key with an empty value. */
  lemma ParseBareKey(key: string)
    requires '=' !in key
    ensures ParseParam(key) == Param(key, "")
  {
    FindIsFirst(key, '=', 0, |key|, |key|);
  }

  /** A parameter carries the target: its key is a candidate and its value is not empty. */
  predicate Qualifies(keys: set<string>, p: Param)
  {
    p.key in keys && p.value != ""
  }

  /** A segment qualifies exactly when it reads `key=value` with a candidate key free of '='
      and a non-empty value: a bare key, an empty value or a key that merely starts with a
      candidate never does. */
  lemma QualifyingSegment(keys: set<string>, segment: string)
    ensures Qualifies(keys, ParseParam(segment)) <==>
      exists key, value :: '=' !in key && key in keys && value != "" && segment == key + "=" + value
  {
    var p := ParseParam(segment);
    ParseParamRoundTrip(segment);
    if Qualifies(keys, p) {
      assert '=' !in p.key && p.key in keys && p.value != "" && segment == p.key + "=" + p.value;
    }
    if exists key, value :: '=' !in key && key in keys && value != "" && segment == key + "=" + value {
      var key, value :| '=' !in key && key in keys && value != "" && segment == key + "=" + value;
      ParseKeyValue(key, value);
    }
  }

  /** The index of the first qualifying segment, or the number of segments when none does. */
  function FirstQualifying(keys: set<string>, segments: seq<string>): (n: nat)
    ensures n <= |segments|
    ensures n < |segments| ==> Qualifies(keys, ParseParam(segments[n]))
    ensures forall k :: 0 <= k < n ==> !Qualifies(keys, ParseParam(segments[k]))
    decreases |segments|
  {
    if segments == [] then 0
    else if Qualifies(keys, ParseParam(segments[0])) then 0
    else 1 + FirstQualifying(keys, segments[1..])
  }

  /** The value of the first qualifying segment, or "" when no segment qualifies. */
  function PickValue(keys: set<string>, segments: seq<string>): string
  {
    var n := FirstQualifying(keys, segments);
    if n < |segments| then ParseParam(segments[n]).value else ""
  }

  /** Nothing is picked exactly when no segment qualifies. */
  lemma PickValueEmptyIff(keys: set<string>, segments: seq<string>)
    ensures PickValue(keys, segments) == "" <==>
      forall k :: 0 <= k < |segments| ==> !Qualifies(keys, ParseParam(segments[k]))
  {
  }

  /** First match wins: the value picked is that of the earliest qualifying segment,
      whatever later segments hold. */
  lemma FirstMatchWins(keys: set<string>, segments: seq<string>, n: nat)
    requires n < |segments| && Qualifies(keys, ParseParam(segments[n]))
    requires forall k :: 0 <= k < n ==> !Qualifies(keys, ParseParam(segments[k]))
    ensures PickValue(keys, segments) == ParseParam(segments[n]).value
  {
  }

  /** Picking from a first segment followed by others: that segment's value when it
      qualifies, otherwise the pick from the others. */
  lemma PickCons(keys: set<string>, segment: string, rest: seq<string>)
    ensures PickValue(keys, [segment] + rest) ==
      if Qualifies(keys, ParseParam(segment)) then ParseParam(segment).value else PickValue(keys, rest)
  {
    assert ([segment] + rest)[1..] == rest;
  }

  /** The index of the first '?' of url, or |url|. */
  function FirstMark(url: string): nat
  {
    Find(url, '?', 0, |url|)
  }

  /** The query of url: everything after its first '?', none when there is no '?'. */
  function Query(url: string): (q: Option<string>)
    ensures q.None? <==> '?' !in url
    ensures q.Some? ==>
      var m := |url| - |q.value| - 1;
      0 <= m && url[m] == '?' && '?' !in url[..m] && q.value == url[m + 1..]
  {
    var m := FirstMark(url);
    if m == |url| then None else Some(url[m + 1..])
  }

  /** Extract(keys, raw_url): the value of the first query segment whose key is a candidate
      and whose value is not empty, verbatim; "" when there is none or no query at all. */
  function Extract(keys: set<string>, url: string): (subUrl: string)
    ensures '?' !in url ==> subUrl == ""
    ensures '&' !in subUrl
  {
    match Query(url)
    case None => ""
    case Some(q) =>
      var segments := Split(q, '&');
      var v := PickValue(keys, segments);
      assert '&' !in v by {
        var n := FirstQualifying(keys, segments);
        if n < |segments| {
          SplitPiecesLackSep(q, '&');
          ParseParamRoundTrip(segments[n]);
        }
      }
      v
  }

  /** The static Extract(keys, raw_url, sub_url) overload: the same result, delivered in an
      out-parameter. */
  method ExtractInto(keys: set<string>, rawUrl: string) returns (subUrl: string)
    ensures subUrl == Extract(keys, rawUrl)
    ensures subUrl != "" ==> '?' in rawUrl
  {
    subUrl := Extract(keys, rawUrl);
  }

  /** Only the first '?' opens the query: whatever comes before it is ignored, and any
      later '?' is an ordinary byte of the query. */
  lemma ExtractAfterFirstMark(keys: set<string>, path: string, query: string)
    requires '?' !in path
    ensures Extract(keys, path + "?" + query) == PickValue(keys, Split(query, '&'))
  {
    var url := path + "?" + query;
    FindIsFirst(url, '?', 0, |url|, |path|);
    assert url[|path| + 1..] == query;
  }

  /** A query segment as written: `key=value`, or a bare key with no '='. */
  datatype Segment = Pair(key: string, value: string) | Bare(key: string)

  /** A segment that reads back as itself: no '&' anywhere and no '=' in the key. */
  predicate WellFormed(g: Segment)
  {
    '&' !in g.key && '=' !in g.key && (g.Pair? ==> '&' !in g.value)
  }

  /** The text of one segment. */
  function SegmentText(g: Segment): string
  {
    match g
    case Pair(k, v) => k + "=" + v
    case Bare(k) => k
  }

  /** The texts of a list of segments, in order. */
  function SegmentTexts(gs: seq<Segment>): (ts: seq<string>)
    ensures |ts| == |gs|
    ensures forall k :: 0 <= k < |gs| ==> ts[k] == SegmentText(gs[k])
  {
    if gs == [] then [] else [SegmentText(gs[0])] + SegmentTexts(gs[1..])
  }

  /** The query text of a non-empty list of segments: their texts joined with '&'. */
  function QueryText(gs: seq<Segment>): string
    requires gs != []
  {
    Join(SegmentTexts(gs), '&')
  }

  /** The reference answer on segments: the value of the first pair whose key is a
      candidate and whose value is not empty; a bare key never answers. */
  function Answer(keys: set<string>, gs: seq<Segment>): string
  {
    if gs == [] then ""
    else if gs[0].Pair? && gs[0].key in keys && gs[0].value != "" then gs[0].value
    else Answer(keys, gs[1..])
  }

  /** The answer on a concatenation: the first list answers if it can, otherwise the
      second one does. */
  lemma {:induction false} AnswerAppend(keys: set<string>, a: seq<Segment>, b: seq<Segment>)
    ensures Answer(keys, a + b) == if Answer(keys, a) != "" then Answer(keys, a) else Answer(keys, b)
    decreases |a|
  {
    if a != [] {
      assert (a + b)[0] == a[0];
      assert (a + b)[1..] == a[1..] + b;
      AnswerAppend(keys, a[1..], b);
    } else {
      assert a + b == b;
    }
  }

  /** Picking from the texts of well-formed segments gives the reference answer. */
  lemma {:induction false} PickTextsIsAnswer(keys: set<string>, gs: seq<Segment>)
    requires forall g | g in gs :: WellFormed(g)
    ensures PickValue(keys, SegmentTexts(gs)) == Answer(keys, gs)
    decreases |gs|
  {
    if gs != [] {
      var ts := SegmentTexts(gs);
      assert gs[0] in gs;
      match gs[0] {
        case Pair(k, v) => ParseKeyValue(k, v);
        case Bare(k) => ParseBareKey(k);
      }
      assert forall g | g in gs[1..] :: g in gs;
      PickTextsIsAnswer(keys, gs[1..]);
      assert ts == [ts[0]] + SegmentTexts(gs[1..]);
      PickCons(keys, ts[0], SegmentTexts(gs[1..]));
    }
  }

  /** Extract on a URL written as a path without '?', then '?', then well-formed segments
      joined by '&', returns the reference answer on those segments. */
  lemma ExtractOfSegments(keys: set<string>, path: string, gs: seq<Segment>)
    requires '?' !in path && gs != []
    requires forall g | g in gs :: WellFormed(g)
    ensures Extract(keys, path + "?" + QueryText(gs)) == Answer(keys, gs)
  {
    var ts := SegmentTexts(gs);
    ExtractAfterFirstMark(keys, path, QueryText(gs));
    assert forall k | 0 <= k < |gs| :: gs[k] in gs;
    SplitJoin(ts, '&');
    PickTextsIsAnswer(keys, gs);
  }

  /** A segment text read back as a Segment: a pair cut at its first '=', or a bare key. */
  function SegmentOf(text: string): (g: Segment)
    ensures SegmentText(g) == text
    ensures '=' !in g.key
  {
    ParseParamRoundTrip(text);
    var p := ParseParam(text);
    if '=' in text then Pair(p.key, p.value) else Bare(text)
  }

  /** Segment texts read back as Segments, in order. */
  function SegmentsOf(texts: seq<string>): (gs: seq<Segment>)
    ensures |gs| == |texts|
    ensures forall k :: 0 <= k < |texts| ==> gs[k] == SegmentOf(texts[k])
  {
    if texts == [] then [] else [SegmentOf(texts[0])] + SegmentsOf(texts[1..])
  }

  /** Every query reads as a non-empty list of well-formed segments whose text is the query
      itself: the segment lists Answer takes cover every query. */
  lemma QuerySegments(q: string)
    ensures var gs := SegmentsOf(Split(q, '&'));
      gs != [] && (forall g | g in gs :: WellFormed(g)) && QueryText(gs) == q
  {
    var ts := Split(q, '&');
    var gs := SegmentsOf(ts);
    SplitPiecesLackSep(q, '&');
    forall g | g in gs
      ensures WellFormed(g)
    {
      var k :| 0 <= k < |gs| && gs[k] == g;
      assert '&' !in SegmentText(g);
    }
    assert SegmentTexts(gs) == ts;
    JoinSplit(q, '&');
  }

  /** Extract returns the reference answer on the segments of the query, for every URL. */
  lemma ExtractIsAnswer(keys: set<string>, url: string)
    ensures Extract(keys, url) ==
      match Query(url)
      case None => ""
      case Some(q) => Answer(keys, SegmentsOf(Split(q, '&')))
  {
    var m := FirstMark(url);
    if m < |url| {
      var path, q := url[..m], url[m + 1..];
      assert Query(url) == Some(q);
      assert '?' !in path;
      assert url == path + "?" + q;
      QuerySegments(q);
      ExtractOfSegments(keys, path, SegmentsOf(Split(q, '&')));
    }
  }

  /** Where a value lies in the URL: the segment starting at keyStart reads
      `key=value`, with key = url[keyStart..valueStart - 1] a candidate and
      value = url[valueStart..valueEnd] not empty and running to the next '&' or the end. */
  datatype Span = Span(keyStart: nat, valueStart: nat, valueEnd: nat)

  predicate IsValueSpan(keys: set<string>, url: string, sp: Span)
  {
    && sp.keyStart < sp.valueStart < sp.valueEnd <= |url|
    && url[sp.valueStart - 1] == '='
    && url[sp.keyStart..sp.valueStart - 1] in keys
    && (forall k :: sp.keyStart <= k < sp.valueStart - 1 ==> url[k] != '&' && url[k] != '=')
    && (forall k :: sp.valueStart <= k < sp.valueEnd ==> url[k] != '&')
    && (sp.valueEnd == |url| || url[sp.valueEnd] == '&')
  }

  /** A segment of url[from..] starts at k: k is from itself or follows an '&'. */
  predicate StartsSegment(url: string, from: nat, k: nat)
  {
    from <= k <= |url| && (k == from || url[k - 1] == '&')
  }

  /** The segment that starts at i has a candidate key and a non-empty value. */
  predicate SegmentQualifies(keys: set<string>, url: string, i: nat)
    requires i <= |url|
  {
    var e := Find(url, '&', i, |url|);
    var eq := Find(url, '=', i, e);
    eq < e && url[i..eq] in keys && eq + 1 < e
  }

  /** Scan the segments of url that start at i or later, left to right, for the first
      qualifying one. */
  function ScanSegments(keys: set<string>, url: string, i: nat): (r: Option<Span>)
    requires i <= |url|
    ensures r.Some? ==>
      IsValueSpan(keys, url, r.value) && StartsSegment(url, i, r.value.keyStart)
    decreases |url| - i
  {
    var e := Find(url, '&', i, |url|);
    if SegmentQualifies(keys, url, i) then Some(Span(i, Find(url, '=', i, e) + 1, e))
    else if e == |url| then None
    else ScanSegments(keys, url, e + 1)
  }

  /** The span of the value Extract returns, found by scanning the URL after its first '?'. */
  function ValueSpan(keys: set<string>, url: string): (r: Option<Span>)
    ensures r.Some? ==>
      IsValueSpan(keys, url, r.value) && StartsSegment(url, FirstMark(url) + 1, r.value.keyStart)
  {
    var m := FirstMark(url);
    if m == |url| then None else ScanSegments(keys, url, m + 1)
  }

  /** The first segment of url[i..] is url[i..e], e the next '&' or the end; the rest of the
      segments are those of url[e + 1..]. */
  lemma SegmentsFrom(url: string, i: nat)
    requires i <= |url|
    ensures var e := Find(url, '&', i, |url|);
      var segments := Split(url[i..], '&');
      segments[0] == url[i..e] &&
      (e == |url| ==> |segments| == 1) &&
      (e < |url| ==> segments[1..] == Split(url[e + 1..], '&'))
  {
    var e := Find(url, '&', i, |url|);
    var t := url[i..];
    FindIsFirst(t, '&', 0, |t|, e - i);
    if e < |url| {
      assert t[..e - i] == url[i..e];
      assert t[e - i + 1..] == url[e + 1..];
    } else {
      assert t == url[i..e];
    }
  }

  /** The segment url[i..e] that starts at i qualifies exactly when ScanSegments takes it,
      and then its value is url[eq + 1..e], eq the first '=' of the segment. */
  lemma ParamOfSegment(keys: set<string>, url: string, i: nat)
    requires i <= |url|
    ensures var e := Find(url, '&', i, |url|);
      var eq := Find(url, '=', i, e);
      var p := ParseParam(url[i..e]);
      (Qualifies(keys, p) <==> SegmentQualifies(keys, url, i)) &&
      (Qualifies(keys, p) ==> p.value == url[eq + 1..e])
  {
    var e := Find(url, '&', i, |url|);
    var eq := Find(url, '=', i, e);
    var seg := url[i..e];
    FindIsFirst(seg, '=', 0, |seg|, eq - i);
    if eq < e {
      assert seg[..eq - i] == url[i..eq];
      assert seg[eq - i + 1..] == url[eq + 1..e];
    }
  }

  /** The text a span stands for. */
  function SpanText(url: string, r: Option<Span>): string
  {
    match r
    case None => ""
    case Some(sp) => if sp.valueStart <= sp.valueEnd <= |url| then url[sp.valueStart..sp.valueEnd] else ""
  }

  /** One step of picking from url[i..]: the first segment url[i..e] decides when it
      qualifies, otherwise the pick continues after the '&' that ends it. */
  lemma PickStep(keys: set<string>, url: string, i: nat)
    requires i <= |url|
    ensures var e := Find(url, '&', i, |url|);
      var eq := Find(url, '=', i, e);
      PickValue(keys, Split(url[i..], '&')) ==
        if SegmentQualifies(keys, url, i) then url[eq + 1..e]
        else if e == |url| then ""
        else PickValue(keys, Split(url[e + 1..], '&'))
  {
    var e := Find(url, '&', i, |url|);
    var segments := Split(url[i..], '&');
    SegmentsFrom(url, i);
    ParamOfSegment(keys, url, i);
    assert segments == [segments[0]] + segments[1..];
    PickCons(keys, segments[0], segments[1..]);
    if e == |url| {
      assert segments[1..] == [];
    }
  }

  /** Picking from url[i..] when its first segment does not qualify and an '&' ends it. */
  lemma PickSkip(keys: set<string>, url: string, i: nat)
    requires i <= |url| && !SegmentQualifies(keys, url, i) && Find(url, '&', i, |url|) < |url|
    ensures var e := Find(url, '&', i, |url|);
      PickValue(keys, Split(url[i..], '&')) == PickValue(keys, Split(url[e + 1..], '&'))
  {
    PickStep(keys, url, i);
  }

  /** One step of the scan: the segment that starts at i is taken when it qualifies,
      otherwise the scan goes on after the '&' that ends it. */
  lemma ScanUnfold(keys: set<string>, url: string, i: nat)
    requires i <= |url|
    ensures var e := Find(url, '&', i, |url|);
      var eq := Find(url, '=', i, e);
      ScanSegments(keys, url, i) ==
        if SegmentQualifies(keys, url, i) then Some(Span(i, eq + 1, e))
        else if e == |url| then None
        else ScanSegments(keys, url, e + 1)
  {
  }

  /** When the segment that starts at i qualifies, scanning and picking agree on it. */
  lemma ScanTakes(keys: set<string>, url: string, i: nat)
    requires i <= |url| && SegmentQualifies(keys, url, i)
    ensures PickValue(keys, Split(url[i..], '&')) == SpanText(url, ScanSegments(keys, url, i))
  {
    ScanUnfold(keys, url, i);
    PickStep(keys, url, i);
  }

  /** When the last segment does not qualify, both scanning and picking come up empty. */
  lemma ScanStops(keys: set<string>, url: string, i: nat)
    requires i <= |url| && !SegmentQualifies(keys, url, i) && Find(url, '&', i, |url|) == |url|
    ensures PickValue(keys, Split(url[i..], '&')) == SpanText(url, ScanSegments(keys, url, i)) == ""
  {
    ScanUnfold(keys, url, i);
    PickStep(keys, url, i);
  }

  /** When the segment that starts at i does not qualify and an '&' ends it, scanning and
      picking both move on to the segment after that '&'. */
  lemma ScanSkips(keys: set<string>, url: string, i: nat)
    requires i <= |url| && !SegmentQualifies(keys, url, i) && Find(url, '&', i, |url|) < |url|
    ensures var e := Find(url, '&', i, |url|);
      PickValue(keys, Split(url[i..], '&')) == PickValue(keys, Split(url[e + 1..], '&')) &&
      ScanSegments(keys, url, i) == ScanSegments(keys, url, e + 1)
  {
    ScanUnfold(keys, url, i);
    PickSkip(keys, url, i);
  }

  /** The inductive step: agreement after the '&' that ends a non-qualifying segment gives
      agreement from i. */
  lemma ScanMatchesPickStep(keys: set<string>, url: string, i: nat)
    requires i <= |url| && !SegmentQualifies(keys, url, i) && Find(url, '&', i, |url|) < |url|
    requires var e := Find(url, '&', i, |url|);
      PickValue(keys, Split(url[e + 1..], '&')) == SpanText(url, ScanSegments(keys, url, e + 1))
    ensures PickValue(keys, Split(url[i..], '&')) == SpanText(url, ScanSegments(keys, url, i))
  {
    ScanSkips(keys, url, i);
  }

  /** Scanning from i finds exactly the value that picking from the split of url[i..] gives. */
  lemma {:induction false} ScanMatchesPick(keys: set<string>, url: string, i: nat)
    requires i <= |url|
    ensures PickValue(keys, Split(url[i..], '&')) == SpanText(url, ScanSegments(keys, url, i))
    decreases |url| - i
  {
    if SegmentQualifies(keys, url, i) {
      ScanTakes(keys, url, i);
    } else if Find(url, '&', i, |url|) == |url| {
      ScanStops(keys, url, i);
    } else {
      ScanMatchesPick(keys, url, Find(url, '&', i, |url|) + 1);
      ScanMatchesPickStep(keys, url, i);
    }
  }

  /** Extract's result is the text of ValueSpan: "" when no span is found, and otherwise
      the bytes url[valueStart..valueEnd], copied verbatim from just after `key=` up to the
      next '&' or the end of the URL. */
  lemma ExtractIsValueSpan(keys: set<string>, url: string)
    ensures match ValueSpan(keys, url)
      case None => Extract(keys, url) == ""
      case Some(sp) => Extract(keys, url) == url[sp.valueStart..sp.valueEnd]
  {
    var m := FirstMark(url);
    if m < |url| {
      assert Query(url) == Some(url[m + 1..]);
      assert Extract(keys, url) == PickValue(keys, Split(url[m + 1..], '&'));
      ScanMatchesPick(keys, url, m + 1);
      assert ValueSpan(keys, url) == ScanSegments(keys, url, m + 1);
    } else {
      assert Query(url) == None;
    }
  }

  /** A non-empty result is a contiguous piece of the URL: the whole value of a qualifying
      segment of the query, preceded by its candidate key and '='. */
  lemma ExtractIsSubstring(keys: set<string>, url: string)
    requires Extract(keys, url) != ""
    ensures exists sp :: (IsValueSpan(keys, url, sp) && StartsSegment(url, FirstMark(url) + 1, sp.keyStart) &&
      Extract(keys, url) == url[sp.valueStart..sp.valueEnd])
  {
    ExtractIsValueSpan(keys, url);
    var sp := ValueSpan(keys, url).value;
    assert IsValueSpan(keys, url, sp) && StartsSegment(url, FirstMark(url) + 1, sp.keyStart);
  }
}
