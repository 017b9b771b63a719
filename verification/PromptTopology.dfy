/** The zones of a turn prompt and the prefix that two turns share (scripts/prompt_topology.py). */
module PromptTopology {

  const ZONE_SEP := "\n\n"

  datatype TurnPrompt = TurnPrompt(protocol: string, project: string, node: string, attempt: string) {
    /** The zone bodies, from the least to the most volatile. */
    function Zones(): seq<string> {
      [protocol, project, node, attempt]
    }

    function Assemble(): string {
      Join(Bodies(Zones()))
    }
  }

  const ZONE_ORDER := ["protocol", "project", "node", "attempt"]
  const NODE := 2

  function Bodies(zones: seq<string>): seq<string> {
    if zones == [] then []
    else Bodies(zones[..|zones| - 1]) + (if zones[|zones| - 1] == "" then [] else [zones[|zones| - 1]])
  }

  /** ZONE_SEP.join */
  function Join(bodies: seq<string>): string {
    if bodies == [] then ""
    else if |bodies| == 1 then bodies[0]
    else Join(bodies[..|bodies| - 1]) + ZONE_SEP + bodies[|bodies| - 1]
  }

  /** Where a zone after these starts. */
  function Cursor(zones: seq<string>): nat {
    if zones == [] then 0
    else Cursor(zones[..|zones| - 1]) + (if zones[|zones| - 1] == "" then 0 else |zones[|zones| - 1]| + |ZONE_SEP|)
  }

  datatype Span = Span(start: nat, end: nat)

  function SpanOf(zones: seq<string>, i: nat): Span
    requires i < |zones|
  {
    Span(Cursor(zones[..i]), Cursor(zones[..i]) + |zones[i]|)
  }

  lemma CursorStep(zones: seq<string>, i: nat)
    requires i < |zones|
    ensures SpanOf(zones, i) == Span(Cursor(zones[..i]), Cursor(zones[..i]) + |zones[i]|)
    ensures Cursor(zones[..i + 1]) == Cursor(zones[..i]) + (if zones[i] == "" then 0 else |zones[i]| + |ZONE_SEP|)
  {
    assert zones[..i + 1][..i] == zones[..i];
  }

  lemma SpansAreOrdered(zones: seq<string>, i: nat)
    requires i + 1 < |zones|
    ensures SpanOf(zones, i).end <= SpanOf(zones, i + 1).start
  {
    CursorStep(zones, i);
    hide Cursor;
  }

  method Offsets(zones: seq<string>) returns (spans: seq<Span>)
    ensures |spans| == |zones| && forall i :: 0 <= i < |zones| ==> spans[i] == SpanOf(zones, i)
  {
    spans := [];
    var cursor := 0;
    assert Cursor(zones[..0]) == 0;
    hide Cursor;
    for i := 0 to |zones|
      invariant |spans| == i && cursor == Cursor(zones[..i])
      invariant forall k :: 0 <= k < i ==> spans[k] == SpanOf(zones, k)
    {
      CursorStep(zones, i);
      var body := zones[i];
      if body == "" {
        spans := spans + [Span(cursor, cursor)];
        continue;
      }
      spans := spans + [Span(cursor, cursor + |body|)];
      cursor := cursor + |body| + |ZONE_SEP|;
    }
  }

  /** The spans of protocol, project, node and attempt, in this order. */
  method ZoneOffsets(tp: TurnPrompt) returns (spans: seq<Span>)
    ensures |spans| == |ZONE_ORDER| && forall i :: 0 <= i < |spans| ==> spans[i] == SpanOf(tp.Zones(), i)
    ensures |spans| == 4 && ZONE_ORDER == ["protocol", "project", "node", "attempt"]
    ensures forall i :: 0 <= i < 4 ==>
      spans[i].end == spans[i].start + |[tp.protocol, tp.project, tp.node, tp.attempt][i]|
    ensures forall i :: 0 <= i < 4 && spans[i].start < spans[i].end ==>
      && spans[i].end <= |tp.Assemble()|
      && tp.Assemble()[spans[i].start..spans[i].end] == [tp.protocol, tp.project, tp.node, tp.attempt][i]
    ensures spans[0].start == 0 && spans[1].start == Past(tp.protocol)
    ensures spans[2].start == Past(Glue(tp.protocol, tp.project))
    ensures spans[3].start == Past(Glue(Glue(tp.protocol, tp.project), tp.node))
    ensures forall i :: 0 <= i < |spans| && tp.Zones()[i] != "" ==>
      spans[i].start <= spans[i].end <= |tp.Assemble()| && tp.Assemble()[spans[i].start..spans[i].end] == tp.Zones()[i]
    ensures forall i :: 0 <= i < |spans| && tp.Zones()[i] == "" ==> spans[i].start == spans[i].end
    ensures forall i :: 0 <= i < |spans| - 1 ==> spans[i].end <= spans[i + 1].start
  {
    hide Join, Bodies, Cursor;
    spans := Offsets(tp.Zones());
    SpansSlice(tp);
    StartsTell(tp);
    forall i | 0 <= i < |spans| - 1
      ensures spans[i].end <= spans[i + 1].start
    {
      SpansAreOrdered(tp.Zones(), i);
    }
  }

  /** The offsets of every zone with a body cut exactly that body out of the assembled text. */
  lemma SpansSlice(tp: TurnPrompt)
    ensures forall i :: 0 <= i < |tp.Zones()| && tp.Zones()[i] != "" ==>
      var span := SpanOf(tp.Zones(), i);
      span.start <= span.end <= |tp.Assemble()| && tp.Assemble()[span.start..span.end] == tp.Zones()[i]
  {
    hide Join, Bodies, Cursor;
    forall i | 0 <= i < |tp.Zones()| && tp.Zones()[i] != ""
      ensures var span := SpanOf(tp.Zones(), i);
        span.start <= span.end <= |tp.Assemble()| && tp.Assemble()[span.start..span.end] == tp.Zones()[i]
    {
      ZoneSlicesBack(tp.Zones(), i);
    }
  }

  // ---------------------------------------------------------------- joining and offsets agree

  function Text(zones: seq<string>): string {
    Join(Bodies(zones))
  }

  lemma {:induction false} BodiesAreFull(zones: seq<string>)
    ensures forall i :: 0 <= i < |Bodies(zones)| ==> Bodies(zones)[i] != ""
  {
    if zones != [] {
      BodiesAreFull(zones[..|zones| - 1]);
    }
  }

  /** A zone more adds its body, after a separator when there is text before it. */
  lemma TextGrows(zones: seq<string>, zone: string)
    ensures Text(zones + [zone])
         == if zone == "" then Text(zones) else if Text(zones) == "" then zone else Text(zones) + ZONE_SEP + zone
  {
    assert (zones + [zone])[..|zones|] == zones;
    var bodies := Bodies(zones);
    BodiesAreFull(zones);
    assert Bodies(zones + [zone]) == bodies + (if zone == "" then [] else [zone]);
    if zone != "" {
      assert (bodies + [zone])[..|bodies|] == bodies;
      assert bodies != [] ==> Join(bodies) != "";
    } else {
      assert bodies + [] == bodies;
    }
  }

  /** A zone put behind text: a blank line separates the two if neither is empty. */
  ghost function Glue(text: string, zone: string): string {
    if zone == "" then text else if text == "" then zone else text + "\n\n" + zone
  }

  /** Where a zone behind this text starts. */
  ghost function Past(text: string): nat {
    if text == "" then 0 else |text| + 2
  }

  /** Every zone, also an empty one, starts past the text of the zones before it. */
  lemma StartsTell(tp: TurnPrompt)
    ensures SpanOf(tp.Zones(), 0).start == 0 && SpanOf(tp.Zones(), 1).start == Past(tp.protocol)
    ensures SpanOf(tp.Zones(), 2).start == Past(Glue(tp.protocol, tp.project))
    ensures SpanOf(tp.Zones(), 3).start == Past(Glue(Glue(tp.protocol, tp.project), tp.node))
  {
    var none: seq<string>, one, two := [], [tp.protocol], [tp.protocol, tp.project];
    var three, zones := [tp.protocol, tp.project, tp.node], tp.Zones();
    assert one == none + [tp.protocol] && two == one + [tp.project];
    assert zones[..0] == none && zones[..1] == one && zones[..2] == two && zones[..3] == three;
    assert Text(none) == "";
    AssembleTells(tp);
    hide Bodies, Join, Text;
    TextGrows(none, tp.protocol);
    TextGrows(one, tp.project);
    CursorIsPastText(none);
    CursorIsPastText(one);
    CursorIsPastText(two);
    CursorIsPastText(three);
  }

  /** The prompt puts protocol, project, node and attempt one behind the other, separated by blank lines. */
  lemma AssembleTells(tp: TurnPrompt)
    ensures tp.Assemble() == Glue(Glue(Glue(tp.protocol, tp.project), tp.node), tp.attempt)
    ensures Text([tp.protocol, tp.project, tp.node]) == Glue(Glue(tp.protocol, tp.project), tp.node)
  {
    var none: seq<string>, one, two := [], [tp.protocol], [tp.protocol, tp.project];
    var three := [tp.protocol, tp.project, tp.node];
    assert one == none + [tp.protocol] && two == one + [tp.project] && three == two + [tp.node];
    assert tp.Zones() == three + [tp.attempt];
    assert Text(none) == "";
    hide Bodies, Join;
    TextGrows(none, tp.protocol);
    TextGrows(one, tp.project);
    TextGrows(two, tp.node);
    TextGrows(three, tp.attempt);
    hide Text;
  }

  lemma {:induction false} CursorIsPastText(zones: seq<string>)
    ensures Cursor(zones) == if Text(zones) == "" then 0 else |Text(zones)| + |ZONE_SEP|
  {
    if zones != [] {
      var front, last := zones[..|zones| - 1], zones[|zones| - 1];
      CursorIsPastText(front);
      TextGrows(front, last);
      assert zones == front + [last];
      hide Text;
    }
  }

  lemma {:induction false} TextOfPrefix(zones: seq<string>, k: nat)
    requires k <= |zones|
    ensures Text(zones[..k]) <= Text(zones)
  {
    if k == |zones| {
      assert zones[..k] == zones;
    } else {
      hide Text;
      var front, last := zones[..|zones| - 1], zones[|zones| - 1];
      TextOfPrefix(front, k);
      TextGrows(front, last);
      assert zones == front + [last] && front[..k] == zones[..k];
      assert Text(front) <= Text(zones);
    }
  }

  /** The end of a zone with a body is the length of the text through that zone. */
  lemma SpanEndsText(zones: seq<string>, i: nat)
    requires i < |zones| && zones[i] != ""
    ensures var through, span := Text(zones[..i + 1]), SpanOf(zones, i);
      span.end == |through| && through[span.start..] == zones[i]
  {
    assert zones[..i + 1] == zones[..i] + [zones[i]];
    TextGrows(zones[..i], zones[i]);
    CursorIsPastText(zones[..i]);
    hide Text, Cursor;
  }

  /** The offsets of a zone with a body cut exactly that body out of the assembled text. */
  lemma ZoneSlicesBack(zones: seq<string>, i: nat)
    requires i < |zones| && zones[i] != ""
    ensures var span := SpanOf(zones, i);
      span.end <= |Text(zones)| && Text(zones)[span.start..span.end] == zones[i]
  {
    SpanEndsText(zones, i);
    TextOfPrefix(zones, i + 1);
    hide Text, Cursor;
    var span := SpanOf(zones, i);
    assert Text(zones)[..span.end] == Text(zones[..i + 1]);
    assert Text(zones)[span.start..span.end] == Text(zones)[..span.end][span.start..];
  }

  // ---------------------------------------------------------------- the shared prefix

  function TokenEstimate(length: nat): nat {
    (length + 3) / 4
  }

  /** One token for every four characters, the last one possibly begun. */
  lemma EstimateTells(length: nat)
    ensures 4 * TokenEstimate(length) - 3 <= length <= 4 * TokenEstimate(length)
  {
  }

  /** n is the length of the longest common prefix. */
  predicate IsCommonLength(a: string, b: string, n: nat) {
    && n <= |a| && n <= |b| && a[..n] == b[..n]
    && (n < |a| && n < |b| ==> a[n] != b[n])
  }

  lemma CommonIsLongest(a: string, b: string, n: nat, m: nat)
    requires IsCommonLength(a, b, n) && m <= |a| && m <= |b| && a[..m] == b[..m]
    ensures m <= n
  {
    forall k | 0 <= k < m
      ensures a[k] == b[k]
    {
      assert a[k] == a[..m][k] && b[k] == b[..m][k];
    }
  }

  method CommonPrefixTokens(a: string, b: string) returns (tokens: nat)
    ensures exists n: nat :: IsCommonLength(a, b, n) && 4 * tokens - 3 <= n <= 4 * tokens
    ensures forall m :: 0 <= m <= |a| && m <= |b| && a[..m] == b[..m] ==> TokenEstimate(m) <= tokens
  {
    var limit := if |a| <= |b| then |a| else |b|;
    var i := 0;
    while i < limit && a[i] == b[i]
      invariant 0 <= i <= limit && a[..i] == b[..i]
    {
      assert a[..i + 1] == a[..i] + [a[i]] && b[..i + 1] == b[..i] + [b[i]];
      i := i + 1;
    }
    tokens := TokenEstimate(i);
    assert IsCommonLength(a, b, i);
    forall m | 0 <= m <= |a| && m <= |b| && a[..m] == b[..m]
      ensures TokenEstimate(m) <= tokens
    {
      CommonIsLongest(a, b, i, m);
    }
  }

  /** Two turns that agree on protocol, project and a node zone with a body have the same text through the end
      of the node zone, whatever their attempt zones hold. */
  lemma StablePrefixShared(a: TurnPrompt, b: TurnPrompt)
    requires a.protocol == b.protocol && a.project == b.project && a.node == b.node && a.node != ""
    ensures var end := SpanOf(a.Zones(), NODE).end;
      && SpanOf(b.Zones(), NODE).end == end <= |a.Assemble()| && end <= |b.Assemble()|
      && a.Assemble()[..end] == b.Assemble()[..end]
      && end == |Text([a.protocol, a.project, a.node])|
  {
    var x, y := a.Zones(), b.Zones();
    assert x[..NODE + 1] == [a.protocol, a.project, a.node];
    assert x[..NODE + 1] == y[..NODE + 1] && x[..NODE] == y[..NODE];
    SpanEndsText(x, NODE);
    TextOfPrefix(x, NODE + 1);
    TextOfPrefix(y, NODE + 1);
  }

  /** The cache invariant: such turns share at least the tokens of everything up to the end of the node zone. */
  method SharedPrefixTokens(a: TurnPrompt, b: TurnPrompt) returns (tokens: nat)
    requires a.protocol == b.protocol && a.project == b.project && a.node == b.node && a.node != ""
    ensures tokens >= TokenEstimate(SpanOf(a.Zones(), NODE).end)
    ensures 4 * tokens >= |Text([a.protocol, a.project, a.node])|
  {
    StablePrefixShared(a, b);
    tokens := CommonPrefixTokens(a.Assemble(), b.Assemble());
  }

  datatype Report = Report(totalInput: nat, protocol: nat, project: nat, node: nat, attempt: nat, potentialReuse: nat)

  function PromptCacheReport(tp: TurnPrompt): Report {
    var protocol, project := TokenEstimate(|tp.protocol|), TokenEstimate(|tp.project|);
    var node, attempt := TokenEstimate(|tp.node|), TokenEstimate(|tp.attempt|);
    Report(protocol + project + node + attempt, protocol, project, node, attempt, protocol + project + node)
  }

  /** The report estimates every zone by itself; the input is all four, and what can be reused all but the attempt. */
  lemma ReportTells(tp: TurnPrompt)
    ensures var report := PromptCacheReport(tp);
      && 4 * report.protocol - 3 <= |tp.protocol| <= 4 * report.protocol
      && 4 * report.project - 3 <= |tp.project| <= 4 * report.project
      && 4 * report.node - 3 <= |tp.node| <= 4 * report.node
      && 4 * report.attempt - 3 <= |tp.attempt| <= 4 * report.attempt
      && report.totalInput == report.protocol + report.project + report.node + report.attempt
      && report.potentialReuse == report.totalInput - report.attempt
  {
  }

  lemma LengthGrows(zones: seq<string>, zone: string)
    ensures |Text(zones + [zone])|
         == |Text(zones)| + |zone| + (if |zone| == 0 || |Text(zones)| == 0 then 0 else |ZONE_SEP|)
  {
    TextGrows(zones, zone);
    hide Text;
  }

  lemma StableLength(tp: TurnPrompt)
    ensures var p, j, n := |tp.protocol|, |tp.project|, |tp.node|;
      |Text([tp.protocol, tp.project, tp.node])|
      == p + j + n + (if j == 0 || p == 0 then 0 else 2) + (if n == 0 || p + j == 0 then 0 else 2)
  {
    var none: seq<string>, one, two := [], [tp.protocol], [tp.protocol, tp.project];
    assert one == none + [tp.protocol] && two == one + [tp.project];
    assert [tp.protocol, tp.project, tp.node] == two + [tp.node];
    assert |Text(none)| == 0;
    hide Text;
    LengthGrows(none, tp.protocol);
    LengthGrows(one, tp.project);
    LengthGrows(two, tp.node);
  }

  /** For every prompt, the reuse summed zone by zone is within one token of the estimate of the stable prefix
      as a whole; with a node body, that prefix is the text through the end of the node zone. */
  lemma ReuseWithinOne(tp: TurnPrompt)
    ensures var prefix := Text([tp.protocol, tp.project, tp.node]);
      && -1 <= PromptCacheReport(tp).potentialReuse - TokenEstimate(|prefix|) <= 1
      && (tp.node != "" ==> |prefix| == SpanOf(tp.Zones(), NODE).end && prefix <= tp.Assemble())
  {
    StableLength(tp);
    var zones := tp.Zones();
    assert zones[..NODE + 1] == [tp.protocol, tp.project, tp.node];
    if tp.node != "" {
      SpanEndsText(zones, NODE);
      TextOfPrefix(zones, NODE + 1);
    }
  }
}
