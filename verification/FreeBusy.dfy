/**
 Free/busy strings: one digit for each half hour, decoded into periods.  Decoding into
 spans and expanding spans are inverse to each other, and each half hour is covered by
 exactly the period its digit calls for.
 */
module FreeBusy {
  import opened Basics

  const THIRTY_MINUTES := 1800

  datatype Span = Span(digit: char, start: int, end: int)

  datatype Status = Free | Tentative | Busy | OutOfOffice

  datatype Period = Period(status: Status, start: int, end: int)

  /** What a digit stands for; others than 0 to 3 stand for nothing. */
  function StatusOf(digit: char): Option<Status> {
    match digit
    case '0' => Some(Free)
    case '1' => Some(Tentative)
    case '2' => Some(Busy)
    case '3' => Some(OutOfOffice)
    case _ => None
  }

  /** The length of the run the text starts with. */
  function RunLength(s: string): (n: nat)
    requires s != []
    ensures 1 <= n <= |s|
    ensures forall i :: 0 <= i < n ==> s[i] == s[0]
    ensures n < |s| ==> s[n] != s[0]
  {
    if |s| == 1 || s[1] != s[0] then 1 else 1 + RunLength(s[1..])
  }

  function Spans(data: string, start: int): seq<Span>
    decreases |data|
  {
    if data == [] then []
    else
      var n := RunLength(data);
      [Span(data[0], start, start + n * THIRTY_MINUTES)] + Spans(data[n..], start + n * THIRTY_MINUTES)
  }

  /** The periods of the spans that stand for something. */
  function Periods(spans: seq<Span>): seq<Period> {
    if spans == [] then []
    else
      var status := StatusOf(spans[0].digit);
      (if status.Some? then [Period(status.value, spans[0].start, spans[0].end)] else []) + Periods(spans[1..])
  }

  // ---- the program ---------------------------------------------------------

  method CreateFreebusyProp(digit: char, start: int, end: int) returns (prop: Option<Period>)
    ensures (if prop.Some? then [prop.value] else []) == Periods([Span(digit, start, end)])
  {
    assert [Span(digit, start, end)][1..] == [];
    match digit
    case '0' => prop := Some(Period(Free, start, end));
    case '1' => prop := Some(Period(Tentative, start, end));
    case '2' => prop := Some(Period(Busy, start, end));
    case '3' => prop := Some(Period(OutOfOffice, start, end));
    case _ => prop := None;
  }

  /** Moves to the end of the run that starts at `spanStart`, half hour by half hour. */
  method RunEnd(data: string, spanStart: nat, start: int) returns (spanEnd: nat, end: int)
    requires spanStart < |data|
    ensures spanEnd == spanStart + RunLength(data[spanStart..]) && spanEnd <= |data|
    ensures end == start + (spanEnd - spanStart) * THIRTY_MINUTES
  {
    hide RunLength;
    spanEnd, end := spanStart, start;
    while spanEnd < |data| && data[spanEnd] == data[spanStart]
      invariant spanStart <= spanEnd <= |data|
      invariant end == start + (spanEnd - spanStart) * THIRTY_MINUTES
      invariant forall i :: spanStart <= i < spanEnd ==> data[i] == data[spanStart]
    {
      spanEnd := spanEnd + 1;
      end := end + THIRTY_MINUTES;
    }
    RunEnds(data[spanStart..], spanEnd - spanStart);
  }

  method SetFreebusyInfo(data: string, begin: int) returns (vfb: seq<Period>, end: int)
    ensures vfb == Periods(Spans(data, begin))
    ensures end == begin + |data| * THIRTY_MINUTES
  {
    hide RunLength, Spans, Periods;
    vfb := [];
    end := begin;
    var spanStart := 0;
    ghost var whole := Periods(Spans(data, begin));
    assert data[0..] == data && [] + whole == whole;
    while spanStart < |data|
      invariant 0 <= spanStart <= |data|
      invariant end == begin + spanStart * THIRTY_MINUTES
      invariant vfb + Periods(Spans(data[spanStart..], end)) == whole
    {
      var start := end;
      var spanEnd;
      spanEnd, end := RunEnd(data, spanStart, start);
      var prop := CreateFreebusyProp(data[spanStart], start, end);
      NextSpan(data[spanStart..], start);
      assert data[spanStart..][spanEnd - spanStart..] == data[spanEnd..];
      ghost var later := Periods(Spans(data[spanEnd..], end));
      if prop.Some? {
        assert vfb + ([prop.value] + later) == (vfb + [prop.value]) + later;
        vfb := vfb + [prop.value];
      } else {
        assert [] + later == later;
      }
      spanStart := spanEnd;
    }
    NoSpans(end);
    assert data[|data|..] == [] && vfb + [] == vfb;
  }

  lemma NoSpans(start: int)
    ensures Periods(Spans("", start)) == []
  {
  }

  lemma {:induction false} RunEnds(s: string, n: nat)
    requires 1 <= n <= |s| && (forall i :: 0 <= i < n ==> s[i] == s[0]) && (n < |s| ==> s[n] != s[0])
    ensures RunLength(s) == n
  {
    if n > 1 {
      assert s[1..][0] == s[1] == s[0];
      RunEnds(s[1..], n - 1);
    }
  }

  lemma NextSpan(s: string, start: int)
    requires s != []
    ensures var n := RunLength(s);
            var end := start + n * THIRTY_MINUTES;
            Periods(Spans(s, start)) == Periods([Span(s[0], start, end)]) + Periods(Spans(s[n..], end))
  {
    hide RunLength;
    var end := start + RunLength(s) * THIRTY_MINUTES;
    var first, rest := Span(s[0], start, end), Spans(s[RunLength(s)..], end);
    assert ([first] + rest)[1..] == rest && [first][1..] == [];
  }

  // ---- what it achieves ----------------------------------------------------

  function Repeat(n: nat, c: char): (r: string)
    ensures |r| == n && forall i :: 0 <= i < n ==> r[i] == c
  {
    if n == 0 then "" else [c] + Repeat(n - 1, c)
  }

  /** The half hours of a span. */
  function Slots(span: Span): nat {
    if span.start < span.end then (span.end - span.start) / THIRTY_MINUTES else 0
  }

  /** One character for each half hour of the spans. */
  function Expand(spans: seq<Span>): string {
    if spans == [] then "" else Repeat(Slots(spans[0]), spans[0].digit) + Expand(spans[1..])
  }

  lemma ExpandHead(span: Span, rest: seq<Span>)
    ensures Expand([span] + rest) == Repeat(Slots(span), span.digit) + Expand(rest)
  {
    hide Slots, Repeat;
    assert ([span] + rest)[1..] == rest;
  }

  lemma RunFirst(data: string)
    requires data != []
    ensures data == Repeat(RunLength(data), data[0]) + data[RunLength(data)..]
  {
    hide RunLength;
  }

  /** A run before text that starts with another character. */
  lemma RunBefore(n: nat, c: char, tail: string)
    requires n > 0 && (tail != [] ==> tail[0] != c)
    ensures var data := Repeat(n, c) + tail;
            data[0] == c && RunLength(data) == n && data[n..] == tail
  {
    hide RunLength;
    var data := Repeat(n, c) + tail;
    assert n < |data| ==> data[n] == tail[0];
    RunEnds(data, n);
  }

  /** Spans of whole half hours from `start` to `end` that follow one another, each run as long as it can be. */
  predicate Runs(spans: seq<Span>, start: int, end: int)
    decreases spans
  {
    if spans == [] then start == end
    else
      && spans[0].start == start < spans[0].end && (spans[0].end - start) % THIRTY_MINUTES == 0
      && (|spans| > 1 ==> spans[1].digit != spans[0].digit)
      && Runs(spans[1..], spans[0].end, end)
  }

  lemma {:induction false} RunsOrdered(spans: seq<Span>, start: int, end: int)
    requires Runs(spans, start, end)
    ensures start <= end && forall s <- spans :: s.start < s.end
    decreases spans
  {
    if spans != [] {
      RunsOrdered(spans[1..], spans[0].end, end);
      assert spans == [spans[0]] + spans[1..];
    }
  }

  lemma FirstDigit(data: string, start: int)
    ensures (data == []) == (Spans(data, start) == [])
    ensures data != [] ==> Spans(data, start)[0].digit == data[0]
  {
  }

  lemma SpansHead(data: string, start: int)
    requires data != []
    ensures var n := RunLength(data);
            Spans(data, start) == [Span(data[0], start, start + n * THIRTY_MINUTES)]
                + Spans(data[n..], start + n * THIRTY_MINUTES)
  {
    hide RunLength;
  }

  /** One run in front of the runs of what follows it. */
  lemma RunsPrepended(first: Span, rest: seq<Span>, end: int)
    requires first.start < first.end && (first.end - first.start) % THIRTY_MINUTES == 0
    requires Runs(rest, first.end, end) && (rest != [] ==> rest[0].digit != first.digit)
    ensures Runs([first] + rest, first.start, end)
  {
    assert ([first] + rest)[1..] == rest;
  }

  lemma WholeHalfHours(start: int, n: nat, m: nat)
    ensures After(start, n) >= start && (After(start, n) - start) % THIRTY_MINUTES == 0
    ensures After(After(start, n), m) == After(start, n + m)
    ensures n > 0 ==> start < After(start, n)
  {
  }

  /** The time so many half hours later. */
  function After(start: int, n: nat): int {
    start + n * THIRTY_MINUTES
  }

  /** The first run, and the runs that are known to follow it. */
  lemma SpansRunStep(data: string, start: int, n: nat, end: int)
    requires data != [] && n == RunLength(data)
    requires Runs(Spans(data[n..], After(start, n)), After(start, n), end)
    ensures Runs(Spans(data, start), start, end)
  {
    hide RunLength, Spans, Runs;
    var first := Span(data[0], start, After(start, n));
    SpansHead(data, start);
    FirstDigit(data[n..], After(start, n));
    WholeHalfHours(start, n, 0);
    RunsPrepended(first, Spans(data[n..], After(start, n)), end);
  }

  /** Decoding covers the whole time, contiguously, in runs that are as long as can be. */
  lemma {:induction false} SpansRun(data: string, start: int)
    ensures Runs(Spans(data, start), start, start + |data| * THIRTY_MINUTES)
    decreases |data|
  {
    if data != [] {
      hide RunLength, Spans, Runs, After;
      var n := RunLength(data);
      assert |data[n..]| == |data| - n;
      Later(After(start, n), data[n..]);
      SpansRun(data[n..], After(start, n));
      WholeHalfHours(start, n, |data[n..]|);
      SpansRunStep(data, start, n, After(start, |data|));
      Later(start, data);
    } else {
      FirstDigit(data, start);
    }
  }

  lemma Later(start: int, data: string)
    ensures After(start, |data|) == start + |data| * THIRTY_MINUTES
  {
  }

  /** Expanding what was decoded gives the string back. */
  lemma {:induction false} ExpandSpans(data: string, start: int)
    ensures Expand(Spans(data, start)) == data
    decreases |data|
  {
    hide RunLength, Expand, Repeat;
    NothingExpanded();
    if data != [] {
      var n := RunLength(data);
      var end := start + n * THIRTY_MINUTES;
      ExpandSpans(data[n..], end);
      ExpandHead(Span(data[0], start, end), Spans(data[n..], end));
      RunFirst(data);
    }
  }

  lemma NothingExpanded()
    ensures Expand([]) == ""
  {
  }

  /** Decoding what was expanded gives the runs back. */
  lemma {:induction false} SpansExpand(spans: seq<Span>, start: int, end: int)
    requires Runs(spans, start, end)
    ensures Spans(Expand(spans), start) == spans
    decreases spans
  {
    hide RunLength, Spans, Expand, Repeat;
    NothingExpanded();
    if spans != [] {
      var first, rest := spans[0], spans[1..];
      assert spans == [first] + rest;
      SpansExpand(rest, first.end, end);
      ExpandHead(first, rest);
      FirstDigit(Expand(rest), first.end);
      RunBefore(Slots(first), first.digit, Expand(rest));
      SpansHead(Expand(spans), start);
    } else {
      FirstDigit("", start);
    }
  }

  // ---- half hours ----------------------------------------------------------

  predicate Covers(p: Period, t: int) {
    p.start <= t < p.end
  }

  /** Periods lie within the time, one after the other. */
  lemma {:induction false} PeriodsApart(spans: seq<Span>, start: int, end: int)
    requires Runs(spans, start, end)
    ensures forall p <- Periods(spans) :: start <= p.start < p.end <= end
    ensures forall j, k :: 0 <= j < k < |Periods(spans)| ==> Periods(spans)[j].end <= Periods(spans)[k].start
    decreases spans
  {
    if spans != [] {
      hide StatusOf;
      PeriodsApart(spans[1..], spans[0].end, end);
      RunsOrdered(spans[1..], spans[0].end, end);
      var rest := Periods(spans[1..]);
      assert forall k :: 0 <= k < |rest| ==> rest[k] in rest;
    }
  }

  lemma FirstPeriods(span: Span, rest: seq<Span>)
    ensures forall p :: p in Periods([span] + rest) <==>
              || p in Periods(rest)
              || (Some(p.status) == StatusOf(span.digit) && p.start == span.start && p.end == span.end)
  {
    hide StatusOf;
    assert ([span] + rest)[1..] == rest;
  }

  /**
   Each moment of the `i`-th half hour is covered by a period exactly when its digit stands
   for something, and then the status is what the digit stands for.
   */
  lemma {:induction false} SlotCovered(data: string, start: int, i: nat, t: int)
    requires i < |data| && start + i * THIRTY_MINUTES <= t < start + (i + 1) * THIRTY_MINUTES
    ensures var periods := Periods(Spans(data, start));
            && ((exists p <- periods :: Covers(p, t)) <==> StatusOf(data[i]).Some?)
            && (forall p <- periods :: Covers(p, t) ==> Some(p.status) == StatusOf(data[i]))
    decreases |data|
  {
    hide RunLength, StatusOf, Spans, Periods, Runs;
    var n := RunLength(data);
    var end := start + n * THIRTY_MINUTES;
    var rest := Spans(data[n..], end);
    SpansHead(data, start);
    FirstPeriods(Span(data[0], start, end), rest);
    if i < n {
      SpansRun(data[n..], end);
      PeriodsApart(rest, end, end + |data[n..]| * THIRTY_MINUTES);
      if StatusOf(data[0]).Some? {
        var p := Period(StatusOf(data[0]).value, start, end);
        assert p in Periods(Spans(data, start)) && Covers(p, t);
      }
    } else {
      assert data[n..][i - n] == data[i];
      SlotCovered(data[n..], end, i - n, t);
    }
  }

  /** A period of that status covers the moment. */
  ghost predicate CoveredAs(periods: seq<Period>, t: int, status: Status) {
    exists p <- periods :: Covers(p, t) && p.status == status
  }

  /**
   Half hour by half hour, in seconds from the start: 0 stands for free, 1 for tentative, 2 for
   busy, 3 for out of office, and nothing else for any of them.
   */
  lemma SlotStatuses(data: string, start: int, i: nat, t: int)
    requires i < |data| && start + i * 1800 <= t < start + (i + 1) * 1800
    ensures var periods := Periods(Spans(data, start));
            && (CoveredAs(periods, t, Free) <==> data[i] == '0')
            && (CoveredAs(periods, t, Tentative) <==> data[i] == '1')
            && (CoveredAs(periods, t, Busy) <==> data[i] == '2')
            && (CoveredAs(periods, t, OutOfOffice) <==> data[i] == '3')
  {
    hide Periods, Spans, Covers;
    SlotCovered(data, start, i, t);
    var periods := Periods(Spans(data, start));
    if StatusOf(data[i]).Some? {
      var p :| p in periods && Covers(p, t);
      assert CoveredAs(periods, t, p.status);
    }
  }
}
