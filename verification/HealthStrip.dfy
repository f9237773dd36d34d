/** The 24-hour health strip: hour-wide cells, an incremental prune of the recorded probes, and the
    text the strip is stored as.  Times are milliseconds and may be any integer; division truncates
    toward zero. */
module HealthStrip {
  import opened Basics

  const HOUR_MS := 60 * 60 * 1000
  const CELL_COUNT := 24

  datatype Cell = Unknown | Passed | Failed

  datatype ProbeRecord = ProbeRecord(timestampMs: int, passed: bool)

  /** Hours since the epoch as integer division that truncates toward zero counts them. */
  function Hours(ms: int): int {
    TruncatedDiv(ms, HOUR_MS)
  }

  /** The end of the hour that contains `now`. */
  function WindowEnd(now: int): int {
    (Hours(now) + 1) * HOUR_MS
  }

  function WindowStart(now: int): int {
    WindowEnd(now) - CELL_COUNT * HOUR_MS
  }

  predicate InWindow(record: ProbeRecord, now: int) {
    WindowStart(now) <= record.timestampMs < WindowEnd(now)
  }

  predicate InHour(record: ProbeRecord, start: int) {
    start <= record.timestampMs < start + HOUR_MS
  }

  /** What an hour's records say, whatever their order: failed if any failed, else passed if any
      passed, else nothing. */
  function Verdict(records: seq<ProbeRecord>, start: int): Cell {
    if exists r :: r in records && InHour(r, start) && !r.passed then Failed
    else if exists r :: r in records && InHour(r, start) then Passed
    else Unknown
  }

  /** The strip by definition: cell `i` is the verdict of the i-th hour of the window. */
  function Strip(records: seq<ProbeRecord>, now: int): (cells: seq<Cell>)
    ensures |cells| == CELL_COUNT
    ensures forall i :: 0 <= i < CELL_COUNT ==> cells[i] == Verdict(records, WindowStart(now) + i * HOUR_MS)
  {
    seq(CELL_COUNT, i requires 0 <= i < CELL_COUNT => Verdict(records, WindowStart(now) + i * HOUR_MS))
  }

  /** The window in milliseconds: a whole number of hours, a day long, that ends with the hour of `now`.
      Before the epoch truncation puts the end up to an hour further on. */
  lemma WindowIs(now: int)
    ensures WindowEnd(now) % 3600000 == 0 && WindowEnd(now) - WindowStart(now) == 86400000
    ensures now >= 0 ==> WindowEnd(now) - 3600000 <= now < WindowEnd(now)
    ensures now < 0 ==> WindowEnd(now) - 7200000 < now <= WindowEnd(now) - 3600000
  {
  }

  /** The cells, record by record: an hour has failed if a failed probe is dated in it, passed if only
      passed ones are, and is unknown if none is. */
  lemma StripShows(records: seq<ProbeRecord>, now: int, i: nat)
    requires i < 24
    ensures var cells, from := Strip(records, now), WindowEnd(now) - (24 - i) * 3600000;
      && |cells| == 24
      && (cells[i] == Failed <==>
            exists r :: r in records && from <= r.timestampMs < from + 3600000 && !r.passed)
      && (cells[i] == Unknown <==> forall r :: r in records ==> !(from <= r.timestampMs < from + 3600000))
  {
    var from := WindowEnd(now) - (24 - i) * 3600000;
    assert from == WindowStart(now) + i * HOUR_MS;
    assert forall r :: InHour(r, from) <==> from <= r.timestampMs < from + 3600000;
    hide InHour, WindowEnd;
  }

  lemma HourIndex(offset: int, i: int)
    requires 0 <= offset
    ensures offset / HOUR_MS == i <==> i * HOUR_MS <= offset < i * HOUR_MS + HOUR_MS
  {
  }

  lemma VerdictExtends(records: seq<ProbeRecord>, record: ProbeRecord, start: int)
    ensures Verdict(records + [record], start)
            == if !InHour(record, start) then Verdict(records, start)
               else if !record.passed then Failed
               else if Verdict(records, start) == Unknown then Passed
               else Verdict(records, start)
  {
    var more := records + [record];
    assert forall r :: r in more <==> r in records || r == record;
    assert record in more;
  }

  method BuildCells(records: seq<ProbeRecord>, now: int) returns (cells: seq<Cell>)
    ensures cells == Strip(records, now)
  {
    cells := seq(CELL_COUNT, _ => Unknown);
    var windowEndMs := (Hours(now) + 1) * HOUR_MS;
    var windowStartMs := windowEndMs - CELL_COUNT * HOUR_MS;
    for k := 0 to |records|
      invariant |cells| == CELL_COUNT
      invariant forall i :: 0 <= i < CELL_COUNT ==> cells[i] == Verdict(records[..k], windowStartMs + i * HOUR_MS)
    {
      var record := records[k];
      assert records[..k + 1] == records[..k] + [record];
      forall i | 0 <= i < CELL_COUNT
        ensures InHour(record, windowStartMs + i * HOUR_MS)
                <==> windowStartMs <= record.timestampMs && (record.timestampMs - windowStartMs) / HOUR_MS == i
      {
        if windowStartMs <= record.timestampMs {
          HourIndex(record.timestampMs - windowStartMs, i);
        }
      }
      forall i | 0 <= i < CELL_COUNT {
        VerdictExtends(records[..k], record, windowStartMs + i * HOUR_MS);
      }
      if record.timestampMs < windowStartMs || record.timestampMs >= windowEndMs {
        continue;
      }
      var hourIndex := (record.timestampMs - windowStartMs) / HOUR_MS;
      if hourIndex < 0 || hourIndex >= CELL_COUNT {
        continue;
      }
      if !record.passed {
        cells := cells[hourIndex := Failed];
      } else if cells[hourIndex] == Unknown {
        cells := cells[hourIndex := Passed];
      }
    }
    assert records[..|records|] == records;
  }

  /** The records inside the window, in order. */
  function Within(records: seq<ProbeRecord>, now: int): seq<ProbeRecord> {
    if records == [] then [] else
    Within(records[..|records| - 1], now)
    + if InWindow(records[|records| - 1], now) then [records[|records| - 1]] else []
  }

  method AppendAndPrune(records: seq<ProbeRecord>, record: ProbeRecord, now: int) returns (pruned: seq<ProbeRecord>)
    ensures pruned == Within(records + [record], now)
  {
    pruned := [];
    var windowEndMs := (Hours(now) + 1) * HOUR_MS;
    var windowStartMs := windowEndMs - CELL_COUNT * HOUR_MS;
    for k := 0 to |records|
      invariant pruned == Within(records[..k], now)
    {
      assert records[..k + 1][..k] == records[..k];
      if records[k].timestampMs >= windowStartMs && records[k].timestampMs < windowEndMs {
        pruned := pruned + [records[k]];
      }
    }
    assert records[..|records|] == records && (records + [record])[..|records|] == records;
    if record.timestampMs >= windowStartMs && record.timestampMs < windowEndMs {
      pruned := pruned + [record];
    }
  }

  /** Where each kept record stands in the history: exactly the records dated inside the window are kept,
      each as often as it occurs and in the same order. */
  lemma {:induction false} WithinKeepsOrder(records: seq<ProbeRecord>, now: int) returns (from: seq<nat>)
    ensures var kept := Within(records, now);
      && |from| == |kept|
      && (forall j :: 0 <= j < |from| ==> from[j] < |records| && records[from[j]] == kept[j])
      && (forall i, j :: 0 <= i < j < |from| ==> from[i] < from[j])
      && forall k: nat :: k < |records| ==>
           (k in from <==> WindowEnd(now) - 86400000 <= records[k].timestampMs < WindowEnd(now))
    decreases |records|
  {
    assert forall r :: InWindow(r, now) <==> WindowEnd(now) - 86400000 <= r.timestampMs < WindowEnd(now);
    hide InWindow, WindowEnd;
    from := [];
    if records != [] {
      var n := |records| - 1;
      from := WithinKeepsOrder(records[..n], now);
      forall k: nat | k < n
        ensures k in from <==> WindowEnd(now) - 86400000 <= records[k].timestampMs < WindowEnd(now)
      {
        assert records[..n][k] == records[k];
      }
      if InWindow(records[n], now) {
        from := from + [n];
      }
    }
  }

  lemma {:induction false} WithinMembers(records: seq<ProbeRecord>, now: int, r: ProbeRecord)
    ensures r in Within(records, now) <==> r in records && InWindow(r, now)
    decreases |records|
  {
    if records != [] {
      WithinMembers(records[..|records| - 1], now, r);
      assert records == records[..|records| - 1] + [records[|records| - 1]];
    }
  }

  // ----- The meaning of the strip ---------------------------------------------------------------

  /** Only which records there are matters, not their order or how often they occur. */
  lemma OrderDoesNotMatter(a: seq<ProbeRecord>, b: seq<ProbeRecord>, now: int)
    requires forall r :: r in a <==> r in b
    ensures Strip(a, now) == Strip(b, now)
  {
    forall i | 0 <= i < CELL_COUNT
      ensures Verdict(a, WindowStart(now) + i * HOUR_MS) == Verdict(b, WindowStart(now) + i * HOUR_MS)
    {
    }
  }

  lemma LaterWindow(now: int, later: int)
    requires now <= later
    ensures WindowEnd(now) <= WindowEnd(later) && WindowStart(now) <= WindowStart(later)
  {
    assert Hours(now) <= Hours(later);
  }

  /** One hour later the window has moved by one hour - except around the epoch, where truncating
      division counts two clock hours as hour zero. */
  lemma HourLater(now: int)
    ensures WindowEnd(now + HOUR_MS) == WindowEnd(now) + HOUR_MS <==> now <= -HOUR_MS || now >= 0
  {
    if now >= 0 {
      assert (now + HOUR_MS) / HOUR_MS == now / HOUR_MS + 1;
    } else if now <= -HOUR_MS {
      assert -now / HOUR_MS == (-now - HOUR_MS) / HOUR_MS + 1;
    }
  }

  /** Advancing the clock one hour shifts cells 1..23 to 0..22 and leaves them as they were. */
  lemma HourLaterShifts(records: seq<ProbeRecord>, now: int)
    requires now <= -HOUR_MS || now >= 0
    ensures Strip(records, now + HOUR_MS)[..CELL_COUNT - 1] == Strip(records, now)[1..]
  {
    HourLater(now);
    var before, after := Strip(records, now), Strip(records, now + HOUR_MS);
    forall i | 0 <= i < CELL_COUNT - 1 ensures after[i] == before[i + 1] {
      assert WindowStart(now + HOUR_MS) + i * HOUR_MS == WindowStart(now) + (i + 1) * HOUR_MS;
    }
  }

  // ----- Incremental history equals batch -------------------------------------------------------

  /** A probe that was recorded when the clock showed `now`. */
  datatype Arrival = Arrival(record: ProbeRecord, now: int)

  /** The history a caller has that keeps only what each call returned. */
  function Kept(arrivals: seq<Arrival>): seq<ProbeRecord> {
    if arrivals == [] then [] else
    var last := arrivals[|arrivals| - 1];
    Within(Kept(arrivals[..|arrivals| - 1]) + [last.record], last.now)
  }

  function Everything(arrivals: seq<Arrival>): seq<ProbeRecord> {
    if arrivals == [] then [] else
    Everything(arrivals[..|arrivals| - 1]) + [arrivals[|arrivals| - 1].record]
  }

  ghost predicate ClockNeverGoesBack(arrivals: seq<Arrival>, now: int) {
    && (forall i, j :: 0 <= i < j < |arrivals| ==> arrivals[i].now <= arrivals[j].now)
    && (forall i :: 0 <= i < |arrivals| ==> arrivals[i].now <= now)
  }

  /** Dated before the end of the hour in which it was recorded. */
  predicate NotFromTheFuture(a: Arrival) {
    a.record.timestampMs < WindowEnd(a.now)
  }

  /** Inside any later window, the kept history and the whole one hold the same records. */
  lemma {:induction false} KeptHasTheWindow(arrivals: seq<Arrival>, now: int, r: ProbeRecord)
    requires ClockNeverGoesBack(arrivals, now)
    requires forall i :: 0 <= i < |arrivals| ==> NotFromTheFuture(arrivals[i])
    requires WindowStart(now) <= r.timestampMs
    ensures r in Kept(arrivals) <==> r in Everything(arrivals)
    ensures r in Everything(arrivals) ==> arrivals != [] && r.timestampMs < WindowEnd(arrivals[|arrivals| - 1].now)
    decreases |arrivals|
  {
    hide Hours, Within;
    if arrivals != [] {
      var n := |arrivals| - 1;
      var last := arrivals[n];
      KeptHasTheWindow(arrivals[..n], now, r);
      WithinMembers(Kept(arrivals[..n]) + [last.record], last.now, r);
      LaterWindow(last.now, now);
      if r in Everything(arrivals[..n]) {
        LaterWindow(arrivals[n - 1].now, last.now);
      }
      assert NotFromTheFuture(last);
    }
  }

  lemma SameRecordsSameVerdict(a: seq<ProbeRecord>, b: seq<ProbeRecord>, start: int)
    requires forall r :: InHour(r, start) ==> (r in a <==> r in b)
    ensures Verdict(a, start) == Verdict(b, start)
  {
  }

  /** Building the strip from the incrementally pruned history gives the same cells as building it
      from every record ever made, at any later time. */
  lemma {:induction false} IncrementalEqualsBatch(arrivals: seq<Arrival>, now: int)
    requires ClockNeverGoesBack(arrivals, now)
    requires forall i :: 0 <= i < |arrivals| ==> NotFromTheFuture(arrivals[i])
    ensures Strip(Kept(arrivals), now) == Strip(Everything(arrivals), now)
  {
    hide Hours, Kept, Everything, Verdict;
    forall i | 0 <= i < CELL_COUNT
      ensures Verdict(Kept(arrivals), WindowStart(now) + i * HOUR_MS)
              == Verdict(Everything(arrivals), WindowStart(now) + i * HOUR_MS)
    {
      var start := WindowStart(now) + i * HOUR_MS;
      forall r | InHour(r, start) ensures r in Kept(arrivals) <==> r in Everything(arrivals) {
        KeptHasTheWindow(arrivals, now, r);
      }
      SameRecordsSameVerdict(Kept(arrivals), Everything(arrivals), start);
    }
  }

  /** The dating condition is exact: a single record is shown at every later time as if it had been
      kept, if and only if it was not dated past the end of its own hour. */
  lemma FutureRecordIsLost(a: Arrival)
    ensures NotFromTheFuture(a) <==>
              forall now :: now >= a.now ==> Strip(Kept([a]), now) == Strip(Everything([a]), now)
  {
    assert [a][..0] == [];
    assert Everything([a]) == [a.record];
    if NotFromTheFuture(a) {
      forall now | now >= a.now ensures Strip(Kept([a]), now) == Strip(Everything([a]), now) {
        IncrementalEqualsBatch([a], now);
      }
    } else {
      var t := a.record.timestampMs;
      var now := if t >= a.now then t else a.now;
      assert WindowEnd(a.now) > a.now;
      assert now == t;
      WithinMembers([a.record], a.now, a.record);
      assert a.record !in Kept([a]);
      assert Kept([a]) == [] by {
        assert Kept([a]) == Within([a.record], a.now);
      }
      ShownInItsWindow(a.record, now);
    }
  }

  /** A lone record inside the window colours its own hour. */
  lemma ShownInItsWindow(record: ProbeRecord, now: int)
    requires InWindow(record, now)
    ensures Strip([record], now) != Strip([], now)
  {
    var i := (record.timestampMs - WindowStart(now)) / HOUR_MS;
    HourIndex(record.timestampMs - WindowStart(now), i);
    var start := WindowStart(now) + i * HOUR_MS;
    assert record in [record] && InHour(record, start);
    assert Verdict([record], start) != Unknown && Verdict([], start) == Unknown;
    assert 0 <= i < CELL_COUNT;
    assert Strip([record], now)[i] != Strip([], now)[i];
  }

  /** The kept history is bounded by the window, not by a number of records: however large `n`, `n`
      probes recorded at one moment are all kept. */
  lemma {:induction false} KeptIsNotBoundedByCount(now: int, n: nat)
    ensures |AtOnce(now, n)| == |Kept(AtOnce(now, n))| == n
    ensures forall r :: r in Kept(AtOnce(now, n)) ==> r == ProbeRecord(now, true)
  {
    if n != 0 {
      KeptIsNotBoundedByCount(now, n - 1);
      var before := AtOnce(now, n - 1);
      assert AtOnce(now, n)[..n - 1] == before;
      NowIsInWindow(now);
      hide Hours, InWindow;
      WithinKeepsAll(Kept(before) + [ProbeRecord(now, true)], now);
    }
  }

  /** `n` passing probes at one moment. */
  function AtOnce(now: int, n: nat): seq<Arrival> {
    if n == 0 then [] else AtOnce(now, n - 1) + [Arrival(ProbeRecord(now, true), now)]
  }

  lemma NowIsInWindow(now: int)
    ensures InWindow(ProbeRecord(now, true), now)
  {
  }

  lemma {:induction false} WithinKeepsAll(records: seq<ProbeRecord>, now: int)
    requires forall r :: r in records ==> InWindow(r, now)
    ensures Within(records, now) == records
    decreases |records|
  {
    if records != [] {
      WithinKeepsAll(records[..|records| - 1], now);
    }
  }

  /** Pruning at a time and again later is pruning once, later, if nothing is dated past the first
      window. */
  lemma {:induction false} PruneTwice(records: seq<ProbeRecord>, first: int, later: int)
    requires first <= later
    requires forall r :: r in records ==> r.timestampMs < WindowEnd(first)
    ensures Within(Within(records, first), later) == Within(records, later)
    decreases |records|
  {
    hide Hours;
    if records != [] {
      var n := |records| - 1;
      PruneTwice(records[..n], first, later);
      LaterWindow(first, later);
      var kept := Within(records[..n], first);
      if InWindow(records[n], first) {
        assert (kept + [records[n]])[..|kept|] == kept;
      } else {
        assert records[n] in records && !InWindow(records[n], later);
        assert Within(records, first) == kept;
      }
    }
  }

  lemma {:induction false} EverythingIsOld(arrivals: seq<Arrival>, now: int)
    requires forall i :: 0 <= i < |arrivals| ==> NotFromTheFuture(arrivals[i]) && arrivals[i].now <= now
    ensures forall r :: r in Everything(arrivals) ==> r.timestampMs < WindowEnd(now)
    decreases |arrivals|
  {
    hide Hours;
    if arrivals != [] {
      var n := |arrivals| - 1;
      EverythingIsOld(arrivals[..n], now);
      assert NotFromTheFuture(arrivals[n]);
      LaterWindow(arrivals[n].now, now);
    }
  }

  /** What the kept history is: the records of the whole one inside the last window, in order. */
  lemma {:induction false} KeptIsTheWindow(arrivals: seq<Arrival>)
    requires arrivals != [] && ClockNeverGoesBack(arrivals, arrivals[|arrivals| - 1].now)
    requires forall i :: 0 <= i < |arrivals| ==> NotFromTheFuture(arrivals[i])
    ensures Kept(arrivals) == Within(Everything(arrivals), arrivals[|arrivals| - 1].now)
    decreases |arrivals|
  {
    hide Hours, InWindow, Within;
    var n := |arrivals| - 1;
    var before, last := arrivals[..n], arrivals[n];
    var kept, all := Kept(before), Everything(before);
    WithinOneMore(kept, last.record, last.now);
    WithinOneMore(all, last.record, last.now);
    if n > 0 {
      var prev := arrivals[n - 1].now;
      KeptIsTheWindow(before);
      EverythingIsOld(before, prev);
      PruneTwice(all, prev, last.now);
    }
  }

  lemma WithinOneMore(records: seq<ProbeRecord>, record: ProbeRecord, now: int)
    ensures Within(records + [record], now) == Within(records, now) + if InWindow(record, now) then [record] else []
  {
    assert (records + [record])[..|records|] == records;
  }

  /** When the history is bounded by a number: it never holds more than `n` records if and only if no
      prefix of the arrivals has more than `n` records inside its own last window. */
  lemma BoundedExactlyWhen(arrivals: seq<Arrival>, n: nat)
    requires forall i, j :: 0 <= i < j < |arrivals| ==> arrivals[i].now <= arrivals[j].now
    requires forall i :: 0 <= i < |arrivals| ==> NotFromTheFuture(arrivals[i])
    ensures (forall k: nat :: k <= |arrivals| ==> |Kept(arrivals[..k])| <= n) <==>
            (forall k: nat :: 0 < k <= |arrivals| ==> |Within(Everything(arrivals[..k]), arrivals[k - 1].now)| <= n)
  {
    hide Within, Everything, NotFromTheFuture;
    forall k: nat | 0 < k <= |arrivals|
      ensures Kept(arrivals[..k]) == Within(Everything(arrivals[..k]), arrivals[k - 1].now)
    {
      KeptIsTheWindow(arrivals[..k]);
    }
    assert Kept(arrivals[..0]) == [];
  }

  /** Records at least `gap` apart. */
  ghost predicate Spaced(records: seq<ProbeRecord>, gap: int) {
    forall i, j :: 0 <= i < j < |records| ==> records[i].timestampMs + gap <= records[j].timestampMs
  }

  lemma {:induction false} WithinStaysSpaced(records: seq<ProbeRecord>, now: int, gap: int)
    requires Spaced(records, gap)
    ensures Spaced(Within(records, now), gap)
    ensures forall r :: r in Within(records, now) ==> r in records && InWindow(r, now)
    decreases |records|
  {
    hide InWindow;
    if records != [] {
      var n := |records| - 1;
      WithinStaysSpaced(records[..n], now, gap);
      var kept := Within(records[..n], now);
      forall i | 0 <= i < |kept| ensures kept[i].timestampMs + gap <= records[n].timestampMs {
        assert kept[i] in records[..n];
      }
    }
  }

  lemma {:induction false} SpacedSpan(records: seq<ProbeRecord>, gap: int)
    requires Spaced(records, gap) && records != []
    ensures records[0].timestampMs + (|records| - 1) * gap <= records[|records| - 1].timestampMs
    decreases |records|
  {
    if |records| > 1 {
      SpacedSpan(records[..|records| - 1], gap);
      assert (|records| - 2) * gap + gap == (|records| - 1) * gap;
    }
  }

  /** The bound a prober has: measurements at least `gap` apart keep the history below a day's worth. */
  lemma SpacedProbesBoundTheHistory(arrivals: seq<Arrival>, gap: int)
    requires arrivals != [] && ClockNeverGoesBack(arrivals, arrivals[|arrivals| - 1].now)
    requires forall i :: 0 <= i < |arrivals| ==> NotFromTheFuture(arrivals[i])
    requires gap > 0 && Spaced(Everything(arrivals), gap)
    ensures (|Kept(arrivals)| - 1) * gap < CELL_COUNT * HOUR_MS
  {
    hide Hours, Kept, Everything, NotFromTheFuture, Spaced, InWindow, Within;
    var now := arrivals[|arrivals| - 1].now;
    KeptIsTheWindow(arrivals);
    WithinStaysSpaced(Everything(arrivals), now, gap);
    WindowHoldsFew(Kept(arrivals), now, gap);
  }

  lemma WindowHoldsFew(records: seq<ProbeRecord>, now: int, gap: int)
    requires gap > 0 && Spaced(records, gap) && forall r :: r in records ==> InWindow(r, now)
    ensures (|records| - 1) * gap < CELL_COUNT * HOUR_MS
  {
    hide Hours;
    if records != [] {
      SpacedSpan(records, gap);
      assert InWindow(records[0], now) && InWindow(records[|records| - 1], now);
      hide Spaced;
    }
  }

  // ----- The stored text ------------------------------------------------------------------------

  function CellChar(cell: Cell): char {
    match cell
    case Passed => '+'
    case Failed => '-'
    case Unknown => '0'
  }

  method Encode(cells: seq<Cell>) returns (text: string)
    ensures text == Encoded(cells)
    ensures forall i :: 0 <= i < |cells| ==>
              (text[i] == '+' <==> cells[i] == Passed) && (text[i] == '-' <==> cells[i] == Failed)
              && (text[i] == '0' <==> cells[i] == Unknown)
  {
    text := "";
    for i := 0 to |cells|
      invariant text == Encoded(cells[..i])
    {
      assert cells[..i + 1][..i] == cells[..i];
      text := text + [CellChar(cells[i])];
    }
    assert cells[..|cells|] == cells;
  }

  function Encoded(cells: seq<Cell>): (text: string)
    ensures |text| == |cells|
    ensures forall i :: 0 <= i < |cells| ==> text[i] == CellChar(cells[i])
  {
    if cells == [] then "" else Encoded(cells[..|cells| - 1]) + [CellChar(cells[|cells| - 1])]
  }

  predicate WellFormed(text: string) {
    |text| == CELL_COUNT && forall i :: 0 <= i < |text| ==> text[i] in "+-0"
  }

  function CharCell(c: char): Cell {
    if c == '+' then Passed else if c == '-' then Failed else Unknown
  }

  /** A text is read cell by cell if it has one known character per cell, and not at all otherwise. */
  function Decoded(text: string): (cells: seq<Cell>)
    ensures |cells| == if WellFormed(text) then CELL_COUNT else 0
  {
    if WellFormed(text) then seq(|text|, i requires 0 <= i < |text| => CharCell(text[i])) else []
  }

  method Decode(text: string) returns (cells: seq<Cell>)
    ensures cells == Decoded(text)
    ensures cells != [] <==> |text| == 24 && forall i :: 0 <= i < |text| ==> text[i] in "+-0"
    ensures forall i :: 0 <= i < |cells| ==>
              |cells| == |text| && (cells[i] == Passed <==> text[i] == '+') && (cells[i] == Failed <==> text[i] == '-')
  {
    if |text| != CELL_COUNT {
      return [];
    }
    cells := [];
    for i := 0 to |text|
      invariant |cells| == i
      invariant forall k :: 0 <= k < i ==> text[k] in "+-0" && cells[k] == CharCell(text[k])
    {
      if text[i] == '+' {
        cells := cells + [Passed];
      } else if text[i] == '-' {
        cells := cells + [Failed];
      } else if text[i] == '0' {
        cells := cells + [Unknown];
      } else {
        return [];
      }
    }
  }

  /** Reading back what was written gives the strip again - for a strip of 24 cells, and trivially
      for an empty one; no other list of cells survives. */
  lemma DecodeOfEncode(cells: seq<Cell>)
    ensures Decoded(Encoded(cells)) == cells <==> |cells| == CELL_COUNT || cells == []
  {
    hide Encoded, Decoded;
    if |cells| == CELL_COUNT {
      FullStripReadsBack(cells);
    }
  }

  lemma FullStripReadsBack(cells: seq<Cell>)
    requires |cells| == CELL_COUNT
    ensures Decoded(Encoded(cells)) == cells
  {
    hide Encoded;
    var text := Encoded(cells);
    forall i | 0 <= i < CELL_COUNT ensures text[i] in "+-0" && CharCell(text[i]) == cells[i] {
      assert text[i] == CellChar(cells[i]);
    }
  }

  /** Any text that reads as a strip is the text that strip would be written as. */
  lemma EncodeOfDecode(text: string)
    ensures Decoded(text) != [] <==> WellFormed(text)
    ensures Decoded(text) != [] ==> Encoded(Decoded(text)) == text
  {
    if WellFormed(text) {
      forall i | 0 <= i < |text| ensures Encoded(Decoded(text))[i] == text[i] {
        assert text[i] in "+-0";
      }
    }
  }
}
