/** When a download reports progress: the transfer callback of src/ota_fetch.c and the rate and
    milestone rules of src/log.c. */
module Progress {
  import opened Wrappers

  const UINT64: int := 0x1_0000_0000_0000_0000
  const BYTE_INTERVAL: nat := 5 * 1024 * 1024
  const PERCENT_INTERVAL_MS: int := 200
  const FORCE_INTERVAL_MS: int := 500

  /** `download_progress_percent`, with the product in 64 bits. */
  function Percent(transferred: nat, total: nat): int {
    if total == 0 then -1
    else var percent := ((transferred * 100) % UINT64) / total;
         if percent > 100 then 100 else percent
  }

  function PercentMilestone(percent: int): int {
    if percent < 10 then -1 else if percent >= 100 then 100 else (percent / 10) * 10
  }

  function ByteMilestone(transferred: nat, interval: nat): nat {
    if interval == 0 then 0 else transferred / interval
  }

  function ShouldEmit(now: int, lastEmit: int, previous: int, current: int, completed: bool): bool {
    || completed
    || lastEmit < 0
    || now - lastEmit >= FORCE_INTERVAL_MS
    || (current >= 0 && current != previous && now - lastEmit >= PERCENT_INTERVAL_MS)
  }

  /** Of a running transfer the computed percentage is the true one exactly if the product fits. */
  lemma PercentExact(transferred: nat, total: nat)
    requires transferred < total < UINT64
    ensures Percent(transferred, total) == transferred * 100 / total <==> transferred * 100 < UINT64
  {
    hide Percent;
    var p := transferred * 100;
    var w := p % UINT64;
    WrapDrops(p);
    DivBound(p, total, 100);
    if p >= UINT64 { DivDrop(w, p, total); }
    ClampIs(transferred, total, w / total);
  }

  lemma WrapDrops(p: nat)
    ensures p < UINT64 ==> p % UINT64 == p
    ensures p >= UINT64 ==> p % UINT64 + UINT64 <= p
  {
  }

  lemma ClampIs(transferred: nat, total: nat, q: int)
    requires total > 0 && q == ((transferred * 100) % UINT64) / total
    ensures Percent(transferred, total) == if q > 100 then 100 else q
  {
  }

  lemma MulOrder(x: int, y: int, d: int)
    requires d > 0
    ensures x >= y ==> x * d >= y * d
  {
    if x >= y { assert (x - y) * d >= 0; }
  }

  lemma DivBound(p: nat, d: nat, n: nat)
    requires d > 0 && p < n * d
    ensures p / d < n
  {
    MulOrder(p / d, n, d);
  }

  lemma DivMono(a: nat, b: nat, d: nat)
    requires d > 0 && a <= b
    ensures a / d <= b / d
  {
    MulOrder(a / d, b / d + 1, d);
  }

  lemma DivDrop(w: nat, p: nat, d: nat)
    requires d > 0 && p >= w + d
    ensures w / d < p / d
  {
    MulOrder(w / d, p / d, d);
  }

  /** When a terminal is redrawn: at once the first time, otherwise half a second after the last time,
      or after a fifth of a second if the percentage is known and has changed, but never sooner. */
  lemma EmitsWhen(now: int, last: int, previous: int, current: int)
    ensures last < 0 ==> ShouldEmit(now, last, previous, current, false)
    ensures now >= last + 500 ==> ShouldEmit(now, last, previous, current, false)
    ensures now >= last + 200 && current >= 0 && current != previous ==> ShouldEmit(now, last, previous, current, false)
    ensures last >= 0 && now < last + 200 ==> !ShouldEmit(now, last, previous, current, false)
    ensures last >= 0 && now < last + 500 && (current < 0 || current == previous) ==> !ShouldEmit(now, last, previous, current, false)
    ensures ShouldEmit(now, last, previous, current, true)
  {
  }

  // ---------- The callback ----------

  /** `struct download_progress`. */
  datatype State = State(lastEmit: int, lastPercent: int, lastPercentMilestone: int, lastByteMilestone: nat,
                         transferred: nat, total: nat)

  const INIT := State(-1, -1, -1, 0, 0, 0)

  /** One call: total and current byte count as libcurl gives them, and the clock in milliseconds. */
  datatype Call = Call(dltotal: int, dlnow: int, now: int)

  function Count(n: int): nat {
    if n > 0 then n else 0
  }

  /** What a call reports: nothing, or a line with this milestone (off a terminal) or time (on one). */
  function Report(s: State, c: Call, tty: bool): Option<int> {
    var total, done := Count(c.dltotal), Count(c.dlnow);
    if done == 0 || (total > 0 && done >= total) then None
    else if tty then
      if ShouldEmit(c.now, s.lastEmit, s.lastPercent, Percent(done, total), false) then Some(c.now) else None
    else if total > 0 then
      var m := PercentMilestone(Percent(done, total));
      if m < 0 || m == s.lastPercentMilestone then None else Some(m)
    else
      var m := ByteMilestone(done, BYTE_INTERVAL);
      if m == 0 || m == s.lastByteMilestone then None else Some(m)
  }

  function After(s: State, c: Call, tty: bool): State {
    var total, done := Count(c.dltotal), Count(c.dlnow);
    var s' := s.(total := total, transferred := done);
    match Report(s, c, tty)
    case None => s'
    case Some(r) =>
      if tty then s'.(lastEmit := r, lastPercent := Percent(done, total))
      else if total > 0 then s'.(lastPercentMilestone := r)
      else s'.(lastByteMilestone := r)
  }

  /** Nothing is reported before the first byte and after the last; in between a terminal is redrawn
      whenever it is time, which is remembered with the percentage shown. */
  lemma ReportRules(s: State, c: Call)
    ensures c.dlnow <= 0 || (c.dltotal > 0 && c.dlnow >= c.dltotal) ==> Report(s, c, true) == Report(s, c, false) == None
    ensures c.dlnow > 0 && (c.dltotal > 0 ==> c.dlnow < c.dltotal) ==>
              (Report(s, c, true).Some? <==> ShouldEmit(c.now, s.lastEmit, s.lastPercent, Percent(c.dlnow, Count(c.dltotal)), false))
    ensures Report(s, c, true).Some? ==> After(s, c, true).lastEmit == c.now
                                         && After(s, c, true).lastPercent == Percent(Count(c.dlnow), Count(c.dltotal))
    ensures Report(s, c, true).None? ==> After(s, c, true).lastEmit == s.lastEmit && After(s, c, true).lastPercent == s.lastPercent
  {
    hide Percent, ShouldEmit;
  }

  /** The callback object, updated in place. */
  class DownloadProgress {
    var s: State

    constructor ()
      ensures s == INIT
    {
      s := INIT;
    }

    /** `download_progress_callback`; `enabled` is whether progress is logged at all. */
    method Callback(c: Call, tty: bool, enabled: bool) returns (report: Option<int>)
      modifies this
      ensures enabled ==> report == Report(old(s), c, tty) && s == After(old(s), c, tty)
      ensures !enabled ==> report == None && s == old(s).(total := Count(c.dltotal), transferred := Count(c.dlnow))
    {
      s := s.(total := if c.dltotal > 0 then c.dltotal else 0);
      s := s.(transferred := if c.dlnow > 0 then c.dlnow else 0);
      if !enabled || s.transferred == 0 { return None; }
      if s.total > 0 && s.transferred >= s.total { return None; }
      if !tty {
        if s.total > 0 {
          var m := PercentMilestone(Percent(s.transferred, s.total));
          if m < 0 || m == s.lastPercentMilestone { return None; }
          s := s.(lastPercentMilestone := m);
          return Some(m);
        }
        var m := ByteMilestone(s.transferred, BYTE_INTERVAL);
        if m == 0 || m == s.lastByteMilestone { return None; }
        s := s.(lastByteMilestone := m);
        return Some(m);
      }
      var current := Percent(s.transferred, s.total);
      if !ShouldEmit(c.now, s.lastEmit, s.lastPercent, current, false) { return None; }
      s := s.(lastEmit := c.now, lastPercent := current);
      return Some(c.now);
    }
  }

  // ---------- Sequences of calls ----------

  function StateAfter(calls: seq<Call>, n: nat, tty: bool): State
    requires n <= |calls|
  {
    if n == 0 then INIT else After(StateAfter(calls, n - 1, tty), calls[n - 1], tty)
  }

  /** Everything the first `n` calls report, in order. */
  function Reports(calls: seq<Call>, n: nat, tty: bool): seq<int>
    requires n <= |calls|
  {
    if n == 0 then []
    else Reports(calls, n - 1, tty) +
         match Report(StateAfter(calls, n - 1, tty), calls[n - 1], tty) case None => [] case Some(r) => [r]
  }

  predicate Increasing(s: seq<int>) {
    forall i, j :: 0 <= i < j < |s| ==> s[i] < s[j]
  }

  ghost predicate BytesGrow(calls: seq<Call>) {
    forall i, j :: 0 <= i <= j < |calls| ==> Count(calls[i].dlnow) <= Count(calls[j].dlnow)
  }

  function LastOr(s: seq<int>, default: int): int {
    if s == [] then default else s[|s| - 1]
  }

  lemma IncreasingNone()
    ensures Increasing([])
  {
  }

  lemma IncreasingSnoc(s: seq<int>, r: int)
    requires Increasing(s) && (s != [] ==> s[|s| - 1] < r)
    ensures Increasing(s + [r])
  {
  }

  /** Reports at least `step` apart: the last one bounds how many there are. */
  lemma {:induction false} Spaced(s: seq<int>, step: int, j: nat)
    requires j < |s| && forall i :: 0 < i < |s| ==> s[i] >= s[i - 1] + step
    ensures s[j] >= s[0] + step * j
  {
    if j > 0 {
      Spaced(s, step, j - 1);
      assert step * j == step * (j - 1) + step;
    }
  }

  // ---------- Off a terminal, total known ----------

  ghost predicate KnownTotal(calls: seq<Call>, total: nat) {
    && total > 0 && BytesGrow(calls)
    && forall i :: 0 <= i < |calls| ==> calls[i].dltotal == total && Count(calls[i].dlnow) * 100 < UINT64
  }

  /** Strictly increasing multiples of ten from 10 to 90. */
  predicate TenSteps(r: seq<int>) {
    Increasing(r) && forall i :: 0 <= i < |r| ==> 10 <= r[i] <= 90 && r[i] % 10 == 0
  }

  lemma TenStepsNone()
    ensures TenSteps([])
  {
  }

  lemma TenStepsSnoc(r: seq<int>, m: int)
    requires TenSteps(r) && LastOr(r, -1) < m && 10 <= m <= 90 && m % 10 == 0
    ensures TenSteps(r + [m])
  {
  }

  function MilestoneOf(done: nat, total: nat): int {
    PercentMilestone(Percent(done, total))
  }

  lemma PercentFits(done: nat, total: nat)
    requires total > 0 && done * 100 < UINT64
    ensures Percent(done, total) == if done * 100 / total > 100 then 100 else done * 100 / total
  {
    hide Percent;
    WrapDrops(done * 100);
    ClampIs(done, total, done * 100 / total);
  }

  lemma PercentMilestoneGrows(p: int, q: int)
    requires 0 <= p <= q <= 100
    ensures PercentMilestone(p) <= PercentMilestone(q)
    ensures p < 100 ==> PercentMilestone(p) <= 90
    ensures PercentMilestone(p) < 0 || (PercentMilestone(p) >= 10 && PercentMilestone(p) % 10 == 0)
  {
  }

  lemma MilestoneGrows(a: nat, b: nat, total: nat)
    requires a <= b && b * 100 < UINT64 && total > 0
    ensures MilestoneOf(a, total) <= MilestoneOf(b, total)
    ensures a < total ==> MilestoneOf(a, total) <= 90
    ensures MilestoneOf(a, total) < 0 || (MilestoneOf(a, total) >= 10 && MilestoneOf(a, total) % 10 == 0)
  {
    hide Percent, PercentMilestone;
    PercentFits(a, total);
    PercentFits(b, total);
    DivMono(a * 100, b * 100, total);
    if a < total { DivBound(a * 100, total, 100); }
    PercentMilestoneGrows(Percent(a, total), Percent(b, total));
  }

  /** Bytes have arrived, and not yet all. */
  predicate InProgress(c: Call) {
    Count(c.dlnow) > 0 && (Count(c.dltotal) > 0 ==> Count(c.dlnow) < Count(c.dltotal))
  }

  /** The state of the rules after `n` calls: the last line reported, never ahead of the bytes. */
  lemma {:induction false} KnownTotalState(calls: seq<Call>, total: nat, n: nat)
    requires KnownTotal(calls, total) && n <= |calls|
    ensures var r := Reports(calls, n, false); var last := StateAfter(calls, n, false).lastPercentMilestone;
            && TenSteps(r) && last == LastOr(r, -1)
            && (last >= 0 ==> n > 0 && last <= MilestoneOf(Count(calls[n - 1].dlnow), total))
            && (n > 0 && InProgress(calls[n - 1]) && MilestoneOf(Count(calls[n - 1].dlnow), total) >= 10 ==>
                  last == MilestoneOf(Count(calls[n - 1].dlnow), total))
  {
    hide Percent, PercentMilestone, TenSteps, ByteMilestone, ShouldEmit;
    TenStepsNone();
    if n > 0 {
      KnownTotalState(calls, total, n - 1);
      var r, s, c := Reports(calls, n - 1, false), StateAfter(calls, n - 1, false), calls[n - 1];
      var done := Count(c.dlnow);
      MilestoneGrows(done, done, total);
      if n > 1 { MilestoneGrows(Count(calls[n - 2].dlnow), done, total); }
      var report := Report(s, c, false);
      if report.Some? { TenStepsSnoc(r, report.value); } else { assert Reports(calls, n, false) == r; }
    }
  }

  /** A transfer of known size reports strictly increasing tens of percent, at most nine lines. */
  lemma KnownTotalReports(calls: seq<Call>, total: nat)
    requires KnownTotal(calls, total)
    ensures var r := Reports(calls, |calls|, false);
            TenSteps(r) && |r| <= 9
    ensures calls != [] && InProgress(calls[|calls| - 1]) && 10 * total <= 100 * calls[|calls| - 1].dlnow ==>
              var r := Reports(calls, |calls|, false);
              r != [] && r[|r| - 1] == calls[|calls| - 1].dlnow * 100 / total / 10 * 10
  {
    hide Reports, StateAfter;
    KnownTotalState(calls, total, |calls|);
    AtMostNine(Reports(calls, |calls|, false));
    if calls != [] && InProgress(calls[|calls| - 1]) && 10 * total <= 100 * calls[|calls| - 1].dlnow {
      CurrentMilestone(calls[|calls| - 1].dlnow, total);
    }
  }

  lemma CurrentMilestone(done: nat, total: nat)
    requires 0 < done < total && done * 100 < UINT64 && 10 * total <= 100 * done
    ensures MilestoneOf(done, total) == done * 100 / total / 10 * 10 >= 10
  {
    hide Percent;
    PercentFits(done, total);
    DivBound(done * 100, total, 100);
    DivMono(10 * total, done * 100, total);
    assert 10 * total / total == 10;
  }

  lemma AtMostNine(r: seq<int>)
    requires TenSteps(r)
    ensures |r| <= 9
  {
    forall i | 0 < i < |r| ensures r[i] >= r[i - 1] + 10 {
      assert r[i - 1] < r[i];
    }
    if r != [] { Spaced(r, 10, |r| - 1); }
  }

  // ---------- Off a terminal, total unknown ----------

  ghost predicate UnknownTotal(calls: seq<Call>) {
    BytesGrow(calls) && forall i :: 0 <= i < |calls| ==> calls[i].dltotal <= 0
  }

  /** A transfer of unknown size reports strictly increasing multiples of the interval, no more
      lines than whole intervals received. */
  lemma {:induction false} UnknownTotalReports(calls: seq<Call>, n: nat)
    requires UnknownTotal(calls) && n <= |calls|
    ensures var r := Reports(calls, n, false); var last := StateAfter(calls, n, false).lastByteMilestone;
            && Increasing(r) && last == LastOr(r, 0) && |r| <= last
            && last <= (if n == 0 then 0 else Count(calls[n - 1].dlnow) / (5 * 1024 * 1024))
            && (n > 0 ==> last == Count(calls[n - 1].dlnow) / (5 * 1024 * 1024))
  {
    hide Percent, PercentMilestone, Increasing, ShouldEmit;
    IncreasingNone();
    if n > 0 {
      UnknownTotalReports(calls, n - 1);
      var r, s, c := Reports(calls, n - 1, false), StateAfter(calls, n - 1, false), calls[n - 1];
      if n > 1 { DivMono(Count(calls[n - 2].dlnow), Count(c.dlnow), BYTE_INTERVAL); }
      var report := Report(s, c, false);
      if report.Some? { IncreasingSnoc(r, report.value); } else { assert Reports(calls, n, false) == r; }
    }
  }

  // ---------- On a terminal ----------

  ghost predicate ClockGrows(calls: seq<Call>) {
    && (forall i :: 0 <= i < |calls| ==> calls[i].now >= 0)
    && forall i, j :: 0 <= i <= j < |calls| ==> calls[i].now <= calls[j].now
  }

  /** On a terminal, redraws are at least 200 milliseconds apart. */
  lemma {:induction false} RedrawsApart(calls: seq<Call>, n: nat)
    requires ClockGrows(calls) && n <= |calls|
    ensures var r := Reports(calls, n, true);
            && StateAfter(calls, n, true).lastEmit == LastOr(r, -1)
            && (forall i :: 0 <= i < |r| ==> r[i] >= 0)
            && (forall i :: 0 < i < |r| ==> r[i] >= r[i - 1] + PERCENT_INTERVAL_MS)
  {
    hide Percent;
    if n > 0 { RedrawsApart(calls, n - 1); }
  }

  /** So a transfer that takes `t` milliseconds redraws at most t / 200 + 1 times. */
  lemma RedrawsBounded(calls: seq<Call>)
    requires ClockGrows(calls) && calls != []
    ensures 200 * (|Reports(calls, |calls|, true)| - 1) <= calls[|calls| - 1].now - calls[0].now
  {
    hide Reports, StateAfter;
    var r := Reports(calls, |calls|, true);
    RedrawsApart(calls, |calls|);
    ReportsWithin(calls, |calls|);
    assert calls[0].now <= calls[|calls| - 1].now;
    if r != [] {
      Spaced(r, 200, |r| - 1);
      assert calls[0].now <= r[0] && r[|r| - 1] <= calls[|calls| - 1].now;
    }
  }

  predicate Within(r: seq<int>, lo: int, hi: int) {
    forall i :: 0 <= i < |r| ==> lo <= r[i] <= hi
  }

  lemma WithinMore(r: seq<int>, lo: int, hi: int, m: int)
    requires Within(r, lo, hi) && hi <= m && lo <= m
    ensures Within(r, lo, m) && Within(r + [m], lo, m)
  {
  }

  /** A redraw carries the time of its call. */
  lemma {:induction false} ReportsWithin(calls: seq<Call>, n: nat)
    requires ClockGrows(calls) && 0 < n <= |calls|
    ensures Within(Reports(calls, n, true), calls[0].now, calls[n - 1].now)
  {
    hide Percent, Within, ShouldEmit;
    var r, m := Reports(calls, n - 1, true), calls[n - 1].now;
    assert calls[0].now <= m;
    if n == 1 {
      NoneWithin(calls[0].now, m);
      WithinMore([], calls[0].now, m, m);
    } else {
      ReportsWithin(calls, n - 1);
      assert calls[n - 2].now <= m;
      WithinMore(r, calls[0].now, calls[n - 2].now, m);
    }
    assert Reports(calls, n, true) == r || Reports(calls, n, true) == r + [m];
  }

  lemma NoneWithin(lo: int, hi: int)
    ensures Within([], lo, hi)
  {
  }

  // ---------- A whole transfer ----------

  /** Every call of one transfer, in order, on a fresh object: what it reports, with its bounds. */
  method RunTransfer(calls: seq<Call>, tty: bool) returns (progress: DownloadProgress, reports: seq<int>)
    ensures fresh(progress) && progress.s == StateAfter(calls, |calls|, tty) && reports == Reports(calls, |calls|, tty)
    ensures forall total :: !tty && KnownTotal(calls, total) ==> TenSteps(reports) && |reports| <= 9
    ensures !tty && UnknownTotal(calls) && calls != [] ==>
              Increasing(reports) && |reports| <= Count(calls[|calls| - 1].dlnow) / BYTE_INTERVAL
    ensures tty && ClockGrows(calls) ==> forall i :: 0 < i < |reports| ==> reports[i] >= reports[i - 1] + PERCENT_INTERVAL_MS
  {
    hide Report, After, KnownTotal, UnknownTotal, ClockGrows, TenSteps, Increasing;
    progress := new DownloadProgress();
    reports := [];
    for n := 0 to |calls|
      invariant fresh(progress) && progress.s == StateAfter(calls, n, tty) && reports == Reports(calls, n, tty)
    {
      var report := progress.Callback(calls[n], tty, true);
      if report.Some? { reports := reports + [report.value]; }
    }
    forall total | !tty && KnownTotal(calls, total) ensures TenSteps(reports) && |reports| <= 9 {
      KnownTotalReports(calls, total);
    }
    if !tty && UnknownTotal(calls) { UnknownTotalReports(calls, |calls|); }
    if tty && ClockGrows(calls) { RedrawsApart(calls, |calls|); }
  }
}
