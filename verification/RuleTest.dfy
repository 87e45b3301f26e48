/** The dry run of a rule over stored hourly counts: a two-pointer window sum with a `fired` flag per address,
    and the report made of it. */
module RuleTest {
  import opened Options

  /** The summed count of one address in one hour; start is the hour's first second. */
  datatype HourCount = HourCount(ip: string, start: int, count: nat)

  datatype IpSimulation = IpSimulation(ip: string, events: nat, detections: seq<int>)

  /* ---- What a detection is, without state ---- */

  /** The counts of ip in rows[..hi] whose hour starts after `after`. */
  function WindowSum(rows: seq<HourCount>, hi: nat, ip: string, after: int): nat
    requires hi <= |rows|
  {
    if hi == 0 then 0
    else
      WindowSum(rows, hi - 1, ip, after)
      + if rows[hi - 1].ip == ip && rows[hi - 1].start > after then rows[hi - 1].count else 0
  }

  /** Whether row j is the first of its address. */
  ghost predicate FirstOf(rows: seq<HourCount>, j: nat)
    requires j < |rows|
  {
    forall i :: 0 <= i < j ==> rows[i].ip != rows[j].ip
  }

  /** Row j is a detection: the window ending at its hour was below the threshold before it, or it is the first row
      of its address, and the window with it reaches the threshold. */
  ghost predicate Detects(rows: seq<HourCount>, j: nat, winSec: int, threshold: int)
    requires j < |rows|
  {
    var before := WindowSum(rows, j, rows[j].ip, rows[j].start - winSec);
    (before < threshold || FirstOf(rows, j)) && threshold <= before + rows[j].count
  }

  /** With a positive threshold a detection is a crossing of the threshold, nothing else. */
  lemma {:induction false} DetectsIsCrossing(rows: seq<HourCount>, j: nat, winSec: int, threshold: int)
    requires j < |rows| && threshold >= 1
    ensures var before := WindowSum(rows, j, rows[j].ip, rows[j].start - winSec);
            Detects(rows, j, winSec, threshold) <==> before < threshold <= before + rows[j].count
  {
    if FirstOf(rows, j) {
      NoneBefore(rows, j, rows[j].ip, rows[j].start - winSec);
    }
  }

  lemma {:induction false} NoneBefore(rows: seq<HourCount>, hi: nat, ip: string, after: int)
    requires hi <= |rows|
    requires forall i :: 0 <= i < hi ==> rows[i].ip != ip
    ensures WindowSum(rows, hi, ip, after) == 0
  {
    if hi > 0 {
      NoneBefore(rows, hi - 1, ip, after);
    }
  }

  /** The outcome for ip on rows[..hi]: all its counts, and its detections in order. */
  ghost function Expected(rows: seq<HourCount>, hi: nat, ip: string, winSec: int, threshold: int): (r: IpSimulation)
    requires hi <= |rows|
    ensures r.ip == ip
  {
    if hi == 0 then IpSimulation(ip, 0, [])
    else
      var rest := Expected(rows, hi - 1, ip, winSec, threshold);
      if rows[hi - 1].ip != ip then rest
      else
        IpSimulation(ip, rest.events + rows[hi - 1].count,
                     rest.detections + if Detects(rows, hi - 1, winSec, threshold) then [rows[hi - 1].start] else [])
  }

  /* ---- Detections as crossings on the time line ---- */

  /** What the query promises of its rows: those of one address stand together, in order of time. */
  ghost predicate Grouped(rows: seq<HourCount>) {
    && (forall i, j, k :: 0 <= i < j < k < |rows| && rows[i].ip == rows[k].ip ==> rows[j].ip == rows[i].ip)
    && (forall i, j :: 0 <= i < j < |rows| && rows[i].ip == rows[j].ip ==> rows[i].start <= rows[j].start)
  }

  /** It adds up by hour, so an address has one row an hour. */
  ghost predicate Hourly(rows: seq<HourCount>) {
    forall i, j :: 0 <= i < j < |rows| && rows[i].ip == rows[j].ip ==> rows[i].start != rows[j].start
  }

  /** Rows in the order of the query, by address and then by hour, are both; rank is the order of addresses. */
  lemma QueryOrderIsGrouped(rows: seq<HourCount>, rank: string -> int)
    requires forall i, j :: 0 <= i < j < |rows| ==>
               rank(rows[i].ip) < rank(rows[j].ip) || (rows[i].ip == rows[j].ip && rows[i].start < rows[j].start)
    ensures Grouped(rows) && Hourly(rows)
  {
    forall i, j, k | 0 <= i < j < k < |rows| && rows[i].ip == rows[k].ip ensures rows[j].ip == rows[i].ip {
      assert rank(rows[i].ip) <= rank(rows[j].ip) <= rank(rows[k].ip);
    }
  }

  /** The counts of ip in the first n rows over the hours that start after lo and no later than hi. */
  ghost function Volume(rows: seq<HourCount>, n: nat, ip: string, lo: int, hi: int): nat
    requires n <= |rows|
  {
    if n == 0 then 0
    else
      Volume(rows, n - 1, ip, lo, hi)
      + if rows[n - 1].ip == ip && lo < rows[n - 1].start <= hi then rows[n - 1].count else 0
  }

  /** Row j is the one of its address at its hour: the window before it is what it finds, and it adds its own count. */
  lemma {:induction false} VolumeIs(rows: seq<HourCount>, j: nat, n: nat, after: int)
    requires Grouped(rows) && Hourly(rows) && j < |rows| && n <= |rows|
    ensures var ip, t := rows[j].ip, rows[j].start;
            && Volume(rows, n, ip, after, t - 1) == WindowSum(rows, if n <= j then n else j, ip, after)
            && Volume(rows, n, ip, t - 1, t) == if n <= j then 0 else rows[j].count
  {
    hide Grouped, Hourly;
    if n > 0 {
      VolumeIs(rows, j, n - 1, after);
      var k := n - 1;
      if rows[k].ip == rows[j].ip && k != j {
        Later(rows, if k < j then k else j, if k < j then j else k);
      }
    }
  }

  lemma Later(rows: seq<HourCount>, i: nat, j: nat)
    requires Grouped(rows) && Hourly(rows) && i < j < |rows| && rows[i].ip == rows[j].ip
    ensures rows[i].start < rows[j].start
  {
  }

  lemma {:induction false} DetectedRows(rows: seq<HourCount>, n: nat, ip: string, winSec: int, threshold: int, t: int)
    requires n <= |rows|
    ensures t in Expected(rows, n, ip, winSec, threshold).detections
            <==> exists j :: 0 <= j < n && rows[j].ip == ip && rows[j].start == t && Detects(rows, j, winSec, threshold)
  {
    hide Detects;
    if n > 0 {
      DetectedRows(rows, n - 1, ip, winSec, threshold, t);
    }
  }

  /** The rule fires in an hour exactly when the address has events in it, stayed below the threshold over the window up
      to it, and reaches the threshold with it. */
  lemma {:induction false} FiresWhenCrossing(rows: seq<HourCount>, ip: string, winSec: int, threshold: int, t: int)
    requires Grouped(rows) && Hourly(rows) && threshold >= 1
    ensures var before, own := Volume(rows, |rows|, ip, t - winSec, t - 1), Volume(rows, |rows|, ip, t - 1, t);
            t in Expected(rows, |rows|, ip, winSec, threshold).detections
            <==> HasRow(rows, ip, t) && before < threshold <= before + own
  {
    hide Volume, WindowSum, Detects, Expected;
    DetectedRows(rows, |rows|, ip, winSec, threshold, t);
    forall j: nat | j < |rows| && rows[j].ip == ip && rows[j].start == t
      ensures var before, own := Volume(rows, |rows|, ip, t - winSec, t - 1), Volume(rows, |rows|, ip, t - 1, t);
              Detects(rows, j, winSec, threshold) <==> before < threshold <= before + own
    {
      DetectsIsCrossing(rows, j, winSec, threshold);
      VolumeIs(rows, j, |rows|, t - winSec);
    }
  }

  ghost predicate HasRow(rows: seq<HourCount>, ip: string, t: int) {
    exists j :: 0 <= j < |rows| && rows[j].ip == ip && rows[j].start == t
  }

  ghost predicate Ascending(d: seq<int>) {
    forall i, j :: 0 <= i < j < |d| ==> d[i] < d[j]
  }

  /** Detections come in the order of time, each once. */
  lemma {:induction false} DetectionsAscend(rows: seq<HourCount>, n: nat, ip: string, winSec: int, threshold: int)
    requires Grouped(rows) && Hourly(rows) && n <= |rows|
    ensures Ascending(Expected(rows, n, ip, winSec, threshold).detections)
  {
    if n > 0 {
      DetectionsAscend(rows, n - 1, ip, winSec, threshold);
      var d := Expected(rows, n - 1, ip, winSec, threshold).detections;
      hide Detects;
      if rows[n - 1].ip == ip {
        forall i | 0 <= i < |d| ensures d[i] < rows[n - 1].start {
          assert d[i] in d;
          DetectedRows(rows, n - 1, ip, winSec, threshold, d[i]);
        }
        assert Ascending(d + [rows[n - 1].start]);
      }
    }
  }

  /* ---- One address ---- */

  /** Rows of one address in order of time. */
  ghost predicate OneIp(buckets: seq<HourCount>, ip: string) {
    && (forall j :: 0 <= j < |buckets| ==> buckets[j].ip == ip)
    && (forall i, j :: 0 <= i < j < |buckets| ==> buckets[i].start <= buckets[j].start)
  }

  function Total(rows: seq<HourCount>, lo: nat, hi: nat): nat
    requires lo <= hi <= |rows|
  {
    if lo == hi then 0 else Total(rows, lo, hi - 1) + rows[hi - 1].count
  }

  lemma {:induction false} DropFirst(rows: seq<HourCount>, lo: nat, hi: nat)
    requires lo < hi <= |rows|
    ensures Total(rows, lo, hi) == rows[lo].count + Total(rows, lo + 1, hi)
  {
    if lo + 1 < hi {
      DropFirst(rows, lo, hi - 1);
    }
  }

  /** When exactly the rows from lo on are inside the window, their plain sum is the window sum. */
  lemma {:induction false} SuffixIsWindow(buckets: seq<HourCount>, lo: nat, hi: nat, ip: string, after: int)
    requires lo <= hi <= |buckets| && OneIp(buckets, ip)
    requires forall k :: 0 <= k < lo ==> buckets[k].start <= after
    requires forall k :: lo <= k < hi ==> after < buckets[k].start
    ensures WindowSum(buckets, hi, ip, after) == Total(buckets, lo, hi)
    decreases hi
  {
    if hi > 0 {
      SuffixIsWindow(buckets, if lo < hi then lo else hi - 1, hi - 1, ip, after);
    }
  }

  /** The flush closure: slides the window over one address's rows. */
  method SimulateIp(ip: string, buckets: seq<HourCount>, winSec: int, threshold: int) returns (sim: IpSimulation)
    requires OneIp(buckets, ip)
    ensures sim == Expected(buckets, |buckets|, ip, winSec, threshold)
  {
    var events: nat, detections := 0, [];
    var sum, i, fired := 0, 0, false;
    hide WindowSum;
    for j := 0 to |buckets|
      invariant IpSimulation(ip, events, detections) == Expected(buckets, j, ip, winSec, threshold)
      invariant i <= j && sum == Total(buckets, i, j)
      invariant j > 0 ==> forall k :: 0 <= k < i ==> buckets[k].start <= buckets[j - 1].start - winSec
      invariant if j == 0 then !fired else sum >= threshold ==> fired
    {
      events := events + buckets[j].count;
      ghost var carried := sum;
      while i < j && buckets[i].start <= buckets[j].start - winSec
        invariant i <= j && sum == Total(buckets, i, j) && sum <= carried
        invariant forall k :: 0 <= k < i ==> buckets[k].start <= buckets[j].start - winSec
      {
        DropFirst(buckets, i, j);
        sum := sum - buckets[i].count;
        i := i + 1;
      }
      SuffixIsWindow(buckets, i, j, ip, buckets[j].start - winSec);
      if sum < threshold {
        fired := false;
      }
      assert FirstOf(buckets, j) <==> j == 0 by {
        assert j > 0 ==> buckets[0].ip == buckets[j].ip;
      }
      assert !fired <==> sum < threshold || FirstOf(buckets, j);
      sum := sum + buckets[j].count;
      if sum >= threshold && !fired {
        detections := detections + [buckets[j].start];
        fired := true;
      }
    }
    sim := IpSimulation(ip, events, detections);
  }

  /* ---- All addresses ---- */

  /** Rows [lo, hi) are all the rows of ip. */
  ghost predicate IsGroup(rows: seq<HourCount>, lo: nat, hi: nat, ip: string) {
    && lo <= hi <= |rows|
    && forall i :: 0 <= i < |rows| ==> (rows[i].ip == ip <==> lo <= i < hi)
  }

  lemma {:induction false} GroupWindow(rows: seq<HourCount>, lo: nat, hi: nat, n: nat, ip: string, after: int)
    requires IsGroup(rows, lo, hi, ip) && n <= hi - lo
    ensures WindowSum(rows[lo..hi], n, ip, after) == WindowSum(rows, lo + n, ip, after)
  {
    if n == 0 {
      NoneBefore(rows, lo, ip, after);
    } else {
      GroupWindow(rows, lo, hi, n - 1, ip, after);
    }
  }

  lemma {:induction false} GroupDetects(rows: seq<HourCount>, lo: nat, hi: nat, n: nat, ip: string, winSec: int,
                                        threshold: int)
    requires IsGroup(rows, lo, hi, ip) && n < hi - lo
    ensures Detects(rows[lo..hi], n, winSec, threshold) == Detects(rows, lo + n, winSec, threshold)
  {
    GroupWindow(rows, lo, hi, n, ip, rows[lo + n].start - winSec);
    assert FirstOf(rows[lo..hi], n) <==> n == 0 by {
      assert n > 0 ==> rows[lo..hi][0].ip == rows[lo..hi][n].ip;
    }
    assert FirstOf(rows, lo + n) <==> n == 0 by {
      assert n > 0 ==> rows[lo].ip == rows[lo + n].ip;
    }
  }

  /** The outcome on an address's own rows is the outcome on all rows. */
  lemma {:induction false} GroupExpected(rows: seq<HourCount>, lo: nat, hi: nat, n: nat, ip: string, winSec: int,
                                         threshold: int)
    requires IsGroup(rows, lo, hi, ip) && n <= hi - lo
    ensures Expected(rows[lo..hi], n, ip, winSec, threshold) == Expected(rows, lo + n, ip, winSec, threshold)
  {
    if n == 0 {
      Skip(rows, 0, lo, ip, winSec, threshold);
    } else {
      GroupExpected(rows, lo, hi, n - 1, ip, winSec, threshold);
      GroupDetects(rows, lo, hi, n - 1, ip, winSec, threshold);
      hide Detects;
    }
  }

  lemma {:induction false} Skip(rows: seq<HourCount>, lo: nat, hi: nat, ip: string, winSec: int, threshold: int)
    requires lo <= hi <= |rows|
    requires forall i :: lo <= i < hi ==> rows[i].ip != ip
    ensures Expected(rows, hi, ip, winSec, threshold) == Expected(rows, lo, ip, winSec, threshold)
  {
    if lo < hi {
      Skip(rows, lo, hi - 1, ip, winSec, threshold);
    }
  }

  lemma {:induction false} GroupTotal(rows: seq<HourCount>, hi: nat, ip: string, winSec: int, threshold: int)
    requires hi <= |rows|
    requires forall i :: 0 <= i < hi ==> rows[i].ip == ip
    ensures Expected(rows, hi, ip, winSec, threshold).events == Total(rows, 0, hi)
  {
    if hi > 0 {
      GroupTotal(rows, hi - 1, ip, winSec, threshold);
    }
  }

  lemma {:induction false} TotalSplits(rows: seq<HourCount>, lo: nat, mid: nat, hi: nat)
    requires lo <= mid <= hi <= |rows|
    ensures Total(rows, lo, hi) == Total(rows, lo, mid) + Total(rows, mid, hi)
  {
    if mid < hi {
      TotalSplits(rows, lo, mid, hi - 1);
    }
  }

  lemma {:induction false} TotalOfSlice(rows: seq<HourCount>, lo: nat, hi: nat, n: nat)
    requires lo <= hi <= |rows| && n <= hi - lo
    ensures Total(rows[lo..hi], 0, n) == Total(rows, lo, lo + n)
  {
    if n > 0 {
      TotalOfSlice(rows, lo, hi, n - 1);
    }
  }

  function Events(sims: seq<IpSimulation>): nat {
    if sims == [] then 0 else Events(sims[..|sims| - 1]) + sims[|sims| - 1].events
  }

  lemma {:induction false} CutIsGroup(rows: seq<HourCount>, start: nat, i: nat)
    requires Grouped(rows) && start < i <= |rows|
    requires forall k :: start <= k < i ==> rows[k].ip == rows[start].ip
    requires start > 0 ==> rows[start - 1].ip != rows[start].ip
    requires i < |rows| ==> rows[i].ip != rows[start].ip
    ensures IsGroup(rows, start, i, rows[start].ip)
  {
  }

  /** The addresses of rows[..n] in order of first appearance. */
  function Firsts(rows: seq<HourCount>, n: nat): seq<string>
    requires n <= |rows|
  {
    if n == 0 then []
    else
      var rest := Firsts(rows, n - 1);
      if rows[n - 1].ip in rest then rest else rest + [rows[n - 1].ip]
  }

  /** Every address of rows[..n] appears in Firsts, and only those, each once. */
  lemma {:induction false} FirstsCover(rows: seq<HourCount>, n: nat)
    requires n <= |rows|
    ensures forall j :: 0 <= j < n ==> rows[j].ip in Firsts(rows, n)
    ensures forall ip :: ip in Firsts(rows, n) ==> exists j :: 0 <= j < n && rows[j].ip == ip
    ensures forall g, h :: 0 <= g < h < |Firsts(rows, n)| ==> Firsts(rows, n)[g] != Firsts(rows, n)[h]
  {
    if n > 0 {
      FirstsCover(rows, n - 1);
    }
  }

  lemma {:induction false} FirstsOfGroup(rows: seq<HourCount>, start: nat, i: nat, n: nat, ip: string)
    requires IsGroup(rows, start, i, ip) && start < n <= i
    ensures Firsts(rows, n) == Firsts(rows, start) + [ip]
  {
    if n == start + 1 {
      FirstsCover(rows, start);
    } else {
      FirstsOfGroup(rows, start, i, n - 1, ip);
    }
  }

  /** What every listed address is expected to show on all the rows. */
  ghost function Outcomes(rows: seq<HourCount>, ips: seq<string>, winSec: int, threshold: int): seq<IpSimulation> {
    if ips == [] then []
    else
      Outcomes(rows, ips[..|ips| - 1], winSec, threshold)
      + [Expected(rows, |rows|, ips[|ips| - 1], winSec, threshold)]
  }

  lemma {:induction false} OneMore(rows: seq<HourCount>, start: nat, i: nat, ip: string, winSec: int, threshold: int)
    requires start < i && IsGroup(rows, start, i, ip)
    ensures Outcomes(rows, Firsts(rows, i), winSec, threshold)
         == Outcomes(rows, Firsts(rows, start), winSec, threshold) + [Expected(rows, |rows|, ip, winSec, threshold)]
  {
    FirstsOfGroup(rows, start, i, i, ip);
    assert (Firsts(rows, start) + [ip])[..|Firsts(rows, start)|] == Firsts(rows, start);
  }

  lemma {:induction false} MoreEvents(rows: seq<HourCount>, start: nat, i: nat, out: seq<IpSimulation>,
                                      sim: IpSimulation)
    requires start <= i <= |rows|
    requires Events(out) == Total(rows, 0, start) && sim.events == Total(rows, start, i)
    ensures Events(out + [sim]) == Total(rows, 0, i)
  {
    TotalSplits(rows, 0, start, i);
    assert (out + [sim])[..|out|] == out;
  }

  /** The outcome of the address whose rows are rows[start..i]. */
  method SimulateGroup(rows: seq<HourCount>, start: nat, i: nat, winSec: int, threshold: int)
      returns (sim: IpSimulation)
    requires Grouped(rows) && start < i <= |rows| && IsGroup(rows, start, i, rows[start].ip)
    ensures sim == Expected(rows, |rows|, rows[start].ip, winSec, threshold)
    ensures sim.events == Total(rows, start, i)
  {
    hide Expected;
    var ip := rows[i - 1].ip;
    assert ip == rows[start].ip;
    sim := SimulateIp(ip, rows[start..i], winSec, threshold);
    GroupExpected(rows, start, i, i - start, ip, winSec, threshold);
    Skip(rows, i, |rows|, ip, winSec, threshold);
    GroupTotal(rows[start..i], i - start, ip, winSec, threshold);
    TotalOfSlice(rows, start, i, i - start);
  }

  /** rows[start..i] are of one address, which the row before start is not. */
  ghost predicate Scanned(rows: seq<HourCount>, start: nat, i: nat) {
    && start < i <= |rows|
    && (forall k :: start <= k < i ==> rows[k].ip == rows[start].ip)
    && (start > 0 ==> rows[start - 1].ip != rows[start].ip)
  }

  lemma ScanOn(rows: seq<HourCount>, start: nat, i: nat)
    requires Scanned(rows, start, i) && i < |rows|
    ensures rows[i].ip == rows[i - 1].ip ==> Scanned(rows, start, i + 1)
    ensures rows[i].ip != rows[i - 1].ip ==> Scanned(rows, i, i + 1)
  {
  }

  lemma FirstScanned(rows: seq<HourCount>, winSec: int, threshold: int)
    ensures rows != [] ==> Scanned(rows, 0, 1)
    ensures Outcomes(rows, Firsts(rows, 0), winSec, threshold) == [] && Events([]) == Total(rows, 0, 0)
  {
  }

  lemma ScannedGroup(rows: seq<HourCount>, start: nat, i: nat)
    requires Grouped(rows) && Scanned(rows, start, i) && (i < |rows| ==> rows[i].ip != rows[i - 1].ip)
    ensures IsGroup(rows, start, i, rows[start].ip)
  {
    CutIsGroup(rows, start, i);
  }

  /** simulateRule: one outcome per address, in order of first appearance, each what all the rows expect of it,
      and no event lost. */
  method SimulateRule(rows: seq<HourCount>, winSec: int, threshold: int) returns (out: seq<IpSimulation>)
    requires Grouped(rows)
    ensures out == Outcomes(rows, Firsts(rows, |rows|), winSec, threshold)
    ensures Events(out) == Total(rows, 0, |rows|)
  {
    hide *;
    FirstScanned(rows, winSec, threshold);
    out := [];
    var start := 0;
    for i := 1 to |rows| + 1
      invariant i <= |rows| ==> start < i && Scanned(rows, start, i)
      invariant i > |rows| ==> start == |rows|
      invariant out == Outcomes(rows, Firsts(rows, start), winSec, threshold)
      invariant Events(out) == Total(rows, 0, start)
    {
      if i < |rows| {
        ScanOn(rows, start, i);
      }
      if i == |rows| || rows[i].ip != rows[i - 1].ip {
        ScannedGroup(rows, start, i);
        var sim := SimulateGroup(rows, start, i, winSec, threshold);
        OneMore(rows, start, i, rows[start].ip, winSec, threshold);
        MoreEvents(rows, start, i, out, sim);
        out := out + [sim];
        start := i;
      }
    }
  }

  /* ---- The report ---- */

  const IP_CAP := 10

  datatype ReportIp = ReportIp(ip: string, detections: nat, events: nat, allowSource: Option<string>) {
    predicate Allowlisted() {
      allowSource.Some?
    }
  }

  datatype Report = Report(detections: nat, uniqueIPs: nat, allowlistedHits: nat, ips: seq<ReportIp>,
                           truncated: bool, perDay: map<int, nat>)

  /** The order of the sample: allowlisted addresses first, then those that fire most. */
  predicate Less(a: ReportIp, b: ReportIp) {
    if a.Allowlisted() != b.Allowlisted() then a.Allowlisted() else a.detections > b.detections
  }

  function Insert(s: seq<ReportIp>, x: ReportIp): seq<ReportIp> {
    if s == [] || !Less(x, s[|s| - 1]) then s + [x] else Insert(s[..|s| - 1], x) + [s[|s| - 1]]
  }

  /** sort.SliceStable on Less. */
  function StableSort(s: seq<ReportIp>): seq<ReportIp> {
    if s == [] then [] else Insert(StableSort(s[..|s| - 1]), s[|s| - 1])
  }

  /** The elements of s that tie with x, in order. */
  function Ties(s: seq<ReportIp>, x: ReportIp): seq<ReportIp> {
    if s == [] then []
    else
      var rest := Ties(s[..|s| - 1], x);
      var last := s[|s| - 1];
      if Less(last, x) || Less(x, last) then rest else rest + [last]
  }

  ghost predicate Sorted(s: seq<ReportIp>) {
    forall i, j :: 0 <= i < j < |s| ==> !Less(s[j], s[i])
  }

  lemma {:induction false} InsertSorted(s: seq<ReportIp>, x: ReportIp)
    requires Sorted(s)
    ensures Sorted(Insert(s, x))
    ensures |Insert(s, x)| == |s| + 1
    ensures forall e :: e in Insert(s, x) <==> e in s || e == x
  {
    if s != [] && Less(x, s[|s| - 1]) {
      var last := s[|s| - 1];
      InsertSorted(s[..|s| - 1], x);
      assert s == s[..|s| - 1] + [last];
      forall e | e in Insert(s[..|s| - 1], x) ensures !Less(last, e) {}
    }
  }

  lemma {:induction false} InsertTies(s: seq<ReportIp>, x: ReportIp, y: ReportIp)
    ensures Ties(Insert(s, x), y) == Ties(s + [x], y)
  {
    assert (s + [x])[..|s|] == s;
    if s != [] && Less(x, s[|s| - 1]) {
      var init, last := s[..|s| - 1], s[|s| - 1];
      InsertTies(init, x, y);
      assert (init + [x])[..|init|] == init;
      assert (Insert(init, x) + [last])[..|Insert(init, x)|] == Insert(init, x);
    }
  }

  /** The sort is a stable permutation: sorted, and the elements of every tie are the same ones in the same order. */
  lemma {:induction false} StableSortIsStable(s: seq<ReportIp>, x: ReportIp)
    ensures Sorted(StableSort(s)) && |StableSort(s)| == |s|
    ensures Ties(StableSort(s), x) == Ties(s, x)
  {
    if s != [] {
      var init, last := s[..|s| - 1], s[|s| - 1];
      StableSortIsStable(init, x);
      InsertSorted(StableSort(init), last);
      InsertTies(StableSort(init), last, x);
      assert (StableSort(init) + [last])[..|StableSort(init)|] == StableSort(init);
    }
  }

  function Allowed(s: seq<ReportIp>): nat {
    if s == [] then 0 else Allowed(s[..|s| - 1]) + if s[|s| - 1].Allowlisted() then 1 else 0
  }

  lemma {:induction false} InsertAllowed(s: seq<ReportIp>, x: ReportIp)
    ensures Allowed(Insert(s, x)) == Allowed(s) + if x.Allowlisted() then 1 else 0
  {
    if s == [] || !Less(x, s[|s| - 1]) {
      assert (s + [x])[..|s|] == s;
    } else {
      InsertAllowed(s[..|s| - 1], x);
      assert Insert(s, x)[..|Insert(s, x)| - 1] == Insert(s[..|s| - 1], x);
    }
  }

  lemma {:induction false} SortAllowed(s: seq<ReportIp>)
    ensures Allowed(StableSort(s)) == Allowed(s)
  {
    if s != [] {
      SortAllowed(s[..|s| - 1]);
      InsertAllowed(StableSort(s[..|s| - 1]), s[|s| - 1]);
    }
  }

  /** In a sorted list the allowlisted entries are the first ones. */
  lemma {:induction false} AllowedFirst(s: seq<ReportIp>, n: nat)
    requires Sorted(s) && n <= |s|
    ensures Allowed(s[..n]) == if n < Allowed(s) then n else Allowed(s)
    ensures Allowed(s) <= |s|
    decreases |s|
  {
    if s != [] {
      var init := s[..|s| - 1];
      AllowedFirst(init, if n < |s| then n else n - 1);
      if n < |s| {
        assert init[..n] == s[..n];
        AllAllowed(init, s[|s| - 1]);
      } else {
        assert s[..n] == s;
      }
    }
  }

  lemma {:induction false} AllAllowed(s: seq<ReportIp>, last: ReportIp)
    requires Sorted(s) && forall e :: e in s ==> !Less(last, e)
    ensures last.Allowlisted() ==> Allowed(s) == |s|
  {
    if s != [] {
      AllAllowed(s[..|s| - 1], last);
      assert s[|s| - 1] in s;
    }
  }

  /** How many of the detections fall on a day. */
  function OnDay(detections: seq<int>, day: int): nat {
    if detections == [] then 0
    else OnDay(detections[..|detections| - 1], day) + if detections[|detections| - 1] / 86400 == day then 1 else 0
  }

  /** The report's entries before sorting: the addresses with detections, with their allowlist layer. */
  function Entries(sims: seq<IpSimulation>, check: string -> Option<string>): seq<ReportIp> {
    if sims == [] then []
    else
      var rest := Entries(sims[..|sims| - 1], check);
      var sim := sims[|sims| - 1];
      if sim.detections == [] then rest
      else rest + [ReportIp(sim.ip, |sim.detections|, sim.events, check(sim.ip))]
  }

  function AllDetections(sims: seq<IpSimulation>): seq<int> {
    if sims == [] then [] else AllDetections(sims[..|sims| - 1]) + sims[|sims| - 1].detections
  }

  function DayCount(perDay: map<int, nat>, day: int): nat {
    if day in perDay then perDay[day] else 0
  }

  lemma {:induction false} OnDayConcat(a: seq<int>, b: seq<int>, day: int)
    ensures OnDay(a + b, day) == OnDay(a, day) + OnDay(b, day)
  {
    if b == [] {
      assert a + b == a;
    } else {
      OnDayConcat(a, b[..|b| - 1], day);
      assert (a + b)[..|a + b| - 1] == a + b[..|b| - 1];
    }
  }

  lemma NoSims(check: string -> Option<string>)
    ensures AllDetections([]) == [] && Entries([], check) == [] && Allowed([]) == 0
    ensures forall day :: OnDay([], day) == 0
  {
  }

  lemma {:induction false} OneSim(sims: seq<IpSimulation>, i: nat, check: string -> Option<string>)
    requires i < |sims|
    ensures var sim, before, after := sims[i], sims[..i], sims[..i + 1];
            var entry := ReportIp(sim.ip, |sim.detections|, sim.events, check(sim.ip));
            && AllDetections(after) == AllDetections(before) + sim.detections
            && Entries(after, check) == Entries(before, check) + (if sim.detections == [] then [] else [entry])
            && Allowed(Entries(before, check) + [entry])
                    == Allowed(Entries(before, check)) + (if entry.Allowlisted() then 1 else 0)
    ensures forall day ::
              OnDay(AllDetections(sims[..i + 1]), day)
                      == OnDay(AllDetections(sims[..i]), day) + OnDay(sims[i].detections, day)
    ensures sims[i].detections == [] ==> forall day :: OnDay(sims[i].detections, day) == 0
  {
    var sim := sims[i];
    var entry := ReportIp(sim.ip, |sim.detections|, sim.events, check(sim.ip));
    assert sims[..i + 1][..i] == sims[..i];
    assert (Entries(sims[..i], check) + [entry])[..|Entries(sims[..i], check)|] == Entries(sims[..i], check);
    forall day
      ensures OnDay(AllDetections(sims[..i + 1]), day)
           == OnDay(AllDetections(sims[..i]), day) + OnDay(sim.detections, day)
    {
      OnDayConcat(AllDetections(sims[..i]), sim.detections, day);
    }
  }

  /** Adds one address's detections to the day counts. */
  method CountDays(perDay: map<int, nat>, detections: seq<int>) returns (r: map<int, nat>)
    ensures forall day :: DayCount(r, day) == DayCount(perDay, day) + OnDay(detections, day)
  {
    r := perDay;
    for i := 0 to |detections|
      invariant forall day :: DayCount(r, day) == DayCount(perDay, day) + OnDay(detections[..i], day)
    {
      var day := detections[i] / 86400;
      assert detections[..i + 1][..i] == detections[..i];
      r := r[day := DayCount(r, day) + 1];
    }
    assert detections[..|detections|] == detections;
  }

  /** The sample: sorted, and cut at the cap. */
  function Shown(entries: seq<ReportIp>): seq<ReportIp> {
    var sorted := StableSort(entries);
    if |sorted| > IP_CAP then sorted[..IP_CAP] else sorted
  }

  /** The tally, sort and truncation of evaluateRuleAgainstStore; check is the allowlist lookup.
      The sample keeps allowlisted addresses first, but no more than IP_CAP of them. */
  method MakeReport(sims: seq<IpSimulation>, check: string -> Option<string>) returns (r: Report)
    ensures r.detections == |AllDetections(sims)|
    ensures r.uniqueIPs == |Entries(sims, check)|
    ensures r.allowlistedHits == Allowed(Entries(sims, check))
    ensures forall day :: DayCount(r.perDay, day) == OnDay(AllDetections(sims), day)
    ensures r.truncated <==> r.uniqueIPs > IP_CAP
    ensures r.ips == Shown(Entries(sims, check))
  {
    var detections, unique, hits, ips := 0, 0, 0, [];
    var perDay: map<int, nat> := map[];
    hide Entries, AllDetections, OnDay, Allowed, StableSort;
    NoSims(check);
    for i := 0 to |sims|
      invariant detections == |AllDetections(sims[..i])|
      invariant ips == Entries(sims[..i], check) && unique == |ips| && hits == Allowed(ips)
      invariant forall day :: DayCount(perDay, day) == OnDay(AllDetections(sims[..i]), day)
    {
      var sim := sims[i];
      OneSim(sims, i, check);
      if |sim.detections| == 0 {
        continue;
      }
      detections, unique := detections + |sim.detections|, unique + 1;
      var entry := ReportIp(sim.ip, |sim.detections|, sim.events, check(sim.ip));
      if entry.Allowlisted() {
        hits := hits + 1;
      }
      ips := ips + [entry];
      perDay := CountDays(perDay, sim.detections);
    }
    assert sims[..|sims|] == sims;
    StableSortIsStable(ips, ReportIp("", 0, 0, None));
    ips := StableSort(ips);
    var truncated := |ips| > IP_CAP;
    r := Report(detections, unique, hits, if truncated then ips[..IP_CAP] else ips, truncated, perDay);
  }

  /** The sample shows every allowlisted address that fires exactly when there are at most IP_CAP of them. */
  lemma {:induction false} AllowlistedShown(entries: seq<ReportIp>)
    ensures Allowed(Shown(entries)) == Allowed(entries) <==> Allowed(entries) <= IP_CAP
    ensures Allowed(entries) > IP_CAP ==> Allowed(Shown(entries)) == IP_CAP
  {
    var sorted := StableSort(entries);
    StableSortIsStable(entries, ReportIp("", 0, 0, None));
    SortAllowed(entries);
    AllowedFirst(sorted, if |sorted| > IP_CAP then IP_CAP else |sorted|);
  }

  lemma {:induction false} SortKeepsAll(s: seq<ReportIp>)
    ensures multiset(StableSort(s)) == multiset(s)
  {
    if s != [] {
      var init, last := s[..|s| - 1], s[|s| - 1];
      SortKeepsAll(init);
      InsertKeepsAll(StableSort(init), last);
      assert s == init + [last];
    }
  }

  lemma {:induction false} InsertKeepsAll(s: seq<ReportIp>, x: ReportIp)
    ensures multiset(Insert(s, x)) == multiset(s) + multiset{x}
  {
    if s != [] && Less(x, s[|s| - 1]) {
      InsertKeepsAll(s[..|s| - 1], x);
      assert s == s[..|s| - 1] + [s[|s| - 1]];
    }
  }

  /** Of two entries the first may stand before the second: it is allowlisted and the other not, or they are alike in
      that and it has no fewer detections. */
  ghost predicate InSampleOrder(a: ReportIp, b: ReportIp) {
    || (a.allowSource.Some? && b.allowSource.None?)
    || ((a.allowSource.Some? <==> b.allowSource.Some?) && a.detections >= b.detections)
  }

  /** The sample is the ten entries that come first, in order: what is left out comes after all of them. */
  lemma {:induction false} SampleIsTop(entries: seq<ReportIp>) returns (dropped: seq<ReportIp>)
    ensures var shown := Shown(entries);
            && multiset(shown) + multiset(dropped) == multiset(entries)
            && |shown| == (if |entries| > 10 then 10 else |entries|)
            && (forall i, j :: 0 <= i < j < |shown| ==> InSampleOrder(shown[i], shown[j]))
            && forall a, b :: a in shown && b in dropped ==> InSampleOrder(a, b)
  {
    var sorted := StableSort(entries);
    StableSortIsStable(entries, ReportIp("", 0, 0, None));
    SortKeepsAll(entries);
    var k := if |sorted| > 10 then 10 else |sorted|;
    assert sorted[..|sorted|] == sorted;
    assert Shown(entries) == sorted[..k];
    assert |entries| == |sorted|;
    hide *;
    dropped := sorted[k..];
    Halves(sorted, k);
    SortedInOrder(sorted, k);
  }

  lemma Halves(s: seq<ReportIp>, k: nat)
    requires k <= |s|
    ensures multiset(s[..k]) + multiset(s[k..]) == multiset(s)
  {
    assert s == s[..k] + s[k..];
  }

  lemma SortedInOrder(s: seq<ReportIp>, k: nat)
    requires Sorted(s) && k <= |s|
    ensures forall i, j :: 0 <= i < j < |s| ==> InSampleOrder(s[i], s[j])
    ensures forall a, b :: a in s[..k] && b in s[k..] ==> InSampleOrder(a, b)
  {
    forall a, b | a in s[..k] && b in s[k..] ensures InSampleOrder(a, b) {
      var i :| 0 <= i < k && s[i] == a;
      var j :| k <= j < |s| && s[j] == b;
    }
  }

  /** The entries are the addresses with detections, as they were simulated and looked up. */
  lemma {:induction false} EntriesAre(sims: seq<IpSimulation>, check: string -> Option<string>, e: ReportIp)
    ensures e in Entries(sims, check) <==>
            exists sim :: sim in sims && sim.detections != [] && e.ip == sim.ip && e.detections == |sim.detections|
                          && e.events == sim.events && e.allowSource == check(sim.ip)
  {
    if sims != [] {
      var n := |sims| - 1;
      EntriesAre(sims[..n], check, e);
      assert sims == sims[..n] + [sims[n]];
    }
  }

  ghost function Hits(entries: seq<ReportIp>): nat {
    if entries == [] then 0 else Hits(entries[..|entries| - 1]) + entries[|entries| - 1].detections
  }

  /** The report's total is the sum over its addresses. */
  lemma {:induction false} HitsAddUp(sims: seq<IpSimulation>, check: string -> Option<string>)
    ensures Hits(Entries(sims, check)) == |AllDetections(sims)|
  {
    if sims != [] {
      HitsAddUp(sims[..|sims| - 1], check);
    }
  }

  /** A day is counted for each detection between its midnight and the next. */
  lemma {:induction false} OnDayCounts(detections: seq<int>, day: int)
    ensures OnDay(detections, day)
         == |set i | 0 <= i < |detections| && day * 86_400 <= detections[i] < (day + 1) * 86_400|
  {
    if detections != [] {
      var n := |detections| - 1;
      var init := detections[..n];
      OnDayCounts(init, day);
      var before := set i | 0 <= i < n && day * 86_400 <= init[i] < (day + 1) * 86_400;
      var all := set i | 0 <= i < n + 1 && day * 86_400 <= detections[i] < (day + 1) * 86_400;
      if day * 86_400 <= detections[n] < (day + 1) * 86_400 {
        assert all == before + {n};
      } else {
        assert all == before;
      }
    }
  }

  /* ---- More than ten that fire ---- */

  /** Rows of different addresses, each of which reaches the threshold by itself. */
  ghost predicate AllFire(rows: seq<HourCount>, threshold: int) {
    && threshold >= 1
    && (forall i, j :: 0 <= i < j < |rows| ==> rows[i].ip != rows[j].ip)
    && forall i :: 0 <= i < |rows| ==> rows[i].count >= threshold
  }

  lemma {:induction false} FiresAlone(rows: seq<HourCount>, n: nat, j: nat, winSec: int, threshold: int)
    requires AllFire(rows, threshold) && j < n <= |rows|
    ensures Expected(rows, n, rows[j].ip, winSec, threshold).detections != []
  {
    if n - 1 == j {
      NoneBefore(rows, j, rows[j].ip, rows[j].start - winSec);
      assert Detects(rows, j, winSec, threshold);
    } else {
      FiresAlone(rows, n - 1, j, winSec, threshold);
    }
  }

  lemma {:induction false} FirstsOfDistinct(rows: seq<HourCount>, n: nat)
    requires n <= |rows| && forall i, j :: 0 <= i < j < |rows| ==> rows[i].ip != rows[j].ip
    ensures |Firsts(rows, n)| == n && forall i :: 0 <= i < n ==> Firsts(rows, n)[i] == rows[i].ip
  {
    if n > 0 {
      FirstsOfDistinct(rows, n - 1);
    }
  }

  lemma {:induction false} AllAllowedFire(rows: seq<HourCount>, n: nat, winSec: int, threshold: int,
                                          check: string -> Option<string>)
    requires AllFire(rows, threshold) && n <= |rows|
    requires forall i :: 0 <= i < |rows| ==> check(rows[i].ip).Some?
    ensures |Firsts(rows, n)| == n
    ensures Allowed(Entries(Outcomes(rows, Firsts(rows, n), winSec, threshold), check)) == n
  {
    FirstsOfDistinct(rows, n);
    if n > 0 {
      AllAllowedFire(rows, n - 1, winSec, threshold, check);
      FirstsOfDistinct(rows, n - 1);
      FiresAlone(rows, |rows|, n - 1, winSec, threshold);
      hide Expected, Firsts;
      var rest, ip := Firsts(rows, n - 1), rows[n - 1].ip;
      assert Firsts(rows, n) == rest + [ip];
      assert (rest + [ip])[..|rest|] == rest;
      var sims, sim := Outcomes(rows, rest, winSec, threshold), Expected(rows, |rows|, ip, winSec, threshold);
      assert (sims + [sim])[..|sims|] == sims;
      OneMoreAllowed(Entries(sims, check), ReportIp(ip, |sim.detections|, sim.events, check(ip)));
    }
  }

  lemma OneMoreAllowed(entries: seq<ReportIp>, entry: ReportIp)
    requires entry.Allowlisted()
    ensures Allowed(entries + [entry]) == Allowed(entries) + 1
  {
    assert (entries + [entry])[..|entries|] == entries;
  }

  /** An address of its own for each of eleven rows. */
  function Address(i: nat): string {
    "2001:db8::" + [if i < 10 then '0' + i as char else 'a']
  }

  /** Eleven addresses with one event in the same hour, all allowlisted, and a rule that fires on one event: all eleven
      are hits, and the sample shows ten. */
  lemma ElevenAllowlisted()
    ensures var rows := seq(11, i requires 0 <= i < 11 => HourCount(Address(i), 0, 1));
            var entries := Entries(Outcomes(rows, Firsts(rows, 11), 3600, 1), _ => Some("policy"));
            Grouped(rows) && Allowed(entries) == 11 && Allowed(Shown(entries)) == 10
  {
    var rows := seq(11, i requires 0 <= i < 11 => HourCount(Address(i), 0, 1));
    forall i, j | 0 <= i < j < 11 ensures rows[i].ip != rows[j].ip {
      AddressesDiffer(i, j);
    }
    var check: string -> Option<string> := _ => Some("policy");
    hide Address, Shown, Outcomes, Firsts, Allowed, Entries;
    AllAllowedFire(rows, 11, 3600, 1, check);
    AllowlistedShown(Entries(Outcomes(rows, Firsts(rows, 11), 3600, 1), check));
  }

  lemma AddressesDiffer(i: nat, j: nat)
    requires i < j < 11
    ensures Address(i) != Address(j)
  {
    var s, t := Address(i), Address(j);
    assert s[|s| - 1] != t[|t| - 1];
  }
}
