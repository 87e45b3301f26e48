/** A run that leaves an address with as many slots as it can have. */
module SlotRuns {
  import opened Aggregator
  import opened BucketTime
  import opened Ledger
  import opened Net

  function Beat(n: int, bucket: int): Entry {
    Entry(Boundary(n, bucket), Event(Boundary(n, bucket), V4(1), "k", map[], "", ""), [])
  }

  /** One event at the start of each of k buckets in a row. */
  function Beats(k: nat, bucket: int): seq<Op> {
    if k == 0 then [] else Beats(k - 1, bucket) + [EventIn(Beat(k - 1, bucket))]
  }

  lemma {:induction false} Quotient(n: int, b: int)
    requires b > 0
    ensures (n * b) / b == n
  {
    Floor(n * b, b);
    LessFactor((n * b) / b, n + 1, b);
    LessFactor(n, (n * b) / b + 1, b);
  }

  lemma {:induction false} BoundaryStarts(n: int, bucket: int)
    requires WholeSeconds(bucket)
    ensures StartOf(bucket)(Boundary(n, bucket)) == Boundary(n, bucket)
    ensures SlotKey(Boundary(n, bucket), bucket) == KeyAt(n, bucket)
  {
    SlotHolds(Boundary(n, bucket), bucket);
    Quotient(n, bucket);
    assert Boundary(n, bucket) + YEAR_ONE * SECOND == n * bucket;
    hide SlotKey, Boundary;
    assert SlotKey(Boundary(n, bucket), bucket) * SECOND == Boundary(n, bucket);
  }

  /** With room for one raw event, an event that nothing is too old for moves the one before it to its slot. */
  lemma {:induction false} PushOut(l: Ledger, e: Entry, c: Config)
    requires l.WellFormed() && l.RawCount() == 1 && c.maxSamp == 1
    requires forall i :: i in l.live ==> SlotFrom(l.received, i, e.at - c.maxWindow, c)
    requires e.at - c.maxWindow <= l.received[l.rawFrom].at
    ensures var r := Arrive(l, e, c);
            r.received == l.received + [e] && r.rawFrom == l.rawFrom + 1 && r.live == l.live + {l.rawFrom}
  {
    var cutoff := e.at - c.maxWindow;
    var a := Append(l, e, cutoff);
    assert FirstKept(a.received, a.rawFrom, cutoff) == a.rawFrom;
    assert forall i :: i in l.live ==> SlotFrom(a.received, i, cutoff, c);
    var t := Trim(a, cutoff, c);
    assert t.live == l.live && t.rawFrom == l.rawFrom && Surplus(t, c) == 1;
    assert Positions(l.rawFrom, l.rawFrom + 1) == {l.rawFrom};
  }

  /** The ledger after k such events and, for repeat, one more at the last boundary. */
  ghost predicate AllBut(l: Ledger, k: nat, bucket: int) {
    && l.WellFormed() && |l.received| >= k && l.rawFrom == |l.received| - 1
    && (forall i :: 0 <= i < k ==> l.received[i] == Beat(i, bucket))
    && l.live == Positions(0, l.rawFrom)
  }

  lemma {:induction false} BeatsAscend(i: int, j: int, bucket: int)
    requires bucket > 0 && i <= j
    ensures Boundary(i, bucket) <= Boundary(j, bucket)
  {
    assert i * bucket <= j * bucket;
  }

  lemma {:induction false} OneMoreBeat(l: Ledger, k: nat, m: nat, n: nat, bucket: int)
    requires WholeSeconds(bucket) && 0 < k == |l.received| && AllBut(l, k, bucket) && k - 1 <= m <= n && n > 0
    ensures var r := Arrive(l, Beat(m, bucket), Setup(1, n * bucket, bucket));
            r.received == l.received + [Beat(m, bucket)] && AllBut(r, k, bucket)
  {
    var c := Setup(1, n * bucket, bucket);
    var cutoff := Boundary(m, bucket) - n * bucket;
    assert cutoff == Boundary(m - n, bucket) by {
      assert m * bucket - n * bucket == (m - n) * bucket;
    }
    hide Boundary, SlotKey, StartOf, Arrive;
    forall i: nat | i < k ensures SlotFrom(l.received, i, cutoff, c) {
      BoundaryStarts(i, bucket);
      BeatsAscend(m - n, i, bucket);
    }
    BeatsAscend(m - n, k - 1, bucket);
    PushOut(l, Beat(m, bucket), c);
    assert Positions(0, k) == Positions(0, k - 1) + {k - 1};
  }

  lemma FirstBeat(c: Config, bucket: int)
    requires c.Valid()
    ensures var r := Arrive(Run([], c), Beat(0, bucket), c); |r.received| == 1 && AllBut(r, 1, bucket)
  {
    hide Arrive, Boundary;
    FirstArrival(Beat(0, bucket), c);
    assert Positions(0, 0) == {};
  }

  lemma {:induction false} BeatsFill(k: nat, n: nat, bucket: int, c: Config)
    requires WholeSeconds(bucket) && 0 < k <= n + 1 && n > 0 && c.Valid() && c == Setup(1, n * bucket, bucket)
    ensures var r := Run(Beats(k, bucket), c); |r.received| == k && AllBut(r, k, bucket)
  {
    hide *;
    LastBeat(k, bucket, c);
    if k == 1 {
      FirstBeat(c, bucket);
    } else {
      BeatsFill(k - 1, n, bucket, c);
      OneMoreBeat(Run(Beats(k - 1, bucket), c), k - 1, k - 1, n, bucket);
      LastIs(Run(Beats(k - 1, bucket), c).received, Beat(k - 1, bucket));
      MoreBut(Run(Beats(k, bucket), c), k, bucket);
    }
  }

  lemma LastIs<T>(s: seq<T>, x: T)
    ensures |s + [x]| == |s| + 1 && (s + [x])[|s|] == x
  {
  }

  lemma LastBeat(k: nat, bucket: int, c: Config)
    requires k > 0
    ensures Run(Beats(k, bucket), c) == Arrive(Run(Beats(k - 1, bucket), c), Beat(k - 1, bucket), c)
    ensures Beats(0, bucket) == []
  {
    hide Arrive;
    RunStep(Beats(k - 1, bucket), EventIn(Beat(k - 1, bucket)), c);
  }

  lemma MoreBut(r: Ledger, k: nat, bucket: int)
    requires k > 0 && |r.received| == k && r.received[k - 1] == Beat(k - 1, bucket) && AllBut(r, k - 1, bucket)
    ensures AllBut(r, k, bucket)
  {
  }

  /** The run that fills every slot: an event at the start of each bucket of a window of n, both ends included, and one
      more at the last. */
  function FullRun(n: nat, bucket: int): seq<Op> {
    Beats(n + 1, bucket) + [EventIn(Beat(n, bucket))]
  }

  lemma {:induction false} BeatsInOrder(h: seq<Entry>, n: nat, bucket: int)
    requires bucket > 0 && |h| == n + 2 && h[n + 1] == Beat(n, bucket)
    requires forall i :: 0 <= i <= n ==> h[i] == Beat(i, bucket)
    ensures InOrder(h)
  {
    forall i, j | 0 <= i < j < |h| ensures h[i].at <= h[j].at {
      BeatsAscend(if i <= n then i else n, if j <= n then j else n, bucket);
    }
  }

  /** The bound on slots is reached, for every bucket width and number of buckets, by events in order with room for one
      raw event: n buckets in the window, n + 1 slots. */
  lemma {:induction false} SlotBoundIsReached(n: nat, bucket: int, overflow: map<int, Slot>)
    requires WholeSeconds(bucket) && n > 0
    requires var r := Run(FullRun(n, bucket), Setup(1, n * bucket, bucket));
             SlotsRepresent(overflow, r.received, r.live, KeyOf(bucket))
    ensures InOrder(Run(FullRun(n, bucket), Setup(1, n * bucket, bucket)).received)
    ensures BucketsIn(n * bucket, bucket) == n && |overflow| == n + 1
  {
    var c := Setup(1, n * bucket, bucket);
    var r := Run(FullRun(n, bucket), c);
    Quotient(n, bucket);
    LessFactor(0, n, bucket);
    SetupIsValid(1, n * bucket, bucket);
    BeatsFill(n + 1, n, bucket, c);
    RunStep(Beats(n + 1, bucket), EventIn(Beat(n, bucket)), c);
    hide Arrive, Setup, Run;
    OneMoreBeat(Run(Beats(n + 1, bucket), c), n + 1, n, n, bucket);
    BeatsInOrder(r.received, n, bucket);
    SlotsOfBeats(overflow, r, n, bucket);
  }

  lemma {:induction false} SlotsOfBeats(overflow: map<int, Slot>, r: Ledger, n: nat, bucket: int)
    requires WholeSeconds(bucket) && |r.received| == n + 2 && AllBut(r, n + 1, bucket)
    requires SlotsRepresent(overflow, r.received, r.live, KeyOf(bucket))
    ensures |overflow| == n + 1
  {
    forall i: nat | i <= n ensures i in r.live && KeyOf(bucket)(r.received[i].at) == KeyAt(i, bucket) {
      BoundaryStarts(i, bucket);
    }
    hide Tally, SlotKey, KeyAt;
    forall k | k in overflow.Keys ensures OnBoundary(k, 0, n + 1, bucket) {
      var i :| i in AtKey(r.received, r.live, k, KeyOf(bucket));
      KeyOnBoundary(i, n, bucket);
    }
    assert AllTaken(overflow.Keys, 0, n + 1, bucket) by {
      forall i | 0 <= i < n + 1 ensures KeyAt(i, bucket) in overflow.Keys {
        assert i in r.live;
      }
    }
    KeysBound(overflow.Keys, 0, n + 1, bucket);
    assert |overflow| == |overflow.Keys|;
  }

  lemma KeyOnBoundary(i: nat, n: nat, bucket: int)
    requires WholeSeconds(bucket) && i <= n
    ensures OnBoundary(KeyAt(i, bucket), 0, n + 1, bucket)
  {
    BoundaryStarts(i, bucket);
    SlotHolds(Boundary(i, bucket), bucket);
    Quotient(i, bucket);
    assert Boundary(i, bucket) + YEAR_ONE * SECOND == i * bucket;
    assert KeyAt(i, bucket) * SECOND == Boundary(i, bucket);
  }

  lemma DefaultWidth()
    ensures BucketWidth(MINUTE) == 5 * SECOND && WholeSeconds(5 * SECOND)
  {
  }

  /** The histories after k events, all of one address. */
  ghost function BeatHistories(k: nat, bucket: int): map<Addr, seq<Op>> {
    if k == 0 then map[] else map[V4(1) := Beats(k, bucket)]
  }

  lemma HistoryGrows(k: nat, bucket: int)
    ensures Then(BeatHistories(k, bucket), V4(1), EventIn(Beat(k, bucket))) == BeatHistories(k + 1, bucket)
  {
    var op := EventIn(Beat(k, bucket));
    assert Beats(k + 1, bucket) == Beats(k, bucket) + [op];
    assert At(BeatHistories(k, bucket), V4(1)) == Beats(k, bucket);
  }

  /** An aggregator with windows of a minute and an hour and room for one raw event. */
  method MinuteAndHour() returns (a: Aggregator)
    ensures fresh(a) && a.Valid() && a.buckets == map[] && a.histories == BeatHistories(0, 5 * SECOND)
    ensures a.maxWindow == 60 * MINUTE && a.bucket == 5 * SECOND && a.maxSamp == 1 && a.maxIPs == 0
    ensures a.maxWindow == 720 * a.bucket && forall ev :: a.classify(ev) == []
  {
    DefaultWidth();
    var windows := [MINUTE, 60 * MINUTE];
    assert windows[0] == MINUTE && windows[1] == 60 * MINUTE;
    assert forall w :: w in windows ==> w == MINUTE || w == 60 * MINUTE;
    assert MINUTE in windows && 60 * MINUTE in windows;
    a := new Aggregator(windows, 1, 0, _ => []);
  }

  /** 722 calls of Add after which an address has 721 slots where 720 are documented: windows of a minute and an hour,
      so buckets of 5 s, and room for one raw event. */
  method FillEverySlot() returns (a: Aggregator)
    ensures a.Valid() && a.maxWindow == 60 * MINUTE && a.bucket == 5 * SECOND && a.maxSamp == 1
    ensures a.histories == map[V4(1) := FullRun(720, 5 * SECOND)]
    ensures V4(1) in a.buckets && |a.buckets[V4(1)].overflow| == 721
  {
    hide Run, Then, LastSeen, Boundary, BeatHistories, FullRun, BucketWidth, Represents;
    a := MinuteAndHour();
    for i := 0 to 721
      invariant a.Valid() && a.maxIPs == 0
      invariant fresh(a) && fresh(a.buckets.Values)
      invariant a.histories == BeatHistories(i, 5 * SECOND)
    {
      HistoryGrows(i, 5 * SECOND);
      assert a.EntryOf(Beat(i, 5 * SECOND).ev) == Beat(i, 5 * SECOND);
      ghost var evicted := a.Add(Beat(i, 5 * SECOND).ev);
    }
    ghost var before := a.histories;
    ghost var evicted := a.Add(Beat(720, 5 * SECOND).ev);
    LastGrows(before, 5 * SECOND);
    CountSlots(a);
  }

  lemma LastGrows(histories: map<Addr, seq<Op>>, bucket: int)
    requires histories == BeatHistories(721, bucket)
    ensures Then(histories, V4(1), EventIn(Beat(720, bucket))) == map[V4(1) := FullRun(720, bucket)]
  {
    hide Beats;
  }

  lemma CountSlots(a: Aggregator)
    requires a.Valid() && a.maxWindow == 720 * a.bucket && a.maxSamp == 1
    requires V4(1) in a.buckets && a.histories == map[V4(1) := FullRun(720, a.bucket)]
    ensures |a.buckets[V4(1)].overflow| == 721
  {
    assert a.Stored(V4(1));
    hide Run, FullRun, SlotsRepresent, WholeSeconds;
    SlotBoundIsReached(720, a.bucket, a.buckets[V4(1)].overflow);
  }
}
