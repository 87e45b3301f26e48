/** What the aggregator stands for: per address, the list of events received and the fate of each.
    Every received event is in the raw sample, in one overflow slot, or dropped. */
module Ledger {
  import opened Net

  datatype Event = Event(at: int, ip: Addr, kind: string, fields: map<string, string>, origin: string, raw: string)

  /** An event with the extra counter kinds the classifier gave it. */
  datatype Entry = Entry(at: int, ev: Event, counters: seq<string>)

  /** Counts of events and of kinds. A Go map from kind to count reads an absent kind as 0, so it is a multiset. */
  datatype Slot = Slot(events: nat, kinds: multiset<string>) {
    function Plus(s: Slot): Slot {
      Slot(events + s.events, kinds + s.kinds)
    }

    predicate AtMost(s: Slot) {
      events <= s.events && kinds <= s.kinds
    }
  }

  const Nothing := Slot(0, multiset{})

  function One(e: Entry): Slot {
    Slot(1, multiset{e.ev.kind} + multiset(e.counters))
  }

  /* ---- Totals over a choice of events ---- */

  /** The totals of the events of h at the picked positions. */
  ghost function Tally(h: seq<Entry>, pick: set<nat>): Slot {
    if h == [] then Nothing
    else
      var n := |h| - 1;
      var rest := Tally(h[..n], pick);
      if n in pick then rest.Plus(One(h[n])) else rest
  }

  lemma {:induction false} TallyUnion(h: seq<Entry>, s: set<nat>, t: set<nat>)
    requires s !! t
    ensures Tally(h, s + t) == Tally(h, s).Plus(Tally(h, t))
  {
    if h != [] {
      TallyUnion(h[..|h| - 1], s, t);
    }
  }

  lemma {:induction false} TallySingle(h: seq<Entry>, i: nat)
    requires i < |h|
    ensures Tally(h, {i}) == One(h[i])
  {
    var n := |h| - 1;
    if i < n {
      TallySingle(h[..n], i);
    } else {
      TallyNone(h[..n], {i});
    }
  }

  lemma {:induction false} TallyNone(h: seq<Entry>, s: set<nat>)
    requires forall i :: i in s ==> |h| <= i
    ensures Tally(h, s) == Nothing
  {
    if h != [] {
      TallyNone(h[..|h| - 1], s);
    }
  }

  lemma {:induction false} TallyAdd(h: seq<Entry>, s: set<nat>, i: nat)
    requires i < |h| && i !in s
    ensures Tally(h, s + {i}) == Tally(h, s).Plus(One(h[i]))
  {
    TallyUnion(h, s, {i});
    TallySingle(h, i);
  }

  lemma {:induction false} TallyAppend(h: seq<Entry>, e: Entry, s: set<nat>)
    requires |h| !in s
    ensures Tally(h + [e], s) == Tally(h, s)
  {
    assert (h + [e])[..|h|] == h;
  }

  lemma {:induction false} TallyMonotone(h: seq<Entry>, s: set<nat>, t: set<nat>)
    requires s <= t
    ensures Tally(h, s).AtMost(Tally(h, t))
  {
    if h != [] {
      TallyMonotone(h[..|h| - 1], s, t);
    }
  }

  /** A choice counts something exactly when it picks a position of h. */
  lemma {:induction false} TallyPositive(h: seq<Entry>, s: set<nat>)
    ensures Tally(h, s).events > 0 <==> exists i :: i in s && i < |h|
  {
    if i :| i in s && i < |h| {
      TallyAdd(h, s - {i}, i);
      assert s - {i} + {i} == s;
    } else {
      TallyNone(h, s);
    }
  }

  /** How often kind k is counted over the picked events: once for each event of that kind, and once more for every
      counter of that name. */
  ghost function KindCount(h: seq<Entry>, pick: set<nat>, k: string): nat {
    if h == [] then 0
    else
      var n := |h| - 1;
      KindCount(h[..n], pick, k)
      + if n in pick then (if h[n].ev.kind == k then 1 else 0) + multiset(h[n].counters)[k] else 0
  }

  /** The totals count every picked event once, under its own kind and under each of its counters. */
  lemma {:induction false} TallyCounts(h: seq<Entry>, pick: set<nat>)
    requires forall i :: i in pick ==> i < |h|
    ensures Tally(h, pick).events == |pick|
    ensures forall k :: Tally(h, pick).kinds[k] == KindCount(h, pick, k)
  {
    TallyEvents(h, pick);
    TallyKinds(h, pick);
  }

  lemma {:induction false} TallyEvents(h: seq<Entry>, pick: set<nat>)
    requires forall i :: i in pick ==> i < |h|
    ensures Tally(h, pick).events == |pick|
    decreases |pick|
  {
    if pick == {} {
      TallyNone(h, pick);
    } else {
      var i :| i in pick;
      TallyEvents(h, pick - {i});
      TallyAdd(h, pick - {i}, i);
      assert pick - {i} + {i} == pick;
    }
  }

  lemma {:induction false} TallyKinds(h: seq<Entry>, pick: set<nat>)
    ensures forall k :: Tally(h, pick).kinds[k] == KindCount(h, pick, k)
  {
    if h != [] {
      TallyKinds(h[..|h| - 1], pick);
    }
  }

  /* ---- The ledger of one address ---- */

  /** How an aggregator is set up: its sample cap, its longest window, and its overflow buckets, given by
      their width and by the start of the bucket that holds a time. */
  datatype Config = Config(maxSamp: nat, maxWindow: int, width: int, start: int -> int) {
    ghost predicate Valid() {
      && maxSamp > 0
      && maxWindow > 0
      && (forall t :: start(t) <= t < start(t) + width)
      && (forall s, t :: start(t) <= s <= t ==> start(s) == start(t))
    }
  }

  /** received: the events since the address was last reset or evicted.
      rawFrom: the raw sample is received[rawFrom..].
      live: the positions now counted in an overflow slot; capped: those the sample cap ever evicted.
      horizon: the latest cutoff anything was trimmed to. */
  datatype Ledger = Ledger(received: seq<Entry>, rawFrom: nat, live: set<nat>, capped: set<nat>, horizon: int) {
    ghost predicate WellFormed() {
      && rawFrom <= |received|
      && live <= capped
      && (forall i :: i in capped ==> i < rawFrom)
    }

    ghost function RawCount(): int {
      |received| - rawFrom
    }
  }

  const Empty := Ledger([], 0, {}, {}, 0)

  function Max(a: int, b: int): int {
    if a < b then b else a
  }

  /** The first position from `from` on whose event is not older than cutoff. */
  ghost function FirstKept(h: seq<Entry>, from: nat, cutoff: int): (n: nat)
    requires from <= |h|
    ensures from <= n <= |h|
    ensures forall i :: from <= i < n ==> h[i].at < cutoff
    ensures n < |h| ==> cutoff <= h[n].at
    decreases |h| - from
  {
    if from == |h| || cutoff <= h[from].at then from else FirstKept(h, from + 1, cutoff)
  }

  /** Whether the bucket of event i starts at or after cutoff. */
  ghost predicate SlotFrom(h: seq<Entry>, i: nat, cutoff: int, c: Config) {
    i < |h| && cutoff <= c.start(h[i].at)
  }

  /** Drops the leading raw entries older than cutoff and every slot starting before it;
      an address left without raw entries keeps no slots. */
  ghost function Trim(l: Ledger, cutoff: int, c: Config): (r: Ledger)
    requires l.WellFormed()
    ensures r.WellFormed()
  {
    var from := FirstKept(l.received, l.rawFrom, cutoff);
    var live := if from == |l.received| then {} else set i | i in l.live && SlotFrom(l.received, i, cutoff, c);
    l.(rawFrom := from, live := live, horizon := Max(l.horizon, cutoff))
  }

  ghost function Positions(lo: nat, hi: nat): (r: set<nat>)
    ensures forall i :: i in r <==> lo <= i < hi
  {
    if hi <= lo then {} else Positions(lo, hi - 1) + {hi - 1}
  }

  /** Moves the n oldest raw entries to the overflow slots. */
  ghost function Fold(l: Ledger, n: nat): (r: Ledger)
    requires l.WellFormed() && n <= l.RawCount()
    ensures r.WellFormed()
  {
    var moved := Positions(l.rawFrom, l.rawFrom + n);
    l.(rawFrom := l.rawFrom + n, live := l.live + moved, capped := l.capped + moved)
  }

  ghost function Append(l: Ledger, e: Entry, cutoff: int): (r: Ledger)
    requires l.WellFormed()
    ensures r.WellFormed()
  {
    l.(received := l.received + [e], horizon := if l.received == [] then cutoff else l.horizon)
  }

  ghost function Surplus(l: Ledger, c: Config): nat
    requires l.WellFormed()
  {
    if l.RawCount() > c.maxSamp then l.RawCount() - c.maxSamp else 0
  }

  ghost function Settle(l: Ledger, cutoff: int, c: Config): (r: Ledger)
    requires l.WellFormed()
    ensures r.WellFormed()
  {
    var trimmed := Trim(l, cutoff, c);
    Fold(trimmed, Surplus(trimmed, c))
  }

  /** An event arrives. */
  ghost function Arrive(l: Ledger, e: Entry, c: Config): (r: Ledger)
    requires l.WellFormed()
    ensures r.WellFormed()
  {
    Settle(Append(l, e, e.at - c.maxWindow), e.at - c.maxWindow, c)
  }

  /** A flush reaches the address. An address without raw entries has no bucket to flush. */
  ghost function Flushed(l: Ledger, cutoff: int, c: Config): (r: Ledger)
    requires l.WellFormed()
    ensures r.WellFormed()
  {
    if l.RawCount() == 0 then l else Trim(l, cutoff, c)
  }

  /* ---- What a query counts ---- */

  ghost function InWindow(h: seq<Entry>, cutoff: int): set<nat> {
    set i: nat | i < |h| && cutoff <= h[i].at
  }

  ghost function RawCounted(l: Ledger, cutoff: int): set<nat>
    requires l.WellFormed()
  {
    set i: nat | l.rawFrom <= i < |l.received| && cutoff <= l.received[i].at
  }

  ghost function LiveCounted(l: Ledger, cutoff: int, c: Config): set<nat>
    requires l.WellFormed()
  {
    set i | i in l.live && SlotFrom(l.received, i, cutoff, c)
  }

  ghost function Counted(l: Ledger, cutoff: int, c: Config): set<nat>
    requires l.WellFormed()
  {
    RawCounted(l, cutoff) + LiveCounted(l, cutoff, c)
  }

  /** The capped events inside the window whose bucket the cutoff cuts in two. */
  ghost function Straddling(l: Ledger, cutoff: int, c: Config): set<nat>
    requires l.WellFormed()
  {
    set i | i in l.capped && i in InWindow(l.received, cutoff) && !SlotFrom(l.received, i, cutoff, c)
  }

  /** The events of h[lo..hi] not older than cutoff, in order. */
  function Since(h: seq<Entry>, lo: nat, hi: nat, cutoff: int): seq<Event>
    requires lo <= hi <= |h|
  {
    if lo == hi then []
    else
      var rest := Since(h, lo, hi - 1, cutoff);
      if cutoff <= h[hi - 1].at then rest + [h[hi - 1].ev] else rest
  }

  /** The events not older than cutoff among the last n of h. */
  function Newest(h: seq<Entry>, n: nat, cutoff: int): seq<Event> {
    Since(h, if |h| > n then |h| - n else 0, |h|, cutoff)
  }

  ghost function Sample(l: Ledger, cutoff: int): seq<Event>
    requires l.WellFormed()
  {
    Since(l.received, l.rawFrom, |l.received|, cutoff)
  }

  ghost predicate InOrder(h: seq<Entry>) {
    forall i, j :: 0 <= i < j < |h| ==> h[i].at <= h[j].at
  }

  /** The stateless meaning of a query on a list of events: the last maxSamp count one by one,
      the older ones by whole buckets. */
  ghost function Reference(h: seq<Entry>, cutoff: int, c: Config): set<nat> {
    set i | i in InWindow(h, cutoff) && (|h| - c.maxSamp <= i || SlotFrom(h, i, cutoff, c))
  }

  /** While the sample has room for all events, a query means every event that is not older than its cutoff. */
  lemma WithinTheCap(h: seq<Entry>, cutoff: int, c: Config)
    requires |h| <= c.maxSamp
    ensures forall i: nat :: i in Reference(h, cutoff, c) <==> i < |h| && h[i].at >= cutoff
  {
  }

  /* ---- Soundness, in any order of event times ---- */

  /** Only in-window events are counted, each once. */
  lemma {:induction false} CountsOnlyTheWindow(l: Ledger, cutoff: int, c: Config)
    requires l.WellFormed() && c.Valid()
    ensures Counted(l, cutoff, c) <= InWindow(l.received, cutoff)
    ensures Tally(l.received, Counted(l, cutoff, c)).AtMost(Tally(l.received, InWindow(l.received, cutoff)))
  {
    forall i | i in Counted(l, cutoff, c) ensures i in InWindow(l.received, cutoff) {
      assert c.start(l.received[i].at) <= l.received[i].at;
    }
    TallyMonotone(l.received, Counted(l, cutoff, c), InWindow(l.received, cutoff));
  }

  /** A longer window counts at least as much. */
  lemma {:induction false} LongerWindowCountsMore(l: Ledger, early: int, late: int, c: Config)
    requires l.WellFormed()
    requires early <= late
    ensures Tally(l.received, Counted(l, late, c)).AtMost(Tally(l.received, Counted(l, early, c)))
  {
    TallyMonotone(l.received, Counted(l, late, c), Counted(l, early, c));
  }

  /* ---- The invariant of every run ---- */

  /** What is gone was older than the horizon: not in a live slot only if its bucket starts before the
      horizon, and if the cap never took it, itself older than the horizon. */
  ghost predicate GoneIsOld(l: Ledger, c: Config)
    requires l.WellFormed()
  {
    forall i: nat :: i < l.rawFrom ==>
      && (i in l.live || !SlotFrom(l.received, i, l.horizon, c))
      && (i in l.capped || l.received[i].at < l.horizon)
  }

  /** Either the sample is full or everything before it is older than the horizon. */
  ghost predicate FullOrOld(l: Ledger, c: Config)
    requires l.WellFormed()
  {
    l.RawCount() >= c.maxSamp || forall i: nat :: i < l.rawFrom ==> l.received[i].at < l.horizon
  }

  ghost predicate LiveFrom(l: Ledger, cutoff: int, c: Config)
    requires l.WellFormed()
  {
    forall i :: i in l.live ==> SlotFrom(l.received, i, cutoff, c)
  }

  ghost predicate OneSlot(l: Ledger, c: Config)
    requires l.WellFormed()
  {
    forall i, j :: i in l.live && j in l.live ==> c.start(l.received[i].at) == c.start(l.received[j].at)
  }

  /** Live slots start inside the longest window, or there is one only: a slot that the fold after a trim makes in the
      bucket the cutoff cuts in two leaves no other. */
  ghost predicate LiveIsRecent(l: Ledger, c: Config)
    requires l.WellFormed()
  {
    OneSlot(l, c) || LiveFrom(l, l.received[|l.received| - 1].at - c.maxWindow, c)
  }

  /** What holds in any order of event times. */
  ghost predicate Sized(l: Ledger, c: Config) {
    && l.WellFormed()
    && l.RawCount() <= c.maxSamp
    && (l.RawCount() == 0 ==> l.live == {})
    && (l.received != [] ==> l.received[|l.received| - 1].at - c.maxWindow <= l.horizon)
  }

  /** What holds as well while event times are in order. */
  ghost predicate Ordered(l: Ledger, c: Config)
    requires l.WellFormed()
  {
    && GoneIsOld(l, c)
    && FullOrOld(l, c)
    && LiveIsRecent(l, c)
  }

  ghost predicate Consistent(l: Ledger, c: Config) {
    Sized(l, c) && (InOrder(l.received) ==> Ordered(l, c))
  }

  lemma {:induction false} TrimKeepsGoneIsOld(l: Ledger, cutoff: int, c: Config)
    requires l.WellFormed() && c.Valid()
    requires InOrder(l.received) && GoneIsOld(l, c)
    requires l.RawCount() > 0
    ensures GoneIsOld(Trim(l, cutoff, c), c)
    ensures FullOrOld(l, c) ==> FullOrOld(Trim(l, cutoff, c), c)
  {
    var r := Trim(l, cutoff, c);
    if r.rawFrom > l.rawFrom {
      assert l.received[r.rawFrom - 1].at < cutoff;
    }
    forall i: nat | i < r.rawFrom
      ensures i in r.live || !SlotFrom(r.received, i, r.horizon, c)
      ensures i in r.capped || r.received[i].at < r.horizon
    {
      assert c.start(r.received[i].at) <= r.received[i].at;
    }
  }

  /** The order kept just after an event is appended, before its trim. */
  ghost predicate Appended(a: Ledger, c: Config) {
    a.WellFormed() && InOrder(a.received) && a.RawCount() > 0 && GoneIsOld(a, c) && FullOrOld(a, c)
  }

  lemma {:induction false} AppendKeepsOrder(l: Ledger, e: Entry, cutoff: int, c: Config)
    requires Consistent(l, c)
    requires InOrder(l.received + [e])
    ensures Appended(Append(l, e, cutoff), c)
  {
    var a := Append(l, e, cutoff);
    assert forall i :: 0 <= i < |l.received| ==> l.received[i] == a.received[i];
    assert InOrder(l.received);
    forall i: nat | i < a.rawFrom
      ensures i in a.live || !SlotFrom(a.received, i, a.horizon, c)
      ensures i in a.capped || a.received[i].at < a.horizon
    {
      assert SlotFrom(a.received, i, a.horizon, c) == SlotFrom(l.received, i, l.horizon, c);
    }
  }

  lemma {:induction false} SettleKeepsOrder(a: Ledger, cutoff: int, c: Config)
    requires c.Valid() && Appended(a, c)
    ensures GoneIsOld(Settle(a, cutoff, c), c)
    ensures FullOrOld(Settle(a, cutoff, c), c)
  {
    TrimKeepsGoneIsOld(a, cutoff, c);
  }

  /** The sizes an arrival leaves: the newest event stays raw, and no more than maxSamp do. */
  lemma {:induction false} ArriveSizes(l: Ledger, e: Entry, c: Config)
    requires l.WellFormed() && c.Valid()
    ensures var r := Arrive(l, e, c);
            && 0 < r.RawCount() <= c.maxSamp
            && r.received == l.received + [e]
            && e.at - c.maxWindow <= r.horizon
  {
    assert (l.received + [e])[|l.received|] == e;
  }

  /** Later events have later buckets. */
  lemma StartsAscend(c: Config, s: int, t: int)
    requires c.Valid() && s <= t
    ensures c.start(s) <= c.start(t)
  {
    if c.start(t) <= s {
      assert c.start(s) == c.start(t);
    }
  }

  lemma {:induction false} ArriveKeepsRecent(l: Ledger, e: Entry, c: Config)
    requires Sized(l, c) && c.Valid()
    requires InOrder(l.received + [e])
    ensures LiveIsRecent(Arrive(l, e, c), c)
  {
    var cutoff := e.at - c.maxWindow;
    var t := Trim(Append(l, e, cutoff), cutoff, c);
    TrimmedAt(l, e, cutoff, c);
    ArriveSizes(l, e, c);
    assert Arrive(l, e, c) == Fold(t, Surplus(t, c));
    assert (l.received + [e])[|l.received|] == e;
    hide Append, Trim, Sized, InOrder, LiveFrom, OneSlot, Fold, Arrive;
    if Surplus(t, c) == 0 {
      FoldNone(t);
    } else {
      FoldedSlot(t, cutoff, c);
    }
  }

  lemma TrimmedAt(l: Ledger, e: Entry, cutoff: int, c: Config)
    requires Sized(l, c) && c.Valid()
    ensures var t := Trim(Append(l, e, cutoff), cutoff, c);
            t.received == l.received + [e] && LiveFrom(t, cutoff, c) && Surplus(t, c) <= 1
  {
  }

  lemma FoldNone(t: Ledger)
    requires t.WellFormed()
    ensures Fold(t, 0) == t
  {
    assert Positions(t.rawFrom, t.rawFrom) == {};
  }

  lemma {:induction false} FoldedSlot(t: Ledger, cutoff: int, c: Config)
    requires t.WellFormed() && c.Valid() && InOrder(t.received) && LiveFrom(t, cutoff, c) && Surplus(t, c) == 1
    ensures OneSlot(Fold(t, 1), c) || LiveFrom(Fold(t, 1), cutoff, c)
  {
    var p := t.rawFrom;
    var r := Fold(t, 1);
    assert r.live == t.live + {p};
    forall i | i in t.live ensures cutoff <= c.start(t.received[i].at) <= c.start(t.received[p].at) {
      StartsAscend(c, t.received[i].at, t.received[p].at);
    }
  }

  lemma {:induction false} ArriveKeepsGoneIsOld(l: Ledger, e: Entry, c: Config)
    requires c.Valid() && l.WellFormed()
    requires Appended(Append(l, e, e.at - c.maxWindow), c)
    ensures GoneIsOld(Arrive(l, e, c), c) && FullOrOld(Arrive(l, e, c), c)
  {
    SettleKeepsOrder(Append(l, e, e.at - c.maxWindow), e.at - c.maxWindow, c);
  }

  lemma {:induction false} ArriveKeepsOrdered(l: Ledger, e: Entry, c: Config)
    requires c.Valid() && Consistent(l, c)
    requires InOrder(l.received + [e])
    ensures Ordered(Arrive(l, e, c), c)
  {
    AppendKeepsOrder(l, e, e.at - c.maxWindow, c);
    ArriveKeepsGoneIsOld(l, e, c);
    ArriveKeepsRecent(l, e, c);
  }

  lemma {:induction false} ArriveKeepsConsistent(l: Ledger, e: Entry, c: Config)
    requires c.Valid() && Consistent(l, c)
    ensures Consistent(Arrive(l, e, c), c)
  {
    ArriveSizes(l, e, c);
    if InOrder(l.received + [e]) {
      ArriveKeepsOrdered(l, e, c);
    }
  }

  lemma {:induction false} FlushKeepsConsistent(l: Ledger, cutoff: int, c: Config)
    requires c.Valid() && Consistent(l, c)
    ensures Consistent(Flushed(l, cutoff, c), c)
  {
    if l.RawCount() > 0 && InOrder(l.received) {
      TrimKeepsGoneIsOld(l, cutoff, c);
    }
  }

  /* ---- Completeness, with event times in order ---- */

  /** At or after the horizon the state counts exactly what the stateless meaning counts. */
  lemma {:induction false} CountedIsReference(l: Ledger, cutoff: int, c: Config)
    requires c.Valid() && Consistent(l, c) && InOrder(l.received)
    requires l.horizon <= cutoff
    ensures Counted(l, cutoff, c) == Reference(l.received, cutoff, c)
  {
    CountsOnlyTheWindow(l, cutoff, c);
    forall i: nat | i in InWindow(l.received, cutoff)
      ensures i in Counted(l, cutoff, c) <==> i in Reference(l.received, cutoff, c)
    {
      assert SlotFrom(l.received, i, cutoff, c) ==> SlotFrom(l.received, i, l.horizon, c);
    }
  }

  lemma {:induction false} StraddlingLies(l: Ledger, cutoff: int, c: Config, i: nat)
    requires l.WellFormed() && c.Valid()
    requires i in Straddling(l, cutoff, c)
    ensures cutoff <= l.received[i].at < cutoff + c.width
    ensures c.start(l.received[i].at) == c.start(cutoff)
  {
  }

  lemma {:induction false} CountedOrStraddling(l: Ledger, cutoff: int, c: Config)
    requires c.Valid() && l.WellFormed() && GoneIsOld(l, c)
    requires l.horizon <= cutoff
    ensures Counted(l, cutoff, c) !! Straddling(l, cutoff, c)
    ensures Counted(l, cutoff, c) + Straddling(l, cutoff, c) == InWindow(l.received, cutoff)
  {
    CountsOnlyTheWindow(l, cutoff, c);
    forall i: nat | i in InWindow(l.received, cutoff)
      ensures i in Counted(l, cutoff, c) <==> i !in Straddling(l, cutoff, c)
    {
      assert SlotFrom(l.received, i, cutoff, c) ==> SlotFrom(l.received, i, l.horizon, c);
    }
  }

  /** What a query misses is exactly the capped events its cutoff's own bucket holds. */
  lemma {:induction false} MissesOnlyStraddling(l: Ledger, cutoff: int, c: Config)
    requires c.Valid() && Consistent(l, c) && InOrder(l.received)
    requires l.horizon <= cutoff
    ensures Tally(l.received, Counted(l, cutoff, c)).Plus(Tally(l.received, Straddling(l, cutoff, c)))
         == Tally(l.received, InWindow(l.received, cutoff))
    ensures forall i :: i in Straddling(l, cutoff, c) ==>
              cutoff <= l.received[i].at < cutoff + c.width && c.start(l.received[i].at) == c.start(cutoff)
  {
    CountedOrStraddling(l, cutoff, c);
    TallyUnion(l.received, Counted(l, cutoff, c), Straddling(l, cutoff, c));
    forall i | i in Straddling(l, cutoff, c)
      ensures cutoff <= l.received[i].at < cutoff + c.width && c.start(l.received[i].at) == c.start(cutoff)
    {
      StraddlingLies(l, cutoff, c, i);
    }
  }

  /** A query counts everything when its cutoff is a bucket boundary or the cap was never hit. */
  lemma {:induction false} ExactOnBoundary(l: Ledger, cutoff: int, c: Config)
    requires c.Valid() && Consistent(l, c) && InOrder(l.received)
    requires l.horizon <= cutoff
    requires c.start(cutoff) == cutoff || l.capped == {}
    ensures Tally(l.received, Counted(l, cutoff, c)) == Tally(l.received, InWindow(l.received, cutoff))
  {
    MissesOnlyStraddling(l, cutoff, c);
    TallyNone(l.received, Straddling(l, cutoff, c));
  }

  /* ---- The sample ---- */

  lemma {:induction false} SinceDropsOld(h: seq<Entry>, lo: nat, mid: nat, hi: nat, cutoff: int)
    requires lo <= mid <= hi <= |h|
    requires forall i :: lo <= i < mid ==> h[i].at < cutoff
    ensures Since(h, lo, hi, cutoff) == Since(h, mid, hi, cutoff)
    decreases hi
  {
    if lo < hi {
      SinceDropsOld(h, lo, if mid < hi then mid else hi - 1, hi - 1, cutoff);
    }
  }

  lemma {:induction false} SinceKeepsNew(h: seq<Entry>, lo: nat, hi: nat, cutoff: int)
    requires lo <= hi <= |h|
    requires forall i :: lo <= i < hi ==> cutoff <= h[i].at
    ensures |Since(h, lo, hi, cutoff)| == hi - lo
    ensures forall i :: lo <= i < hi ==> Since(h, lo, hi, cutoff)[i - lo] == h[i].ev
  {
    if lo < hi {
      SinceKeepsNew(h, lo, hi - 1, cutoff);
    }
  }

  /** A sample is empty exactly when every raw entry is too old. */
  lemma {:induction false} SinceEmpty(h: seq<Entry>, lo: nat, hi: nat, cutoff: int)
    requires lo <= hi <= |h|
    ensures Since(h, lo, hi, cutoff) == [] <==> forall i :: lo <= i < hi ==> h[i].at < cutoff
  {
    if lo < hi {
      SinceEmpty(h, lo, hi - 1, cutoff);
    }
  }

  lemma {:induction false} SinceIsTail(h: seq<Entry>, lo: nat, cutoff: int)
    requires InOrder(h) && lo <= |h|
    ensures var from := Max(FirstKept(h, 0, cutoff), lo);
            && |Since(h, lo, |h|, cutoff)| == |h| - from
            && forall i :: from <= i < |h| ==> Since(h, lo, |h|, cutoff)[i - from] == h[i].ev
  {
    var from: nat := Max(FirstKept(h, 0, cutoff), lo);
    SinceDropsOld(h, lo, from, |h|, cutoff);
    SinceKeepsNew(h, from, |h|, cutoff);
  }

  /** With times in order the sample is the last min(maxSamp, in-window) events received, in arrival order. */
  lemma {:induction false} SampleIsNewest(l: Ledger, cutoff: int, c: Config)
    requires Consistent(l, c) && InOrder(l.received)
    requires l.horizon <= cutoff
    ensures var from := Max(FirstKept(l.received, 0, cutoff), |l.received| - c.maxSamp);
            && |Sample(l, cutoff)| == |l.received| - from
            && forall i :: from <= i < |l.received| ==> Sample(l, cutoff)[i - from] == l.received[i].ev
  {
    SinceIsTail(l.received, l.rawFrom, cutoff);
    var first := FirstKept(l.received, 0, cutoff);
    if first < l.rawFrom {
      assert cutoff <= l.received[first].at;
      assert l.RawCount() == c.maxSamp;
    }
  }

  /** The raw entries that came to the sample before the last maxSamp events never show. */
  lemma {:induction false} SampleIsReference(l: Ledger, cutoff: int, c: Config)
    requires Consistent(l, c) && InOrder(l.received)
    requires l.horizon <= cutoff
    ensures Sample(l, cutoff) == Newest(l.received, c.maxSamp, cutoff)
  {
    SinceDropsOld(l.received, Max(0, |l.received| - c.maxSamp), l.rawFrom, |l.received|, cutoff);
  }

  /** A query that counts an event shows one, when times are in order. */
  lemma {:induction false} CountHasSample(l: Ledger, cutoff: int, c: Config)
    requires c.Valid() && Sized(l, c) && InOrder(l.received)
    ensures CountsAndShows(l, cutoff, c)
  {
    TallyPositive(l.received, Counted(l, cutoff, c));
    CountsOnlyTheWindow(l, cutoff, c);
    SinceEmpty(l.received, l.rawFrom, |l.received|, cutoff);
    if i :| i in Counted(l, cutoff, c) {
      assert l.received[i].at <= l.received[|l.received| - 1].at;
    }
  }

  ghost predicate CountsAndShows(l: Ledger, cutoff: int, c: Config)
    requires l.WellFormed()
  {
    Tally(l.received, Counted(l, cutoff, c)).events > 0 ==> Sample(l, cutoff) != []
  }

  /** The slot of position i starts no later than some raw entry. */
  ghost predicate RawReaches(l: Ledger, i: nat, c: Config)
    requires l.WellFormed() && i < |l.received|
  {
    exists j: nat :: l.rawFrom <= j < |l.received| && c.start(l.received[i].at) <= l.received[j].at
  }

  lemma {:induction false} ShownSlotIsReached(l: Ledger, i: nat, c: Config)
    requires l.WellFormed() && i in l.live
    requires CountsAndShows(l, c.start(l.received[i].at), c)
    ensures RawReaches(l, i, c)
  {
    var cutoff := c.start(l.received[i].at);
    assert i in Counted(l, cutoff, c);
    TallyPositive(l.received, Counted(l, cutoff, c));
    SinceEmpty(l.received, l.rawFrom, |l.received|, cutoff);
  }

  lemma {:induction false} ReachedSlotIsShown(l: Ledger, cutoff: int, c: Config)
    requires l.WellFormed()
    requires forall i :: i in l.live ==> RawReaches(l, i, c)
    ensures CountsAndShows(l, cutoff, c)
  {
    TallyPositive(l.received, Counted(l, cutoff, c));
    SinceEmpty(l.received, l.rawFrom, |l.received|, cutoff);
  }

  /** In any order: every query that counts an event shows one exactly when no overflow slot
      starts after all the raw entries. */
  lemma {:induction false} CountHasSampleIff(l: Ledger, c: Config)
    requires l.WellFormed()
    ensures (forall cutoff :: CountsAndShows(l, cutoff, c)) <==> (forall i :: i in l.live ==> RawReaches(l, i, c))
  {
    if forall cutoff :: CountsAndShows(l, cutoff, c) {
      forall i | i in l.live ensures RawReaches(l, i, c) {
        ShownSlotIsReached(l, i, c);
      }
    } else {
      var cutoff :| !CountsAndShows(l, cutoff, c);
      if forall i :: i in l.live ==> RawReaches(l, i, c) {
        ReachedSlotIsShown(l, cutoff, c);
      }
    }
  }

  /* ---- Trimming is invisible ---- */

  /** A flush changes no query whose window starts at or after its cutoff, when times are in order. */
  lemma {:induction false} FlushIsInvisible(l: Ledger, flushed: int, cutoff: int, c: Config)
    requires c.Valid() && l.WellFormed() && InOrder(l.received)
    requires flushed <= cutoff
    ensures Counted(Flushed(l, flushed, c), cutoff, c) == Counted(l, cutoff, c)
    ensures Sample(Flushed(l, flushed, c), cutoff) == Sample(l, cutoff)
  {
    if l.RawCount() > 0 {
      var r := Flushed(l, flushed, c);
      SinceDropsOld(l.received, l.rawFrom, r.rawFrom, |l.received|, cutoff);
      if r.rawFrom > l.rawFrom {
        assert l.received[r.rawFrom - 1].at < flushed;
      }
      forall i: nat | i in Counted(l, cutoff, c) ensures i in Counted(r, cutoff, c) {
        assert c.start(l.received[i].at) <= l.received[i].at;
      }
    }
  }

  /* ---- Whole runs ---- */

  /** What can happen to one address: an event, a flush that reaches it, a reset or an eviction. */
  datatype Op = EventIn(e: Entry) | FlushTo(cutoff: int) | Forget

  ghost function Step(l: Ledger, op: Op, c: Config): (r: Ledger)
    requires l.WellFormed()
    ensures r.WellFormed()
  {
    match op
    case EventIn(e) => Arrive(l, e, c)
    case FlushTo(cutoff) => Flushed(l, cutoff, c)
    case Forget => Empty
  }

  ghost function Run(ops: seq<Op>, c: Config): (r: Ledger)
    ensures r.WellFormed()
  {
    if ops == [] then Empty
    else Step(Run(ops[..|ops| - 1], c), ops[|ops| - 1], c)
  }

  lemma {:induction false} RunStep(ops: seq<Op>, op: Op, c: Config)
    ensures Run(ops + [op], c) == Step(Run(ops, c), op, c)
  {
    assert (ops + [op])[..|ops|] == ops;
  }

  /** The events since the last Forget. */
  ghost function Received(ops: seq<Op>): seq<Entry> {
    if ops == [] then []
    else
      var rest := Received(ops[..|ops| - 1]);
      match ops[|ops| - 1]
      case EventIn(e) => rest + [e]
      case FlushTo(_) => rest
      case Forget => []
  }

  /** The earliest cutoff a run still answers for: every flush cutoff and every event time
      less the longest window, since the last Forget, lies at or before it. */
  ghost predicate Answerable(ops: seq<Op>, c: Config, cutoff: int) {
    ops != [] ==>
      match ops[|ops| - 1]
      case EventIn(e) => e.at - c.maxWindow <= cutoff && Answerable(ops[..|ops| - 1], c, cutoff)
      case FlushTo(flushed) => flushed <= cutoff && Answerable(ops[..|ops| - 1], c, cutoff)
      case Forget => true
  }

  /** A query no longer than the longest window is answerable when no event lies in the future and no flush went past
      that window. */
  lemma {:induction false} PresentIsAnswerable(ops: seq<Op>, c: Config, window: int, now: int)
    requires window <= c.maxWindow
    requires forall op :: op in ops && op.EventIn? ==> op.e.at <= now
    requires forall op :: op in ops && op.FlushTo? ==> op.cutoff <= now - c.maxWindow
    ensures Answerable(ops, c, now - window)
  {
    if ops != [] {
      assert ops[|ops| - 1] in ops;
      PresentIsAnswerable(ops[..|ops| - 1], c, window, now);
    }
  }

  lemma {:induction false} RunIsConsistent(ops: seq<Op>, c: Config)
    requires c.Valid()
    ensures Consistent(Run(ops, c), c)
    ensures Run(ops, c).received == Received(ops)
  {
    if ops != [] {
      var before := ops[..|ops| - 1];
      RunIsConsistent(before, c);
      var l := Run(before, c);
      match ops[|ops| - 1]
      case EventIn(e) => ArriveKeepsConsistent(l, e, c);
      case FlushTo(flushed) => FlushKeepsConsistent(l, flushed, c);
      case Forget =>
    }
  }

  lemma {:induction false} HorizonOfRun(ops: seq<Op>, cutoff: int, c: Config)
    requires Answerable(ops, c, cutoff)
    ensures var r := Run(ops, c); r.received != [] ==> r.horizon <= cutoff
  {
    if ops != [] && !ops[|ops| - 1].Forget? {
      HorizonOfRun(ops[..|ops| - 1], cutoff, c);
    }
  }

  /** Over every run, with event times in order, a query the run still answers for is the stateless
      meaning of the list of events received: no cap, slot, trim or flush shows in it. */
  lemma {:induction false} EveryRunMeansItsEvents(ops: seq<Op>, cutoff: int, c: Config)
    requires c.Valid()
    requires InOrder(Received(ops)) && Answerable(ops, c, cutoff)
    ensures var r, h := Run(ops, c), Received(ops);
            && Counted(r, cutoff, c) == Reference(h, cutoff, c)
            && Sample(r, cutoff) == Newest(h, c.maxSamp, cutoff)
  {
    RunIsConsistent(ops, c);
    HorizonOfRun(ops, cutoff, c);
    var r := Run(ops, c);
    hide *;
    if r.received == [] {
      NothingReceived(r, cutoff, c);
    } else {
      CountedIsReference(r, cutoff, c);
      SampleIsReference(r, cutoff, c);
    }
  }

  lemma NothingReceived(r: Ledger, cutoff: int, c: Config)
    requires r.WellFormed() && r.received == []
    ensures Counted(r, cutoff, c) == Reference([], cutoff, c) == {}
    ensures Sample(r, cutoff) == Newest([], c.maxSamp, cutoff)
  {
  }

  /** Out of order, an event can be counted with nothing to show: with room for one raw event, an event
      followed by one from an earlier bucket leaves a slot that starts after every raw entry. */
  lemma {:induction false} CountWithoutSample(late: Entry, early: Entry, c: Config)
    requires c.Valid() && c.maxSamp == 1
    requires early.at < c.start(late.at)
    ensures !CountsAndShows(Run([EventIn(late), EventIn(early)], c), c.start(late.at), c)
  {
    var ops := [EventIn(late), EventIn(early)];
    assert ops[..1] == [EventIn(late)] && ops[..1][..0] == [];
    var l1 := Arrive(Empty, late, c);
    var l := Arrive(l1, early, c);
    assert l == Run(ops, c) by {
      assert Run(ops[..1], c) == l1;
    }
    FirstArrival(late, c);
    assert l.received == [late, early];
    assert 0 in l.live && l.rawFrom == 1;
    hide Arrive, Run, CountsAndShows;
    CountsAlone(l, c.start(late.at), c);
  }

  lemma {:induction false} FirstArrival(e: Entry, c: Config)
    requires c.Valid()
    ensures Arrive(Empty, e, c) == Ledger([e], 0, {}, {}, e.at - c.maxWindow)
  {
    assert Append(Empty, e, e.at - c.maxWindow).received == [e];
  }

  /** A live slot from cutoff on counts, though no raw entry is that young. */
  lemma {:induction false} CountsAlone(l: Ledger, cutoff: int, c: Config)
    requires l.WellFormed()
    requires 0 in LiveCounted(l, cutoff, c)
    requires forall j :: l.rawFrom <= j < |l.received| ==> l.received[j].at < cutoff
    ensures !CountsAndShows(l, cutoff, c)
  {
    TallyPositive(l.received, Counted(l, cutoff, c));
    assert 0 in Counted(l, cutoff, c);
    SinceEmpty(l.received, l.rawFrom, |l.received|, cutoff);
  }
}
