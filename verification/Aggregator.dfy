/** The per-address sliding-window aggregator: a capped raw sample, overflow buckets for what the cap
    evicts, lazy trimming and an LRU cap on addresses. Its ghost ledgers say what it stands for. */
module Aggregator {
  import opened BucketTime
  import opened Ledger
  import opened Net
  import opened Options

  const DEFAULT_MAX_SAMPLES := 4096

  function KeyOf(bucket: int): int -> int
    requires bucket > 0
  {
    at => SlotKey(at, bucket)
  }

  function StartOf(bucket: int): int -> int
    requires bucket > 0
  {
    at => SlotKey(at, bucket) * SECOND
  }

  ghost predicate SameGrid(key: int -> int, start: int -> int) {
    forall at :: start(at) == key(at) * SECOND
  }

  ghost function Setup(maxSamp: nat, maxWindow: int, bucket: int): Config
    requires bucket > 0
  {
    Config(maxSamp, maxWindow, bucket, StartOf(bucket))
  }

  lemma {:induction false} SetupIsValid(maxSamp: nat, maxWindow: int, bucket: int)
    requires WholeSeconds(bucket) && maxSamp > 0 && maxWindow > 0
    ensures Setup(maxSamp, maxWindow, bucket).Valid()
    ensures SameGrid(KeyOf(bucket), StartOf(bucket))
  {
    var start := StartOf(bucket);
    forall t ensures start(t) <= t < start(t) + bucket {
      SlotHolds(t, bucket);
    }
    forall s, t | start(t) <= s <= t ensures start(s) == start(t) {
      SlotHolds(t, bucket);
      SlotMonotone(s, t, bucket);
      SlotRespectsBoundary(s, bucket, (t + YEAR_ONE * SECOND) / bucket);
    }
  }

  /* ---- How the stored state represents a ledger ---- */

  ghost function AtKey(h: seq<Entry>, live: set<nat>, k: int, key: int -> int): set<nat> {
    set i | i in live && i < |h| && key(h[i].at) == k
  }

  ghost predicate SlotsRepresent(overflow: map<int, Slot>, h: seq<Entry>, live: set<nat>, key: int -> int) {
    && (forall i :: i in live && i < |h| ==> key(h[i].at) in overflow)
    && (forall k :: k in overflow ==> overflow[k] == Tally(h, AtKey(h, live, k, key)) && AtKey(h, live, k, key) != {})
  }

  ghost predicate Represents(entries: seq<Entry>, overflow: map<int, Slot>, l: Ledger, key: int -> int) {
    && l.WellFormed()
    && entries == l.received[l.rawFrom..]
    && SlotsRepresent(overflow, l.received, l.live, key)
  }

  ghost predicate IsMin(overflow: map<int, Slot>, min: int) {
    overflow != map[] ==> min in overflow && forall k :: k in overflow ==> min <= k
  }

  ghost function SlotAt(overflow: map<int, Slot>, k: int): Slot {
    if k in overflow then overflow[k] else Nothing
  }

  lemma {:induction false} MinOfLarger(overflow: map<int, Slot>, k: int, min: int)
    requires k !in overflow && IsMin(overflow, min)
    ensures IsMin(overflow[k := Nothing], if |overflow[k := Nothing]| == 1 || k < min then k else min)
  {
    if overflow == map[] {
      assert overflow[k := Nothing] == map[k := Nothing];
    } else {
      assert overflow[k := Nothing].Keys == overflow.Keys + {k};
      assert |overflow.Keys + {k}| == |overflow.Keys| + 1;
    }
  }

  ghost function KeptSlots(overflow: map<int, Slot>, cutoff: int): map<int, Slot> {
    map k | k in overflow && !SlotBefore(k, cutoff) :: overflow[k]
  }

  lemma {:induction false} AppendRepresents(entries: seq<Entry>, overflow: map<int, Slot>, l: Ledger, e: Entry,
                                            cutoff: int, key: int -> int)
    requires Represents(entries, overflow, l, key)
    ensures Represents(entries + [e], overflow, Append(l, e, cutoff), key)
  {
    var h := l.received + [e];
    forall i | i in l.live ensures h[i] == l.received[i] {}
    forall k | k in overflow
      ensures overflow[k] == Tally(h, AtKey(h, l.live, k, key)) && AtKey(h, l.live, k, key) != {}
    {
      assert AtKey(h, l.live, k, key) == AtKey(l.received, l.live, k, key);
      TallyAppend(l.received, e, AtKey(l.received, l.live, k, key));
    }
  }

  lemma {:induction false} FirstKeptIs(h: seq<Entry>, from: nat, n: nat, cutoff: int)
    requires from <= n <= |h|
    requires forall i :: from <= i < n ==> h[i].at < cutoff
    requires n < |h| ==> cutoff <= h[n].at
    ensures FirstKept(h, from, cutoff) == n
  {
  }

  lemma {:induction false} KeptSlotsRepresent(overflow: map<int, Slot>, l: Ledger, cutoff: int, key: int -> int,
                                              c: Config)
    requires l.WellFormed() && SlotsRepresent(overflow, l.received, l.live, key)
    requires SameGrid(key, c.start)
    ensures SlotsRepresent(KeptSlots(overflow, cutoff), l.received, LiveCounted(l, cutoff, c), key)
  {
    var live := LiveCounted(l, cutoff, c);
    forall k | k in KeptSlots(overflow, cutoff)
      ensures overflow[k] == Tally(l.received, AtKey(l.received, live, k, key)) && AtKey(l.received, live, k, key) != {}
    {
      assert AtKey(l.received, live, k, key) == AtKey(l.received, l.live, k, key);
    }
  }

  lemma {:induction false} TrimRepresents(entries: seq<Entry>, overflow: map<int, Slot>, l: Ledger, kept: seq<Entry>,
                                          cutoff: int, key: int -> int, c: Config)
    requires Represents(entries, overflow, l, key) && SameGrid(key, c.start)
    requires |kept| <= |entries| && kept == entries[|entries| - |kept|..]
    requires forall i :: 0 <= i < |entries| - |kept| ==> entries[i].at < cutoff
    requires kept != [] ==> cutoff <= kept[0].at
    ensures Represents(kept, if kept == [] then map[] else KeptSlots(overflow, cutoff), Trim(l, cutoff, c), key)
  {
    var n := |l.received| - |kept|;
    forall i | l.rawFrom <= i < n ensures l.received[i].at < cutoff {
      assert l.received[i] == entries[i - l.rawFrom];
    }
    FirstKeptIs(l.received, l.rawFrom, n, cutoff);
    KeptSlotsRepresent(overflow, l, cutoff, key, c);
  }

  lemma {:induction false} FoldOneRepresents(entries: seq<Entry>, overflow: map<int, Slot>, l: Ledger, key: int -> int)
    requires Represents(entries, overflow, l, key) && entries != []
    ensures var k := key(entries[0].at);
            Represents(entries[1..], overflow[k := SlotAt(overflow, k).Plus(One(entries[0]))], Fold(l, 1), key)
  {
    var h, n := l.received, l.rawFrom;
    assert h[n] == entries[0];
    var k := key(h[n].at);
    var r := Fold(l, 1);
    assert r.live == l.live + {n} by {
      assert Positions(n, n + 1) == {n};
    }
    forall j
      ensures AtKey(h, r.live, j, key) == if j == k then AtKey(h, l.live, j, key) + {n} else AtKey(h, l.live, j, key)
    {
    }
    TallyAdd(h, AtKey(h, l.live, k, key), n);
    if k !in overflow {
      assert AtKey(h, l.live, k, key) == {};
      TallyNone(h, {});
    }
  }

  lemma {:induction false} FoldTwice(l: Ledger, n: nat)
    requires l.WellFormed() && n + 1 <= l.RawCount()
    ensures Fold(Fold(l, n), 1) == Fold(l, n + 1)
  {
    assert Positions(l.rawFrom, l.rawFrom + n + 1)
            == Positions(l.rawFrom, l.rawFrom + n) + Positions(l.rawFrom + n, l.rawFrom + n + 1);
  }

  lemma {:induction false} FoldNextRepresents(entries: seq<Entry>, j: nat, overflow: map<int, Slot>, l: Ledger,
                                              key: int -> int)
    requires j < |entries| && l.WellFormed() && j + 1 <= l.RawCount()
    requires Represents(entries[j..], overflow, Fold(l, j), key)
    ensures var k := key(entries[j].at);
            Represents(entries[j + 1..], overflow[k := SlotAt(overflow, k).Plus(One(entries[j]))], Fold(l, j + 1), key)
  {
    FoldOneRepresents(entries[j..], overflow, Fold(l, j), key);
    FoldTwice(l, j);
    assert entries[j..][1..] == entries[j + 1..] && entries[j..][0] == entries[j];
  }

  lemma RawIsEntries(entries: seq<Entry>, overflow: map<int, Slot>, l: Ledger, key: int -> int)
    requires Represents(entries, overflow, l, key)
    ensures l.WellFormed() && l.RawCount() == |entries|
  {
  }

  lemma HasKey(keys: set<int>)
    ensures keys == {} || exists k :: k in keys
  {
    if forall k :: k !in keys {
      assert keys == {};
    }
  }

  lemma ArriveIs(l: Ledger, e: Entry, c: Config)
    requires l.WellFormed()
    ensures var t := Trim(Append(l, e, e.at - c.maxWindow), e.at - c.maxWindow, c);
            Arrive(l, e, c) == Fold(t, Surplus(t, c))
  {
  }

  /* ---- Adding up a query ---- */

  ghost function RawUpTo(l: Ledger, hi: nat, cutoff: int): set<nat>
    requires l.WellFormed()
  {
    set i: nat | l.rawFrom <= i < hi && i < |l.received| && cutoff <= l.received[i].at
  }

  lemma {:induction false} RawEnds(l: Ledger, cutoff: int)
    requires l.WellFormed()
    ensures Tally(l.received, RawUpTo(l, l.rawFrom, cutoff)) == Nothing
    ensures RawUpTo(l, |l.received|, cutoff) == RawCounted(l, cutoff)
  {
    TallyNone(l.received, RawUpTo(l, l.rawFrom, cutoff));
  }

  lemma {:induction false} RawStep(l: Ledger, i: nat, cutoff: int)
    requires l.WellFormed() && l.rawFrom <= i < |l.received|
    ensures Tally(l.received, RawUpTo(l, i + 1, cutoff))
         == if cutoff <= l.received[i].at then Tally(l.received, RawUpTo(l, i, cutoff)).Plus(One(l.received[i]))
            else Tally(l.received, RawUpTo(l, i, cutoff))
  {
    if cutoff <= l.received[i].at {
      TallyAdd(l.received, RawUpTo(l, i, cutoff), i);
      assert RawUpTo(l, i + 1, cutoff) == RawUpTo(l, i, cutoff) + {i};
    } else {
      assert RawUpTo(l, i + 1, cutoff) == RawUpTo(l, i, cutoff);
    }
  }

  /** The counted live events whose slot key is in done. */
  ghost function LiveIn(l: Ledger, done: set<int>, cutoff: int, key: int -> int): set<nat>
    requires l.WellFormed()
  {
    set i | i in l.live && i < |l.received| && key(l.received[i].at) in done
            && !SlotBefore(key(l.received[i].at), cutoff)
  }

  lemma {:induction false} LiveInAll(l: Ledger, overflow: map<int, Slot>, cutoff: int, key: int -> int, c: Config)
    requires l.WellFormed() && SlotsRepresent(overflow, l.received, l.live, key) && SameGrid(key, c.start)
    ensures LiveIn(l, overflow.Keys, cutoff, key) == LiveCounted(l, cutoff, c)
    ensures Tally(l.received, LiveIn(l, {}, cutoff, key)) == Nothing
  {
    TallyNone(l.received, LiveIn(l, {}, cutoff, key));
  }

  lemma {:induction false} SlotStep(l: Ledger, overflow: map<int, Slot>, done: set<int>, k: int, cutoff: int,
                                    key: int -> int)
    requires l.WellFormed() && SlotsRepresent(overflow, l.received, l.live, key)
    requires k in overflow && k !in done
    ensures Tally(l.received, LiveIn(l, done + {k}, cutoff, key))
         == if SlotBefore(k, cutoff) then Tally(l.received, LiveIn(l, done, cutoff, key))
            else Tally(l.received, LiveIn(l, done, cutoff, key)).Plus(overflow[k])
  {
    var now, more := LiveIn(l, done, cutoff, key), LiveIn(l, done + {k}, cutoff, key);
    if SlotBefore(k, cutoff) {
      assert more == now;
    } else {
      var slot := AtKey(l.received, l.live, k, key);
      assert more == now + slot;
      TallyUnion(l.received, now, slot);
    }
  }

  lemma {:induction false} EmptyRepresents(l: Ledger, key: int -> int)
    requires l.WellFormed() && l.RawCount() == 0 && l.live == {}
    ensures Represents([], map[], l, key)
  {
    assert l.received[l.rawFrom..] == [];
  }

  lemma {:induction false} EmptyQuery(l: Ledger, cutoff: int, c: Config)
    requires l.WellFormed() && l.RawCount() == 0 && l.live == {}
    ensures Tally(l.received, Counted(l, cutoff, c)) == Nothing && Sample(l, cutoff) == []
  {
    TallyNone(l.received, Counted(l, cutoff, c));
  }

  /** Increments the counter of an entry's own kind and of each of its counter kinds. */
  method AddKinds(counts: multiset<string>, e: Entry) returns (kinds: multiset<string>)
    ensures kinds == counts + One(e).kinds
  {
    kinds := counts + multiset{e.ev.kind};
    for i := 0 to |e.counters|
      invariant kinds == counts + multiset{e.ev.kind} + multiset(e.counters[..i])
    {
      assert e.counters[..i + 1] == e.counters[..i] + [e.counters[i]];
      kinds := kinds + multiset{e.counters[i]};
    }
    assert e.counters[..|e.counters|] == e.counters;
  }

  /* ---- One address ---- */

  class IpBucket {
    var entries: seq<Entry>
    var overflow: map<int, Slot>
    var overflowMin: int
    var lastSeen: int

    constructor ()
      ensures entries == [] && overflow == map[]
    {
      entries, overflow, overflowMin, lastSeen := [], map[], 0, 0;
    }

    /** Drops the leading raw entries older than cutoff and every slot that starts before it. The early exit on
        overflowMin and the scan agree. */
    method TrimBefore(cutoff: int)
      requires IsMin(overflow, overflowMin)
      modifies this
      ensures lastSeen == old(lastSeen)
      ensures |entries| <= |old(entries)| && entries == old(entries)[|old(entries)| - |entries|..]
      ensures forall i :: 0 <= i < |old(entries)| - |entries| ==> old(entries)[i].at < cutoff
      ensures entries != [] ==> cutoff <= entries[0].at
      ensures overflow == if entries == [] then map[] else KeptSlots(old(overflow), cutoff)
      ensures IsMin(overflow, overflowMin)
    {
      var trim := 0;
      while trim < |entries| && entries[trim].at < cutoff
        invariant trim <= |entries| && entries == old(entries)
        invariant forall i :: 0 <= i < trim ==> entries[i].at < cutoff
      {
        trim := trim + 1;
      }
      if trim > 0 {
        entries := entries[trim..];
      }
      if overflow == map[] {
        return;
      }
      if entries == [] {
        overflow, overflowMin := map[], 0;
        return;
      }
      if !SlotBefore(overflowMin, cutoff) {
        return;
      }
      ScanSlots(cutoff);
    }

    /** The scan of the slot map: deletes every slot that starts before cutoff and finds the oldest left. */
    method ScanSlots(cutoff: int)
      modifies this`overflow, this`overflowMin
      ensures overflow == KeptSlots(old(overflow), cutoff)
      ensures IsMin(overflow, overflowMin)
    {
      var minKey, first := 0, true;
      var keys := overflow.Keys;
      ghost var before, done := overflow, {};
      while keys != {}
        invariant before.Keys == keys + done && keys !! done
        invariant overflow == map k | k in before && (k in keys || !SlotBefore(k, cutoff)) :: before[k]
        invariant first <==> forall k :: k in done ==> SlotBefore(k, cutoff)
        invariant !first ==> minKey in done && !SlotBefore(minKey, cutoff)
        invariant !first ==> forall k :: k in done && !SlotBefore(k, cutoff) ==> minKey <= k
        decreases keys
      {
        HasKey(keys);
        var key :| key in keys;
        keys, done := keys - {key}, done + {key};
        if SlotBefore(key, cutoff) {
          overflow := overflow - {key};
          continue;
        }
        if first || key < minKey {
          minKey, first := key, false;
        }
      }
      overflowMin := minKey;
    }

    /** Counts one evicted entry in its slot. */
    method CountEvicted(e: Entry, key: int)
      requires IsMin(overflow, overflowMin)
      modifies this`overflow, this`overflowMin
      ensures overflow == old(overflow)[key := SlotAt(old(overflow), key).Plus(One(e))]
      ensures IsMin(overflow, overflowMin)
    {
      ghost var before := overflow;
      if key !in overflow {
        overflow := overflow[key := Nothing];
        if |overflow| == 1 || key < overflowMin {
          overflowMin := key;
        }
        MinOfLarger(before, key, old(overflowMin));
      }
      var slot := overflow[key];
      var kinds := AddKinds(slot.kinds, e);
      assert Slot(slot.events + 1, kinds) == SlotAt(before, key).Plus(One(e));
      overflow := overflow[key := Slot(slot.events + 1, kinds)];
      assert overflow == before[key := Slot(slot.events + 1, kinds)];
    }

    /** Folds the oldest surplus raw entries into the overflow slots. */
    method FoldOldest(surplus: nat, bucket: int, ghost l: Ledger)
      requires bucket > 0 && surplus <= |entries|
      requires Represents(entries, overflow, l, KeyOf(bucket))
      requires IsMin(overflow, overflowMin)
      modifies this
      ensures lastSeen == old(lastSeen)
      ensures Represents(entries, overflow, Fold(l, surplus), KeyOf(bucket))
      ensures IsMin(overflow, overflowMin)
    {
      ghost var key := KeyOf(bucket);
      FoldNone(l);
      RawIsEntries(entries, overflow, l, key);
      hide IsMin, Represents, SlotsRepresent, Fold, SlotAt, Positions;
      assert entries[0..] == entries;
      for j := 0 to surplus
        invariant Represents(entries[j..], overflow, Fold(l, j), key)
        invariant IsMin(overflow, overflowMin)
        modifies `overflow, `overflowMin
      {
        FoldNextRepresents(entries, j, overflow, l, key);
        CountEvicted(entries[j], SlotKey(entries[j].at, bucket));
      }
      entries := entries[surplus..];
    }

    /** TrimBefore, seen on the ledger. */
    method TrimLedger(cutoff: int, bucket: int, ghost l: Ledger, ghost c: Config)
      requires bucket > 0 && SameGrid(KeyOf(bucket), c.start)
      requires Holds(l, bucket)
      modifies this
      ensures Holds(Trim(l, cutoff, c), bucket)
      ensures |entries| == Trim(l, cutoff, c).RawCount()
    {
      ghost var before, slots := entries, overflow;
      TrimBefore(cutoff);
      TrimRepresents(before, slots, l, entries, cutoff, KeyOf(bucket), c);
    }

    /** The sample cap: folds what exceeds it. */
    method FoldSurplus(maxSamp: nat, bucket: int, ghost l: Ledger, ghost c: Config, ghost r: Ledger)
      requires bucket > 0 && c.maxSamp == maxSamp
      requires Holds(l, bucket)
      requires r == Fold(l, Surplus(l, c))
      modifies this
      ensures Holds(r, bucket)
    {
      var surplus := |entries| - maxSamp;
      if surplus > 0 {
        FoldOldest(surplus, bucket, l);
      } else {
        FoldNone(l);
      }
    }

    method AppendEntry(e: Entry, bucket: int, ghost l: Ledger, ghost cutoff: int)
      requires bucket > 0
      requires Holds(l, bucket)
      modifies this
      ensures Holds(Append(l, e, cutoff), bucket)
    {
      AppendRepresents(entries, overflow, l, e, cutoff, KeyOf(bucket));
      entries := entries + [e];
      lastSeen := e.at;
    }

    /** What Add does to the bucket of the event's address: append, trim to the longest window, fold the surplus. */
    method Record(e: Entry, maxSamp: nat, maxWindow: int, bucket: int, ghost l: Ledger)
      requires WholeSeconds(bucket) && maxSamp > 0 && maxWindow > 0
      requires Holds(l, bucket)
      modifies this
      ensures Holds(Arrive(l, e, Setup(maxSamp, maxWindow, bucket)), bucket)
    {
      ghost var c := Setup(maxSamp, maxWindow, bucket);
      assert l.WellFormed() && c.start == StartOf(bucket) && c.maxSamp == maxSamp && c.maxWindow == maxWindow;
      hide *;
      SetupIsValid(maxSamp, maxWindow, bucket);
      var cutoff := e.at - maxWindow;
      ghost var appended := Append(l, e, cutoff);
      ghost var trimmed := Trim(appended, cutoff, c);
      ArriveIs(l, e, c);
      AppendEntry(e, bucket, l, cutoff);
      TrimLedger(cutoff, bucket, appended, c);
      FoldSurplus(maxSamp, bucket, trimmed, c, Arrive(l, e, c));
    }

    ghost predicate Holds(l: Ledger, bucket: int)
      requires bucket > 0
      reads this
    {
      && Represents(entries, overflow, l, KeyOf(bucket))
      && IsMin(overflow, overflowMin)
      && (entries != [] ==> lastSeen == l.received[|l.received| - 1].at)
    }

    /** How many raw entries are in the window. */
    method CountRaw(cutoff: int, ghost l: Ledger, bucket: int) returns (count: nat)
      requires bucket > 0 && Holds(l, bucket)
      ensures count == |Sample(l, cutoff)|
    {
      count := 0;
      for i := 0 to |entries|
        invariant count == |Since(l.received, l.rawFrom, l.rawFrom + i, cutoff)|
      {
        if !(entries[i].at < cutoff) {
          count := count + 1;
        }
      }
    }

    /** The raw sample's part of a query: the in-window entries one by one. */
    method SumRaw(cutoff: int, ghost l: Ledger, bucket: int)
        returns (count: nat, kinds: multiset<string>, sample: seq<Event>)
      requires bucket > 0 && Holds(l, bucket)
      ensures Slot(count, kinds) == Tally(l.received, RawCounted(l, cutoff))
      ensures sample == Sample(l, cutoff)
    {
      ghost var h, from := l.received, l.rawFrom;
      assert |entries| == |h| - from && forall i :: 0 <= i < |entries| ==> entries[i] == h[from + i];
      hide Represents, Tally, RawUpTo, RawCounted;
      count := CountRaw(cutoff, l, bucket);
      kinds, sample := multiset{}, [];
      RawEnds(l, cutoff);
      for i := 0 to |entries|
        invariant sample == Since(h, from, from + i, cutoff)
        invariant Slot(|sample|, kinds) == Tally(h, RawUpTo(l, from + i, cutoff))
      {
        var e := entries[i];
        RawStep(l, from + i, cutoff);
        if e.at < cutoff {
          continue;
        }
        kinds := AddKinds(kinds, e);
        sample := sample + [e.ev];
      }
    }

    /** The overflow slots' part of a query: the slots that do not start before cutoff. */
    method SumSlots(cutoff: int, ghost l: Ledger, ghost c: Config, bucket: int)
        returns (count: nat, kinds: multiset<string>)
      requires bucket > 0 && Holds(l, bucket) && SameGrid(KeyOf(bucket), c.start)
      ensures Slot(count, kinds) == Tally(l.received, LiveCounted(l, cutoff, c))
    {
      ghost var key := KeyOf(bucket);
      count, kinds := 0, multiset{};
      var keys := overflow.Keys;
      ghost var done: set<int> := {};
      LiveInAll(l, overflow, cutoff, key, c);
      while keys != {}
        invariant overflow.Keys == keys + done && keys !! done
        invariant Slot(count, kinds) == Tally(l.received, LiveIn(l, done, cutoff, key))
        decreases keys
      {
        HasKey(keys);
        var k :| k in keys;
        SlotStep(l, overflow, done, k, cutoff, key);
        keys, done := keys - {k}, done + {k};
        if SlotBefore(k, cutoff) {
          continue;
        }
        count, kinds := count + overflow[k].events, kinds + overflow[k].kinds;
      }
      assert done == overflow.Keys;
    }
  }
  /* ---- The number of slots ---- */

  /** The number of the bucket that holds a time, counted from year 1. */
  function Number(x: int, bucket: int): int
    requires bucket > 0
  {
    x / bucket
  }

  /** The number of the first bucket that starts at or after a time. */
  function NextNumber(x: int, bucket: int): int
    requires bucket > 0
  {
    (x + bucket - 1) / bucket
  }

  /** How many whole buckets fit in a window. */
  function BucketsIn(window: int, bucket: int): int
    requires bucket > 0
  {
    window / bucket
  }

  /** A slot key that is one of the boundaries lo to hi - 1. */
  ghost predicate OnBoundary(k: int, lo: int, hi: int, bucket: int) {
    exists n :: lo <= n < hi && k * SECOND == Boundary(n, bucket)
  }

  /** The slot key at a boundary. */
  function KeyAt(n: int, bucket: int): int {
    Boundary(n, bucket) / SECOND
  }

  ghost predicate AllTaken(keys: set<int>, lo: int, hi: int, bucket: int) {
    forall n :: lo <= n < hi ==> KeyAt(n, bucket) in keys
  }

  lemma {:induction false} KeysAscend(n: int, m: int, bucket: int)
    requires WholeSeconds(bucket) && n < m
    ensures KeyAt(n, bucket) < KeyAt(m, bucket)
  {
    var w := bucket / SECOND;
    assert bucket == w * SECOND && w >= 1;
    assert n * bucket == (n * w) * SECOND && m * bucket == (m * w) * SECOND;
    assert m * w == n * w + (m - n) * w;
    assert (m - n) * w >= 1;
  }

  /** Distinct slot keys are distinct boundaries: no more keys than boundaries, and as many only if all are taken. */
  lemma {:induction false} KeysBound(keys: set<int>, lo: int, hi: int, bucket: int)
    requires WholeSeconds(bucket) && lo <= hi
    requires forall k :: k in keys ==> OnBoundary(k, lo, hi, bucket)
    ensures |keys| <= hi - lo
    ensures |keys| == hi - lo <==> AllTaken(keys, lo, hi, bucket)
    decreases hi - lo
  {
    if lo == hi {
      HasKey(keys);
      assert keys == {};
    } else {
      var last := KeyAt(hi - 1, bucket);
      var rest := keys - {last};
      forall k | k in rest ensures OnBoundary(k, lo, hi - 1, bucket) {
        var n :| lo <= n < hi && k * SECOND == Boundary(n, bucket);
      }
      hide OnBoundary;
      KeysBound(rest, lo, hi - 1, bucket);
      forall n | lo <= n < hi - 1 ensures KeyAt(n, bucket) in rest <==> KeyAt(n, bucket) in keys {
        KeysAscend(n, hi - 1, bucket);
      }
      hide KeyAt;
      assert AllTaken(keys, lo, hi, bucket) <==> last in keys && AllTaken(rest, lo, hi - 1, bucket);
      if last in keys {
        assert keys == rest + {last};
      } else {
        assert keys == rest;
      }
    }
  }

  lemma {:induction false} LessFactor(q: int, r: int, b: int)
    requires b > 0
    ensures q < r <==> q * b < r * b
  {
    if q < r {
      assert r * b == q * b + (r - q) * b;
    } else {
      assert q * b == r * b + (q - r) * b;
    }
  }

  lemma {:induction false} Floor(x: int, b: int)
    requires b > 0
    ensures (x / b) * b <= x < (x / b + 1) * b
  {
    assert x == (x / b) * b + x % b;
  }

  lemma {:induction false} BoundaryCount(x: int, m: int, b: int)
    requires b > 0
    ensures Number(x, b) - NextNumber(x - m, b) <= BucketsIn(m, b)
  {
    var q, p, c := x / b, (x - m + b - 1) / b, m / b;
    Floor(x, b);
    Floor(x - m + b - 1, b);
    Floor(m, b);
    assert (p + 1) * b == p * b + b;
    assert q * b < p * b + (c + 1) * b == (p + c + 1) * b;
    LessFactor(q, p + c + 1, b);
  }

  lemma {:induction false} RecentBoundary(at: int, last: int, maxWindow: int, bucket: int)
    requires WholeSeconds(bucket) && at <= last
    requires last - maxWindow <= SlotKey(at, bucket) * SECOND
    ensures var n := (at + YEAR_ONE * SECOND) / bucket;
            && NextNumber(last + YEAR_ONE * SECOND - maxWindow, bucket) <= n <= Number(last + YEAR_ONE * SECOND, bucket)
            && SlotKey(at, bucket) * SECOND == Boundary(n, bucket)
  {
    SlotHolds(at, bucket);
    var x := last + YEAR_ONE * SECOND;
    var n := (at + YEAR_ONE * SECOND) / bucket;
    var q, p := x / bucket, (x - maxWindow + bucket - 1) / bucket;
    hide SlotKey;
    Floor(x, bucket);
    Floor(x - maxWindow + bucket - 1, bucket);
    assert n * bucket < (q + 1) * bucket;
    LessFactor(n, q + 1, bucket);
    assert p * bucket < n * bucket + bucket == (n + 1) * bucket;
    LessFactor(p, n + 1, bucket);
  }

  lemma {:induction false} SlotInRange(l: Ledger, k: int, c: Config, bucket: int)
    requires WholeSeconds(bucket) && c.start == StartOf(bucket)
    requires l.WellFormed() && l.received != [] && InOrder(l.received)
    requires LiveFrom(l, l.received[|l.received| - 1].at - c.maxWindow, c)
    requires AtKey(l.received, l.live, k, KeyOf(bucket)) != {}
    ensures var x := l.received[|l.received| - 1].at + YEAR_ONE * SECOND;
            OnBoundary(k, NextNumber(x - c.maxWindow, bucket), Number(x, bucket) + 1, bucket)
  {
    hide SlotKey;
    var i :| i in AtKey(l.received, l.live, k, KeyOf(bucket));
    RecentBoundary(l.received[i].at, l.received[|l.received| - 1].at, c.maxWindow, bucket);
  }

  /** Every bucket that starts in a window of m up to x has a slot, and the window has one bucket start more than it
      holds whole buckets. */
  ghost predicate Full(keys: set<int>, x: int, m: int, b: int)
    requires b > 0
  {
    && Number(x, b) - NextNumber(x - m, b) == BucketsIn(m, b)
    && AllTaken(keys, NextNumber(x - m, b), Number(x, b) + 1, b)
  }

  lemma {:induction false} RangeBound(keys: set<int>, x: int, m: int, b: int)
    requires WholeSeconds(b) && m > 0
    requires KeysInside(keys, x, m, b)
    ensures |keys| <= BucketsIn(m, b) + 1
    ensures |keys| > BucketsIn(m, b) <==> Full(keys, x, m, b)
  {
    BoundaryCount(x, m, b);
    NumbersAscend(x, m, b);
    hide OnBoundary, Number, NextNumber, BucketsIn, AllTaken;
    KeysBound(keys, NextNumber(x - m, b), Number(x, b) + 1, b);
  }

  /** A full window of more than one bucket has more than one slot. */
  lemma FullIsMore(keys: set<int>, x: int, m: int, b: int)
    requires WholeSeconds(b) && Full(keys, x, m, b) && BucketsIn(m, b) > 0
    ensures exists k, j :: k in keys && j in keys && k != j
  {
    var n := NextNumber(x - m, b);
    hide NextNumber, Number, BucketsIn;
    KeysAscend(n, n + 1, b);
    assert KeyAt(n, b) in keys && KeyAt(n + 1, b) in keys;
  }

  lemma NumbersAscend(x: int, m: int, b: int)
    requires b > 0 && m > 0
    ensures NextNumber(x - m, b) <= Number(x, b) + 1
  {
    Floor(x, b);
    Floor(x - m + b - 1, b);
    assert (x / b + 1) * b + b == (x / b + 2) * b;
    LessFactor((x - m + b - 1) / b, x / b + 2, b);
  }

  lemma NoneNegative(m: int, b: int)
    requires b > 0 && m > 0
    ensures BucketsIn(m, b) >= 0
  {
    Floor(m, b);
    LessFactor(-1, m / b, b);
  }

  lemma {:induction false} AtMostOne(keys: set<int>)
    requires forall k, m :: k in keys && m in keys ==> k == m
    ensures |keys| <= 1
  {
    HasKey(keys);
    if keys != {} {
      var k :| k in keys;
      forall m ensures m in keys <==> m == k {}
      assert keys == {k};
    }
  }

  lemma {:induction false} OneSlotOneKey(overflow: map<int, Slot>, l: Ledger, c: Config, bucket: int)
    requires bucket > 0 && c.start == StartOf(bucket)
    requires l.WellFormed() && SlotsRepresent(overflow, l.received, l.live, KeyOf(bucket)) && OneSlot(l, c)
    ensures forall k, j :: k in overflow.Keys && j in overflow.Keys ==> k == j
  {
    hide SlotKey, Tally;
    forall k, m | k in overflow.Keys && m in overflow.Keys ensures k == m {
      var i :| i in AtKey(l.received, l.live, k, KeyOf(bucket));
      var j :| j in AtKey(l.received, l.live, m, KeyOf(bucket));
      assert c.start(l.received[i].at) == c.start(l.received[j].at);
    }
  }

  /** How many slots there can be: one more than the whole buckets of the longest window, and that many exactly when
      every bucket that starts inside the window holds an evicted event. */
  ghost predicate SlotsBounded(overflow: map<int, Slot>, last: int, maxWindow: int, bucket: int)
    requires bucket > 0
  {
    var whole := BucketsIn(maxWindow, bucket);
    && |overflow| <= whole + 1
    && (whole > 0 ==> (|overflow| > whole <==> Full(overflow.Keys, last + YEAR_ONE * SECOND, maxWindow, bucket)))
  }

  lemma {:induction false} SlotBound(overflow: map<int, Slot>, l: Ledger, c: Config, bucket: int)
    requires WholeSeconds(bucket) && c.start == StartOf(bucket)
    requires l.WellFormed() && SlotsRepresent(overflow, l.received, l.live, KeyOf(bucket))
    requires InOrder(l.received) && LiveIsRecent(l, c)
    requires l.received != [] && c.maxWindow > 0
    ensures SlotsBounded(overflow, l.received[|l.received| - 1].at, c.maxWindow, bucket)
  {
    var last := l.received[|l.received| - 1].at;
    assert LiveFrom(l, last - c.maxWindow, c) || OneSlot(l, c);
    assert |overflow| == |overflow.Keys|;
    hide *;
    if LiveFrom(l, last - c.maxWindow, c) {
      SlotsInside(overflow, l, c, bucket);
    } else {
      OneSlotOneKey(overflow, l, c, bucket);
      FewSlots(overflow, last, c.maxWindow, bucket);
    }
  }

  /** Every key is on a boundary of the window of m up to x. */
  ghost predicate KeysInside(keys: set<int>, x: int, m: int, b: int)
    requires b > 0
  {
    forall k :: k in keys ==> OnBoundary(k, NextNumber(x - m, b), Number(x, b) + 1, b)
  }

  lemma {:induction false} SlotsAreInside(overflow: map<int, Slot>, l: Ledger, c: Config, bucket: int)
    requires WholeSeconds(bucket) && c.start == StartOf(bucket)
    requires l.WellFormed() && SlotsRepresent(overflow, l.received, l.live, KeyOf(bucket))
    requires InOrder(l.received) && l.received != []
    requires LiveFrom(l, l.received[|l.received| - 1].at - c.maxWindow, c)
    ensures KeysInside(overflow.Keys, l.received[|l.received| - 1].at + YEAR_ONE * SECOND, c.maxWindow, bucket)
  {
    hide Tally, InOrder, AtKey, OnBoundary, Number, NextNumber, LiveFrom;
    forall k | k in overflow.Keys
      ensures var x := l.received[|l.received| - 1].at + YEAR_ONE * SECOND;
              OnBoundary(k, NextNumber(x - c.maxWindow, bucket), Number(x, bucket) + 1, bucket)
    {
      SlotInRange(l, k, c, bucket);
    }
  }

  lemma {:induction false} SlotsInside(overflow: map<int, Slot>, l: Ledger, c: Config, bucket: int)
    requires WholeSeconds(bucket) && c.start == StartOf(bucket)
    requires l.WellFormed() && SlotsRepresent(overflow, l.received, l.live, KeyOf(bucket))
    requires InOrder(l.received) && l.received != [] && c.maxWindow > 0
    requires LiveFrom(l, l.received[|l.received| - 1].at - c.maxWindow, c)
    ensures SlotsBounded(overflow, l.received[|l.received| - 1].at, c.maxWindow, bucket)
  {
    hide *;
    SlotsAreInside(overflow, l, c, bucket);
    InsideIsBounded(overflow, l.received[|l.received| - 1].at, c.maxWindow, bucket);
  }

  lemma InsideIsBounded(overflow: map<int, Slot>, last: int, maxWindow: int, bucket: int)
    requires WholeSeconds(bucket) && maxWindow > 0
    requires KeysInside(overflow.Keys, last + YEAR_ONE * SECOND, maxWindow, bucket)
    ensures SlotsBounded(overflow, last, maxWindow, bucket)
  {
    RangeBound(overflow.Keys, last + YEAR_ONE * SECOND, maxWindow, bucket);
    assert |overflow| == |overflow.Keys|;
    hide BucketsIn, Full;
  }

  lemma FewSlots(overflow: map<int, Slot>, last: int, maxWindow: int, bucket: int)
    requires WholeSeconds(bucket) && maxWindow > 0
    requires forall k, j :: k in overflow.Keys && j in overflow.Keys ==> k == j
    ensures SlotsBounded(overflow, last, maxWindow, bucket)
  {
    AtMostOne(overflow.Keys);
    NoneNegative(maxWindow, bucket);
    assert |overflow| == |overflow.Keys|;
    hide BucketsIn, Full;
    if BucketsIn(maxWindow, bucket) > 0 && Full(overflow.Keys, last + YEAR_ONE * SECOND, maxWindow, bucket) {
      FullIsMore(overflow.Keys, last + YEAR_ONE * SECOND, maxWindow, bucket);
    }
  }

  lemma {:induction false} BucketBound(entries: seq<Entry>, overflow: map<int, Slot>, l: Ledger, c: Config, bucket: int)
    requires WholeSeconds(bucket) && c.start == StartOf(bucket) && c.maxWindow > 0
    requires Represents(entries, overflow, l, KeyOf(bucket)) && entries != []
    requires Consistent(l, c)
    ensures |entries| <= c.maxSamp
    ensures InOrder(l.received) ==> SlotsBounded(overflow, l.received[|l.received| - 1].at, c.maxWindow, bucket)
  {
    hide InOrder, GoneIsOld, FullOrOld, LiveIsRecent, SlotsRepresent, SlotsBounded;
    if InOrder(l.received) {
      SlotBound(overflow, l, c, bucket);
    }
  }

  /* ---- All addresses ---- */

  /** sdk.Aggregate, as far as the aggregator fills it. */
  datatype Summary = Summary(ip: Addr, window: int, count: nat, kinds: multiset<string>, sample: seq<Event>) {
    function Totals(): Slot {
      Slot(count, kinds)
    }
  }

  ghost function At(histories: map<Addr, seq<Op>>, ip: Addr): seq<Op> {
    if ip in histories then histories[ip] else []
  }

  ghost function Then(histories: map<Addr, seq<Op>>, ip: Addr, op: Op): map<Addr, seq<Op>> {
    histories[ip := At(histories, ip) + [op]]
  }

  /** When an address was last seen: the time of the event that came last. */
  ghost function LastSeen(histories: map<Addr, seq<Op>>, ip: Addr): int {
    var h := Received(At(histories, ip));
    if h == [] then 0 else h[|h| - 1].at
  }

  /** The address is not tracked, or some tracked one was seen before it. */
  ghost predicate NotLeast(histories: map<Addr, seq<Op>>, tracked: set<Addr>, a: Addr) {
    a in tracked ==> exists ip :: ip in tracked && LastSeen(histories, ip) < LastSeen(histories, a)
  }

  /** The address is tracked and was seen before every other. */
  ghost predicate StrictlyLeast(histories: map<Addr, seq<Op>>, tracked: set<Addr>, a: Addr) {
    a in tracked && forall ip :: ip in tracked && ip != a ==> LastSeen(histories, a) < LastSeen(histories, ip)
  }

  lemma LeastIs(histories: map<Addr, seq<Op>>, tracked: set<Addr>, lru: Addr, a: Addr)
    requires lru in tracked && forall ip :: ip in tracked ==> LastSeen(histories, lru) <= LastSeen(histories, ip)
    ensures NotLeast(histories, tracked, a) ==> lru != a
    ensures StrictlyLeast(histories, tracked, a) ==> lru == a
  {
  }

  /** A flush that reaches the given addresses. */
  ghost function FlushedAll(histories: map<Addr, seq<Op>>, reached: set<Addr>, cutoff: int): map<Addr, seq<Op>> {
    map ip | ip in histories.Keys + reached ::
      if ip in reached then At(histories, ip) + [FlushTo(cutoff)] else At(histories, ip)
  }

  lemma FlushedNone(histories: map<Addr, seq<Op>>, cutoff: int)
    ensures FlushedAll(histories, {}, cutoff) == histories
  {
  }

  lemma {:induction false} FlushedAllStep(histories: map<Addr, seq<Op>>, reached: set<Addr>, ip: Addr, cutoff: int)
    requires ip !in reached
    ensures Then(FlushedAll(histories, reached, cutoff), ip, FlushTo(cutoff))
            == FlushedAll(histories, reached + {ip}, cutoff)
  {
  }

  class Aggregator {
    const windows: seq<int>
    const maxWindow: int
    const bucket: int
    const maxSamp: nat
    const maxIPs: int
    const classify: Event -> seq<string>
    var buckets: map<Addr, IpBucket>

    // Everything that ever happened to each address.
    ghost var histories: map<Addr, seq<Op>>

    ghost predicate Configured() {
      WholeSeconds(bucket) && maxSamp > 0 && maxWindow > 0
    }

    ghost function Settings(): Config
      requires Configured()
    {
      Setup(maxSamp, maxWindow, bucket)
    }

    ghost function LedgerOf(ip: Addr): (l: Ledger)
      requires Configured()
      reads this
      ensures l.WellFormed()
    {
      Run(At(histories, ip), Settings())
    }

    /** ip is tracked exactly while its ledger has raw events, and then its bucket represents the ledger. */
    ghost predicate Stored(ip: Addr)
      requires Configured()
      reads this, buckets.Values
    {
      && (ip in buckets <==> LedgerOf(ip).RawCount() > 0)
      && (ip in buckets ==> buckets[ip].Holds(LedgerOf(ip), bucket))
    }

    ghost predicate Valid()
      reads this, buckets.Values
    {
      && Configured()
      && (forall a, b :: a in buckets && b in buckets && a != b ==> buckets[a] != buckets[b])
      && (forall ip :: Stored(ip))
    }

    /** New, with its WithClassifier and WithMaxIPs options. A nil classifier assigns no counters. */
    constructor (windows: seq<int>, maxSamples: int, maxIPs: int, classify: Event -> seq<string>)
      requires windows != [] && forall w :: w in windows ==> w > 0
      ensures Valid()
      ensures buckets == map[] && histories == map[]
      ensures this.windows == windows && this.maxIPs == maxIPs && this.classify == classify
      ensures maxSamp == if maxSamples <= 0 then 4096 else maxSamples
      ensures maxWindow in windows && forall w :: w in windows ==> w <= maxWindow
      ensures exists w :: w in windows && (forall v :: v in windows ==> w <= v) && bucket == BucketWidth(w)
      ensures forall w :: w in windows ==> OVERFLOW_BUCKET_DIV * bucket <= w || bucket == SECOND
    {
      var maxW, minW := Extremes(windows);
      this.windows, this.maxWindow, this.bucket := windows, maxW, BucketWidth(minW);
      this.maxSamp := if maxSamples <= 0 then DEFAULT_MAX_SAMPLES else maxSamples;
      this.maxIPs, this.classify := maxIPs, classify;
      buckets, histories := map[], map[];
    }

    ghost function EntryOf(ev: Event): Entry {
      Entry(ev.at, ev, classify(ev))
    }

    lemma SeenLast(ip: Addr)
      requires Valid() && ip in buckets
      ensures buckets[ip].lastSeen == LastSeen(histories, ip)
    {
      assert Stored(ip);
      SetupIsValid(maxSamp, maxWindow, bucket);
      RunIsConsistent(At(histories, ip), Settings());
    }

    /** evictLRU: picks the tracked address seen least recently, and deletes it if it is a valid address. */
    method EvictLRU() returns (lru: Addr)
      requires Valid() && buckets != map[]
      modifies this
      ensures Valid()
      ensures lru in old(buckets)
      ensures forall ip :: ip in old(buckets) ==> LastSeen(old(histories), lru) <= LastSeen(old(histories), ip)
      ensures buckets == if lru.IsValid() then old(buckets) - {lru} else old(buckets)
      ensures histories == if lru.IsValid() then Then(old(histories), lru, Op.Forget) else old(histories)
    {
      hide LastSeen, Run, Represents;
      lru := NoAddr;
      var lruTime, first := 0, true;
      var ips := buckets.Keys;
      ghost var done: set<Addr> := {};
      assert ips != {} by {
        var ip :| ip in buckets;
      }
      while ips != {}
        invariant buckets == old(buckets) && histories == old(histories)
        invariant buckets.Keys == ips + done
        invariant first <==> done == {}
        invariant !first ==> lru in done && lruTime == LastSeen(histories, lru)
        invariant forall ip :: ip in done ==> lruTime <= LastSeen(histories, ip)
        modifies {}
        decreases ips
      {
        var ip :| ip in ips;
        ips, done := ips - {ip}, done + {ip};
        SeenLast(ip);
        if first || buckets[ip].lastSeen < lruTime {
          lru, lruTime, first := ip, buckets[ip].lastSeen, false;
        }
      }
      if lru.IsValid() {
        Reset(lru);
      }
    }

    /** Reset deletes the bucket of ip; so does the end of an eviction. */
    method Reset(ip: Addr)
      requires Valid()
      modifies this
      ensures Valid()
      ensures buckets == old(buckets) - {ip} && histories == Then(old(histories), ip, Op.Forget)
    {
      RunStep(At(histories, ip), Op.Forget, Settings());
      buckets := buckets - {ip};
      histories := Then(histories, ip, Op.Forget);
      forall a ensures Stored(a) {
        assert old(Stored(a));
      }
    }

    lemma EmptyLedger(ops: seq<Op>)
      requires Configured() && Run(ops, Settings()).RawCount() == 0
      ensures Run(ops, Settings()).live == {}
    {
      SetupIsValid(maxSamp, maxWindow, bucket);
      RunIsConsistent(ops, Settings());
    }

    /** The bucket of ip, created if need be. */
    method BucketFor(ip: Addr) returns (b: IpBucket)
      requires Valid()
      modifies this`buckets
      ensures buckets.Keys == old(buckets).Keys + {ip} && buckets[ip] == b
      ensures forall a :: a in old(buckets) ==> buckets[a] == old(buckets)[a]
      ensures ip !in old(buckets) ==> fresh(b)
      ensures b.Holds(LedgerOf(ip), bucket)
    {
      hide Represents, Run;
      ghost var l := LedgerOf(ip);
      assert Stored(ip);
      if ip in buckets {
        b := buckets[ip];
      } else {
        b := new IpBucket();
        EmptyLedger(At(histories, ip));
        EmptyRepresents(l, KeyOf(bucket));
        buckets := buckets[ip := b];
      }
    }

    /** Records e in the bucket b of its address, whose ledger is l. */
    method RecordIn(b: IpBucket, e: Entry, ghost l: Ledger)
      requires Configured() && b.Holds(l, bucket)
      modifies b
      ensures b.Holds(Arrive(l, e, Settings()), bucket) && Arrive(l, e, Settings()).RawCount() > 0
    {
      b.Record(e, maxSamp, maxWindow, bucket, l);
      SetupIsValid(maxSamp, maxWindow, bucket);
      ArriveSizes(l, e, Settings());
    }

    /** Add, up to the LRU cap. */
    method RecordEvent(ev: Event)
      requires Valid()
      modifies this, buckets.Values
      ensures Valid()
      ensures histories == Then(old(histories), ev.ip, EventIn(EntryOf(ev)))
      ensures buckets.Keys == old(buckets).Keys + {ev.ip}
      ensures fresh(buckets.Values - old(buckets.Values))
    {
      hide Represents, IsMin, Arrive, Run;
      var e := Entry(ev.at, ev, classify(ev));
      var b := BucketFor(ev.ip);
      RecordIn(b, e, LedgerOf(ev.ip));
      RunStep(At(histories, ev.ip), EventIn(e), Settings());
      histories := Then(histories, ev.ip, EventIn(e));
      forall ip ensures Stored(ip) {
        if ip != ev.ip {
          assert old(Stored(ip));
          assert ip in buckets ==> buckets[ip] != b && unchanged(buckets[ip]);
        }
      }
    }

    /** When an address is last seen if ev is added now. */
    ghost function SeenWith(ev: Event, ip: Addr): int
      requires ip in buckets || ip == ev.ip
      reads this, buckets.Values
    {
      if ip == ev.ip then ev.at else buckets[ip].lastSeen
    }

    /** If ev is added now, some tracked address is seen before the zero address, or that one is not tracked. */
    ghost predicate ZeroIsNotLeast(ev: Event)
      reads this, buckets.Values
    {
      var tracked := buckets.Keys + {ev.ip};
      NoAddr in tracked ==> exists ip :: ip in tracked && SeenWith(ev, ip) < SeenWith(ev, NoAddr)
    }

    /** If ev is added now, the zero address is tracked and seen before every other. */
    ghost predicate ZeroIsLeast(ev: Event)
      reads this, buckets.Values
    {
      var tracked := buckets.Keys + {ev.ip};
      NoAddr in tracked && forall ip :: ip in tracked && ip != NoAddr ==> SeenWith(ev, NoAddr) < SeenWith(ev, ip)
    }

    lemma SeenAfter(ev: Event)
      requires Valid()
      ensures var after := Then(histories, ev.ip, EventIn(EntryOf(ev)));
              && (ZeroIsNotLeast(ev) <==> NotLeast(after, buckets.Keys + {ev.ip}, NoAddr))
              && (ZeroIsLeast(ev) <==> StrictlyLeast(after, buckets.Keys + {ev.ip}, NoAddr))
    {
      forall ip | ip in buckets.Keys + {ev.ip}
        ensures LastSeen(Then(histories, ev.ip, EventIn(EntryOf(ev))), ip) == SeenWith(ev, ip)
      {
        if ip == ev.ip {
          assert (At(histories, ip) + [EventIn(EntryOf(ev))])[..|At(histories, ip)|] == At(histories, ip);
        } else {
          SeenLast(ip);
        }
      }
    }

    /** Once ev is its address's only event, it is what that address was last seen with. */
    lemma SeenFirst(ev: Event)
      requires Valid() && ev.ip in buckets && histories == Then(map[], ev.ip, EventIn(EntryOf(ev)))
      ensures buckets[ev.ip].lastSeen == ev.at
    {
      SeenLast(ev.ip);
      assert ([EventIn(EntryOf(ev))])[..0] == [];
    }

    /** Add. The cap holds afterwards when the zero address is not among the least recently seen, and is exceeded by one
        when it alone is; when it shares that with another address the order of the map decides. */
    method Add(ev: Event) returns (ghost evicted: Option<Addr>)
      requires Valid()
      modifies this, buckets.Values
      ensures Valid()
      ensures var tracked := old(buckets).Keys + {ev.ip};
              var after := Then(old(histories), ev.ip, EventIn(EntryOf(ev)));
              && (evicted.Some? <==> maxIPs > 0 && |tracked| > maxIPs)
              && (evicted.None? ==> histories == after && buckets.Keys == tracked)
              && (evicted.Some? ==>
                    && evicted.value in tracked
                    && (forall ip :: ip in tracked ==> LastSeen(after, evicted.value) <= LastSeen(after, ip))
                    && histories == (if evicted.value.IsValid() then Then(after, evicted.value, Op.Forget) else after)
                    && buckets.Keys == (if evicted.value.IsValid() then tracked - {evicted.value} else tracked))
      ensures maxIPs > 0 && |old(buckets)| <= maxIPs ==> (|buckets| <= maxIPs <==> evicted != Some(NoAddr))
      ensures maxIPs > 0 && |old(buckets)| <= maxIPs
              && (old(ZeroIsNotLeast(ev)) || ev.ip in old(buckets) || |old(buckets)| < maxIPs)
              ==> |buckets| <= maxIPs
      ensures maxIPs > 0 && |old(buckets)| == maxIPs && ev.ip !in old(buckets) && old(ZeroIsLeast(ev)) ==>
              |buckets| == maxIPs + 1
      ensures fresh(buckets.Values - old(buckets.Values))
    {
      SeenAfter(ev);
      hide LastSeen, Then, Stored, ZeroIsNotLeast, ZeroIsLeast, NotLeast, StrictlyLeast;
      RecordEvent(ev);
      evicted := None;
      assert |buckets| == |buckets.Keys|;
      if maxIPs > 0 && |buckets| > maxIPs {
        assert buckets != map[];
        var lru := EvictLRU();
        evicted := Some(lru);
        LeastIs(Then(old(histories), ev.ip, EventIn(EntryOf(ev))), old(buckets).Keys + {ev.ip}, lru, NoAddr);
      }
      assert |buckets| == |buckets.Keys| && |old(buckets)| == |old(buckets).Keys|;
    }

    /** Aggregate. In any order of event times it counts only in-window events, each once; with times in order
        and a cutoff the history still answers for, it is the stateless meaning of the events received. */
    method Aggregate(ip: Addr, window: int, now: int) returns (r: Summary)
      requires Valid()
      ensures r.ip == ip && r.window == window
      ensures r.Totals() == Tally(LedgerOf(ip).received, Counted(LedgerOf(ip), now - window, Settings()))
      ensures r.sample == Sample(LedgerOf(ip), now - window)
      ensures var h := Received(At(histories, ip));
              r.Totals().AtMost(Tally(h, InWindow(h, now - window)))
      ensures var h := Received(At(histories, ip));
              InOrder(h) && Answerable(At(histories, ip), Settings(), now - window) ==>
                && r.Totals() == Tally(h, Reference(h, now - window, Settings()))
                && r.sample == Newest(h, maxSamp, now - window)
      ensures var h := Received(At(histories, ip));
              var counted := Reference(h, now - window, Settings());
              InOrder(h) && Answerable(At(histories, ip), Settings(), now - window) ==>
                r.count == |counted| && forall k :: r.kinds[k] == KindCount(h, counted, k)
    {
      hide Represents, Run, Tally, InOrder, Answerable, InWindow, Reference, KindCount;
      var cutoff := now - window;
      ghost var l := LedgerOf(ip);
      assert Stored(ip);
      var kinds, total, sample := multiset{}, 0, [];
      if ip in buckets {
        total, kinds, sample := Query(buckets[ip], cutoff, l);
      } else {
        EmptyLedger(At(histories, ip));
        EmptyQuery(l, cutoff, Settings());
      }
      QueryMeans(ip, cutoff);
      ReferenceCounts(Received(At(histories, ip)), cutoff, Settings());
      r := Summary(ip, window, total, kinds, sample);
    }

    lemma ReferenceCounts(h: seq<Entry>, cutoff: int, c: Config)
      ensures Tally(h, Reference(h, cutoff, c)).events == |Reference(h, cutoff, c)|
      ensures forall k :: Tally(h, Reference(h, cutoff, c)).kinds[k] == KindCount(h, Reference(h, cutoff, c), k)
    {
      TallyCounts(h, Reference(h, cutoff, c));
    }

    /** Aggregate on a tracked address. */
    method Query(b: IpBucket, cutoff: int, ghost l: Ledger)
        returns (total: nat, kinds: multiset<string>, sample: seq<Event>)
      requires Configured() && b.Holds(l, bucket)
      ensures Slot(total, kinds) == Tally(l.received, Counted(l, cutoff, Settings()))
      ensures sample == Sample(l, cutoff)
    {
      SetupIsValid(maxSamp, maxWindow, bucket);
      total, kinds, sample := b.SumRaw(cutoff, l, bucket);
      var n, ks := b.SumSlots(cutoff, l, Settings(), bucket);
      total, kinds := total + n, kinds + ks;
      TallyUnion(l.received, RawCounted(l, cutoff), LiveCounted(l, cutoff, Settings()));
    }

    lemma QueryMeans(ip: Addr, cutoff: int)
      requires Configured()
      ensures var l, h := LedgerOf(ip), Received(At(histories, ip));
              var totals := Tally(l.received, Counted(l, cutoff, Settings()));
              && totals.AtMost(Tally(h, InWindow(h, cutoff)))
              && (InOrder(h) && Answerable(At(histories, ip), Settings(), cutoff) ==>
                    && totals == Tally(h, Reference(h, cutoff, Settings()))
                    && Sample(l, cutoff) == Newest(h, maxSamp, cutoff))
    {
      hide InOrder, Answerable, Ordered, Since, Tally, Run;
      var ops := At(histories, ip);
      SetupIsValid(maxSamp, maxWindow, bucket);
      RunIsConsistent(ops, Settings());
      CountsOnlyTheWindow(LedgerOf(ip), cutoff, Settings());
      if InOrder(Received(ops)) && Answerable(ops, Settings(), cutoff) {
        EveryRunMeansItsEvents(ops, cutoff, Settings());
      }
    }

    /** Flush, cut short by its context after `alive` addresses, in whatever order the map yields them. */
    method Flush(alive: nat, cutoff: int) returns (ghost reached: set<Addr>)
      requires Valid()
      modifies this, buckets.Values
      ensures Valid()
      ensures reached <= old(buckets).Keys && (reached < old(buckets).Keys ==> |reached| == alive)
      ensures histories == FlushedAll(old(histories), reached, cutoff)
      ensures old(buckets).Keys - reached <= buckets.Keys <= old(buckets).Keys && buckets.Values <= old(buckets).Values
    {
      hide *;
      FlushedNone(histories, cutoff);
      var ips, left := buckets.Keys, alive;
      reached := {};
      ghost var all := buckets;
      while ips != {} && left > 0
        invariant Valid()
        invariant all.Keys == ips + reached && ips !! reached && |reached| + left == alive
        invariant forall ip :: ip in buckets ==> ip in all && buckets[ip] == all[ip]
        invariant forall ip :: ip in ips ==> ip in buckets
        invariant histories == FlushedAll(old(histories), reached, cutoff)
        decreases ips
      {
        var ip :| ip in ips;
        FlushOne(ip, cutoff);
        FlushedAllStep(old(histories), reached, ip, cutoff);
        ips, reached, left := ips - {ip}, reached + {ip}, left - 1;
      }
    }

    /** The body of Flush's loop. */
    method FlushOne(ip: Addr, cutoff: int)
      requires Valid() && ip in buckets
      modifies this, buckets[ip]
      ensures Valid()
      ensures buckets == old(buckets) || buckets == old(buckets) - {ip}
      ensures histories == Then(old(histories), ip, FlushTo(cutoff))
    {
      hide Represents, IsMin, Run, Trim;
      assert Stored(ip);
      ghost var l := LedgerOf(ip);
      var b := buckets[ip];
      SetupIsValid(maxSamp, maxWindow, bucket);
      b.TrimLedger(cutoff, bucket, l, Settings());
      RunStep(At(histories, ip), FlushTo(cutoff), Settings());
      histories := Then(histories, ip, FlushTo(cutoff));
      if |b.entries| == 0 {
        buckets := buckets - {ip};
      }
      forall a ensures Stored(a) {
        if a != ip {
          assert old(Stored(a));
          assert a in buckets ==> buckets[a] != b && unchanged(buckets[a]);
        }
      }
    }

    /** Space: at most maxSamp raw entries an address and, with times in order, at most one slot more than the whole
        buckets of the longest window; SlotsBounded says when. */
    lemma SpaceBound(ip: Addr)
      requires Valid() && ip in buckets
      ensures |buckets[ip].entries| <= maxSamp
      ensures InOrder(Received(At(histories, ip))) ==>
                SlotsBounded(buckets[ip].overflow, LastSeen(histories, ip), maxWindow, bucket)
    {
      hide Consistent, InOrder, SlotsRepresent, Run, SameGrid, SlotsBounded;
      assert Stored(ip);
      SetupIsValid(maxSamp, maxWindow, bucket);
      RunIsConsistent(At(histories, ip), Settings());
      BucketBound(buckets[ip].entries, buckets[ip].overflow, LedgerOf(ip), Settings(), bucket);
    }
  }
}
