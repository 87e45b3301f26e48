/** The cap on tracked addresses over whole runs of calls. */
module AggregatorRuns {
  import opened Aggregator
  import opened Ledger
  import opened Net

  datatype Call = AddEvent(ev: Event) | FlushUpTo(alive: nat, cutoff: int) | ResetIp(ip: Addr)

  /** What an aggregator holds at one moment: the histories its buckets represent, and the tracked addresses. */
  datatype Snap = Snap(histories: map<Addr, seq<Op>>, tracked: set<Addr>)

  ghost function SnapOf(a: Aggregator): Snap
    reads a
  {
    Snap(a.histories, a.buckets.Keys)
  }

  /** What one Add may make of s: the event joins its address's history, and over the cap an address seen least recently
      is forgotten unless it is the zero address. */
  ghost predicate DidAdd(a: Aggregator, ev: Event, s: Snap, t: Snap) {
    var tracked := s.tracked + {ev.ip};
    var after := Then(s.histories, ev.ip, EventIn(a.EntryOf(ev)));
    if a.maxIPs > 0 && |tracked| > a.maxIPs then
      exists lru ::
        && lru in tracked
        && (forall ip :: ip in tracked ==> LastSeen(after, lru) <= LastSeen(after, ip))
        && t == if lru.IsValid() then Snap(Then(after, lru, Op.Forget), tracked - {lru}) else Snap(after, tracked)
    else t == Snap(after, tracked)
  }

  /** What one call may make of s. */
  ghost predicate Did(a: Aggregator, c: Call, s: Snap, t: Snap) {
    match c
    case AddEvent(ev) => DidAdd(a, ev, s, t)
    case FlushUpTo(alive, cutoff) =>
      exists reached: set<Addr> ::
        && reached <= s.tracked && (reached < s.tracked ==> |reached| == alive)
        && s.tracked - reached <= t.tracked <= s.tracked
        && t.histories == FlushedAll(s.histories, reached, cutoff)
    case ResetIp(ip) => t == Snap(Then(s.histories, ip, Op.Forget), s.tracked - {ip})
  }

  /** States a run of calls goes through, all within the cap. */
  ghost predicate Traced(a: Aggregator, calls: seq<Call>, trace: seq<Snap>) {
    && 0 < |trace| <= |calls| + 1
    && (forall i :: 0 <= i < |trace| - 1 ==> Did(a, calls[i], trace[i], trace[i + 1]))
    && forall i :: 0 <= i < |trace| ==> |trace[i].tracked| <= a.maxIPs
  }

  lemma TraceGrows(a: Aggregator, calls: seq<Call>, trace: seq<Snap>, t: Snap)
    requires Traced(a, calls, trace) && |trace| <= |calls| && |t.tracked| <= a.maxIPs
    requires Did(a, calls[|trace| - 1], trace[|trace| - 1], t)
    ensures Traced(a, calls, trace + [t])
  {
    hide Did;
  }

  /** Over any sequence of calls that add events of valid addresses only, the cap on tracked addresses holds after every
      call: trace has the state before the first call and after each. */
  method CapHolds(a: Aggregator, calls: seq<Call>) returns (sizes: seq<nat>, ghost trace: seq<Snap>)
    requires a.Valid() && a.maxIPs > 0 && |a.buckets| <= a.maxIPs && NoAddr !in a.buckets
    requires forall c :: c in calls && c.AddEvent? ==> c.ev.ip.IsValid()
    modifies a, a.buckets.Values
    ensures a.Valid() && NoAddr !in a.buckets
    ensures |trace| == |calls| + 1 && trace[0] == old(SnapOf(a)) && trace[|calls|] == SnapOf(a)
    ensures forall i :: 0 <= i < |calls| ==> Did(a, calls[i], trace[i], trace[i + 1])
    ensures forall i :: 0 <= i < |trace| ==> |trace[i].tracked| <= a.maxIPs
    ensures |sizes| == |calls| && forall i :: 0 <= i < |sizes| ==> sizes[i] == |trace[i + 1].tracked|
  {
    Tracked(a);
    assert Traced(a, calls, [SnapOf(a)]);
    hide *;
    sizes, trace := [], [SnapOf(a)];
    for i := 0 to |calls|
      invariant a.Valid() && |a.buckets| <= a.maxIPs && NoAddr !in a.buckets
      invariant fresh(a.buckets.Values - old(a.buckets.Values))
      invariant |trace| == i + 1 && trace[0] == old(SnapOf(a)) && trace[i] == SnapOf(a)
      invariant Traced(a, calls, trace)
      invariant |sizes| == i && forall j :: 0 <= j < i ==> sizes[j] == |trace[j + 1].tracked|
    {
      OneCall(a, calls[i]);
      Tracked(a);
      TraceGrows(a, calls, trace, SnapOf(a));
      trace := trace + [SnapOf(a)];
      sizes := sizes + [|a.buckets|];
    }
    TracedMeans(a, calls, trace);
  }

  lemma TracedMeans(a: Aggregator, calls: seq<Call>, trace: seq<Snap>)
    requires Traced(a, calls, trace) && |trace| == |calls| + 1
    ensures forall i :: 0 <= i < |calls| ==> Did(a, calls[i], trace[i], trace[i + 1])
    ensures forall i :: 0 <= i < |trace| ==> |trace[i].tracked| <= a.maxIPs
  {
  }

  lemma Tracked(a: Aggregator)
    ensures |SnapOf(a).tracked| == |a.buckets|
  {
    assert |a.buckets| == |a.buckets.Keys|;
  }

  method OneCall(a: Aggregator, c: Call)
    requires a.Valid() && a.maxIPs > 0 && |a.buckets| <= a.maxIPs && NoAddr !in a.buckets
    requires c.AddEvent? ==> c.ev.ip.IsValid()
    modifies a, a.buckets.Values
    ensures a.Valid() && |a.buckets| <= a.maxIPs && NoAddr !in a.buckets
    ensures fresh(a.buckets.Values - old(a.buckets.Values))
    ensures Did(a, c, old(SnapOf(a)), SnapOf(a))
  {
    match c
    case AddEvent(ev) =>
      AddOne(a, ev);
    case FlushUpTo(alive, cutoff) =>
      FlushSome(a, alive, cutoff);
    case ResetIp(ip) =>
      ghost var before := a.buckets;
      a.Reset(ip);
      Fewer(a.buckets.Keys, before.Keys);
  }

  method AddOne(a: Aggregator, ev: Event)
    requires a.Valid() && a.maxIPs > 0 && |a.buckets| <= a.maxIPs && NoAddr !in a.buckets && ev.ip.IsValid()
    modifies a, a.buckets.Values
    ensures a.Valid() && |a.buckets| <= a.maxIPs && NoAddr !in a.buckets
    ensures fresh(a.buckets.Values - old(a.buckets.Values))
    ensures DidAdd(a, ev, old(SnapOf(a)), SnapOf(a))
  {
    assert a.ZeroIsNotLeast(ev);
    hide LastSeen, Then, Run, Represents;
    ghost var evicted := a.Add(ev);
  }

  method FlushSome(a: Aggregator, alive: nat, cutoff: int)
    requires a.Valid() && a.maxIPs > 0 && |a.buckets| <= a.maxIPs && NoAddr !in a.buckets
    modifies a, a.buckets.Values
    ensures a.Valid() && |a.buckets| <= a.maxIPs && NoAddr !in a.buckets
    ensures fresh(a.buckets.Values - old(a.buckets.Values))
    ensures Did(a, FlushUpTo(alive, cutoff), old(SnapOf(a)), SnapOf(a))
  {
    ghost var before := a.buckets;
    hide FlushedAll, Run, Represents;
    ghost var reached := a.Flush(alive, cutoff);
    Fewer(a.buckets.Keys, before.Keys);
  }

  lemma {:induction false} Fewer(s: set<Addr>, t: set<Addr>)
    requires s <= t
    ensures |s| <= |t|
  {
    assert t == s + (t - s);
  }

  /** Two calls of Add with room for one address, the first for the zero address: both stay. */
  method ZeroAddressExceedsTheCap(first: Event, second: Event, classify: Event -> seq<string>) returns (a: Aggregator)
    requires first.ip == NoAddr && second.ip.IsValid() && first.at < second.at
    ensures a.Valid() && a.maxIPs == 1 && |a.buckets| == 2
    ensures a.histories == Then(Then(map[], first.ip, EventIn(a.EntryOf(first))), second.ip, EventIn(a.EntryOf(second)))
  {
    a := new Aggregator([1], 1, 1, classify);
    hide Run, Then;
    ghost var evicted := a.Add(first);
    assert a.buckets.Keys == {NoAddr};
    a.SeenFirst(first);
    AddBesideZero(a, second);
  }

  method AddBesideZero(a: Aggregator, ev: Event)
    requires a.Valid() && a.maxIPs == 1 && a.buckets.Keys == {NoAddr}
    requires ev.ip.IsValid() && a.buckets[NoAddr].lastSeen < ev.at
    modifies a, a.buckets.Values
    ensures a.Valid() && |a.buckets| == 2
    ensures a.histories == Then(old(a.histories), ev.ip, EventIn(a.EntryOf(ev)))
  {
    assert |a.buckets| == |a.buckets.Keys|;
    assert a.ZeroIsLeast(ev);
    hide Run, Then, LastSeen;
    ghost var evicted := a.Add(ev);
  }

  /** What a query means on a history of one event. */
  lemma {:induction false} OneEventMeans(e: Entry, cutoff: int, c: Config)
    requires c.maxSamp > 0
    ensures InOrder([e])
    ensures Tally([e], Reference([e], cutoff, c))
         == if e.at >= cutoff then Slot(1, multiset{e.ev.kind} + multiset(e.counters)) else Nothing
    ensures Newest([e], c.maxSamp, cutoff) == if e.at >= cutoff then [e.ev] else []
  {
    WithinTheCap([e], cutoff, c);
    if e.at >= cutoff {
      assert Reference([e], cutoff, c) == {0};
      TallySingle([e], 0);
    } else {
      assert Reference([e], cutoff, c) == {};
      TallyNone([e], {});
    }
    assert [e][..0] == [];
    assert Since([e], 0, 0, cutoff) == [];
  }

  lemma OneEventHistory(ip: Addr, e: Entry, c: Config, cutoff: int)
    requires e.at - c.maxWindow <= cutoff
    ensures var ops := At(Then(map[], ip, EventIn(e)), ip);
            Received(ops) == [e] && Answerable(ops, c, cutoff)
  {
    var ops := At(Then(map[], ip, EventIn(e)), ip);
    assert ops == [EventIn(e)] && ops[..0] == [];
  }

  method AddFirst(a: Aggregator, ev: Event)
    requires a.Valid() && a.buckets == map[] && a.histories == map[]
    modifies a
    ensures a.Valid() && a.histories == Then(map[], ev.ip, EventIn(a.EntryOf(ev)))
  {
    assert a.buckets.Keys == {} && a.buckets.Values == {};
    assert a.buckets.Keys + {ev.ip} == {ev.ip} && |{ev.ip}| == 1;
    hide *;
    ghost var evicted := a.Add(ev);
  }

  /** One event is added to an empty aggregator and asked for: inside the window it is one event, counted under its kind
      and under each counter of the classifier, and it is the sample; outside it is nothing. */
  method AddThenAsk(a: Aggregator, ev: Event, window: int, now: int) returns (r: Summary)
    requires a.Valid() && a.buckets == map[] && a.histories == map[]
    requires window <= a.maxWindow && ev.at <= now
    modifies a
    ensures a.Valid()
    ensures ev.at >= now - window ==>
              r.count == 1 && r.sample == [ev] && r.kinds == multiset{ev.kind} + multiset(a.classify(ev))
    ensures ev.at < now - window ==> r.count == 0 && r.sample == [] && r.kinds == multiset{}
  {
    AddFirst(a, ev);
    hide *;
    OneEventAsked(a, ev, now - window);
    r := a.Aggregate(ev.ip, window, now);
    TotalsAre(r);
  }

  lemma OneEventAsked(a: Aggregator, ev: Event, cutoff: int)
    requires a.Configured() && a.histories == Then(map[], ev.ip, EventIn(a.EntryOf(ev)))
    requires ev.at - a.maxWindow <= cutoff
    ensures var ops, c := At(a.histories, ev.ip), a.Settings();
            var h := Received(ops);
            && InOrder(h) && Answerable(ops, c, cutoff)
            && Tally(h, Reference(h, cutoff, c))
               == (if ev.at >= cutoff then Slot(1, multiset{ev.kind} + multiset(a.classify(ev))) else Nothing)
            && Newest(h, a.maxSamp, cutoff) == if ev.at >= cutoff then [ev] else []
  {
    hide Received, Answerable, InOrder, Tally, Reference, Newest, At, Then;
    OneEventHistory(ev.ip, a.EntryOf(ev), a.Settings(), cutoff);
    OneEventMeans(a.EntryOf(ev), cutoff, a.Settings());
  }

  lemma TotalsAre(r: Summary)
    ensures r.Totals() == Slot(r.count, r.kinds) && Nothing == Slot(0, multiset{})
  {
  }
}
