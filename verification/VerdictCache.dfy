/** The verdict cache, keyed by traffic behaviour, and the daemon's round trip through it. */
module VerdictCache {
  import opened BucketTime
  import opened Net
  import opened Options
  import opened Verdicts

  /** The behaviour signature: the aggregation window and the event kind counts, not the address. */
  datatype Sig = Sig(window: int, kinds: map<string, int>)

  datatype Entry = Entry(verdicts: array<Verdict>, expiresAt: int)

  /** A call of Set that happened. */
  datatype SetOp = SetOp(sig: Sig, verdicts: seq<Verdict>, at: int)

  function Unclamped(): Verdict -> Option<Verdict> {
    v => if IsAllowlistClamped(v) then None else Some(v)
  }

  function Retarget(vs: seq<Verdict>, ip: Addr): seq<Verdict> {
    seq(|vs|, i requires 0 <= i < |vs| => vs[i].(ip := ip))
  }

  /** Op had something to store for sig. */
  predicate Stores(op: SetOp, sig: Sig) {
    op.sig == sig && Collect(Unclamped(), op.verdicts) != []
  }

  function Latest(history: seq<SetOp>, sig: Sig): Option<SetOp> {
    if history == [] then None
    else if Stores(history[|history| - 1], sig) then Some(history[|history| - 1])
    else Latest(history[..|history| - 1], sig)
  }

  /** Latest is the last call of Set for the signature that had an unclamped verdict. */
  lemma {:induction false} LatestIsLast(history: seq<SetOp>, sig: Sig)
    ensures Latest(history, sig).None? <==> forall i :: 0 <= i < |history| ==> !Stores(history[i], sig)
    ensures Latest(history, sig).Some? ==>
              exists i :: 0 <= i < |history| && history[i] == Latest(history, sig).value && Stores(history[i], sig)
                          && forall j :: i < j < |history| ==> !Stores(history[j], sig)
  {
    hide Stores;
    if history != [] {
      var n := |history| - 1;
      LatestIsLast(history[..n], sig);
      if !Stores(history[n], sig) {
        if Latest(history, sig).Some? {
          var i :| 0 <= i < n && history[..n][i] == Latest(history, sig).value && Stores(history[..n][i], sig)
                   && forall j :: i < j < n ==> !Stores(history[..n][j], sig);
          assert history[i] == history[..n][i];
          forall j | i < j < |history| ensures !Stores(history[j], sig) {
            if j < n {
              assert history[j] == history[..n][j];
            }
          }
        } else {
          forall i | 0 <= i < |history| ensures !Stores(history[i], sig) {
            if i < n {
              assert history[i] == history[..n][i];
            }
          }
        }
      }
    }
  }

  lemma HistoryGrows(history: seq<SetOp>, op: SetOp)
    ensures forall sig :: Latest(history + [op], sig) == if Stores(op, sig) then Some(op) else Latest(history, sig)
  {
    assert (history + [op])[..|history|] == history;
  }

  /** What a lookup is for: the unclamped verdicts of the latest Set of the signature that had any, for the address that
      asks, while they are within their TTL. */
  function Replay(history: seq<SetOp>, ttl: int, sig: Sig, ip: Addr, now: int): Option<seq<Verdict>> {
    if ttl == 0 then None
    else
      match Latest(history, sig)
      case None => None
      case Some(op) => if now > op.at + ttl then None else Some(Retarget(Collect(Unclamped(), op.verdicts), ip))
  }

  /** A replay is never empty, never clamped, always on the address that asks, and otherwise made of verdicts that were
      stored within one TTL. */
  lemma {:induction false} ReplayedWereStored(history: seq<SetOp>, ttl: int, sig: Sig, ip: Addr, now: int)
    requires Replay(history, ttl, sig, ip, now).Some?
    ensures var out := Replay(history, ttl, sig, ip, now).value;
            && out != []
            && (forall v :: v in out ==> v.ip == ip && !IsAllowlistClamped(v))
            && (forall v :: v in out ==>
                  exists op, s ::
                    op in history && op.sig == sig && now <= op.at + ttl && s in op.verdicts && v == s.(ip := ip))
  {
    LatestIsLast(history, sig);
    var op := Latest(history, sig).value;
    var stored := Collect(Unclamped(), op.verdicts);
    var out := Retarget(stored, ip);
    forall v | v in out
      ensures v.ip == ip && !IsAllowlistClamped(v)
      ensures exists o, s :: o in history && o.sig == sig && now <= o.at + ttl && s in o.verdicts && v == s.(ip := ip)
    {
      var i :| 0 <= i < |out| && out[i] == v;
      CollectHas(Unclamped(), op.verdicts, stored[i]);
      assert stored[i] in op.verdicts && v == stored[i].(ip := ip);
    }
  }

  /** A lookup answers exactly while the latest storing Set of the signature is within its TTL. */
  lemma {:induction false} ReplayIff(history: seq<SetOp>, ttl: int, sig: Sig, ip: Addr, now: int)
    ensures Replay(history, ttl, sig, ip, now).Some? <==>
            ttl != 0 && exists i :: 0 <= i < |history| && Stores(history[i], sig) && now <= history[i].at + ttl
                                    && forall j :: i < j < |history| ==> !Stores(history[j], sig)
  {
    LatestIsLast(history, sig);
    hide Stores;
  }

  /** When none of the verdicts it stored was clamped, the answer is all of them, in order, each on the address that
      asks and otherwise as it was. */
  lemma {:induction false} ReplayIsWhole(history: seq<SetOp>, op: SetOp, ttl: int, ip: Addr, now: int)
    requires op.verdicts != [] && forall v :: v in op.verdicts ==> !IsAllowlistClamped(v)
    requires ttl != 0 && now <= op.at + ttl
    ensures var replay := Replay(history + [op], ttl, op.sig, ip, now);
            && replay.Some? && |replay.value| == |op.verdicts|
            && forall i :: 0 <= i < |op.verdicts| ==> replay.value[i] == op.verdicts[i].(ip := ip)
  {
    NoneClamped(op.verdicts);
    hide IsAllowlistClamped, Collect;
    HistoryGrows(history, op);
  }

  lemma NoneClamped(vs: seq<Verdict>)
    requires forall v :: v in vs ==> !IsAllowlistClamped(v)
    ensures Collect(Unclamped(), vs) == vs
  {
    hide IsAllowlistClamped, Collect;
    CollectAll(Unclamped(), vs);
  }

  /** A verdict is clamped exactly when its source ends with the mark. */
  lemma ClampedIff(v: Verdict)
    ensures IsAllowlistClamped(v) <==> exists source: string :: v.source == source + "+allowlist-clamp"
  {
    if IsAllowlistClamped(v) {
      assert v.source == v.source[..|v.source| - |CLAMP_SUFFIX|] + "+allowlist-clamp";
    }
  }

  /** The end of Get: a copy of the slice, every verdict on ip. */
  method CopyFor(verdicts: array<Verdict>, ip: Addr) returns (copy: array<Verdict>)
    ensures fresh(copy) && copy[..] == Retarget(verdicts[..], ip)
  {
    copy := new Verdict[verdicts.Length](i requires 0 <= i < verdicts.Length reads verdicts => verdicts[i]);
    for i := 0 to copy.Length
      invariant forall k :: 0 <= k < i ==> copy[k] == verdicts[k].(ip := ip)
      invariant forall k :: i <= k < copy.Length ==> copy[k] == verdicts[k]
      modifies copy
    {
      copy[i] := copy[i].(ip := ip);
    }
  }

  /** The loop of Set. */
  method WithoutClamped(verdicts: array<Verdict>) returns (stored: seq<Verdict>)
    ensures stored == Collect(Unclamped(), verdicts[..])
  {
    stored := [];
    for i := 0 to verdicts.Length
      invariant stored == Collect(Unclamped(), verdicts[..][..i])
    {
      CollectNext(Unclamped(), verdicts[..], i);
      if IsAllowlistClamped(verdicts[i]) {
        continue;
      }
      stored := stored + [verdicts[i]];
    }
    assert verdicts[..][..verdicts.Length] == verdicts[..];
  }

  class Cache {
    const ttl: int
    var entries: map<Sig, Entry>

    // Every call of Set so far, the latest time that was read, and the slices the cache made for itself.
    ghost var history: seq<SetOp>
    ghost var clock: int
    ghost var repr: set<array<Verdict>>

    /** An entry holds what the latest Set of its signature stored; a signature without an entry has none that could
        still be replayed. */
    ghost predicate Valid()
      reads this, repr
    {
      && (ttl == 0 ==> entries == map[])
      && (forall sig :: sig in entries ==>
            var latest := Latest(history, sig);
            && entries[sig].verdicts in repr && latest.Some? && entries[sig].expiresAt == latest.value.at + ttl
            && entries[sig].verdicts[..] == Collect(Unclamped(), latest.value.verdicts))
      && (forall sig :: sig !in entries && ttl != 0 && Latest(history, sig).Some? ==>
              clock > Latest(history, sig).value.at + ttl)
    }

    constructor (ttl: int, ghost clock: int)
      ensures Valid() && this.ttl == ttl && history == [] && this.clock == clock && repr == {}
    {
      this.ttl, entries, history, this.clock, repr := ttl, map[], [], clock, {};
    }

    /** Deleting what has expired. */
    method Delete(sig: Sig)
      requires Valid() && sig in entries && clock > entries[sig].expiresAt
      modifies this`entries
      ensures Valid() && entries == old(entries) - {sig}
    {
      entries := entries - {sig};
    }

    /** Get: exactly the replay; the slice is the caller's own. */
    method Get(sig: Sig, ip: Addr, now: int) returns (out: Option<array<Verdict>>)
      requires Valid() && clock <= now
      modifies this
      ensures Valid() && history == old(history) && clock == now && repr == old(repr)
      ensures out.None? <==> Replay(history, ttl, sig, ip, now).None?
      ensures out.Some? ==> fresh(out.value) && Some(out.value[..]) == Replay(history, ttl, sig, ip, now)
    {
      clock := now;
      if ttl == 0 {
        return None;
      }
      if sig !in entries {
        return None;
      }
      var e := entries[sig];
      if now > e.expiresAt {
        Delete(sig);
        return None;
      }
      hide Retarget, Latest;
      var copy := CopyFor(e.verdicts, ip);
      return Some(copy);
    }

    /** Set: the call is remembered, in a slice of the cache's own. */
    method Set(sig: Sig, verdicts: array<Verdict>, now: int)
      requires Valid() && clock <= now
      modifies this
      ensures Valid() && history == old(history) + [SetOp(sig, verdicts[..], now)] && clock == now
      ensures fresh(repr - old(repr))
    {
      ghost var op := SetOp(sig, verdicts[..], now);
      HistoryGrows(history, op);
      history := history + [op];
      clock := now;
      if ttl == 0 {
        return;
      }
      var stored := WithoutClamped(verdicts);
      if stored == [] {
        return;
      }
      var own := new Verdict[|stored|](i requires 0 <= i < |stored| => stored[i]);
      assert own[..] == stored;
      entries, repr := entries[sig := Entry(own, now + ttl)], repr + {own};
    }

    /** Evict, whose time was read before the lock: no lookup ever changes. */
    method Evict(now: int)
      requires Valid()
      modifies this
      ensures Valid() && history == old(history) && clock == (if now > old(clock) then now else old(clock))
              && repr == old(repr)
      ensures forall sig :: sig in entries <==> sig in old(entries) && now <= old(entries)[sig].expiresAt
      ensures forall sig :: sig in entries ==> entries[sig] == old(entries)[sig]
    {
      clock := if now > clock then now else clock;
      EvictExpired(now);
    }

    /** The loop of Evict. */
    method EvictExpired(now: int)
      requires Valid() && now <= clock
      modifies this`entries
      ensures Valid()
      ensures forall sig :: sig in entries <==> sig in old(entries) && now <= old(entries)[sig].expiresAt
      ensures forall sig :: sig in entries ==> entries[sig] == old(entries)[sig]
    {
      ghost var was := entries;
      var todo := entries.Keys;
      hide Valid;
      while todo != {}
        invariant Valid() && todo <= entries.Keys <= was.Keys
        invariant forall sig :: sig in entries ==> entries[sig] == was[sig]
        invariant forall sig :: sig in was && sig !in entries ==> now > was[sig].expiresAt
        invariant forall sig :: sig in entries && sig !in todo ==> now <= was[sig].expiresAt
        decreases |todo|
      {
        var k :| k in todo;
        todo := todo - {k};
        if now > entries[k].expiresAt {
          Delete(k);
        }
      }
    }
  }

  /* ---- The daemon's round trip ---- */

  /** bindVerdictsToIP: what boundToBatch does for a batch of one. */
  method BindVerdictsToIP(verdicts: seq<Verdict>, ip: Addr) returns (out: seq<Verdict>)
    ensures out == Collect(Bound([ip]), verdicts)
  {
    if verdicts == [] {
      return verdicts;
    }
    var want := ip.Unmap();
    out := [];
    for i := 0 to |verdicts|
      invariant out == Collect(Bound([ip]), verdicts[..i])
    {
      CollectNext(Bound([ip]), verdicts, i);
      assert [ip][0] == ip;
      if verdicts[i].ip.Unmap() != want {
        continue;
      }
      out := out + [verdicts[i].(ip := ip)];
    }
    assert verdicts[..|verdicts|] == verdicts;
  }

  predicate InPolicy(v: Verdict, maxTTL: int) {
    0 <= v.score <= 100 && (maxTTL > 0 ==> v.ttl <= maxTTL)
  }

  ghost predicate AllInPolicy(history: seq<SetOp>, maxTTL: int) {
    forall op, v :: op in history && v in op.verdicts ==> InPolicy(v, maxTTL)
  }

  lemma {:induction false} BoundToOne(verdicts: seq<Verdict>, ip: Addr)
    ensures forall v :: v in Collect(Bound([ip]), verdicts) ==>
            v.ip == ip && exists u :: u in verdicts && v == u.(ip := ip)
  {
    forall v | v in Collect(Bound([ip]), verdicts)
      ensures v.ip == ip && exists u :: u in verdicts && v == u.(ip := ip)
    {
      CollectHas(Bound([ip]), verdicts, v);
      var u :| u in verdicts && Bound([ip])(u) == Some(v);
      assert v == u.(ip := Canonical([ip], u.ip));
    }
  }

  lemma OnTarget(verdicts: seq<Verdict>, ip: Addr)
    requires forall v :: v in verdicts ==> v.ip == ip
    ensures Collect(Bound([ip]), verdicts) == verdicts
  {
    forall v | v in verdicts ensures Bound([ip])(v) == Some(v) {
      assert [ip][0] == ip && v.(ip := ip) == v;
    }
    hide Bound, Collect;
    CollectAll(Bound([ip]), verdicts);
  }

  /** What a fresh consultation answers: the model's results judged one by one, and bound to ip. */
  function Fresh(ip: Addr, n: nat, results: seq<Item>, allowlist: seq<Prefix>, maxTTL: int): seq<Verdict> {
    Collect(Bound([ip]), Collect(Judged(seq(n, _ => ip), allowlist, maxTTL), results))
  }

  predicate Zeroed(v: Verdict) {
    v.score == 0 && v.ttl == 0
  }

  ghost predicate AllZeroed(vs: seq<Verdict>) {
    forall v :: v in vs ==> Zeroed(v)
  }

  /** Nothing but zero would be replayed: no entry of the signature is live, or every verdict in it has score and TTL
      0. */
  ghost predicate OnlyZeroLive(history: seq<SetOp>, ttl: int, sigs: seq<Sig>, now: int) {
    sigs == [] || ttl == 0 ||
      match Latest(history, sigs[0])
      case None => true
      case Some(op) => now > op.at + ttl || forall v :: v in op.verdicts && !IsAllowlistClamped(v) ==> Zeroed(v)
  }

  /** consultProvider for ip, whose aggregates have the signatures sigs. Every verdict is on ip, in range and within the
      maximum TTL, fresh or replayed; on an allowlisted address all are zeroed exactly when nothing but zero would be
      replayed; a replayed verdict was never clamped; and what is stored keeps all this true of later consultations.
      results is the provider's decoded answer, if it gave one. */
  method Consult(cache: Cache, ip: Addr, sigs: seq<Sig>, now: int, later: int, budgetRead: bool,
                 results: Option<seq<Item>>, allowlist: seq<Prefix>, maxTTL: int)
      returns (out: seq<Verdict>, answered: bool, ghost hit: bool)
    requires cache.Valid() && cache.clock <= now <= later && AllInPolicy(cache.history, maxTTL)
    modifies cache
    ensures cache.Valid() && cache.clock <= later && AllInPolicy(cache.history, maxTTL)
    ensures forall v :: v in out ==> v.ip == ip && 0 <= v.score <= 100 && (maxTTL > 0 ==> v.ttl <= maxTTL)
    ensures hit <==> sigs != [] && Replay(old(cache.history), cache.ttl, sigs[0], ip, now).Some?
    ensures hit ==> answered && cache.history == old(cache.history)
    ensures hit ==> Some(out) == Replay(old(cache.history), cache.ttl, sigs[0], ip, now)
    ensures hit ==> out != [] && forall v :: v in out ==> !IsAllowlistClamped(v)
    ensures !hit ==> (answered <==> budgetRead && results.Some?)
    ensures !hit ==> out == if answered then Fresh(ip, |sigs|, results.value, allowlist, maxTTL) else []
    ensures Allowlisted(allowlist, ip) ==>
              ((forall v :: v in out ==> v.score == 0 && v.ttl == 0)
               <==> OnlyZeroLive(old(cache.history), cache.ttl, sigs, now))
    ensures !hit ==> forall v :: v in out ==> (IsAllowlistClamped(v) <==> Allowlisted(allowlist, ip))
    ensures !hit && Allowlisted(allowlist, ip) ==> forall v :: v in out ==> v.score == 0 && v.ttl == 0
    ensures !hit && sigs != [] && out != [] ==> cache.history == old(cache.history) + [SetOp(sigs[0], out, later)]
    ensures !hit && (sigs == [] || out == []) ==> cache.history == old(cache.history)
  {
    PolicyMeans(maxTTL);
    ZeroedMeans();
    hide *;
    hit := false;
    ZeroLiveMeans(cache.history, cache.ttl, sigs, ip, now);
    NoVerdicts();
    if sigs != [] {
      var cached := cache.Get(sigs[0], ip, now);
      if cached.Some? {
        ReplayIsInPolicy(cache.history, cache.ttl, sigs[0], ip, now, maxTTL);
        OnTarget(cached.value[..], ip);
        out := BindVerdictsToIP(cached.value[..], ip);
        return out, true, true;
      }
    }
    if !budgetRead {
      return [], false, false;
    }
    if results.None? {
      return [], false, false;
    }
    out := Ask(ip, |sigs|, results.value, allowlist, maxTTL);
    answered := true;
    if sigs != [] && out != [] {
      var slice := new Verdict[|out|](i requires 0 <= i < |out| => out[i]);
      assert slice[..] == out;
      StoringStaysInPolicy(cache.history, SetOp(sigs[0], out, later), maxTTL);
      cache.Set(sigs[0], slice, later);
    }
  }

  lemma PolicyMeans(maxTTL: int)
    ensures forall v :: InPolicy(v, maxTTL) <==> 0 <= v.score <= 100 && (maxTTL > 0 ==> v.ttl <= maxTTL)
  {
  }

  lemma ZeroedMeans()
    ensures forall vs: seq<Verdict> :: AllZeroed(vs) <==> forall v :: v in vs ==> v.score == 0 && v.ttl == 0
  {
  }

  lemma ReplayIsInPolicy(history: seq<SetOp>, ttl: int, sig: Sig, ip: Addr, now: int, maxTTL: int)
    requires AllInPolicy(history, maxTTL) && Replay(history, ttl, sig, ip, now).Some?
    ensures var out := Replay(history, ttl, sig, ip, now).value;
            out != [] && forall v :: v in out ==> v.ip == ip && InPolicy(v, maxTTL) && !IsAllowlistClamped(v)
  {
    hide Replay, IsAllowlistClamped;
    ReplayedWereStored(history, ttl, sig, ip, now);
    var out := Replay(history, ttl, sig, ip, now).value;
    forall v | v in out ensures InPolicy(v, maxTTL) {
      var op, s :| op in history && op.sig == sig && now <= op.at + ttl && s in op.verdicts && v == s.(ip := ip);
      assert InPolicy(s, maxTTL);
    }
  }

  lemma StoringStaysInPolicy(history: seq<SetOp>, op: SetOp, maxTTL: int)
    requires AllInPolicy(history, maxTTL) && forall v :: v in op.verdicts ==> InPolicy(v, maxTTL)
    ensures AllInPolicy(history + [op], maxTTL)
  {
  }

  /** A fresh consultation: the provider's answer about n aggregates of ip, bound to it. */
  method Ask(ip: Addr, n: nat, results: seq<Item>, allowlist: seq<Prefix>, maxTTL: int) returns (out: seq<Verdict>)
    ensures out == Fresh(ip, n, results, allowlist, maxTTL)
    ensures Allowlisted(allowlist, ip) ==> AllZeroed(out)
    ensures forall v :: v in out ==>
            v.ip == ip && InPolicy(v, maxTTL) && (IsAllowlistClamped(v) <==> Allowlisted(allowlist, ip))
    ensures Allowlisted(allowlist, ip) ==> forall v :: v in out ==> v.score == 0 && v.ttl == 0
  {
    var batch := seq(n, _ => ip);
    hide *;
    var verdicts := Answer(results, batch, allowlist, maxTTL);
    BoundToOne(verdicts, ip);
    out := BindVerdictsToIP(verdicts, ip);
    AnsweredForIP(verdicts, out, batch, ip, allowlist, maxTTL);
    FreshIs(ip, n, results, allowlist, maxTTL, batch);
  }

  lemma FreshIs(ip: Addr, n: nat, results: seq<Item>, allowlist: seq<Prefix>, maxTTL: int, batch: seq<Addr>)
    requires batch == seq(n, _ => ip)
    ensures Fresh(ip, n, results, allowlist, maxTTL)
            == Collect(Bound([ip]), Collect(Judged(batch, allowlist, maxTTL), results))
  {
  }

  lemma NoVerdicts()
    ensures AllZeroed([])
  {
  }

  lemma {:induction false} ZeroLiveMeans(history: seq<SetOp>, ttl: int, sigs: seq<Sig>, ip: Addr, now: int)
    ensures sigs == [] || Replay(history, ttl, sigs[0], ip, now).None? ==> OnlyZeroLive(history, ttl, sigs, now)
    ensures sigs != [] && Replay(history, ttl, sigs[0], ip, now).Some? ==>
              (AllZeroed(Replay(history, ttl, sigs[0], ip, now).value) <==> OnlyZeroLive(history, ttl, sigs, now))
  {
    if sigs != [] && Replay(history, ttl, sigs[0], ip, now).Some? {
      var op := Latest(history, sigs[0]).value;
      var stored := Collect(Unclamped(), op.verdicts);
      RetargetKeepsZero(stored, ip);
      hide Collect, Retarget, Latest, IsAllowlistClamped, Zeroed;
      forall v ensures v in stored <==> v in op.verdicts && !IsAllowlistClamped(v) {
        CollectHas(Unclamped(), op.verdicts, v);
      }
    }
  }

  lemma RetargetKeepsZero(vs: seq<Verdict>, ip: Addr)
    ensures AllZeroed(Retarget(vs, ip)) <==> AllZeroed(vs)
  {
    var out := Retarget(vs, ip);
    forall i | 0 <= i < |vs| ensures Zeroed(out[i]) <==> Zeroed(vs[i]) {}
    if AllZeroed(out) {
      forall v | v in vs ensures Zeroed(v) {
        var i :| 0 <= i < |vs| && vs[i] == v;
        assert out[i] in out;
      }
    }
    if AllZeroed(vs) {
      forall v | v in out ensures Zeroed(v) {
        var i :| 0 <= i < |out| && out[i] == v;
        assert vs[i] in vs;
      }
    }
  }

  /** What a fresh consultation about one address stores is replayed on an allowlisted one of the same signature, with
      its score and its TTL. */
  lemma ReplayReachesAllowlisted(sig: Sig, ttl: int, allowlist: seq<Prefix>)
    requires ttl > 0 && !Allowlisted(allowlist, V4(1)) && Allowlisted(allowlist, V4(2))
    ensures var item := Item(Some(V4(1)), 90, "bruteforce", 1.0, "", 60);
            var history := [SetOp(sig, Fresh(V4(1), 1, [item], allowlist, 0), 0)];
            var replay := Replay(history, ttl, sig, V4(2), 0);
            && replay.Some? && |replay.value| == 1
            && replay.value[0].ip == V4(2) && replay.value[0].score == 90 && replay.value[0].ttl == 60 * SECOND
            && !OnlyZeroLive(history, ttl, [sig], 0)
  {
    var item := Item(Some(V4(1)), 90, "bruteforce", 1.0, "", 60);
    OneVerdict(item, allowlist);
    hide Fresh, Allowlisted, IsAllowlistClamped, OnlyZeroLive, Replay;
    var first := Fresh(V4(1), 1, [item], allowlist, 0);
    OneReplay(sig, first, ttl);
    ZeroLiveMeans([SetOp(sig, first, 0)], ttl, [sig], V4(2), 0);
  }

  lemma OneVerdict(item: Item, allowlist: seq<Prefix>)
    requires item == Item(Some(V4(1)), 90, "bruteforce", 1.0, "", 60) && !Allowlisted(allowlist, V4(1))
    ensures var out := Fresh(V4(1), 1, [item], allowlist, 0);
            |out| == 1 && out[0].score == 90 && out[0].ttl == 60 * SECOND && !IsAllowlistClamped(out[0])
  {
    var batch := seq(1, _ => V4(1));
    assert batch[0] == V4(1) && [V4(1)][0] == V4(1);
    JudgedIsBounded(item, batch, allowlist, 0);
    var v := Judge(batch, allowlist, 0, item).value;
    assert Collect(Judged(batch, allowlist, 0), [item][..0]) == [];
    assert Collect(Judged(batch, allowlist, 0), [item]) == [v];
    assert Bound([V4(1)])(v) == Some(v.(ip := V4(1)));
    assert Collect(Bound([V4(1)]), [v][..0]) == [];
    assert Collect(Bound([V4(1)]), [v]) == [v.(ip := V4(1))];
  }

  lemma OneReplay(sig: Sig, first: seq<Verdict>, ttl: int)
    requires ttl > 0 && |first| == 1 && !IsAllowlistClamped(first[0])
    ensures Replay([SetOp(sig, first, 0)], ttl, sig, V4(2), 0) == Some([first[0].(ip := V4(2))])
  {
    hide IsAllowlistClamped;
    assert first == [first[0]] && first[..0] == [];
    assert Collect(Unclamped(), first) == [first[0]];
    var op := SetOp(sig, first, 0);
    assert Stores(op, sig) && Latest([op], sig) == Some(op);
    assert Retarget([first[0]], V4(2)) == [first[0].(ip := V4(2))];
  }

  lemma AnsweredForIP(answer: seq<Verdict>, out: seq<Verdict>, batch: seq<Addr>, ip: Addr, allowlist: seq<Prefix>,
                      maxTTL: int)
    requires forall a :: a in batch ==> a == ip
    requires forall v :: v in answer ==> Bounded(v, batch, allowlist, maxTTL)
    requires forall v :: v in out ==> v.ip == ip && exists u :: u in answer && v == u.(ip := ip)
    ensures forall v :: v in out ==> InPolicy(v, maxTTL) && (IsAllowlistClamped(v) <==> Allowlisted(allowlist, ip))
    ensures Allowlisted(allowlist, ip) ==> forall v :: v in out ==> v.score == 0 && v.ttl == 0
  {
    forall v | v in out
      ensures Bounded(v, batch, allowlist, maxTTL)
    {
      var u :| u in answer && v == u.(ip := ip);
      assert u.ip == ip;
      assert v == u;
    }
  }
}
