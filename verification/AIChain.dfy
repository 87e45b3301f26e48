/** The failover chain: providers in the order of their priority, each with its own daily budget. */
module AIChain {
  import opened Budget
  import opened Net
  import opened Options

  datatype ProviderCfg = ProviderCfg(name: string, priority: int, tokenBudgetDaily: int, settings: string)

  /* ---- Names of the budgets ---- */

  predicate IsDigit(c: char) {
    '0' <= c <= '9'
  }

  function Digit(n: nat): (c: char)
    requires n < 10
    ensures IsDigit(c)
  {
    '0' + n as char
  }

  function Decimal(n: nat): (s: string)
    ensures s != [] && forall i :: 0 <= i < |s| ==> IsDigit(s[i])
  {
    if n < 10 then [Digit(n)] else Decimal(n / 10) + [Digit(n % 10)]
  }

  function BudgetName(name: string, idx: nat): string {
    name + "-" + Decimal(idx)
  }

  lemma {:induction false} DecimalInjective(m: nat, n: nat)
    requires Decimal(m) == Decimal(n)
    ensures m == n
  {
    var s, t := Decimal(m), Decimal(n);
    assert s[|s| - 1] == Digit(m % 10) && t[|t| - 1] == Digit(n % 10);
    if m >= 10 && n >= 10 {
      assert s[..|s| - 1] == Decimal(m / 10) && t[..|t| - 1] == Decimal(n / 10);
      DecimalInjective(m / 10, n / 10);
    }
  }

  /** The number that digits stand for. */
  function Value(s: string): int {
    if s == [] then 0 else 10 * Value(s[..|s| - 1]) + (s[|s| - 1] as int - '0' as int)
  }

  /** A budget name is the provider's, a hyphen, and the position in decimal without leading zeros. */
  lemma {:induction false} BudgetNameReads(name: string, n: nat)
    ensures Value(Decimal(n)) == n && (Decimal(n)[0] == '0' ==> n == 0)
    ensures BudgetName(name, n) == name + "-" + Decimal(n)
  {
    if n >= 10 {
      BudgetNameReads(name, n / 10);
      assert Decimal(n)[..|Decimal(n)| - 1] == Decimal(n / 10);
    }
  }

  /** Two positions never share a budget name, whatever the providers are called. */
  lemma {:induction false} BudgetNamesDiffer(a: string, i: nat, b: string, j: nat)
    ensures BudgetName(a, i) == BudgetName(b, j) <==> a == b && i == j
  {
    var s, t := BudgetName(a, i), BudgetName(b, j);
    if s == t {
      var m, n := |Decimal(i)|, |Decimal(j)|;
      assert s[|s| - m - 1] == '-' && t[|t| - n - 1] == '-';
      assert s[|s| - m..] == Decimal(i) && t[|t| - n..] == Decimal(j);
      DecimalInjective(i, j);
      assert s[..|s| - m - 1] == a && t[..|t| - n - 1] == b;
    }
  }

  /* ---- Priority order ---- */

  /** Config entry a is tried before config entry b. */
  predicate Before(cfgs: seq<ProviderCfg>, a: int, b: int)
    requires 0 <= a < |cfgs| && 0 <= b < |cfgs|
  {
    cfgs[a].priority < cfgs[b].priority || (cfgs[a].priority == cfgs[b].priority && a < b)
  }

  /** sorted lists the entries of cfgs at the positions in order, each once; at is the inverse of order. */
  ghost predicate Permuted(cfgs: seq<ProviderCfg>, sorted: seq<ProviderCfg>, order: seq<int>, at: seq<int>) {
    && |sorted| == |order| == |at| == |cfgs|
    && (forall i :: 0 <= i < |order| ==> 0 <= order[i] < |cfgs| && sorted[i] == cfgs[order[i]] && at[order[i]] == i)
    && (forall i :: 0 <= i < |at| ==> 0 <= at[i] < |order| && order[at[i]] == i)
  }

  ghost predicate Ascending(cfgs: seq<ProviderCfg>, order: seq<int>, n: nat) {
    && n <= |order| && (forall i :: 0 <= i < |order| ==> 0 <= order[i] < |cfgs|)
    && forall i, j :: 0 <= i < j < n ==> Before(cfgs, order[i], order[j])
  }

  /** Inserting config entry i: it is at j, what was before it in order is on either side of j, and it comes before what
      is on the right. */
  ghost predicate Inserting(cfgs: seq<ProviderCfg>, order: seq<int>, i: nat, j: nat) {
    && j <= i < |order| == |cfgs| && order[j] == i
    && (forall k :: 0 <= k <= i && k != j ==> 0 <= order[k] < i)
    && (forall k :: i < k < |order| ==> order[k] == k)
    && (forall k, m :: 0 <= k < m <= i && k != j && m != j ==> Before(cfgs, order[k], order[m]))
    && (forall k :: j < k <= i ==> Before(cfgs, i, order[k]))
  }

  /** The first i entries are in order, the others untouched. */
  ghost predicate Inserted(cfgs: seq<ProviderCfg>, order: seq<int>, i: nat) {
    && i <= |order| == |cfgs|
    && (forall k :: 0 <= k < i ==> 0 <= order[k] < i)
    && (forall k :: i <= k < |order| ==> order[k] == k)
    && (forall k, m :: 0 <= k < m < i ==> Before(cfgs, order[k], order[m]))
  }

  lemma StartInserting(cfgs: seq<ProviderCfg>, order: seq<int>, i: nat)
    requires Inserted(cfgs, order, i) && i < |order|
    ensures Inserting(cfgs, order, i, i)
  {
  }

  function Swapped<T>(s: seq<T>, j: nat): seq<T>
    requires 0 < j < |s|
  {
    s[j := s[j - 1]][j - 1 := s[j]]
  }

  /** One turn of the inner loop. */
  lemma SwapStep(cfgs: seq<ProviderCfg>, sorted: seq<ProviderCfg>, order: seq<int>, at: seq<int>, i: nat, j: nat)
    requires Permuted(cfgs, sorted, order, at) && Inserting(cfgs, order, i, j)
    requires 0 < j < |sorted| && sorted[j].priority < sorted[j - 1].priority
    ensures 0 <= order[j] < |at| && 0 <= order[j - 1] < |at| && j < |order|
    ensures Permuted(cfgs, Swapped(sorted, j), Swapped(order, j), SwappedInverse(at, order, j))
    ensures Inserting(cfgs, Swapped(order, j), i, j - 1) && |Swapped(order, j)| == |order|
  {
    SwapPermutes(cfgs, sorted, order, at, j);
    SwapInserts(cfgs, order, i, j);
  }

  /** The end of the inner loop. */
  lemma InsertStep(cfgs: seq<ProviderCfg>, sorted: seq<ProviderCfg>, order: seq<int>, at: seq<int>, i: nat, j: nat)
    requires Permuted(cfgs, sorted, order, at) && Inserting(cfgs, order, i, j)
    requires j < |sorted| && (j > 0 ==> sorted[j].priority >= sorted[j - 1].priority)
    ensures Inserted(cfgs, order, i + 1)
  {
    InsertingIsInserted(cfgs, order, i, j);
  }

  lemma Identity(cfgs: seq<ProviderCfg>) returns (order: seq<int>)
    ensures |order| == |cfgs| && Permuted(cfgs, cfgs, order, order) && (|cfgs| > 0 ==> Inserted(cfgs, order, 1))
  {
    order := seq(|cfgs|, i => i);
  }

  lemma InsertedIsAscending(cfgs: seq<ProviderCfg>, sorted: seq<ProviderCfg>, order: seq<int>, at: seq<int>)
    requires Permuted(cfgs, sorted, order, at) && (|cfgs| > 0 ==> Inserted(cfgs, order, |order|))
    ensures Ascending(cfgs, order, |order|)
  {
  }

  lemma SwapPermutes(cfgs: seq<ProviderCfg>, sorted: seq<ProviderCfg>, order: seq<int>, at: seq<int>, j: nat)
    requires Permuted(cfgs, sorted, order, at) && 0 < j < |order|
    ensures Permuted(cfgs, Swapped(sorted, j), Swapped(order, j), SwappedInverse(at, order, j))
  {
  }

  /** The inverse of order once its elements j and j - 1 are swapped. */
  function SwappedInverse(at: seq<int>, order: seq<int>, j: nat): seq<int>
    requires 0 < j < |order| && 0 <= order[j] < |at| && 0 <= order[j - 1] < |at|
  {
    at[order[j] := j - 1][order[j - 1] := j]
  }

  lemma SwapIs(a: seq<ProviderCfg>, b: seq<ProviderCfg>, j: nat)
    requires 0 < j < |a| && b == a[j := a[j - 1]][j - 1 := a[j]]
    ensures b == Swapped(a, j)
  {
  }

  lemma SwapInserts(cfgs: seq<ProviderCfg>, order: seq<int>, i: nat, j: nat)
    requires Inserting(cfgs, order, i, j) && 0 < j
    requires cfgs[i].priority < cfgs[order[j - 1]].priority
    ensures Inserting(cfgs, Swapped(order, j), i, j - 1)
  {
  }

  lemma InsertingIsInserted(cfgs: seq<ProviderCfg>, order: seq<int>, i: nat, j: nat)
    requires Inserting(cfgs, order, i, j)
    requires j > 0 ==> cfgs[i].priority >= cfgs[order[j - 1]].priority
    ensures Inserted(cfgs, order, i + 1)
  {
    forall k, m | 0 <= k < m < i + 1 ensures Before(cfgs, order[k], order[m]) {
      if m == j && k < j - 1 {
        assert Before(cfgs, order[k], order[j - 1]);
      }
    }
  }

  /** The inner loop: entry i moves left past every entry with a higher priority number. */
  method InsertEntry(sorted: array<ProviderCfg>, i: nat, ghost cfgs: seq<ProviderCfg>, ghost before: seq<int>,
                     ghost inverse: seq<int>)
      returns (ghost order: seq<int>, ghost at: seq<int>)
    requires i < sorted.Length == |before| && Permuted(cfgs, sorted[..], before, inverse) && Inserted(cfgs, before, i)
    modifies sorted
    ensures |order| == sorted.Length && Permuted(cfgs, sorted[..], order, at) && Inserted(cfgs, order, i + 1)
  {
    hide *;
    order, at := before, inverse;
    ghost var now := sorted[..];
    StartInserting(cfgs, order, i);
    var j := i;
    while j > 0 && sorted[j].priority < sorted[j - 1].priority
      invariant 0 <= j <= i && |order| == sorted.Length
      invariant sorted[..] == now && Permuted(cfgs, now, order, at)
      invariant Inserting(cfgs, order, i, j)
    {
      SwapStep(cfgs, now, order, at, i, j);
      sorted[j], sorted[j - 1] := sorted[j - 1], sorted[j];
      SwapIs(now, sorted[..], j);
      now, order, at := Swapped(now, j), Swapped(order, j), SwappedInverse(at, order, j);
      j := j - 1;
    }
    InsertStep(cfgs, now, order, at, i, j);
  }

  /** The in-place insertion sort: afterwards every config entry is there once, in the order of priority and then of
      config position. */
  method SortByPriority(sorted: array<ProviderCfg>) returns (ghost order: seq<int>, ghost at: seq<int>)
    modifies sorted
    ensures Permuted(old(sorted[..]), sorted[..], order, at)
    ensures Ascending(old(sorted[..]), order, |order|)
    ensures forall i, j :: 0 <= i < j < sorted.Length ==> sorted[i].priority <= sorted[j].priority
  {
    ghost var cfgs := sorted[..];
    hide *;
    order := Identity(cfgs);
    at := order;
    var n := sorted.Length;
    var i := 1;
    while i < n
      invariant 1 <= i && (i <= n || n == 0) && |order| == n
      invariant Permuted(cfgs, sorted[..], order, at)
      invariant n > 0 ==> Inserted(cfgs, order, i)
    {
      order, at := InsertEntry(sorted, i, cfgs, order, at);
      i := i + 1;
    }
    InsertedIsAscending(cfgs, sorted[..], order, at);
    PrioritiesAscend(cfgs, sorted[..], order, at);
  }

  lemma PrioritiesAscend(cfgs: seq<ProviderCfg>, sorted: seq<ProviderCfg>, order: seq<int>, at: seq<int>)
    requires Permuted(cfgs, sorted, order, at) && Ascending(cfgs, order, |order|)
    ensures forall i, j :: 0 <= i < j < |sorted| ==> sorted[i].priority <= sorted[j].priority
  {
  }

  /* ---- The chain ---- */

  /** A provider that was constructed from a config entry. */
  datatype Provider = Provider(cfg: ProviderCfg)

  datatype ChainEntry = ChainEntry(provider: Provider, budget: Option<Budget>)

  datatype Verdicts = Verdicts(text: string)

  datatype Answer = Success(verdicts: Verdicts, usage: Usage) | Canceled | Failure

  /** One run of the chain: the day, what each entry's provider answers to its budget hint, and the store calls that
      fail. */
  datatype World = World(day: int, answer: (nat, TokenBudget) -> Answer, checkFails: nat -> bool,
                         hintFails: nat -> bool, recordFails: nat -> bool, readFails: nat -> bool)

  datatype Reply = Reply(verdicts: Option<Verdicts>, usage: Usage, canceled: bool)

  const NOTHING := Reply(None, NO_USAGE, false)

  /** Entry k is within its budget, as far as the store can tell. */
  ghost predicate InBudget(entries: seq<ChainEntry>, usages: Usages, w: World, k: nat)
    requires k < |entries|
  {
    entries[k].budget.Some? ==>
      var b := entries[k].budget.value;
      !(b.daily != 0 && w.checkFails(k)) && !IsExceeded(RowsOf(usages, b.provider), w.day, b.daily)
  }

  /** The budget hint entry k's provider gets. */
  ghost function Hint(entries: seq<ChainEntry>, usages: Usages, w: World, k: nat): TokenBudget
    requires k < |entries|
  {
    if entries[k].budget.None? then NO_BUDGET
    else
      var b := entries[k].budget.value;
      if b.daily != 0 && w.hintFails(k) then NO_BUDGET else Left(RowsOf(usages, b.provider), w.day, b.daily)
  }

  /** Entry k would end the chain: it is in budget and its provider does not fail. */
  ghost predicate Ends(entries: seq<ChainEntry>, usages: Usages, w: World, k: nat) {
    k < |entries| && InBudget(entries, usages, w, k) && !w.answer(k, Hint(entries, usages, w, k)).Failure?
  }

  /** What the store says is left of a limit. */
  lemma {:induction false} HintIs(entries: seq<ChainEntry>, usages: Usages, w: World, k: nat)
    requires k < |entries| && entries[k].budget.Some?
    ensures var b := entries[k].budget.value;
            var rows := RowsOf(usages, b.provider);
            var left := b.daily - InputToday(rows, w.day) - OutputToday(rows, w.day);
            Hint(entries, usages, w, k)
            == if b.daily == 0 || w.hintFails(k) then TokenBudget(0, 0)
               else TokenBudget(if left < 0 then 0 else left, b.daily)
  {
    SpentIsInputAndOutput(RowsOf(usages, entries[k].budget.value.provider), w.day);
  }

  /** An entry ends the chain exactly when its provider does not fail and its budget, if it has one with a limit, could
      be checked and is not used up by the day's tokens. */
  lemma {:induction false} EndsIff(entries: seq<ChainEntry>, usages: Usages, w: World, k: nat)
    requires k < |entries| && entries[k].budget.Some?
    ensures var b := entries[k].budget.value;
            var rows := RowsOf(usages, b.provider);
            Ends(entries, usages, w, k) <==>
              && !w.answer(k, Hint(entries, usages, w, k)).Failure?
              && (b.daily == 0 || !w.checkFails(k))
              && (b.daily <= 0 || InputToday(rows, w.day) + OutputToday(rows, w.day) < b.daily)
  {
    ExceededIff(RowsOf(usages, entries[k].budget.value.provider), w.day, entries[k].budget.value.daily);
  }

  /** The first entry that ends the chain, if any does. */
  ghost predicate Decides(entries: seq<ChainEntry>, usages: Usages, w: World, winner: Option<nat>) {
    match winner
    case None => forall k: nat :: !Ends(entries, usages, w, k)
    case Some(e) => Ends(entries, usages, w, e) && forall k: nat :: k < e ==> !Ends(entries, usages, w, k)
  }

  /** What the chain replies when winner decides: its verdicts and usage, or its cancellation. */
  ghost function ReplyOf(entries: seq<ChainEntry>, usages: Usages, w: World, winner: Option<nat>): Reply
    requires Decides(entries, usages, w, winner)
  {
    match winner
    case None => NOTHING
    case Some(e) =>
      match w.answer(e, Hint(entries, usages, w, e))
      case Success(verdicts, usage) => Reply(Some(verdicts), usage, false)
      case Canceled => NOTHING.(canceled := true)
  }

  /** Only the entry that answered is charged, with exactly its usage, for the address the batch is about. */
  ghost predicate Charged(before: Usages, after: Usages, entries: seq<ChainEntry>, batch: seq<Addr>, w: World,
                          winner: Option<nat>, r: Reply) {
    forall p :: RowsOf(after, p) == RowsOf(before, p) +
      if winner.Some? && winner.value < |entries| && r.verdicts.Some? && entries[winner.value].budget.Some?
         && p == entries[winner.value].budget.value.provider && !w.recordFails(winner.value)
      then [Recorded(w.day, r.usage, if batch != [] then batch[0] else NoAddr)] else []
  }

  /** The winner is charged what its provider used, on the day of the run and for the first address of the batch; no
      other budget is charged. */
  lemma WinnerPays(before: Usages, after: Usages, entries: seq<ChainEntry>, batch: seq<Addr>, w: World, e: nat,
                   verdicts: Verdicts, usage: Usage)
    requires Decides(entries, before, w, Some(e)) && e < |entries| && entries[e].budget.Some?
    requires w.answer(e, Hint(entries, before, w, e)) == Success(verdicts, usage)
    requires Charged(before, after, entries, batch, w, Some(e), ReplyOf(entries, before, w, Some(e)))
    ensures ReplyOf(entries, before, w, Some(e)) == Reply(Some(verdicts), usage, false)
    ensures var p := entries[e].budget.value.provider;
            && (w.recordFails(e) ==> RowsOf(after, p) == RowsOf(before, p))
            && (!w.recordFails(e) ==>
                  && RowsOf(after, p) != [] && RowsOf(after, p)[..|RowsOf(after, p)| - 1] == RowsOf(before, p)
                  && var row := RowsOf(after, p)[|RowsOf(after, p)| - 1];
                     && row.day == w.day && row.usage == usage
                     && (batch != [] && batch[0].V4? ==> row.ip == batch[0])
                     && (batch == [] ==> row.ip == NoAddr))
            && forall q :: q != p ==> RowsOf(after, q) == RowsOf(before, q)
  {
  }

  class ChainProvider {
    const entries: seq<ChainEntry>
    const store: Store

    constructor (entries: seq<ChainEntry>, store: Store)
      ensures this.entries == entries && this.store == store
    {
      this.entries, this.store := entries, store;
    }

    ghost predicate Valid() {
      forall k :: 0 <= k < |entries| && entries[k].budget.Some? ==> entries[k].budget.value.store == store
    }

    ghost function Budgets(): set<object> {
      set k | 0 <= k < |entries| && entries[k].budget.Some? :: entries[k].budget.value
    }

    /** The first entry that ends the chain decides: its verdicts and its usage are returned and only its budget is
        charged, with exactly its usage, or it was cancelled, which is the only error. When no entry ends the chain
        there is no answer and no error. */
    method Analyze(batch: seq<Addr>, w: World) returns (r: Reply, ghost winner: Option<nat>)
      requires Valid()
      modifies store, Budgets()
      ensures Decides(entries, old(store.usages), w, winner)
      ensures r == ReplyOf(entries, old(store.usages), w, winner)
      ensures Charged(old(store.usages), store.usages, entries, batch, w, winner, r)
      ensures forall b: Budget | b in Budgets() :: b.notifiedDay != old(b.notifiedDay) ==>
                && winner.Some? && r.verdicts.Some? && entries[winner.value].budget == Some(b)
                && Notifies(RowsOf(store.usages, b.provider), old(b.notifiedDay), w.day, b.daily)
                && b.notifiedDay == Some(w.day)
    {
      hide Spent, InputToday, OutputToday, IsExceeded, Left, Notifies, RowsOf;
      for k := 0 to |entries|
        invariant forall m: nat :: m < k ==> !Ends(entries, old(store.usages), w, m)
        invariant unchanged(store, Budgets())
      {
        var entry := entries[k];
        if entry.budget.Some? {
          var exceeded := entry.budget.value.Exceeded(w.day, w.checkFails(k));
          if exceeded.None? {
            continue;
          }
          if exceeded.value {
            continue;
          }
        }
        var budget := NO_BUDGET;
        if entry.budget.Some? {
          var b := entry.budget.value.Current(w.day, w.hintFails(k));
          if b.Some? {
            budget := b.value;
          }
        }
        match w.answer(k, budget)
        case Canceled =>
          return NOTHING.(canceled := true), Some(k);
        case Failure =>
          continue;
        case Success(verdicts, usage) =>
          var analyzedIP := if batch != [] then batch[0] else NoAddr;
          if entry.budget.Some? {
            var _ := entry.budget.value.Consume(usage, analyzedIP, w.day, w.recordFails(k), w.readFails(k));
          }
          return Reply(Some(verdicts), usage, false), Some(k);
      }
      return NOTHING, None;
    }
  }

  /* ---- Building the chain ---- */

  /** mergeProviderCfg and the constructors: which config entries give a provider. */
  datatype Setup = Setup(cfgs: seq<ProviderCfg>, tokenBudgetDaily: int, constructs: ProviderCfg -> bool)

  function Daily(s: Setup, cfg: ProviderCfg): int {
    if cfg.tokenBudgetDaily == 0 then s.tokenBudgetDaily else cfg.tokenBudgetDaily
  }

  /** Entries is the chain of the first n positions of the order: origins[e] is the config position entry e comes from,
      and idx[e] its position in the order, which names its budget. */
  ghost predicate ChainOf(s: Setup, order: seq<int>, n: nat, entries: seq<ChainEntry>, origins: seq<int>,
                          idx: seq<int>, store: Store) {
    && Ascending(s.cfgs, order, |order|) && n <= |order|
    && |entries| == |origins| == |idx|
    && (forall e :: 0 <= e < |entries| ==>
         && 0 <= idx[e] < n && origins[e] == order[idx[e]]
         && EntryOf(s, s.cfgs[origins[e]], idx[e], entries[e], store))
    && (forall e, f :: 0 <= e < f < |entries| ==> idx[e] < idx[f])
    && (forall k :: 0 <= k < n && s.constructs(s.cfgs[order[k]]) ==> k in idx)
  }

  ghost predicate EntryOf(s: Setup, cfg: ProviderCfg, idx: nat, entry: ChainEntry, store: Store) {
    && s.constructs(cfg) && entry.provider == Provider(cfg)
    && entry.budget.Some? && entry.budget.value.store == store
    && entry.budget.value.provider == BudgetName(cfg.name, idx) && entry.budget.value.daily == Daily(s, cfg)
  }

  /** Each entry of a chain is the provider of its config entry, with a budget under its own name and its own limit, or
      the common one when it sets none. */
  lemma {:induction false} ChainBudgets(s: Setup, order: seq<int>, n: nat, entries: seq<ChainEntry>, origins: seq<int>,
                                        idx: seq<int>, store: Store, e: nat)
    requires ChainOf(s, order, n, entries, origins, idx, store) && e < |entries|
    ensures 0 <= origins[e] < |s.cfgs| && idx[e] >= 0 && s.constructs(s.cfgs[origins[e]])
    ensures var cfg, b := s.cfgs[origins[e]], entries[e].budget;
            && entries[e].provider.cfg == cfg
            && b.Some? && b.value.store == store && b.value.provider == cfg.name + "-" + Decimal(idx[e])
            && (cfg.tokenBudgetDaily != 0 ==> b.value.daily == cfg.tokenBudgetDaily)
            && (cfg.tokenBudgetDaily == 0 ==> b.value.daily == s.tokenBudgetDaily)
  {
    assert EntryOf(s, s.cfgs[origins[e]], idx[e], entries[e], store);
  }

  lemma ChainSkips(s: Setup, order: seq<int>, n: nat, entries: seq<ChainEntry>, origins: seq<int>, idx: seq<int>,
                   store: Store)
    requires ChainOf(s, order, n, entries, origins, idx, store) && n < |order|
    requires !s.constructs(s.cfgs[order[n]])
    ensures ChainOf(s, order, n + 1, entries, origins, idx, store)
  {
  }

  lemma ChainGrows(s: Setup, order: seq<int>, n: nat, entries: seq<ChainEntry>, origins: seq<int>, idx: seq<int>,
                   store: Store, entry: ChainEntry)
    requires ChainOf(s, order, n, entries, origins, idx, store) && n < |order|
    requires EntryOf(s, s.cfgs[order[n]], n, entry, store)
    ensures ChainOf(s, order, n + 1, entries + [entry], origins + [order[n]], idx + [n], store)
  {
    hide EntryOf;
    var more := idx + [n];
    forall k | 0 <= k < n + 1 && s.constructs(s.cfgs[order[k]]) ensures k in more {
      assert k == n ==> more[|idx|] == k;
    }
  }

  lemma ChainIsWhole(s: Setup, sorted: seq<ProviderCfg>, order: seq<int>, at: seq<int>, entries: seq<ChainEntry>,
                     origins: seq<int>, idx: seq<int>, store: Store)
    requires Permuted(s.cfgs, sorted, order, at) && ChainOf(s, order, |order|, entries, origins, idx, store)
    ensures entries == [] <==> forall k :: 0 <= k < |s.cfgs| ==> !s.constructs(s.cfgs[k])
    ensures forall e :: 0 <= e < |entries| ==> entries[e].budget.Some? && entries[e].budget.value.store == store
  {
    if entries == [] {
      forall k | 0 <= k < |s.cfgs| ensures !s.constructs(s.cfgs[k]) {
        assert order[at[k]] == k;
        assert at[k] !in idx;
      }
    } else {
      assert EntryOf(s, s.cfgs[origins[0]], idx[0], entries[0], store);
    }
  }

  lemma AscendingBounds(s: Setup, sorted: seq<ProviderCfg>, order: seq<int>, at: seq<int>, k: nat)
    requires Permuted(s.cfgs, sorted, order, at) && k < |sorted|
    ensures |order| == |sorted| == |s.cfgs| && 0 <= order[k] < |s.cfgs| && sorted[k] == s.cfgs[order[k]]
  {
  }

  /** The loop of buildAIChain. */
  method BuildEntries(s: Setup, sorted: array<ProviderCfg>, store: Store, ghost order: seq<int>, ghost at: seq<int>)
      returns (entries: seq<ChainEntry>, ghost origins: seq<int>, ghost idx: seq<int>)
    requires Permuted(s.cfgs, sorted[..], order, at) && Ascending(s.cfgs, order, |order|)
    ensures |order| == sorted.Length && ChainOf(s, order, |order|, entries, origins, idx, store)
    ensures forall e :: 0 <= e < |entries| ==> entries[e].budget.Some? && fresh(entries[e].budget.value)
  {
    hide *;
    entries, origins, idx := [], [], [];
    EmptyChain(s, sorted[..], order, at, store);
    for i := 0 to sorted.Length
      invariant ChainOf(s, order, i, entries, origins, idx, store)
      invariant forall e :: 0 <= e < |entries| ==> entries[e].budget.Some? && fresh(entries[e].budget.value)
      modifies {}
    {
      AscendingBounds(s, sorted[..], order, at, i);
      var pcfg := sorted[i];
      if !s.constructs(pcfg) {
        ChainSkips(s, order, i, entries, origins, idx, store);
        continue;
      }
      var daily := pcfg.tokenBudgetDaily;
      if daily == 0 {
        daily := s.tokenBudgetDaily;
      }
      var budget := new Budget(BudgetName(pcfg.name, i), daily, store);
      var entry := ChainEntry(Provider(pcfg), Some(budget));
      EntryIs(s, pcfg, i, daily, entry, store);
      ChainGrows(s, order, i, entries, origins, idx, store, entry);
      entries, origins, idx := entries + [entry], origins + [order[i]], idx + [i];
    }
  }

  method Copied(cfgs: seq<ProviderCfg>) returns (sorted: array<ProviderCfg>)
    ensures fresh(sorted) && sorted[..] == cfgs
  {
    sorted := new ProviderCfg[|cfgs|](i requires 0 <= i < |cfgs| => cfgs[i]);
  }

  /** buildAIChain: no chain when no provider can be constructed; otherwise the chain holds exactly the constructible
      ones in the order of priority and config position. */
  method BuildAIChain(s: Setup, store: Store)
      returns (chain: Option<ChainProvider>, ghost order: seq<int>, ghost at: seq<int>, ghost origins: seq<int>,
              ghost idx: seq<int>)
    ensures chain.None? <==> forall k :: 0 <= k < |s.cfgs| ==> !s.constructs(s.cfgs[k])
    ensures chain.Some? ==> fresh(chain.value) && chain.value.store == store
    ensures chain.Some? ==> chain.value.Valid() && fresh(chain.value.Budgets())
    ensures exists sorted :: Permuted(s.cfgs, sorted, order, at)
    ensures chain.Some? ==> ChainOf(s, order, |order|, chain.value.entries, origins, idx, store)
  {
    var sorted := Copied(s.cfgs);
    order, at := SortByPriority(sorted);
    hide Permuted, Ascending, ChainOf;
    var entries;
    entries, origins, idx := BuildEntries(s, sorted, store, order, at);
    ChainIsWhole(s, sorted[..], order, at, entries, origins, idx, store);
    if entries == [] {
      chain := None;
    } else {
      var c := new ChainProvider(entries, store);
      chain := Some(c);
    }
  }

  lemma EmptyChain(s: Setup, sorted: seq<ProviderCfg>, order: seq<int>, at: seq<int>, store: Store)
    requires Permuted(s.cfgs, sorted, order, at) && Ascending(s.cfgs, order, |order|)
    ensures |order| == |sorted| == |s.cfgs| && ChainOf(s, order, 0, [], [], [], store)
  {
  }

  lemma EntryIs(s: Setup, cfg: ProviderCfg, idx: nat, daily: int, entry: ChainEntry, store: Store)
    requires s.constructs(cfg) && entry.provider == Provider(cfg) && entry.budget.Some?
            && entry.budget.value.store == store
    requires entry.budget.value.provider == BudgetName(cfg.name, idx) && entry.budget.value.daily == daily
    requires daily == if cfg.tokenBudgetDaily == 0 then s.tokenBudgetDaily else cfg.tokenBudgetDaily
    ensures EntryOf(s, cfg, idx, entry, store)
  {
  }

  /* ---- The two together ---- */

  /** In a chain, entries come in priority order and no two share a budget. */
  lemma {:induction false} ChainIsOrdered(s: Setup, order: seq<int>, entries: seq<ChainEntry>, origins: seq<int>,
                                          idx: seq<int>, store: Store, e: nat, f: nat)
    requires ChainOf(s, order, |order|, entries, origins, idx, store) && e < f < |entries|
    ensures 0 <= origins[e] < |s.cfgs| && 0 <= origins[f] < |s.cfgs| && Before(s.cfgs, origins[e], origins[f])
    ensures entries[e].budget.Some? && entries[f].budget.Some?
    ensures entries[e].budget.value.provider != entries[f].budget.value.provider
  {
    assert EntryOf(s, s.cfgs[origins[e]], idx[e], entries[e], store);
    assert EntryOf(s, s.cfgs[origins[f]], idx[f], entries[f], store);
    assert idx[e] < idx[f];
    BudgetNamesDiffer(s.cfgs[origins[e]].name, idx[e], s.cfgs[origins[f]].name, idx[f]);
  }

  /** Every constructible config entry is in the chain. */
  lemma {:induction false} ChainIsComplete(s: Setup, sorted: seq<ProviderCfg>, order: seq<int>, at: seq<int>,
                                           entries: seq<ChainEntry>,
                                           origins: seq<int>, idx: seq<int>, store: Store, k: nat)
    requires Permuted(s.cfgs, sorted, order, at) && ChainOf(s, order, |order|, entries, origins, idx, store)
    requires k < |s.cfgs| && s.constructs(s.cfgs[k])
    ensures k in origins
  {
    assert order[at[k]] == k;
    var e :| 0 <= e < |idx| && idx[e] == at[k];
    assert origins[e] == k;
  }

  /** The entry whose provider was made from config position c would end the chain. */
  ghost predicate WouldEnd(entries: seq<ChainEntry>, origins: seq<int>, usages: Usages, w: World, c: int) {
    exists e: nat :: e < |origins| && origins[e] == c && Ends(entries, usages, w, e)
  }

  /** A chain built from the configuration and asked once. The winner is the least config position, by priority and then
      by position, whose provider can be constructed, is in budget and does not fail; when there is none there is no
      answer. Only the winner is charged. */
  method Failover(s: Setup, store: Store, batch: seq<Addr>, w: World)
      returns (r: Option<Reply>, ghost entries: seq<ChainEntry>, ghost origins: seq<int>, ghost order: seq<int>,
               ghost idx: seq<int>, ghost winner: Option<nat>)
    modifies store
    ensures r.None? <==> forall k :: 0 <= k < |s.cfgs| ==> !s.constructs(s.cfgs[k])
    ensures r.None? ==> store.usages == old(store.usages)
    ensures r.Some? ==> ChainOf(s, order, |order|, entries, origins, idx, store)
    ensures r.Some? ==> |entries| == |origins| && Decides(entries, old(store.usages), w, winner)
    ensures r.Some? ==> forall k: int :: k in origins <==> 0 <= k < |s.cfgs| && s.constructs(s.cfgs[k])
    ensures r.Some? ==> r.value == ReplyOf(entries, old(store.usages), w, winner)
    ensures r.Some? ==> Charged(old(store.usages), store.usages, entries, batch, w, winner, r.value)
    ensures r.Some? && winner.Some? ==>
              && winner.value < |origins| && 0 <= origins[winner.value] < |s.cfgs|
              && WouldEnd(entries, origins, old(store.usages), w, origins[winner.value])
              && forall c: int ::
                   0 <= c < |s.cfgs| && c != origins[winner.value]
                   && WouldEnd(entries, origins, old(store.usages), w, c)
                   ==> Before(s.cfgs, origins[winner.value], c)
  {
    var chain;
    ghost var at;
    chain, order, at, origins, idx := BuildAIChain(s, store);
    if chain.None? {
      return None, [], origins, order, idx, None;
    }
    entries := chain.value.entries;
    ghost var sorted :| Permuted(s.cfgs, sorted, order, at);
    ghost var usages := store.usages;
    var reply;
    reply, winner := chain.value.Analyze(batch, w);
    r := Some(reply);
    Constructible(s, sorted, order, at, entries, origins, idx, store);
    if winner.Some? {
      WinnerIsLeast(s, order, entries, origins, idx, store, usages, w, winner.value);
    }
  }

  lemma {:induction false} Constructible(s: Setup, sorted: seq<ProviderCfg>, order: seq<int>, at: seq<int>,
                                         entries: seq<ChainEntry>, origins: seq<int>, idx: seq<int>, store: Store)
    requires Permuted(s.cfgs, sorted, order, at) && ChainOf(s, order, |order|, entries, origins, idx, store)
    ensures |entries| == |origins|
    ensures forall k: int :: k in origins <==> 0 <= k < |s.cfgs| && s.constructs(s.cfgs[k])
  {
    forall k: int ensures k in origins <==> 0 <= k < |s.cfgs| && s.constructs(s.cfgs[k]) {
      if 0 <= k < |s.cfgs| && s.constructs(s.cfgs[k]) {
        ChainIsComplete(s, sorted, order, at, entries, origins, idx, store, k);
      }
      if k in origins {
        var e :| 0 <= e < |origins| && origins[e] == k;
        assert EntryOf(s, s.cfgs[origins[e]], idx[e], entries[e], store);
      }
    }
  }

  lemma {:induction false} WinnerIsLeast(s: Setup, order: seq<int>, entries: seq<ChainEntry>, origins: seq<int>,
                                         idx: seq<int>, store: Store, usages: Usages, w: World, winner: nat)
    requires ChainOf(s, order, |order|, entries, origins, idx, store)
    requires Decides(entries, usages, w, Some(winner))
    ensures winner < |origins| && 0 <= origins[winner] < |s.cfgs|
    ensures WouldEnd(entries, origins, usages, w, origins[winner])
    ensures forall c: int :: 0 <= c < |s.cfgs| && c != origins[winner] && WouldEnd(entries, origins, usages, w, c)
                             ==> Before(s.cfgs, origins[winner], c)
  {
    hide Ends, EntryOf, ChainOf;
    ChainBounds(s, order, entries, origins, idx, store);
    EndsInside(entries, usages, w, winner);
    forall c: int | 0 <= c < |s.cfgs| && c != origins[winner] && WouldEnd(entries, origins, usages, w, c)
      ensures Before(s.cfgs, origins[winner], c)
    {
      var e: nat :| e < |origins| && origins[e] == c && Ends(entries, usages, w, e);
      ChainIsOrdered(s, order, entries, origins, idx, store, winner, e);
    }
  }

  lemma ChainBounds(s: Setup, order: seq<int>, entries: seq<ChainEntry>, origins: seq<int>, idx: seq<int>, store: Store)
    requires ChainOf(s, order, |order|, entries, origins, idx, store)
    ensures |entries| == |origins| && forall e :: 0 <= e < |origins| ==> 0 <= origins[e] < |s.cfgs|
  {
  }

  lemma EndsInside(entries: seq<ChainEntry>, usages: Usages, w: World, k: nat)
    requires Ends(entries, usages, w, k)
    ensures k < |entries|
  {
  }
}
