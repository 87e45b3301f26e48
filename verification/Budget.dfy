/** Recorded AI usage and the daily token budget of one provider. */
module Budget {
  import opened Net
  import opened Options

  datatype Usage = Usage(input: int, output: int, cost: real)

  const NO_USAGE := Usage(0, 0, 0.0)

  /** One recorded call: the day of its time stamp, what it used, and the address it was about, if any. */
  datatype Row = Row(day: int, usage: Usage, ip: Addr)

  datatype TokenBudget = TokenBudget(remaining: int, dailyLimit: int)

  const NO_BUDGET := TokenBudget(0, 0)

  /** TodayUsage: the tokens recorded since the day began. */
  function Spent(rows: seq<Row>, day: int): int {
    if rows == [] then 0
    else
      var last := rows[|rows| - 1];
      Spent(rows[..|rows| - 1], day) + if last.day >= day then last.usage.input + last.usage.output else 0
  }

  function Left(rows: seq<Row>, day: int, daily: int): TokenBudget {
    if daily == 0 then NO_BUDGET
    else TokenBudget(if daily - Spent(rows, day) < 0 then 0 else daily - Spent(rows, day), daily)
  }

  /** No limit is never exceeded; any other is exactly when what was spent reaches it. */
  predicate IsExceeded(rows: seq<Row>, day: int, daily: int) {
    daily > 0 && Spent(rows, day) >= daily
  }

  /** The two columns the store adds up over the rows of a day that has begun. */
  function InputToday(rows: seq<Row>, day: int): int {
    if rows == [] then 0
    else (if rows[0].day < day then 0 else rows[0].usage.input) + InputToday(rows[1..], day)
  }

  function OutputToday(rows: seq<Row>, day: int): int {
    if rows == [] then 0
    else (if rows[0].day < day then 0 else rows[0].usage.output) + OutputToday(rows[1..], day)
  }

  lemma {:induction false} TodayAppend(rows: seq<Row>, row: Row, day: int)
    ensures InputToday(rows + [row], day) == InputToday(rows, day) + if row.day < day then 0 else row.usage.input
    ensures OutputToday(rows + [row], day) == OutputToday(rows, day) + if row.day < day then 0 else row.usage.output
  {
    if rows == [] {
      assert [row][1..] == [];
    } else {
      assert (rows + [row])[1..] == rows[1..] + [row];
      TodayAppend(rows[1..], row, day);
    }
  }

  /** Tokens in and out both count, and the rows of earlier days do not. */
  lemma {:induction false} SpentIsInputAndOutput(rows: seq<Row>, day: int)
    ensures Spent(rows, day) == InputToday(rows, day) + OutputToday(rows, day)
    ensures (forall row :: row in rows ==> row.day < day) ==> Spent(rows, day) == 0
  {
    if rows != [] {
      var n := |rows| - 1;
      SpentIsInputAndOutput(rows[..n], day);
      TodayAppend(rows[..n], rows[n], day);
      assert rows == rows[..n] + [rows[n]];
    }
  }

  /** A limit is reached exactly when the day's tokens, in and out, reach it. */
  lemma {:induction false} ExceededIff(rows: seq<Row>, day: int, daily: int)
    ensures IsExceeded(rows, day, daily) <==> daily > 0 && InputToday(rows, day) + OutputToday(rows, day) >= daily
  {
    SpentIsInputAndOutput(rows, day);
  }

  function Recorded(day: int, usage: Usage, ip: Addr): Row {
    Row(day, usage, if ip.IsValid() then ip.Unmap() else NoAddr)
  }

  /** Usage is filed under one form of an address: an IPv4 address, mapped or not, under the IPv4 one; and under none
      when the call was about no address. */
  lemma RecordedAddress(day: int, usage: Usage, bits: nat, zone: string)
    ensures Recorded(day, usage, V4(bits)) == Recorded(day, usage, Mapped(bits, zone)) == Row(day, usage, V4(bits))
    ensures Recorded(day, usage, V6(bits, zone)) == Row(day, usage, V6(bits, zone))
    ensures Recorded(day, usage, NoAddr) == Row(day, usage, NoAddr)
  {
  }

  /** Whether a consuming call that has recorded its usage notifies: a limit is set and reached, and today's breach was
      not noted before. */
  predicate Notifies(rows: seq<Row>, notified: Option<int>, day: int, daily: int) {
    daily != 0 && Spent(rows, day) >= daily && notified != Some(day)
  }

  /** What is recorded for every provider. */
  type Usages = map<string, seq<Row>>

  function RowsOf(usages: Usages, provider: string): seq<Row> {
    if provider in usages then usages[provider] else []
  }

  class Store {
    var usages: Usages

    method RecordUsage(provider: string, row: Row)
      modifies this
      ensures RowsOf(usages, provider) == RowsOf(old(usages), provider) + [row]
      ensures forall p :: p != provider ==> RowsOf(usages, p) == RowsOf(old(usages), p)
    {
      usages := usages[provider := RowsOf(usages, provider) + [row]];
    }
  }

  /** fails, recordFails and readFails say whether the store call in question returns an error. */
  class Budget {
    const provider: string
    const daily: int
    const store: Store
    var notifiedDay: Option<int>

    constructor (provider: string, daily: int, store: Store)
      ensures this.provider == provider && this.daily == daily && this.store == store && notifiedDay == None
    {
      this.provider, this.daily, this.store, notifiedDay := provider, daily, store, None;
    }

    method Current(day: int, fails: bool) returns (b: Option<TokenBudget>)
      ensures b == if daily != 0 && fails then None else Some(Left(RowsOf(store.usages, provider), day, daily))
      ensures b.Some? ==> b.value.dailyLimit == daily && 0 <= b.value.remaining
      ensures b.Some? && daily != 0 ==>
                var rows := RowsOf(store.usages, provider);
                var left := daily - InputToday(rows, day) - OutputToday(rows, day);
                b.value.remaining == if left < 0 then 0 else left
      ensures b.Some? && daily > 0 ==>
                (b.value.remaining == 0 <==> IsExceeded(RowsOf(store.usages, provider), day, daily))
    {
      if daily == 0 {
        return Some(NO_BUDGET);
      }
      if fails {
        return None;
      }
      SpentIsInputAndOutput(RowsOf(store.usages, provider), day);
      var spent := Spent(RowsOf(store.usages, provider), day);
      var remaining := daily - spent;
      if remaining < 0 {
        remaining := 0;
      }
      return Some(TokenBudget(remaining, daily));
    }

    method Exceeded(day: int, fails: bool) returns (r: Option<bool>)
      ensures r == if daily != 0 && fails then None else Some(IsExceeded(RowsOf(store.usages, provider), day, daily))
      ensures r.Some? ==>
                var rows := RowsOf(store.usages, provider);
                r.value <==> daily > 0 && InputToday(rows, day) + OutputToday(rows, day) >= daily
    {
      ExceededIff(RowsOf(store.usages, provider), day, daily);
      var b := Current(day, fails);
      if b.None? {
        return None;
      }
      return Some(b.value.dailyLimit > 0 && b.value.remaining == 0);
    }

    /** True for the first call of its day. */
    method NoteExceededToday(today: int) returns (first: bool)
      modifies this
      ensures first <==> old(notifiedDay) != Some(today)
      ensures notifiedDay == Some(today)
    {
      if notifiedDay == Some(today) {
        return false;
      }
      notifiedDay := Some(today);
      return true;
    }

    /** A call that runs alone: its usage is recorded under this provider only, and it notifies just when its day's
        limit is reached for the first time. */
    method Consume(usage: Usage, ip: Addr, day: int, recordFails: bool, readFails: bool) returns (r: Option<bool>)
      modifies this, store
      ensures RowsOf(store.usages, provider)
           == RowsOf(old(store.usages), provider) + if recordFails then [] else [Recorded(day, usage, ip)]
      ensures forall p :: p != provider ==> RowsOf(store.usages, p) == RowsOf(old(store.usages), p)
      ensures r.None? <==> recordFails || (daily != 0 && readFails)
      ensures !recordFails ==>
                var before, after := RowsOf(old(store.usages), provider), RowsOf(store.usages, provider);
                && InputToday(after, day) == InputToday(before, day) + usage.input
                && OutputToday(after, day) == OutputToday(before, day) + usage.output
      ensures r.Some? && daily > 0 ==>
                var after := RowsOf(store.usages, provider);
                r.value <==> InputToday(after, day) + OutputToday(after, day) >= daily && old(notifiedDay) != Some(day)
      ensures r.Some? ==> (r.value <==> Notifies(RowsOf(store.usages, provider), old(notifiedDay), day, daily))
      ensures notifiedDay == if r == Some(true) then Some(day) else old(notifiedDay)
    {
      if recordFails {
        return None;
      }
      TodayAppend(RowsOf(store.usages, provider), Recorded(day, usage, ip), day);
      store.RecordUsage(provider, Recorded(day, usage, ip));
      SpentIsInputAndOutput(RowsOf(store.usages, provider), day);
      if daily == 0 {
        return Some(false);
      }
      var b := Current(day, readFails);
      if b.None? {
        return None;
      }
      if b.value.remaining == 0 {
        var first := NoteExceededToday(day);
        return Some(first);
      }
      return Some(false);
    }
  }
}
