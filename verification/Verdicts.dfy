/** From a model's answer to bounded verdicts: score range, batch membership, allowlist and TTL policy. */
module Verdicts {
  import opened BucketTime
  import opened Net
  import opened Options
  import opened Text

  datatype Verdict = Verdict(ip: Addr, score: int, category: string, confidence: real, reason: string, source: string,
                             ttl: int)

  const SOURCE := "ai:anthropic"
  const CLAMP_SUFFIX := "+allowlist-clamp"
  const CLAMP_REASON := "clamped: allowlisted"

  predicate IsAllowlistClamped(v: Verdict) {
    |CLAMP_SUFFIX| <= |v.source| && v.source[|v.source| - |CLAMP_SUFFIX|..] == CLAMP_SUFFIX
  }

  /* ---- Loops that append what they keep ---- */

  /** What f makes of the elements of s, in order, without those it drops. */
  function Collect<A, B>(f: A -> Option<B>, s: seq<A>): seq<B> {
    if s == [] then []
    else Collect(f, s[..|s| - 1]) + match f(s[|s| - 1]) case Some(b) => [b] case None => []
  }

  lemma CollectNext<A, B>(f: A -> Option<B>, s: seq<A>, i: nat)
    requires i < |s|
    ensures Collect(f, s[..i + 1]) == Collect(f, s[..i]) + match f(s[i]) case Some(b) => [b] case None => []
  {
    assert s[..i + 1][..i] == s[..i];
  }

  lemma {:induction false} CollectHas<A, B>(f: A -> Option<B>, s: seq<A>, b: B)
    ensures b in Collect(f, s) <==> exists a :: a in s && f(a) == Some(b)
  {
    if s != [] {
      var n := |s| - 1;
      CollectHas(f, s[..n], b);
      assert s == s[..n] + [s[n]];
    }
  }

  /** The order is kept and nothing is lost or doubled: what is made of two sequences is what is made of each. */
  lemma {:induction false} CollectConcat<A, B>(f: A -> Option<B>, s: seq<A>, t: seq<A>)
    ensures Collect(f, s + t) == Collect(f, s) + Collect(f, t)
  {
    if t == [] {
      assert s + t == s;
    } else {
      var n := |t| - 1;
      CollectConcat(f, s, t[..n]);
      assert (s + t)[..|s + t| - 1] == s + t[..n];
    }
  }

  lemma CollectOne<A, B>(f: A -> Option<B>, a: A)
    ensures Collect(f, [a]) == match f(a) case Some(b) => [b] case None => []
  {
    assert [a][..0] == [];
  }

  lemma {:induction false} CollectAll<A>(f: A -> Option<A>, s: seq<A>)
    requires forall a :: a in s ==> f(a) == Some(a)
    ensures Collect(f, s) == s
  {
    if s != [] {
      var n := |s| - 1;
      CollectAll(f, s[..n]);
      assert s == s[..n] + [s[n]];
    }
  }

  /** Two such loops in a row are one. */
  lemma {:induction false} CollectTwice<A, B, C>(f: A -> Option<B>, g: B -> Option<C>, h: A -> Option<C>, s: seq<A>)
    requires forall a :: h(a) == match f(a) case Some(b) => g(b) case None => None
    ensures Collect(g, Collect(f, s)) == Collect(h, s)
  {
    if s != [] {
      var n := |s| - 1;
      CollectTwice(f, g, h, s[..n]);
      var front := Collect(f, s[..n]);
      match f(s[n])
      case None =>
        assert Collect(f, s) == front + [] == front;
        assert h(s[n]) == None;
        assert Collect(h, s) == Collect(h, s[..n]) + [] == Collect(h, s[..n]);
      case Some(b) =>
        assert (front + [b])[..|front|] == front;
        assert h(s[n]) == g(b);
    }
  }

  /* ---- The model's answer ---- */

  /** One result as decoded; ip is there when it parses. */
  datatype Item = Item(ip: Option<Addr>, score: int, category: string, confidence: real, reason: string,
                       suggestTTLSecs: int)

  /** 64-bit wrap-around. */
  function Wrap64(x: int): int {
    (x + 0x8000_0000_0000_0000) % 0x1_0000_0000_0000_0000 - 0x8000_0000_0000_0000
  }

  /** The suggested TTL in nanoseconds is the one meant exactly within about 292 years, either side of zero. */
  lemma {:induction false} TtlIsExactIff(secs: int)
    requires -0x8000_0000_0000_0000 <= secs < 0x8000_0000_0000_0000
    ensures Wrap64(secs * SECOND) == secs * SECOND <==> -9_223_372_036 <= secs <= 9_223_372_036
  {
    assert -9_223_372_036 <= secs <= 9_223_372_036 <==> -0x8000_0000_0000_0000 <= secs * SECOND < 0x8000_0000_0000_0000;
  }

  /** What a 64-bit integer keeps of any other: the same remainder, in range. */
  lemma {:induction false} Wrap64IsTwosComplement(x: int)
    ensures -0x8000_0000_0000_0000 <= Wrap64(x) < 0x8000_0000_0000_0000
    ensures exists n :: Wrap64(x) == x + n * 0x1_0000_0000_0000_0000
  {
    var n := -((x + 0x8000_0000_0000_0000) / 0x1_0000_0000_0000_0000);
    assert Wrap64(x) == x + n * 0x1_0000_0000_0000_0000;
  }

  /** A larger suggestion can come out negative, which no maximum caps. */
  lemma LongSuggestionTurnsNegative()
    ensures Wrap64(9_223_372_037 * SECOND) < 0
  {
  }

  function InRange(score: int): int {
    if score < 0 then 0 else if score > 100 then 100 else score
  }

  function FromItem(r: Item): Option<Verdict> {
    if r.ip.None? then None
    else Some(Verdict(r.ip.value, InRange(r.score), r.category, r.confidence, r.reason, SOURCE,
            Wrap64(r.suggestTTLSecs * SECOND)))
  }

  /** The verdict loop of callOnce. */
  method FromItems(results: seq<Item>) returns (verdicts: seq<Verdict>)
    ensures verdicts == Collect(FromItem, results)
  {
    verdicts := [];
    for i := 0 to |results|
      invariant verdicts == Collect(FromItem, results[..i])
    {
      CollectNext(FromItem, results, i);
      var r := results[i];
      if r.ip.None? {
        continue;
      }
      var score := r.score;
      if score < 0 {
        score := 0;
      } else if score > 100 {
        score := 100;
      }
      verdicts := verdicts + [Verdict(r.ip.value, score, r.category, r.confidence, r.reason, SOURCE,
              Wrap64(r.suggestTTLSecs * SECOND))];
    }
    assert results[..|results|] == results;
  }

  /* ---- Bounding to the batch ---- */

  predicate Observed(batch: seq<Addr>, ip: Addr) {
    exists i :: 0 <= i < |batch| && batch[i].Unmap() == ip.Unmap()
  }

  /** The form of the address the batch uses; its last form when it uses several. */
  function Canonical(batch: seq<Addr>, ip: Addr): (canonical: Addr)
    ensures Observed(batch, ip) ==> canonical in batch && canonical.Unmap() == ip.Unmap()
    ensures !Observed(batch, ip) ==> canonical == ip
  {
    if batch == [] then ip
    else
      assert forall i :: 0 <= i < |batch| - 1 ==> batch[..|batch| - 1][i] == batch[i];
      if batch[|batch| - 1].Unmap() == ip.Unmap() then batch[|batch| - 1]
      else Canonical(batch[..|batch| - 1], ip)
  }

  lemma {:induction false} CanonicalIsLast(batch: seq<Addr>, ip: Addr, i: nat)
    requires i < |batch| && batch[i].Unmap() == ip.Unmap()
    requires forall j :: i < j < |batch| ==> batch[j].Unmap() != ip.Unmap()
    ensures Canonical(batch, ip) == batch[i]
  {
    if i < |batch| - 1 {
      CanonicalIsLast(batch[..|batch| - 1], ip, i);
    }
  }

  function BoundOne(batch: seq<Addr>, v: Verdict): Option<Verdict> {
    if Observed(batch, v.ip) then Some(v.(ip := Canonical(batch, v.ip))) else None
  }

  function Bound(batch: seq<Addr>): Verdict -> Option<Verdict> {
    v => BoundOne(batch, v)
  }

  /** boundToBatch keeps exactly the verdicts on observed addresses, in order, in the batch's form of the address. */
  method BoundToBatch(verdicts: seq<Verdict>, batch: seq<Addr>) returns (out: seq<Verdict>)
    ensures out == Collect(Bound(batch), verdicts)
  {
    if verdicts == [] {
      return verdicts;
    }
    var observed: map<Addr, Addr> := map[];
    for i := 0 to |batch|
      invariant forall ip: Addr :: ip.Unmap() in observed <==> Observed(batch[..i], ip)
      invariant forall ip: Addr :: Observed(batch[..i], ip) ==> observed[ip.Unmap()] == Canonical(batch[..i], ip)
    {
      observed := observed[batch[i].Unmap() := batch[i]];
      ObservedNext(batch, i);
    }
    assert batch[..|batch|] == batch;
    out := [];
    for i := 0 to |verdicts|
      invariant out == Collect(Bound(batch), verdicts[..i])
    {
      CollectNext(Bound(batch), verdicts, i);
      var v := verdicts[i];
      if v.ip.Unmap() !in observed {
        continue;
      }
      out := out + [v.(ip := observed[v.ip.Unmap()])];
    }
    assert verdicts[..|verdicts|] == verdicts;
  }

  /** The batch knows an IPv4 address in its mapped form too, and answers in its own. */
  lemma MappedIsObserved(bits: nat, zone: string)
    ensures BoundOne([V4(bits)], Verdict(Mapped(bits, zone), 0, "", 0.0, "", "", 0)).Some?
    ensures Canonical([V4(bits)], Mapped(bits, zone)) == V4(bits)
    ensures forall other: nat :: Observed([V4(bits)], V4(other)) <==> other == bits
  {
    assert [V4(bits)][0] == V4(bits);
  }

  lemma ObservedNext(batch: seq<Addr>, i: nat)
    requires i < |batch|
    ensures forall ip: Addr :: Observed(batch[..i + 1], ip) <==>
            Observed(batch[..i], ip) || batch[i].Unmap() == ip.Unmap()
    ensures forall ip: Addr ::
              Canonical(batch[..i + 1], ip)
              == if batch[i].Unmap() == ip.Unmap() then batch[i] else Canonical(batch[..i], ip)
  {
    var more := batch[..i + 1];
    assert more[..i] == batch[..i] && more[i] == batch[i];
    forall ip: Addr ensures Observed(more, ip) <==> Observed(batch[..i], ip) || batch[i].Unmap() == ip.Unmap() {
      if Observed(batch[..i], ip) {
        var k :| 0 <= k < i && batch[..i][k].Unmap() == ip.Unmap();
        assert more[k].Unmap() == ip.Unmap();
      }
      if Observed(more, ip) {
        var k :| 0 <= k < i + 1 && more[k].Unmap() == ip.Unmap();
        assert k < i ==> batch[..i][k].Unmap() == ip.Unmap();
      }
      if batch[i].Unmap() == ip.Unmap() {
        assert more[i].Unmap() == ip.Unmap();
      }
    }
  }

  /* ---- Policy ---- */

  datatype Prefix = Prefix(contains: Addr -> bool)

  predicate Allowlisted(allowlist: seq<Prefix>, ip: Addr) {
    exists i :: 0 <= i < |allowlist| && allowlist[i].contains(ip)
  }

  function Clamped(v: Verdict, allowlist: seq<Prefix>): Verdict {
    if Allowlisted(allowlist, v.ip)
    then v.(score := 0, reason := CLAMP_REASON, source := v.source + CLAMP_SUFFIX, ttl := 0)
    else v
  }

  function Capped(v: Verdict, maxTTL: int): Verdict {
    if maxTTL > 0 && v.ttl > maxTTL then v.(ttl := maxTTL) else v
  }

  function Policy(allowlist: seq<Prefix>, maxTTL: int): Verdict -> Option<Verdict> {
    v => Some(Capped(Clamped(v, allowlist), maxTTL))
  }

  /** The inner loop of clamp. */
  method ClampOne(verdict: Verdict, allowlist: seq<Prefix>) returns (v: Verdict)
    ensures v == Clamped(verdict, allowlist)
  {
    v := verdict;
    for k := 0 to |allowlist|
      invariant v == verdict && forall m :: 0 <= m < k ==> !allowlist[m].contains(v.ip)
    {
      if allowlist[k].contains(v.ip) {
        v := v.(score := 0, reason := CLAMP_REASON, source := v.source + CLAMP_SUFFIX, ttl := 0);
        break;
      }
    }
  }

  /** clamp. */
  method Clamp(verdicts: seq<Verdict>, allowlist: seq<Prefix>, maxTTL: int) returns (out: seq<Verdict>)
    ensures out == Collect(Policy(allowlist, maxTTL), verdicts)
  {
    out := [];
    for i := 0 to |verdicts|
      invariant out == Collect(Policy(allowlist, maxTTL), verdicts[..i])
    {
      CollectNext(Policy(allowlist, maxTTL), verdicts, i);
      var v := ClampOne(verdicts[i], allowlist);
      if maxTTL > 0 && v.ttl > maxTTL {
        v := v.(ttl := maxTTL);
      }
      out := out + [v];
    }
    assert verdicts[..|verdicts|] == verdicts;
  }

  /* ---- The three together ---- */

  /** What may leave a provider: a verdict on an address of the batch, in range, within the maximum TTL, and zeroed and
      marked exactly when the address is allowlisted. */
  predicate Bounded(v: Verdict, batch: seq<Addr>, allowlist: seq<Prefix>, maxTTL: int) {
    && v.ip in batch && 0 <= v.score <= 100 && (maxTTL > 0 ==> v.ttl <= maxTTL)
    && (IsAllowlistClamped(v) <==> Allowlisted(allowlist, v.ip))
    && (Allowlisted(allowlist, v.ip) ==> v.score == 0 && v.ttl == 0 && v.reason == CLAMP_REASON)
  }

  /** What becomes of one result of the model. */
  function Judge(batch: seq<Addr>, allowlist: seq<Prefix>, maxTTL: int, r: Item): Option<Verdict> {
    match FromItem(r)
    case None => None
    case Some(v) =>
      match BoundOne(batch, v)
      case None => None
      case Some(b) => Some(Capped(Clamped(b, allowlist), maxTTL))
  }

  function Judged(batch: seq<Addr>, allowlist: seq<Prefix>, maxTTL: int): Item -> Option<Verdict> {
    r => Judge(batch, allowlist, maxTTL, r)
  }

  lemma SourceIsUnmarked(v: Verdict)
    requires v.source == SOURCE
    ensures !IsAllowlistClamped(v) && IsAllowlistClamped(v.(source := v.source + CLAMP_SUFFIX))
  {
    assert |SOURCE| < |CLAMP_SUFFIX|;
    assert (SOURCE + CLAMP_SUFFIX)[|SOURCE|..] == CLAMP_SUFFIX;
  }

  /** A result is judged exactly when its address parses and is in the batch; its verdict is bounded, and a verdict on
      an address that is not allowlisted is the model's own but for its address form, a score outside 0 to 100, which is
      taken to the nearer end, and a TTL above the maximum. */
  lemma {:induction false} JudgedIsBounded(r: Item, batch: seq<Addr>, allowlist: seq<Prefix>, maxTTL: int)
    ensures Judge(batch, allowlist, maxTTL, r).Some? <==> r.ip.Some? && Observed(batch, r.ip.value)
    ensures Judge(batch, allowlist, maxTTL, r).Some? ==>
              var v := Judge(batch, allowlist, maxTTL, r).value;
              && Bounded(v, batch, allowlist, maxTTL) && v.ip.Unmap() == r.ip.value.Unmap()
              && (Allowlisted(allowlist, v.ip) ==>
                    && v.score == 0 && v.ttl == 0 && v.category == r.category && v.confidence == r.confidence
                    && v.reason == "clamped: allowlisted" && v.source == "ai:anthropic" + "+allowlist-clamp")
              && (!Allowlisted(allowlist, v.ip) ==>
                    && v.reason == r.reason && v.source == "ai:anthropic"
                    && v.category == r.category && v.confidence == r.confidence
                    && (r.score < 0 ==> v.score == 0) && (r.score > 100 ==> v.score == 100)
                    && (0 <= r.score <= 100 ==> v.score == r.score)
                    && var meant := Wrap64(r.suggestTTLSecs * SECOND);
                       v.ttl == if maxTTL > 0 && meant > maxTTL then maxTTL else meant)
  {
    if r.ip.Some? && Observed(batch, r.ip.value) {
      SourceIsUnmarked(FromItem(r).value);
      SourceIsUnmarked(BoundOne(batch, FromItem(r).value).value);
    }
  }

  /** A provider's Analyze from the decoded answer on. */
  method Answer(results: seq<Item>, batch: seq<Addr>, allowlist: seq<Prefix>, maxTTL: int)
      returns (verdicts: seq<Verdict>)
    ensures verdicts == Collect(Judged(batch, allowlist, maxTTL), results)
    ensures forall v :: v in verdicts ==> Bounded(v, batch, allowlist, maxTTL)
  {
    hide Collect, Judge, FromItem, BoundOne, Clamped, Capped, Bounded;
    var raw := FromItems(results);
    var bound := BoundToBatch(raw, batch);
    verdicts := Clamp(bound, allowlist, maxTTL);
    StagesAreOne(results, batch, allowlist, maxTTL);
    forall v | v in verdicts ensures Bounded(v, batch, allowlist, maxTTL) {
      CollectHas(Judged(batch, allowlist, maxTTL), results, v);
      var r :| r in results && Judged(batch, allowlist, maxTTL)(r) == Some(v);
      JudgedIsBounded(r, batch, allowlist, maxTTL);
    }
  }

  /** The three loops, one after the other, are one. */
  lemma {:induction false} StagesAreOne(results: seq<Item>, batch: seq<Addr>, allowlist: seq<Prefix>, maxTTL: int)
    ensures Collect(Policy(allowlist, maxTTL), Collect(Bound(batch), Collect(FromItem, results)))
         == Collect(Judged(batch, allowlist, maxTTL), results)
  {
    hide Collect, Clamped, Capped;
    var first: Item -> Option<Verdict> := r => match FromItem(r) case None => None case Some(v) => BoundOne(batch, v);
    CollectTwice(FromItem, Bound(batch), first, results);
    CollectTwice(first, Policy(allowlist, maxTTL), Judged(batch, allowlist, maxTTL), results);
  }

  /* ---- Code fences ---- */

  predicate IsBlank(c: char) {
    c == ' ' || c == '\t' || c == '\r' || c == '\n'
  }

  function TrimRight(s: string): string {
    if s != [] && IsBlank(s[|s| - 1]) then TrimRight(s[..|s| - 1]) else s
  }

  const FENCE := "```"

  predicate EndsWithFence(s: string) {
    |s| >= 3 && s[|s| - 3..] == FENCE
  }

  function StripCodeFence(s: string): string {
    if |s| < 3 || s[..3] != FENCE || IndexOf(s, '\n') < 0 then s
    else
      var body := TrimRight(s[IndexOf(s, '\n') + 1..]);
      if EndsWithFence(body) then TrimRight(body[..|body| - 3]) else body
  }

  lemma {:induction false} TrimRightBlanks(s: string, blanks: string)
    requires forall i :: 0 <= i < |blanks| ==> IsBlank(blanks[i])
    requires s == [] || !IsBlank(s[|s| - 1])
    ensures TrimRight(s + blanks) == s
  {
    if blanks == [] {
      assert s + blanks == s;
    } else {
      var n := |blanks| - 1;
      assert (s + blanks)[..|s + blanks| - 1] == s + blanks[..n];
      TrimRightBlanks(s, blanks[..n]);
    }
  }

  lemma FirstNewline(s: string, i: nat)
    requires i < |s| && s[i] == '\n' && forall k :: 0 <= k < i ==> s[k] != '\n'
    ensures IndexOf(s, '\n') == i
  {
    assert s[i] in s;
  }

  /** Whatever language hint and blanks a fence carries, the payload inside comes out as it went in; a text without an
      opening fence is left alone. */
  lemma {:induction false} FenceVanishes(hint: string, body: string, inner: string, outer: string)
    requires '\n' !in hint && (body == [] || body[|body| - 1] !in " \t\r\n")
    requires forall i :: 0 <= i < |inner| ==> inner[i] in " \t\r\n"
    requires forall i :: 0 <= i < |outer| ==> outer[i] in " \t\r\n"
    ensures StripCodeFence(FENCE + hint + "\n" + (body + inner + FENCE + outer)) == body
    ensures |body| < 3 || body[..3] != FENCE ==> StripCodeFence(body) == body
  {
    var open := FENCE + hint;
    var rest := body + inner + FENCE + outer;
    var s := open + "\n" + rest;
    assert s[..3] == FENCE;
    assert forall k :: 0 <= k < |open| ==> s[k] == open[k] && s[k] != '\n';
    assert s[|open|] == '\n';
    FirstNewline(s, |open|);
    assert s[|open| + 1..] == rest;
    TrimRightBlanks(body + inner + FENCE, outer);
    var text := body + inner + FENCE;
    assert text[|text| - 3..] == FENCE && text[..|text| - 3] == body + inner;
    TrimRightBlanks(body, inner);
  }

  /** An opening fence is taken off although no closing one follows. */
  lemma {:induction false} OpenFenceVanishes(hint: string, body: string, blanks: string)
    requires '\n' !in hint && (body == [] || body[|body| - 1] !in " \t\r\n")
    requires forall i :: 0 <= i < |blanks| ==> blanks[i] in " \t\r\n"
    requires |body| < 3 || body[|body| - 3..] != "```"
    ensures StripCodeFence("```" + hint + "\n" + (body + blanks)) == body
  {
    var open := FENCE + hint;
    var s := open + "\n" + (body + blanks);
    assert s[..3] == FENCE;
    assert forall k :: 0 <= k < |open| ==> s[k] == open[k] && s[k] != '\n';
    assert s[|open|] == '\n';
    FirstNewline(s, |open|);
    assert s[|open| + 1..] == body + blanks;
    TrimRightBlanks(body, blanks);
  }

  /** A text comes back unchanged exactly when it does not open with a fence line; a closing fence plays no part. */
  lemma {:induction false} UnchangedIff(s: string)
    ensures StripCodeFence(s) == s <==> |s| < 3 || s[..3] != FENCE || '\n' !in s
  {
    if |s| >= 3 && s[..3] == FENCE && '\n' in s {
      var body := s[IndexOf(s, '\n') + 1..];
      TrimRightShrinks(body);
      if EndsWithFence(TrimRight(body)) {
        TrimRightShrinks(TrimRight(body)[..|TrimRight(body)| - 3]);
      }
    }
  }

  lemma {:induction false} TrimRightShrinks(s: string)
    ensures |TrimRight(s)| <= |s|
  {
    if s != [] && IsBlank(s[|s| - 1]) {
      TrimRightShrinks(s[..|s| - 1]);
    }
  }

  /** An opening fence is stripped although no closing one follows. */
  lemma OpeningFenceAlone()
    ensures var s := FENCE + "json" + "\n" + "{}";
            !EndsWithFence(s) && StripCodeFence(s) == "{}"
  {
    var s := FENCE + "json" + "\n" + "{}";
    assert s[..3] == FENCE && s[7] == '\n' && s[8..] == "{}";
    FirstNewline(s, 7);
  }
}
