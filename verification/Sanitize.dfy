/** The terminal sanitizer: a byte scanner that keeps the printable runes of a string, drops control characters,
    invalid UTF-8 and escape sequences, and caps what is left. */
module Sanitize {
  import opened Bytes

  /* ---- UTF-8, section 4 of RFC 3629 ---- */

  const RUNE_ERROR := 0xFFFD

  datatype Rune = Rune(r: int, size: nat)

  predicate Continues(b: byte) {
    0x80 <= b <= 0xBF
  }

  /** The payload of a lead byte. */
  function Lead(b: int, mark: int): int {
    b - mark
  }

  /** A code point so far, extended by a continuation byte. */
  function Extend(high: int, b: int): int {
    high * 64 + (b - 0x80)
  }

  /** utf8.DecodeRuneInString: an invalid start yields the error rune and one byte. */
  function DecodeRune(s: seq<byte>): (d: Rune)
    ensures d.size <= |s| && (s != [] ==> d.size > 0)
  {
    if s == [] then Rune(RUNE_ERROR, 0)
    else if s[0] < 0x80 then Rune(s[0], 1)
    else if 0xC2 <= s[0] <= 0xDF && |s| >= 2 && Continues(s[1]) then
      Rune(Extend(Lead(s[0], 0xC0), s[1]), 2)
    else if 0xE0 <= s[0] <= 0xEF && |s| >= 3
            && (if s[0] == 0xE0 then 0xA0 else 0x80) <= s[1] <= (if s[0] == 0xED then 0x9F else 0xBF)
            && Continues(s[2]) then
      Rune(Extend(Extend(Lead(s[0], 0xE0), s[1]), s[2]), 3)
    else if 0xF0 <= s[0] <= 0xF4 && |s| >= 4
            && (if s[0] == 0xF0 then 0x90 else 0x80) <= s[1] <= (if s[0] == 0xF4 then 0x8F else 0xBF)
            && Continues(s[2]) && Continues(s[3]) then
      Rune(Extend(Extend(Extend(Lead(s[0], 0xF0), s[1]), s[2]), s[3]), 4)
    else Rune(RUNE_ERROR, 1)
  }

  predicate IsScalar(r: int) {
    0 <= r < 0xD800 || 0xE000 <= r <= 0x10FFFF
  }

  /** strings.Builder.WriteRune, on the runes it is given here. */
  function EncodeRune(r: int): (s: seq<byte>)
    requires IsScalar(r)
    ensures 1 <= |s| <= 4
  {
    if r < 0x80 then [r]
    else if r < 0x800 then [0xC0 + r / 64, 0x80 + r % 64]
    else if r < 0x10000 then [0xE0 + r / 64 / 64, 0x80 + r / 64 % 64, 0x80 + r % 64]
    else [0xF0 + r / 64 / 64 / 64, 0x80 + r / 64 / 64 % 64, 0x80 + r / 64 % 64, 0x80 + r % 64]
  }

  predicate IsError(d: Rune) {
    d.r == RUNE_ERROR && d.size <= 1
  }

  lemma Undo(high: int, b: byte)
    requires high >= 0 && Continues(b)
    ensures Extend(high, b) / 64 == high && 0x80 + Extend(high, b) % 64 == b
  {
  }

  /** Encoding undoes decoding: a decoded rune is written back as the bytes it was read from. */
  lemma {:induction false} EncodeDecoded(s: seq<byte>)
    requires !IsError(DecodeRune(s))
    ensures var d := DecodeRune(s);
            IsScalar(d.r) && EncodeRune(d.r) == s[..d.size]
  {
    var d := DecodeRune(s);
    if d.size == 2 {
      Undo(Lead(s[0], 0xC0), s[1]);
    } else if d.size == 3 {
      Undo(Extend(Lead(s[0], 0xE0), s[1]), s[2]);
      Undo(Lead(s[0], 0xE0), s[1]);
    } else if d.size == 4 {
      Undo(Extend(Extend(Lead(s[0], 0xF0), s[1]), s[2]), s[3]);
      Undo(Extend(Lead(s[0], 0xF0), s[1]), s[2]);
      Undo(Lead(s[0], 0xF0), s[1]);
    }
  }

  /** Decoding undoes encoding, whatever follows. */
  lemma {:induction false} DecodeEncoded(r: int, rest: seq<byte>)
    requires IsScalar(r)
    ensures DecodeRune(EncodeRune(r) + rest) == Rune(r, |EncodeRune(r)|)
  {
    var p := r / 64;
    var q := p / 64;
    assert r == p * 64 + r % 64 && p == q * 64 + p % 64 && q == q / 64 * 64 + q % 64;
  }

  /** The examples of section 7 of RFC 3629 that take one, two, three and four bytes. */
  lemma KnownEncodings()
    ensures EncodeRune(0x41) == [0x41] && EncodeRune(0x391) == [0xCE, 0x91]
    ensures EncodeRune(0x2262) == [0xE2, 0x89, 0xA2] && EncodeRune(0x233B4) == [0xF0, 0xA3, 0x8E, 0xB4]
  {
  }

  ghost predicate ValidUtf8(s: seq<byte>)
    decreases |s|
  {
    s != [] ==> !IsError(DecodeRune(s)) && ValidUtf8(s[DecodeRune(s).size..])
  }

  ghost function Runes(s: seq<byte>): seq<int>
    decreases |s|
  {
    if s == [] then [] else [DecodeRune(s).r] + Runes(s[DecodeRune(s).size..])
  }

  /* ---- Escape sequences, section 5.4 of ECMA-48 ---- */

  const ESC := 0x1B
  const BEL := 0x07
  const BACKSLASH := 0x5C

  /** Where a control sequence ends: after its final byte, or before the first byte that cannot be in one. */
  function CsiEnd(s: seq<byte>, j: nat): (n: nat)
    requires j <= |s|
    ensures j <= n <= |s|
    decreases |s| - j
  {
    if j == |s| then j
    else if 0x40 <= s[j] <= 0x7E then j + 1
    else if s[j] < 0x20 || s[j] > 0x3F then j
    else CsiEnd(s, j + 1)
  }

  /** Where an operating system command ends: after BEL or ST. */
  function OscEnd(s: seq<byte>, j: nat): (n: nat)
    requires j <= |s|
    ensures j <= n <= |s|
    decreases |s| - j
  {
    if j == |s| then j
    else if s[j] == BEL then j + 1
    else if s[j] == ESC && j + 1 < |s| && s[j + 1] == BACKSLASH then j + 2
    else OscEnd(s, j + 1)
  }

  /** How many bytes after an ESC belong to its sequence. */
  function EscapeLen(s: seq<byte>): (n: nat)
    ensures n <= |s|
  {
    if s == [] then 0
    else if s[0] == '[' as int then CsiEnd(s, 1)
    else if s[0] == ']' as int then OscEnd(s, 1)
    else 1
  }

  /** escapeSeqLen. */
  method EscapeSeqLen(s: seq<byte>) returns (n: nat)
    ensures n == EscapeLen(s) && n <= |s|
  {
    if |s| == 0 {
      return 0;
    }
    if s[0] == '[' as int {
      var j := 1;
      while j < |s|
        invariant 1 <= j <= |s| && CsiEnd(s, 1) == CsiEnd(s, j)
      {
        var c := s[j];
        if c >= 0x40 && c <= 0x7E {
          return j + 1;
        }
        if c < 0x20 || c > 0x3F {
          return j;
        }
        j := j + 1;
      }
      return |s|;
    } else if s[0] == ']' as int {
      var j := 1;
      while j < |s|
        invariant 1 <= j <= |s| && OscEnd(s, 1) == OscEnd(s, j)
      {
        if s[j] == BEL {
          return j + 1;
        }
        if s[j] == ESC && j + 1 < |s| && s[j + 1] == BACKSLASH {
          return j + 2;
        }
        j := j + 1;
      }
      return |s|;
    } else {
      return 1;
    }
  }

  /* ---- What is kept ---- */

  /** The runes that never reach the terminal: C0, DEL and C1 controls. */
  predicate IsControl(r: int) {
    r < 0x20 || r == 0x7F || 0x80 <= r <= 0x9F
  }

  /** The kept runes of a string, without a cap. */
  function Kept(s: seq<byte>): seq<int>
    decreases |s|
  {
    if s == [] then []
    else
      var d := DecodeRune(s);
      var rest := s[d.size..];
      if d.r == ESC then Kept(rest[EscapeLen(rest)..])
      else if IsControl(d.r) || IsError(d) then Kept(rest)
      else [d.r] + Kept(rest)
  }

  ghost predicate AllPrintable(runes: seq<int>) {
    forall r :: r in runes ==> IsScalar(r) && !IsControl(r)
  }

  function EncodeAll(runes: seq<int>): seq<byte>
    requires forall r :: r in runes ==> IsScalar(r)
  {
    if runes == [] then [] else EncodeRune(runes[0]) + EncodeAll(runes[1..])
  }

  lemma {:induction false} KeptIsPrintable(s: seq<byte>)
    ensures AllPrintable(Kept(s))
    decreases |s|
  {
    hide DecodeRune, EscapeLen, IsScalar;
    if s != [] {
      var d := DecodeRune(s);
      var rest := s[d.size..];
      if d.r == ESC {
        KeptIsPrintable(rest[EscapeLen(rest)..]);
      } else {
        KeptIsPrintable(rest);
        if !IsError(d) {
          EncodeDecoded(s);
        }
      }
    }
  }

  lemma PrintableStart(r: int, rest: seq<byte>)
    requires IsScalar(r) && !IsControl(r)
    ensures Kept(EncodeRune(r) + rest) == [r] + Kept(rest)
  {
    DecodeEncoded(r, rest);
    SizeOfError(r);
    hide DecodeRune, EncodeRune, EscapeLen, IsScalar;
    assert (EncodeRune(r) + rest)[|EncodeRune(r)|..] == rest;
  }

  /** The replacement character itself takes three bytes, so it is not the error. */
  lemma SizeOfError(r: int)
    requires IsScalar(r)
    ensures !IsError(Rune(r, |EncodeRune(r)|))
  {
  }

  /** Every character from the blank to the tilde, and from U+00A0 on, is kept. */
  lemma {:induction false} CharacterIsKept(r: int, rest: seq<byte>)
    requires 0x20 <= r <= 0x7E || 0xA0 <= r < 0xD800 || 0xE000 <= r <= 0x10FFFF
    ensures Kept(EncodeRune(r) + rest) == [r] + Kept(rest)
  {
    PrintableStart(r, rest);
  }

  /** Every other character vanishes alone; the escape character takes its sequence with it. */
  lemma {:induction false} ControlVanishes(r: int, rest: seq<byte>)
    requires 0 <= r < 0x20 || 0x7F <= r < 0xA0
    ensures Kept(EncodeRune(r) + rest) == if r == 0x1B then Kept(rest[EscapeLen(rest)..]) else Kept(rest)
  {
    DecodeEncoded(r, rest);
    assert (EncodeRune(r) + rest)[|EncodeRune(r)|..] == rest;
  }

  /** So does a byte that starts no character. */
  lemma {:induction false} StrayByteVanishes(b: byte, rest: seq<byte>)
    requires 0x80 <= b < 0xC2 || 0xF4 < b
    ensures Kept([b] + rest) == Kept(rest)
  {
    assert ([b] + rest)[1..] == rest;
  }

  /** Printable text passes unchanged, whatever follows it. */
  lemma {:induction false} KeptOfPrintable(runes: seq<int>, rest: seq<byte>)
    requires AllPrintable(runes)
    ensures Kept(EncodeAll(runes) + rest) == runes + Kept(rest)
  {
    hide Kept, EncodeRune, IsScalar, IsControl;
    if runes == [] {
      assert EncodeAll(runes) + rest == rest && runes + Kept(rest) == Kept(rest);
    } else {
      var tail := EncodeAll(runes[1..]) + rest;
      assert EncodeAll(runes) + rest == EncodeRune(runes[0]) + tail;
      PrintableStart(runes[0], tail);
      KeptOfPrintable(runes[1..], rest);
      assert [runes[0]] + (runes[1..] + Kept(rest)) == runes + Kept(rest);
    }
  }

  /** Encoded runes are well-formed UTF-8 that decodes to them. */
  lemma {:induction false} EncodedIsValid(runes: seq<int>)
    requires forall r :: r in runes ==> IsScalar(r)
    ensures ValidUtf8(EncodeAll(runes)) && Runes(EncodeAll(runes)) == runes
  {
    if runes != [] {
      var tail := EncodeAll(runes[1..]);
      DecodeEncoded(runes[0], tail);
      SizeOfError(runes[0]);
      hide DecodeRune, EncodeRune, IsScalar;
      assert EncodeAll(runes)[|EncodeRune(runes[0])|..] == tail;
      EncodedIsValid(runes[1..]);
      assert [runes[0]] + runes[1..] == runes;
    }
  }

  /* ---- Subsequences ---- */

  ghost predicate IsSubsequence(a: seq<byte>, b: seq<byte>)
    decreases |b|
  {
    || a == []
    || (b != [] && ((a[0] == b[0] && IsSubsequence(a[1..], b[1..])) || IsSubsequence(a, b[1..])))
  }

  lemma {:induction false} SubsequenceSkips(a: seq<byte>, c: seq<byte>, b: seq<byte>)
    requires IsSubsequence(a, b)
    ensures IsSubsequence(a, c + b)
  {
    if c == [] {
      assert c + b == b;
    } else {
      SubsequenceSkips(a, c[1..], b);
      assert (c + b)[1..] == c[1..] + b;
    }
  }

  lemma {:induction false} SubsequenceShares(c: seq<byte>, a: seq<byte>, b: seq<byte>)
    requires IsSubsequence(a, b)
    ensures IsSubsequence(c + a, c + b)
  {
    if c == [] {
      assert c + a == a && c + b == b;
    } else {
      SubsequenceShares(c[1..], a, b);
      assert (c + b)[1..] == c[1..] + b && (c + a)[1..] == c[1..] + a;
    }
  }

  /** The first m kept runes, encoded, are a byte subsequence of the input. */
  lemma {:induction false} KeptIsSubsequence(s: seq<byte>, m: nat)
    requires m <= |Kept(s)|
    ensures AllPrintable(Kept(s))
    ensures IsSubsequence(EncodeAll(Kept(s)[..m]), s)
    decreases |s|
  {
    KeptIsPrintable(s);
    if s != [] && m > 0 {
      KeptStep(s, m);
    }
  }

  lemma {:induction false} KeptStep(s: seq<byte>, m: nat)
    requires s != [] && 0 < m <= |Kept(s)| && AllPrintable(Kept(s))
    ensures IsSubsequence(EncodeAll(Kept(s)[..m]), s)
    decreases |s|, 0
  {
    hide DecodeRune, EscapeLen, IsScalar, IsSubsequence, EncodeRune;
    var d := DecodeRune(s);
    var rest := s[d.size..];
    assert s == s[..d.size] + rest;
    if d.r == ESC {
      var after := rest[EscapeLen(rest)..];
      KeptIsSubsequence(after, m);
      assert rest == rest[..EscapeLen(rest)] + after;
      SubsequenceSkips(EncodeAll(Kept(s)[..m]), rest[..EscapeLen(rest)], after);
      SubsequenceSkips(EncodeAll(Kept(s)[..m]), s[..d.size], rest);
    } else if IsControl(d.r) || IsError(d) {
      KeptIsSubsequence(rest, m);
      SubsequenceSkips(EncodeAll(Kept(s)[..m]), s[..d.size], rest);
    } else {
      EncodeDecoded(s);
      KeptIsSubsequence(rest, m - 1);
      assert Kept(s)[..m][1..] == Kept(rest)[..m - 1];
      SubsequenceShares(s[..d.size], EncodeAll(Kept(rest)[..m - 1]), rest);
    }
  }

  /* ---- The sanitizer ---- */

  const ELLIPSIS := 0x2026

  /** The result: the kept runes, or the first max of them and an ellipsis. A negative max keeps none. */
  function Result(kept: seq<int>, max: int): (r: seq<int>)
    ensures AllPrintable(kept) ==> AllPrintable(r)
  {
    var m := if max < 0 then 0 else max;
    if |kept| > m then kept[..m] + [ELLIPSIS] else kept
  }

  lemma {:induction false} EncodeAppend(a: seq<int>, b: seq<int>)
    requires AllPrintable(a) && AllPrintable(b)
    ensures AllPrintable(a + b) && EncodeAll(a + b) == EncodeAll(a) + EncodeAll(b)
  {
    hide EncodeRune, IsScalar, IsControl;
    if a == [] {
      assert a + b == b;
    } else {
      EncodeAppend(a[1..], b);
      assert (a + b)[1..] == a[1..] + b;
    }
  }

  lemma EncodeOne(r: int)
    requires IsScalar(r)
    ensures EncodeAll([r]) == EncodeRune(r)
  {
    hide EncodeRune;
    assert EncodeRune(r) + [] == EncodeRune(r);
  }

  lemma AppendRune(runes: seq<int>, r: int)
    requires AllPrintable(runes) && AllPrintable([r])
    ensures AllPrintable(runes + [r]) && EncodeAll(runes + [r]) == EncodeAll(runes) + EncodeRune(r)
  {
    assert r in [r];
    EncodeAppend(runes, [r]);
    EncodeOne(r);
  }

  /** One turn of the scan. */
  lemma KeptUnfold(rest: seq<byte>)
    requires rest != []
    ensures var d := DecodeRune(rest);
            var after := rest[d.size..];
            if d.r == ESC then Kept(rest) == Kept(after[EscapeLen(after)..])
            else if IsControl(d.r) || IsError(d) then Kept(rest) == Kept(after)
            else Kept(rest) == [d.r] + Kept(after) && EncodeRune(d.r) == rest[..d.size] && AllPrintable([d.r])
  {
    hide DecodeRune, EscapeLen, EncodeRune, IsScalar;
    if !IsError(DecodeRune(rest)) {
      EncodeDecoded(rest);
    }
  }

  /** sanitizeField. */
  method SanitizeField(s: seq<byte>, max: int) returns (out: seq<byte>)
    ensures AllPrintable(Kept(s))
    ensures out == EncodeAll(Result(Kept(s), max))
  {
    hide DecodeRune, EscapeLen, EncodeRune, IsScalar, Kept;
    KeptIsPrintable(s);
    ghost var all := Kept(s);
    ghost var runes: seq<int> := [];
    var b: seq<byte> := [];
    var kept := 0;
    var truncated := false;
    var rest := s;
    NothingKept(s);
    while |rest| > 0
      invariant all == runes + Kept(rest) && kept == |runes| && AllPrintable(runes)
      invariant b == EncodeAll(runes)
      invariant kept == 0 || kept <= max
      decreases |rest|
    {
      hide EncodeAll;
      KeptUnfold(rest);
      var d := DecodeRune(rest);
      if d.r == ESC {
        rest := rest[d.size..];
        var n := EscapeSeqLen(rest);
        rest := rest[n..];
        continue;
      }
      if d.r < 0x20 || d.r == 0x7F || (d.r >= 0x80 && d.r <= 0x9F) || (d.r == RUNE_ERROR && d.size == 1) {
        rest := rest[d.size..];
        continue;
      }
      if kept >= max {
        truncated := true;
        break;
      }
      AppendRune(runes, d.r);
      b := b + EncodeRune(d.r);
      assert runes + ([d.r] + Kept(rest[d.size..])) == (runes + [d.r]) + Kept(rest[d.size..]);
      runes := runes + [d.r];
      kept := kept + 1;
      rest := rest[d.size..];
    }
    if truncated {
      assert all[..kept] == runes;
      EllipsisPrintable();
      AppendRune(runes, ELLIPSIS);
      return b + EncodeRune(ELLIPSIS);
    }
    NothingKept(rest);
    assert runes + [] == runes;
    return b;
  }

  lemma NothingKept(s: seq<byte>)
    ensures s == [] ==> Kept(s) == []
    ensures [] + Kept(s) == Kept(s) && EncodeAll([]) == [] && AllPrintable([])
  {
  }

  lemma EllipsisPrintable()
    ensures AllPrintable([ELLIPSIS])
  {
  }

  /** The output is well-formed UTF-8 without control characters, of at most max runes and an ellipsis. */
  lemma {:induction false} OutputIsSafe(s: seq<byte>, max: int)
    requires max >= 0
    ensures AllPrintable(Kept(s))
    ensures var out := EncodeAll(Result(Kept(s), max));
            && ValidUtf8(out)
            && (forall r :: r in Runes(out) ==> !IsControl(r))
            && |Runes(out)| <= max + 1
            && (|Runes(out)| == max + 1 ==> Runes(out)[max] == ELLIPSIS)
  {
    KeptIsPrintable(s);
    hide Kept, ValidUtf8, Runes, EncodeAll, IsScalar, IsControl;
    EncodedIsValid(Result(Kept(s), max));
  }

  /** Without a final ellipsis the output is a byte subsequence of the input: the first kept runes of it. */
  lemma {:induction false} OutputIsSubsequence(s: seq<byte>, max: int)
    requires max >= 0
    ensures AllPrintable(Kept(s))
    ensures var body := EncodeAll(Kept(s)[..if |Kept(s)| > max then max else |Kept(s)|]);
            && IsSubsequence(body, s)
            && EncodeAll(Result(Kept(s), max)) == if |Kept(s)| > max then body + [0xE2, 0x80, 0xA6] else body
  {
    KeptIsPrintable(s);
    assert EncodeRune(ELLIPSIS) == [0xE2, 0x80, 0xA6];
    var kept := Kept(s);
    KeptIsSubsequence(s, if |kept| > max then max else |kept|);
    hide IsSubsequence, Kept, EncodeRune, EncodeAll, IsScalar, IsControl;
    if |kept| > max {
      EllipsisPrintable();
      AppendRune(kept[..max], ELLIPSIS);
    } else {
      assert kept[..|kept|] == kept;
    }
  }

  /** Sanitizing twice is sanitizing once, truncated or not. */
  lemma {:induction false} Idempotent(s: seq<byte>, max: int)
    ensures AllPrintable(Kept(s))
    ensures var out := EncodeAll(Result(Kept(s), max));
            AllPrintable(Kept(out)) && EncodeAll(Result(Kept(out), max)) == out
  {
    KeptIsPrintable(s);
    var r := Result(Kept(s), max);
    KeptOfPrintable(r, []);
    assert EncodeAll(r) + [] == EncodeAll(r) && r + Kept([]) == r;
    hide Kept, EncodeAll;
    assert Result(r, max) == r;
  }

  /** Printable text of at most max runes comes out as it went in. */
  lemma {:induction false} PrintableUnchanged(runes: seq<int>, max: int)
    requires AllPrintable(runes) && |runes| <= max
    ensures Kept(EncodeAll(runes)) == runes && Result(runes, max) == runes
  {
    KeptOfPrintable(runes, []);
    assert EncodeAll(runes) + [] == EncodeAll(runes) && runes + Kept([]) == runes;
  }

  lemma {:induction false} CsiEndAt(s: seq<byte>, j: nat, k: nat)
    requires j <= k < |s|
    requires forall i :: j <= i < k ==> 0x20 <= s[i] <= 0x3F
    requires 0x40 <= s[k] <= 0x7E
    ensures CsiEnd(s, j) == k + 1
    decreases k - j
  {
    if j < k {
      CsiEndAt(s, j + 1, k);
    }
  }

  /** A control sequence vanishes whole: parameters, intermediates and final byte, and nothing after it. */
  lemma {:induction false} CsiVanishes(params: seq<byte>, final: byte, rest: seq<byte>)
    requires forall b :: b in params ==> 0x20 <= b <= 0x3F
    requires 0x40 <= final <= 0x7E
    ensures Kept([ESC, '[' as int] + params + [final] + rest) == Kept(rest)
  {
    var after: seq<byte> := ['[' as int] + params + [final] + rest;
    var s: seq<byte> := [ESC, '[' as int] + params + [final] + rest;
    assert s[1..] == after;
    forall i | 1 <= i < 1 + |params| ensures 0x20 <= after[i] <= 0x3F {
      assert after[i] == params[i - 1] && params[i - 1] in params;
    }
    CsiEndAt(after, 1, 1 + |params|);
    assert after[|params| + 2..] == rest;
  }

  lemma {:induction false} CsiStopsAt(s: seq<byte>, j: nat, k: nat)
    requires j <= k <= |s|
    requires forall i :: j <= i < k ==> 0x20 <= s[i] <= 0x3F
    requires k < |s| ==> s[k] < 0x20 || s[k] > 0x7E
    ensures CsiEnd(s, j) == k
    decreases k - j
  {
    if j < k {
      CsiStopsAt(s, j + 1, k);
    }
  }

  /** A control sequence that is broken off takes its parameters and leaves the byte that cannot be in one. */
  lemma {:induction false} BrokenCsiVanishes(params: seq<byte>, rest: seq<byte>)
    requires forall b :: b in params ==> 0x20 <= b <= 0x3F
    requires rest != [] ==> rest[0] < 0x20 || rest[0] > 0x7E
    ensures Kept([ESC, '[' as int] + params + rest) == Kept(rest)
  {
    var after: seq<byte> := ['[' as int] + params + rest;
    var s: seq<byte> := [ESC, '[' as int] + params + rest;
    assert s[1..] == after;
    forall i | 1 <= i < 1 + |params| ensures 0x20 <= after[i] <= 0x3F {
      assert after[i] == params[i - 1] && params[i - 1] in params;
    }
    CsiStopsAt(after, 1, 1 + |params|);
    assert after[|params| + 1..] == rest;
  }

  /** An escape character with any other byte after it takes that byte and no more. */
  lemma {:induction false} EscapeVanishes(b: byte, rest: seq<byte>)
    requires b != 0x5B && b != 0x5D
    ensures Kept([0x1B, b] + rest) == Kept(rest) && Kept([0x1B]) == []
  {
    assert ([0x1B, b] + rest)[1..] == [b] + rest && ([b] + rest)[1..] == rest;
  }

  /** BEL, or ST in its two-byte form. */
  predicate IsTerminator(term: seq<byte>) {
    term == [0x07] || term == [0x1B, 0x5C]
  }

  /** The terminator is at k and none is before it. */
  ghost predicate EndsAt(s: seq<byte>, j: nat, k: nat, term: seq<byte>) {
    && IsTerminator(term) && j <= k && k + |term| <= |s| && s[k..k + |term|] == term
    && forall i :: j <= i < k ==> s[i] != BEL && !(s[i] == ESC && s[i + 1] == BACKSLASH)
  }

  lemma {:induction false} OscEndAt(s: seq<byte>, j: nat, k: nat, term: seq<byte>)
    requires EndsAt(s, j, k, term)
    ensures OscEnd(s, j) == k + |term|
    decreases k - j
  {
    if j < k {
      OscEndAt(s, j + 1, k, term);
    } else {
      assert s[k] == term[0];
      assert |term| == 2 ==> s[k + 1] == term[1];
    }
  }

  /** So does an operating system command, whichever way it ends: its body holds no terminator. */
  lemma {:induction false} OscVanishes(body: seq<byte>, term: seq<byte>, rest: seq<byte>)
    requires IsTerminator(term)
    requires BEL !in body && forall i :: 0 <= i < |body| - 1 ==> !(body[i] == ESC && body[i + 1] == BACKSLASH)
    ensures Kept([ESC, ']' as int] + body + term + rest) == Kept(rest)
  {
    var after: seq<byte> := [']' as int] + body + term + rest;
    var s: seq<byte> := [ESC, ']' as int] + body + term + rest;
    assert s[1..] == after;
    forall i | 1 <= i < 1 + |body| ensures after[i] != BEL && !(after[i] == ESC && after[i + 1] == BACKSLASH) {
      assert after[i] == body[i - 1] && body[i - 1] in body;
      assert after[i + 1] == if i < |body| then body[i] else term[0];
    }
    assert after[1 + |body|..1 + |body| + |term|] == term;
    hide OscEnd;
    OscEndAt(after, 1, 1 + |body|, term);
    assert after[|body| + 1 + |term|..] == rest;
  }

  lemma {:induction false} OscRuns(s: seq<byte>, j: nat)
    requires j <= |s| && BEL !in s[j..]
    requires forall i :: j <= i < |s| - 1 ==> !(s[i] == ESC && s[i + 1] == BACKSLASH)
    ensures OscEnd(s, j) == |s|
    decreases |s| - j
  {
    if j < |s| {
      assert s[j] in s[j..];
      assert s[j + 1..] == s[j..][1..];
      OscRuns(s, j + 1);
    }
  }

  /** An operating system command that never ends takes everything. */
  lemma {:induction false} UnendedOscTakesAll(body: seq<byte>)
    requires BEL !in body && forall i :: 0 <= i < |body| - 1 ==> !(body[i] == ESC && body[i + 1] == BACKSLASH)
    ensures Kept([ESC, ']' as int] + body) == []
  {
    var after: seq<byte> := [']' as int] + body;
    assert ([ESC, ']' as int] + body)[1..] == after && after[1..] == body;
    forall i | 1 <= i < |after| - 1 ensures !(after[i] == ESC && after[i + 1] == BACKSLASH) {
      assert after[i] == body[i - 1] && after[i + 1] == body[i];
    }
    OscRuns(after, 1);
    assert after[|after|..] == [];
  }
}
