/**
 * The parts of Go's `strings` and `strconv` packages that the bot relies on,
 * restated over `seq<char>`: HasPrefix, Contains, ToLower (ASCII letters
 * only), TrimLeft with a one-character cut set, the first field of Split,
 * Join, and Atoi together with the decimal rendering it inverts.
 */
module Text {

  /** strings.HasPrefix(s, p) */
  predicate IsPrefix(p: string, s: string)
  {
    |p| <= |s| && s[..|p|] == p
  }

  /** `sub` sits in `s` at offset `i`. */
  ghost predicate OccursAt(sub: string, s: string, i: int)
  {
    0 <= i && i + |sub| <= |s| && s[i..i + |sub|] == sub
  }

  /** strings.Contains(s, sub): tries every start offset from the left. */
  predicate IsSubstring(sub: string, s: string)
    decreases |s|
  {
    IsPrefix(sub, s) || (|s| > 0 && IsSubstring(sub, s[1..]))
  }

  /** The scan finds `sub` exactly when it occurs somewhere in `s`. */
  lemma {:induction false} IsSubstringIff(sub: string, s: string)
    ensures IsSubstring(sub, s) <==> exists i :: OccursAt(sub, s, i)
    decreases |s|
  {
    if IsSubstring(sub, s) {
      if IsPrefix(sub, s) {
        assert OccursAt(sub, s, 0);
      } else {
        IsSubstringIff(sub, s[1..]);
        var i :| OccursAt(sub, s[1..], i);
        assert s[1..][i..i + |sub|] == s[i + 1..i + 1 + |sub|];
        assert OccursAt(sub, s, i + 1);
      }
    }
    if exists i :: OccursAt(sub, s, i) {
      var i :| OccursAt(sub, s, i);
      if i > 0 {
        assert s[1..][i - 1..i - 1 + |sub|] == s[i..i + |sub|];
        assert OccursAt(sub, s[1..], i - 1);
        IsSubstringIff(sub, s[1..]);
      } else {
        assert IsPrefix(sub, s);
      }
    }
  }

  /** unicode.ToLower restricted to ASCII: 'A'..'Z' become 'a'..'z'. */
  function LowerChar(c: char): char
  {
    if 'A' <= c <= 'Z' then (c as int - 'A' as int + 'a' as int) as char else c
  }

  /** strings.ToLower, character by character. */
  function ToLower(s: string): (r: string)
    ensures |r| == |s|
    ensures forall i :: 0 <= i < |s| ==> r[i] == LowerChar(s[i])
  {
    seq(|s|, i requires 0 <= i < |s| => LowerChar(s[i]))
  }

  /** Lower-casing both sides keeps every occurrence where it was. */
  lemma {:induction false} LoweringKeepsSubstring(sub: string, s: string)
    requires IsSubstring(sub, s)
    ensures IsSubstring(ToLower(sub), ToLower(s))
  {
    IsSubstringIff(sub, s);
    var i :| OccursAt(sub, s, i);
    var ls, lsub := ToLower(s), ToLower(sub);
    assert ls[i..i + |lsub|] == lsub by {
      forall k | 0 <= k < |lsub|
        ensures ls[i..i + |lsub|][k] == lsub[k]
      {
        assert s[i..i + |sub|][k] == sub[k];
      }
    }
    assert OccursAt(lsub, ls, i);
    IsSubstringIff(lsub, ls);
  }

  /** strings.TrimLeft(s, string(c)): drops every leading `c`. */
  function TrimLeft(s: string, c: char): (r: string)
    ensures |r| <= |s| && r == s[|s| - |r|..]
    ensures forall i :: 0 <= i < |s| - |r| ==> s[i] == c
    ensures r == [] || r[0] != c
    decreases |s|
  {
    if |s| > 0 && s[0] == c then TrimLeft(s[1..], c) else s
  }

  /** strings.Split(s, string(c))[0]: the text before the first `c`, or all of `s`. */
  function BeforeFirst(s: string, c: char): (r: string)
    ensures IsPrefix(r, s)
    ensures forall i :: 0 <= i < |r| ==> r[i] != c
    ensures |r| == |s| || s[|r|] == c
    decreases |s|
  {
    if s == [] || s[0] == c then [] else [s[0]] + BeforeFirst(s[1..], c)
  }

  /** The field before the first `c` of `x + [c] + y` is `x` when `x` has no `c`. */
  lemma {:induction false} BeforeFirstOfJoined(x: string, c: char, y: string)
    requires forall i :: 0 <= i < |x| ==> x[i] != c
    ensures BeforeFirst(x + [c] + y, c) == x
  {
    if x != [] {
      assert (x + [c] + y)[1..] == x[1..] + [c] + y;
      BeforeFirstOfJoined(x[1..], c, y);
    }
  }

  /** strings.Join(xs, sep) */
  function Join(xs: seq<string>, sep: string): string
    decreases |xs|
  {
    if |xs| == 0 then "" else if |xs| == 1 then xs[0] else xs[0] + sep + Join(xs[1..], sep)
  }

  predicate IsDigit(c: char)
  {
    '0' <= c <= '9'
  }

  predicate AllDigits(s: string)
  {
    forall i :: 0 <= i < |s| ==> IsDigit(s[i])
  }

  /** The value of a run of decimal digits, most significant first. */
  function DigitsValue(s: string): nat
    requires AllDigits(s)
    decreases |s|
  {
    if s == [] then 0 else DigitsValue(s[..|s| - 1]) * 10 + (s[|s| - 1] as int - '0' as int)
  }

  const MAX_INT64: int := 0x7fff_ffff_ffff_ffff
  const MIN_INT64: int := -0x8000_0000_0000_0000
  const MAX_UINT64: int := 0xffff_ffff_ffff_ffff
  /** maxUint64/10 + 1: the smallest value that overflows once multiplied by ten. */
  const UINT64_CUTOFF: int := MAX_UINT64 / 10 + 1

  /** The error strconv attaches to a failed parse. */
  datatype NumError = NoError | ErrSyntax | ErrRange

  /** What strconv.Atoi returns: a value and an error. */
  datatype Parsed = Parsed(value: int, err: NumError)

  /** The digits of `s` once an optional leading sign is dropped. */
  function Unsigned(s: string): string
  {
    if |s| > 0 && (s[0] == '+' || s[0] == '-') then s[1..] else s
  }

  /** `s` is an optional sign followed by at least one decimal digit. */
  predicate IsDecimal(s: string)
  {
    Unsigned(s) != [] && AllDigits(Unsigned(s))
  }

  /** The length of the run of decimal digits that `s` starts with. */
  function DigitRun(s: string): (k: nat)
    ensures k <= |s| && AllDigits(s[..k])
    ensures k == |s| || !IsDigit(s[k])
    decreases |s|
  {
    if s == [] || !IsDigit(s[0]) then 0
    else
      var k := 1 + DigitRun(s[1..]);
      assert s[..k] == [s[0]] + s[1..][..k - 1];
      k
  }

  /** How ParseUint's digit loop ends: with a value, at a non-digit, or on overflow. */
  datatype Scan = Scanned(n: nat) | BadDigit | Overflow

  /**
   * ParseUint's loop in base 10 with a 64-bit result, from position `i`
   * with `n` read so far: a non-digit is a syntax error, and a digit that
   * takes the value past maxUint64 stops the loop with a range error at once.
   */
  function ScanUint(u: string, i: nat, n: nat): (r: Scan)
    requires i <= |u| && n <= MAX_UINT64
    ensures r.Scanned? ==> r.n <= MAX_UINT64 && forall k :: i <= k < |u| ==> IsDigit(u[k])
    decreases |u| - i
  {
    if i == |u| then Scanned(n)
    else if !IsDigit(u[i]) then BadDigit
    else if n >= UINT64_CUTOFF then Overflow
    else if n * 10 + (u[i] as int - '0' as int) > MAX_UINT64 then Overflow
    else ScanUint(u, i + 1, n * 10 + (u[i] as int - '0' as int))
  }

  /**
   * strconv.ParseInt(s, 10, 0) on a 64-bit platform: one optional sign, then
   * ParseUint on the rest, whose range error reports maxUint64; a magnitude
   * beyond the int64 range is clamped to the nearest bound with ErrRange.
   */
  function ParseInt(s: string): Parsed
  {
    var u := Unsigned(s);
    if u == [] then Parsed(0, ErrSyntax)
    else
      var scan := ScanUint(u, 0, 0);
      if scan.BadDigit? then Parsed(0, ErrSyntax)
      else
        var un: int := if scan.Overflow? then MAX_UINT64 else scan.n;
        var neg := s[0] == '-';
        if !neg && un >= MAX_INT64 + 1 then Parsed(MAX_INT64, ErrRange)
        else if neg && un > MAX_INT64 + 1 then Parsed(MIN_INT64, ErrRange)
        else Parsed(if neg then 0 - un else un, NoError)
  }

  /**
   * strconv.Atoi on a 64-bit platform. A string of 1 to 18 bytes takes the
   * fast path (an optional sign and digits, otherwise a syntax error);
   * anything longer, and the empty string, goes through ParseInt.
   */
  function Atoi(s: string): (p: Parsed)
    ensures p.err == ErrSyntax ==> p.value == 0
    ensures p.err == ErrRange ==> |s| > 0 && p.value == (if s[0] == '-' then MIN_INT64 else MAX_INT64)
    ensures p.err == NoError ==> IsDecimal(s)
    ensures MIN_INT64 <= p.value <= MAX_INT64
  {
    if 0 < |s| < 19 then
      var u := Unsigned(s);
      if u == [] || !AllDigits(u) then Parsed(0, ErrSyntax)
      else
        ShortDigitsFit(u);
        Parsed(if s[0] == '-' then 0 - DigitsValue(u) as int else DigitsValue(u) as int, NoError)
    else ParseInt(s)
  }

  /** Reference reading of a decimal string: its signed value clamped to the int64 range. */
  function ClampedDecimal(s: string): Parsed
    requires IsDecimal(s)
  {
    var v: int := if s[0] == '-' then 0 - DigitsValue(Unsigned(s)) as int else DigitsValue(Unsigned(s)) as int;
    if v > MAX_INT64 then Parsed(MAX_INT64, ErrRange)
    else if v < MIN_INT64 then Parsed(MIN_INT64, ErrRange)
    else Parsed(v, NoError)
  }

  function Pow10(k: nat): nat
  {
    if k == 0 then 1 else 10 * Pow10(k - 1)
  }

  /** A run of k digits is worth less than 10^k. */
  lemma {:induction false} DigitsValueBelow(s: string)
    requires AllDigits(s)
    ensures DigitsValue(s) < Pow10(|s|)
    decreases |s|
  {
    if s != [] {
      DigitsValueBelow(s[..|s| - 1]);
    }
  }

  lemma {:induction false} Pow10Grows(j: nat, k: nat)
    requires j <= k
    ensures Pow10(j) <= Pow10(k)
    decreases k
  {
    if j < k {
      Pow10Grows(j, k - 1);
    }
  }

  /** Fewer than 19 digits always fit in an int64. */
  lemma ShortDigitsFit(s: string)
    requires AllDigits(s) && |s| <= 18
    ensures DigitsValue(s) <= MAX_INT64
  {
    DigitsValueBelow(s);
    Pow10Grows(|s|, 18);
    assert Pow10(4) == 10_000;
    assert Pow10(8) == 100_000_000;
    assert Pow10(12) == 1_000_000_000_000;
    assert Pow10(16) == 10_000_000_000_000_000;
  }

  /** Reading more digits never lowers the value. */
  lemma {:induction false} DigitsValueGrows(s: string, j: nat, k: nat)
    requires j <= k <= |s| && AllDigits(s[..k])
    ensures AllDigits(s[..j]) && DigitsValue(s[..j]) <= DigitsValue(s[..k])
    decreases k
  {
    assert forall i :: 0 <= i < j ==> s[..j][i] == s[..k][i];
    if j < k {
      assert s[..k][..k - 1] == s[..k - 1];
      DigitsValueGrows(s, j, k - 1);
    }
  }

  /**
   * From any position inside the leading digit run, the loop ends with
   * a range error exactly when that run is worth more than maxUint64, and
   * otherwise with the value of `u` (no non-digit) or a syntax error.
   */
  lemma {:induction false} ScanUintOutcome(u: string, j: nat)
    requires j <= DigitRun(u)
    requires DigitsValue(u[..j]) <= MAX_UINT64
    ensures ScanUint(u, j, DigitsValue(u[..j])) ==
      var k := DigitRun(u);
      if DigitsValue(u[..k]) > MAX_UINT64 then Overflow
      else if k < |u| then BadDigit
      else (assert u[..k] == u; Scanned(DigitsValue(u)))
    decreases |u| - j
  {
    var k := DigitRun(u);
    DigitsValueGrows(u, j, k);
    if j < k {
      var n := DigitsValue(u[..j]);
      assert u[..j + 1][..j] == u[..j];
      var n' := DigitsValue(u[..j + 1]);
      assert IsDigit(u[..k][j]) && u[..k][j] == u[j];
      assert n' == n * 10 + (u[j] as int - '0' as int);
      DigitsValueGrows(u, j + 1, k);
      if n' <= MAX_UINT64 {
        assert n < UINT64_CUTOFF;
        assert ScanUint(u, j, n) == ScanUint(u, j + 1, n');
        ScanUintOutcome(u, j + 1);
      } else {
        assert ScanUint(u, j, n) == Overflow;
      }
    } else if k == |u| {
      assert u[..k] == u;
    }
  }

  /** Atoi reads a decimal string as its value clamped to the int64 range. */
  lemma AtoiOfDecimal(s: string)
    requires IsDecimal(s)
    ensures Atoi(s) == ClampedDecimal(s)
  {
    var u := Unsigned(s);
    if |s| < 19 {
      ShortDigitsFit(u);
    } else {
      assert u[..0] == [];
      ScanUintOutcome(u, 0);
      assert u[..DigitRun(u)] == u;
    }
  }

  /**
   * Atoi fails with a syntax error exactly when there are no digits after
   * the sign, or when a non-digit follows a leading digit run that still
   * fits in a uint64; a longer run stops the parse with a range error first.
   */
  lemma AtoiSyntaxIff(s: string)
    ensures Atoi(s).err == ErrSyntax <==>
      Unsigned(s) == [] || (DigitRun(Unsigned(s)) < |Unsigned(s)| && DigitsValue(Unsigned(s)[..DigitRun(Unsigned(s))]) <= MAX_UINT64)
  {
    var u := Unsigned(s);
    if u != [] {
      assert u[..0] == [];
      ScanUintOutcome(u, 0);
      if |s| < 19 {
        ShortDigitsFit(u[..DigitRun(u)]);
        assert !AllDigits(u) <==> DigitRun(u) < |u| by {
          if DigitRun(u) == |u| { assert u[..DigitRun(u)] == u; }
        }
      }
    }
  }

  /** A digit run too long for a uint64 ends in a range error whatever follows it. */
  lemma OverflowBeforeJunk(digits: string, rest: string)
    requires AllDigits(digits) && DigitsValue(digits) > MAX_UINT64
    ensures Atoi(digits + rest) == Parsed(MAX_INT64, ErrRange)
  {
    var s := digits + rest;
    if |digits| <= 18 {
      ShortDigitsFit(digits);
      assert false;
    }
    assert IsDigit(digits[0]) && s[0] == digits[0];
    assert Unsigned(s) == s;
    assert s[..|digits|] == digits;
    var k := DigitRun(s);
    assert |digits| <= k;
    DigitsValueGrows(s, |digits|, k);
    assert s[..0] == [];
    ScanUintOutcome(s, 0);
  }

  function DigitChar(d: nat): char
    requires d < 10
  {
    ('0' as int + d) as char
  }

  /** strconv.Itoa for a natural number: decimal digits without leading zeros. */
  function NatToString(n: nat): (r: string)
    ensures r != [] && AllDigits(r)
    decreases n
  {
    if n < 10 then [DigitChar(n)] else NatToString(n / 10) + [DigitChar(n % 10)]
  }

  /** strconv.Itoa */
  function IntToString(n: int): string
  {
    if n < 0 then "-" + NatToString(-n) else NatToString(n)
  }

  lemma {:induction false} DigitsValueOfRendering(n: nat)
    ensures DigitsValue(NatToString(n)) == n
    decreases n
  {
    if n >= 10 {
      var r := NatToString(n);
      assert r[..|r| - 1] == NatToString(n / 10);
      DigitsValueOfRendering(n / 10);
    }
  }

  /** Atoi inverts Itoa on the int64 range. */
  lemma {:induction false} AtoiOfRendering(n: int)
    requires MIN_INT64 <= n <= MAX_INT64
    ensures Atoi(IntToString(n)) == Parsed(n, NoError)
  {
    var r := IntToString(n);
    if n < 0 {
      var u := NatToString(-n);
      assert r[0] == '-' && r[1..] == u;
      assert Unsigned(r) == u;
      DigitsValueOfRendering(-n);
    } else {
      assert r[0] != '+' && r[0] != '-' by { assert IsDigit(r[0]); }
      assert Unsigned(r) == r;
      DigitsValueOfRendering(n);
    }
    AtoiOfDecimal(r);
  }

  /** A rendered integer holds no '.'. */
  lemma RenderingHasNoDot(n: int)
    ensures forall i :: 0 <= i < |IntToString(n)| ==> IntToString(n)[i] != '.'
  {
    var r := NatToString(if n < 0 then -n else n);
    assert forall i :: 0 <= i < |r| ==> IsDigit(r[i]);
  }
}
