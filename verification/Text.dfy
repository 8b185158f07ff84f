/** Numbers and byte strings as text: strconv.FormatUint, strconv.FormatInt, strconv.ParseUint and
    encoding/hex. A Go string and a Go byte slice are both a `string` here, one character a byte. */
module Text {
  import opened Machine

  datatype Option<+T> = None | Some(value: T)

  predicate HasPrefix(s: string, prefix: string) { prefix <= s }

  predicate IsBytes(s: string) { forall i :: 0 <= i < |s| ==> s[i] as int < 256 }

  function DigitChar(d: nat): char
    requires d < 16
  {
    "0123456789abcdef"[d]
  }

  function DigitValue(c: char): Option<nat> {
    if '0' <= c <= '9' then Some(c as int - '0' as int)
    else if 'a' <= c <= 'f' then Some(c as int - 'a' as int + 10)
    else None
  }

  lemma DigitRoundTrip(d: nat)
    requires d < 16
    ensures DigitValue(DigitChar(d)) == Some(d)
    ensures DigitChar(d) != '-'
  {
    assert DigitChar(d) == if d < 10 then ('0' as int + d) as char else ('a' as int + (d - 10)) as char;
  }

  // ---- FormatUint and ParseUint ----

  function FormatUint(n: nat, base: nat): string
    requires 2 <= base <= 16
    decreases n
  {
    if n < base then [DigitChar(n)]
    else
      FormatUint(n / base, base) + [DigitChar(n % base)]
  }

  function FormatInt(n: int, base: nat): string
    requires 2 <= base <= 16
  {
    if n < 0 then "-" + FormatUint(-n, base) else FormatUint(n, base)
  }

  function ParseDigits(s: string, base: nat): Option<nat>
    requires 2 <= base <= 16
  {
    if s == "" then Some(0)
    else
      match (ParseDigits(s[..|s| - 1], base), DigitValue(s[|s| - 1]))
      case (Some(high), Some(low)) => if low < base then Some(high * base + low) else None
      case _ => None
  }

  function ParseUint(s: string): Option<u64> {
    if s == "" then None
    else
      match ParseDigits(s, 10)
      case Some(n) => if n < TWO64 then Some(n) else None
      case None => None
  }

  lemma DivisionStep(n: nat, base: nat)
    requires 2 <= base <= n
    ensures n / base < n && (n / base) * base + n % base == n
  {
  }

  lemma OneDigitParses(d: nat, base: nat)
    requires 2 <= base <= 16 && d < base
    ensures ParseDigits([DigitChar(d)], base) == Some(d)
  {
    DigitRoundTrip(d);
    hide DigitChar, DigitValue;
    assert ParseDigits("", base) == Some(0);
    assert [DigitChar(d)][..0] == "";
  }

  lemma FormatUintUnfolds(n: nat, base: nat)
    requires 2 <= base <= 16
    ensures n < base ==> FormatUint(n, base) == [DigitChar(n)]
    ensures n >= base ==> FormatUint(n, base) == FormatUint(n / base, base) + [DigitChar(n % base)]
  {
    hide DigitChar;
  }

  lemma {:induction false} FormatUintParses(n: nat, base: nat)
    requires 2 <= base <= 16
    ensures ParseDigits(FormatUint(n, base), base) == Some(n)
    ensures FormatUint(n, base) != "" && '-' !in FormatUint(n, base)
    decreases n
  {
    FormatUintUnfolds(n, base);
    hide ParseDigits, FormatUint, DigitChar;
    if n < base {
      DigitRoundTrip(n);
      OneDigitParses(n, base);
    } else {
      DivisionStep(n, base);
      var q, r := n / base, n % base;
      DigitRoundTrip(r);
      FormatUintParses(q, base);
      AppendDigit(FormatUint(q, base), q, r, base);
    }
  }

  lemma AppendDigit(s: string, q: nat, r: nat, base: nat)
    requires 2 <= base <= 16 && r < base && ParseDigits(s, base) == Some(q)
    ensures ParseDigits(s + [DigitChar(r)], base) == Some(q * base + r)
  {
    DigitRoundTrip(r);
    hide DigitChar, DigitValue;
    var t := s + [DigitChar(r)];
    assert t[..|t| - 1] == s;
  }

  lemma ParseUintInvertsFormat(n: u64)
    ensures ParseUint(FormatUint(n, 10)) == Some(n)
  {
    FormatUintParses(n, 10);
  }

  lemma FormatUintInjective(m: nat, n: nat, base: nat)
    requires 2 <= base <= 16
    requires FormatUint(m, base) == FormatUint(n, base)
    ensures m == n
  {
    FormatUintParses(m, base);
    FormatUintParses(n, base);
  }

  lemma FormatIntInjective(m: int, n: int, base: nat)
    requires 2 <= base <= 16
    requires FormatInt(m, base) == FormatInt(n, base)
    ensures m == n
  {
    FormatUintParses(if m < 0 then -m else m, base);
    FormatUintParses(if n < 0 then -n else n, base);
    var x, y := FormatInt(m, base), FormatInt(n, base);
    assert m < 0 <==> x[0] == '-';
    assert n < 0 <==> y[0] == '-';
    if m < 0 {
      assert x[1..] == FormatUint(-m, base) && y[1..] == FormatUint(-n, base);
      FormatUintInjective(-m, -n, base);
    } else {
      FormatUintInjective(m, n, base);
    }
  }

  // ---- encoding/hex ----

  function HexEncode(s: string): string {
    if s == "" then ""
    else [DigitChar(s[0] as int / 16 % 16), DigitChar(s[0] as int % 16)] + HexEncode(s[1..])
  }

  function HexDecode(s: string): Option<string> {
    if s == "" then Some("")
    else if |s| == 1 then None
    else
      match (DigitValue(s[0]), DigitValue(s[1]), HexDecode(s[2..]))
      case (Some(high), Some(low), Some(rest)) => Some([(high * 16 + low) as char] + rest)
      case _ => None
  }

  lemma HexByteRoundTrip(c: char)
    requires c as int < 256
    ensures DigitValue(DigitChar(c as int / 16 % 16)) == Some(c as int / 16)
    ensures DigitValue(DigitChar(c as int % 16)) == Some(c as int % 16)
    ensures (c as int / 16 * 16 + c as int % 16) as char == c
  {
    DigitRoundTrip(c as int / 16 % 16);
    DigitRoundTrip(c as int % 16);
  }

  lemma {:induction false} HexRoundTrip(s: string)
    requires IsBytes(s)
    ensures HexDecode(HexEncode(s)) == Some(s)
  {
    if s != "" {
      HexByteRoundTrip(s[0]);
      HexRoundTrip(s[1..]);
      var e := HexEncode(s);
      assert e[2..] == HexEncode(s[1..]);
      assert e[0] == DigitChar(s[0] as int / 16 % 16) && e[1] == DigitChar(s[0] as int % 16);
      assert HexDecode(e) == Some([s[0]] + s[1..]);
      assert s == [s[0]] + s[1..];
    }
  }

  lemma {:induction false} HexLength(s: string)
    ensures |HexEncode(s)| == 2 * |s|
  {
    if s != "" {
      HexLength(s[1..]);
    }
  }

  lemma HexInjective(s: string, t: string)
    requires IsBytes(s) && IsBytes(t)
    ensures HexEncode(s) == HexEncode(t) ==> s == t
  {
    HexRoundTrip(s);
    HexRoundTrip(t);
  }
}
