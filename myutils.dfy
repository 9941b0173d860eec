/**
 * String, number and qid helpers shared by the file servers (devdirtab/myutils.c).
 *
 * A C string argument is a `string` together with the count the caller
 * passes; reading the character just past the counted part gives the
 * terminating NUL (CharAt), which is how the C loops stop.
 */
module MyUtils {
  import opened Npfs

  function Max0(n: int): nat
  {
    if n < 0 then 0 else n
  }

  /** The character at position k, or the terminating NUL past the end. */
  function CharAt(s: string, k: nat): char
  {
    if k < |s| then s[k] else '\0'
  }

  /**
   * Field separators of the tokenisers: `strchr(" \t\r\n", c)` is non-NULL
   * for these four characters and also for NUL, which strchr finds as the
   * terminator of its first argument.
   */
  predicate IsSep(c: char)
  {
    c == ' ' || c == '\t' || c == '\r' || c == '\n' || c == '\0'
  }

  predicate IsDigit(c: char)
  {
    '0' <= c <= '9'
  }

  predicate AllDigits(s: string)
  {
    forall i :: 0 <= i < |s| ==> IsDigit(s[i])
  }

  function DigitValue(c: char): nat
    requires IsDigit(c)
  {
    c as int - '0' as int
  }

  function DigitChar(d: nat): char
    requires d < 10
  {
    ('0' as int + d) as char
  }

  /** The value of a string of decimal digits, most significant first. */
  function DecimalValue(s: string): nat
    requires AllDigits(s)
    decreases |s|
  {
    if s == [] then 0 else DecimalValue(s[..|s| - 1]) * 10 + DigitValue(s[|s| - 1])
  }

  /** The `%d` / `%llu` rendering of a non-negative number. */
  function DecimalString(n: nat): (s: string)
    ensures 0 < |s| && AllDigits(s)
    decreases n
  {
    if n < 10 then [DigitChar(n)] else DecimalString(n / 10) + [DigitChar(n % 10)]
  }

  /** Rendering a number in decimal and reading it back gives the number. */
  lemma {:induction false} DecimalRoundTrip(n: nat)
    ensures DecimalValue(DecimalString(n)) == n
  {
    if n >= 10 {
      DecimalRoundTrip(n / 10);
      var s := DecimalString(n);
      assert s[..|s| - 1] == DecimalString(n / 10);
    }
  }

  /** `int` wrap-around: the 32-bit two's-complement value congruent to x. */
  function Int32(x: int): (r: int)
    ensures -0x8000_0000 <= r < 0x8000_0000
    ensures 0 <= x < 0x8000_0000 ==> r == x
  {
    var m := x % 0x1_0000_0000;
    if m >= 0x8000_0000 then m - 0x1_0000_0000 else m
  }

  /** Wrapping before one more decimal digit is appended changes nothing. */
  lemma Int32Step(x: int, d: int)
    ensures Int32(Int32(x) * 10 + d) == Int32(x * 10 + d)
  {
    var q := x / 0x1_0000_0000;
    var m := x % 0x1_0000_0000;
    assert x == q * 0x1_0000_0000 + m;
    var w := Int32(x);
    assert w == m || w == m - 0x1_0000_0000;
    var j := if w == m then 10 * q else 10 * q + 10;
    assert x * 10 + d == (w * 10 + d) + j * 0x1_0000_0000;
    Int32Shift(w * 10 + d, j);
  }

  /** Int32 depends only on its argument modulo 2^32. */
  lemma Int32Shift(y: int, j: int)
    ensures Int32(y + j * 0x1_0000_0000) == Int32(y)
  {
    var M := 0x1_0000_0000;
    var q := y / M;
    var m := y % M;
    assert y + j * M == (q + j) * M + m;
    assert (y + j * M) % M == m;
  }

  /**
   * What myatoi computes: the decimal value of the first n characters,
   * wrapped to a 32-bit `int`, when they are all digits, and -1 otherwise
   * (including a negative n or an n past the end of the string).
   */
  function AtoiValue(s: string, n: int): int
  {
    if 0 <= n <= |s| && AllDigits(s[..n]) then Int32(DecimalValue(s[..n])) else -1
  }

  /**
   * myatoi: consume digits while the count lasts, accumulating in a 32-bit
   * `int`; a count left over means failure.
   */
  method MyAtoi(s: string, n: int) returns (r: int)
    ensures r == AtoiValue(s, n)
    ensures r >= 0 ==> 0 <= n <= |s| && AllDigits(s[..n])
    ensures 0 <= n <= |s| && AllDigits(s[..n]) && DecimalValue(s[..n]) < 0x8000_0000 ==> r == DecimalValue(s[..n])
  {
    var i := 0;
    var k := 0;
    var ccount := n;
    while IsDigit(CharAt(s, k)) && ccount != 0
      invariant 0 <= k <= |s|
      invariant ccount == n - k
      invariant n >= 0 ==> k <= n
      invariant AllDigits(s[..k])
      invariant i == Int32(DecimalValue(s[..k]))
      decreases |s| - k
    {
      assert s[..k + 1][..k] == s[..k];
      Int32Step(DecimalValue(s[..k]), DigitValue(s[k]));
      i := Int32(i * 10 + DigitValue(s[k]));
      k := k + 1;
      ccount := ccount - 1;
    }
    if ccount != 0 {
      if 0 <= n <= |s| {
        assert !IsDigit(s[..n][k]);
      }
      return -1;
    }
    assert s[..n] == s[..k];
    return i;
  }

  /** The decimal rendering of a number below 2^31 is accepted by myatoi with its own length. */
  lemma AtoiOfDecimal(n: nat)
    requires n < 0x8000_0000
    ensures AtoiValue(DecimalString(n), |DecimalString(n)|) == n
  {
    var s := DecimalString(n);
    assert s[..|s|] == s;
    DecimalRoundTrip(n);
  }

  /**
   * A port too large for an `int`: "3000000000" is all digits, yet myatoi
   * wraps it to a negative number, which a caller takes for a failure.
   */
  lemma AtoiWrapsLargePort()
    ensures AllDigits("3000000000") && AtoiValue("3000000000", 10) == 3000000000 - 0x1_0000_0000
  {
    var s := "3000000000";
    assert s[..10] == s;
    assert s == DecimalString(3000000000);
    DecimalRoundTrip(3000000000);
  }

  /** Whether position i of s begins a field: a non-separator after a separator or at the start. */
  predicate FieldStart(s: string, i: nat)
    requires i < |s|
  {
    !IsSep(s[i]) && (i == 0 || IsSep(s[i - 1]))
  }

  /** The number of maximal runs of non-separators in s. */
  function Fields(s: string): nat
    decreases |s|
  {
    if s == [] then 0
    else Fields(s[..|s| - 1]) + (if FieldStart(s, |s| - 1) then 1 else 0)
  }

  /** Fields are additive across a separator. */
  lemma {:induction false} FieldsAcrossSeparator(a: string, c: char, b: string)
    requires IsSep(c)
    ensures Fields(a + [c] + b) == Fields(a) + Fields(b)
    decreases |b|
  {
    var s := a + [c] + b;
    if b == [] {
      assert s[..|s| - 1] == a;
    } else {
      var b' := b[..|b| - 1];
      FieldsAcrossSeparator(a, c, b');
      assert s[..|s| - 1] == a + [c] + b';
      assert FieldStart(s, |s| - 1) == FieldStart(b, |b| - 1) by {
        if |b| > 1 {
          assert s[|s| - 2] == b[|b| - 2];
        }
      }
    }
  }

  /**
   * ncmdfield: the number of fields in p[0..n) plus one for the terminating
   * nil of an argument vector; 1 for a NULL string.
   */
  method NCmdField(p: Option<string>, n: int) returns (r: int)
    requires p.Some? ==> n <= |p.value|
    ensures p.None? ==> r == 1
    ensures p.Some? ==> r == Fields(p.value[..Max0(n)]) + 1
  {
    if p.None? {
      return 1;
    }
    var s := p.value;
    var nf := 0;
    var k := 0;
    var white := true;
    while k < n
      invariant 0 <= k <= Max0(n)
      invariant nf == Fields(s[..k])
      invariant white == (k == 0 || IsSep(s[k - 1]))
    {
      var nwhite := IsSep(s[k]);
      assert s[..k + 1][..k] == s[..k];
      assert FieldStart(s[..k + 1], k) == (white && !nwhite);
      if white && !nwhite {
        nf := nf + 1;
      }
      white := nwhite;
      k := k + 1;
    }
    return nf + 1;
  }

  /** The length of the run of separators that begins s, within the first n characters. */
  function LeadingSeps(s: string, n: int): (k: nat)
    requires n <= |s|
    ensures k <= Max0(n)
    ensures forall i :: 0 <= i < k ==> IsSep(s[i])
    ensures k < n ==> !IsSep(s[k])
  {
    SepsEnd(s, 0, n)
  }

  /** The end of the run of separators starting at i, within n characters. */
  function SepsEnd(s: string, i: nat, n: int): (e: nat)
    requires i <= Max0(n) <= |s|
    ensures i <= e <= Max0(n)
    ensures forall j :: i <= j < e ==> IsSep(s[j])
    ensures e < Max0(n) ==> !IsSep(s[e])
    decreases Max0(n) - i
  {
    if i == Max0(n) || !IsSep(s[i]) then i else SepsEnd(s, i + 1, n)
  }

  /** The end of the run of non-separators starting at i, within n characters. */
  function TokenEnd(s: string, i: nat, n: int): (e: nat)
    requires i <= Max0(n) <= |s|
    ensures i <= e <= Max0(n)
    ensures forall j :: i <= j < e ==> !IsSep(s[j])
    ensures e < Max0(n) ==> IsSep(s[e])
    decreases Max0(n) - i
  {
    if i == Max0(n) || IsSep(s[i]) then i else TokenEnd(s, i + 1, n)
  }

  /**
   * The token mygetstringopt copies and the count it returns: the run of
   * non-separators after the leading separators, within n characters.
   */
  function StringOpt(s: string, n: int): (r: (string, nat))
    requires Max0(n) <= |s|
    ensures r.1 <= Max0(n)
  {
    var k := LeadingSeps(s, n);
    var e := TokenEnd(s, k, n);
    (s[k..e], e)
  }

  /**
   * mygetstringopt: skip separators, then copy the following run of
   * non-separators, within n characters of `from`.  `tok` is the NUL-
   * terminated copy written to `to`; `count` is both the return value and
   * the amount by which the caller's `*from` advances.
   */
  method GetStringOpt(from: string, n: int) returns (tok: string, count: nat)
    requires n <= |from|
    ensures (tok, count) == StringOpt(from, n)
  {
    var m := n;
    count := 0;
    while IsSep(CharAt(from, count)) && m > 0
      invariant 0 <= count <= Max0(n) && m == n - count
      invariant forall i :: 0 <= i < count ==> IsSep(from[i])
    {
      m := m - 1;
      count := count + 1;
    }
    assert count == LeadingSeps(from, n);
    var skip := count;
    tok := [];
    while !IsSep(CharAt(from, count)) && m > 0
      invariant skip <= count <= Max0(n) && m == n - count
      invariant tok == from[skip..count]
      invariant forall c :: c in tok ==> !IsSep(c)
    {
      tok := tok + [from[count]];
      count := count + 1;
      m := m - 1;
    }
    assert count == TokenEnd(from, skip, n);
  }

  /**
   * The token mygetstringopt returns is the run of non-separators that
   * follows the leading separators, copied from `s`, ended by a separator
   * or by the n-th character; the count covers both runs.
   */
  lemma StringOptToken(s: string, n: int)
    requires Max0(n) <= |s|
    ensures var r := StringOpt(s, n);
      && r.1 == LeadingSeps(s, n) + |r.0| && r.1 <= Max0(n)
      && r.0 == s[LeadingSeps(s, n)..r.1]
      && (forall i :: 0 <= i < LeadingSeps(s, n) ==> IsSep(s[i]))
      && (forall c :: c in r.0 ==> !IsSep(c))
      && (r.1 < n ==> IsSep(s[r.1]))
  {
    var k := LeadingSeps(s, n);
    var r := StringOpt(s, n);
    forall c | c in r.0
      ensures !IsSep(c)
    {
      var j :| 0 <= j < |r.0| && r.0[j] == c;
      assert c == s[k + j];
    }
  }

  /**
   * hex2char: the upper-case hexadecimal digit of h.  The source exits the
   * process for h outside 0..15; that is None here.
   */
  function HexToChar(h: int): (r: Option<char>)
    ensures r.Some? <==> 0 <= h < 16
    ensures r.Some? ==> ('0' <= r.value <= '9' || 'A' <= r.value <= 'F')
  {
    if !(0 <= h < 16) then None
    else if h < 10 then Some(('0' as int + h) as char)
    else Some(('A' as int + (h - 10)) as char)
  }

  /** char2hex: the value of an upper-case hexadecimal digit; None where the source exits. */
  function CharToHex(c: char): (r: Option<int>)
    ensures r.Some? <==> ('0' <= c <= '9' || 'A' <= c <= 'F')
    ensures r.Some? ==> 0 <= r.value < 16
  {
    if !(('0' <= c <= '9') || ('A' <= c <= 'F')) then None
    else if '0' <= c <= '9' then Some(c as int - '0' as int)
    else Some(10 + c as int - 'A' as int)
  }

  lemma HexRoundTrip(h: int)
    requires 0 <= h < 16
    ensures HexToChar(h).Some? && CharToHex(HexToChar(h).value) == Some(h)
  {
  }

  lemma CharRoundTrip(c: char)
    requires '0' <= c <= '9' || 'A' <= c <= 'F'
    ensures CharToHex(c).Some? && HexToChar(CharToHex(c).value) == Some(c)
  {
  }

  /** ISDIRqid: the Qtdir bit of the qid type, non-zero exactly for directories. */
  function IsDirQid(q: Qid): (r: bv8)
    ensures r != 0 <==> q.qtype & Qtdir == Qtdir
    ensures r == 0 || r == Qtdir
  {
    q.qtype & Qtdir
  }

  /** QIDCPY: a field-by-field copy of a qid. */
  function QidCopy(from: Qid): (r: Qid)
    ensures r.qtype == from.qtype && r.version == from.version && r.path == from.path
  {
    Qid(from.qtype, from.version, from.path)
  }
}
