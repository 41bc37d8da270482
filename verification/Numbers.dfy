// Printing and parsing numbers: itoa() (screen.c:348-390) and atoi() (lib.c:112-141).
module Numbers {
  const U32: int := 0x1_0000_0000
  const U64: int := 0x1_0000_0000_0000_0000

  // ---------------------------------------------------------------- printing

  function DigitChar(v: nat): char
    requires v < 16
  {
    if v < 10 then ('0' as int + v) as char else ('a' as int + v - 10) as char
  }

  predicate IsDivisor(divisor: nat)
  {
    divisor == 8 || divisor == 10 || divisor == 16
  }

  function Quotient(n: nat, divisor: nat): (q: nat)
    requires IsDivisor(divisor)
    ensures n < divisor <==> q == 0
    ensures n > 0 ==> q < n
  {
    if divisor == 8 then n / 8 else if divisor == 10 then n / 10 else n / 16
  }

  function Remainder(n: nat, divisor: nat): (r: nat)
    requires IsDivisor(divisor)
    ensures r < divisor && n == Quotient(n, divisor) * divisor + r
  {
    if divisor == 8 then n % 8 else if divisor == 10 then n % 10 else n % 16
  }

  // The digits of n, most significant first.
  function Digits(n: nat, divisor: nat): (r: string)
    requires IsDivisor(divisor)
    ensures r != []
  {
    (if n < divisor then [] else Digits(Quotient(n, divisor), divisor)) + [DigitChar(Remainder(n, divisor))]
  }

  // ulong is the number of values of unsigned long.
  predicate IsLong(d: int, ulong: int)
  {
    (ulong == U32 || ulong == U64) && -(ulong / 2) <= d < ulong / 2
  }

  function Divisor(base: char): nat
  {
    if base == 'x' || base == 'p' then 16 else 10
  }

  function Magnitude(base: char, d: int, ulong: int): nat
    requires IsLong(d, ulong)
  {
    if d >= 0 then d else if base == 'd' then -d else d + ulong
  }

  function Sign(base: char, d: int): string
  {
    if base == 'd' && d < 0 then "-" else ""
  }

  function Text(base: char, d: int, ulong: int): string
    requires IsLong(d, ulong)
  {
    Sign(base, d) + Digits(Magnitude(base, d, ulong), Divisor(base))
  }

  function Reversed(s: string): (r: string)
    ensures |r| == |s| && forall k | 0 <= k < |s| :: r[k] == s[|s| - 1 - k]
  {
    if s == [] then [] else Reversed(s[1..]) + [s[0]]
  }

  lemma ReversedSnoc(s: string, c: char)
    ensures Reversed(s + [c]) == [c] + Reversed(s)
  {
  }

  // What the digit loop has written, least significant digit first, when ud is left.
  lemma DigitStep(n: nat, divisor: nat, written: string, ud: nat)
    requires IsDivisor(divisor) && Digits(n, divisor) == Digits(ud, divisor) + Reversed(written)
    ensures var c := DigitChar(Remainder(ud, divisor));
            && (ud >= divisor ==>
                  Digits(n, divisor) == Digits(Quotient(ud, divisor), divisor) + Reversed(written + [c]))
            && (ud < divisor ==> Digits(n, divisor) == Reversed(written + [c]))
  {
    var c := DigitChar(Remainder(ud, divisor));
    ReversedSnoc(written, c);
    assert Digits(ud, divisor) == (if ud < divisor then [] else Digits(Quotient(ud, divisor), divisor)) + [c];
    hide Digits, Quotient, Remainder, Reversed;
  }

  lemma TextParts(base: char, d: int, ulong: int)
    requires IsLong(d, ulong)
    ensures Text(base, d, ulong) == Sign(base, d) + Digits(Magnitude(base, d, ulong), Divisor(base))
  {
  }

  // itoa(buf + at, base, d). -d of the least long is itself, which as an unsigned long is its magnitude.
  method Itoa(buf: array<char>, at: nat, base0: char, d: int, ulong: int)
    requires IsLong(d, ulong) && at + |Text(base0, d, ulong)| < buf.Length
    modifies buf
    ensures var t := Text(base0, d, ulong);
            && buf[at..at + |t|] == t && buf[at + |t|] == '\0'
            && buf[..at] == old(buf[..at]) && buf[at + |t| + 1..] == old(buf[at + |t| + 1..])
  {
    hide Digits, Quotient, Remainder, Reversed, Text;
    TextParts(base0, d, ulong);
    var base, start, divisor := base0, at, 10;
    var ud := if d >= 0 then d else d + ulong;
    if base == 'p' { base := 'x'; }
    if base == 'd' && d < 0 {
      buf[start] := '-';
      start := start + 1;
      ud := -d;
    } else if base == 'x' {
      divisor := 16;
    }
    assert ud == Magnitude(base0, d, ulong) && divisor == Divisor(base0);
    assert buf[at..start] == Sign(base0, d);
    hide Magnitude, Divisor, Sign;
    var p := WriteDigits(buf, start, ud, divisor);
    assert buf[at..start] == Sign(base0, d);
    Assembled(buf[..], old(buf[..]), at, start, p);
    assert |Text(base0, d, ulong)| == p - at;
  }

  // screen.c:367-389
  method WriteDigits(buf: array<char>, start: nat, n: nat, divisor: nat) returns (p: nat)
    requires IsDivisor(divisor) && start + |Digits(n, divisor)| < buf.Length
    modifies buf
    ensures p == start + |Digits(n, divisor)| && buf[start..p] == Digits(n, divisor) && buf[p] == '\0'
    ensures forall k | 0 <= k < buf.Length && !(start <= k <= p) :: buf[k] == old(buf[k])
  {
    hide Digits, Reversed;
    p := DigitLoop(buf, start, n, divisor);
    buf[p] := '\0';
    ReverseInPlace(buf, start, p);
  }

  // Written from at to p and nowhere else.
  lemma Assembled(now: string, was: string, at: nat, start: nat, p: nat)
    requires at <= start <= p < |now| == |was|
    requires forall k | 0 <= k < |now| && !(at <= k <= p) :: now[k] == was[k]
    ensures now[at..p] == now[at..start] + now[start..p]
    ensures now[..at] == was[..at] && now[p + 1..] == was[p + 1..]
  {
  }

  // The loop of screen.c:367-374.
  method DigitLoop(buf: array<char>, start: nat, n: nat, divisor: nat) returns (p: nat)
    requires IsDivisor(divisor) && start + |Digits(n, divisor)| < buf.Length
    modifies buf
    ensures p == start + |Digits(n, divisor)| && Reversed(buf[start..p]) == Digits(n, divisor)
    ensures forall k | 0 <= k < buf.Length && !(start <= k < p) :: buf[k] == old(buf[k])
  {
    hide Digits, Quotient, Remainder, Reversed;
    p := start;
    var ud := n;
    assert buf[start..p] == "" && Digits(n, divisor) == Digits(ud, divisor) + Reversed("");
    // do ... while (ud /= divisor)
    while true
      invariant start <= p <= start + |Digits(n, divisor)|
      invariant Digits(n, divisor) == Digits(ud, divisor) + Reversed(buf[start..p])
      invariant forall k | 0 <= k < buf.Length && !(start <= k < p) :: buf[k] == old(buf[k])
      decreases ud
    {
      ghost var written := buf[start..p];
      DigitStep(n, divisor, written, ud);
      var remainder := Remainder(ud, divisor);
      buf[p] := DigitChar(remainder);
      p := p + 1;
      assert buf[start..p] == written + [DigitChar(remainder)];
      ud := Quotient(ud, divisor);
      if ud == 0 { break; }
    }
  }

  lemma ReversedIs(was: string, now: string, start: nat, end: nat)
    requires start <= end <= |now| == |was|
    requires forall k | start <= k < end :: now[k] == was[start + end - 1 - k]
    ensures now[start..end] == Reversed(was[start..end])
  {
  }

  // The loop of screen.c:379-389.
  method ReverseInPlace(buf: array<char>, start: nat, end: nat)
    requires start < end <= buf.Length
    modifies buf
    ensures buf[start..end] == Reversed(old(buf[start..end]))
    ensures forall k | 0 <= k < buf.Length && !(start <= k < end) :: buf[k] == old(buf[k])
  {
    hide Reversed;
    var p1, p2 := start, end - 1;
    while p1 < p2
      invariant start <= p1 <= p2 + 1 && p1 + p2 == start + end - 1
      invariant forall k | 0 <= k < buf.Length ::
        buf[k] == if start <= k < p1 || p2 < k < end then old(buf[start + end - 1 - k]) else old(buf[k])
      decreases p2 - p1
    {
      var tmp := buf[p1];
      buf[p1] := buf[p2];
      buf[p2] := tmp;
      p1 := p1 + 1;
      p2 := p2 - 1;
    }
    assert forall k | start <= k < end :: buf[k] == old(buf[start + end - 1 - k]);
    ReversedIs(old(buf[..]), buf[..], start, end);
  }

  // ---------------------------------------------------------------- parsing

  // The loop condition of lib.c:129.
  predicate IsDigit(c: char, base: nat)
    requires base == 8 || base == 10 || base == 16
  {
    || ('0' <= c && c as int <= '0' as int + (if base > 10 then 10 else base) - 1)
    || (base > 10 && (('A' <= c && c as int <= 'A' as int + base - 11)
        || ('a' <= c && c as int <= 'a' as int + base - 11)))
  }

  function DigitValue(c: char): int
  {
    if c <= '9' then c as int - '0' as int
    else if c >= 'a' then c as int - 'a' as int + 10
    else c as int - 'A' as int + 10
  }

  // What a string of digits denotes.
  function Value(s: string, base: nat): int
  {
    if s == [] then 0 else Value(s[..|s| - 1], base) * base + DigitValue(s[|s| - 1])
  }

  // How many digits s starts with.
  function Span(s: string, base: nat): (r: nat)
    requires base == 8 || base == 10 || base == 16
    ensures r <= |s|
  {
    if s == [] || !IsDigit(s[0], base) then 0 else 1 + Span(s[1..], base)
  }

  // 32-bit two's complement.
  function Wrap(x: int): int
  {
    (x + U32 / 2) % U32 - U32 / 2
  }

  function Prefix(s: string): (r: (nat, nat))
    ensures r.1 <= |s| && (r.0 == 8 || r.0 == 10 || r.0 == 16)
  {
    if s != [] && s[0] == '0' then
      if |s| > 1 && (s[1] == 'x' || s[1] == 'X') then (16, 2) else (8, 1)
    else (10, 0)
  }

  // The number at the start of s, up to its first character that is no digit.
  function Parsed(s: string): int
  {
    var minus := s != [] && s[0] == '-';
    var t := if minus then s[1..] else s;
    var (base, skip) := Prefix(t);
    var v := Wrap(Value(t[skip..][..Span(t[skip..], base)], base));
    Wrap(if minus then -v else v)
  }

  lemma WrapShift(y: int, k: int)
    ensures Wrap(y - k * U32) == Wrap(y)
  {
    var q := (y + U32 / 2) / U32;
    assert y - k * U32 + U32 / 2 == (q - k) * U32 + (y + U32 / 2) % U32;
  }

  lemma WrapIs(x: int) returns (k: int)
    ensures Wrap(x) == x - k * U32
  {
    k := (x + U32 / 2) / U32;
  }

  lemma WrapAgain(x: int, base: nat, v: int)
    requires base == 8 || base == 10 || base == 16
    ensures Wrap(Wrap(Wrap(x) * base) + v) == Wrap(x * base + v)
  {
    hide Wrap;
    var k := WrapIs(x);
    var l := WrapIs(Wrap(x) * base);
    assert Wrap(x) * base == x * base - k * base * U32 by { Distribute(x, k, base); }
    assert Wrap(Wrap(x) * base) + v == x * base + v - (k * base + l) * U32;
    WrapShift(x * base + v, k * base + l);
  }

  lemma Distribute(x: int, k: int, base: nat)
    requires base == 8 || base == 10 || base == 16
    ensures (x - k * U32) * base == x * base - k * base * U32
  {
  }

  lemma {:induction false} SpanAt(s: string, base: nat, k: nat)
    requires base == 8 || base == 10 || base == 16
    requires k <= |s| && (forall i | 0 <= i < k :: IsDigit(s[i], base)) && (k == |s| || !IsDigit(s[k], base))
    ensures Span(s, base) == k
    decreases k
  {
    if k > 0 { SpanAt(s[1..], base, k - 1); }
  }

  // A 0 is no digit, and the three cases of lib.c:131-136.
  lemma ValueOf(c: char)
    ensures DigitValue(c) == if c <= '9' then c as int - '0' as int
                             else if c >= 'a' then c as int - 'a' as int + 10 else c as int - 'A' as int + 10
  {
  }

  lemma NulIsNoDigit(base: nat)
    requires base == 8 || base == 10 || base == 16
    ensures !IsDigit('\0', base) && Wrap(Value("", base)) == 0
  {
  }

  // a is a string in memory, ended by its first 0.
  method Atoi(a: array<char>, ghost z: nat) returns (r: int)
    requires z < a.Length && a[z] == '\0' && forall k | 0 <= k < z :: a[k] != '\0'
    ensures r == Parsed(a[..z])
  {
    hide Value, Span, Wrap, DigitValue, IsDigit;
    var i, s, base, p := 0, 1, 10, 0;
    ghost var text := a[..z];
    if a[p] == '-' {
      s := -1;
      p := p + 1;
    }
    ghost var t := if z > 0 && text[0] == '-' then text[1..] else text;
    ghost var first := p;
    assert t == a[first..z];
    if a[p] == '0' {
      base := 8;
      p := p + 1;
      if a[p] == 'x' || a[p] == 'X' {
        base := 16;
        p := p + 1;
      }
    }
    assert Prefix(t) == (base, p - first);
    assert t[p - first..] == a[p..z];
    i := ReadDigits(a, p, z, base);
    assert i * s == if s == 1 then i else -i;
    i := Wrap(i * s);
    return i;
  }

  // The loop of lib.c:129-138.
  method ReadDigits(a: array<char>, from: nat, ghost z: nat, base: nat) returns (i: int)
    requires from <= z < a.Length && a[z] == '\0' && (base == 8 || base == 10 || base == 16)
    ensures i == Wrap(Value(a[from..z][..Span(a[from..z], base)], base))
  {
    hide Value, Span, Wrap, DigitValue, IsDigit;
    ghost var digits := a[from..z];
    i := 0;
    var p := from;
    NulIsNoDigit(base);
    assert digits[..0] == "";
    while IsDigit(a[p], base)
      invariant from <= p <= z && i == Wrap(Value(digits[..p - from], base))
      invariant forall k | 0 <= k < p - from :: IsDigit(digits[k], base)
      decreases z - p
    {
      assert p < z && digits[p - from] == a[p];
      assert digits[..p - from + 1] == digits[..p - from] + [a[p]];
      ValueSnoc(digits[..p - from], a[p], base);
      WrapAgain(Value(digits[..p - from], base), base, DigitValue(a[p]));
      ValueOf(a[p]);
      i := Wrap(i * base);
      if a[p] <= '9' {
        i := Wrap(i + (a[p] as int - '0' as int));
      } else if a[p] >= 'a' {
        i := Wrap(i + (a[p] as int - 'a' as int + 10));
      } else {
        i := Wrap(i + (a[p] as int - 'A' as int + 10));
      }
      p := p + 1;
    }
    assert p < z ==> digits[p - from] == a[p];
    SpanAt(digits, base, p - from);
  }

  // The digits of each base.
  lemma DigitsOfBase(c: char, base: nat)
    requires base == 8 || base == 10 || base == 16
    ensures IsDigit(c, base) <==>
              c in (if base == 8 then "01234567" else if base == 10 then "0123456789" else "0123456789abcdefABCDEF")
  {
  }

  lemma WrapRange(x: int)
    ensures -0x8000_0000 <= Wrap(x) < 0x8000_0000
  {
  }

  lemma WrapMinus(v: int)
    ensures Wrap(-Wrap(v)) == Wrap(-v)
  {
    hide Wrap;
    var k := WrapIs(v);
    WrapShift(-v, -k);
  }

  lemma NoValue(base: nat)
    ensures Value("", base) == 0
  {
  }

  // Where the digits of base end.
  predicate Ends(ds: string, rest: string, base: nat)
    requires base == 8 || base == 10 || base == 16
  {
    && (forall k | 0 <= k < |ds| :: IsDigit(ds[k], base)) && (rest == "" || !IsDigit(rest[0], base))
    // a 0 is the prefix of another base, and so is an x behind it
    && (base == 10 && ds != "" ==> ds[0] != '0')
    && (base == 8 && ds == "" && rest != "" ==> rest[0] != 'x' && rest[0] != 'X')
    && (base == 10 && ds == "" && rest != "" ==> rest[0] != '-')
  }

  lemma ParsedDigitsThen(t: string, base: nat, skip: nat, ds: string, rest: string)
    requires base == 8 || base == 10 || base == 16
    requires Prefix(t) == (base, skip) && t[skip..] == ds + rest && Ends(ds, rest, base)
    ensures t[skip..][..Span(t[skip..], base)] == ds
  {
    SpanAt(ds + rest, base, |ds|);
  }

  lemma PrefixIs(base: nat, prefix: string, ds: string, rest: string)
    requires (base == 8 && prefix == "0") || (base == 10 && prefix == "") || (base == 16 && prefix in {"0x", "0X"})
    requires Ends(ds, rest, base)
    ensures var t := prefix + ds + rest;
            Prefix(t) == (base, |prefix|) && t[|prefix|..] == ds + rest && (t != "" ==> t[0] != '-')
  {
    var t := prefix + ds + rest;
    assert t[|prefix|..] == ds + rest;
    DigitsOfBase('0', 10);
    DigitsOfBase('-', 10);
    DigitsOfBase('x', 8);
    DigitsOfBase('X', 8);
    hide IsDigit;
  }

  // For any text: sign, base prefix, the digits of that base, and whatever follows them.
  lemma ParsedMeans(minus: bool, base: nat, prefix: string, ds: string, rest: string)
    requires (base == 8 && prefix == "0") || (base == 10 && prefix == "") || (base == 16 && prefix in {"0x", "0X"})
    requires Ends(ds, rest, base)
    ensures Parsed((if minus then "-" else "") + prefix + ds + rest)
            == Wrap(if minus then -Value(ds, base) else Value(ds, base))
  {
    hide Wrap, Value, Span, IsDigit, Prefix, Ends;
    var t := prefix + ds + rest;
    PrefixIs(base, prefix, ds, rest);
    ParsedDigitsThen(t, base, |prefix|, ds, rest);
    ParsedBehind(minus, t, base, |prefix|, ds);
    SignInFront(if minus then "-" else "", prefix, ds, rest);
    WrapMinus(Value(ds, base));
    WrapTwice(Value(ds, base));
  }

  lemma SignInFront(sign: string, prefix: string, ds: string, rest: string)
    ensures sign + prefix + ds + rest == sign + (prefix + ds + rest)
  {
  }

  lemma ParsedBehind(minus: bool, t: string, base: nat, skip: nat, ds: string)
    requires base == 8 || base == 10 || base == 16
    requires (t != "" ==> t[0] != '-') && Prefix(t) == (base, skip) && t[skip..][..Span(t[skip..], base)] == ds
    ensures Parsed((if minus then "-" else "") + t)
            == Wrap(if minus then -Wrap(Value(ds, base)) else Wrap(Value(ds, base)))
  {
    hide Wrap, Value, Span, Prefix;
    assert minus ==> ("-" + t)[1..] == t;
    assert "" + t == t;
  }

  lemma WrapTwice(v: int)
    ensures Wrap(Wrap(v)) == Wrap(v)
  {
  }

  // ---------------------------------------------------------------- the round trip

  lemma DigitIs(v: nat, divisor: nat)
    requires IsDivisor(divisor) && v < divisor
    ensures IsDigit(DigitChar(v), divisor) && DigitValue(DigitChar(v)) == v && DigitChar(v) != '-'
        && (DigitChar(v) == '0' <==> v == 0)
  {
  }

  lemma ValueSnoc(s: string, c: char, base: nat)
    ensures Value(s + [c], base) == Value(s, base) * base + DigitValue(c)
  {
    assert (s + [c])[..|s|] == s;
  }

  predicate Denotes(ds: string, n: nat, divisor: nat)
    requires IsDivisor(divisor)
  {
    && ds != [] && (forall k | 0 <= k < |ds| :: IsDigit(ds[k], divisor)) && Value(ds, divisor) == n
    && ds[0] != '-' && (if n > 0 then ds[0] != '0' else ds == "0")
  }

  lemma OneDigit(n: nat, divisor: nat)
    requires IsDivisor(divisor) && n < divisor
    ensures Denotes(Digits(n, divisor), n, divisor)
  {
    hide Value, IsDigit, DigitValue, Digits, DigitChar;
    DigitIs(n, divisor);
    OneDigitText(n, divisor);
    ValueSnoc("", DigitChar(n), divisor);
    assert "" + [DigitChar(n)] == [DigitChar(n)];
    assert Value("", divisor) == 0 by { NoValue(divisor); }
    if n == 0 { assert [DigitChar(n)] == "0"; }
  }

  lemma OneDigitText(n: nat, divisor: nat)
    requires IsDivisor(divisor) && n < divisor
    ensures Digits(n, divisor) == [DigitChar(n)]
  {
    hide DigitChar;
    assert Remainder(n, divisor) == n && Quotient(n, divisor) == 0;
  }

  lemma MoreDigits(rest: string, q: nat, v: nat, n: nat, divisor: nat)
    requires IsDivisor(divisor) && v < divisor && Denotes(rest, q, divisor) && q > 0 && n == q * divisor + v
    ensures Denotes(rest + [DigitChar(v)], n, divisor)
  {
    hide Value, IsDigit, DigitValue, DigitChar;
    DigitIs(v, divisor);
    ValueSnoc(rest, DigitChar(v), divisor);
  }

  // The digits of n denote n.
  lemma {:induction false} DigitsAre(n: nat, divisor: nat)
    requires IsDivisor(divisor)
    ensures Denotes(Digits(n, divisor), n, divisor)
  {
    hide Denotes, Quotient, Remainder, DigitChar;
    if n < divisor {
      OneDigit(n, divisor);
    } else {
      DigitsAre(Quotient(n, divisor), divisor);
      MoreDigits(Digits(Quotient(n, divisor), divisor), Quotient(n, divisor), Remainder(n, divisor), n, divisor);
    }
  }

  // What itoa() prints: a minus sign only for negative numbers in decimal, and behind it digits that denote the number
  // without its sign, or for a negative number in another base its two's complement.
  lemma TextDenotes(base: char, d: int, ulong: int)
    requires IsLong(d, ulong)
    ensures var t, divisor := Text(base, d, ulong), if base == 'x' || base == 'p' then 16 else 10;
            if base == 'd' && d < 0 then t != "" && t[0] == '-' && Denotes(t[1..], -d, divisor)
            else Denotes(t, if d < 0 then d + ulong else d, divisor)
  {
    hide Denotes;
    DigitsAre(Magnitude(base, d, ulong), Divisor(base));
    assert base == 'd' && d < 0 ==> Text(base, d, ulong)[1..] == Digits(Magnitude(base, d, ulong), Divisor(base));
    assert !(base == 'd' && d < 0) ==> Text(base, d, ulong) == Digits(Magnitude(base, d, ulong), Divisor(base));
  }

  // A text that is all digits is read to its end.
  lemma ParsedDigits(ds: string, base: nat)
    requires IsDivisor(base)
    requires forall k | 0 <= k < |ds| :: IsDigit(ds[k], base)
    ensures Span(ds, base) == |ds| && ds[..Span(ds, base)] == ds
  {
    SpanAt(ds, base, |ds|);
  }

  // atoi() reads what itoa() wrote: n in decimal, and n in hexadecimal behind "0x".
  lemma RoundTripDecimal(n: int, ulong: int)
    requires IsLong(n, ulong) && -(U32 / 2) < n < U32 / 2
    ensures Parsed(Text('d', n, ulong)) == n
  {
    var m := Magnitude('d', n, ulong);
    var ds := Digits(m, 10);
    DigitsAre(m, 10);
    hide Digits, Value, IsDigit, Span;
    ParsedDigits(ds, 10);
    if n == 0 {
      ZeroIsZero();
      assert Text('d', n, ulong) == "0";
    } else {
      DecimalText(n, ds, Text('d', n, ulong));
    }
  }

  lemma ZeroIsZero()
    ensures Parsed("0") == 0
  {
    assert "0"[1..] == [];
  }

  lemma DecimalText(n: int, ds: string, t: string)
    requires ds != [] && ds[0] != '0' && ds[0] != '-' && -(U32 / 2) < n < U32 / 2
    requires t == (if n < 0 then "-" else "") + ds
    requires ds[..Span(ds, 10)] == ds && Value(ds, 10) == if n < 0 then -n else n
    ensures Parsed(t) == n
  {
    hide Value, Span;
    assert n < 0 ==> t[1..] == ds;
    assert n >= 0 ==> t == ds;
    assert ds[0..] == ds;
  }

  lemma RoundTripHex(n: int, ulong: int)
    requires IsLong(n, ulong) && 0 <= n < U32 / 2
    ensures Parsed("0x" + Text('x', n, ulong)) == n
  {
    var ds := Digits(n, 16);
    DigitsAre(n, 16);
    hide Digits, Value, IsDigit, Span;
    ParsedDigits(ds, 16);
    assert Text('x', n, ulong) == ds;
    HexText(n, ds, "0x" + ds);
  }

  lemma HexText(n: int, ds: string, t: string)
    requires 0 <= n < U32 / 2 && (t == "0x" + ds || t == "0X" + ds)
    requires ds[..Span(ds, 16)] == ds && Value(ds, 16) == n
    ensures Parsed(t) == n
  {
    hide Value, Span;
    assert t[2..] == ds && t[0] == '0' && (t[1] == 'x' || t[1] == 'X');
  }

  // Octal numbers start with 0.
  lemma RoundTripOctal(n: int)
    requires 0 <= n < U32 / 2
    ensures Parsed("0" + Digits(n, 8)) == n
  {
    var ds := Digits(n, 8);
    DigitsAre(n, 8);
    assert IsDigit(ds[0], 8) && ds[0] != 'x' && ds[0] != 'X';
    hide Digits, Value, IsDigit, Span;
    ParsedDigits(ds, 8);
    OctalText(n, ds, "0" + ds);
  }

  lemma OctalText(n: int, ds: string, t: string)
    requires 0 <= n < U32 / 2 && t == "0" + ds && ds != [] && ds[0] != 'x' && ds[0] != 'X'
    requires ds[..Span(ds, 8)] == ds && Value(ds, 8) == n
    ensures Parsed(t) == n
  {
    hide Value, Span;
    assert t[1..] == ds && t[0] == '0' && t[1] == ds[0];
  }

  function UpperChar(c: char): char
  {
    if 'a' <= c <= 'f' then (c as int - 'a' as int + 'A' as int) as char else c
  }

  function Upper(s: string): (r: string)
    ensures |r| == |s| && forall k | 0 <= k < |s| :: r[k] == UpperChar(s[k])
  {
    if s == [] then [] else Upper(s[..|s| - 1]) + [UpperChar(s[|s| - 1])]
  }

  lemma {:induction false} UpperDigits(ds: string)
    requires forall k | 0 <= k < |ds| :: IsDigit(ds[k], 16)
    ensures forall k | 0 <= k < |ds| :: IsDigit(Upper(ds)[k], 16)
    ensures Value(Upper(ds), 16) == Value(ds, 16)
  {
    if ds != [] {
      var last := |ds| - 1;
      UpperDigits(ds[..last]);
      ValueSnoc(Upper(ds[..last]), UpperChar(ds[last]), 16);
      assert DigitValue(UpperChar(ds[last])) == DigitValue(ds[last]);
    }
  }

  // Hexadecimal digits and the x may be capitals.
  lemma RoundTripUpper(n: int)
    requires 0 <= n < U32 / 2
    ensures Parsed("0X" + Upper(Digits(n, 16))) == n
  {
    var ds := Digits(n, 16);
    DigitsAre(n, 16);
    UpperDigits(ds);
    hide Digits, Value, IsDigit, Span, Upper;
    ParsedDigits(Upper(ds), 16);
    HexText(n, Upper(ds), "0X" + Upper(ds));
  }

  // ---------------------------------------------------------------- through the buffer

  // A text of digits holds no 0 that would end it early.
  lemma NoNul(n: nat, divisor: nat)
    requires IsDivisor(divisor)
    ensures forall k | 0 <= k < |Digits(n, divisor)| :: Digits(n, divisor)[k] != '\0'
  {
    DigitsAre(n, divisor);
    NulIsNoDigit(divisor);
    hide Digits, Value, IsDigit;
  }

  // atoi() of what itoa() left in the buffer.
  method PrintAndRead(buf: array<char>, n: int, ulong: int) returns (r: int)
    requires IsLong(n, ulong) && -(U32 / 2) < n < U32 / 2 && |Text('d', n, ulong)| < buf.Length
    modifies buf
    ensures r == n
  {
    hide Digits, Text, Parsed, Wrap, Value, Span;
    Itoa(buf, 0, 'd', n, ulong);
    ghost var t := Text('d', n, ulong);
    TextParts('d', n, ulong);
    NoNul(Magnitude('d', n, ulong), 10);
    RoundTripDecimal(n, ulong);
    assert buf[..|t|] == buf[0..|t|] == t;
    assert forall k | 0 <= k < |t| :: buf[k] == t[k] != '\0';
    r := Atoi(buf, |t|);
  }

  // The same in hexadecimal, behind the prefix of screen.c:460-462.
  method PrintAndReadHex(buf: array<char>, n: int, ulong: int) returns (r: int)
    requires IsLong(n, ulong) && 0 <= n < U32 / 2 && 2 + |Text('x', n, ulong)| < buf.Length
    modifies buf
    ensures r == n
  {
    hide Digits, Text, Parsed, Wrap, Value, Span;
    buf[0], buf[1] := '0', 'x';
    Itoa(buf, 2, 'x', n, ulong);
    ghost var t := Text('x', n, ulong);
    TextParts('x', n, ulong);
    NoNul(n, 16);
    RoundTripHex(n, ulong);
    ghost var z := 2 + |t|;
    assert buf[..2] == "0x" && buf[..z] == buf[..2] + buf[2..z] == "0x" + t;
    assert forall k | 0 <= k < z :: buf[k] == ("0x" + t)[k] != '\0';
    r := Atoi(buf, z);
  }
}
