/**
 * The few JavaScript string built-ins the clock page relies on, written out:
 * `String.prototype.trim`, `String(n)`, `padStart`, `split` and `join` on a
 * one-character separator, and the decimal value of an ASCII digit run
 * (`Number("0925")`, luxon's `\d{n}` fields).
 */
module Text {
  import opened Wrappers

  /** The characters `trim` removes: ECMAScript WhiteSpace and LineTerminator. */
  predicate IsJsSpace(c: char) {
    || c == '\t' || c == '\n' || c == '\U{000B}' || c == '\U{000C}' || c == '\r'
    || c == ' ' || c == '\U{00A0}' || c == '\U{1680}'
    || ('\U{2000}' <= c <= '\U{200A}')
    || c == '\U{2028}' || c == '\U{2029}' || c == '\U{202F}' || c == '\U{205F}'
    || c == '\U{3000}' || c == '\U{FEFF}'
  }

  predicate AllSpace(s: string) {
    forall i :: 0 <= i < |s| ==> IsJsSpace(s[i])
  }

  function TrimStart(s: string): string {
    if s != [] && IsJsSpace(s[0]) then TrimStart(s[1..]) else s
  }

  function TrimEnd(s: string): string {
    if s != [] && IsJsSpace(s[|s| - 1]) then TrimEnd(s[..|s| - 1]) else s
  }

  /** `s.trim()`: neither end of the result is whitespace. */
  function Trim(s: string): (r: string)
    ensures r == [] || (!IsJsSpace(r[0]) && !IsJsSpace(r[|r| - 1]))
    ensures |r| <= |s|
  {
    TrimEndEdge(TrimStart(s));
    TrimStartEdge(s);
    TrimEnd(TrimStart(s))
  }

  lemma {:induction false} TrimStartEdge(s: string)
    ensures var r := TrimStart(s); (r == [] || !IsJsSpace(r[0])) && |r| <= |s|
    ensures TrimStart(s) == [] <==> AllSpace(s)
  {
    if s != [] && IsJsSpace(s[0]) {
      TrimStartEdge(s[1..]);
      if !AllSpace(s) {
        var i :| 0 <= i < |s| && !IsJsSpace(s[i]);
        assert !IsJsSpace(s[1..][i - 1]);
      }
    }
  }

  lemma {:induction false} TrimEndEdge(s: string)
    ensures var r := TrimEnd(s);
      (r == [] || (!IsJsSpace(r[|r| - 1]) && (s != [] && !IsJsSpace(s[0]) ==> r[0] == s[0]))) && |r| <= |s|
  {
    if s != [] && IsJsSpace(s[|s| - 1]) {
      TrimEndEdge(s[..|s| - 1]);
    }
  }

  /** Whitespace in front of a string is all `TrimStart` sees of it. */
  lemma {:induction false} TrimStartSpaces(w: string, x: string)
    requires AllSpace(w)
    ensures TrimStart(w + x) == TrimStart(x)
  {
    if w != [] {
      assert (w + x)[1..] == w[1..] + x;
      TrimStartSpaces(w[1..], x);
    } else {
      assert w + x == x;
    }
  }

  lemma {:induction false} TrimEndSpaces(x: string, w: string)
    requires AllSpace(w)
    ensures TrimEnd(x + w) == TrimEnd(x)
  {
    if w != [] {
      assert (x + w)[..|x + w| - 1] == x + w[..|w| - 1];
      TrimEndSpaces(x, w[..|w| - 1]);
    } else {
      assert x + w == x;
    }
  }

  /** What `TrimStart` does to a concatenation: it stops inside `x` unless `x` is all whitespace. */
  lemma {:induction false} TrimStartAppend(x: string, y: string)
    ensures TrimStart(x + y) == if AllSpace(x) then TrimStart(y) else TrimStart(x) + y
  {
    if x == [] {
      assert x + y == y;
    } else if IsJsSpace(x[0]) {
      assert (x + y)[1..] == x[1..] + y;
      TrimStartAppend(x[1..], y);
      assert AllSpace(x) <==> AllSpace(x[1..]) by {
        if AllSpace(x[1..]) {
          forall i | 0 <= i < |x| ensures IsJsSpace(x[i]) {
            if i > 0 { assert x[i] == x[1..][i - 1]; }
          }
        }
      }
    } else {
      assert !AllSpace(x);
    }
  }

  /** Surrounding whitespace does not change what `trim` returns. */
  lemma TrimSurrounded(w1: string, x: string, w2: string)
    requires AllSpace(w1) && AllSpace(w2)
    ensures Trim(w1 + x + w2) == Trim(x)
  {
    assert w1 + x + w2 == w1 + (x + w2);
    TrimStartSpaces(w1, x + w2);
    TrimStartAppend(x, w2);
    if AllSpace(x) {
      TrimStartEdge(w2);
      TrimStartEdge(x);
    } else {
      TrimEndSpaces(TrimStart(x), w2);
    }
  }

  /** A string with no whitespace at either end is its own trim. */
  lemma TrimUnchanged(s: string)
    requires s == [] || (!IsJsSpace(s[0]) && !IsJsSpace(s[|s| - 1]))
    ensures Trim(s) == s
  {
  }

  // ---------------------------------------------------------------- digits

  predicate IsDigit(c: char) {
    '0' <= c <= '9'
  }

  predicate AllDigits(s: string) {
    forall i :: 0 <= i < |s| ==> IsDigit(s[i])
  }

  function DigitChar(d: nat): (c: char)
    requires d < 10
    ensures IsDigit(c)
  {
    ('0' as int + d) as char
  }

  function DigitValue(c: char): (d: nat)
    requires IsDigit(c)
    ensures d < 10 && DigitChar(d) == c
  {
    c as int - '0' as int
  }

  function Pow10(k: nat): (p: nat)
    ensures p >= 1
  {
    if k == 0 then 1 else 10 * Pow10(k - 1)
  }

  /** `Number(s)` for a run of ASCII digits. */
  function Value(s: string): nat
    requires AllDigits(s)
  {
    if s == [] then 0 else Value(s[..|s| - 1]) * 10 + DigitValue(s[|s| - 1])
  }

  /** `String(n)` for a non-negative integer. */
  function Decimal(n: nat): string {
    if n < 10 then [DigitChar(n)] else Decimal(n / 10) + [DigitChar(n % 10)]
  }

  function Repeat(c: char, k: nat): (r: string)
    ensures |r| == k && forall i :: 0 <= i < k ==> r[i] == c
  {
    if k == 0 then [] else [c] + Repeat(c, k - 1)
  }

  /** `s.padStart(w, fill)`. */
  function PadStart(s: string, w: nat, fill: char): (r: string)
    ensures |r| == if |s| >= w then |s| else w
  {
    if |s| >= w then s else Repeat(fill, w - |s|) + s
  }

  /** A digit run of length k has a value below 10^k. */
  lemma {:induction false} ValueBound(s: string)
    requires AllDigits(s)
    ensures Value(s) < Pow10(|s|)
  {
    if s != [] {
      ValueBound(s[..|s| - 1]);
    }
  }

  /** `String(n)` is a digit run whose value is n, at most k long when n < 10^k. */
  lemma {:induction false} DecimalValue(n: nat, k: nat)
    requires 1 <= k && n < Pow10(k)
    ensures AllDigits(Decimal(n)) && Value(Decimal(n)) == n && |Decimal(n)| <= k
  {
    if n >= 10 {
      DecimalValue(n / 10, k - 1);
      var d := Decimal(n / 10);
      assert Decimal(n)[..|Decimal(n)| - 1] == d;
    }
  }

  lemma {:induction false} ZerosValue(z: string, t: string)
    requires AllDigits(t) && forall i :: 0 <= i < |z| ==> z[i] == '0'
    ensures AllDigits(z + t) && Value(z + t) == Value(t)
  {
    if t == [] {
      assert z + t == z;
      if z != [] {
        ZerosValue(z[..|z| - 1], []);
        assert z[..|z| - 1] + [] == z[..|z| - 1];
      }
    } else {
      var t' := t[..|t| - 1];
      ZerosValue(z, t');
      assert (z + t)[..|z + t| - 1] == z + t';
    }
  }

  /** Two digit runs of the same length with the same value are the same string. */
  lemma {:induction false} ValueInjective(s: string, t: string)
    requires AllDigits(s) && AllDigits(t) && |s| == |t| && Value(s) == Value(t)
    ensures s == t
  {
    if s != [] {
      var s', t' := s[..|s| - 1], t[..|t| - 1];
      var a, b := DigitValue(s[|s| - 1]), DigitValue(t[|t| - 1]);
      assert Value(s) == Value(s') * 10 + a && Value(t) == Value(t') * 10 + b;
      assert a == b && Value(s') == Value(t');
      ValueInjective(s', t');
      assert s == s' + [s[|s| - 1]] && t == t' + [t[|t| - 1]];
    }
  }

  /** Formatting n zero-padded to width k gives a k-digit run worth n. */
  lemma PadDecimal(n: nat, k: nat)
    requires 1 <= k && n < Pow10(k)
    ensures var p := PadStart(Decimal(n), k, '0');
      |p| == k && AllDigits(p) && Value(p) == n
  {
    DecimalValue(n, k);
    var d := Decimal(n);
    if |d| < k {
      var z := Repeat('0', k - |d|);
      ZerosValue(z, d);
      assert PadStart(d, k, '0') == z + d;
    }
  }

  /** The format/parse round trip of a fixed-width field: re-padding the value of a digit run restores it. */
  lemma PadValue(s: string)
    requires AllDigits(s) && |s| >= 1
    ensures PadStart(Decimal(Value(s)), |s|, '0') == s
  {
    ValueBound(s);
    PadDecimal(Value(s), |s|);
    ValueInjective(PadStart(Decimal(Value(s)), |s|, '0'), s);
  }

  // ---------------------------------------------------------------- split / join

  /** `s.indexOf(c)`, with -1 as None. */
  function IndexOf(s: string, c: char): (r: Option<nat>)
    ensures r.Some? ==> r.value < |s| && s[r.value] == c && c !in s[..r.value]
    ensures r.None? ==> c !in s
  {
    if s == [] then None
    else if s[0] == c then Some(0)
    else match IndexOf(s[1..], c)
      case None => None
      case Some(i) => Some(i + 1)
  }

  /** `s.split(sep)` for a one-character separator. */
  function Split(s: string, sep: char): (parts: seq<string>)
    ensures |parts| >= 1
    decreases |s|
  {
    match IndexOf(s, sep)
    case None => [s]
    case Some(i) => [s[..i]] + Split(s[i + 1..], sep)
  }

  /** No piece of a split holds the separator. */
  lemma {:induction false} SplitPieces(s: string, sep: char)
    ensures forall k :: 0 <= k < |Split(s, sep)| ==> sep !in Split(s, sep)[k]
    decreases |s|
  {
    match IndexOf(s, sep)
    case None =>
    case Some(i) =>
      SplitPieces(s[i + 1..], sep);
      assert Split(s, sep) == [s[..i]] + Split(s[i + 1..], sep);
  }

  /** `parts.join(sep)`. */
  function Join(parts: seq<string>, sep: char): string {
    if parts == [] then ""
    else if |parts| == 1 then parts[0]
    else parts[0] + [sep] + Join(parts[1..], sep)
  }

  /** Joining the pieces of a split restores the string. */
  lemma {:induction false} JoinSplit(s: string, sep: char)
    ensures Join(Split(s, sep), sep) == s
    decreases |s|
  {
    match IndexOf(s, sep)
    case None =>
    case Some(i) =>
      JoinSplit(s[i + 1..], sep);
      assert s == s[..i] + [sep] + s[i + 1..];
  }

  /** Splitting a join of separator-free pieces restores the pieces. */
  lemma {:induction false} SplitJoin(parts: seq<string>, sep: char)
    requires |parts| >= 1
    requires forall k :: 0 <= k < |parts| ==> sep !in parts[k]
    ensures Split(Join(parts, sep), sep) == parts
  {
    var s := Join(parts, sep);
    if |parts| == 1 {
      assert IndexOf(s, sep).None?;
    } else {
      var p := parts[0];
      var rest := Join(parts[1..], sep);
      assert s == p + [sep] + rest;
      IndexOfAfter(p, sep, rest);
      assert s[|p| + 1..] == rest;
      assert s[..|p|] == p;
      SplitJoin(parts[1..], sep);
    }
  }

  lemma {:induction false} IndexOfAfter(p: string, sep: char, rest: string)
    requires sep !in p
    ensures IndexOf(p + [sep] + rest, sep) == Some(|p|)
  {
    if p != [] {
      assert (p + [sep] + rest)[1..] == p[1..] + [sep] + rest;
      assert p[0] in p;
      IndexOfAfter(p[1..], sep, rest);
    }
  }
}
