/**
 * String helpers the model layer relies on: Qt's whitespace test and
 * `QString::trimmed`, the decimal rendering of a number, and the place
 * markers of `QString::arg`.
 */
module Text {
  import opened Wrappers

  /** `QChar::isSpace`: the control characters 9..13 and U+0085, and every
      character of the Unicode separator categories Zs, Zl and Zp. */
  predicate IsSpace(c: char)
  {
    || ('\t' <= c <= '\r')
    || c == ' ' || c == '\U{0085}' || c == '\U{00A0}' || c == '\U{1680}'
    || ('\U{2000}' <= c <= '\U{200A}')
    || c == '\U{2028}' || c == '\U{2029}' || c == '\U{202F}' || c == '\U{205F}'
    || c == '\U{3000}'
  }

  /** Every character of `s` from `lo` (inclusive) to `hi` (exclusive) is whitespace. */
  predicate SpaceBetween(s: string, lo: int, hi: int)
    requires 0 <= lo <= hi <= |s|
  {
    forall i :: lo <= i < hi ==> IsSpace(s[i])
  }

  function TrimStart(s: string): string
  {
    if s != [] && IsSpace(s[0]) then TrimStart(s[1..]) else s
  }

  function TrimEnd(s: string): string
  {
    if s != [] && IsSpace(s[|s| - 1]) then TrimEnd(s[..|s| - 1]) else s
  }

  /** `QString::trimmed`: drops the whitespace at both ends. */
  function Trim(s: string): string
  {
    TrimEnd(TrimStart(s))
  }

  lemma {:induction false} TrimStartSplits(s: string) returns (k: nat)
    ensures k <= |s| && TrimStart(s) == s[k..] && SpaceBetween(s, 0, k)
    ensures k < |s| ==> !IsSpace(s[k])
  {
    if s != [] && IsSpace(s[0]) {
      var k' := TrimStartSplits(s[1..]);
      k := k' + 1;
      assert s[1..][k'..] == s[k..];
      forall i | 0 <= i < k ensures IsSpace(s[i]) {
        if i > 0 { assert s[i] == s[1..][i - 1]; }
      }
    } else {
      k := 0;
    }
  }

  lemma {:induction false} TrimEndSplits(s: string) returns (k: nat)
    ensures k <= |s| && TrimEnd(s) == s[..k] && SpaceBetween(s, k, |s|)
    ensures 0 < k ==> !IsSpace(s[k - 1])
  {
    if s != [] && IsSpace(s[|s| - 1]) {
      var p := s[..|s| - 1];
      k := TrimEndSplits(p);
      assert p[..k] == s[..k];
      forall i | k <= i < |s| ensures IsSpace(s[i]) {
        if i < |s| - 1 { assert s[i] == p[i]; }
      }
    } else {
      k := |s|;
    }
  }

  /** The trimmed text is the input with a run of whitespace removed at each
      end, and it neither starts nor ends with whitespace. */
  lemma TrimIsInfix(s: string) returns (i: nat, j: nat)
    ensures i <= j <= |s| && Trim(s) == s[i..j]
    ensures SpaceBetween(s, 0, i) && SpaceBetween(s, j, |s|)
    ensures i < j ==> !IsSpace(s[i]) && !IsSpace(s[j - 1])
  {
    i := TrimStartSplits(s);
    var u := s[i..];
    var k := TrimEndSplits(u);
    j := i + k;
    assert u[..k] == s[i..j];
    forall m | j <= m < |s| ensures IsSpace(s[m]) {
      assert s[m] == u[m - i];
    }
    if i < j {
      assert s[i] == u[0];
      assert s[j - 1] == u[k - 1];
    }
  }

  /** Trimming twice is trimming once. */
  lemma {:induction false} TrimIdempotent(s: string)
    ensures Trim(Trim(s)) == Trim(s)
  {
    var i, j := TrimIsInfix(s);
    var t := Trim(s);
    if t != [] {
      assert t[0] == s[i] && t[|t| - 1] == s[j - 1];
      assert TrimStart(t) == t;
      assert TrimEnd(t) == t;
    }
  }

  // ---- decimal numbers -------------------------------------------------

  predicate IsDigit(c: char)
  {
    '0' <= c <= '9'
  }

  function DigitChar(d: nat): (c: char)
    requires d < 10
  {
    ['0', '1', '2', '3', '4', '5', '6', '7', '8', '9'][d]
  }

  function DigitValue(c: char): nat
    requires IsDigit(c)
  {
    (c as int - '0' as int) as nat
  }

  /** The decimal rendering of `n`, as `QString::arg(int)` produces it. */
  function Decimal(n: nat): string
  {
    if n < 10 then [DigitChar(n)] else Decimal(n / 10) + [DigitChar(n % 10)]
  }

  predicate AllDigits(s: string)
  {
    forall i :: 0 <= i < |s| ==> IsDigit(s[i])
  }

  /** The value of a string of decimal digits. */
  function DigitsValue(s: string): nat
    requires AllDigits(s)
  {
    if s == [] then 0 else 10 * DigitsValue(s[..|s| - 1]) + DigitValue(s[|s| - 1])
  }

  /** Reading back a decimal rendering gives the number rendered. */
  lemma {:induction false} DecimalRoundTrip(n: nat)
    ensures Decimal(n) != [] && AllDigits(Decimal(n))
    ensures DigitsValue(Decimal(n)) == n
  {
    if n >= 10 {
      DecimalRoundTrip(n / 10);
      var s := Decimal(n);
      assert s[..|s| - 1] == Decimal(n / 10);
    }
  }

  // ---- QString::arg --------------------------------------------------------

  /** The digits that make `%` a place marker (`%1` to `%9`). */
  predicate IsMarkerDigit(c: char)
  {
    '1' <= c <= '9'
  }

  /** A place marker starts at position `i` of `s`. */
  predicate MarkerAt(s: string, i: nat)
  {
    i + 1 < |s| && s[i] == '%' && IsMarkerDigit(s[i + 1])
  }

  /** The digit of the lowest-numbered place marker in `s`, if there is one. */
  function LowestMarker(s: string): Option<char>
    decreases |s|
  {
    if |s| < 2 then None
    else
      var rest := LowestMarker(s[1..]);
      if MarkerAt(s, 0) && (rest.None? || s[1] <= rest.value) then Some(s[1]) else rest
  }

  /** `LowestMarker` finds no marker exactly when there is none, and
      otherwise one that occurs at `k` and is numbered no higher than any
      other marker. */
  lemma {:induction false} LowestMarkerIsLowest(s: string) returns (k: nat)
    ensures LowestMarker(s).None? <==> forall i: nat :: i < |s| ==> !MarkerAt(s, i)
    ensures LowestMarker(s).Some? ==>
      && MarkerAt(s, k) && s[k + 1] == LowestMarker(s).value
      && forall i: nat :: i < |s| && MarkerAt(s, i) ==> LowestMarker(s).value <= s[i + 1]
    decreases |s|
  {
    if |s| < 2 {
      k := 0;
      forall i: nat | i < |s| ensures !MarkerAt(s, i) { }
    } else {
      var t := s[1..];
      var k' := LowestMarkerIsLowest(t);
      forall i: nat | 1 <= i < |s| ensures MarkerAt(s, i) <==> MarkerAt(t, i - 1) {
        assert s[i] == t[i - 1];
        if i + 1 < |s| { assert s[i + 1] == t[i]; }
      }
      if MarkerAt(s, 0) && (LowestMarker(t).None? || s[1] <= LowestMarker(t).value) {
        k := 0;
      } else {
        k := k' + 1;
        if LowestMarker(t).Some? {
          assert MarkerAt(t, k');
        } else {
          forall i: nat | i < |s| ensures !MarkerAt(s, i) {
            if i > 0 { assert !MarkerAt(t, i - 1); }
          }
        }
      }
      if LowestMarker(s).Some? {
        assert MarkerAt(s, k);
      }
    }
  }

  /** Every occurrence of the marker `%d` in `s` replaced by `v`, left to right. */
  function Substitute(s: string, d: char, v: string): string
    decreases |s|
  {
    if |s| < 2 then s
    else if s[0] == '%' && s[1] == d then v + Substitute(s[2..], d, v)
    else [s[0]] + Substitute(s[1..], d, v)
  }

  /** `QString::arg(v)`: each occurrence of the lowest-numbered place marker
      is replaced by `v`; a format without a marker comes back unchanged. */
  function Arg(fmt: string, v: string): string
  {
    match LowestMarker(fmt)
    case None => fmt
    case Some(d) => Substitute(fmt, d, v)
  }

  /** Substitution leaves a string without the marker unchanged, so `arg`
      on a format with no marker at all returns the format itself. */
  lemma {:induction false} ArgWithoutMarker(fmt: string, v: string)
    requires forall i: nat :: i < |fmt| ==> !MarkerAt(fmt, i)
    ensures Arg(fmt, v) == fmt
  {
    var k := LowestMarkerIsLowest(fmt);
  }
}
