/** Where a restart picks up: the number in an output file's name and how it is read back, and the clock
    resolved from what the file and the configuration say. */
module RestartTime {
  import opened HaloFaces

  // ----- The number in a file name -----

  predicate IsDigit(c: char) { '0' <= c <= '9' }

  predicate AllDigits(s: string) { forall i :: 0 <= i < |s| ==> IsDigit(s[i]) }

  predicate NoDigits(s: string) { forall i :: 0 <= i < |s| ==> !IsDigit(s[i]) }

  function Last(s: string): char
    requires s != ""
  {
    s[|s| - 1]
  }

  function Init(s: string): string
    requires s != ""
  {
    s[..|s| - 1]
  }

  function DigitOf(n: nat): char
    requires n < 10
  {
    '0' + n as char
  }

  /** Decimal digits of a number, and the number of a string of digits. */
  function Decimal(n: nat): string { if n < 10 then [DigitOf(n)] else Decimal(n / 10) + [DigitOf(n % 10)] }

  function Value(s: string): nat
    requires AllDigits(s)
  {
    if s == "" then 0 else 10 * Value(Init(s)) + (Last(s) as int - '0' as int)
  }

  function Zeros(n: nat): string { seq(n, _ => '0') }

  /** A number printed into a field of six, filled with zeros on the left; the sign of a negative number
      comes after the fill. */
  function SixDigits(n: int): string {
    var s := if n < 0 then "-" + Decimal(-n) else Decimal(n);
    if |s| < 6 then Zeros(6 - |s|) + s else s
  }

  /** The file a write goes to; `path` is the directory and the prefix. */
  function FileName(path: string, n: int): string { path + "_" + SixDigits(n) + ".h5" }

  /** The position of the last dot. */
  function LastDot(s: string): Option<nat> {
    if s == "" then None else if Last(s) == '.' then Some(|s| - 1) else LastDot(Init(s))
  }

  lemma {:induction false} LastDotInside(s: string)
    ensures LastDot(s).Some? ==> LastDot(s).value < |s|
  {
    if s != "" { LastDotInside(Init(s)); }
  }

  /** The name up to its last dot. */
  function Stem(s: string): string {
    LastDotInside(s);
    match LastDot(s) case None => s case Some(d) => s[..d]
  }

  function WithoutTail(s: string): string { if s != "" && !IsDigit(Last(s)) then WithoutTail(Init(s)) else s }

  function DigitSuffix(s: string): string {
    if s != "" && IsDigit(Last(s)) then DigitSuffix(Init(s)) + [Last(s)] else ""
  }

  lemma {:induction false} DigitSuffixIsDigits(s: string)
    ensures AllDigits(DigitSuffix(s)) && |DigitSuffix(s)| <= |s|
  {
    if s != "" && IsDigit(Last(s)) { DigitSuffixIsDigits(Init(s)); }
  }

  /** The largest index a 64-bit signed integer holds. */
  const MAX_INDEX := 0x7fff_ffff_ffff_ffff

  /** The last digits before the last dot, unless there are none or they overflow. */
  function TrailingIndex(s: string): Option<nat> {
    var digits := DigitSuffix(WithoutTail(Stem(s)));
    DigitSuffixIsDigits(WithoutTail(Stem(s)));
    if digits == "" || Value(digits) > MAX_INDEX then None else Some(Value(digits))
  }

  lemma SkipOne(s: string, end: nat)
    requires 0 < end <= |s| && !IsDigit(s[end - 1])
    ensures WithoutTail(s[..end]) == WithoutTail(s[..end - 1])
  {
    assert Init(s[..end]) == s[..end - 1];
  }

  lemma TakeOne(s: string, start: nat, end: nat)
    requires 0 < start <= end <= |s| && IsDigit(s[start - 1])
    ensures DigitSuffix(s[..start]) + s[start..end] == DigitSuffix(s[..start - 1]) + s[start - 1..end]
  {
    assert Init(s[..start]) == s[..start - 1];
    assert s[start - 1..end] == [s[start - 1]] + s[start..end];
    assert DigitSuffix(s[..start]) == DigitSuffix(s[..start - 1]) + [s[start - 1]];
  }

  lemma ScanStops(s: string, start: nat, end: nat)
    requires start <= end <= |s|
    requires (end == 0 || IsDigit(s[end - 1])) && (start == 0 || !IsDigit(s[start - 1]))
    ensures WithoutTail(s[..end]) == s[..end] && DigitSuffix(s[..start]) + s[start..end] == s[start..end]
  {
    if end > 0 { assert Last(s[..end]) == s[end - 1]; }
    if start > 0 { assert Last(s[..start]) == s[start - 1]; }
  }

  /** The scan over the name. */
  method ParseTrailingFileIndex(s: string) returns (index: Option<nat>)
    ensures index == TrailingIndex(s)
  {
    LastDotInside(s);
    var dot := LastDot(s);
    var searchEnd := dot.GetOr(|s|);
    var stem := s[..searchEnd];
    var digitEnd := searchEnd;
    while digitEnd > 0 && !IsDigit(stem[digitEnd - 1])
      invariant 0 <= digitEnd <= searchEnd && WithoutTail(stem[..searchEnd]) == WithoutTail(stem[..digitEnd])
    {
      SkipOne(stem, digitEnd);
      digitEnd := digitEnd - 1;
    }
    var digitStart := digitEnd;
    while digitStart > 0 && IsDigit(stem[digitStart - 1])
      invariant 0 <= digitStart <= digitEnd
      invariant DigitSuffix(stem[..digitEnd]) + stem[digitEnd..digitEnd] ==
        DigitSuffix(stem[..digitStart]) + stem[digitStart..digitEnd]
    {
      TakeOne(stem, digitStart, digitEnd);
      digitStart := digitStart - 1;
    }
    ScanStops(stem, digitStart, digitEnd);
    assert stem == Stem(s) && stem[..searchEnd] == stem;
    DigitSuffixIsDigits(WithoutTail(stem));
    assert DigitSuffix(stem[..digitEnd]) + stem[digitEnd..digitEnd] == DigitSuffix(stem[..digitEnd]);
    if digitStart == digitEnd { return None; }
    var value := Value(stem[digitStart..digitEnd]);
    if value > MAX_INDEX { return None; }
    return Some(value);
  }

  // ----- The round trip of a file name -----

  lemma {:induction false} LastDotOfName(s: string, extension: string)
    requires forall i :: 0 <= i < |extension| ==> extension[i] != '.'
    ensures LastDot(s + "." + extension) == Some(|s|)
  {
    var name := s + "." + extension;
    if extension == "" {
      assert Last(name) == '.';
    } else {
      assert Init(name) == s + "." + Init(extension);
      assert Last(name) == Last(extension);
      LastDotOfName(s, Init(extension));
    }
  }

  lemma {:induction false} WithoutTailOf(s: string, tail: string)
    requires NoDigits(tail)
    ensures WithoutTail(s + tail) == WithoutTail(s)
  {
    if tail == "" {
      assert s + tail == s;
    } else {
      assert Init(s + tail) == s + Init(tail);
      WithoutTailOf(s, Init(tail));
    }
  }

  lemma {:induction false} DigitSuffixOf(s: string, digits: string)
    requires AllDigits(digits) && (s == "" || !IsDigit(Last(s)))
    ensures DigitSuffix(s + digits) == digits
  {
    if digits == "" {
      assert s + digits == s;
    } else {
      assert Init(s + digits) == s + Init(digits);
      DigitSuffixOf(s, Init(digits));
    }
  }

  /** Reading a name whose last number before its last dot is known, whatever stands before it. */
  lemma IndexOfName(before: string, digits: string, after: string, extension: string)
    requires AllDigits(digits) && digits != "" && NoDigits(after) && (before == "" || !IsDigit(Last(before)))
    requires forall i :: 0 <= i < |extension| ==> extension[i] != '.'
    ensures TrailingIndex(before + digits + after + "." + extension) == if Value(digits) > MAX_INDEX then None
      else Some(Value(digits))
  {
    var stem := before + digits + after;
    LastDotOfName(stem, extension);
    assert (stem + "." + extension)[..|stem|] == stem;
    WithoutTailOf(before + digits, after);
    assert Last(before + digits) == Last(digits);
    DigitSuffixOf(before, digits);
  }

  lemma {:induction false} DecimalIsDigits(n: nat)
    ensures AllDigits(Decimal(n)) && Decimal(n) != "" && Value(Decimal(n)) == n
  {
    if n < 10 {
      assert Init(Decimal(n)) == "";
    } else {
      DecimalIsDigits(n / 10);
      assert Init(Decimal(n)) == Decimal(n / 10);
    }
  }

  lemma {:induction false} ZerosAddNothing(n: nat, digits: string)
    requires AllDigits(digits)
    ensures AllDigits(Zeros(n) + digits) && Value(Zeros(n) + digits) == Value(digits)
  {
    var s := Zeros(n) + digits;
    if digits != "" {
      ZerosAddNothing(n, Init(digits));
      assert Init(s) == Zeros(n) + Init(digits);
    } else if n > 0 {
      ZerosAddNothing(n - 1, "");
      assert Init(s) == Zeros(n - 1) + "";
    }
  }

  /** A number printed into a field of w, filled with zeros. */
  function Filled(n: nat, w: nat): string {
    (if |Decimal(n)| < w then Zeros(w - |Decimal(n)|) else "") + Decimal(n)
  }

  /** The last digit of the field is the last digit of the number. */
  lemma LastPlace(n: nat, w: nat)
    requires w >= 2
    ensures Filled(n, w) == Filled(n / 10, w - 1) + [DigitOf(n % 10)]
  {
    if n < 10 {
      assert Decimal(0) == "0" && Zeros(w - 1) == Zeros(w - 2) + "0";
    } else {
      assert Decimal(n) == Decimal(n / 10) + [DigitOf(n % 10)];
    }
  }

  lemma FilledIsSixDigits(n: nat)
    ensures SixDigits(n) == Filled(n, 6)
  {
  }

  lemma NextPlace(m: nat, d: nat, w: nat)
    requires w >= 2 && d < 10
    ensures Filled(10 * m + d, w) == Filled(m, w - 1) + ['0' + d as char]
  {
    LastPlace(10 * m + d, w);
    assert (10 * m + d) / 10 == m && (10 * m + d) % 10 == d;
  }

  ghost predicate Places(digits: seq<nat>) { forall i :: 0 <= i < |digits| ==> digits[i] < 10 }

  /** The number with these decimal places. */
  function Number(digits: seq<nat>): nat {
    if digits == [] then 0 else 10 * Number(digits[..|digits| - 1]) + digits[|digits| - 1]
  }

  function Characters(digits: seq<nat>): string
    requires forall i :: 0 <= i < |digits| ==> digits[i] < 10
  {
    seq(|digits|, i requires 0 <= i < |digits| => '0' + digits[i] as char)
  }

  lemma {:induction false} FilledPlaces(digits: seq<nat>)
    requires Places(digits) && digits != []
    ensures Filled(Number(digits), |digits|) == Characters(digits)
  {
    var n := |digits| - 1;
    if n > 0 {
      FilledPlaces(digits[..n]);
      NextPlace(Number(digits[..n]), digits[n], n + 1);
      assert Characters(digits) == Characters(digits[..n]) + ['0' + digits[n] as char];
    } else {
      assert digits[..0] == [] && Filled(digits[0], 1) == ['0' + digits[0] as char];
    }
  }

  /** The name of a file below a million has its six decimal places between the underscore and the
      extension. */
  lemma NameHasSixPlaces(path: string, digits: seq<nat>)
    requires Places(digits) && |digits| == 6
    ensures FileName(path, Number(digits)) == path + "_" + Characters(digits) + ".h5"
  {
    FilledPlaces(digits);
    FilledIsSixDigits(Number(digits));
  }

  lemma NegativeParts(path: string, fill: string, digits: string)
    ensures path + "_" + (fill + "-" + digits) + ".h5" == (path + "_" + fill + "-") + digits + "" + "." + "h5"
  {
  }

  lemma SixOfNegative(m: int) returns (fill: string)
    requires m > 0
    ensures SixDigits(-m) == fill + "-" + Decimal(m)
  {
    fill := Zeros(if |Decimal(m)| + 1 < 6 then 5 - |Decimal(m)| else 0);
    assert fill + "-" + Decimal(m) == fill + ("-" + Decimal(m));
  }

  lemma NegativeName(path: string, m: int)
    requires 0 < m <= MAX_INDEX
    ensures TrailingIndex(FileName(path, -m)) == Some(m)
  {
    DecimalIsDigits(m);
    var fill := SixOfNegative(m);
    NegativeParts(path, fill, Decimal(m));
    IndexOfName(path + "_" + fill + "-", Decimal(m), "", "h5");
  }

  lemma NaturalName(path: string, n: nat)
    requires n <= MAX_INDEX
    ensures TrailingIndex(FileName(path, n)) == Some(n)
  {
    var digits := Decimal(n);
    var filled := Zeros(if |digits| < 6 then 6 - |digits| else 0) + digits;
    DecimalIsDigits(n);
    ZerosAddNothing(if |digits| < 6 then 6 - |digits| else 0, digits);
    assert SixDigits(n) == filled;
    IndexOfName(path + "_", filled, "", "h5");
    assert FileName(path, n) == (path + "_") + filled + "" + "." + "h5";
  }

  /** The name of file `n` reads back as the magnitude of `n`, for every directory and prefix, digits and
      dots in them included; so the round trip succeeds exactly for the numbers that are not negative. */
  lemma FileNameRoundTrip(path: string, n: int)
    requires -MAX_INDEX <= n <= MAX_INDEX
    ensures TrailingIndex(FileName(path, n)) == Some(if n < 0 then -n else n)
  {
    if n < 0 { NegativeName(path, -n); } else { NaturalName(path, n); }
  }

  /** Names of different files differ. */
  lemma FileNamesDiffer(path: string, n: nat, m: nat)
    requires n != m && n <= MAX_INDEX && m <= MAX_INDEX
    ensures FileName(path, n) != FileName(path, m)
  {
    FileNameRoundTrip(path, n);
    FileNameRoundTrip(path, m);
  }
}
