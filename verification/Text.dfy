// The string operations that the cache keys and the token keys depend on.
// Case mapping is modelled for the latin letters, white space as Go's unicode.IsSpace.
module Text {
  import opened Common

  predicate IsSpace(c: char) {
    c == ' ' || '\t' <= c <= '\r' || c == '\U{0085}' || c == '\U{00A0}' || c == '\U{1680}' ||
    '\U{2000}' <= c <= '\U{200A}' || c == '\U{2028}' || c == '\U{2029}' || c == '\U{202F}' ||
    c == '\U{205F}' || c == '\U{3000}'
  }

  function TrimLeft(s: string): string {
    if s != "" && IsSpace(s[0]) then TrimLeft(s[1..]) else s
  }

  function TrimRight(s: string): string {
    if s != "" && IsSpace(s[|s| - 1]) then TrimRight(s[..|s| - 1]) else s
  }

  // strings.TrimSpace
  function Trim(s: string): string {
    TrimRight(TrimLeft(s))
  }

  function UpperChar(c: char): char {
    if 'a' <= c <= 'z' then c - 32 as char else c
  }

  // strings.ToUpper
  function Upper(s: string): string {
    seq(|s|, i requires 0 <= i < |s| => UpperChar(s[i]))
  }

  // The form in which an airport code is compared, sent and used as a key.
  function Normalize(s: string): string {
    Upper(Trim(s))
  }

  ghost predicate Trimmed(s: string) {
    s == "" || (!IsSpace(s[0]) && !IsSpace(s[|s| - 1]))
  }

  lemma {:induction false} TrimRightEnds(s: string)
    ensures TrimRight(s) <= s
    ensures TrimRight(s) == "" || !IsSpace(TrimRight(s)[|TrimRight(s)| - 1])
  {
    if s != "" && IsSpace(s[|s| - 1]) {
      TrimRightEnds(s[..|s| - 1]);
    }
  }

  lemma {:induction false} TrimLeftStarts(s: string)
    ensures TrimLeft(s) == "" || !IsSpace(TrimLeft(s)[0])
  {
    if s != "" && IsSpace(s[0]) {
      TrimLeftStarts(s[1..]);
    }
  }

  lemma TrimIsTrimmed(s: string)
    ensures Trimmed(Trim(s))
  {
    TrimLeftStarts(s);
    TrimRightEnds(TrimLeft(s));
  }

  predicate Blank(s: string) {
    forall i :: 0 <= i < |s| ==> IsSpace(s[i])
  }

  lemma {:induction false} TrimLeftCuts(s: string) returns (cut: string)
    ensures Blank(cut) && s == cut + TrimLeft(s)
  {
    if s != "" && IsSpace(s[0]) {
      cut := TrimLeftCuts(s[1..]);
      cut := [s[0]] + cut;
    } else {
      cut := "";
    }
  }

  lemma {:induction false} TrimRightCuts(s: string) returns (cut: string)
    ensures Blank(cut) && s == TrimRight(s) + cut
  {
    if s != "" && IsSpace(s[|s| - 1]) {
      cut := TrimRightCuts(s[..|s| - 1]);
      cut := cut + [s[|s| - 1]];
    } else {
      cut := "";
    }
  }

  // Trimming cuts white space off both ends, all of it and nothing else.
  lemma TrimMeaning(s: string)
    ensures Trimmed(Trim(s))
    ensures exists left, right :: Blank(left) && Blank(right) && s == left + Trim(s) + right
  {
    TrimIsTrimmed(s);
    var left := TrimLeftCuts(s);
    var right := TrimRightCuts(TrimLeft(s));
    assert s == left + Trim(s) + right;
  }

  // Upper-casing moves the small latin letters to the capitals, position by position.
  lemma UpperMeaning(s: string, i: nat)
    requires i < |s|
    ensures |Upper(s)| == |s|
    ensures if 'a' <= s[i] <= 'z' then 'A' <= Upper(s)[i] <= 'Z' && Upper(s)[i] as int - 'A' as int == s[i] as int - 'a' as int
            else Upper(s)[i] == s[i]
  {
  }

  // Normalizing twice changes nothing: a normalized code is its own key form.
  lemma NormalizeIdempotent(s: string)
    ensures Normalize(Normalize(s)) == Normalize(s)
    ensures Trim(Normalize(s)) == Normalize(s)
    ensures Trim(s) == "" <==> Normalize(s) == ""
  {
    TrimIsTrimmed(s);
    var n := Normalize(s);
    assert Trimmed(n);
    assert Trim(n) == n;
    assert Upper(n) == n;
  }

  // Decimal numerals, as fmt's %d and strconv.FormatInt write them.
  function Decimal(n: nat): (d: string)
    ensures |d| > 0
    ensures forall c :: c in d ==> '0' <= c <= '9'
  {
    var digit := ['0' + (n % 10) as char];
    if n < 10 then digit else Decimal(n / 10) + digit
  }

  lemma {:induction false} DecimalInjective(a: nat, b: nat)
    requires Decimal(a) == Decimal(b)
    ensures a == b
  {
    var da, db := Decimal(a), Decimal(b);
    assert da[|da| - 1] == '0' + (a % 10) as char;
    assert db[|db| - 1] == '0' + (b % 10) as char;
    assert a % 10 == b % 10;
    if a >= 10 && b >= 10 {
      assert Decimal(a / 10) == da[..|da| - 1] == db[..|db| - 1] == Decimal(b / 10);
      DecimalInjective(a / 10, b / 10);
    }
  }

  predicate AllDigits(s: string) {
    forall i :: 0 <= i < |s| ==> '0' <= s[i] <= '9'
  }

  function Value(s: string): nat
    requires AllDigits(s)
  {
    if s == "" then 0 else 10 * Value(s[..|s| - 1]) + (s[|s| - 1] - '0') as int
  }

  // strconv.ParseInt with 2^(bits-1) as bound, and then the test for a positive number.
  function ParsePositive(s: string, bound: int): (r: Option<nat>)
    ensures r.Some? ==> 0 < r.value < bound
  {
    var digits := if s != "" && s[0] == '+' then s[1..] else s;
    if digits != "" && AllDigits(digits) && 0 < Value(digits) < bound then Some(Value(digits)) else None
  }

  lemma {:induction false} ValueOfDecimal(n: nat)
    ensures AllDigits(Decimal(n)) && Value(Decimal(n)) == n
  {
    var d := Decimal(n);
    assert forall i :: 0 <= i < |d| ==> d[i] in d;
    if n >= 10 {
      ValueOfDecimal(n / 10);
      assert d[..|d| - 1] == Decimal(n / 10);
    } else {
      assert d[..|d| - 1] == "";
    }
  }

  // Reading a numeral back gives the number it was written from.
  lemma DecimalRoundTrip(n: nat, bound: int)
    requires 0 < n < bound
    ensures ParsePositive(Decimal(n), bound) == Some(n)
  {
    ValueOfDecimal(n);
    assert Decimal(n)[0] in Decimal(n);
  }

  function Zeros(n: nat): (s: string)
    ensures |s| == n
  {
    seq(n, _ => '0')
  }

  lemma {:induction false} ValueOfZeros(n: nat, d: string)
    requires AllDigits(d)
    ensures AllDigits(Zeros(n) + d) && Value(Zeros(n) + d) == Value(d)
  {
    var s := Zeros(n) + d;
    if d != "" {
      assert AllDigits(d[..|d| - 1]);
      ValueOfZeros(n, d[..|d| - 1]);
      assert s[..|s| - 1] == Zeros(n) + d[..|d| - 1];
    } else if n > 0 {
      ValueOfZeros(n - 1, "");
      assert s[..n - 1] == Zeros(n - 1) + "";
    }
  }

  // Digits with a positive value are the numeral of that value after some zeros.
  lemma {:induction false} DigitsAreNumeral(d: string) returns (zeros: nat)
    requires AllDigits(d) && Value(d) > 0
    ensures d == Zeros(zeros) + Decimal(Value(d))
  {
    var front, digit := d[..|d| - 1], d[|d| - 1];
    assert AllDigits(front);
    if Value(front) == 0 {
      AllZeros(front);
      zeros := |front|;
      assert Decimal(Value(d)) == [digit];
    } else {
      zeros := DigitsAreNumeral(front);
      assert Value(d) / 10 == Value(front);
      assert Decimal(Value(d)) == Decimal(Value(front)) + [digit];
    }
    assert d == front + [digit];
  }

  lemma {:induction false} AllZeros(d: string)
    requires AllDigits(d) && Value(d) == 0
    ensures d == Zeros(|d|)
  {
    if d != "" {
      assert AllDigits(d[..|d| - 1]);
      AllZeros(d[..|d| - 1]);
      assert d == d[..|d| - 1] + [d[|d| - 1]];
    }
  }

  ghost predicate Writes(s: string, n: nat) {
    exists zeros: nat :: s == Zeros(zeros) + Decimal(n) || s == "+" + (Zeros(zeros) + Decimal(n))
  }

  lemma ReadIsWritten(s: string, n: nat, bound: int)
    requires ParsePositive(s, bound) == Some(n)
    ensures Writes(s, n)
  {
    var zeros := DigitsAreNumeral(if s[0] == '+' then s[1..] else s);
    assert s[0] == '+' ==> s == "+" + s[1..];
  }

  lemma WrittenIsRead(s: string, zeros: nat, n: nat, bound: int)
    requires 0 < n < bound
    requires s == Zeros(zeros) + Decimal(n) || s == "+" + (Zeros(zeros) + Decimal(n))
    ensures ParsePositive(s, bound) == Some(n)
  {
    var d := Zeros(zeros) + Decimal(n);
    ValueOfDecimal(n);
    ValueOfZeros(zeros, Decimal(n));
    assert d != "" && '0' <= d[0] <= '9';
    assert s == d || s[1..] == d;
  }

  // A text is read as n exactly when it is the numeral of n, with leading zeros and one plus
  // sign allowed, and n is positive and below the bound.
  lemma ParseMeaning(s: string, n: nat, bound: int)
    ensures ParsePositive(s, bound) == Some(n) <==> 0 < n < bound && Writes(s, n)
  {
    if ParsePositive(s, bound) == Some(n) {
      ReadIsWritten(s, n, bound);
    }
    if 0 < n < bound && Writes(s, n) {
      var zeros: nat :| s == Zeros(zeros) + Decimal(n) || s == "+" + (Zeros(zeros) + Decimal(n));
      WrittenIsRead(s, zeros, n, bound);
    }
  }

  predicate ColonFree(s: string) {
    ':' !in s
  }

  // The part of a key before its first ':' and the part after it can both be read back.
  lemma {:induction false} ColonCutsOnce(a: string, x: string, b: string, y: string)
    requires ColonFree(a) && ColonFree(b)
    requires a + ":" + x == b + ":" + y
    ensures a == b && x == y
  {
    var s := a + ":" + x;
    var t := b + ":" + y;
    assert s[|a|] == ':' && t[|b|] == ':';
    assert forall i :: 0 <= i < |a| ==> s[i] == a[i] && a[i] in a;
    assert forall i :: 0 <= i < |b| ==> t[i] == b[i] && b[i] in b;
    assert |a| == |b|;
    assert s[..|a|] == a && t[..|a|] == b;
    assert s[|a| + 1..] == x && t[|a| + 1..] == y;
  }

  // strings.Split(s, ":")
  function Split(s: string): (parts: seq<string>)
    ensures |parts| > 0
  {
    if s == "" then [""]
    else if s[0] == ':' then [""] + Split(s[1..])
    else
      var rest := Split(s[1..]);
      [[s[0]] + rest[0]] + rest[1..]
  }

  lemma {:induction false} SplitColonFree(s: string)
    requires ColonFree(s)
    ensures Split(s) == [s]
  {
    if s != "" {
      assert s[0] in s && ColonFree(s[1..]);
      SplitColonFree(s[1..]);
      assert [s[0]] + s[1..] == s;
    }
  }

  lemma {:induction false} SplitFirst(a: string, rest: string)
    requires ColonFree(a)
    ensures Split(a + ":" + rest) == [a] + Split(rest)
  {
    var s := a + ":" + rest;
    if a == "" {
      assert s[1..] == rest;
    } else {
      assert a[0] in a && ColonFree(a[1..]);
      SplitFirst(a[1..], rest);
      assert s[1..] == a[1..] + ":" + rest;
      assert s[0] == a[0] && [a[0]] + a[1..] == a;
    }
  }
}
