/** Text operations the Go code takes from `strings`, `strconv` and string comparison. */
module Strings {

  datatype Option<+T> = None | Some(value: T)

  datatype Result<+T> = Ok(value: T) | Err(message: string)

  // ---------- ASCII classes ----------

  predicate IsLower(c: char) { 'a' <= c <= 'z' }

  predicate IsUpper(c: char) { 'A' <= c <= 'Z' }

  predicate IsDigit(c: char) { '0' <= c <= '9' }

  predicate IsLetterOrDigit(c: char) { IsLower(c) || IsUpper(c) || IsDigit(c) }

  lemma LettersAndDigits(c: char)
    ensures IsLower(c) <==> c in "abcdefghijklmnopqrstuvwxyz"
    ensures IsUpper(c) <==> c in "ABCDEFGHIJKLMNOPQRSTUVWXYZ"
    ensures IsDigit(c) <==> c in "0123456789"
  {
    SmallLetters(c);
    CapitalLetters(c);
    var digits := "0123456789";
    if IsDigit(c) { assert digits[c as int - '0' as int] == c; }
  }

  lemma SmallLetters(c: char)
    ensures IsLower(c) <==> c in "abcdefghijklmnopqrstuvwxyz"
  {
    var small := "abcdefghijklmnopqrstuvwxyz";
    if IsLower(c) { assert small[c as int - 'a' as int] == c; }
  }

  lemma CapitalLetters(c: char)
    ensures IsUpper(c) <==> c in "ABCDEFGHIJKLMNOPQRSTUVWXYZ"
  {
    var capital := "ABCDEFGHIJKLMNOPQRSTUVWXYZ";
    if IsUpper(c) { assert capital[c as int - 'A' as int] == c; }
  }

  function LowerChar(c: char): char {
    if IsUpper(c) then (c as int + 32) as char else c
  }

  /** `strings.ToLower` on ASCII text. */
  function ToLower(s: string): (r: string)
    ensures |r| == |s|
  {
    seq(|s|, i requires 0 <= i < |s| => LowerChar(s[i]))
  }

  lemma ToLowerIdempotent(s: string)
    ensures ToLower(ToLower(s)) == ToLower(s)
  {
    assert forall i | 0 <= i < |s| :: ToLower(ToLower(s))[i] == ToLower(s)[i];
  }

  /** Capital letters become the small letters of the same place in the alphabet, everything else stays. */
  lemma LowerMeans(c: char)
    ensures var small, capital := "abcdefghijklmnopqrstuvwxyz", "ABCDEFGHIJKLMNOPQRSTUVWXYZ";
            if c in capital then exists i :: 0 <= i < 26 && capital[i] == c && small[i] == LowerChar(c)
            else LowerChar(c) == c
  {
    CapitalLetters(c);
    if IsUpper(c) {
      var i := c as int - 'A' as int;
      var small, capital := "abcdefghijklmnopqrstuvwxyz", "ABCDEFGHIJKLMNOPQRSTUVWXYZ";
      assert capital[i] == c && small[i] == LowerChar(c);
    }
  }

  // ---------- byte-wise order of Go strings ----------

  predicate Less(a: string, b: string) {
    b != [] && (a == [] || a[0] < b[0] || (a[0] == b[0] && Less(a[1..], b[1..])))
  }

  lemma {:induction false} LessTotal(a: string, b: string)
    ensures Less(a, b) || a == b || Less(b, a)
    ensures !(Less(a, b) && Less(b, a)) && !(a == b && Less(a, b))
  {
    if a != [] && b != [] {
      LessTotal(a[1..], b[1..]);
      assert a == [a[0]] + a[1..] && b == [b[0]] + b[1..];
    }
  }

  lemma {:induction false} LessTransitive(a: string, b: string, c: string)
    requires Less(a, b) && Less(b, c)
    ensures Less(a, c)
  {
    if a != [] && a[0] == b[0] && b[0] == c[0] {
      LessTransitive(a[1..], b[1..], c[1..]);
    }
  }

  /** `a` and `b` agree up to `i`, where `a` ends or has the smaller byte. */
  ghost predicate LessAt(a: string, b: string, i: nat) {
    && i <= |a| && i < |b| && a[..i] == b[..i] && (i == |a| || a[i] < b[i])
  }

  lemma LessAtHead(a: string, b: string, i: nat)
    requires LessAt(a, b, i) && i > 0
    ensures a != [] && b != [] && a[0] == b[0]
  {
    assert a[..i][0] == a[0] && b[..i][0] == b[0];
  }

  lemma {:induction false} LessMeans(a: string, b: string)
    ensures Less(a, b) <==> exists i: nat :: LessAt(a, b, i)
  {
    if a != [] && b != [] && a[0] == b[0] {
      LessMeans(a[1..], b[1..]);
      if i: nat :| LessAt(a[1..], b[1..], i) {
        assert a[..i + 1] == [a[0]] + a[1..][..i] && b[..i + 1] == [b[0]] + b[1..][..i];
        assert LessAt(a, b, i + 1);
      }
      if i: nat :| LessAt(a, b, i) {
        assert i > 0 && a[1..][..i - 1] == a[..i][1..] && b[1..][..i - 1] == b[..i][1..];
        assert LessAt(a[1..], b[1..], i - 1);
      }
    } else {
      forall i: nat | LessAt(a, b, i) ensures i == 0 {
        if i > 0 { LessAtHead(a, b, i); }
      }
      if Less(a, b) { assert a[..0] == b[..0] && LessAt(a, b, 0); }
    }
  }

  // ---------- splitting at a separator ----------

  /** `strings.Split` with a one-character separator: never empty, "" gives one empty part. */
  function Split(s: string, separator: char): (parts: seq<string>)
    ensures |parts| >= 1
  {
    if s == [] then [[]]
    else
      var rest := Split(s[1..], separator);
      if s[0] == separator then [[]] + rest else [[s[0]] + rest[0]] + rest[1..]
  }

  /** The text made of `parts` with one separator between neighbours. */
  function Join(parts: seq<string>, separator: char): string
    requires |parts| >= 1
  {
    if |parts| == 1 then parts[0] else parts[0] + [separator] + Join(parts[1..], separator)
  }

  lemma {:induction false} JoinOfSplit(s: string, separator: char)
    ensures Join(Split(s, separator), separator) == s
    ensures forall part <- Split(s, separator) :: separator !in part
  {
    if s != [] {
      JoinOfSplit(s[1..], separator);
      var rest := Split(s[1..], separator);
      assert s == [s[0]] + s[1..];
      if s[0] == separator {
        assert ([[]] + rest)[1..] == rest;
      } else {
        var parts := [[s[0]] + rest[0]] + rest[1..];
        assert parts[1..] == rest[1..];
      }
    }
  }

  lemma {:induction false} SplitOfJoin(parts: seq<string>, separator: char)
    requires |parts| >= 1
    requires forall part <- parts :: separator !in part
    ensures Split(Join(parts, separator), separator) == parts
    decreases |parts|, |parts[0]|
  {
    var s := Join(parts, separator);
    if parts[0] != [] {
      var smaller := [parts[0][1..]] + parts[1..];
      assert smaller[1..] == parts[1..];
      forall part | part in smaller ensures separator !in part {
        if part == parts[0][1..] { assert forall c | c in part :: c in parts[0]; }
      }
      SplitOfJoin(smaller, separator);
      assert s[1..] == Join(smaller, separator);
      assert s[0] == parts[0][0] && s[0] in parts[0];
      assert parts[0] == [s[0]] + smaller[0] && parts == [parts[0]] + parts[1..];
      assert parts == [[s[0]] + smaller[0]] + smaller[1..];
    } else if |parts| > 1 {
      SplitOfJoin(parts[1..], separator);
      assert s[1..] == Join(parts[1..], separator);
      assert parts == [[]] + parts[1..];
    } else {
      assert parts == [[]];
    }
  }

  // ---------- decimal numbers ----------

  function DigitChar(d: nat): char
    requires d < 10
  {
    ('0' as int + d) as char
  }

  /** `strconv.Itoa` on a non-negative number. */
  function Itoa(n: nat): (text: string)
    ensures |text| >= 1 && forall c <- text :: IsDigit(c)
  {
    (if n < 10 then [] else Itoa(n / 10)) + [DigitChar(n % 10)]
  }

  /** What scanning the digits of an unsigned 64-bit number from the left ends in. */
  datatype Scan = Number(n: nat) | NoNumber | TooBig

  /** The digits of `text` continued from `n`: the scan stops at the first character that is wrong or too much. */
  function ScanDigits(text: string, n: nat): Scan {
    if text == [] then Number(n)
    else if !IsDigit(text[0]) then NoNumber
    else if 10 * n + (text[0] as int - '0' as int) >= 0x1_0000_0000_0000_0000 then TooBig
    else ScanDigits(text[1..], 10 * n + (text[0] as int - '0' as int))
  }

  lemma {:induction false} ScanAppend(text: string, c: char, n: nat)
    requires ScanDigits(text, n).Number? && IsDigit(c)
    ensures var m := 10 * ScanDigits(text, n).n + (c as int - '0' as int);
            ScanDigits(text + [c], n) == if m >= 0x1_0000_0000_0000_0000 then TooBig else Number(m)
  {
    if text != [] {
      assert (text + [c])[1..] == text[1..] + [c];
      ScanAppend(text[1..], c, 10 * n + (text[0] as int - '0' as int));
    } else {
      assert (text + [c])[1..] == [];
    }
  }

  /** Scanning a printed number gives it back, so different numbers print differently. */
  lemma {:induction false} ScanOfItoa(n: nat)
    requires n < 0x1_0000_0000_0000_0000
    ensures ScanDigits(Itoa(n), 0) == Number(n)
  {
    if n >= 10 {
      ScanOfItoa(n / 10);
      ScanAppend(Itoa(n / 10), DigitChar(n % 10), 0);
    } else {
      assert Itoa(n) == [DigitChar(n)] && Itoa(n)[1..] == [];
    }
  }

  function Pow10(digits: nat): nat { if digits == 0 then 1 else 10 * Pow10(digits - 1) }

  lemma {:induction false} ItoaLength(n: nat, digits: nat)
    requires digits >= 1 && n < Pow10(digits)
    ensures |Itoa(n)| <= digits
  {
    if n >= 10 {
      ItoaLength(n / 10, digits - 1);
    }
  }
}
