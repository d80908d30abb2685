/** ASCII case folding, splitting on a separator and decimal numerals, as the parsers use them. */
module Text {
  import opened Wrappers

  const U32_MAX: nat := 0xFFFF_FFFF

  // ----- case folding -----

  function LowerChar(c: char): char {
    if 'A' <= c <= 'Z' then (c as int + 32) as char else c
  }

  function Lower(s: string): (r: string)
    ensures |r| == |s|
    ensures forall i :: 0 <= i < |s| ==> r[i] == LowerChar(s[i])
  {
    if s == "" then "" else [LowerChar(s[0])] + Lower(s[1..])
  }

  predicate EqIgnoreCase(a: string, b: string) {
    Lower(a) == Lower(b)
  }

  /** Only the twenty-six capitals change. */
  lemma LowerTable(c: char)
    ensures 'A' <= c <= 'Z' ==> LowerChar(c) == "abcdefghijklmnopqrstuvwxyz"[c as int - 'A' as int]
    ensures !('A' <= c <= 'Z') ==> LowerChar(c) == c
  {}

  lemma LowerIdempotent(s: string)
    ensures Lower(Lower(s)) == Lower(s)
  {
    assert forall i :: 0 <= i < |s| ==> Lower(Lower(s))[i] == Lower(s)[i];
  }

  // ----- separators -----

  /** The pieces of `s` between occurrences of `sep`; always at least one piece. */
  function Split(s: string, sep: char): (parts: seq<string>)
    ensures |parts| >= 1
  {
    if s == "" then [""]
    else
      var rest := Split(s[1..], sep);
      if s[0] == sep then [""] + rest else [[s[0]] + rest[0]] + rest[1..]
  }

  /** At most `n` pieces; the last one keeps any further separators. */
  function SplitN(s: string, sep: char, n: nat): (parts: seq<string>)
    requires n >= 1
    ensures 1 <= |parts| <= n
    decreases |s|, n
  {
    if n == 1 || s == "" then [s]
    else if s[0] == sep then [""] + SplitN(s[1..], sep, n - 1)
    else
      var rest := SplitN(s[1..], sep, n);
      [[s[0]] + rest[0]] + rest[1..]
  }

  lemma {:induction false} SplitWhole(a: string, sep: char)
    requires sep !in a
    ensures Split(a, sep) == [a]
  {
    if a != "" {
      SplitWhole(a[1..], sep);
      assert [a[0]] + a[1..] == a;
    }
  }

  lemma {:induction false} SplitStep(a: string, b: string, sep: char)
    requires sep !in a
    ensures Split(a + [sep] + b, sep) == [a] + Split(b, sep)
  {
    var s := a + [sep] + b;
    if a == "" {
      assert s[1..] == b;
    } else {
      SplitStep(a[1..], b, sep);
      assert s[1..] == a[1..] + [sep] + b;
      assert [a[0]] + a[1..] == a;
    }
  }

  lemma {:induction false} SplitNStep(a: string, b: string, sep: char, n: nat)
    requires sep !in a && n > 1
    ensures SplitN(a + [sep] + b, sep, n) == [a] + SplitN(b, sep, n - 1)
  {
    var s := a + [sep] + b;
    if a == "" {
      assert s[1..] == b;
    } else {
      SplitNStep(a[1..], b, sep, n);
      assert s[1..] == a[1..] + [sep] + b;
      assert [a[0]] + a[1..] == a;
    }
  }

  /** Splitting into three pieces is undone by joining them. */
  lemma SplitInThree(s: string, sep: char, a: string, b: string, c: string)
    ensures Split(s, sep) == [a, b, c] <==>
              s == a + [sep] + b + [sep] + c && sep !in a && sep !in b && sep !in c
  {
    if sep !in a && sep !in b && sep !in c && s == a + [sep] + b + [sep] + c {
      assert s == a + [sep] + (b + [sep] + c);
      SplitStep(a, b + [sep] + c, sep);
      SplitStep(b, c, sep);
      SplitWhole(c, sep);
    }
    if Split(s, sep) == [a, b, c] {
      var rest := SplitFirst(s, sep);
      var last := SplitFirst(rest, sep);
      SplitSingle(last, sep);
      assert s == a + [sep] + (b + [sep] + c);
    }
  }

  /** The text after the first separator. */
  lemma {:induction false} SplitFirst(s: string, sep: char) returns (rest: string)
    requires |Split(s, sep)| >= 2
    ensures var first := Split(s, sep)[0];
            sep !in first && s == first + [sep] + rest && Split(rest, sep) == Split(s, sep)[1..]
  {
    if s[0] == sep {
      rest := s[1..];
    } else {
      rest := SplitFirst(s[1..], sep);
      var first := Split(s[1..], sep)[0];
      assert s == [s[0]] + s[1..] && [s[0]] + (first + [sep] + rest) == ([s[0]] + first) + [sep] + rest;
    }
  }

  lemma {:induction false} SplitSingle(s: string, sep: char)
    requires |Split(s, sep)| == 1
    ensures Split(s, sep) == [s] && sep !in s
  {
    if s != "" {
      SplitSingle(s[1..], sep);
      assert s == [s[0]] + s[1..];
    }
  }

  /** Splitting off the first piece, when more than one is asked for. */
  lemma {:induction false} SplitNFirst(s: string, sep: char, n: nat) returns (rest: string)
    requires n > 1 && |SplitN(s, sep, n)| >= 2
    ensures var parts := SplitN(s, sep, n);
            sep !in parts[0] && s == parts[0] + [sep] + rest && SplitN(rest, sep, n - 1) == parts[1..]
  {
    if s[0] == sep {
      rest := s[1..];
    } else {
      rest := SplitNFirst(s[1..], sep, n);
      var first := SplitN(s[1..], sep, n)[0];
      assert s == [s[0]] + s[1..] && [s[0]] + (first + [sep] + rest) == ([s[0]] + first) + [sep] + rest;
    }
  }

  /** Every character is in some piece, unless it is a separator. */
  lemma {:induction false} SplitCovers(s: string, sep: char, c: char)
    requires c in s && c != sep
    ensures exists part :: part in Split(s, sep) && c in part
  {
    var parts, rest := Split(s, sep), Split(s[1..], sep);
    if c in s[1..] {
      SplitCovers(s[1..], sep, c);
      var part :| part in rest && c in part;
      var i :| 0 <= i < |rest| && rest[i] == part;
      if s[0] == sep {
        assert parts[i + 1] == part;
      } else if i > 0 {
        assert parts[i] == part;
      } else {
        assert c in parts[0];
      }
    } else {
      assert s[0] == c && c in parts[0];
    }
  }

  lemma LowerStep(c: char, s: string)
    ensures Lower([c] + s) == [LowerChar(c)] + Lower(s)
  {
    assert ([c] + s)[1..] == s;
  }

  /** Folding case commutes with splitting, for a separator that is not a letter. */
  lemma {:induction false} SplitLower(s: string, sep: char)
    requires LowerChar(sep) == sep && !('a' <= sep <= 'z')
    ensures |Split(Lower(s), sep)| == |Split(s, sep)|
    ensures forall i :: 0 <= i < |Split(s, sep)| ==> Split(Lower(s), sep)[i] == Lower(Split(s, sep)[i])
  {
    if s != "" {
      SplitLower(s[1..], sep);
      var parts, rest := Split(s, sep), Split(s[1..], sep);
      var folded, foldedRest := Split(Lower(s), sep), Split(Lower(s[1..]), sep);
      assert Lower(s)[1..] == Lower(s[1..]) && Lower(s)[0] == LowerChar(s[0]);
      assert |foldedRest| == |rest|;
      LowerStep(s[0], rest[0]);
      forall i | 0 <= i < |parts| ensures folded[i] == Lower(parts[i]) {
        if s[0] == sep {
          assert i > 0 ==> parts[i] == rest[i - 1] && folded[i] == foldedRest[i - 1];
        } else {
          assert i > 0 ==> parts[i] == rest[i] && folded[i] == foldedRest[i];
        }
      }
    }
  }

  // ----- decimal numerals -----

  predicate IsDigit(c: char) {
    '0' <= c <= '9'
  }

  function Numeral(n: nat): (s: string)
    ensures s != ""
    ensures forall c :: c in s ==> IsDigit(c)
  {
    var last := [('0' as int + n % 10) as char];
    if n < 10 then last else Numeral(n / 10) + last
  }

  function ValueOf(digits: string): nat
    requires forall c :: c in digits ==> IsDigit(c)
  {
    if digits == "" then 0
    else
      var last := digits[|digits| - 1];
      assert IsDigit(last);
      ValueOf(digits[..|digits| - 1]) * 10 + (last as int - '0' as int)
  }

  /** Rust's `str::parse::<u32>`: an optional single `+`, then digits, at most u32::MAX. */
  function ParseU32(s: string): (r: Option<nat>) {
    var body := if s != "" && s[0] == '+' then s[1..] else s;
    if body == "" || exists c :: c in body && !IsDigit(c) then None
    else if ValueOf(body) > U32_MAX then None
    else Some(ValueOf(body))
  }

  lemma {:induction false} NumeralValue(n: nat)
    ensures ValueOf(Numeral(n)) == n
  {
    if n >= 10 {
      NumeralValue(n / 10);
      var s := Numeral(n);
      assert s[..|s| - 1] == Numeral(n / 10);
    }
  }

  /** A decimal text without superfluous zeros. */
  ghost predicate Plain(s: string) {
    s != "" && (forall c :: c in s ==> IsDigit(c)) && (s[0] == '0' ==> |s| == 1)
  }

  /** The printed numeral has no leading zero, and is the only such text of its value. */
  lemma {:induction false} NumeralExact(n: nat, s: string)
    requires forall c :: c in s ==> IsDigit(c)
    ensures Plain(Numeral(n))
    ensures Plain(s) && ValueOf(s) == n <==> s == Numeral(n)
    decreases |s| + n
  {
    NumeralValue(n);
    NumeralIsPlain(n);
    if Plain(s) && ValueOf(s) == n {
      var front, last := s[..|s| - 1], s[|s| - 1];
      if front == "" {
        assert s == [last] && IsDigit(last) && ValueOf(front) == 0;
        assert last == ('0' as int + n % 10) as char;
      } else {
        assert front[0] == s[0] && last in s;
        PositiveValue(front);
        assert n == ValueOf(front) * 10 + (last as int - '0' as int);
        NumeralExact(n / 10, front);
        assert s == front + [last];
      }
    }
  }

  lemma {:induction false} NumeralIsPlain(n: nat)
    ensures Plain(Numeral(n)) && (Numeral(n)[0] == '0' ==> n == 0)
  {
    if n >= 10 {
      NumeralIsPlain(n / 10);
    }
  }

  lemma {:induction false} PositiveValue(s: string)
    requires Plain(s) && s[0] != '0'
    ensures ValueOf(s) > 0
  {
    var front, last := s[..|s| - 1], s[|s| - 1];
    assert IsDigit(last) && ValueOf(s) == ValueOf(front) * 10 + (last as int - '0' as int);
    if |s| > 1 {
      PositiveValue(front);
    } else {
      assert last as int > '0' as int;
    }
  }

  /** A text that `str::parse::<u32>` reads as `n`: decimal digits, with at most one plus sign before them. */
  ghost predicate U32Text(s: string, n: nat) {
    exists digits :: (s == digits || s == "+" + digits) && digits != "" && (forall c :: c in digits ==> IsDigit(c))
                     && ValueOf(digits) == n && n <= 0xFFFF_FFFF
  }

  lemma ParsesU32(s: string, n: nat)
    ensures ParseU32(s) == Some(n) <==> U32Text(s, n)
  {
    var body := if s != "" && s[0] == '+' then s[1..] else s;
    if ParseU32(s) == Some(n) {
      assert s == body || s == "+" + body;
    }
    if digits :| (s == digits || s == "+" + digits) && digits != "" && (forall c :: c in digits ==> IsDigit(c))
                 && ValueOf(digits) == n && n <= 0xFFFF_FFFF {
      assert IsDigit(digits[0]);
      assert body == digits;
    }
  }

  lemma U32TextHasNo(s: string, n: nat, sep: char)
    requires U32Text(s, n) && !IsDigit(sep) && sep != '+'
    ensures sep !in s && s != ""
  {}

  lemma NumeralParses(n: nat)
    requires n <= U32_MAX
    ensures ParseU32(Numeral(n)) == Some(n)
  {
    NumeralValue(n);
    assert IsDigit(Numeral(n)[0]);
  }
}
