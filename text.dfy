/** String helpers the utilities are built from: Python's one-character
    `str.replace` and `str.split`, `str.split()` on whitespace, decimal and
    lower-case hexadecimal formatting, and `int()` on a decimal literal. */
module Text {

  import opened Base

  /** Number of occurrences of `c` in `s`. */
  function Count(s: string, c: char): (n: nat)
    ensures n <= |s|
    ensures n == 0 <==> c !in s
  {
    if s == [] then 0 else (if s[0] == c then 1 else 0) + Count(s[1..], c)
  }

  /** `s.replace(c, r)` for a one-character pattern `c`: every character of
      the result is a character of `s` other than `c` or one of `r`, and a
      string without `c` is left as it is. */
  function Replace(s: string, c: char, r: string): (t: string)
    ensures forall x :: x in t ==> (x in s && x != c) || x in r
    ensures c !in s ==> t == s
  {
    if s == [] then [] else (if s[0] == c then r else [s[0]]) + Replace(s[1..], c, r)
  }

  lemma {:induction false} ReplaceConcat(a: string, b: string, c: char, r: string)
    ensures Replace(a + b, c, r) == Replace(a, c, r) + Replace(b, c, r)
  {
    if a == [] {
      assert a + b == b;
    } else {
      assert (a + b)[1..] == a[1..] + b;
      ReplaceConcat(a[1..], b, c, r);
    }
  }

  /** `s.split(c)`: the pieces between occurrences of `c`, empty pieces included. */
  function Split(s: string, c: char): (parts: seq<string>)
    ensures |parts| == Count(s, c) + 1
    ensures forall i :: 0 <= i < |parts| ==> c !in parts[i]
  {
    if s == [] then [[]]
    else
      var rest := Split(s[1..], c);
      if s[0] == c then [[]] + rest else [[s[0]] + rest[0]] + rest[1..]
  }

  /** Without a separator there is one piece, the whole string. */
  lemma {:induction false} SplitWithout(s: string, c: char)
    requires c !in s
    ensures Split(s, c) == [s]
  {
    if s != [] {
      assert c !in s[1..];
      SplitWithout(s[1..], c);
      assert [s[0]] + s[1..] == s;
    }
  }

  /** Splitting at the first separator: the first piece, then the rest's pieces. */
  lemma {:induction false} SplitAtFirst(host: string, rest: string, c: char)
    requires c !in host
    ensures Split(host + [c] + rest, c) == [host] + Split(rest, c)
  {
    if host == [] {
      assert host + [c] + rest == [c] + rest;
      assert ([c] + rest)[1..] == rest;
    } else {
      assert (host + [c] + rest)[1..] == host[1..] + [c] + rest;
      SplitAtFirst(host[1..], rest, c);
      assert [host[0]] + host[1..] == host;
    }
  }

  /** `sep.join(parts)`. */
  function Join(parts: seq<string>, sep: string): string
  {
    if |parts| == 0 then []
    else if |parts| == 1 then parts[0]
    else parts[0] + sep + Join(parts[1..], sep)
  }

  /** Replacing every `c` by `r` is the same as splitting at `c` and joining
      the pieces with `r`. */
  lemma {:induction false} ReplaceIsJoinSplit(s: string, c: char, r: string)
    ensures Replace(s, c, r) == Join(Split(s, c), r)
  {
    if s != [] {
      var rest := Split(s[1..], c);
      ReplaceIsJoinSplit(s[1..], c, r);
      if s[0] == c {
        assert Split(s, c) == [[]] + rest;
        assert ([[]] + rest)[1..] == rest;
      } else {
        var parts := [[s[0]] + rest[0]] + rest[1..];
        assert Split(s, c) == parts;
        if |rest| == 1 {
          assert Join(parts, r) == [s[0]] + rest[0];
        } else {
          assert parts[1..] == rest[1..];
          assert Join(rest, r) == rest[0] + r + Join(rest[1..], r);
          assert Join(parts, r) == [s[0]] + rest[0] + r + Join(rest[1..], r);
        }
      }
    }
  }

  /** Splitting at `c` and joining with `c` gives back the input. */
  lemma JoinSplit(s: string, c: char)
    ensures Join(Split(s, c), [c]) == s
  {
    ReplaceIsJoinSplit(s, c, [c]);
    ReplaceSelf(s, c);
  }

  lemma {:induction false} ReplaceSelf(s: string, c: char)
    ensures Replace(s, c, [c]) == s
  {
    if s != [] {
      ReplaceSelf(s[1..], c);
    }
  }

  // ----- decimal and hexadecimal numerals -----

  predicate IsDigit(c: char) { '0' <= c <= '9' }

  predicate AllDigits(s: string) { forall i :: 0 <= i < |s| ==> IsDigit(s[i]) }

  function DigitChar(d: nat): (c: char)
    requires d < 10
    ensures IsDigit(c) && c as int - '0' as int == d
  {
    ('0' as int + d) as char
  }

  /** `"{}".format(n)` for a non-negative integer: its decimal numeral. */
  function Decimal(n: nat): (s: string)
    ensures s != [] && AllDigits(s)
  {
    if n < 10 then [DigitChar(n)] else Decimal(n / 10) + [DigitChar(n % 10)]
  }

  /** The number a string of decimal digits denotes. */
  function DigitsValue(s: string): nat
    requires AllDigits(s)
  {
    if s == [] then 0
    else DigitsValue(s[..|s| - 1]) * 10 + (s[|s| - 1] as int - '0' as int)
  }

  lemma {:induction false} DecimalValue(n: nat)
    ensures DigitsValue(Decimal(n)) == n
  {
    if n >= 10 {
      var s := Decimal(n);
      assert s[..|s| - 1] == Decimal(n / 10);
      DecimalValue(n / 10);
    }
  }

  /** Distinct numbers have distinct decimal numerals. */
  lemma DecimalInjective(m: nat, n: nat)
    requires Decimal(m) == Decimal(n)
    ensures m == n
  {
    DecimalValue(m);
    DecimalValue(n);
  }

  /** Python's `int(s)` on a decimal literal: an optional sign followed by
      one or more ASCII digits; anything else raises, modelled as None. */
  function ParseInt(s: string): (r: Option<int>)
    ensures r.Some? <==>
      exists k :: 0 <= k <= 1 && k < |s| && (k == 1 <==> s[0] in "+-") && AllDigits(s[k..])
  {
    var k := if s != [] && s[0] in "+-" then 1 else 0;
    var body := s[k..];
    if body == [] || !AllDigits(body) then None
    else if k == 1 && s[0] == '-' then Some(0 - DigitsValue(body) as int)
    else Some(DigitsValue(body))
  }

  /** `int()` reads back what decimal formatting writes. */
  lemma ParseDecimal(n: nat)
    ensures ParseInt(Decimal(n)) == Some(n)
  {
    var s := Decimal(n);
    assert !IsDigit('+') && !IsDigit('-');
    assert s[0] !in "+-";
    assert s[0..] == s;
    DecimalValue(n);
  }

  function HexDigitChar(d: nat): (c: char)
    requires d < 16
  {
    "0123456789abcdef"[d]
  }

  /** `'%x' % n`: the lower-case hexadecimal numeral of `n`. */
  function LowerHex(n: nat): (s: string)
    ensures s != []
    ensures forall i :: 0 <= i < |s| ==> s[i] in "0123456789abcdef"
  {
    if n < 16 then [HexDigitChar(n)] else LowerHex(n / 16) + [HexDigitChar(n % 16)]
  }

  /** The number a string of lower-case hexadecimal digits denotes. */
  function HexValue(s: string): nat
    requires forall i :: 0 <= i < |s| ==> s[i] in "0123456789abcdef"
  {
    if s == [] then 0
    else HexValue(s[..|s| - 1]) * 16 + HexDigitValue(s[|s| - 1])
  }

  function HexDigitValue(c: char): (d: nat)
    requires c in "0123456789abcdef"
    ensures d < 16 && HexDigitChar(d) == c
  {
    if '0' <= c <= '9' then c as int - '0' as int else c as int - 'a' as int + 10
  }

  /** `'%x' % n` is the hexadecimal numeral of `n`: its digits denote `n`. */
  lemma {:induction false} LowerHexValue(n: nat)
    ensures HexValue(LowerHex(n)) == n
  {
    if n >= 16 {
      var s := LowerHex(n);
      assert s[..|s| - 1] == LowerHex(n / 16);
      LowerHexValue(n / 16);
    }
  }

  // ----- whitespace splitting -----

  /** The characters for which Python's `str.isspace()` holds. */
  predicate IsSpace(c: char)
  {
    || '\t' <= c <= '\r'
    || '\U{1c}' <= c <= ' '
    || c == '\U{85}' || c == '\U{a0}' || c == '\U{1680}'
    || '\U{2000}' <= c <= '\U{200a}'
    || c == '\U{2028}' || c == '\U{2029}' || c == '\U{202f}' || c == '\U{205f}'
    || c == '\U{3000}'
  }

  /** `s.split()`: the maximal runs of non-whitespace characters, in order. */
  function Words(s: string): (w: seq<string>)
    ensures forall i :: 0 <= i < |w| ==> w[i] != [] && forall j :: 0 <= j < |w[i]| ==> !IsSpace(w[i][j])
    ensures s != [] && !IsSpace(s[0]) ==> w != [] && w[0][0] == s[0]
    ensures |w| <= |s|
  {
    if s == [] then []
    else if IsSpace(s[0]) then Words(s[1..])
    else
      var rest := Words(s[1..]);
      if |s| > 1 && !IsSpace(s[1]) then [[s[0]] + rest[0]] + rest[1..]
      else [[s[0]]] + rest
  }

  predicate AllSpace(s: string)
  {
    forall k :: 0 <= k < |s| ==> IsSpace(s[k])
  }

  /** `s[i..j]` is the only run of non-whitespace characters in `s`. */
  predicate OneRun(s: string, i: int, j: int)
  {
    && 0 <= i < j <= |s|
    && (forall k :: i <= k < j ==> !IsSpace(s[k]))
    && (forall k :: 0 <= k < |s| && !(i <= k < j) ==> IsSpace(s[k]))
  }

  /** `s.split()` is empty exactly when `s` is all whitespace. */
  lemma {:induction false} NoWords(s: string)
    ensures Words(s) == [] <==> AllSpace(s)
  {
    if s != [] {
      NoWords(s[1..]);
      if IsSpace(s[0]) {
        if AllSpace(s[1..]) {
          forall k | 0 <= k < |s| ensures IsSpace(s[k]) {
            if k > 0 { assert s[k] == s[1..][k - 1]; }
          }
        }
      }
    }
  }

  /** A whitespace-separated line holding one run of non-whitespace
      characters splits into exactly that run. */
  lemma {:induction false} OneRunWords(s: string, i: int, j: int)
    requires OneRun(s, i, j)
    ensures Words(s) == [s[i..j]]
  {
    var t := s[1..];
    if i > 0 {
      assert IsSpace(s[0]);
      assert OneRun(t, i - 1, j - 1) by {
        forall k | 0 <= k < |t| && !(i - 1 <= k < j - 1) ensures IsSpace(t[k]) {
          assert t[k] == s[k + 1];
        }
      }
      OneRunWords(t, i - 1, j - 1);
      assert t[i - 1..j - 1] == s[i..j];
    } else if j == 1 {
      assert AllSpace(t) by {
        forall k | 0 <= k < |t| ensures IsSpace(t[k]) {
          assert t[k] == s[k + 1];
        }
      }
      NoWords(t);
      assert s[0..1] == [s[0]];
    } else {
      assert !IsSpace(s[1]);
      assert OneRun(t, 0, j - 1) by {
        forall k | 0 <= k < |t| && !(0 <= k < j - 1) ensures IsSpace(t[k]) {
          assert t[k] == s[k + 1];
        }
      }
      OneRunWords(t, 0, j - 1);
      assert [s[0]] + t[0..j - 1] == s[0..j];
    }
  }

  /** Every line that splits into one token has one run of non-whitespace
      characters. */
  lemma {:induction false} OneWordRun(s: string) returns (i: int, j: int)
    requires |Words(s)| == 1
    ensures OneRun(s, i, j)
  {
    var t := s[1..];
    if IsSpace(s[0]) {
      var i', j' := OneWordRun(t);
      i, j := i' + 1, j' + 1;
      forall k | 0 <= k < |s| && !(i <= k < j) ensures IsSpace(s[k]) {
        if k > 0 { assert s[k] == t[k - 1]; }
      }
      forall k | i <= k < j ensures !IsSpace(s[k]) {
        assert s[k] == t[k - 1];
      }
    } else if |s| > 1 && !IsSpace(s[1]) {
      var i', j' := OneWordRun(t);
      assert t[0] == s[1];
      i, j := 0, j' + 1;
      forall k | 0 <= k < |s| && !(i <= k < j) ensures IsSpace(s[k]) {
        assert s[k] == t[k - 1];
      }
      forall k | 0 < k < j ensures !IsSpace(s[k]) {
        assert s[k] == t[k - 1];
      }
    } else {
      NoWords(t);
      i, j := 0, 1;
      forall k | 0 < k < |s| ensures IsSpace(s[k]) {
        assert s[k] == t[k - 1];
      }
    }
  }

  /** `s.split()` yields exactly one token if and only if `s` holds a single
      run of non-whitespace characters, and that run is the token. */
  lemma SingleToken(s: string)
    ensures |Words(s)| == 1 <==> exists i, j :: OneRun(s, i, j)
    ensures forall i, j :: OneRun(s, i, j) ==> Words(s) == [s[i..j]]
  {
    if |Words(s)| == 1 {
      var i, j := OneWordRun(s);
    }
    forall i, j | OneRun(s, i, j) ensures Words(s) == [s[i..j]] {
      OneRunWords(s, i, j);
    }
  }

  /** The tokens laid end to end. */
  function Flatten(w: seq<string>): string
  {
    if w == [] then [] else w[0] + Flatten(w[1..])
  }

  /** The non-whitespace characters of `s`, in order. */
  function NonSpace(s: string): string
  {
    if s == [] then [] else (if IsSpace(s[0]) then [] else [s[0]]) + NonSpace(s[1..])
  }

  /** `s.split()` keeps every non-whitespace character of `s`, in order,
      and nothing else. */
  lemma {:induction false} WordsKeepCharacters(s: string)
    ensures Flatten(Words(s)) == NonSpace(s)
  {
    if s != [] {
      var rest := Words(s[1..]);
      WordsKeepCharacters(s[1..]);
      if !IsSpace(s[0]) {
        if |s| > 1 && !IsSpace(s[1]) {
          var w := [[s[0]] + rest[0]] + rest[1..];
          assert w[1..] == rest[1..];
          assert Flatten(rest) == rest[0] + Flatten(rest[1..]);
          assert Flatten(w) == [s[0]] + rest[0] + Flatten(rest[1..]);
        } else {
          assert ([[s[0]]] + rest)[1..] == rest;
        }
      }
    }
  }
}
