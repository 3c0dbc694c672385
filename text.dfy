/** The JavaScript string built-ins the app relies on: `split` and `join` with a
    one-character separator, `pop` on a split result, `trim`, `findIndex` over
    strings and the decimal rendering of a number inside a template string. */
module Text {

  /** `s.split(c)`: the maximal pieces of `s` between occurrences of `c`.
      Splitting always yields at least one piece (`"".split("/")` is `[""]`). */
  function Split(s: string, c: char): (parts: seq<string>)
    ensures |parts| >= 1
    ensures forall k :: 0 <= k < |parts| ==> c !in parts[k]
    decreases |s|
  {
    if |s| == 0 then [""]
    else
      var rest := Split(s[1..], c);
      if s[0] == c then [""] + rest
      else [[s[0]] + rest[0]] + rest[1..]
  }

  /** No piece holds the separator. */
  predicate Separated(parts: seq<string>, c: char)
  {
    forall k :: 0 <= k < |parts| ==> c !in parts[k]
  }

  /** How many times `c` occurs in `s`. */
  function Occurrences(s: string, c: char): nat
    decreases |s|
  {
    if |s| == 0 then 0 else (if s[0] == c then 1 else 0) + Occurrences(s[1..], c)
  }

  lemma {:induction false} OccurrencesAppend(a: string, b: string, c: char)
    ensures Occurrences(a + b, c) == Occurrences(a, c) + Occurrences(b, c)
    decreases |a|
  {
    if |a| == 0 {
      assert a + b == b;
    } else {
      assert (a + b)[0] == a[0] && (a + b)[1..] == a[1..] + b;
      OccurrencesAppend(a[1..], b, c);
    }
  }

  lemma {:induction false} OccurrencesAbsent(a: string, c: char)
    requires c !in a
    ensures Occurrences(a, c) == 0
    decreases |a|
  {
    if |a| > 0 {
      OccurrencesAbsent(a[1..], c);
    }
  }

  /** `parts.join(c)`; the empty array joins to the empty string. Joining
      separator-free pieces puts exactly one separator between neighbours. */
  function Join(parts: seq<string>, c: char): (r: string)
    ensures |parts| >= 1 && Separated(parts, c) ==> Occurrences(r, c) == |parts| - 1
    decreases |parts|
  {
    if |parts| == 0 then ""
    else if |parts| == 1 then
      if Separated(parts, c) then OccurrencesAbsent(parts[0], c); parts[0]
      else parts[0]
    else
      var rest := Join(parts[1..], c);
      if Separated(parts, c) then
        forall k | 0 <= k < |parts[1..]| ensures c !in parts[1..][k] {
          assert parts[1..][k] == parts[k + 1];
        }
        OccurrencesAbsent(parts[0], c);
        OccurrencesAppend(parts[0], [c], c);
        OccurrencesAppend(parts[0] + [c], rest, c);
        parts[0] + [c] + rest
      else
        parts[0] + [c] + rest
  }

  /** The last element, as `parts.pop()` or `parts[parts.length - 1]` return it. */
  function Last(parts: seq<string>): string
    requires |parts| >= 1
  {
    parts[|parts| - 1]
  }

  /** Joining a piece onto a non-empty list puts one separator after it. */
  lemma JoinCons(head: string, rest: seq<string>, c: char)
    requires |rest| >= 1
    ensures Join([head] + rest, c) == head + [c] + Join(rest, c)
  {
    assert ([head] + rest)[1..] == rest;
  }

  /** Joining the pieces of a split with the same separator gives back the string. */
  lemma {:induction false} JoinSplit(s: string, c: char)
    ensures Join(Split(s, c), c) == s
    decreases |s|
  {
    if |s| > 0 {
      var rest := Split(s[1..], c);
      JoinSplit(s[1..], c);
      if s[0] == c {
        assert Split(s, c) == [""] + rest;
        JoinCons("", rest, c);
      } else {
        var head := [s[0]] + rest[0];
        assert Split(s, c) == [head] + rest[1..];
        if |rest| > 1 {
          JoinCons(head, rest[1..], c);
          JoinCons(rest[0], rest[1..], c);
          assert [rest[0]] + rest[1..] == rest;
        }
        assert s == [s[0]] + s[1..];
      }
    }
  }

  /** The pieces from position `k` on, joined again, are how `s` ends; from
      position 1 on they leave at least the first separator out. */
  lemma {:induction false} JoinSplitSuffix(s: string, c: char, k: nat)
    requires k < |Split(s, c)|
    ensures var t := Join(Split(s, c)[k..], c);
      |t| <= |s| && s[|s| - |t|..] == t && (k >= 1 ==> |t| < |s|)
    decreases |s|
  {
    var parts := Split(s, c);
    var t := Join(parts[k..], c);
    if k == 0 {
      assert parts[k..] == parts;
      JoinSplit(s, c);
    } else {
      var rest := Split(s[1..], c);
      var j := if s[0] == c then k - 1 else k;
      assert parts[k..] == rest[j..] by {
        if s[0] == c {
          assert parts == [""] + rest;
        } else {
          assert parts == [[s[0]] + rest[0]] + rest[1..];
        }
      }
      JoinSplitSuffix(s[1..], c, j);
      assert s[|s| - |t|..] == s[1..][|s| - 1 - |t|..];
    }
  }

  /** A string without the separator is a single piece. */
  lemma {:induction false} SplitWithoutSeparator(s: string, c: char)
    requires c !in s
    ensures Split(s, c) == [s]
    decreases |s|
  {
    if |s| > 0 {
      assert s[0] != c;
      SplitWithoutSeparator(s[1..], c);
      assert [s[0]] + s[1..] == s;
    }
  }

  /** Splitting distributes over a separator written between two strings. */
  lemma {:induction false} SplitAppend(a: string, b: string, c: char)
    ensures Split(a + [c] + b, c) == Split(a, c) + Split(b, c)
    decreases |a|
  {
    var s := a + [c] + b;
    if |a| == 0 {
      assert s[0] == c && s[1..] == b;
    } else {
      assert s[0] == a[0] && s[1..] == a[1..] + [c] + b;
      SplitAppend(a[1..], b, c);
      var rest := Split(s[1..], c);
      assert rest == Split(a[1..], c) + Split(b, c);
      if a[0] != c {
        var left := Split(a[1..], c);
        assert rest[0] == left[0];
        assert rest[1..] == left[1..] + Split(b, c);
      }
    }
  }

  /** The last piece of `a + c + b` is `b` when `b` holds no separator. */
  lemma LastPieceAfterSeparator(a: string, b: string, c: char)
    requires c !in b
    ensures Last(Split(a + [c] + b, c)) == b
  {
    SplitAppend(a, b, c);
    SplitWithoutSeparator(b, c);
  }

  /** Splitting a join of separator-free pieces gives the pieces back. */
  lemma {:induction false} SplitJoin(parts: seq<string>, c: char)
    requires |parts| >= 1
    requires forall k :: 0 <= k < |parts| ==> c !in parts[k]
    ensures Split(Join(parts, c), c) == parts
    decreases |parts|
  {
    if |parts| == 1 {
      SplitWithoutSeparator(parts[0], c);
    } else {
      SplitJoin(parts[1..], c);
      SplitAppend(parts[0], Join(parts[1..], c), c);
      SplitWithoutSeparator(parts[0], c);
      assert [parts[0]] + parts[1..] == parts;
    }
  }

  /** Every character of every piece comes from the split string. */
  lemma {:induction false} SplitPiecesWithin(s: string, c: char, ch: char)
    requires ch !in s
    ensures forall k :: 0 <= k < |Split(s, c)| ==> ch !in Split(s, c)[k]
    decreases |s|
  {
    if |s| > 0 {
      SplitPiecesWithin(s[1..], c, ch);
      var rest := Split(s[1..], c);
      assert s == [s[0]] + s[1..];
      if s[0] != c {
        assert ch !in [s[0]] + rest[0];
        var parts := Split(s, c);
        forall k | 0 <= k < |parts| ensures ch !in parts[k] {
          if k > 0 { assert parts[k] == rest[k]; }
        }
      }
    }
  }

  /** A separator-free middle part becomes a piece of its own. */
  lemma SplitAround(a: string, m: string, b: string, c: char)
    requires c !in m
    ensures Split(a + [c] + m + [c] + b, c) == Split(a, c) + [m] + Split(b, c)
  {
    assert a + [c] + m + [c] + b == a + [c] + (m + [c] + b);
    SplitAppend(a, m + [c] + b, c);
    SplitAppend(m, b, c);
    SplitWithoutSeparator(m, c);
  }

  /** The index of the first element equal to `x`, or -1 (`findIndex`). */
  function FindIndex(parts: seq<string>, x: string): (i: int)
    ensures -1 <= i < |parts|
    ensures i == -1 <==> x !in parts
    ensures 0 <= i ==> parts[i] == x && x !in parts[..i]
    decreases |parts|
  {
    if |parts| == 0 then -1
    else if parts[0] == x then 0
    else
      var j := FindIndex(parts[1..], x);
      assert parts == [parts[0]] + parts[1..];
      assert 0 <= j ==> parts[..j + 1] == [parts[0]] + parts[1..][..j];
      if j == -1 then -1 else j + 1
  }

  /** The first occurrence of `x` is found after a prefix without it. */
  lemma FindIndexAfter(head: seq<string>, x: string, tail: seq<string>)
    requires x !in head
    ensures FindIndex(head + [x] + tail, x) == |head|
  {
    var parts := head + [x] + tail;
    assert parts[|head|] == x;
    assert parts[..|head|] == head;
  }

  /** The characters `String.prototype.trim` removes: the WhiteSpace and
      LineTerminator code points of the ECMAScript language (sections 12.2 and
      12.3 of ECMA-262), the space separators of Unicode category Zs included. */
  predicate IsJsWhitespace(ch: char)
  {
    ch == '\t' || ch == '\n' || ch == '\U{B}' || ch == '\U{C}' || ch == '\r'
    || ch == ' ' || ch == '\U{A0}' || ch == '\U{1680}'
    || ('\U{2000}' <= ch <= '\U{200A}')
    || ch == '\U{2028}' || ch == '\U{2029}' || ch == '\U{202F}' || ch == '\U{205F}'
    || ch == '\U{3000}' || ch == '\U{FEFF}'
  }

  /** All characters are whitespace (the empty string included). */
  predicate IsBlank(s: string)
  {
    forall i :: 0 <= i < |s| ==> IsJsWhitespace(s[i])
  }

  function TrimStart(s: string): string
    decreases |s|
  {
    if |s| > 0 && IsJsWhitespace(s[0]) then TrimStart(s[1..]) else s
  }

  function TrimEnd(s: string): string
    decreases |s|
  {
    if |s| > 0 && IsJsWhitespace(s[|s| - 1]) then TrimEnd(s[..|s| - 1]) else s
  }

  /** `s.trim()`: whitespace removed from both ends, so what is left is the
      stretch of `s` between a blank prefix and a blank suffix, and it neither
      starts nor ends with whitespace. */
  function Trim(s: string): (r: string)
    ensures |r| <= |s|
    ensures |r| > 0 ==> !IsJsWhitespace(r[0]) && !IsJsWhitespace(r[|r| - 1])
    ensures exists i ::
      (0 <= i && i + |r| <= |s| && r == s[i..i + |r|] && IsBlank(s[..i]) && IsBlank(s[i + |r|..]))
  {
    var t := TrimStart(s);
    var r := TrimEnd(t);
    TrimStartShape(s);
    TrimEndShape(t);
    assert |r| > 0 ==> r[0] == t[0];
    var i := |s| - |t|;
    assert r == s[i..i + |r|];
    assert s[i + |r|..] == t[|r|..];
    r
  }

  /** `trimStart` keeps a suffix that does not start with whitespace. */
  lemma {:induction false} TrimStartShape(s: string)
    ensures var r := TrimStart(s);
      |r| <= |s| && r == s[|s| - |r|..] && (|r| > 0 ==> !IsJsWhitespace(r[0]))
      && IsBlank(s[..|s| - |r|])
    decreases |s|
  {
    if |s| > 0 && IsJsWhitespace(s[0]) {
      TrimStartShape(s[1..]);
      var r := TrimStart(s);
      var removed := s[..|s| - |r|];
      var removedRest := s[1..][..|s| - 1 - |r|];
      forall i | 0 <= i < |removed| ensures IsJsWhitespace(removed[i]) {
        if i > 0 { assert removed[i] == removedRest[i - 1]; }
      }
    }
  }

  /** `trimEnd` keeps a prefix that does not end with whitespace. */
  lemma {:induction false} TrimEndShape(s: string)
    ensures var r := TrimEnd(s);
      |r| <= |s| && r == s[..|r|] && (|r| > 0 ==> !IsJsWhitespace(r[|r| - 1]))
      && IsBlank(s[|r|..])
    decreases |s|
  {
    if |s| > 0 && IsJsWhitespace(s[|s| - 1]) {
      var init := s[..|s| - 1];
      TrimEndShape(init);
      var r := TrimEnd(s);
      var removed := s[|r|..];
      var removedInit := init[|r|..];
      forall i | 0 <= i < |removed| ensures IsJsWhitespace(removed[i]) {
        if i < |removedInit| { assert removed[i] == removedInit[i]; }
      }
    }
  }

  lemma {:induction false} TrimStartKeepsBlankness(s: string)
    ensures IsBlank(TrimStart(s)) <==> IsBlank(s)
    decreases |s|
  {
    if |s| > 0 && IsJsWhitespace(s[0]) {
      TrimStartKeepsBlankness(s[1..]);
      assert IsBlank(s[1..]) ==> IsBlank(s) by {
        if IsBlank(s[1..]) {
          forall i | 0 <= i < |s| ensures IsJsWhitespace(s[i]) {
            if i > 0 { assert s[i] == s[1..][i - 1]; }
          }
        }
      }
      assert IsBlank(s) ==> IsBlank(s[1..]) by {
        if IsBlank(s) {
          forall i | 0 <= i < |s[1..]| ensures IsJsWhitespace(s[1..][i]) {
            assert s[1..][i] == s[i + 1];
          }
        }
      }
    }
  }

  lemma {:induction false} TrimEndEmptyIffBlank(s: string)
    ensures TrimEnd(s) == "" <==> IsBlank(s)
    decreases |s|
  {
    if |s| > 0 && IsJsWhitespace(s[|s| - 1]) {
      var init := s[..|s| - 1];
      TrimEndEmptyIffBlank(init);
      assert IsBlank(init) ==> IsBlank(s) by {
        if IsBlank(init) {
          forall i | 0 <= i < |s| ensures IsJsWhitespace(s[i]) {
            if i < |s| - 1 { assert s[i] == init[i]; }
          }
        }
      }
      assert IsBlank(s) ==> IsBlank(init) by {
        if IsBlank(s) {
          forall i | 0 <= i < |init| ensures IsJsWhitespace(init[i]) {
            assert init[i] == s[i];
          }
        }
      }
    } else if |s| > 0 {
      assert !IsJsWhitespace(s[|s| - 1]);
    }
  }

  /** `!s.trim()` holds exactly for the whitespace-only strings. */
  lemma TrimEmptyIffBlank(s: string)
    ensures Trim(s) == "" <==> IsBlank(s)
  {
    TrimStartKeepsBlankness(s);
    TrimEndEmptyIffBlank(TrimStart(s));
  }

  predicate IsDigit(ch: char)
  {
    '0' <= ch <= '9'
  }

  /** A natural number written in base ten, as `${n}` renders it. */
  function Decimal(n: nat): (r: string)
    ensures |r| >= 1
    ensures forall i :: 0 <= i < |r| ==> IsDigit(r[i])
    ensures n < 10 <==> |r| == 1
    ensures |r| > 1 ==> r[0] != '0'
    decreases n
  {
    var d := ['0' + (n % 10) as char];
    if n < 10 then d else Decimal(n / 10) + d
  }

  /** A decimal rendering holds no separator the app splits on. */
  lemma DecimalHasNoSeparators(n: nat)
    ensures '/' !in Decimal(n) && '.' !in Decimal(n) && '-' !in Decimal(n)
  {
  }

  lemma {:induction false} DecimalValue(n: nat)
    ensures DigitsValue(Decimal(n)) == n
    decreases n
  {
    var d := ['0' + (n % 10) as char];
    if n >= 10 {
      DecimalValue(n / 10);
      var r := Decimal(n);
      assert r == Decimal(n / 10) + d;
      assert r[..|r| - 1] == Decimal(n / 10);
    }
  }

  /** The number a string of digits denotes. */
  function DigitsValue(s: string): nat
    requires forall i :: 0 <= i < |s| ==> IsDigit(s[i])
    decreases |s|
  {
    if |s| == 0 then 0
    else
      assert IsDigit(s[|s| - 1]);
      10 * DigitsValue(s[..|s| - 1]) + (s[|s| - 1] as int - '0' as int)
  }
}
