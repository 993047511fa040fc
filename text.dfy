/** The Python string built-ins the bot applies to header values, callback
    data, bot names and file names: `str(n)`, `int(s)`, `s.split(sep)`,
    `s.replace(old, "")`, `s.strip()`, `s.startswith(p)` and slicing. */
module Text {
  import opened Wrappers

  predicate IsDigit(c: char)
  {
    '0' <= c <= '9'
  }

  predicate AllDigits(s: string)
  {
    forall i :: 0 <= i < |s| ==> IsDigit(s[i])
  }

  function DigitChar(d: nat): (c: char)
    requires d < 10
    ensures IsDigit(c) && c as int - '0' as int == d
  {
    ('0' as int + d) as char
  }

  /** `str(n)` for a non-negative Python int: decimal digits, no leading zero. */
  function NatToString(n: nat): (s: string)
    ensures |s| >= 1 && AllDigits(s)
    ensures s[0] == '0' ==> n == 0 && s == "0"
    decreases n
  {
    if n < 10 then [DigitChar(n)] else NatToString(n / 10) + [DigitChar(n % 10)]
  }

  /** The number that a run of decimal digits denotes. */
  function DigitsValue(s: string): nat
    requires AllDigits(s)
  {
    if s == [] then 0 else 10 * DigitsValue(s[..|s| - 1]) + (s[|s| - 1] as int - '0' as int)
  }

  /** `str(i)` for any Python int. */
  function IntToString(i: int): string
  {
    if i < 0 then "-" + NatToString(-i) else NatToString(i)
  }

  /** ASCII digits, with single underscores allowed between two digits, as
      PEP 515 lets `int()` read them. */
  predicate IsGroupedDigits(s: string)
  {
    && |s| >= 1 && IsDigit(s[0]) && IsDigit(s[|s| - 1])
    && (forall i :: 0 <= i < |s| ==> IsDigit(s[i]) || s[i] == '_')
    && (forall i :: 0 <= i < |s| - 1 && s[i] == '_' ==> s[i + 1] != '_')
  }

  /** The digits of `s` with its underscores removed. */
  function DropUnderscores(s: string): (r: string)
    ensures '_' !in r && |r| <= |s|
    ensures (forall i :: 0 <= i < |s| ==> IsDigit(s[i]) || s[i] == '_') ==> AllDigits(r)
    ensures AllDigits(s) ==> r == s
  {
    if s == [] then []
    else if s[0] == '_' then DropUnderscores(s[1..])
    else [s[0]] + DropUnderscores(s[1..])
  }

  /** `s` without the sign `int()` reads in front of the digits. */
  function Unsigned(t: string): string
  {
    if t != [] && (t[0] == '-' || t[0] == '+') then t[1..] else t
  }

  /** Python's `int(s)` in base 10 over ASCII digits: surrounding whitespace
      is ignored, an optional sign, then digits with single underscores
      between them (leading zeros allowed); `None` stands for the
      `ValueError` raised on anything else. */
  function ParseInt(s: string): (r: Option<int>)
    ensures r.Some? ==> Strip(s) != []
    ensures r.Some? && r.value < 0 ==> Strip(s)[0] == '-'
    ensures r.Some? && Strip(s)[0] != '-' ==> r.value >= 0
  {
    var t := Strip(s);
    var body := Unsigned(t);
    if !IsGroupedDigits(body) then None
    else
      var v := DigitsValue(DropUnderscores(body));
      Some(if t[0] == '-' then 0 - v else v)
  }

  lemma {:induction false} DigitsValueOfNatToString(n: nat)
    ensures DigitsValue(NatToString(n)) == n
  {
    if n >= 10 {
      DigitsValueOfNatToString(n / 10);
      var s := NatToString(n);
      assert s[..|s| - 1] == NatToString(n / 10);
    }
  }

  /** `int(str(i)) == i`: the decimal rendering of an int reads back as that int. */
  lemma ParseIntOfIntToString(i: int)
    ensures ParseInt(IntToString(i)) == Some(i)
  {
    if i < 0 {
      ParseIntOfNegative(-i);
    } else {
      ParseIntOfNatToString(i);
    }
  }

  lemma ParseIntOfNatToString(n: nat)
    ensures ParseInt(NatToString(n)) == Some(n)
  {
    var s := NatToString(n);
    StripUnpadded(s);
    assert s[0] != '-' && s[0] != '+';
    DigitsAreGrouped(s);
    DigitsValueOfNatToString(n);
    ParseIntOfStripped(s, s);
  }

  /** How `int()` reads a string with nothing to strip, given its digits. */
  lemma ParseIntOfStripped(s: string, body: string)
    requires Strip(s) == s && s != []
    requires body == (if s[0] == '-' || s[0] == '+' then s[1..] else s)
    requires IsGroupedDigits(body) && AllDigits(body) && DropUnderscores(body) == body
    ensures ParseInt(s) == Some(if s[0] == '-' then 0 - DigitsValue(body) else DigitsValue(body))
  {
    assert Unsigned(Strip(s)) == body;
  }

  /** A non-empty run of digits is read as it stands. */
  lemma DigitsAreGrouped(s: string)
    requires s != [] && AllDigits(s)
    ensures IsGroupedDigits(s) && DropUnderscores(s) == s
  {
  }

  lemma ParseIntOfNegative(n: nat)
    requires n > 0
    ensures ParseInt("-" + NatToString(n)) == Some(0 - n)
  {
    NegativeFacts(n);
    ParseIntOfStripped("-" + NatToString(n), NatToString(n));
  }

  lemma NegativeFacts(n: nat)
    ensures var d := NatToString(n); var s := "-" + d;
      && Strip(s) == s && s != [] && s[0] == '-' && s[1..] == d
      && IsGroupedDigits(d) && AllDigits(d) && DropUnderscores(d) == d && DigitsValue(d) == n
  {
    var d := NatToString(n);
    var s := "-" + d;
    NegativeUnpadded(d);
    assert s[1..] == d;
    DigitsAreGrouped(d);
    DigitsValueOfNatToString(n);
  }

  lemma NegativeUnpadded(d: string)
    requires d != [] && AllDigits(d)
    ensures Strip("-" + d) == "-" + d
  {
    var s := "-" + d;
    assert s[|s| - 1] == d[|d| - 1];
    assert IsDigit(d[|d| - 1]);
    StripUnpadded(s);
  }

  /** A string that neither starts nor ends with whitespace is its own `strip()`. */
  lemma StripUnpadded(s: string)
    requires s != [] ==> !IsSpace(s[0]) && !IsSpace(s[|s| - 1])
    ensures Strip(s) == s
  {
  }

  /** `int()` ignores whitespace around the number: `int(" 10\t") == 10`. */
  lemma {:induction false} ParseIntOfPadded(pre: string, i: int, post: string)
    requires forall k :: 0 <= k < |pre| ==> IsSpace(pre[k])
    requires forall k :: 0 <= k < |post| ==> IsSpace(post[k])
    ensures ParseInt(pre + IntToString(i) + post) == Some(i)
  {
    var x := IntToString(i);
    IntToStringEnds(i);
    StripAround(pre, x, post);
    ParseIntOfIntToString(i);
  }

  lemma IntToStringEnds(i: int)
    ensures var x := IntToString(i); x != [] && !IsSpace(x[0]) && !IsSpace(x[|x| - 1])
  {
    var d := NatToString(if i < 0 then -i else i);
    assert IsDigit(d[0]) && IsDigit(d[|d| - 1]);
    if i < 0 {
      assert IntToString(i) == "-" + d;
    }
  }

  lemma {:induction false} StripLeftPadded(pre: string, x: string)
    requires forall k :: 0 <= k < |pre| ==> IsSpace(pre[k])
    requires x != [] && !IsSpace(x[0])
    ensures StripLeft(pre + x) == x
    decreases |pre|
  {
    if pre == [] {
      assert pre + x == x;
    } else {
      assert (pre + x)[1..] == pre[1..] + x;
      StripLeftPadded(pre[1..], x);
    }
  }

  lemma {:induction false} StripRightPadded(x: string, post: string)
    requires forall k :: 0 <= k < |post| ==> IsSpace(post[k])
    requires x != [] && !IsSpace(x[|x| - 1])
    ensures StripRight(x + post) == x
    decreases |post|
  {
    if post == [] {
      assert x + post == x;
    } else {
      var t := x + post;
      assert t[..|t| - 1] == x + post[..|post| - 1];
      assert t[|t| - 1] == post[|post| - 1];
      StripRightPadded(x, post[..|post| - 1]);
    }
  }

  /** `strip()` removes exactly the whitespace around a word that neither
      starts nor ends with whitespace. */
  lemma StripAround(pre: string, x: string, post: string)
    requires forall k :: 0 <= k < |pre| ==> IsSpace(pre[k])
    requires forall k :: 0 <= k < |post| ==> IsSpace(post[k])
    requires x != [] && !IsSpace(x[0]) && !IsSpace(x[|x| - 1])
    ensures Strip(pre + x + post) == x
  {
    assert pre + x + post == pre + (x + post);
    assert (x + post)[0] == x[0];
    StripLeftPadded(pre, x + post);
    StripRightPadded(x, post);
  }

  /** `int()` reads underscores between digits and refuses them anywhere else:
      `int("1_0") == 10`, while `"1__0"`, `"_10"` and `"10_"` raise. */
  lemma ParseIntOfUnderscores()
    ensures ParseInt("1_0") == Some(10)
    ensures ParseInt("1__0") == None
    ensures ParseInt("_10") == None && ParseInt("10_") == None
  {
    StripUnpadded("1_0");
    StripUnpadded("1__0");
    StripUnpadded("_10");
    StripUnpadded("10_");
    assert IsGroupedDigits("1_0");
    assert DropUnderscores("1_0") == "10" by {
      assert DropUnderscores("0") == "0";
      assert DropUnderscores("_0") == "0" by { assert "_0"[1..] == "0"; }
      assert "1_0"[1..] == "_0";
    }
    assert DigitsValue("10") == 10 by { assert "10"[..1] == "1"; assert DigitsValue("1") == 1 by { assert "1"[..0] == ""; } }
    assert Unsigned(Strip("1_0")) == "1_0";
    assert Unsigned(Strip("1__0")) == "1__0";
    assert Unsigned(Strip("_10")) == "_10";
    assert Unsigned(Strip("10_")) == "10_";
    assert !IsGroupedDigits("1__0") by { assert "1__0"[1] == '_' && "1__0"[2] == '_'; }
  }



  /** Distinct ints have distinct decimal renderings. */
  lemma IntToStringInjective(a: int, b: int)
    requires IntToString(a) == IntToString(b)
    ensures a == b
  {
    ParseIntOfIntToString(a);
    ParseIntOfIntToString(b);
  }

  /** `s.split(sep)` for a one-character separator. */
  function Split(s: string, sep: char): (parts: seq<string>)
    ensures |parts| >= 1
    ensures forall p :: p in parts ==> sep !in p
    decreases |s|
  {
    if s == [] then [""]
    else
      var rest := Split(s[1..], sep);
      if s[0] == sep then [""] + rest else [[s[0]] + rest[0]] + rest[1..]
  }

  /** `sep.join(parts)`: the inverse of `Split`. */
  function Join(parts: seq<string>, sep: char): string
    requires |parts| >= 1
  {
    if |parts| == 1 then parts[0] else parts[0] + [sep] + Join(parts[1..], sep)
  }

  lemma {:induction false} JoinSplit(s: string, sep: char)
    ensures Join(Split(s, sep), sep) == s
    decreases |s|
  {
    if s != [] {
      var t := s[1..];
      assert s == [s[0]] + t;
      JoinSplit(t, sep);
      SplitCons(s[0], t, sep);
      if s[0] == sep {
        var parts := [""] + Split(t, sep);
        assert parts[1..] == Split(t, sep);
      } else {
        JoinPrepend(s[0], Split(t, sep), sep);
      }
    }
  }

  /** Prepending a character to the first field prepends it to the join. */
  lemma JoinPrepend(c: char, parts: seq<string>, sep: char)
    requires |parts| >= 1
    ensures Join([[c] + parts[0]] + parts[1..], sep) == [c] + Join(parts, sep)
  {
    var q := [[c] + parts[0]] + parts[1..];
    assert q[0] == [c] + parts[0] && q[1..] == parts[1..];
  }

  lemma {:induction false} SplitWithoutSeparator(s: string, sep: char)
    requires sep !in s
    ensures Split(s, sep) == [s]
    decreases |s|
  {
    if s != [] {
      SplitWithoutSeparator(s[1..], sep);
      assert [s[0]] + s[1..] == s;
    }
  }

  /** One character in front: a separator opens a new field, any other
      character joins the first field. */
  lemma SplitCons(c: char, s: string, sep: char)
    ensures c == sep ==> Split([c] + s, sep) == [""] + Split(s, sep)
    ensures c != sep ==> Split([c] + s, sep) == [[c] + Split(s, sep)[0]] + Split(s, sep)[1..]
  {
    assert ([c] + s)[0] == c && ([c] + s)[1..] == s;
  }

  lemma PrependToFirst(c: char, t: seq<string>, u: seq<string>)
    requires |t| >= 1
    ensures [[c] + (t + u)[0]] + (t + u)[1..] == ([[c] + t[0]] + t[1..]) + u
  {
    assert (t + u)[0] == t[0];
    assert (t + u)[1..] == t[1..] + u;
  }

  /** Splitting `a + sep + b` splits `a` and `b` separately. */
  lemma {:induction false} SplitAround(a: string, b: string, sep: char)
    ensures Split(a + [sep] + b, sep) == Split(a, sep) + Split(b, sep)
    decreases |a|
  {
    if a == [] {
      assert a + [sep] + b == [sep] + b;
      SplitCons(sep, b, sep);
    } else {
      var r := a[1..] + [sep] + b;
      assert a + [sep] + b == [a[0]] + r;
      assert a == [a[0]] + a[1..];
      SplitAround(a[1..], b, sep);
      SplitCons(a[0], r, sep);
      SplitCons(a[0], a[1..], sep);
      if a[0] != sep {
        PrependToFirst(a[0], Split(a[1..], sep), Split(b, sep));
      }
    }
  }

  /** The last field of `p + t`, split on `sep`, is `t` when `p` ends with
      `sep` and `t` does not contain it. */
  lemma LastFieldAfterSeparator(p: string, t: string, sep: char)
    requires |p| >= 1 && p[|p| - 1] == sep && sep !in t
    ensures var parts := Split(p + t, sep); parts[|parts| - 1] == t
  {
    var a := p[..|p| - 1];
    assert p + t == a + [sep] + t;
    SplitAround(a, t, sep);
    SplitWithoutSeparator(t, sep);
  }

  /** The last field of `s.split(sep)` is what follows the last `sep`
      (all of `s` when there is none). */
  lemma {:induction false} SplitLastIsSuffix(s: string, sep: char)
    ensures var parts := Split(s, sep);
      exists k :: 0 <= k <= |s| && (k == 0 || s[k - 1] == sep) && parts[|parts| - 1] == s[k..]
    decreases |s|
  {
    var parts := Split(s, sep);
    if s == [] {
      assert parts[|parts| - 1] == s[0..];
    } else {
      var t := s[1..];
      var rest := Split(t, sep);
      SplitLastIsSuffix(t, sep);
      var k' :| 0 <= k' <= |t| && (k' == 0 || t[k' - 1] == sep) && rest[|rest| - 1] == t[k'..];
      assert s == [s[0]] + t;
      SplitCons(s[0], t, sep);
      if s[0] == sep {
        assert parts[|parts| - 1] == rest[|rest| - 1] == s[k' + 1..];
        assert k' + 1 == 1 || s[k'] == t[k' - 1];
      } else if |rest| > 1 {
        if k' == 0 {
          assert sep !in rest[|rest| - 1];
          SplitWithoutSeparator(t, sep);
        }
        assert parts[|parts| - 1] == rest[|rest| - 1] == s[k' + 1..];
        assert s[k'] == t[k' - 1];
      } else {
        JoinSplit(t, sep);
        assert rest[0] == t;
        assert |t[k'..]| == |t|;
        assert parts[|parts| - 1] == s[0..];
      }
    }
  }

  /** `s.replace(pat, "")`: every non-overlapping occurrence of `pat`, found
      from the left, removed. */
  function RemoveAll(s: string, pat: string): (r: string)
    requires |pat| > 0
    ensures |r| <= |s|
    decreases |s|
  {
    if |s| < |pat| then s
    else if s[..|pat|] == pat then RemoveAll(s[|pat|..], pat)
    else [s[0]] + RemoveAll(s[1..], pat)
  }

  lemma {:induction false} RemoveAllAbsent(s: string, pat: string)
    requires |pat| > 0 && pat[0] !in s
    ensures RemoveAll(s, pat) == s
    decreases |s|
  {
    if |s| >= |pat| {
      assert s[..|pat|][0] == s[0] != pat[0];
      RemoveAllAbsent(s[1..], pat);
    }
  }

  /** Removing `pat` from `pat + t` where `t` never starts an occurrence leaves `t`. */
  lemma RemoveAllAfterPrefix(pat: string, t: string)
    requires |pat| > 0 && pat[0] !in t
    ensures RemoveAll(pat + t, pat) == t
  {
    assert (pat + t)[..|pat|] == pat;
    assert (pat + t)[|pat|..] == t;
    RemoveAllAbsent(t, pat);
  }

  predicate StartsWith(s: string, prefix: string)
  {
    |prefix| <= |s| && s[..|prefix|] == prefix
  }

  /** Python's `s[i:j]` for non-negative bounds: clamped, empty when `i >= j`. */
  function Slice<T>(s: seq<T>, i: nat, j: nat): (r: seq<T>)
    ensures |r| == if i < j && i < |s| then (if j < |s| then j else |s|) - i else 0
  {
    var hi := if j < |s| then j else |s|;
    if i < hi then s[i..hi] else []
  }

  /** The characters for which Python's `str.isspace()` holds. */
  predicate IsSpace(c: char)
  {
    var n := c as int;
    || 9 <= n <= 13 || 28 <= n <= 32 || n == 0x85 || n == 0xA0 || n == 0x1680
    || 0x2000 <= n <= 0x200A || n == 0x2028 || n == 0x2029 || n == 0x202F
    || n == 0x205F || n == 0x3000
  }

  function StripLeft(s: string): (r: string)
    ensures |r| <= |s| && (r == [] || !IsSpace(r[0]))
  {
    if s != [] && IsSpace(s[0]) then StripLeft(s[1..]) else s
  }

  function StripRight(s: string): (r: string)
    ensures |r| <= |s| && r == s[..|r|] && (r == [] || !IsSpace(r[|r| - 1]))
  {
    if s != [] && IsSpace(s[|s| - 1]) then StripRight(s[..|s| - 1]) else s
  }

  /** A character missing from `s` is missing from `s.strip()`. */
  lemma StripKeepsOut(s: string, c: char)
    requires c !in s
    ensures c !in Strip(s)
  {
    StripLeftKeepsOut(s, c);
    StripRightKeepsOut(StripLeft(s), c);
  }

  lemma {:induction false} StripLeftKeepsOut(s: string, c: char)
    requires c !in s
    ensures c !in StripLeft(s)
    decreases |s|
  {
    if s != [] && IsSpace(s[0]) {
      assert forall x :: x in s[1..] ==> x in s;
      StripLeftKeepsOut(s[1..], c);
    }
  }

  lemma StripRightKeepsOut(s: string, c: char)
    requires c !in s
    ensures c !in StripRight(s)
  {
    var r := StripRight(s);
    assert r == s[..|r|];
    assert forall x :: x in s[..|r|] ==> x in s;
  }

  /** `s.strip()` with no argument. */
  function Strip(s: string): (r: string)
    ensures r == [] || (!IsSpace(r[0]) && !IsSpace(r[|r| - 1]))
  {
    var l := StripLeft(s);
    var r := StripRight(l);
    r
  }

  /** `s.replace(a, b)` for single characters. */
  function ReplaceChar(s: string, a: char, b: char): (r: string)
    ensures |r| == |s|
    ensures forall i :: 0 <= i < |s| ==> r[i] == if s[i] == a then b else s[i]
  {
    if s == [] then [] else [if s[0] == a then b else s[0]] + ReplaceChar(s[1..], a, b)
  }
}
