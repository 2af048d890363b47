/**
 * The few Python string operations the scripts use, with Python's semantics:
 * `str.strip()`, `str.split(sep)`, `sep.join(parts)`, `sub in s`, `str(n)` and
 * `str.zfill(width)` (which is also what the `{x:02}` format of an int produces).
 */
module Text {

  /** The characters `str.isspace()` accepts; `str.strip()` with no argument removes exactly these. */
  predicate IsSpace(c: char) {
    var n := c as int;
    (9 <= n <= 13) || (28 <= n <= 32) || n == 0x85 || n == 0xA0 || n == 0x1680
    || (0x2000 <= n <= 0x200A) || n == 0x2028 || n == 0x2029 || n == 0x202F
    || n == 0x205F || n == 0x3000
  }

  /** Every character of `s` is whitespace. */
  predicate AllSpace(s: string) {
    s == [] || (IsSpace(s[0]) && AllSpace(s[1..]))
  }

  /** Two runs of whitespace make one. */
  lemma {:induction false} AllSpaceAppend(a: string, b: string)
    requires AllSpace(a) && AllSpace(b)
    ensures AllSpace(a + b)
  {
    if a == [] {
      assert a + b == b;
    } else {
      assert (a + b)[0] == a[0] && (a + b)[1..] == a[1..] + b;
      AllSpaceAppend(a[1..], b);
    }
  }

  /** Neither end of `s` is whitespace. */
  predicate IsStripped(s: string) {
    s == [] || (!IsSpace(s[0]) && !IsSpace(s[|s| - 1]))
  }

  /** `s.lstrip()`: the longest suffix of `s` that does not start with whitespace. */
  function TrimLeft(s: string): (r: string)
    ensures |r| <= |s| && r == s[|s| - |r|..]
    ensures r == [] || !IsSpace(r[0])
    ensures AllSpace(s[..|s| - |r|])
  {
    if s != [] && IsSpace(s[0]) then
      var r := TrimLeft(s[1..]);
      assert s[..|s| - |r|][1..] == s[1..][..|s| - 1 - |r|];
      r
    else s
  }

  /** `s.rstrip()`: the longest prefix of `s` that does not end with whitespace. */
  function TrimRight(s: string): (r: string)
    ensures |r| <= |s| && r == s[..|r|]
    ensures r == [] || !IsSpace(r[|r| - 1])
    ensures AllSpace(s[|r|..])
  {
    if s != [] && IsSpace(s[|s| - 1]) then
      var r := TrimRight(s[..|s| - 1]);
      assert s[|r|..] == s[..|s| - 1][|r|..] + [s[|s| - 1]];
      AllSpaceAppend(s[..|s| - 1][|r|..], [s[|s| - 1]]);
      r
    else s
  }

  /**
   * `r` is `s` with edge whitespace removed and nothing else: a slice of `s`
   * outside of which every character of `s` is whitespace.
   */
  predicate TrimsEdges(s: string, r: string) {
    exists i, j :: 0 <= i <= j <= |s| && r == s[i..j] && AllSpace(s[..i]) && AllSpace(s[j..])
  }

  /** Trimming the left and then the right edge removes edge whitespace only. */
  lemma TrimBothTrimsEdges(s: string)
    ensures TrimsEdges(s, TrimRight(TrimLeft(s)))
  {
    var l := TrimLeft(s);
    var r := TrimRight(l);
    var i, j := |s| - |l|, |s| - |l| + |r|;
    assert r == s[i..j];
    assert s[j..] == l[|r|..];
  }

  /**
   * `s.strip()`: `s` without its leading and trailing whitespace. The result
   * has no whitespace at either end, and only edge whitespace was removed.
   */
  function Strip(s: string): (r: string)
    ensures IsStripped(r)
    ensures TrimsEdges(s, r)
  {
    TrimBothTrimsEdges(s);
    TrimRight(TrimLeft(s))
  }

  lemma StrippedIsFixpoint(s: string)
    requires IsStripped(s)
    ensures Strip(s) == s
  {
  }

  /** Stripping twice is stripping once. */
  lemma StripIdempotent(s: string)
    ensures Strip(Strip(s)) == Strip(s)
  {
    StrippedIsFixpoint(Strip(s));
  }

  /** A leading whitespace character does not change what `strip()` returns. */
  lemma StripSkipsLeadingSpace(c: char, s: string)
    requires IsSpace(c)
    ensures Strip([c] + s) == Strip(s)
  {
    assert ([c] + s)[1..] == s;
  }

  /** A character absent from `s` is absent from `s.strip()`. */
  lemma StripKeepsAbsent(s: string, c: char)
    requires c !in s
    ensures c !in Strip(s)
  {
  }

  /** `sub` occurs in `s` starting at index `i`. */
  predicate OccursAt(s: string, sub: string, i: int) {
    0 <= i && i + |sub| <= |s| && s[i..i + |sub|] == sub
  }

  /** Python's `sub in s` on strings. */
  predicate Contains(s: string, sub: string) {
    exists i | 0 <= i <= |s| :: OccursAt(s, sub, i)
  }

  /**
   * `s.split(sep)` for a non-empty separator: the pieces between the
   * non-overlapping occurrences of `sep`, found from left to right.
   */
  function Split(s: string, sep: string): (parts: seq<string>)
    requires sep != []
    ensures |parts| >= 1
    decreases |s|
  {
    if |sep| <= |s| && s[..|sep|] == sep then [""] + Split(s[|sep|..], sep)
    else if s == [] then [""]
    else
      var rest := Split(s[1..], sep);
      [[s[0]] + rest[0]] + rest[1..]
  }

  /** `sep.join(parts)`. */
  function Join(sep: string, parts: seq<string>): string {
    if |parts| == 0 then ""
    else if |parts| == 1 then parts[0]
    else parts[0] + sep + Join(sep, parts[1..])
  }

  /** A join starts with its first piece and ends with its last one. */
  lemma {:induction false} JoinEnds(sep: string, parts: seq<string>)
    requires parts != []
    ensures parts[0] <= Join(sep, parts)
    ensures |parts[|parts| - 1]| <= |Join(sep, parts)|
    ensures Join(sep, parts)[|Join(sep, parts)| - |parts[|parts| - 1]|..] == parts[|parts| - 1]
  {
    if |parts| > 1 {
      var last, rest := parts[|parts| - 1], Join(sep, parts[1..]);
      JoinEnds(sep, parts[1..]);
      assert parts[1..][|parts[1..]| - 1] == last;
      var r := parts[0] + sep + rest;
      assert r[|r| - |last|..] == rest[|rest| - |last|..];
    }
  }

  lemma JoinCons(sep: string, a: string, parts: seq<string>)
    requires parts != []
    ensures Join(sep, [a] + parts) == a + sep + Join(sep, parts)
  {
    assert ([a] + parts)[1..] == parts;
  }

  /** Prepending a character to the first piece prepends it to the joined string. */
  lemma JoinPrependChar(sep: string, x: char, parts: seq<string>)
    requires parts != []
    ensures Join(sep, [[x] + parts[0]] + parts[1..]) == [x] + Join(sep, parts)
  {
    if |parts| > 1 {
      JoinCons(sep, [x] + parts[0], parts[1..]);
      JoinCons(sep, parts[0], parts[1..]);
      assert [parts[0]] + parts[1..] == parts;
    }
  }

  /** Joining the pieces of a split with the same separator gives the string back. */
  lemma {:induction false} JoinSplit(s: string, sep: string)
    requires sep != []
    ensures Join(sep, Split(s, sep)) == s
    decreases |s|
  {
    if |sep| <= |s| && s[..|sep|] == sep {
      JoinSplit(s[|sep|..], sep);
      JoinSplitAtSeparator(sep, s[|sep|..]);
      assert s == sep + s[|sep|..];
    } else if s != [] {
      JoinSplit(s[1..], sep);
      JoinSplitAtChar(s, sep);
    }
  }

  lemma JoinSplitAtSeparator(sep: string, t: string)
    requires sep != []
    requires Join(sep, Split(t, sep)) == t
    ensures Join(sep, Split(sep + t, sep)) == sep + t
  {
    var s := sep + t;
    assert s[..|sep|] == sep && s[|sep|..] == t;
    var rest := Split(t, sep);
    assert Split(s, sep) == [""] + rest;
    JoinCons(sep, "", rest);
    assert "" + sep == sep;
  }

  lemma JoinSplitAtChar(s: string, sep: string)
    requires sep != [] && s != [] && !(|sep| <= |s| && s[..|sep|] == sep)
    requires Join(sep, Split(s[1..], sep)) == s[1..]
    ensures Join(sep, Split(s, sep)) == s
  {
    JoinSplitGlued(s, sep);
    HeadTail(s);
  }

  /** A non-empty string is its first character followed by the rest. */
  lemma HeadTail(s: string)
    requires s != []
    ensures [s[0]] + s[1..] == s
  {
  }

  lemma JoinSplitGlued(s: string, sep: string)
    requires sep != [] && s != [] && !(|sep| <= |s| && s[..|sep|] == sep)
    ensures Join(sep, Split(s, sep)) == [s[0]] + Join(sep, Split(s[1..], sep))
  {
    SplitGluesChar(s, sep);
    JoinPrependChar(sep, s[0], Split(s[1..], sep));
  }

  /** Where no separator starts, the first character is glued to the first piece of the rest. */
  lemma SplitGluesChar(s: string, sep: string)
    requires sep != [] && s != [] && !(|sep| <= |s| && s[..|sep|] == sep)
    ensures Split(s, sep) == [[s[0]] + Split(s[1..], sep)[0]] + Split(s[1..], sep)[1..]
  {
  }

  /** A string without the separator character splits into itself alone. */
  lemma {:induction false} SplitWithoutSeparator(s: string, c: char)
    requires c !in s
    ensures Split(s, [c]) == [s]
    decreases |s|
  {
    if s != [] {
      SplitWithoutSeparator(s[1..], c);
      assert [s[0]] + s[1..] == s;
    }
  }

  /** Splitting at the first occurrence of a one-character separator. */
  lemma {:induction false} SplitAtFirst(a: string, c: char, b: string)
    requires c !in a
    ensures Split(a + [c] + b, [c]) == [a] + Split(b, [c])
    decreases |a|
  {
    var s := a + [c] + b;
    if a == [] {
      assert s[1..] == b;
    } else {
      assert s[..1] == [a[0]] && s[1..] == a[1..] + [c] + b;
      SplitAtFirst(a[1..], c, b);
      assert [a[0]] + a[1..] == a;
    }
  }

  /** Three pieces without the separator character, joined by it, split back into the three. */
  lemma SplitThree(a: string, b: string, c: string, sep: char)
    requires sep !in a && sep !in b && sep !in c
    ensures Split(a + [sep] + b + [sep] + c, [sep]) == [a, b, c]
  {
    assert a + [sep] + b + [sep] + c == a + [sep] + (b + [sep] + c);
    SplitAtFirst(a, sep, b + [sep] + c);
    SplitAtFirst(b, sep, c);
    SplitWithoutSeparator(c, sep);
  }

  /** A string without the separator's first character splits into itself alone. */
  lemma {:induction false} SplitWithoutSeparatorHead(s: string, sep: string)
    requires sep != [] && sep[0] !in s
    ensures Split(s, sep) == [s]
    decreases |s|
  {
    if s != [] {
      assert !(|sep| <= |s| && s[..|sep|] == sep) by {
        if |sep| <= |s| { assert s[..|sep|][0] == s[0]; }
      }
      SplitWithoutSeparatorHead(s[1..], sep);
      assert [s[0]] + s[1..] == s;
    }
  }

  /** Splitting at the first occurrence of a separator whose first character `a` lacks. */
  lemma {:induction false} SplitAtSeparator(a: string, sep: string, b: string)
    requires sep != [] && sep[0] !in a
    ensures Split(a + sep + b, sep) == [a] + Split(b, sep)
    decreases |a|
  {
    var s := a + sep + b;
    if a == [] {
      assert s[..|sep|] == sep && s[|sep|..] == b;
    } else {
      assert s[..|sep|][0] == a[0] != sep[0];
      assert s[1..] == a[1..] + sep + b;
      SplitAtSeparator(a[1..], sep, b);
      assert [a[0]] + a[1..] == a;
    }
  }

  /**
   * Splitting the join of some pieces gives the pieces back, when no piece
   * holds the separator's first character.
   */
  lemma {:induction false} SplitJoin(sep: string, parts: seq<string>)
    requires sep != [] && parts != []
    requires forall k :: 0 <= k < |parts| ==> sep[0] !in parts[k]
    ensures Split(Join(sep, parts), sep) == parts
    decreases |parts|
  {
    if |parts| == 1 {
      SplitWithoutSeparatorHead(parts[0], sep);
    } else {
      SplitJoin(sep, parts[1..]);
      SplitAtSeparator(parts[0], sep, Join(sep, parts[1..]));
      assert [parts[0]] + parts[1..] == parts;
    }
  }

  /**
   * Whatever comes before a separator character, the pieces of the text
   * after it are the last pieces of the split.
   */
  lemma {:induction false} SplitSuffix(a: string, c: char, b: string)
    ensures |Split(a + [c] + b, [c])| > |Split(b, [c])|
    ensures Split(a + [c] + b, [c])[|Split(a + [c] + b, [c])| - |Split(b, [c])|..] == Split(b, [c])
    decreases |a|
  {
    var s, t := a + [c] + b, Split(b, [c]);
    if a == [] {
      assert s == [c] + b;
      SplitSeparatorFirst(c, b);
      assert Split(s, [c]) == [""] + t;
      KeepsSuffix("", t, t);
    } else {
      var u := a[1..] + [c] + b;
      assert s == [a[0]] + u;
      SplitSuffix(a[1..], c, b);
      var rest := Split(u, [c]);
      if a[0] == c {
        SplitSeparatorFirst(c, u);
        assert Split(s, [c]) == [""] + rest;
        KeepsSuffix("", rest, t);
      } else {
        SplitConsNonSeparator(a[0], u, c);
        assert Split(s, [c]) == [[a[0]] + rest[0]] + rest[1..];
        GluedKeepsSuffix([a[0]], rest, t);
      }
    }
  }

  lemma SplitSeparatorFirst(c: char, t: string)
    ensures Split([c] + t, [c]) == [""] + Split(t, [c])
  {
    assert ([c] + t)[..1] == [c] && ([c] + t)[1..] == t;
  }

  /** A longer list of pieces that ends with `t` still ends with `t` after a piece is put in front. */
  lemma KeepsSuffix(x: string, rest: seq<string>, t: seq<string>)
    requires |rest| >= |t| && rest[|rest| - |t|..] == t
    ensures ([x] + rest)[|[x] + rest| - |t|..] == t
  {
    assert ([x] + rest)[|[x] + rest| - |t|..] == rest[|rest| - |t|..];
  }

  /** Gluing a prefix to the first of more pieces than `t` keeps the suffix `t`. */
  lemma GluedKeepsSuffix(x: string, rest: seq<string>, t: seq<string>)
    requires |rest| > |t| && rest[|rest| - |t|..] == t
    ensures |[x + rest[0]] + rest[1..]| > |t|
    ensures ([x + rest[0]] + rest[1..])[|[x + rest[0]] + rest[1..]| - |t|..] == t
  {
    assert rest[1..][|rest[1..]| - |t|..] == rest[|rest| - |t|..];
    KeepsSuffix(x + rest[0], rest[1..], t);
  }

  /** `s.split(c)[-1]`: what follows the last occurrence of `c`. */
  function LastPiece(s: string, c: char): string {
    var pieces := Split(s, [c]);
    pieces[|pieces| - 1]
  }

  /** Only what follows the last separator is the last piece. */
  lemma LastPieceAfterSeparator(a: string, c: char, b: string)
    ensures LastPiece(a + [c] + b, c) == LastPiece(b, c)
  {
    SplitSuffix(a, c, b);
    var p, t := Split(a + [c] + b, [c]), Split(b, [c]);
    assert p[|p| - |t|..][|t| - 1] == p[|p| - 1];
  }

  /** A string without the separator is its own last piece. */
  lemma LastPieceWithoutSeparator(s: string, c: char)
    requires c !in s
    ensures LastPiece(s, c) == s
  {
    SplitWithoutSeparator(s, c);
  }

  /** A character that is not the separator is glued to the first piece. */
  lemma SplitConsNonSeparator(x: char, s: string, c: char)
    requires x != c
    ensures Split([x] + s, [c]) == [[x] + Split(s, [c])[0]] + Split(s, [c])[1..]
  {
    assert ([x] + s)[1..] == s;
  }

  /** No piece of a split on a one-character separator contains that character. */
  lemma {:induction false} SplitPiecesFree(s: string, c: char)
    ensures forall k :: 0 <= k < |Split(s, [c])| ==> c !in Split(s, [c])[k]
    decreases |s|
  {
    if s == [] {
    } else if s[0] == c {
      assert s[..1] == [c];
      SplitPiecesFree(s[1..], c);
    } else {
      SplitPiecesFree(s[1..], c);
    }
  }

  function Digit(d: nat): char
    requires d < 10
  {
    "0123456789"[d]
  }

  predicate IsDigit(c: char) {
    '0' <= c <= '9'
  }

  predicate AllDigits(s: string) {
    forall i :: 0 <= i < |s| ==> IsDigit(s[i])
  }

  /** `str(n)` for a natural number: its decimal digits, without leading zeros. */
  function NatToString(n: nat): (r: string)
    ensures |r| >= 1 && AllDigits(r)
    ensures r[0] == '0' ==> n == 0
  {
    if n < 10 then [Digit(n)] else NatToString(n / 10) + [Digit(n % 10)]
  }

  /** `str(i)` for an integer. */
  function IntToString(i: int): string {
    if i < 0 then "-" + NatToString(-i) else NatToString(i)
  }

  /** The number a string of decimal digits stands for (`int(s)` on such a string). */
  function DigitsValue(s: string): nat
    requires AllDigits(s)
  {
    if s == [] then 0
    else DigitsValue(s[..|s| - 1]) * 10 + (s[|s| - 1] as int - '0' as int)
  }

  /** Reading back the digits `str(n)` writes gives `n`. */
  lemma {:induction false} DigitsValueOfNat(n: nat)
    ensures DigitsValue(NatToString(n)) == n
  {
    var s := NatToString(n);
    if n >= 10 {
      DigitsValueOfNat(n / 10);
      assert s[..|s| - 1] == NatToString(n / 10);
      DigitRoundTrip(n % 10);
    } else {
      DigitRoundTrip(n);
    }
  }

  /** The character `Digit(d)` stands for `d`. */
  lemma DigitRoundTrip(d: nat)
    requires d < 10
    ensures Digit(d) as int - '0' as int == d
  {
  }

  /** `str` is injective on natural numbers. */
  lemma NatToStringInjective(m: nat, n: nat)
    requires NatToString(m) == NatToString(n)
    ensures m == n
  {
    DigitsValueOfNat(m);
    DigitsValueOfNat(n);
  }

  /** Leading zeros do not change the value of a digit string. */
  lemma {:induction false} DigitsValueLeadingZero(s: string)
    requires AllDigits(s)
    ensures DigitsValue("0" + s) == DigitsValue(s)
    decreases |s|
  {
    if s != [] {
      var t := "0" + s;
      assert t[..|t| - 1] == "0" + s[..|s| - 1];
      DigitsValueLeadingZero(s[..|s| - 1]);
    }
  }

  /** Four-digit numbers print with four characters. */
  lemma NatToStringFourDigits(n: nat)
    requires 1000 <= n <= 9999
    ensures |NatToString(n)| == 4
  {
    var a := n / 10;
    var b := a / 10;
    var c := b / 10;
    assert 1 <= c < 10;
    assert |NatToString(c)| == 1;
    assert |NatToString(b)| == 2;
    assert |NatToString(a)| == 3;
  }

  function Zeros(n: nat): (r: string)
    ensures |r| == n && forall i :: 0 <= i < n ==> r[i] == '0'
  {
    seq(n, _ => '0')
  }

  /**
   * `s.zfill(width)`: pad with '0' on the left up to `width` characters,
   * after a leading sign if there is one. This is also what the format spec
   * `02` does to an integer (`f"{x:02}"`).
   */
  function ZFill(s: string, width: nat): (r: string)
    ensures |r| == if |s| >= width then |s| else width
    ensures |s| < width && (s == [] || (s[0] != '+' && s[0] != '-')) ==> r == Zeros(width - |s|) + s
    ensures |s| < width && s != [] && (s[0] == '+' || s[0] == '-') ==> r == [s[0]] + Zeros(width - |s|) + s[1..]
    ensures |s| >= width ==> r == s
  {
    if |s| >= width then s
    else if s != [] && (s[0] == '+' || s[0] == '-') then [s[0]] + Zeros(width - |s|) + s[1..]
    else Zeros(width - |s|) + s
  }

  /** `str(n).zfill(2)` for a natural number below 100 is two digits whose value is `n`. */
  lemma Pad2(n: nat)
    requires n < 100
    ensures |ZFill(IntToString(n), 2)| == 2 && AllDigits(ZFill(IntToString(n), 2))
    ensures DigitsValue(ZFill(IntToString(n), 2)) == n
  {
    DigitsValueOfNat(n);
    if n < 10 {
      assert ZFill(IntToString(n), 2) == "0" + NatToString(n);
      DigitsValueLeadingZero(NatToString(n));
    } else {
      assert |NatToString(n / 10)| == 1;
    }
  }
}
