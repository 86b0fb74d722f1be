/** The Python `str` operations the tool relies on, for one-character
    separators: `join`, `split`, `strip`, `startswith`, `endswith`, and
    `str()` of an integer. */
module Strings {

  predicate StartsWith(s: string, prefix: string) {
    |prefix| <= |s| && s[..|prefix|] == prefix
  }

  predicate EndsWith(s: string, suffix: string) {
    |suffix| <= |s| && s[|s| - |suffix|..] == suffix
  }

  /** A concatenation starts with its left part and ends with its right part. */
  lemma ConcatAffixes(a: string, b: string)
    ensures StartsWith(a + b, a) && EndsWith(a + b, b)
  {
    assert (a + b)[..|a|] == a;
    assert (a + b)[|a + b| - |b|..] == b;
  }

  lemma StartsWithTrans(s: string, p: string, q: string)
    requires StartsWith(s, p) && StartsWith(p, q)
    ensures StartsWith(s, q)
  {
    assert s[..|q|] == s[..|p|][..|q|];
  }

  /** A suffix of `s` is a suffix of anything that ends with `s`. */
  lemma EndsWithPrepend(a: string, s: string, suffix: string)
    requires EndsWith(s, suffix)
    ensures EndsWith(a + s, suffix)
  {
    assert (a + s)[|a + s| - |suffix|..] == s[|s| - |suffix|..];
  }

  /** `sep.join(parts)`. */
  function Join(sep: string, parts: seq<string>): string
  {
    if |parts| == 0 then ""
    else if |parts| == 1 then parts[0]
    else parts[0] + sep + Join(sep, parts[1..])
  }

  /** A join starts with its first part and ends with its last. */
  lemma {:induction false} JoinAffixes(sep: string, parts: seq<string>)
    requires |parts| > 0
    ensures StartsWith(Join(sep, parts), parts[0])
    ensures EndsWith(Join(sep, parts), parts[|parts| - 1])
  {
    if |parts| == 1 {
      assert parts[0][|parts[0]| - |parts[0]|..] == parts[0];
    } else {
      var rest := Join(sep, parts[1..]);
      JoinAffixes(sep, parts[1..]);
      ConcatAffixes(parts[0], sep + rest);
      assert parts[0] + sep + rest == parts[0] + (sep + rest);
      EndsWithPrepend(parts[0] + sep, rest, parts[|parts| - 1]);
    }
  }

  /** `s.split(c)`: the pieces between occurrences of `c`; never empty, and
      an empty string splits into one empty piece. */
  function Split(s: string, c: char): (parts: seq<string>)
    ensures |parts| >= 1
    ensures forall k :: 0 <= k < |parts| ==> c !in parts[k]
  {
    if s == [] then [""]
    else
      var rest := Split(s[1..], c);
      if s[0] == c then [""] + rest
      else [[s[0]] + rest[0]] + rest[1..]
  }

  /** Joining the pieces with the separator gives back the string. */
  lemma {:induction false} SplitJoin(s: string, c: char)
    ensures Join([c], Split(s, c)) == s
  {
    if s != [] {
      SplitJoin(s[1..], c);
      SplitJoinStep(s, c);
    }
  }

  /** If the tail of a string splits and joins back, so does the string. */
  lemma SplitJoinStep(s: string, c: char)
    requires s != [] && Join([c], Split(s[1..], c)) == s[1..]
    ensures Join([c], Split(s, c)) == s
  {
    var rest := Split(s[1..], c);
    var t := s[1..];
    assert s == [s[0]] + t;
    if s[0] == c {
      assert Split(s, c) == [""] + rest;
      JoinGlue([c], "", rest);
      assert "" + [c] + t == [s[0]] + t;
    } else {
      assert Split(s, c) == [[s[0]] + rest[0]] + rest[1..];
      JoinGlue([c], [s[0]], rest);
    }
  }

  /** Gluing a string to the front of the first part glues it to the front of the join. */
  lemma JoinGlue(sep: string, x: string, parts: seq<string>)
    requires |parts| >= 1
    ensures Join(sep, [x + parts[0]] + parts[1..]) == x + Join(sep, parts)
    ensures Join(sep, [x] + parts) == x + sep + Join(sep, parts)
  {
    var glued := [x + parts[0]] + parts[1..];
    assert glued[1..] == parts[1..];
    if |parts| > 1 {
      assert (x + parts[0]) + sep + Join(sep, parts[1..]) == x + (parts[0] + sep + Join(sep, parts[1..]));
    }
    assert ([x] + parts)[1..] == parts;
  }

  /** There is more than one piece exactly when the separator occurs. */
  lemma {:induction false} SplitCount(s: string, c: char)
    ensures |Split(s, c)| >= 2 <==> c in s
  {
    if s != [] {
      SplitCount(s[1..], c);
      assert c in s <==> s[0] == c || c in s[1..];
    }
  }

  /** The first piece is everything before the first separator. */
  lemma {:induction false} SplitAtFirst(a: string, b: string, c: char)
    requires c !in a
    ensures Split(a + [c] + b, c) == [a] + Split(b, c)
  {
    var s := a + [c] + b;
    if a == [] {
      assert s == [c] + b;
      assert s[1..] == b;
    } else {
      assert s[1..] == a[1..] + [c] + b;
      SplitAtFirst(a[1..], b, c);
      assert [a[0]] + a[1..] == a;
    }
  }

  /** The last piece is everything after the last separator. */
  lemma {:induction false} SplitLastPiece(a: string, b: string, c: char)
    requires c !in b
    ensures var parts := Split(a + [c] + b, c); parts[|parts| - 1] == b
  {
    var s := a + [c] + b;
    if a == [] {
      assert s == [c] + b && s[1..] == b;
      SplitCount(b, c);
      var p := Split(b, c);
      assert |p| == 1;
      SplitJoin(b, c);
    } else {
      assert s[1..] == a[1..] + [c] + b;
      SplitLastPiece(a[1..], b, c);
      SplitCount(s[1..], c);
    }
  }

  /** A suffix of the tail is a suffix of the whole. */
  lemma EndsWithTail(s: string, suffix: string)
    requires s != [] && EndsWith(s[1..], suffix)
    ensures EndsWith(s, suffix)
  {
    assert s[|s| - |suffix|..] == s[1..][|s| - 1 - |suffix|..];
  }

  /** A prefix of `b` extends to a prefix of `a + b`. */
  lemma StartsWithPrepend(a: string, b: string, prefix: string)
    requires StartsWith(b, prefix)
    ensures StartsWith(a + b, a + prefix)
  {
    assert (a + b)[..|a + prefix|] == a + b[..|prefix|];
  }

  /** A string without the separator is one piece. */
  lemma SplitNoSeparator(s: string, c: char)
    requires c !in s
    ensures Split(s, c) == [s]
  {
    SplitCount(s, c);
    SplitJoin(s, c);
  }

  /** With two or more pieces, the string starts with the first piece, the
      separator and the second piece, which runs to the end of the string
      or to the next separator. */
  lemma SplitFirstTwo(s: string, c: char)
    ensures var parts := Split(s, c);
      |parts| >= 2 ==> StartsWith(s, parts[0] + [c] + parts[1])
    ensures var parts := Split(s, c);
      |parts| == 2 ==> s == parts[0] + [c] + parts[1]
    ensures var parts := Split(s, c);
      |parts| > 2 ==> StartsWith(s, parts[0] + [c] + parts[1] + [c])
  {
    var parts := Split(s, c);
    SplitJoin(s, c);
    if |parts| >= 2 {
      var rest := Join([c], parts[1..]);
      assert s == parts[0] + [c] + rest;
      if |parts| == 2 {
        assert parts[1..] == [parts[1]];
      } else {
        var more := Join([c], parts[2..]);
        assert parts[1..][1..] == parts[2..];
        assert rest == parts[1] + [c] + more;
        assert s == (parts[0] + [c] + parts[1] + [c]) + more;
        ConcatAffixes(parts[0] + [c] + parts[1] + [c], more);
      }
      StartsWithPrepend(parts[0] + [c], rest, parts[1]);
    }
  }

  /** The last piece of a split is that of the tail's split when the tail
      holds a separator or the string starts with one. */
  lemma {:induction false} SplitLastOfTail(s: string, c: char)
    requires s != []
    ensures var rest := Split(s[1..], c); var parts := Split(s, c);
      && (|rest| >= 2 || s[0] == c ==> parts[|parts| - 1] == rest[|rest| - 1])
      && (c !in s[1..] ==> rest == [s[1..]])
  {
    SplitCount(s[1..], c);
    if c !in s[1..] {
      SplitJoin(s[1..], c);
    }
  }

  /** The last piece is a suffix of the string. */
  lemma SplitLastSuffix(s: string, c: char)
    ensures var parts := Split(s, c); EndsWith(s, parts[|parts| - 1])
  {
    SplitJoin(s, c);
    JoinAffixes([c], Split(s, c));
  }

  /** When the separator occurs, the last piece follows one. */
  lemma {:induction false} SplitLastAfterSeparator(s: string, c: char)
    ensures var parts := Split(s, c); c in s ==> EndsWith(s, [c] + parts[|parts| - 1])
  {
    if c in s {
      if c in s[1..] {
        SplitLastAfterSeparator(s[1..], c);
        LastAfterSeparatorInTail(s, c);
      } else {
        LastAfterSeparatorAtHead(s, c);
      }
    }
  }

  lemma LastAfterSeparatorInTail(s: string, c: char)
    requires s != [] && c in s[1..]
    requires var rest := Split(s[1..], c); EndsWith(s[1..], [c] + rest[|rest| - 1])
    ensures var parts := Split(s, c); EndsWith(s, [c] + parts[|parts| - 1])
  {
    var rest := Split(s[1..], c);
    EndsWithTail(s, [c] + rest[|rest| - 1]);
    SplitCount(s[1..], c);
    SplitLastOfTail(s, c);
  }

  lemma LastAfterSeparatorAtHead(s: string, c: char)
    requires c in s && c !in s[1..]
    ensures var parts := Split(s, c); EndsWith(s, [c] + parts[|parts| - 1])
  {
    SplitLastOfTail(s, c);
    assert s[0] == c;
    assert Split(s, c) == ["", s[1..]];
    assert s == [c] + s[1..];
  }

  /** Python's `str.isspace` for one character, as used by `str.strip()`. */
  predicate IsSpace(ch: char) {
    var n := ch as int;
    (9 <= n <= 13) || (28 <= n <= 32) || n == 0x85 || n == 0xA0 || n == 0x1680
    || (0x2000 <= n <= 0x200A) || n == 0x2028 || n == 0x2029 || n == 0x202F
    || n == 0x205F || n == 0x3000
  }

  /** How many whitespace characters `s` starts with: what `s.lstrip()`
      drops. */
  function LeadingSpaces(s: string): (n: nat)
    ensures n <= |s|
    ensures forall k :: 0 <= k < n ==> IsSpace(s[k])
    ensures n < |s| ==> !IsSpace(s[n])
  {
    if s != [] && IsSpace(s[0]) then 1 + LeadingSpaces(s[1..]) else 0
  }

  /** How many whitespace characters `s` ends with: what `s.rstrip()`
      drops. */
  function TrailingSpaces(s: string): (n: nat)
    ensures n <= |s|
    ensures forall k :: |s| - n <= k < |s| ==> IsSpace(s[k])
    ensures n < |s| ==> !IsSpace(s[|s| - 1 - n])
  {
    if s != [] && IsSpace(s[|s| - 1]) then 1 + TrailingSpaces(s[..|s| - 1]) else 0
  }

  /** `s.strip()`: the slice of `s` between its leading and its trailing
      whitespace, with only whitespace around it. It is empty exactly when
      `s` is all whitespace; otherwise it neither starts nor ends with
      whitespace. */
  function Strip(s: string): (r: string)
    ensures var i := LeadingSpaces(s);
      && i + |r| <= |s| && r == s[i..i + |r|]
      && (forall k :: i + |r| <= k < |s| ==> IsSpace(s[k]))
    ensures r == [] <==> forall k :: 0 <= k < |s| ==> IsSpace(s[k])
    ensures r != [] ==> !IsSpace(r[0]) && !IsSpace(r[|r| - 1])
  {
    var i := LeadingSpaces(s);
    if i == |s| then ""
    else
      var j := |s| - TrailingSpaces(s);
      assert i < j;
      s[i..j]
  }

  predicate IsDigit(ch: char) { '0' as int <= ch as int <= '9' as int }

  function DigitChar(d: nat): (ch: char)
    requires d < 10
    ensures IsDigit(ch) && ch as int - '0' as int == d
  {
    ('0' as int + d) as char
  }

  /** The number a string of decimal digits denotes. */
  function DecimalValue(digits: string): nat
    requires forall k :: 0 <= k < |digits| ==> IsDigit(digits[k])
  {
    if digits == [] then 0
    else
      assert IsDigit(digits[|digits| - 1]);
      DecimalValue(digits[..|digits| - 1]) * 10 + (digits[|digits| - 1] as int - '0' as int)
  }

  /** `str(n)` for a natural number: its decimal digits, with no leading
      zero. */
  function NatToString(n: nat): (r: string)
    ensures r != [] && forall k :: 0 <= k < |r| ==> IsDigit(r[k])
    ensures r[0] == '0' ==> n == 0 && r == "0"
  {
    if n < 10 then [DigitChar(n)] else NatToString(n / 10) + [DigitChar(n % 10)]
  }

  /** Reading the digits back gives the number. */
  lemma {:induction false} NatToStringValue(n: nat)
    ensures DecimalValue(NatToString(n)) == n
  {
    var r := NatToString(n);
    if n >= 10 {
      NatToStringValue(n / 10);
      assert r[..|r| - 1] == NatToString(n / 10);
    }
  }

  /** `str(i)` for an integer: a minus sign exactly for a negative number,
      then the digits of its magnitude. */
  function IntToString(i: int): (r: string)
    ensures r != [] && (r[0] == '-' <==> i < 0)
    ensures var digits := if i < 0 then r[1..] else r;
      digits != [] && (forall k :: 0 <= k < |digits| ==> IsDigit(digits[k]))
      && DecimalValue(digits) == if i < 0 then -i else i
    ensures var digits := if i < 0 then r[1..] else r;
      digits[0] == '0' ==> digits == "0"
  {
    if i < 0 then
      NatToStringValue(-i);
      assert ("-" + NatToString(-i))[1..] == NatToString(-i);
      "-" + NatToString(-i)
    else
      NatToStringValue(i);
      NatToString(i)
  }
}
