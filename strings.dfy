/** The .NET string operations the generator relies on, over `seq<char>`. */
module Strings {

  /** `s.Split(sep)` with a non-empty separator and no options: cut at every
      occurrence of `sep`, scanning from the left, occurrences not overlapping. */
  function Split(s: string, sep: string): (parts: seq<string>)
    requires sep != ""
    ensures |parts| >= 1
    decreases |s|
  {
    if |s| < |sep| then [s]
    else if s[..|sep|] == sep then [""] + Split(s[|sep|..], sep)
    else
      var rest := Split(s[1..], sep);
      [[s[0]] + rest[0]] + rest[1..]
  }

  /** `sep` occurs in `p` at position `i`. */
  predicate OccursAt(sep: string, p: string, i: nat)
  {
    i + |sep| <= |p| && p[i..i + |sep|] == sep
  }

  /** `sep` occurs somewhere in `p`. */
  predicate Occurs(sep: string, p: string)
  {
    exists i: nat :: i <= |p| && OccursAt(sep, p, i)
  }

  /** The first part of a split is a prefix of the string. */
  lemma {:induction false} SplitFirstIsPrefix(s: string, sep: string)
    requires sep != ""
    ensures var first := Split(s, sep)[0];
      |first| <= |s| && s[..|first|] == first
    decreases |s|
  {
    if |s| >= |sep| && s[..|sep|] != sep {
      SplitFirstIsPrefix(s[1..], sep);
    }
  }

  /** The string is cut at every occurrence of the separator: no part holds one. */
  lemma {:induction false} SplitPartsAreFree(s: string, sep: string)
    requires sep != ""
    ensures forall k :: 0 <= k < |Split(s, sep)| ==> !Occurs(sep, Split(s, sep)[k])
    decreases |s|
  {
    var parts := Split(s, sep);
    if |s| < |sep| {
      assert parts == [s];
    } else if s[..|sep|] == sep {
      SplitPartsAreFree(s[|sep|..], sep);
      assert parts == [""] + Split(s[|sep|..], sep);
      forall k | 0 <= k < |parts| ensures !Occurs(sep, parts[k]) {
        if k > 0 {
          assert parts[k] == Split(s[|sep|..], sep)[k - 1];
        }
      }
    } else {
      var rest := Split(s[1..], sep);
      SplitPartsAreFree(s[1..], sep);
      SplitFirstIsPrefix(s[1..], sep);
      var first := [s[0]] + rest[0];
      assert parts == [first] + rest[1..];
      assert first == s[..|first|] by {
        assert s == [s[0]] + s[1..];
      }
      forall i: nat | i <= |first| ensures !OccursAt(sep, first, i) {
        if i == 0 && |sep| <= |first| {
          assert first[..|sep|] == s[..|sep|];
        } else if i > 0 && i + |sep| <= |first| {
          assert first[i..i + |sep|] == rest[0][i - 1..i - 1 + |sep|];
          assert !OccursAt(sep, rest[0], i - 1);
        }
      }
      forall k | 0 <= k < |parts| ensures !Occurs(sep, parts[k]) {
        if k > 0 {
          assert parts[k] == rest[k];
        }
      }
    }
  }

  /** `string.Join(sep, parts)`. */
  function Join(parts: seq<string>, sep: string): string
  {
    if parts == [] then ""
    else if |parts| == 1 then parts[0]
    else parts[0] + sep + Join(parts[1..], sep)
  }

  /** Joining the parts of a split with the same separator gives back the string. */
  lemma {:induction false} JoinSplit(s: string, sep: string)
    requires sep != ""
    ensures Join(Split(s, sep), sep) == s
    decreases |s|
  {
    if |s| < |sep| {
    } else if s[..|sep|] == sep {
      var tail := s[|sep|..];
      JoinSplit(tail, sep);
      var rest := Split(tail, sep);
      assert Split(s, sep) == [""] + rest;
      JoinCons("", rest, sep);
      assert s == sep + tail;
    } else {
      var rest := Split(s[1..], sep);
      JoinSplit(s[1..], sep);
      assert Split(s, sep) == [[s[0]] + rest[0]] + rest[1..];
      JoinPrepend(s[0], rest, sep);
      assert s == [s[0]] + s[1..];
    }
  }

  lemma JoinCons(x: string, parts: seq<string>, sep: string)
    requires parts != []
    ensures Join([x] + parts, sep) == x + sep + Join(parts, sep)
  {
    assert ([x] + parts)[1..] == parts;
  }

  /** Prepending a character to the first part prepends it to the join. */
  lemma JoinPrepend(c: char, parts: seq<string>, sep: string)
    requires parts != []
    ensures Join([[c] + parts[0]] + parts[1..], sep) == [c] + Join(parts, sep)
  {
    if |parts| > 1 {
      JoinCons([c] + parts[0], parts[1..], sep);
      JoinCons(parts[0], parts[1..], sep);
      assert parts == [parts[0]] + parts[1..];
    }
  }

  lemma JoinAppend(parts: seq<string>, x: string, sep: string)
    requires parts != []
    ensures Join(parts + [x], sep) == Join(parts, sep) + sep + x
  {
    if |parts| > 1 {
      assert (parts + [x])[1..] == parts[1..] + [x];
      JoinAppend(parts[1..], x, sep);
    }
  }

  lemma JoinConcat(a: seq<string>, b: seq<string>, sep: string)
    requires a != [] && b != []
    ensures Join(a + b, sep) == Join(a, sep) + sep + Join(b, sep)
  {
    if |a| > 1 {
      assert (a + b)[1..] == a[1..] + b;
      JoinConcat(a[1..], b, sep);
    }
  }

  // ----- Characters and case -----

  /** ASCII lower-casing; other characters are left as they are. */
  function LowerChar(c: char): char
  {
    if 'A' <= c <= 'Z' then (c as int + 32) as char else c
  }

  function UpperChar(c: char): char
  {
    if 'a' <= c <= 'z' then (c as int - 32) as char else c
  }

  function ToLower(s: string): (r: string)
    ensures |r| == |s|
    ensures forall i :: 0 <= i < |s| ==> r[i] == LowerChar(s[i])
  {
    seq(|s|, i requires 0 <= i < |s| => LowerChar(s[i]))
  }

  function ToUpper(s: string): (r: string)
    ensures |r| == |s|
    ensures forall i :: 0 <= i < |s| ==> r[i] == UpperChar(s[i])
  {
    seq(|s|, i requires 0 <= i < |s| => UpperChar(s[i]))
  }

  /** Lower-casing leaves no upper-case ASCII letter, keeps every other
      character, is idempotent, and forgets the case the string had. */
  lemma ToLowerSpec(s: string)
    ensures var r := ToLower(s);
      && (forall i :: 0 <= i < |r| ==> !('A' <= r[i] <= 'Z'))
      && (forall i :: 0 <= i < |s| && !('A' <= s[i] <= 'Z') ==> r[i] == s[i])
      && ToLower(r) == r
      && ToLower(ToUpper(s)) == r
  {
  }

  /** Upper-casing leaves no lower-case ASCII letter, keeps every other
      character, is idempotent, and forgets the case the string had. */
  lemma ToUpperSpec(s: string)
    ensures var r := ToUpper(s);
      && (forall i :: 0 <= i < |r| ==> !('a' <= r[i] <= 'z'))
      && (forall i :: 0 <= i < |s| && !('a' <= s[i] <= 'z') ==> r[i] == s[i])
      && ToUpper(r) == r
      && ToUpper(ToLower(s)) == r
  {
  }

  /** `s.Substring(0, n)` when the string is longer than `n`, else `s`. */
  function Truncate(s: string, n: nat): (r: string)
    ensures |r| <= n && |r| <= |s|
    ensures |s| <= n ==> r == s
  {
    if |s| > n then s[..n] else s
  }

  /** The truncation is the longest prefix of `s` of at most `n` characters. */
  lemma TruncateIsPrefix(s: string, n: nat)
    ensures var r := Truncate(s, n);
      && (forall i :: 0 <= i < |r| ==> r[i] == s[i])
      && (|s| > n ==> |r| == n)
  {
  }

  /** The length .NET reports: UTF-16 code units, two for a character
      outside the Basic Multilingual Plane. */
  function Utf16Length(s: string): (n: nat)
    ensures |s| <= n <= 2 * |s|
  {
    if s == [] then 0 else (if s[0] as int >= 0x1_0000 then 2 else 1) + Utf16Length(s[1..])
  }

  predicate InBmp(s: string)
  {
    forall i :: 0 <= i < |s| ==> (s[i] as int) < 0x1_0000
  }

  lemma {:induction false} Utf16LengthOfBmp(s: string)
    requires InBmp(s)
    ensures Utf16Length(s) == |s|
    decreases |s|
  {
    if s != [] {
      assert InBmp(s[1..]) by {
        forall i | 0 <= i < |s[1..]| ensures (s[1..][i] as int) < 0x1_0000 {
          assert s[1..][i] == s[i + 1];
        }
      }
      Utf16LengthOfBmp(s[1..]);
    }
  }

  /** Within the Basic Multilingual Plane the cut agrees with `Substring` on
      UTF-16 code units: it keeps min(n, Length) units, and changes the
      string exactly when its `Length` exceeds `n`. */
  lemma TruncateOnBmp(s: string, n: nat)
    requires InBmp(s)
    ensures var r := Truncate(s, n);
      && Utf16Length(r) == (if Utf16Length(s) > n then n else Utf16Length(s))
      && (r == s <==> Utf16Length(s) <= n)
  {
    var r := Truncate(s, n);
    Utf16LengthOfBmp(s);
    assert InBmp(r) by {
      forall i | 0 <= i < |r| ensures (r[i] as int) < 0x1_0000 {
        TruncateIsPrefix(s, n);
      }
    }
    Utf16LengthOfBmp(r);
  }

  lemma {:induction false} Utf16LengthOfAstral(s: string)
    requires forall i :: 0 <= i < |s| ==> (s[i] as int) >= 0x1_0000
    ensures Utf16Length(s) == 2 * |s|
    decreases |s|
  {
    if s != [] {
      assert forall i :: 0 <= i < |s[1..]| ==> s[1..][i] == s[i + 1];
      Utf16LengthOfAstral(s[1..]);
    }
  }

  /** Outside the plane the cut counts scalars, not code units: sixty emoji
      have `Length` 120, which `Substring(0, 100)` would cut, yet the cut at
      100 keeps them all. */
  lemma TruncateCountsScalars()
    ensures var s := seq(60, _ => '\U{1F600}');
      Utf16Length(s) == 120 && Truncate(s, 100) == s
  {
    var s := seq(60, _ => '\U{1F600}');
    Utf16LengthOfAstral(s);
  }

  /** `LastIndexOfAny`: the index of the last character in `chars`, or -1. */
  function LastIndexOf(s: string, chars: set<char>): (i: int)
    ensures -1 <= i < |s|
    ensures 0 <= i ==> s[i] in chars
  {
    if s == [] then -1
    else if s[|s| - 1] in chars then |s| - 1
    else LastIndexOf(s[..|s| - 1], chars)
  }

  /** No character after the index found is in `chars`. */
  lemma {:induction false} LastIndexOfIsLast(s: string, chars: set<char>)
    ensures forall j :: LastIndexOf(s, chars) < j < |s| ==> s[j] !in chars
    decreases |s|
  {
    if s != [] && s[|s| - 1] !in chars {
      var init := s[..|s| - 1];
      LastIndexOfIsLast(init, chars);
      forall j | LastIndexOf(s, chars) < j < |s| ensures s[j] !in chars {
        if j < |s| - 1 {
          assert s[j] == init[j];
        }
      }
    }
  }

  // ----- Integers in decimal, as `{n}` in an interpolated string -----

  predicate IsDigit(c: char) { '0' <= c <= '9' }

  function DigitChar(d: nat): (c: char)
    requires d < 10
    ensures IsDigit(c) && c as int - '0' as int == d
  {
    (d + '0' as int) as char
  }

  function NatToString(n: nat): (s: string)
    ensures s != [] && forall i :: 0 <= i < |s| ==> IsDigit(s[i])
    decreases n
  {
    if n < 10 then [DigitChar(n)] else NatToString(n / 10) + [DigitChar(n % 10)]
  }

  /** Invariant-culture rendering of an integer: optional '-', then digits. */
  function IntToString(i: int): string
  {
    if i < 0 then "-" + NatToString(-i) else NatToString(i)
  }

  function DigitValue(c: char): nat
    requires IsDigit(c)
  {
    c as int - '0' as int
  }

  function ParseNat(s: string): nat
    requires forall i :: 0 <= i < |s| ==> IsDigit(s[i])
  {
    if s == [] then 0 else ParseNat(s[..|s| - 1]) * 10 + DigitValue(s[|s| - 1])
  }

  function ParseInt(s: string): int
    requires s != []
    requires forall i :: 0 <= i < |s| ==> IsDigit(s[i]) || (i == 0 && s[i] == '-')
  {
    if s[0] == '-' then 0 - ParseNat(s[1..]) else ParseNat(s)
  }

  lemma {:induction false} ParseNatToString(n: nat)
    ensures ParseNat(NatToString(n)) == n
    decreases n
  {
    if n >= 10 {
      var s := NatToString(n);
      assert s[..|s| - 1] == NatToString(n / 10);
      ParseNatToString(n / 10);
    }
  }

  /** Integer rendering is invertible, so it is injective. */
  lemma ParseIntToString(i: int)
    ensures var s := IntToString(i);
      && s != []
      && (forall j :: 0 <= j < |s| ==> IsDigit(s[j]) || (j == 0 && s[j] == '-'))
      && ParseInt(s) == i
  {
    var s := IntToString(i);
    if i < 0 {
      assert s[1..] == NatToString(-i);
      ParseNatToString(-i);
    } else {
      ParseNatToString(i);
    }
  }

  lemma IntToStringInjective(a: int, b: int)
    requires IntToString(a) == IntToString(b)
    ensures a == b
  {
    ParseIntToString(a);
    ParseIntToString(b);
  }
}
