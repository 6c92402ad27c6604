/** `TextFormatHelper.FormatFileSize`: a byte count in the largest of KB, MB
    and GB that it reaches, with the exact count in parentheses. */
module TextFormatHelper {
  import opened Wrappers
  import opened Strings

  datatype Unit = KB | MB | GB

  function Size(u: Unit): int
  {
    match u
    case KB => 1024
    case MB => 1024 * 1024
    case GB => 1024 * 1024 * 1024
  }

  function Name(u: Unit): string
  {
    match u
    case KB => "KB"
    case MB => "MB"
    case GB => "GB"
  }

  /** `u` is the unit a count of `bytes` is shown in: the count reaches it and,
      below GB, does not reach the next one. */
  predicate Fits(bytes: int, u: Unit)
  {
    Size(u) <= bytes && (u == GB || bytes < 1024 * Size(u))
  }

  /** Exactly one unit fits a count of at least 1024, and none fits a smaller one. */
  lemma FitsUnique(bytes: int, u: Unit, v: Unit)
    requires Fits(bytes, u) && Fits(bytes, v)
    ensures u == v && bytes >= 1024
  {
  }

  /** `figure(bytes, size)` stands for `{bytes / (double)size:0.##}`. */
  function Scaled(bytes: int, u: Unit, figure: (int, int) -> string): string
  {
    figure(bytes, Size(u)) + " " + Name(u) + " (" + IntToString(bytes) + " bytes)"
  }

  function FormatFileSize(bytes: int, figure: (int, int) -> string): string
  {
    if bytes >= Size(GB) then Scaled(bytes, GB, figure)
    else if bytes >= Size(MB) then Scaled(bytes, MB, figure)
    else if bytes >= Size(KB) then Scaled(bytes, KB, figure)
    else IntToString(bytes) + " Bytes"
  }

  /** Below 1024 the count is shown in bytes; from 1024 on it is scaled to
      the one unit that fits it. */
  lemma FormatFileSizeUnit(bytes: int, figure: (int, int) -> string)
    ensures bytes < 1024 ==> FormatFileSize(bytes, figure) == IntToString(bytes) + " Bytes"
    ensures bytes >= 1024 ==> exists u :: Fits(bytes, u) && FormatFileSize(bytes, figure) == Scaled(bytes, u, figure)
  {
    if bytes >= Size(GB) {
      assert Fits(bytes, GB);
    } else if bytes >= Size(MB) {
      assert Fits(bytes, MB);
    } else if bytes >= Size(KB) {
      assert Fits(bytes, KB);
    }
  }

  // ----- Reading the exact count back -----

  predicate EndsWith(s: string, suffix: string)
  {
    |suffix| <= |s| && s[|s| - |suffix|..] == suffix
  }

  predicate IsInteger(s: string)
  {
    s != [] && forall i :: 0 <= i < |s| ==> IsDigit(s[i]) || (i == 0 && s[i] == '-')
  }

  /** The byte count a formatted size carries: the integer before " Bytes",
      or the one between the last '(' and " bytes)". */
  function ByteCount(s: string): Option<int>
  {
    if EndsWith(s, " bytes)") then
      var open := LastIndexOf(s, {'('});
      if 0 <= open && open + 1 <= |s| - 7 && IsInteger(s[open + 1..|s| - 7])
      then Some(ParseInt(s[open + 1..|s| - 7])) else None
    else if EndsWith(s, " Bytes") && IsInteger(s[..|s| - 6]) then Some(ParseInt(s[..|s| - 6]))
    else None
  }

  /** The integer between the last '(' and " bytes)" of a scaled size. */
  lemma ByteCountOfScaled(bytes: int, u: Unit, figure: (int, int) -> string)
    ensures ByteCount(Scaled(bytes, u, figure)) == Some(bytes)
  {
    var r := Scaled(bytes, u, figure);
    var digits := IntToString(bytes);
    ParseIntToString(bytes);
    var head := figure(bytes, Size(u)) + " " + Name(u) + " (";
    var tail := " bytes)";
    assert r == head + digits + tail;
    assert r[|r| - 7..] == tail;
    var open := LastIndexOf(r, {'('});
    assert r[|head| - 1] == '(';
    forall j | |head| <= j < |r| ensures r[j] != '(' {
      if j < |head| + |digits| {
        assert r[j] == digits[j - |head|];
      } else {
        assert r[j] == tail[j - |head| - |digits|];
      }
    }
    LastIndexOfIsLast(r, {'('});
    assert open == |head| - 1;
    assert r[open + 1..|r| - 7] == digits;
  }

  /** The integer before " Bytes" of an unscaled size. */
  lemma ByteCountOfUnscaled(bytes: int)
    ensures ByteCount(IntToString(bytes) + " Bytes") == Some(bytes)
  {
    var digits := IntToString(bytes);
    var r := digits + " Bytes";
    ParseIntToString(bytes);
    assert r[|r| - 7..] != " bytes)" by {
      assert r[|r| - 1] == 's';
    }
    assert r[|r| - 6..] == " Bytes";
    assert r[..|r| - 6] == digits;
  }

  /** Every formatted size carries its exact input count, whatever the figure. */
  lemma ByteCountOfFormat(bytes: int, figure: (int, int) -> string)
    ensures ByteCount(FormatFileSize(bytes, figure)) == Some(bytes)
  {
    FormatFileSizeUnit(bytes, figure);
    if bytes >= 1024 {
      var u :| Fits(bytes, u) && FormatFileSize(bytes, figure) == Scaled(bytes, u, figure);
      ByteCountOfScaled(bytes, u, figure);
    } else {
      ByteCountOfUnscaled(bytes);
    }
  }
}
