/** `WrapTextToFitPage`: greedy packing of " | "-separated tokens into lines
    whose measured width stays within a maximum. */
module TextWrap {
  import opened Strings
  import opened Sorting

  const Delimiter := " | "

  /** The lines still to come from `words`, given the line being built;
      this follows the loop of the source step by step. */
  function WrapFrom(words: seq<string>, measure: string -> real, maxWidth: real, current: string): seq<string>
    decreases |words|
  {
    if words == [] then (if current == "" then [] else [current])
    else
      var test := if current == "" then words[0] else current + Delimiter + words[0];
      if measure(test) <= maxWidth then WrapFrom(words[1..], measure, maxWidth, test)
      else (if current == "" then [] else [current]) + WrapFrom(words[1..], measure, maxWidth, words[0])
  }

  /** The lines `WrapTextToFitPage(text, font, gfx, maxWidth)` returns, with
      `measure` standing for `gfx.MeasureString(_, font).Width`. */
  function Wrap(text: string, measure: string -> real, maxWidth: real): seq<string>
  {
    WrapFrom(Split(text, Delimiter), measure, maxWidth, "")
  }

  method WrapTextToFitPage(text: string, measure: string -> real, maxWidth: real) returns (lines: seq<string>)
    ensures lines == Wrap(text, measure, maxWidth)
  {
    var words := Split(text, Delimiter);
    lines := [];
    var currentLine := "";
    for i := 0 to |words|
      invariant lines + WrapFrom(words[i..], measure, maxWidth, currentLine) == Wrap(text, measure, maxWidth)
    {
      var word := words[i];
      var testLine := if currentLine == "" then word else currentLine + Delimiter + word;
      WrapFromStep(words, i, measure, maxWidth, currentLine, lines, Wrap(text, measure, maxWidth));
      if measure(testLine) <= maxWidth {
        currentLine := testLine;
      } else {
        if currentLine != "" {
          lines := lines + [currentLine];
        }
        currentLine := word;
      }
    }
    assert words[|words|..] == [];
    if currentLine != "" {
      lines := lines + [currentLine];
    }
  }

  /** One pass of the loop of `WrapTextToFitPage`: the lines emitted so far
      followed by the wrap of the words left, from the line being built,
      stay the same. */
  lemma WrapFromStep(words: seq<string>, i: nat, measure: string -> real, maxWidth: real, current: string,
                     lines: seq<string>, target: seq<string>)
    requires i < |words| && lines + WrapFrom(words[i..], measure, maxWidth, current) == target
    ensures var test := if current == "" then words[i] else current + Delimiter + words[i];
      if measure(test) <= maxWidth then lines + WrapFrom(words[i + 1..], measure, maxWidth, test) == target
      else (if current == "" then lines else lines + [current]) + WrapFrom(words[i + 1..], measure, maxWidth, words[i]) == target
  {
    assert words[i..][0] == words[i] && words[i..][1..] == words[i + 1..];
    var test := if current == "" then words[i] else current + Delimiter + words[i];
    if measure(test) > maxWidth && current != "" {
      var rest := WrapFrom(words[i + 1..], measure, maxWidth, words[i]);
      assert (lines + [current]) + rest == lines + ([current] + rest);
    }
  }

  /** An empty caption gives no lines at all, whatever the measurements. */
  lemma WrapEmpty(measure: string -> real, maxWidth: real)
    ensures Wrap("", measure, maxWidth) == []
  {
    assert Split("", Delimiter) == [""];
    assert [""][1..] == [];
  }

  // ----- The same packing on groups of tokens -----

  predicate NoEmptyTokens(words: seq<string>)
  {
    forall i :: 0 <= i < |words| ==> words[i] != ""
  }

  /** A line is acceptable when it fits or holds a single token. */
  predicate Acceptable(group: seq<string>, measure: string -> real, maxWidth: real)
  {
    |group| == 1 || measure(Join(group, Delimiter)) <= maxWidth
  }

  /** The tokens that make up each line, under the same greedy rule. */
  function Groups(words: seq<string>, measure: string -> real, maxWidth: real, current: seq<string>): seq<seq<string>>
    decreases |words|
  {
    if words == [] then (if current == [] then [] else [current])
    else
      var test := current + [words[0]];
      if measure(Join(test, Delimiter)) <= maxWidth then Groups(words[1..], measure, maxWidth, test)
      else (if current == [] then [] else [current]) + Groups(words[1..], measure, maxWidth, [words[0]])
  }

  function JoinEach(groups: seq<seq<string>>): (lines: seq<string>)
    ensures |lines| == |groups|
    ensures forall i :: 0 <= i < |groups| ==> lines[i] == Join(groups[i], Delimiter)
  {
    if groups == [] then [] else [Join(groups[0], Delimiter)] + JoinEach(groups[1..])
  }

  lemma {:induction false} JoinNonEmpty(parts: seq<string>)
    requires parts != [] && NoEmptyTokens(parts)
    ensures Join(parts, Delimiter) != ""
  {
    if |parts| > 1 {
      assert Join(parts, Delimiter)[0] == parts[0][0];
    }
  }

  /** On tokens that are never empty, the string loop builds exactly the
      joins of the groups. */
  lemma {:induction false} WrapFromIsJoinedGroups(words: seq<string>, measure: string -> real, maxWidth: real, current: seq<string>)
    requires NoEmptyTokens(words) && NoEmptyTokens(current)
    ensures WrapFrom(words, measure, maxWidth, Join(current, Delimiter))
         == JoinEach(Groups(words, measure, maxWidth, current))
    decreases |words|
  {
    var line := Join(current, Delimiter);
    if current != [] {
      JoinNonEmpty(current);
    }
    if words != [] {
      var test := current + [words[0]];
      if current != [] {
        JoinAppend(current, words[0], Delimiter);
      }
      assert Join(test, Delimiter) == if line == "" then words[0] else line + Delimiter + words[0];
      WrapFromIsJoinedGroups(words[1..], measure, maxWidth, test);
      WrapFromIsJoinedGroups(words[1..], measure, maxWidth, [words[0]]);
      var rest := Groups(words[1..], measure, maxWidth, [words[0]]);
      if current != [] {
        assert JoinEach([current] + rest) == [line] + JoinEach(rest);
      }
    }
  }

  /** What the greedy grouping guarantees: every token lands, in order, in
      exactly one non-empty group; each group fits or is a single token; and
      each group but the last would overflow with the next group's first token. */
  lemma {:induction false} GroupsSpec(words: seq<string>, measure: string -> real, maxWidth: real, current: seq<string>)
    requires current == [] || Acceptable(current, measure, maxWidth)
    ensures var g := Groups(words, measure, maxWidth, current);
      && Flatten(g) == current + words
      && (forall i :: 0 <= i < |g| ==> g[i] != [] && Acceptable(g[i], measure, maxWidth))
      && (forall i :: 0 <= i < |g| - 1 ==> measure(Join(g[i] + [g[i + 1][0]], Delimiter)) > maxWidth)
      && (current != [] ==> g != [] && |current| <= |g[0]| && g[0][..|current|] == current)
      && (current == [] && words != [] ==> g != [] && g[0][0] == words[0])
    decreases |words|
  {
    var g := Groups(words, measure, maxWidth, current);
    if words == [] {
      if current != [] {
        assert Flatten(g) == current + Flatten([]);
      }
    } else {
      var test := current + [words[0]];
      assert current + words == test + words[1..];
      if measure(Join(test, Delimiter)) <= maxWidth {
        GroupsSpec(words[1..], measure, maxWidth, test);
        if current != [] {
          assert g[0][..|test|] == test;
          assert test[..|current|] == current;
        }
      } else {
        var rest := Groups(words[1..], measure, maxWidth, [words[0]]);
        GroupsSpec(words[1..], measure, maxWidth, [words[0]]);
        assert [words[0]] + words[1..] == words;
        if current != [] {
          assert g == [current] + rest;
          assert g[1..] == rest;
          assert rest[0][0] == words[0] by { assert rest[0][..1] == [words[0]]; }
          assert Flatten(g) == current + Flatten(rest);
          forall i | 0 <= i < |g| - 1
            ensures measure(Join(g[i] + [g[i + 1][0]], Delimiter)) > maxWidth
          {
            if i > 0 {
              assert g[i] == rest[i - 1] && g[i + 1] == rest[i];
            }
          }
        } else {
          assert g == rest;
          assert rest[0][0] == words[0] by { assert rest[0][..1] == [words[0]]; }
        }
      }
    }
  }

  lemma {:induction false} JoinFlatten(groups: seq<seq<string>>)
    requires forall i :: 0 <= i < |groups| ==> groups[i] != []
    ensures Join(JoinEach(groups), Delimiter) == Join(Flatten(groups), Delimiter)
    decreases |groups|
  {
    if |groups| > 1 {
      JoinFlatten(groups[1..]);
      var rest := Flatten(groups[1..]);
      assert rest != [] by { assert rest[..|groups[1]|] == groups[1]; }
      JoinConcat(groups[0], rest, Delimiter);
      assert JoinEach(groups)[1..] == JoinEach(groups[1..]);
    } else if |groups| == 1 {
      assert Flatten(groups) == groups[0] + Flatten(groups[1..]);
      assert groups[1..] == [];
      assert Flatten(groups) == groups[0];
      assert JoinEach(groups) == [Join(groups[0], Delimiter)];
    }
  }

  /** The properties of the lines of a caption whose tokens are never empty:
      no token is split, the lines joined with the delimiter give back the
      caption, every line fits or is one overwide token, and the packing is
      greedy. */
  lemma WrapSpec(text: string, measure: string -> real, maxWidth: real)
    requires NoEmptyTokens(Split(text, Delimiter))
    ensures var words := Split(text, Delimiter);
      var groups := Groups(words, measure, maxWidth, []);
      var lines := Wrap(text, measure, maxWidth);
      && lines == JoinEach(groups)
      && Flatten(groups) == words
      && Join(lines, Delimiter) == text
      && (forall i :: 0 <= i < |lines| ==> groups[i] != [] && (measure(lines[i]) <= maxWidth || |groups[i]| == 1))
      && (forall i :: 0 <= i < |lines| - 1 ==> measure(lines[i] + Delimiter + groups[i + 1][0]) > maxWidth)
  {
    var words := Split(text, Delimiter);
    var groups := Groups(words, measure, maxWidth, []);
    WrapFromIsJoinedGroups(words, measure, maxWidth, []);
    GroupsSpec(words, measure, maxWidth, []);
    JoinFlatten(groups);
    JoinSplit(text, Delimiter);
    forall i | 0 <= i < |groups| - 1
      ensures measure(Join(groups[i], Delimiter) + Delimiter + groups[i + 1][0]) > maxWidth
    {
      JoinAppend(groups[i], groups[i + 1][0], Delimiter);
    }
  }
}
