/**
 * The string operations the recipe list relies on: lower-casing and substring
 * search for the title search box, and the newline split / join that turns the
 * multi-line ingredient and step text areas into lists and back.
 */
module Text {
  import opened Seqs

  const NewLine: char := '\n'

  predicate IsUpper(c: char) { 'A' <= c <= 'Z' }

  /** `toLowerCase` on one character, restricted to ASCII letters. */
  function LowerChar(c: char): (r: char)
    ensures !IsUpper(r)
    ensures !IsUpper(c) ==> r == c
    ensures IsUpper(c) ==> r as int - c as int == 'a' as int - 'A' as int
  {
    if IsUpper(c) then (c as int - 'A' as int + 'a' as int) as char else c
  }

  /** `toLowerCase` on a string: same length, no upper-case letter left. */
  function Lower(s: string): (r: string)
    ensures |r| == |s|
    ensures forall i :: 0 <= i < |r| ==> !IsUpper(r[i]) && r[i] == LowerChar(s[i])
  {
    seq(|s|, i requires 0 <= i < |s| => LowerChar(s[i]))
  }

  /** Lower-casing twice is lower-casing once. */
  lemma LowerIdempotent(s: string)
    ensures Lower(Lower(s)) == Lower(s)
  {
  }

  /** `s.includes(t)`: `t` is a prefix of `s` or of one of its suffixes. */
  function Includes(s: string, t: string): (found: bool)
    ensures t <= s ==> found
    ensures found ==> |t| <= |s|
    decreases |s|
  {
    t <= s || (s != [] && Includes(s[1..], t))
  }

  /** `t` occurs in `s` starting at index `i`. */
  ghost predicate OccursAt(s: string, t: string, i: int)
  {
    0 <= i && i + |t| <= |s| && s[i..i + |t|] == t
  }

  lemma {:induction false} IncludesFound(s: string, t: string) returns (i: int)
    requires Includes(s, t)
    ensures OccursAt(s, t, i)
    decreases |s|
  {
    if t <= s {
      i := 0;
      assert s[..|t|] == t;
    } else {
      var j := IncludesFound(s[1..], t);
      assert s[1..][j..j + |t|] == s[j + 1..j + 1 + |t|];
      i := j + 1;
    }
  }

  lemma {:induction false} OccursIncluded(s: string, t: string, i: int)
    requires OccursAt(s, t, i)
    ensures Includes(s, t)
    decreases i
  {
    if i == 0 {
      assert s[..|t|] == t;
    } else {
      assert s[1..][i - 1..i - 1 + |t|] == s[i..i + |t|];
      OccursIncluded(s[1..], t, i - 1);
    }
  }

  /** `Includes` is exactly "occurs at some index". */
  lemma IncludesIff(s: string, t: string)
    ensures Includes(s, t) <==> exists i :: OccursAt(s, t, i)
  {
    if Includes(s, t) {
      var i := IncludesFound(s, t);
    }
    if i :| OccursAt(s, t, i) {
      OccursIncluded(s, t, i);
    }
  }

  /** Every string includes the empty string, so an empty search matches everything. */
  lemma IncludesEmpty(s: string)
    ensures Includes(s, "")
  {
  }

  /** `s.split("\n")`: the pieces between newlines; there is always at least one. */
  function Split(s: string): (pieces: seq<string>)
    ensures |pieces| >= 1
    ensures forall i :: 0 <= i < |pieces| ==> NewLine !in pieces[i]
    decreases |s|
  {
    if s == [] then [""]
    else
      var rest := Split(s[1..]);
      if s[0] == NewLine then [""] + rest
      else [[s[0]] + rest[0]] + rest[1..]
  }

  /** `lines.join("\n")`. */
  function Join(lines: seq<string>): (s: string)
    ensures lines == [] ==> s == ""
    ensures lines != [] ==> lines[0] <= s
    ensures |lines| > 1 ==> NewLine in s
  {
    if |lines| == 0 then ""
    else if |lines| == 1 then lines[0]
    else lines[0] + [NewLine] + Join(lines[1..])
  }

  /** Joining the pieces of a split gives back the text. */
  lemma {:induction false} JoinSplit(s: string)
    ensures Join(Split(s)) == s
    decreases |s|
  {
    if s != [] {
      var rest := Split(s[1..]);
      JoinSplit(s[1..]);
      if s[0] != NewLine && |rest| > 1 {
        var pieces := Split(s);
        assert pieces[1..] == rest[1..];
        assert Join(rest) == rest[0] + [NewLine] + Join(rest[1..]);
        assert s == [s[0]] + s[1..];
      }
    }
  }

  /** Splitting at a newline splits the two sides independently. */
  lemma {:induction false} SplitAtNewLine(a: string, b: string)
    ensures Split(a + [NewLine] + b) == Split(a) + Split(b)
    decreases |a|
  {
    var s := a + [NewLine] + b;
    if a == [] {
      assert s[1..] == b;
    } else {
      assert s[1..] == a[1..] + [NewLine] + b;
      SplitAtNewLine(a[1..], b);
    }
  }

  /** A text without a newline splits into itself alone. */
  lemma {:induction false} SplitSingleLine(line: string)
    requires NewLine !in line
    ensures Split(line) == [line]
    decreases |line|
  {
    if line != [] {
      SplitSingleLine(line[1..]);
      assert line == [line[0]] + line[1..];
    }
  }

  /** Splitting a join of newline-free lines gives back the lines. */
  lemma {:induction false} SplitJoin(lines: seq<string>)
    requires |lines| >= 1
    requires forall i :: 0 <= i < |lines| ==> NewLine !in lines[i]
    ensures Split(Join(lines)) == lines
    decreases |lines|
  {
    SplitSingleLine(lines[0]);
    if |lines| > 1 {
      SplitAtNewLine(lines[0], Join(lines[1..]));
      SplitJoin(lines[1..]);
    }
  }

  /** JavaScript's `Boolean(line)` on a string: false only for the empty string. */
  predicate IsNonEmpty(line: string) { line != "" }

  /** `text.split("\n").filter(Boolean)`: the non-empty lines of a text area. */
  function SplitLines(text: string): (lines: seq<string>)
    ensures forall i :: 0 <= i < |lines| ==> lines[i] != "" && NewLine !in lines[i]
  {
    Filter(Split(text), IsNonEmpty)
  }

  /**
   * Exactly the empty pieces are dropped: any non-empty piece of the split,
   * first and last lines and whitespace-only lines included, is kept.
   */
  lemma SplitLinesMembers(text: string, line: string)
    ensures line in SplitLines(text) <==> line != "" && line in Split(text)
  {
    var pieces := Split(text);
    var lines := SplitLines(text);
    if line in lines {
      var k :| 0 <= k < |lines| && lines[k] == line;
    }
    if line != "" && line in pieces {
      var k :| 0 <= k < |pieces| && pieces[k] == line;
    }
  }

  /**
   * Only empty lines are dropped: a line between two newlines survives whenever
   * it has at least one character, so whitespace-only lines such as " " are kept.
   */
  lemma KeepsNonEmptyLine(before: string, line: string, after: string)
    requires line != "" && NewLine !in line
    ensures line in SplitLines(before + [NewLine] + line + [NewLine] + after)
  {
    var text := before + [NewLine] + line + [NewLine] + after;
    assert text == before + [NewLine] + (line + [NewLine] + after);
    SplitAtNewLine(before, line + [NewLine] + after);
    SplitAtNewLine(line, after);
    SplitSingleLine(line);
    var pieces := Split(text);
    assert pieces[|Split(before)|] == line;
  }

  /**
   * The edit form round trip: lines shown joined by newlines and read back with
   * split and `filter(Boolean)` are the original lines, provided none is empty
   * or holds a newline.
   */
  lemma EditRoundTrip(lines: seq<string>)
    requires forall i :: 0 <= i < |lines| ==> lines[i] != "" && NewLine !in lines[i]
    ensures SplitLines(Join(lines)) == lines
  {
    if lines == [] {
      assert Split("") == [""];
    } else {
      SplitJoin(lines);
      FilterKeepsAll(lines, IsNonEmpty);
    }
  }

  /** Saving an edit form without touching it leaves already-split lines unchanged. */
  lemma EditRoundTripStable(text: string)
    ensures SplitLines(Join(SplitLines(text))) == SplitLines(text)
  {
    EditRoundTrip(SplitLines(text));
  }
}
