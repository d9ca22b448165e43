/** The string operations of the CONNECT parser, with the splitting and joining laws it rests on. */
module Text {

  // `s.split(sep)`
  function Split(s: string, sep: char): (parts: seq<string>)
    ensures |parts| >= 1
  {
    if s == "" then [""]
    else
      var rest := Split(s[1..], sep);
      if s[0] == sep then [""] + rest else [[s[0]] + rest[0]] + rest[1..]
  }

  function Count(s: string, c: char): nat {
    if s == "" then 0 else (if s[0] == c then 1 else 0) + Count(s[1..], c)
  }

  // `s.split("\r\n")`
  function Lines(s: string): (lines: seq<string>)
    ensures |lines| >= 1
  {
    if s == "" then [""]
    else if |s| >= 2 && s[0] == '\r' && s[1] == '\n' then [""] + Lines(s[2..])
    else
      var rest := Lines(s[1..]);
      [[s[0]] + rest[0]] + rest[1..]
  }

  // `sep.join(parts)`
  function Join(parts: seq<string>, sep: string): string
    requires |parts| >= 1
  {
    if |parts| == 1 then parts[0] else parts[0] + sep + Join(parts[1..], sep)
  }

  function Lower(s: string): (r: string)
    ensures |r| == |s|
  {
    seq(|s|, i requires 0 <= i < |s| => LowerChar(s[i]))
  }

  function LowerChar(c: char): char {
    if 'A' <= c <= 'Z' then (c as int + 32) as char else c
  }

  // `s.rstrip(".")`
  function StripDots(s: string): (r: string)
    ensures r <= s && (r == "" || r[|r| - 1] != '.')
    ensures forall i | |r| <= i < |s| :: s[i] == '.'
  {
    if s != "" && s[|s| - 1] == '.' then StripDots(s[..|s| - 1]) else s
  }

  predicate Space(c: char) {
    c == ' ' || 9 as char <= c <= 13 as char
  }

  // `s.strip()` on bytes
  function Strip(s: string): (r: string) {
    if s != "" && Space(s[0]) then Strip(s[1..])
    else if s != "" && Space(s[|s| - 1]) then Strip(s[..|s| - 1])
    else s
  }

  const UPPER := "ABCDEFGHIJKLMNOPQRSTUVWXYZ"
  const LOWER := "abcdefghijklmnopqrstuvwxyz"

  // Letters go to their small ones, everything else to itself, each in its place.
  lemma LowerIs(s: string, k: nat, i: nat)
    requires k < |s| && i < 26
    ensures s[k] == UPPER[i] || s[k] == LOWER[i] ==> Lower(s)[k] == LOWER[i]
    ensures s[k] < 'A' || s[k] > 'Z' ==> Lower(s)[k] == s[k]
  {}

  // Blank, tab, line feed, vertical tab, form feed, carriage return
  lemma SpaceIs(c: char)
    ensures Space(c) <==> c in " \t\n\U{0B}\U{0C}\r"
  {}

  predicate Spaces(s: string) {
    forall i | 0 <= i < |s| :: Space(s[i])
  }

  predicate Trimmed(s: string) {
    s != "" ==> !Space(s[0]) && !Space(s[|s| - 1])
  }

  // What is stripped is white space at the ends, all of it, and nothing else.
  lemma {:induction false} StripTrims(s: string) returns (front: string, back: string)
    ensures s == front + Strip(s) + back && Spaces(front) && Spaces(back) && Trimmed(Strip(s))
    decreases |s|
  {
    front, back := "", "";
    if s != "" && Space(s[0]) {
      front, back := StripTrims(s[1..]);
      front := [s[0]] + front;
    } else if s != "" && Space(s[|s| - 1]) {
      front, back := StripTrims(s[..|s| - 1]);
      back := back + [s[|s| - 1]];
    }
  }

  lemma {:induction false} StripIsUnique(front: string, core: string, back: string)
    requires Spaces(front) && Spaces(back) && Trimmed(core)
    ensures Strip(front + core + back) == core
    decreases |front| + |back|
  {
    var s := front + core + back;
    if front != "" {
      assert s[1..] == front[1..] + core + back;
      StripIsUnique(front[1..], core, back);
    } else if core == "" {
      if back != "" {
        assert s[1..] == "" + core + back[1..];
        StripIsUnique("", core, back[1..]);
      }
    } else if back != "" {
      assert s[..|s| - 1] == "" + core + back[..|back| - 1];
      StripIsUnique("", core, back[..|back| - 1]);
    } else {
      assert s == core;
    }
  }

  predicate Ascii(s: string) {
    forall i | 0 <= i < |s| :: s[i] < 128 as char
  }

  // ----- splitting on one character ------------------------------------------------------------------

  lemma {:induction false} SplitSize(s: string, sep: char)
    ensures |Split(s, sep)| == Count(s, sep) + 1
  {
    if s != "" {
      SplitSize(s[1..], sep);
    }
  }

  lemma {:induction false} SplitHasNone(s: string, sep: char)
    ensures forall i | 0 <= i < |Split(s, sep)| :: sep !in Split(s, sep)[i]
  {
    if s != "" {
      SplitHasNone(s[1..], sep);
      var rest := Split(s[1..], sep);
      forall i | 0 <= i < |Split(s, sep)| ensures sep !in Split(s, sep)[i] {
        if s[0] == sep {
          assert i > 0 ==> Split(s, sep)[i] == rest[i - 1];
        } else if i > 0 {
          assert Split(s, sep)[i] == rest[i];
        }
      }
    }
  }

  lemma {:induction false} SplitNone(s: string, sep: char)
    requires sep !in s
    ensures Split(s, sep) == [s]
  {
    if s != "" {
      SplitNone(s[1..], sep);
      assert s == [s[0]] + s[1..];
    }
  }

  lemma {:induction false} SplitFirst(s: string, sep: char, rest: string)
    requires sep !in s
    ensures Split(s + [sep] + rest, sep) == [s] + Split(rest, sep)
  {
    var t := s + [sep] + rest;
    if s == "" {
      assert t[1..] == rest;
    } else {
      assert t[1..] == s[1..] + [sep] + rest;
      SplitFirst(s[1..], sep, rest);
      assert s == [s[0]] + s[1..];
    }
  }

  // Text in front of the first part stays in front of the joined text.
  lemma JoinPrepend(head: string, parts: seq<string>, sep: string)
    requires |parts| >= 1
    ensures Join([head + parts[0]] + parts[1..], sep) == head + Join(parts, sep)
  {}

  lemma {:induction false} SplitOfJoin(parts: seq<string>, sep: char)
    requires |parts| >= 1 && forall i | 0 <= i < |parts| :: sep !in parts[i]
    ensures Split(Join(parts, [sep]), sep) == parts
  {
    if |parts| == 1 {
      SplitNone(parts[0], sep);
    } else {
      SplitOfJoin(parts[1..], sep);
      SplitFirst(parts[0], sep, Join(parts[1..], [sep]));
    }
  }

  lemma {:induction false} JoinOfSplit(s: string, sep: char)
    ensures Join(Split(s, sep), [sep]) == s
  {
    if s != "" {
      var rest := Split(s[1..], sep);
      JoinOfSplit(s[1..], sep);
      assert s == [s[0]] + s[1..];
      if s[0] == sep {
        assert ([""] + rest)[1..] == rest;
      } else {
        JoinPrepend([s[0]], rest, [sep]);
      }
    }
  }

  lemma SplitThree(s: string, sep: char)
    requires |Split(s, sep)| == 3
    ensures var p := Split(s, sep); s == p[0] + [sep] + (p[1] + [sep] + p[2])
  {
    JoinOfSplit(s, sep);
    var p := Split(s, sep);
    assert Join(p[2..], [sep]) == p[2];
    assert p[1..][1..] == p[2..];
    assert Join(p[1..], [sep]) == p[1] + [sep] + p[2];
  }

  // ----- lines ---------------------------------------------------------------------------------------

  lemma {:induction false} JoinOfLines(s: string)
    ensures Join(Lines(s), "\r\n") == s
  {
    if s == "" {
    } else if |s| >= 2 && s[0] == '\r' && s[1] == '\n' {
      JoinOfLines(s[2..]);
      assert Lines(s)[1..] == Lines(s[2..]);
      assert s == "\r\n" + s[2..];
    } else {
      JoinOfLines(s[1..]);
      JoinPrepend([s[0]], Lines(s[1..]), "\r\n");
      assert s == [s[0]] + s[1..];
    }
  }

  lemma {:induction false} LinesFirst(line: string, rest: string)
    requires '\r' !in line
    ensures Lines(line + "\r\n" + rest) == [line] + Lines(rest)
  {
    var t := line + "\r\n" + rest;
    if line == "" {
      assert t[2..] == rest;
    } else {
      assert t[1..] == line[1..] + "\r\n" + rest;
      LinesFirst(line[1..], rest);
      assert line == [line[0]] + line[1..];
    }
  }

  lemma {:induction false} LinesNone(line: string)
    requires '\r' !in line
    ensures Lines(line) == [line]
  {
    if line != "" {
      LinesNone(line[1..]);
      assert line == [line[0]] + line[1..];
    }
  }

  lemma {:induction false} LinesOfJoin(lines: seq<string>)
    requires |lines| >= 1 && forall i | 0 <= i < |lines| :: '\r' !in lines[i]
    ensures Lines(Join(lines, "\r\n")) == lines
  {
    if |lines| == 1 {
      LinesNone(lines[0]);
    } else {
      LinesOfJoin(lines[1..]);
      LinesFirst(lines[0], Join(lines[1..], "\r\n"));
    }
  }
}
