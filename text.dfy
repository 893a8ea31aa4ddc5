/**
 * The two pieces of Go's standard library that the collector uses to cut text:
 * `strings.Split` with a one-character separator, and a `bufio.Scanner` with
 * the default line splitter (`bufio.ScanLines`), which yields the lines of a
 * payload without their terminating newline and drops an empty final segment.
 */
module Text {

  /** Number of occurrences of `c` in `s`. */
  function Count(s: string, c: char): nat
  {
    if s == [] then 0 else (if s[0] == c then 1 else 0) + Count(s[1..], c)
  }

  /**
   * `strings.Split(s, string(sep))`: the maximal pieces of `s` between
   * separators. The empty string splits into one empty piece, so the result
   * is never empty.
   */
  function Split(s: string, sep: char): (parts: seq<string>)
    ensures |parts| >= 1
    decreases |s|
  {
    if s == [] then [[]]
    else
      var rest := Split(s[1..], sep);
      if s[0] == sep then [[]] + rest
      else [[s[0]] + rest[0]] + rest[1..]
  }

  /** `strings.Join(parts, string(sep))`, defined for the non-empty lists `Split` yields. */
  function Join(parts: seq<string>, sep: char): string
    requires |parts| >= 1
  {
    if |parts| == 1 then parts[0] else parts[0] + [sep] + Join(parts[1..], sep)
  }

  /** No piece of a split contains the separator. */
  lemma {:induction false} SplitPiecesFree(s: string, sep: char)
    ensures forall i :: 0 <= i < |Split(s, sep)| ==> sep !in Split(s, sep)[i]
    decreases |s|
  {
    if s != [] {
      SplitPiecesFree(s[1..], sep);
    }
  }

  /** A string splits into one more piece than it has separators. */
  lemma {:induction false} SplitCount(s: string, sep: char)
    ensures |Split(s, sep)| == Count(s, sep) + 1
    decreases |s|
  {
    if s != [] {
      SplitCount(s[1..], sep);
    }
  }

  /** Joining the pieces of a split with the same separator gives the string back. */
  lemma {:induction false} SplitThenJoin(s: string, sep: char)
    ensures Join(Split(s, sep), sep) == s
    decreases |s|
  {
    if s != [] {
      var rest := Split(s[1..], sep);
      SplitThenJoin(s[1..], sep);
      if s[0] == sep {
        assert Split(s, sep)[1..] == rest;
      } else {
        var parts := Split(s, sep);
        assert parts[1..] == rest[1..];
        if |rest| == 1 {
          assert Join(parts, sep) == [s[0]] + rest[0];
        } else {
          assert Join(parts, sep) == [s[0]] + (rest[0] + [sep] + Join(rest[1..], sep));
        }
      }
    }
  }

  /** Splitting a join of separator-free pieces gives the pieces back. */
  lemma {:induction false} JoinThenSplit(parts: seq<string>, sep: char)
    requires |parts| >= 1
    requires forall i :: 0 <= i < |parts| ==> sep !in parts[i]
    ensures Split(Join(parts, sep), sep) == parts
    decreases |parts|, |parts[0]|
  {
    if parts[0] == [] {
      if |parts| > 1 {
        JoinThenSplit(parts[1..], sep);
        assert Join(parts, sep) == [sep] + Join(parts[1..], sep);
      }
    } else {
      var p := parts[0];
      var shorter := [p[1..]] + parts[1..];
      assert shorter[1..] == parts[1..];
      assert forall i :: 0 <= i < |shorter| ==> sep !in shorter[i] by {
        forall i | 0 <= i < |shorter| ensures sep !in shorter[i] {
          if i == 0 {
            assert forall j :: 0 <= j < |p[1..]| ==> p[1..][j] == p[j + 1];
          } else {
            assert shorter[i] == parts[i];
          }
        }
      }
      JoinThenSplit(shorter, sep);
      var j := Join(parts, sep);
      assert j == [p[0]] + Join(shorter, sep);
      assert j[1..] == Join(shorter, sep);
      assert p[0] != sep by { assert p[0] == parts[0][0]; }
      assert [p[0]] + p[1..] == p;
    }
  }

  /** A string without the separator is one piece. */
  lemma {:induction false} SplitWithout(s: string, sep: char)
    requires sep !in s
    ensures Split(s, sep) == [s]
    decreases |s|
  {
    if s != [] {
      SplitWithout(s[1..], sep);
      assert [s[0]] + s[1..] == s;
    }
  }

  /** Splitting at a separator splits each side separately. */
  lemma {:induction false} SplitAppend(a: string, b: string, sep: char)
    ensures Split(a + [sep] + b, sep) == Split(a, sep) + Split(b, sep)
    decreases |a|
  {
    var s := a + [sep] + b;
    if a == [] {
      assert s[1..] == b;
    } else {
      assert s[1..] == a[1..] + [sep] + b;
      SplitAppend(a[1..], b, sep);
    }
  }

  /** A string has exactly two pieces exactly when it holds exactly one separator. */
  lemma TwoPieces(s: string, sep: char)
    ensures |Split(s, sep)| == 2 <==> Count(s, sep) == 1
    ensures |Split(s, sep)| == 2 ==> s == Split(s, sep)[0] + [sep] + Split(s, sep)[1]
  {
    SplitCount(s, sep);
    SplitThenJoin(s, sep);
    var parts := Split(s, sep);
    if |parts| == 2 {
      assert Join(parts[1..], sep) == parts[1];
    }
  }

  /** The lines of a payload as `bufio.ScanLines` yields them, without carriage-return handling. */
  function Lines(s: string): (lines: seq<string>)
    ensures forall i :: 0 <= i < |lines| ==> '\n' !in lines[i]
  {
    if s == [] then []
    else
      SplitPiecesFree(s, '\n');
      var parts := Split(s, '\n');
      if parts[|parts| - 1] == [] then parts[..|parts| - 1] else parts
  }

  /** The text of a list of lines, each followed by a newline. */
  function Terminated(lines: seq<string>): string
  {
    if lines == [] then [] else lines[0] + "\n" + Terminated(lines[1..])
  }

  lemma {:induction false} TerminatedIsJoin(lines: seq<string>)
    requires |lines| >= 1
    ensures Terminated(lines) == Join(lines, '\n') + "\n"
    decreases |lines|
  {
    if |lines| > 1 {
      TerminatedIsJoin(lines[1..]);
    }
  }

  lemma {:induction false} JoinSnoc(parts: seq<string>, last: string, sep: char)
    requires |parts| >= 1
    ensures Join(parts + [last], sep) == Join(parts, sep) + [sep] + last
    decreases |parts|
  {
    assert (parts + [last])[1..] == parts[1..] + [last];
    if |parts| > 1 {
      JoinSnoc(parts[1..], last, sep);
    }
  }

  /**
   * Scanning loses nothing but the final newline: the lines, each put back
   * with its newline, spell the payload (with a newline added when the
   * payload did not end in one), and no line holds a newline.
   */
  lemma LinesRoundTrip(s: string)
    ensures Terminated(Lines(s)) == if s == [] || s[|s| - 1] == '\n' then s else s + "\n"
    ensures forall i :: 0 <= i < |Lines(s)| ==> '\n' !in Lines(s)[i]
  {
    if s != [] {
      var parts := Split(s, '\n');
      SplitThenJoin(s, '\n');
      SplitPiecesFree(s, '\n');
      var n := |parts|;
      if parts[n - 1] == [] {
        assert n >= 2;
        assert parts == parts[..n - 1] + [parts[n - 1]];
        JoinSnoc(parts[..n - 1], [], '\n');
        TerminatedIsJoin(parts[..n - 1]);
      } else {
        TerminatedIsJoin(parts);
        var q := parts[n - 1];
        if n == 1 {
          assert s == q;
        } else {
          assert parts == parts[..n - 1] + [q];
          JoinSnoc(parts[..n - 1], q, '\n');
        }
        assert s[|s| - 1] == q[|q| - 1];
      }
    }
  }

  /** Scanning text made of newline-free lines, each terminated, yields those lines. */
  lemma ScanTerminated(lines: seq<string>)
    requires forall i :: 0 <= i < |lines| ==> '\n' !in lines[i]
    ensures Lines(Terminated(lines)) == lines
  {
    if lines != [] {
      var padded := lines + [[]];
      assert forall i :: 0 <= i < |padded| ==> '\n' !in padded[i] by {
        forall i | 0 <= i < |padded| ensures '\n' !in padded[i] {
          if i < |lines| { assert padded[i] == lines[i]; }
        }
      }
      var t := Terminated(lines);
      TerminatedIsJoin(lines);
      JoinSnoc(lines, [], '\n');
      assert t == Join(padded, '\n');
      JoinThenSplit(padded, '\n');
      assert t != [];
      assert Split(t, '\n') == padded;
      assert padded[|padded| - 1] == [];
      assert padded[..|padded| - 1] == lines;
    }
  }
}
