/**
 * The wordlist scanner: a bufio.Scanner with its default split function
 * ScanLines, which yields one line per '\n' (without the '\n' and one
 * trailing '\r'), plus a last line when the data does not end in '\n'.
 */
module Bufio {
  import GoStrings

  function DropCR(line: string): string
  {
    if |line| > 0 && line[|line| - 1] == '\r' then line[..|line| - 1] else line
  }

  /** The successive scanner.Text() values for the whole file. */
  function ScanLines(data: string): seq<string>
    decreases |data|
  {
    if data == [] then []
    else
      var i := GoStrings.Index(data, "\n");
      if i < 0 then [DropCR(data)] else [DropCR(data[..i])] + ScanLines(data[i + 1..])
  }

  /** A string free of occurrences of c has no position holding c. */
  lemma FreeOfChar(s: string, c: char)
    requires !GoStrings.Contains(s, [c])
    ensures GoStrings.Occurrences(s, c) == 0
  {
    GoStrings.CountSkip(s, [c], |s|);
    GoStrings.CountSingle(s, c);
  }

  /** The scanner yields one line per '\n', plus one for an unterminated last line. */
  lemma {:induction false} ScanLinesCount(data: string)
    ensures |ScanLines(data)| == GoStrings.Occurrences(data, '\n') + (if data != [] && data[|data| - 1] != '\n' then 1 else 0)
    decreases |data|
  {
    if data != [] {
      var i := GoStrings.Index(data, "\n");
      if i < 0 {
        FreeOfChar(data, '\n');
        assert !GoStrings.OccursAt(data, "\n", |data| - 1);
        assert data[|data| - 1..|data|] == [data[|data| - 1]];
      } else {
        var head, rest := data[..i], data[i + 1..];
        assert data == head + "\n" + rest;
        forall j | 0 <= j <= |head| ensures !GoStrings.OccursAt(head, "\n", j) {
          if j + 1 <= |head| {
            assert head[j..j + 1] == data[j..j + 1];
            assert !GoStrings.OccursAt(data, "\n", j);
          }
        }
        FreeOfChar(head, '\n');
        GoStrings.OccurrencesAppend(head, "\n", '\n');
        GoStrings.OccurrencesAppend(head + "\n", rest, '\n');
        ScanLinesCount(rest);
        if rest != [] {
          assert data[|data| - 1] == rest[|rest| - 1];
        }
      }
    }
  }

  /** A wordlist line as written: no '\n' in it, and no '\r' at its end. */
  predicate PlainLine(line: string) {
    !GoStrings.Contains(line, "\n") && (line == [] || line[|line| - 1] != '\r')
  }

  /** The file holding the lines, each ended by "\n", or by "\r\n" when crlf. */
  function Terminated(lines: seq<string>, crlf: bool): string
  {
    if lines == [] then [] else lines[0] + (if crlf then "\r\n" else "\n") + Terminated(lines[1..], crlf)
  }

  /** Scanning a file of terminated plain lines gives back the lines, for LF and CRLF endings alike. */
  lemma {:induction false} ScanLinesRoundTrip(lines: seq<string>, crlf: bool)
    requires forall k :: 0 <= k < |lines| ==> PlainLine(lines[k])
    ensures ScanLines(Terminated(lines, crlf)) == lines
    decreases |lines|
  {
    if lines != [] {
      var line, rest := lines[0], Terminated(lines[1..], crlf);
      var body := if crlf then line + "\r" else line;
      var data := Terminated(lines, crlf);
      assert PlainLine(line);
      if crlf {
        forall i | 0 <= i <= 1 ensures !GoStrings.OccursAt("\r", "\n", i) {
          if i == 0 {
            assert "\r"[0..1][0] == '\r';
          }
        }
        GoStrings.ConcatFree(line, "\r", "\n");
      }
      assert data == body + "\n" + rest;
      GoStrings.IndexPastFree(body, "\n", rest);
      assert data[..|body|] == body;
      assert data[|body| + 1..] == rest;
      assert DropCR(body) == line;
      assert forall k :: 0 <= k < |lines[1..]| ==> lines[1..][k] == lines[k + 1];
      ScanLinesRoundTrip(lines[1..], crlf);
      assert lines == [line] + lines[1..];
    }
  }
}
