/** Line-level text handling shared by the body canonicalizers: line-break
    normalization, Rust's `str::lines`, and the loop that pops trailing empty lines. */
module Lines {
  import opened Strings

  /** `replace("\r\n", "\n").replace("\r", "\n")`: every CRLF and every lone CR becomes LF. */
  function NormalizeBreaks(s: string): string
  {
    Replace(Replace(s, CRLF, "\n"), "\r", "\n")
  }

  /** The list without its trailing empty lines: the longest prefix whose last line is not
      empty, everything after it being empty. */
  function DropTrailingEmpty(lines: seq<string>): (r: seq<string>)
    ensures |r| <= |lines| && r == lines[..|r|]
    ensures r == [] || r[|r| - 1] != ""
    ensures forall i :: |r| <= i < |lines| ==> lines[i] == ""
    decreases |lines|
  {
    if |lines| > 0 && lines[|lines| - 1] == "" then DropTrailingEmpty(lines[..|lines| - 1])
    else lines
  }

  /** `while matches!(lines.last(), Some(l) if l.is_empty()) { lines.pop(); }` */
  method PopTrailingEmpty(lines: seq<string>) returns (r: seq<string>)
    ensures r == DropTrailingEmpty(lines)
  {
    r := lines;
    while |r| > 0 && r[|r| - 1] == ""
      invariant DropTrailingEmpty(r) == DropTrailingEmpty(lines)
      decreases |r|
    {
      r := r[..|r| - 1];
    }
  }

  function StripCR(line: string): string
  {
    if line != [] && line[|line| - 1] == '\r' then line[..|line| - 1] else line
  }

  /** `str::lines`: the text cut at every LF, a CR just before an LF dropped with it, and no
      empty last line after a final LF; the empty text has no lines. */
  function RustLines(s: string): seq<string>
  {
    if s == "" then []
    else
      var parts := Split(s, '\n');
      var last := parts[|parts| - 1];
      if last == "" then Ended(parts) else Ended(parts) + [last]
  }

  /** Every piece but the last, with a CR before its LF dropped. */
  function Ended(parts: seq<string>): (r: seq<string>)
    requires parts != []
    ensures |r| == |parts| - 1 && forall k :: 0 <= k < |r| ==> r[k] == StripCR(parts[k])
  {
    seq(|parts| - 1, k requires 0 <= k < |parts| - 1 => StripCR(parts[k]))
  }

  // ---------------------------------------------------------------------------

  /** No line of `str::lines` holds an LF. */
  lemma RustLinesNoLF(s: string)
    ensures forall k :: 0 <= k < |RustLines(s)| ==> '\n' !in RustLines(s)[k]
  {
    if s != "" {
      var parts := Split(s, '\n');
      forall k | 0 <= k < |parts| - 1
        ensures '\n' !in StripCR(parts[k])
      {
        assert StripCR(parts[k]) <= parts[k];
      }
    }
  }

  /** After normalization no CR is left. */
  lemma NormalizeBreaksNoCR(s: string)
    ensures '\r' !in NormalizeBreaks(s)
  {
    ReplaceRemovesChar(Replace(s, CRLF, "\n"), '\r', "\n");
  }

  /** Dropping a trailing empty line, or none, changes nothing once the last line is kept. */
  lemma DropTrailingEmptyStable(lines: seq<string>)
    requires lines == [] || lines[|lines| - 1] != ""
    ensures DropTrailingEmpty(lines) == lines
    ensures DropTrailingEmpty(lines + [""]) == lines
  {
    assert (lines + [""])[..|lines|] == lines;
  }

  /** A character absent from the pieces and from the terminator is absent from the text. */
  lemma {:induction false} TerminateAbsent(parts: seq<string>, t: string, c: char)
    requires c !in t
    requires forall k :: 0 <= k < |parts| ==> c !in parts[k]
    ensures c !in Terminate(parts, t)
    decreases |parts|
  {
    if parts != [] {
      TerminateAbsent(parts[1..], t, c);
    }
  }

  /** Normalizing CRLF-terminated lines that hold no line break gives LF-terminated lines. */
  lemma {:induction false} NormalizeTerminated(lines: seq<string>)
    requires forall k :: 0 <= k < |lines| ==> '\r' !in lines[k] && '\n' !in lines[k]
    ensures NormalizeBreaks(Terminate(lines, CRLF)) == Terminate(lines, "\n")
  {
    ReplaceCrlfTerminated(lines);
    TerminateAbsent(lines, "\n", '\r');
    ReplaceAbsent(Terminate(lines, "\n"), "\r", "\n");
  }

  lemma {:induction false} ReplaceCrlfTerminated(lines: seq<string>)
    requires forall k :: 0 <= k < |lines| ==> '\r' !in lines[k]
    ensures Replace(Terminate(lines, CRLF), CRLF, "\n") == Terminate(lines, "\n")
    decreases |lines|
  {
    if lines != [] {
      var rest := Terminate(lines[1..], CRLF);
      ReplaceCrlfTerminated(lines[1..]);
      assert Terminate(lines, CRLF) == lines[0] + (CRLF + rest);
      ReplaceAfterClean(lines[0], CRLF + rest, CRLF, "\n");
      assert (CRLF + rest)[..2] == CRLF && (CRLF + rest)[2..] == rest;
    }
  }

  /** `str::lines` undoes a CRLF join of lines that hold no LF, do not end in CR, and whose
      last line is not empty. */
  lemma RustLinesOfJoin(lines: seq<string>)
    requires forall k :: 0 <= k < |lines| ==> '\n' !in lines[k]
    requires forall k :: 0 <= k < |lines| ==> lines[k] == [] || lines[k][|lines[k]| - 1] != '\r'
    requires lines == [] || lines[|lines| - 1] != ""
    ensures RustLines(Join(lines, CRLF)) == lines
  {
    if lines != [] {
      var pieces := WithCR(lines);
      JoinCrlfAsLf(lines, pieces);
      forall k | 0 <= k < |pieces|
        ensures '\n' !in pieces[k]
      {
        if k < |lines| - 1 {
          assert pieces[k] == lines[k] + "\r";
        }
      }
      SplitJoin(pieces, '\n');
      JoinLength(lines, CRLF);
      StripWithCR(lines, pieces, Join(lines, CRLF));
    }
  }

  /** All lines but the last, each with a CR added. */
  function WithCR(lines: seq<string>): (pieces: seq<string>)
    requires lines != []
    ensures |pieces| == |lines|
    ensures forall k :: 0 <= k < |lines| - 1 ==> pieces[k] == lines[k] + "\r"
    ensures pieces[|lines| - 1] == lines[|lines| - 1]
  {
    seq(|lines|, k requires 0 <= k < |lines| => if k < |lines| - 1 then lines[k] + "\r" else lines[k])
  }

  lemma StripWithCR(lines: seq<string>, pieces: seq<string>, s: string)
    requires lines != [] && lines[|lines| - 1] != ""
    requires |pieces| == |lines| && pieces[|lines| - 1] == lines[|lines| - 1]
    requires forall k :: 0 <= k < |lines| - 1 ==> pieces[k] == lines[k] + "\r"
    requires s != "" && Split(s, '\n') == pieces
    ensures RustLines(s) == lines
  {
    var n := |lines|;
    RustLinesUnfold(s, pieces);
    var r := RustLines(s);
    forall k | 0 <= k < n
      ensures r[k] == lines[k]
    {
      if k < n - 1 {
        assert (lines[k] + "\r")[..|lines[k]|] == lines[k];
      }
    }
  }

  /** Index by index, the lines of a text whose last piece is not empty. */
  lemma RustLinesUnfold(s: string, parts: seq<string>)
    requires s != "" && Split(s, '\n') == parts && parts[|parts| - 1] != ""
    ensures |RustLines(s)| == |parts|
    ensures forall k :: 0 <= k < |parts| - 1 ==> RustLines(s)[k] == StripCR(parts[k])
    ensures RustLines(s)[|parts| - 1] == parts[|parts| - 1]
  {
    assert RustLines(s) == Ended(parts) + [parts[|parts| - 1]];
  }

  lemma {:induction false} JoinLength(parts: seq<string>, sep: string)
    requires parts != [] && parts[|parts| - 1] != ""
    ensures Join(parts, sep) != ""
    decreases |parts|
  {
    if |parts| > 1 {
      JoinLength(parts[1..], sep);
    }
  }

  /** A CRLF join is the LF join of the lines with a CR added to all but the last. */
  lemma {:induction false} JoinCrlfAsLf(lines: seq<string>, pieces: seq<string>)
    requires lines != [] && |pieces| == |lines|
    requires forall k :: 0 <= k < |lines| - 1 ==> pieces[k] == lines[k] + "\r"
    requires pieces[|lines| - 1] == lines[|lines| - 1]
    ensures Join(lines, CRLF) == Join(pieces, "\n")
    decreases |lines|
  {
    if |lines| > 1 {
      JoinCrlfAsLf(lines[1..], pieces[1..]);
      assert Join(lines, CRLF) == lines[0] + CRLF + Join(lines[1..], CRLF);
      assert Join(pieces, "\n") == pieces[0] + "\n" + Join(pieces[1..], "\n");
    }
  }
}
