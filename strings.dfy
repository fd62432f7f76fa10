/** Character and string primitives with the semantics of the Rust standard-library
    calls the DKIM prototypes use: ASCII case folding, `trim`, `split`, `join`,
    `replace`, and the folding of a run of white space into one space. */
module Strings {
  import opened Wrappers

  const CRLF: string := "\r\n"

  /** Space or horizontal tab: the characters the hand-written relaxed loops fold. */
  predicate IsBlank(c: char)
  {
    c == ' ' || c == '\t'
  }

  /** White space as `str::trim` and the regex class `\s` see it, restricted to ASCII. */
  predicate IsWhitespace(c: char)
  {
    c == ' ' || c == '\t' || c == '\n' || c == '\r' || c == '\U{0B}' || c == '\U{0C}'
  }

  function LowerChar(c: char): char
  {
    if 'A' <= c <= 'Z' then (c as int + 32) as char else c
  }

  /** `to_lowercase`, on ASCII letters. */
  function Lower(s: string): string
  {
    seq(|s|, i requires 0 <= i < |s| => LowerChar(s[i]))
  }

  /** `eq_ignore_ascii_case`. */
  predicate EqIgnoreCase(a: string, b: string)
  {
    Lower(a) == Lower(b)
  }

  predicate EndsWith(s: string, suffix: string)
  {
    |suffix| <= |s| && s[|s| - |suffix|..] == suffix
  }

  /** `trim_start`: the suffix of `s` that starts at its first non-white-space character. */
  function TrimStart(s: string): (r: string)
    ensures |r| <= |s| && r == s[|s| - |r|..]
    ensures forall i :: 0 <= i < |s| - |r| ==> IsWhitespace(s[i])
    ensures r == [] || !IsWhitespace(r[0])
    decreases |s|
  {
    if |s| > 0 && IsWhitespace(s[0]) then TrimStart(s[1..]) else s
  }

  /** `trim_end`: the prefix of `s` that ends at its last non-white-space character. */
  function TrimEnd(s: string): (r: string)
    ensures |r| <= |s| && r == s[..|r|]
    ensures forall i :: |r| <= i < |s| ==> IsWhitespace(s[i])
    ensures r == [] || !IsWhitespace(r[|r| - 1])
    decreases |s|
  {
    if |s| > 0 && IsWhitespace(s[|s| - 1]) then TrimEnd(s[..|s| - 1]) else s
  }

  /** `trim`: both ends. */
  function Trim(s: string): (r: string)
    ensures r == [] || (!IsWhitespace(r[0]) && !IsWhitespace(r[|r| - 1]))
  {
    TrimEnd(TrimStart(s))
  }

  /** `find(c)`: the position of the first occurrence of `c`. */
  function IndexOf(s: string, c: char): (i: nat)
    requires c in s
    ensures i < |s| && s[i] == c && c !in s[..i]
  {
    if s[0] == c then 0
    else
      var j := IndexOf(s[1..], c);
      assert s[..j + 1] == [s[0]] + s[1..][..j];
      j + 1
  }

  /** `split(sep)`: the pieces between separators, always at least one. */
  function Split(s: string, sep: char): (parts: seq<string>)
    ensures |parts| >= 1
    ensures forall k :: 0 <= k < |parts| ==> sep !in parts[k]
    decreases |s|
  {
    if sep in s then
      var i := IndexOf(s, sep);
      [s[..i]] + Split(s[i + 1..], sep)
    else
      [s]
  }

  /** `join(sep)`. */
  function Join(parts: seq<string>, sep: string): string
  {
    if |parts| == 0 then ""
    else if |parts| == 1 then parts[0]
    else parts[0] + sep + Join(parts[1..], sep)
  }

  /** Every piece followed by the terminator `t`: what `join(t) + t` gives for a non-empty list. */
  function Terminate(parts: seq<string>, t: string): string
  {
    if parts == [] then "" else parts[0] + t + Terminate(parts[1..], t)
  }

  /** `replace(pat, rep)`: a left-to-right scan replacing non-overlapping occurrences. */
  function Replace(s: string, pat: string, rep: string): string
    requires |pat| > 0
    decreases |s|
  {
    if |s| < |pat| then s
    else if s[..|pat|] == pat then rep + Replace(s[|pat|..], pat, rep)
    else [s[0]] + Replace(s[1..], pat, rep)
  }

  /** Every maximal run of characters satisfying `ws` becomes one space; other characters
      are copied. `afterRun` is the loops' `prev_wsp` flag: whether the character before
      `s` was already such a character (whose space has been emitted). */
  function CollapseRuns(s: string, ws: char -> bool, afterRun: bool): string
    decreases |s|
  {
    if s == [] then ""
    else if ws(s[0]) then (if afterRun then "" else " ") + CollapseRuns(s[1..], ws, true)
    else [s[0]] + CollapseRuns(s[1..], ws, false)
  }

  /** The characters of `s` that do not satisfy `ws`, in order. */
  function Kept(s: string, ws: char -> bool): string
    decreases |s|
  {
    if s == [] then "" else (if ws(s[0]) then "" else [s[0]]) + Kept(s[1..], ws)
  }

  /** No two neighbouring characters both satisfy `ws`. */
  predicate NoAdjacent(s: string, ws: char -> bool)
  {
    forall i :: 0 <= i < |s| - 1 ==> !(ws(s[i]) && ws(s[i + 1]))
  }

  /** `pat` occurs in `s` at position `j`. */
  predicate HasAt(s: string, pat: string, j: int)
  {
    0 <= j && j + |pat| <= |s| && s[j..j + |pat|] == pat
  }

  /** `find(pat)` for a text pattern: the position of its first occurrence. */
  function FindSub(s: string, pat: string): (r: Option<nat>)
    ensures r.None? <==> forall j :: !HasAt(s, pat, j)
    ensures r.Some? ==> HasAt(s, pat, r.value) && forall j :: 0 <= j < r.value ==> !HasAt(s, pat, j)
    decreases |s|
  {
    if |s| < |pat| then None
    else if s[..|pat|] == pat then
      assert HasAt(s, pat, 0) by { assert s[0..|pat|] == s[..|pat|]; }
      Some(0)
    else
      assert !HasAt(s, pat, 0) by { assert s[0..|pat|] == s[..|pat|]; }
      ShiftHasAt(s, pat);
      match FindSub(s[1..], pat)
      case None => None
      case Some(i) => assert HasAt(s, pat, i + 1); Some(i + 1)
  }

  lemma ShiftHasAt(s: string, pat: string)
    requires s != []
    ensures forall j :: 1 <= j ==> (HasAt(s, pat, j) <==> HasAt(s[1..], pat, j - 1))
  {
    forall j | 1 <= j
      ensures HasAt(s, pat, j) <==> HasAt(s[1..], pat, j - 1)
    {
      if j + |pat| <= |s| {
        assert s[1..][j - 1..j - 1 + |pat|] == s[j..j + |pat|];
      }
    }
  }

  /** The texts `f` gives for the items, concatenated in order. */
  function ConcatMap<T>(xs: seq<T>, f: T -> string): string
  {
    if xs == [] then "" else ConcatMap(xs[..|xs| - 1], f) + f(xs[|xs| - 1])
  }

  lemma ConcatMapStep<T>(xs: seq<T>, i: nat, f: T -> string)
    requires i < |xs|
    ensures ConcatMap(xs[..i + 1], f) == ConcatMap(xs[..i], f) + f(xs[i])
  {
    assert xs[..i + 1][..i] == xs[..i];
  }

  lemma {:induction false} ConcatMapAppend<T>(xs: seq<T>, ys: seq<T>, f: T -> string)
    ensures ConcatMap(xs + ys, f) == ConcatMap(xs, f) + ConcatMap(ys, f)
    decreases |ys|
  {
    if ys == [] {
      assert xs + ys == xs;
    } else {
      var n := |ys| - 1;
      ConcatMapAppend(xs, ys[..n], f);
      assert (xs + ys)[..|xs + ys| - 1] == xs + ys[..n];
    }
  }

  /** Two maps that agree on every element concatenate to the same text. */
  lemma {:induction false} ConcatMapAgree<T>(xs: seq<T>, f: T -> string, g: T -> string)
    requires forall k :: 0 <= k < |xs| ==> f(xs[k]) == g(xs[k])
    ensures ConcatMap(xs, f) == ConcatMap(xs, g)
    decreases |xs|
  {
    if xs != [] {
      ConcatMapAgree(xs[..|xs| - 1], f, g);
    }
  }

  /** An item that gives nothing can be dropped from the list. */
  lemma ConcatMapSkip<T>(xs: seq<T>, x: T, ys: seq<T>, f: T -> string)
    requires f(x) == ""
    ensures ConcatMap(xs + [x] + ys, f) == ConcatMap(xs + ys, f)
  {
    ConcatMapAppend(xs + [x], ys, f);
    ConcatMapAppend(xs, [x], f);
    ConcatMapAppend(xs, ys, f);
    assert [x][..0] == [];
  }

  /** An item listed twice gives its text twice. */
  lemma ConcatMapRepeat<T>(xs: seq<T>, x: T, ys: seq<T>, f: T -> string)
    ensures ConcatMap(xs + [x, x] + ys, f) == ConcatMap(xs, f) + f(x) + f(x) + ConcatMap(ys, f)
  {
    ConcatMapAppend(xs + [x, x], ys, f);
    ConcatMapAppend(xs, [x, x], f);
    assert [x, x][..1] == [x];
    assert [x][..0] == [];
    assert ConcatMap([x], f) == f(x);
    assert ConcatMap([x, x], f) == f(x) + f(x);
  }

  // ---------------------------------------------------------------------------
  // Split and join

  /** Joining the pieces of a split with the separator gives back the text. */
  lemma {:induction false} JoinSplit(s: string, sep: char)
    ensures Join(Split(s, sep), [sep]) == s
    decreases |s|
  {
    if sep in s {
      var i := IndexOf(s, sep);
      var rest := s[i + 1..];
      JoinSplit(rest, sep);
      var parts := Split(s, sep);
      assert parts == [s[..i]] + Split(rest, sep);
      assert parts[1..] == Split(rest, sep);
      assert s == s[..i] + [sep] + rest;
    }
  }

  /** Splitting text built by terminating separator-free pieces gives the pieces and one
      final empty piece. */
  lemma {:induction false} SplitTerminate(parts: seq<string>, sep: char)
    requires forall k :: 0 <= k < |parts| ==> sep !in parts[k]
    ensures Split(Terminate(parts, [sep]), sep) == parts + [""]
    decreases |parts|
  {
    if parts != [] {
      var p := parts[0];
      var rest := Terminate(parts[1..], [sep]);
      assert Terminate(parts, [sep]) == p + [sep] + rest;
      SplitTerminate(parts[1..], sep);
      SplitAppend(p, rest, sep);
      assert Split(p, sep) == [p] by {
        assert sep !in p;
      }
      assert parts == [p] + parts[1..];
    }
  }

  /** Splitting a join of separator-free pieces gives the pieces back. */
  lemma {:induction false} SplitJoin(parts: seq<string>, sep: char)
    requires |parts| >= 1
    requires forall k :: 0 <= k < |parts| ==> sep !in parts[k]
    ensures Split(Join(parts, [sep]), sep) == parts
    decreases |parts|
  {
    if |parts| > 1 {
      var p := parts[0];
      var rest := Join(parts[1..], [sep]);
      assert Join(parts, [sep]) == p + [sep] + rest;
      SplitJoin(parts[1..], sep);
      SplitAppend(p, rest, sep);
      assert Split(p, sep) == [p] by {
        assert sep !in p;
      }
      assert parts == [p] + parts[1..];
    } else {
      assert sep !in parts[0];
    }
  }

  /** Splitting two texts glued by a separator splits each of them. */
  lemma {:induction false} SplitAppend(x: string, y: string, sep: char)
    ensures Split(x + [sep] + y, sep) == Split(x, sep) + Split(y, sep)
    decreases |x|, 1
  {
    if sep in x {
      SplitAppendAt(x, y, sep, IndexOf(x, sep));
    } else {
      SplitFirst(x, y, sep);
    }
  }

  /** The inductive step of `SplitAppend`: `x` has its first separator at `i`. */
  lemma {:induction false} SplitAppendAt(x: string, y: string, sep: char, i: nat)
    requires i < |x| && x[i] == sep && sep !in x[..i]
    ensures Split(x + [sep] + y, sep) == Split(x, sep) + Split(y, sep)
    decreases |x|, 0
  {
    var s := x + [sep] + y;
    var head, tail := x[..i], x[i + 1..];
    assert s[..i] == head && s[i] == sep;
    assert s[i + 1..] == tail + [sep] + y;
    SplitAt(s, sep, i);
    SplitAt(x, sep, i);
    SplitAppend(tail, y, sep);
  }

  /** Gluing a separator-free text in front: it becomes the first piece. */
  lemma SplitFirst(x: string, y: string, sep: char)
    requires sep !in x
    ensures Split(x + [sep] + y, sep) == Split(x, sep) + Split(y, sep)
  {
    var s := x + [sep] + y;
    assert s[..|x|] == x && s[|x|] == sep;
    assert s[|x| + 1..] == y;
    SplitAt(s, sep, |x|);
    assert Split(x, sep) == [x];
  }

  /** Splitting at the first separator. */
  lemma SplitAt(s: string, sep: char, i: nat)
    requires i < |s| && s[i] == sep && sep !in s[..i]
    ensures Split(s, sep) == [s[..i]] + Split(s[i + 1..], sep)
  {
    IndexOfUnique(s, sep, i);
  }

  /** The first occurrence is the one with no occurrence before it. */
  lemma IndexOfUnique(s: string, c: char, i: nat)
    requires i < |s| && s[i] == c && c !in s[..i]
    ensures IndexOf(s, c) == i
  {
  }

  /** `join(t) + t` terminates every piece. */
  lemma {:induction false} JoinThenTerminator(parts: seq<string>, t: string)
    requires parts != []
    ensures Join(parts, t) + t == Terminate(parts, t)
    decreases |parts|
  {
    if |parts| > 1 {
      JoinThenTerminator(parts[1..], t);
    } else {
      assert parts[1..] == [];
    }
  }

  /** A character absent from the text is absent from every piece of its split. */
  lemma {:induction false} SplitKeepsAbsent(s: string, sep: char, c: char)
    requires c !in s
    ensures forall k :: 0 <= k < |Split(s, sep)| ==> c !in Split(s, sep)[k]
    decreases |s|
  {
    if sep in s {
      var i := IndexOf(s, sep);
      assert c !in s[i + 1..];
      SplitKeepsAbsent(s[i + 1..], sep, c);
      assert forall j :: 0 <= j < i ==> s[..i][j] == s[j];
    }
  }

  // ---------------------------------------------------------------------------
  // Replace

  /** Text in which the pattern cannot start is left as it is. */
  lemma {:induction false} ReplaceAbsent(s: string, pat: string, rep: string)
    requires |pat| > 0 && pat[0] !in s
    ensures Replace(s, pat, rep) == s
    decreases |s|
  {
    if |s| >= |pat| {
      assert s[..|pat|][0] == s[0];
      assert s[1..] == s[1..];
      assert forall j :: 0 <= j < |s| - 1 ==> s[1..][j] == s[j + 1];
      ReplaceAbsent(s[1..], pat, rep);
      assert s == [s[0]] + s[1..];
    }
  }

  /** A prefix in which the pattern cannot start passes through unchanged. */
  lemma {:induction false} ReplaceAfterClean(a: string, t: string, pat: string, rep: string)
    requires |pat| > 0 && pat[0] !in a
    ensures Replace(a + t, pat, rep) == a + Replace(t, pat, rep)
    decreases |a|
  {
    if a != [] {
      var s := a + t;
      assert s[0] == a[0];
      assert s[1..] == a[1..] + t;
      assert forall j :: 0 <= j < |a| - 1 ==> a[1..][j] == a[j + 1];
      ReplaceAfterClean(a[1..], t, pat, rep);
      if |s| < |pat| {
        assert |t| < |pat|;
        if t != [] {
          ReplaceAbsentShort(t, pat, rep);
        }
        ReplaceAbsentShort(a[1..] + t, pat, rep);
        assert a == [a[0]] + a[1..];
      } else {
        assert s[..|pat|][0] == a[0];
        assert a == [a[0]] + a[1..];
      }
    } else {
      assert a + t == t;
    }
  }

  /** Text shorter than the pattern is left as it is. */
  lemma ReplaceAbsentShort(s: string, pat: string, rep: string)
    requires 0 < |pat| && |s| < |pat|
    ensures Replace(s, pat, rep) == s
  {
  }

  /** Replacing a single character by text that does not contain it removes it. */
  lemma {:induction false} ReplaceRemovesChar(s: string, c: char, rep: string)
    requires c !in rep
    ensures c !in Replace(s, [c], rep)
    decreases |s|
  {
    if |s| >= 1 {
      ReplaceRemovesChar(s[1..], c, rep);
    }
  }

  /** Replacing one character by another changes exactly its occurrences. */
  lemma {:induction false} ReplaceCharPointwise(s: string, c: char, d: char)
    ensures |Replace(s, [c], [d])| == |s|
    ensures forall i :: 0 <= i < |s| ==> Replace(s, [c], [d])[i] == if s[i] == c then d else s[i]
    decreases |s|
  {
    if |s| >= 1 {
      ReplaceCharPointwise(s[1..], c, d);
      assert s[..1] == [s[0]];
      assert Replace(s, [c], [d]) == [if s[0] == c then d else s[0]] + Replace(s[1..], [c], [d]);
    }
  }

  // ---------------------------------------------------------------------------
  // Trimming

  /** Text with no white space at either end is its own trim. */
  lemma TrimUntouched(s: string)
    requires s != [] && !IsWhitespace(s[0]) && !IsWhitespace(s[|s| - 1])
    ensures Trim(s) == s
  {
  }

  lemma TrimEndIdempotent(s: string)
    ensures TrimEnd(TrimEnd(s)) == TrimEnd(s)
  {
  }

  // ---------------------------------------------------------------------------
  // Folding runs of white space

  /** The folded text holds only spaces among the characters `ws` accepts, never two in a
      row, and does not start with one when a run was already open. */
  lemma {:induction false} CollapseRunsShape(s: string, ws: char -> bool, afterRun: bool)
    requires ws(' ')
    ensures var r := CollapseRuns(s, ws, afterRun);
      && (forall i :: 0 <= i < |r| && ws(r[i]) ==> r[i] == ' ')
      && NoAdjacent(r, ws)
      && (afterRun && r != [] ==> !ws(r[0]))
    decreases |s|
  {
    if s != [] {
      var tail := CollapseRuns(s[1..], ws, ws(s[0]));
      CollapseRunsShape(s[1..], ws, ws(s[0]));
      var r := CollapseRuns(s, ws, afterRun);
      if ws(s[0]) {
        assert r == (if afterRun then "" else " ") + tail;
      } else {
        assert r == [s[0]] + tail;
        assert forall i :: 1 <= i < |r| ==> r[i] == tail[i - 1];
      }
    }
  }

  /** Folding keeps a last character that `ws` rejects. */
  lemma {:induction false} CollapseRunsLast(s: string, ws: char -> bool, afterRun: bool)
    requires s != [] && !ws(s[|s| - 1])
    ensures var r := CollapseRuns(s, ws, afterRun); r != [] && r[|r| - 1] == s[|s| - 1]
    decreases |s|
  {
    if |s| > 1 {
      CollapseRunsLast(s[1..], ws, ws(s[0]));
    }
  }

  /** Folding keeps every other character, in order. */
  lemma {:induction false} CollapseRunsKeeps(s: string, ws: char -> bool, afterRun: bool)
    requires ws(' ')
    ensures Kept(CollapseRuns(s, ws, afterRun), ws) == Kept(s, ws)
    decreases |s|
  {
    if s != [] {
      var tail := CollapseRuns(s[1..], ws, ws(s[0]));
      CollapseRunsKeeps(s[1..], ws, ws(s[0]));
      if ws(s[0]) {
        assert Kept(s, ws) == Kept(s[1..], ws);
        if !afterRun {
          var r := " " + tail;
          assert r[1..] == tail;
        } else {
          assert CollapseRuns(s, ws, afterRun) == tail;
        }
      } else {
        var r := [s[0]] + tail;
        assert r[1..] == tail;
      }
    }
  }

  /** A character outside `ws` occurs in a text exactly when it occurs in what `Kept` keeps. */
  lemma {:induction false} KeptMembers(s: string, ws: char -> bool, c: char)
    requires !ws(c)
    ensures c in s <==> c in Kept(s, ws)
    decreases |s|
  {
    if s != [] {
      KeptMembers(s[1..], ws, c);
      assert s == [s[0]] + s[1..];
    }
  }

  /** One step of folding, from position `i`. */
  lemma CollapseRunsAt(s: string, i: nat, ws: char -> bool, afterRun: bool)
    requires i < |s|
    ensures CollapseRuns(s[i..], ws, afterRun)
         == (if !ws(s[i]) then [s[i]] else if afterRun then "" else " ")
            + CollapseRuns(s[i + 1..], ws, ws(s[i]))
  {
    assert s[i..][1..] == s[i + 1..];
  }

  /** Folding runs brings in no character other than the space. */
  lemma CollapseRunsAbsent(s: string, ws: char -> bool, c: char)
    requires ws(' ') && !ws(c) && c !in s
    ensures c !in CollapseRuns(s, ws, false)
  {
    CollapseRunsKeeps(s, ws, false);
    KeptMembers(s, ws, c);
    KeptMembers(CollapseRuns(s, ws, false), ws, c);
  }

  /** Trimming keeps only characters of the text. */
  lemma TrimAbsent(s: string, c: char)
    requires c !in s
    ensures c !in Trim(s)
  {
    var t := TrimStart(s);
    assert c !in t by {
      SliceAbsent(s, c, |s| - |t|, |s|);
    }
    var v := TrimEnd(t);
    assert v == t[..|v|];
    SliceAbsent(t, c, 0, |v|);
  }

  /** What trimming keeps is the slice of the text starting at `off`. */
  lemma TrimSlice(s: string) returns (off: nat)
    ensures off + |Trim(s)| <= |s| && Trim(s) == s[off..off + |Trim(s)|]
  {
    var t := TrimStart(s);
    off := |s| - |t|;
    var r := TrimEnd(t);
    SliceOfSlice(s, off, |r|);
  }

  lemma SliceOfSlice(s: string, off: nat, n: nat)
    requires off + n <= |s|
    ensures s[off..][..n] == s[off..off + n]
  {
  }

  lemma SliceAbsent(s: string, c: char, i: nat, j: nat)
    requires i <= j <= |s| && c !in s
    ensures c !in s[i..j]
  {
    assert forall k :: i <= k < j ==> s[i..j][k - i] == s[k];
  }

  /** Folding twice is folding once. */
  lemma {:induction false} CollapseRunsIdempotent(s: string, ws: char -> bool, afterRun: bool)
    requires ws(' ')
    ensures CollapseRuns(CollapseRuns(s, ws, afterRun), ws, afterRun) == CollapseRuns(s, ws, afterRun)
    decreases |s|
  {
    if s != [] {
      var tail := CollapseRuns(s[1..], ws, ws(s[0]));
      CollapseRunsIdempotent(s[1..], ws, ws(s[0]));
      if ws(s[0]) {
        if !afterRun {
          var r := " " + tail;
          assert r[0] == ' ' && r[1..] == tail;
        } else {
          assert CollapseRuns(s, ws, afterRun) == tail;
        }
      } else {
        var r := [s[0]] + tail;
        assert r[0] == s[0] && r[1..] == tail;
      }
    }
  }

  /** Text with no `ws` character other than single spaces is its own folding. */
  lemma {:induction false} CollapseRunsFixed(s: string, ws: char -> bool, afterRun: bool)
    requires forall i :: 0 <= i < |s| && ws(s[i]) ==> s[i] == ' '
    requires NoAdjacent(s, ws)
    requires afterRun && s != [] ==> !ws(s[0])
    ensures CollapseRuns(s, ws, afterRun) == s
    decreases |s|
  {
    if s != [] {
      assert forall i :: 0 <= i < |s| - 1 ==> s[1..][i] == s[i + 1];
      CollapseRunsFixed(s[1..], ws, ws(s[0]));
      assert s == [s[0]] + s[1..];
    }
  }
}
