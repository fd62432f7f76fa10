/** The helpers shared by the later DKIM prototypes: folding white space as the regex
    `\s+` replaced by one space does, the relaxed body over `str::lines`, and the block of
    signed headers built from the first header of every listed name. */
module Utils {
  import opened Wrappers
  import opened Strings
  import opened Lines
  import opened Mail

  // ---------------------------------------------------------------------------
  // White space

  /** `collapse_whitespace`: every maximal run of white space becomes one space. */
  function CollapseWhitespace(s: string): string
  {
    CollapseRuns(s, IsWhitespace, false)
  }

  /** The folded text keeps every other character in order, holds no white space but
      single spaces, and is its own folding. */
  lemma CollapseWhitespaceShape(s: string)
    ensures var r := CollapseWhitespace(s);
      && Kept(r, IsWhitespace) == Kept(s, IsWhitespace)
      && (forall i :: 0 <= i < |r| && IsWhitespace(r[i]) ==> r[i] == ' ')
      && NoAdjacent(r, IsWhitespace)
      && CollapseWhitespace(r) == r
  {
    CollapseRunsKeeps(s, IsWhitespace, false);
    CollapseRunsShape(s, IsWhitespace, false);
    CollapseRunsIdempotent(s, IsWhitespace, false);
  }

  /** `canonicalize_header_value`: the trimmed value with its white-space runs folded. */
  function CanonicalizeHeaderValue(value: string): string
  {
    CollapseWhitespace(Trim(value))
  }

  /** The canonical value neither starts nor ends with white space, holds no white space
      but single spaces, keeps the other characters of the trimmed value, and is its own
      canonical form. */
  lemma CanonicalizeHeaderValueShape(value: string)
    ensures var r := CanonicalizeHeaderValue(value);
      && (r == [] || (!IsWhitespace(r[0]) && !IsWhitespace(r[|r| - 1])))
      && (forall i :: 0 <= i < |r| && IsWhitespace(r[i]) ==> r[i] == ' ')
      && NoAdjacent(r, IsWhitespace)
      && Kept(r, IsWhitespace) == Kept(Trim(value), IsWhitespace)
      && CanonicalizeHeaderValue(r) == r
  {
    var t := Trim(value);
    var r := CollapseWhitespace(t);
    CollapseWhitespaceShape(t);
    CollapsedEnds(t);
    if r != [] {
      TrimUntouched(r);
    }
  }

  /** Folding a text with no white space at its ends leaves none there. */
  lemma CollapsedEnds(t: string)
    requires t == [] || (!IsWhitespace(t[0]) && !IsWhitespace(t[|t| - 1]))
    ensures var r := CollapseWhitespace(t);
      r == [] || (!IsWhitespace(r[0]) && !IsWhitespace(r[|r| - 1]))
  {
    if t != [] {
      var r := CollapseWhitespace(t);
      CollapseRunsLast(t, IsWhitespace, false);
      assert r == [t[0]] + CollapseRuns(t[1..], IsWhitespace, false);
    }
  }

  // ---------------------------------------------------------------------------
  // The relaxed body

  /** One line of the relaxed body: `trim_end().replace('\t', " ")`. */
  function BodyLine(line: string): string
  {
    Replace(TrimEnd(line), "\t", " ")
  }

  /** The lines of the relaxed body: every line of `str::lines` relaxed, trailing empty
      lines dropped. */
  function BodyLines(body: string): seq<string>
  {
    var ls := RustLines(body);
    DropTrailingEmpty(seq(|ls|, i requires 0 <= i < |ls| => BodyLine(ls[i])))
  }

  /** The relaxed body: its lines joined by CRLF, with no CRLF after the last. */
  function RelaxedBody(body: string): string
  {
    Join(BodyLines(body), CRLF)
  }

  /** The relaxed branch of `canonicalize_body` (shared by three prototypes). */
  method RelaxBody(body: string) returns (out: string)
    ensures out == RelaxedBody(body)
  {
    var ls := RustLines(body);
    var lines := seq(|ls|, i requires 0 <= i < |ls| => BodyLine(ls[i]));
    lines := PopTrailingEmpty(lines);
    out := Join(lines, CRLF);
  }

  /** A relaxed line holds no tab and no LF and does not end in white space. */
  predicate RelaxedLine(line: string)
  {
    '\t' !in line && '\n' !in line && (line == [] || !IsWhitespace(line[|line| - 1]))
  }

  lemma BodyLineShape(line: string)
    requires '\n' !in line
    ensures RelaxedLine(BodyLine(line))
  {
    var t := TrimEnd(line);
    ReplaceCharPointwise(t, '\t', ' ');
    var r := BodyLine(line);
    assert '\t' !in r by {
      forall i | 0 <= i < |r| ensures r[i] != '\t' { }
    }
    assert '\n' !in r by {
      forall i | 0 <= i < |r| ensures r[i] != '\n' { assert t[i] == line[i]; }
    }
  }

  /** A line that is already relaxed is its own relaxed form. */
  lemma BodyLineFixed(line: string)
    requires RelaxedLine(line)
    ensures BodyLine(line) == line
  {
    ReplaceAbsent(line, "\t", " ");
  }

  /** Every line of the relaxed body holds no tab, does not end in white space, and the
      last one is not empty. */
  lemma BodyLinesShape(body: string)
    ensures var ls := BodyLines(body);
      && (forall k :: 0 <= k < |ls| ==> RelaxedLine(ls[k]))
      && (ls == [] || ls[|ls| - 1] != "")
  {
    var raw := RustLines(body);
    RustLinesNoLF(body);
    var mapped := seq(|raw|, i requires 0 <= i < |raw| => BodyLine(raw[i]));
    forall k | 0 <= k < |mapped|
      ensures RelaxedLine(mapped[k])
    {
      BodyLineShape(raw[k]);
    }
  }

  /** The relaxed body is read back by `str::lines` as exactly its lines: no line of the
      output holds a tab or ends in white space, and the output holds no tab and does not
      end in white space (so carries no final CRLF). */
  lemma RelaxedBodyShape(body: string)
    ensures RustLines(RelaxedBody(body)) == BodyLines(body)
    ensures '\t' !in RelaxedBody(body)
    ensures var r := RelaxedBody(body); r == [] || !IsWhitespace(r[|r| - 1])
  {
    var ls := BodyLines(body);
    BodyLinesShape(body);
    RustLinesOfJoin(ls);
    JoinRelaxed(ls);
  }

  /** A CRLF join of relaxed lines, the last not empty, holds no tab and does not end in
      white space. */
  lemma {:induction false} JoinRelaxed(ls: seq<string>)
    requires forall k :: 0 <= k < |ls| ==> RelaxedLine(ls[k])
    requires ls == [] || ls[|ls| - 1] != ""
    ensures '\t' !in Join(ls, CRLF)
    ensures var r := Join(ls, CRLF); r == [] || !IsWhitespace(r[|r| - 1])
    decreases |ls|
  {
    if |ls| > 1 {
      JoinRelaxed(ls[1..]);
      var rest := Join(ls[1..], CRLF);
      assert Join(ls, CRLF) == ls[0] + CRLF + rest;
      JoinLength(ls[1..], CRLF);
    }
  }

  /** Relaxing a relaxed body changes nothing. */
  lemma RelaxedBodyIdempotent(body: string)
    ensures RelaxedBody(RelaxedBody(body)) == RelaxedBody(body)
  {
    var ls := BodyLines(body);
    RelaxedBodyShape(body);
    BodyLinesShape(body);
    var mapped := seq(|ls|, i requires 0 <= i < |ls| => BodyLine(ls[i]));
    forall k | 0 <= k < |ls|
      ensures mapped[k] == ls[k]
    {
      BodyLineFixed(ls[k]);
    }
    assert mapped == ls;
    DropTrailingEmptyStable(ls);
  }

  // ---------------------------------------------------------------------------
  // `canonicalize_body` and `canonicalize_headers` of this file

  /** `canonicalize_body`: relaxed for "relaxed", the body itself for any other name. */
  function CanonicalBody(body: string, canonType: string): (r: string)
    ensures canonType != "relaxed" ==> r == body
    ensures canonType == "relaxed" ==> '\t' !in r && (r == [] || !IsWhitespace(r[|r| - 1]))
  {
    RelaxedBodyShape(body);
    if canonType == "relaxed" then RelaxedBody(body) else body
  }

  method CanonicalizeBody(body: string, canonType: string) returns (out: string)
    ensures out == CanonicalBody(body, canonType)
  {
    if canonType == "relaxed" {
      out := RelaxBody(body);
    } else {
      out := body;
    }
  }

  // ---------------------------------------------------------------------------
  // The header block built from first matches

  /** The value a header contributes: canonicalized when `relaxed`. */
  function FieldValue(value: string, relaxed: bool): string
  {
    if relaxed then CanonicalizeHeaderValue(value) else value
  }

  /** The line of a listed name: the lower-cased listed name (not the header's own
      spelling), `:` with no space, the value, CRLF. */
  function FieldLine(name: string, value: string, relaxed: bool): string
  {
    Lower(name) + ":" + FieldValue(value, relaxed) + CRLF
  }

  /** The line a listed name contributes when a header carries it. */
  function NameLine(headers: seq<Header>, name: string, relaxed: bool): string
  {
    match FirstMatch(headers, name)
    case Some(i) => FieldLine(name, headers[i].1, relaxed)
    case None => ""
  }

  function LineOf(headers: seq<Header>, relaxed: bool): string -> string
  {
    name => NameLine(headers, name, relaxed)
  }

  /** The position of the first element that fails `ok`. */
  function FirstFailing<T>(xs: seq<T>, ok: T -> bool): (r: Option<nat>)
    ensures r.None? <==> forall k :: 0 <= k < |xs| ==> ok(xs[k])
    ensures r.Some? ==> (r.value < |xs| && !ok(xs[r.value])
                         && forall k :: 0 <= k < r.value ==> ok(xs[k]))
  {
    if xs == [] then None
    else if !ok(xs[0]) then Some(0)
    else
      match FirstFailing(xs[1..], ok)
      case None => None
      case Some(k) => Some(k + 1)
  }

  /** An element that fails after elements that all pass is the first failing one. */
  lemma FirstFailingAt<T>(xs: seq<T>, ok: T -> bool, i: nat)
    requires i < |xs| && !ok(xs[i])
    requires forall k :: 0 <= k < i ==> ok(xs[k])
    ensures FirstFailing(xs, ok) == Some(i)
  {
  }

  /** Two tests that agree on every element fail first at the same place. */
  lemma {:induction false} FirstFailingAgree<T>(xs: seq<T>, ok1: T -> bool, ok2: T -> bool)
    requires forall k :: 0 <= k < |xs| ==> ok1(xs[k]) == ok2(xs[k])
    ensures FirstFailing(xs, ok1) == FirstFailing(xs, ok2)
    decreases |xs|
  {
    if xs != [] {
      FirstFailingAgree(xs[1..], ok1, ok2);
    }
  }

  /** Whether some header carries the name. */
  function Carried(headers: seq<Header>): string -> bool
  {
    name => FirstMatch(headers, name).Some?
  }

  /** The position of the first listed name that no header carries. */
  function FirstMissing(headers: seq<Header>, names: seq<string>): (r: Option<nat>)
    ensures r.None? <==> forall k :: 0 <= k < |names| ==> FirstMatch(headers, names[k]).Some?
    ensures r.Some? ==> (r.value < |names| && FirstMatch(headers, names[r.value]).None?
                         && forall k :: 0 <= k < r.value ==> FirstMatch(headers, names[k]).Some?)
  {
    FirstFailing(names, Carried(headers))
  }

  /** The block of the listed names: their lines in list order, or the first listed name
      no header carries. */
  function HeaderBlock(headers: seq<Header>, names: seq<string>, relaxed: bool): Result<string, string>
  {
    match FirstMissing(headers, names)
    case Some(k) => Err(names[k])
    case None => Ok(ConcatMap(names, LineOf(headers, relaxed)))
  }

  /** The block fails exactly when some listed name has no header, and then names the
      first such name. */
  lemma HeaderBlockMissing(headers: seq<Header>, names: seq<string>, relaxed: bool)
    ensures HeaderBlock(headers, names, relaxed).Err?
        <==> exists k :: 0 <= k < |names| && FirstMatch(headers, names[k]).None?
    ensures HeaderBlock(headers, names, relaxed).Err? ==>
      exists k :: (0 <= k < |names| && HeaderBlock(headers, names, relaxed).error == names[k]
                   && FirstMatch(headers, names[k]).None?
                   && forall j :: 0 <= j < k ==> FirstMatch(headers, names[j]).Some?)
  {
  }

  /** A name with no header after names that all have one is the first missing name. */
  lemma FirstMissingAt(headers: seq<Header>, names: seq<string>, i: nat)
    requires i < |names| && FirstMatch(headers, names[i]).None?
    requires forall k :: 0 <= k < i ==> FirstMatch(headers, names[k]).Some?
    ensures FirstMissing(headers, names) == Some(i)
  {
    FirstFailingAt(names, Carried(headers), i);
  }

  /** The loop of `canonicalize_headers` (shared by three prototypes): the listed names in
      order, the first header of each, the value folded when `relaxed`; the error is the
      first missing name. */
  method BuildHeaderBlock(headers: seq<Header>, names: seq<string>, relaxed: bool)
    returns (r: Result<string, string>)
    ensures r == HeaderBlock(headers, names, relaxed)
  {
    var result := "";
    for i := 0 to |names|
      invariant result == ConcatMap(names[..i], LineOf(headers, relaxed))
      invariant FirstMissing(headers, names).None? || FirstMissing(headers, names).value >= i
    {
      ConcatMapStep(names, i, LineOf(headers, relaxed));
      var name := names[i];
      var found := FirstMatch(headers, name);
      if found.None? {
        FirstMissingAt(headers, names, i);
        return Err(name);
      }
      ghost var before := result;
      var value := headers[found.value].1;
      if relaxed {
        value := CanonicalizeHeaderValue(value);
      }
      assert value == FieldValue(headers[found.value].1, relaxed);
      result := result + (Lower(name) + ":" + value);
      result := result + CRLF;
      assert result == before + FieldLine(name, headers[found.value].1, relaxed);
      NameLineFound(headers, name, relaxed, found.value);
    }
    assert names[..|names|] == names;
    return Ok(result);
  }

  lemma NameLineFound(headers: seq<Header>, name: string, relaxed: bool, idx: nat)
    requires FirstMatch(headers, name) == Some(idx)
    ensures idx < |headers| && NameLine(headers, name, relaxed) == FieldLine(name, headers[idx].1, relaxed)
  {
  }

  /** One listed name that a header carries gives exactly its line, taken from the first
      header of that name. */
  lemma HeaderBlockSingle(headers: seq<Header>, name: string, relaxed: bool)
    requires exists i :: 0 <= i < |headers| && EqIgnoreCase(headers[i].0, name)
    ensures HeaderBlock(headers, [name], relaxed)
         == Ok(FieldLine(name, headers[FirstMatch(headers, name).value].1, relaxed))
  {
    var f := LineOf(headers, relaxed);
    assert FirstMissing(headers, [name]) == None;
    assert [name][..0] == [];
    assert ConcatMap([name], f) == f(name);
  }

  /** The block of two lists that both succeed is the concatenation of their blocks. */
  lemma HeaderBlockAppend(headers: seq<Header>, a: seq<string>, b: seq<string>, relaxed: bool)
    requires HeaderBlock(headers, a, relaxed).Ok? && HeaderBlock(headers, b, relaxed).Ok?
    ensures HeaderBlock(headers, a + b, relaxed)
         == Ok(HeaderBlock(headers, a, relaxed).value + HeaderBlock(headers, b, relaxed).value)
  {
    ConcatMapAppend(a, b, LineOf(headers, relaxed));
    assert forall k :: 0 <= k < |a + b| ==> (a + b)[k] == if k < |a| then a[k] else b[k - |a|];
  }

  /** Names equal up to ASCII case select the same header and give the same line. */
  lemma NameLineIgnoresCase(headers: seq<Header>, n1: string, n2: string, relaxed: bool)
    requires EqIgnoreCase(n1, n2)
    ensures NameLine(headers, n1, relaxed) == NameLine(headers, n2, relaxed)
  {
    FirstMatchIgnoresCase(headers, n1, n2);
    var f := FirstMatch(headers, n1);
    if f.Some? {
      assert NameLine(headers, n1, relaxed) == FieldLine(n1, headers[f.value].1, relaxed);
      assert NameLine(headers, n2, relaxed) == FieldLine(n2, headers[f.value].1, relaxed);
    }
  }

  /** Names equal up to ASCII case select the same header. */
  lemma FirstMatchIgnoresCase(headers: seq<Header>, n1: string, n2: string)
    requires EqIgnoreCase(n1, n2)
    ensures FirstMatch(headers, n1) == FirstMatch(headers, n2)
  {
    var f1, f2 := FirstMatch(headers, n1), FirstMatch(headers, n2);
    if f1.Some? {
      assert EqIgnoreCase(headers[f1.value].0, n2);
    }
    if f2.Some? {
      assert EqIgnoreCase(headers[f2.value].0, n1);
    }
  }

  /** Every line starts with the lower-cased listed name and `:` and ends in CRLF; a
      relaxed value has no white space at its ends and none but single spaces inside. */
  lemma FieldLineShape(name: string, value: string, relaxed: bool)
    ensures var line := FieldLine(name, value, relaxed);
      && line[..|name| + 1] == Lower(name) + ":"
      && EndsWith(line, CRLF)
    ensures relaxed ==>
      var v := FieldValue(value, relaxed);
      && (v == [] || (!IsWhitespace(v[0]) && !IsWhitespace(v[|v| - 1])))
      && NoAdjacent(v, IsWhitespace)
  {
    var line := FieldLine(name, value, relaxed);
    assert line == (Lower(name) + ":") + (FieldValue(value, relaxed) + CRLF);
    CanonicalizeHeaderValueShape(value);
  }

  // ---------------------------------------------------------------------------

  /** `canonicalize_headers` of `utils.rs`: relaxed values for "relaxed", and the message
      `Missing header: <name>` for the first listed name no header carries. */
  method CanonicalizeHeaders(headers: seq<Header>, headerList: seq<string>, canonType: string)
    returns (r: Result<string, string>)
    ensures r.Ok? <==> forall k :: 0 <= k < |headerList| ==> FirstMatch(headers, headerList[k]).Some?
    ensures r.Ok? ==> r == HeaderBlock(headers, headerList, canonType == "relaxed")
    ensures r.Err? ==> r.error == "Missing header: " + HeaderBlock(headers, headerList, canonType == "relaxed").error
  {
    var block := BuildHeaderBlock(headers, headerList, canonType == "relaxed");
    match block
    case Ok(s) => r := Ok(s);
    case Err(name) => r := Err("Missing header: " + name);
  }
}
