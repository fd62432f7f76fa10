/** The self-contained RSA-SHA256 DKIM verifier: signature-header parsing, the "simple"
    and "relaxed" canonicalizations, the signed-header block and the order in which
    verification reports its failures. SHA-256, base64, PEM key parsing and the RSA check
    are parameters. */
module VerifyDkim {
  import opened Wrappers
  import opened Strings
  import opened Lines
  import opened Tags
  import opened Mail

  datatype DkimError =
    | NoDkimSignature
    | BadSignatureField
    | BodyHashMismatch
    | SignatureVerifyFailed
    | PublicKeyParse(detail: string)
    | Other(detail: string)

  /** The tags of a DKIM-Signature the verifier looks at. */
  datatype SignatureFields = SignatureFields(
    v: Option<string>, a: Option<string>, c: Option<string>, d: Option<string>,
    s: Option<string>, h: Option<string>, bh: Option<string>, b: Option<string>)

  const NoFields := SignatureFields(None, None, None, None, None, None, None, None)

  const SignaturePrefix: string := "dkim-signature:"

  // ---------------------------------------------------------------------------
  // Parsing the signature header

  /** The header value, trimmed, without a leading `dkim-signature:` in any case. */
  function SignatureText(value: string): string
  {
    var t := Trim(value);
    if |t| >= |SignaturePrefix| && Lower(t[..|SignaturePrefix|]) == SignaturePrefix
    then t[|SignaturePrefix|..] else t
  }

  /** Each field holds the value of the last pair whose name is exactly that tag. */
  function FieldsOf(pairs: seq<Pair>): SignatureFields
  {
    SignatureFields(
      LastValue(pairs, "v"), LastValue(pairs, "a"), LastValue(pairs, "c"), LastValue(pairs, "d"),
      LastValue(pairs, "s"), LastValue(pairs, "h"), LastValue(pairs, "bh"), LastValue(pairs, "b"))
  }

  /** The `match` on a segment's name: one of the eight tags takes the value, any other
      name is ignored. */
  function Assign(f: SignatureFields, k: string, val: string): SignatureFields
  {
    if k == "v" then f.(v := Some(val))
    else if k == "a" then f.(a := Some(val))
    else if k == "c" then f.(c := Some(val))
    else if k == "d" then f.(d := Some(val))
    else if k == "s" then f.(s := Some(val))
    else if k == "h" then f.(h := Some(val))
    else if k == "bh" then f.(bh := Some(val))
    else if k == "b" then f.(b := Some(val))
    else f
  }

  /** The fields after one more segment: `part.trim()`, cut at its first `=`, with the
      name matched against the eight tags. */
  function NextFields(fields: SignatureFields, segment: string): SignatureFields
  {
    match SegmentPair(segment)
    case Some((k, val)) => Assign(fields, k, val)
    case None => fields
  }

  lemma NextFieldsStep(parts: seq<string>, i: nat)
    requires i < |parts|
    ensures NextFields(FieldsOf(PairsOf(parts[..i])), parts[i]) == FieldsOf(PairsOf(parts[..i + 1]))
  {
    var before := PairsOf(parts[..i]);
    var seg := SegmentPair(parts[i]);
    PairsOfStep(parts, i);
    if seg.Some? {
      assert PairsOf(parts[..i + 1]) == before + [seg.value];
      FieldsOfSnoc(before, seg.value);
      assert NextFields(FieldsOf(before), parts[i]) == Assign(FieldsOf(before), seg.value.0, seg.value.1);
    } else {
      assert PairsOf(parts[..i + 1]) == before;
    }
  }

  /** `parse_dkim_signature_header`: never fails. */
  method ParseDkimSignatureHeader(value: string) returns (r: Result<SignatureFields, DkimError>)
    ensures r == Ok(FieldsOf(Pairs(SignatureText(value))))
  {
    var v := Trim(value);
    if |v| >= |SignaturePrefix| && Lower(v[..|SignaturePrefix|]) == SignaturePrefix {
      v := v[|SignaturePrefix|..];
    }
    assert v == SignatureText(value);
    var parts := Split(v, ';');
    assert Pairs(v) == PairsOf(parts);
    var fields := FieldsOfParts(parts);
    r := Ok(fields);
  }

  /** The loop over the `;`-separated segments: each segment that splits at `=` assigns its
      tag, later segments overriding earlier ones. */
  method FieldsOfParts(parts: seq<string>) returns (fields: SignatureFields)
    ensures fields == FieldsOf(PairsOf(parts))
  {
    fields := NoFields;
    for i := 0 to |parts|
      invariant fields == FieldsOf(PairsOf(parts[..i]))
    {
      NextFieldsStep(parts, i);
      fields := NextFields(fields, parts[i]);
    }
    assert parts[..|parts|] == parts;
  }

  /** A leading `dkim-signature:` is removed whatever its case. */
  lemma SignatureTextStripsPrefix(p: string, x: string)
    requires |p| == |SignaturePrefix| && Lower(p) == SignaturePrefix
    ensures SignatureText(p + x) == TrimEnd(x)
  {
    assert Lower(p)[0] == SignaturePrefix[0] == 'd';
    assert Lower(p)[14] == SignaturePrefix[14] == ':';
    TrimStartUntouched(p + x);
    TrimEndAfter(p, x);
    assert (p + TrimEnd(x))[..|SignaturePrefix|] == p;
  }

  lemma TrimStartUntouched(s: string)
    requires s != [] && !IsWhitespace(s[0])
    ensures TrimStart(s) == s
  {
  }

  /** Trimming the end of a text never reaches into a prefix that ends in a non-white-space
      character. */
  lemma {:induction false} TrimEndAfter(p: string, x: string)
    requires p != [] && !IsWhitespace(p[|p| - 1])
    ensures TrimEnd(p + x) == p + TrimEnd(x)
    decreases |x|
  {
    if x != [] && IsWhitespace(x[|x| - 1]) {
      assert (p + x)[..|p + x| - 1] == p + x[..|x| - 1];
      TrimEndAfter(p, x[..|x| - 1]);
    } else if x == [] {
      assert p + x == p;
    }
  }

  /** A later segment overrides an earlier one with the same tag; names other than the
      eight tags (and tags written in another case) are ignored. */
  lemma FieldsOfSnoc(pairs: seq<Pair>, p: Pair)
    ensures FieldsOf(pairs + [p]) == Assign(FieldsOf(pairs), p.0, p.1)
  {
    LastValueSnoc(pairs, p, "v");
    LastValueSnoc(pairs, p, "a");
    LastValueSnoc(pairs, p, "c");
    LastValueSnoc(pairs, p, "d");
    LastValueSnoc(pairs, p, "s");
    LastValueSnoc(pairs, p, "h");
    LastValueSnoc(pairs, p, "bh");
    LastValueSnoc(pairs, p, "b");
  }

  // ---------------------------------------------------------------------------
  // Relaxed header canonicalization

  /** The folding loop of the relaxed canonicalizers: each run of spaces and tabs becomes
      one space. */
  method FoldBlanks(s: string) returns (out: string)
    ensures out == CollapseRuns(s, IsBlank, false)
  {
    out := "";
    var prevWsp := false;
    for i := 0 to |s|
      invariant out + CollapseRuns(s[i..], IsBlank, prevWsp) == CollapseRuns(s, IsBlank, false)
    {
      var ch := s[i];
      ghost var rest := CollapseRuns(s[i + 1..], IsBlank, IsBlank(ch));
      ghost var piece := if !IsBlank(ch) then [ch] else if prevWsp then "" else " ";
      CollapseRunsAt(s, i, IsBlank, prevWsp);
      ghost var before := out;
      if ch == ' ' || ch == '\t' {
        if !prevWsp {
          out := out + " ";
          prevWsp := true;
        }
      } else {
        out := out + [ch];
        prevWsp := false;
      }
      AppendPiece(before, piece, rest, out);
    }
    assert s[|s|..] == [];
  }

  /** One step of the folding loop: the piece appended to the output is the piece the
      remaining input would have produced. */
  lemma AppendPiece(before: string, piece: string, rest: string, out: string)
    requires out == before + piece
    ensures out + rest == before + (piece + rest)
  {
  }

  /** The header value after relaxed canonicalization: CRLFs removed, blank runs folded,
      both ends trimmed. */
  function RelaxedValue(value: string): string
  {
    Trim(CollapseRuns(Replace(value, CRLF, ""), IsBlank, false))
  }

  /** The relaxed header line: lower-cased name, a colon and a space, the value, no CRLF. */
  function RelaxedHeader(name: string, value: string): string
  {
    Lower(name) + ": " + RelaxedValue(value)
  }

  /** `canonicalize_header_relaxed`. */
  method CanonicalizeHeaderRelaxed(name: string, value: string) returns (line: string)
    ensures line == RelaxedHeader(name, value)
  {
    var out := FoldBlanks(Replace(value, CRLF, ""));
    line := Lower(name) + ": " + Trim(out);
  }

  /** A relaxed value has no tab, no two neighbouring blanks and no white space at either end. */
  predicate FoldedValue(v: string)
  {
    && '\t' !in v
    && NoAdjacent(v, IsBlank)
    && (v == [] || (!IsWhitespace(v[0]) && !IsWhitespace(v[|v| - 1])))
  }

  lemma RelaxedValueFolded(value: string)
    ensures FoldedValue(RelaxedValue(value))
  {
    var c := CollapseRuns(Replace(value, CRLF, ""), IsBlank, false);
    CollapseRunsShape(Replace(value, CRLF, ""), IsBlank, false);
    TrimInside(c);
  }

  /** What trimming keeps is a slice, so the slice-closed properties of a folded text carry
      over to it. */
  lemma TrimInside(c: string)
    requires forall i :: 0 <= i < |c| && IsBlank(c[i]) ==> c[i] == ' '
    requires NoAdjacent(c, IsBlank)
    ensures FoldedValue(Trim(c))
  {
    var off := TrimSlice(c);
    SliceFolded(c, off, Trim(c));
  }

  lemma SliceFolded(c: string, x: nat, r: string)
    requires x + |r| <= |c| && r == c[x..x + |r|]
    requires forall i :: 0 <= i < |c| && IsBlank(c[i]) ==> c[i] == ' '
    requires NoAdjacent(c, IsBlank)
    ensures '\t' !in r && NoAdjacent(r, IsBlank)
  {
    forall i | 0 <= i < |r|
      ensures r[i] != '\t'
    {
      assert r[i] == c[x + i];
    }
    forall i | 0 <= i < |r| - 1
      ensures !(IsBlank(r[i]) && IsBlank(r[i + 1]))
    {
      assert r[i] == c[x + i] && r[i + 1] == c[x + i + 1];
    }
  }

  /** Relaxed canonicalization of a value without CR is a fixed point. */
  lemma RelaxedValueIdempotent(value: string)
    requires '\r' !in value
    ensures RelaxedValue(RelaxedValue(value)) == RelaxedValue(value)
  {
    RelaxedValueFolded(value);
    RelaxedValueNoCR(value);
    FoldedFixed(RelaxedValue(value));
  }

  /** Without CR in the value none appears in its relaxed form. */
  lemma RelaxedValueNoCR(value: string)
    requires '\r' !in value
    ensures '\r' !in RelaxedValue(value)
  {
    ReplaceAbsent(value, CRLF, "");
    assert Replace(value, CRLF, "") == value;
    CollapseRunsAbsent(value, IsBlank, '\r');
    TrimAbsent(CollapseRuns(value, IsBlank, false), '\r');
  }

  /** A folded value without CR is its own relaxed form. */
  lemma FoldedFixed(v: string)
    requires FoldedValue(v) && '\r' !in v
    ensures RelaxedValue(v) == v
  {
    ReplaceAbsent(v, CRLF, "");
    assert forall i :: 0 <= i < |v| && IsBlank(v[i]) ==> v[i] == ' ';
    CollapseRunsFixed(v, IsBlank, false);
    if v != [] {
      TrimUntouched(v);
    }
  }

  /** The relaxed line starts with the lower-cased name and `": "`. */
  lemma RelaxedHeaderStart(name: string, value: string)
    ensures RelaxedHeader(name, value)[..|name| + 2] == Lower(name) + ": "
  {
    assert |Lower(name)| == |name|;
  }

  /** The relaxed line never ends in a line break. */
  lemma RelaxedHeaderEnd(name: string, value: string)
    ensures RelaxedHeader(name, value)[|RelaxedHeader(name, value)| - 1] != '\n'
  {
    var v := RelaxedValue(value);
    var line := Lower(name) + ": " + v;
    if v == [] {
      assert line[|line| - 1] == ' ';
    } else {
      assert line[|line| - 1] == v[|v| - 1];
    }
  }

  // ---------------------------------------------------------------------------
  // Body canonicalization

  /** Lines of a canonical body: no line breaks inside, and no empty last line. */
  predicate CanonicalLines(lines: seq<string>)
  {
    && (forall k :: 0 <= k < |lines| ==> '\r' !in lines[k] && '\n' !in lines[k])
    && (lines == [] || lines[|lines| - 1] != "")
  }

  /** The body's lines after line-break normalization. */
  function BodyPieces(body: string): seq<string>
  {
    Split(NormalizeBreaks(body), '\n')
  }

  /** Lines joined by CRLF with one final CRLF, or nothing at all when there are none. */
  function CrlfBody(lines: seq<string>): string
  {
    if lines == [] then "" else Join(lines, CRLF) + CRLF
  }

  /** "simple" body canonicalization as this verifier does it. */
  function SimpleBody(body: string): string
  {
    CrlfBody(DropTrailingEmpty(BodyPieces(body)))
  }

  /** `canonicalize_body_simple`. */
  method CanonicalizeBodySimple(body: string) returns (out: string)
    ensures out == SimpleBody(body)
  {
    var lines := Split(Replace(Replace(body, CRLF, "\n"), "\r", "\n"), '\n');
    lines := PopTrailingEmpty(lines);
    if lines == [] {
      out := "";
    } else {
      out := Join(lines, CRLF) + CRLF;
    }
  }

  /** One line of a relaxed body: blank runs folded, trailing white space trimmed. */
  function RelaxLine(line: string): string
  {
    TrimEnd(CollapseRuns(line, IsBlank, false))
  }

  function RelaxLines(lines: seq<string>): (r: seq<string>)
    ensures |r| == |lines| && forall k :: 0 <= k < |lines| ==> r[k] == RelaxLine(lines[k])
  {
    seq(|lines|, k requires 0 <= k < |lines| => RelaxLine(lines[k]))
  }

  /** "relaxed" body canonicalization as this verifier does it. */
  function RelaxedBody(body: string): string
  {
    CrlfBody(DropTrailingEmpty(RelaxLines(BodyPieces(body))))
  }

  /** `canonicalize_body_relaxed`. */
  method CanonicalizeBodyRelaxed(body: string) returns (out: string)
    ensures out == RelaxedBody(body)
  {
    var pieces := Split(Replace(Replace(body, CRLF, "\n"), "\r", "\n"), '\n');
    var lines: seq<string> := [];
    for i := 0 to |pieces|
      invariant |lines| == i
      invariant forall k :: 0 <= k < i ==> lines[k] == RelaxLine(pieces[k])
    {
      var folded := FoldBlanks(pieces[i]);
      lines := lines + [TrimEnd(folded)];
    }
    assert lines == RelaxLines(pieces);
    lines := PopTrailingEmpty(lines);
    if lines == [] {
      out := "";
    } else {
      out := Join(lines, CRLF) + CRLF;
    }
  }

  /** The pieces of a normalized body hold no line break. */
  lemma BodyPiecesClean(body: string)
    ensures forall k :: 0 <= k < |BodyPieces(body)| ==>
      '\r' !in BodyPieces(body)[k] && '\n' !in BodyPieces(body)[k]
  {
    NormalizeBreaksNoCR(body);
    SplitKeepsAbsent(NormalizeBreaks(body), '\n', '\r');
  }

  /** A canonical body is its lines, each followed by CRLF. */
  lemma CrlfBodyTerminates(lines: seq<string>)
    ensures CrlfBody(lines) == Terminate(lines, CRLF)
  {
    if lines != [] {
      JoinThenTerminator(lines, CRLF);
    }
  }

  /** Reading back a canonical body gives its lines and one empty piece after the last CRLF. */
  lemma PiecesOfCanonical(lines: seq<string>)
    requires CanonicalLines(lines)
    ensures BodyPieces(CrlfBody(lines)) == lines + [""]
  {
    CrlfBodyTerminates(lines);
    NormalizeTerminated(lines);
    SplitTerminate(lines, '\n');
  }

  /** The simple form is CRLF-terminated lines with no line breaks inside and no empty last
      line; an empty or all-blank-lines body gives the empty text. */
  lemma SimpleBodyForm(body: string)
    ensures CanonicalLines(DropTrailingEmpty(BodyPieces(body)))
    ensures SimpleBody(body) == Terminate(DropTrailingEmpty(BodyPieces(body)), CRLF)
    ensures SimpleBody(body) == "" || EndsWith(SimpleBody(body), CRLF)
  {
    var lines := DropTrailingEmpty(BodyPieces(body));
    BodyPiecesClean(body);
    assert forall k :: 0 <= k < |lines| ==> lines[k] == BodyPieces(body)[k];
    CrlfBodyTerminates(lines);
    if lines != [] {
      JoinThenTerminator(lines, CRLF);
    }
  }

  /** A canonical simple body is left as it is. */
  lemma SimpleBodyOfCanonical(lines: seq<string>)
    requires CanonicalLines(lines)
    ensures SimpleBody(CrlfBody(lines)) == CrlfBody(lines)
  {
    PiecesOfCanonical(lines);
    DropTrailingEmptyStable(lines);
  }

  /** Simple canonicalization is idempotent. */
  lemma SimpleBodyIdempotent(body: string)
    ensures SimpleBody(SimpleBody(body)) == SimpleBody(body)
  {
    SimpleBodyForm(body);
    SimpleBodyOfCanonical(DropTrailingEmpty(BodyPieces(body)));
  }

  /** Trailing empty lines collapse: a line followed by three CRLFs (such as "Hello")
      becomes the line and one CRLF. */
  lemma SimpleBodyDropsTrailingEmptyLines(line: string)
    requires line != "" && '\r' !in line && '\n' !in line
    ensures SimpleBody(line + CRLF + CRLF + CRLF) == line + CRLF
  {
    var lines := [line, "", ""];
    var body := line + CRLF + CRLF + CRLF;
    var pieces := [line, "", "", ""];
    assert BodyPieces(body) == pieces by {
      assert body == Terminate(lines, CRLF) by {
        assert Terminate([""], CRLF) == CRLF;
        assert Terminate(["", ""], CRLF) == CRLF + CRLF;
      }
      NormalizeTerminated(lines);
      SplitTerminate(lines, '\n');
    }
    assert DropTrailingEmpty(pieces) == [line] by {
      assert pieces[..3] == lines;
      assert lines[..2] == [line, ""];
      assert [line, ""][..1] == [line];
      assert DropTrailingEmpty(pieces) == DropTrailingEmpty(lines);
      assert DropTrailingEmpty(lines) == DropTrailingEmpty([line, ""]);
      assert DropTrailingEmpty([line, ""]) == DropTrailingEmpty([line]);
    }
  }

  /** Lines of a relaxed body: canonical, and each free of tabs, of neighbouring blanks and
      of trailing white space. */
  predicate RelaxedLines(lines: seq<string>)
  {
    && CanonicalLines(lines)
    && forall k :: 0 <= k < |lines| ==>
         '\t' !in lines[k] && NoAdjacent(lines[k], IsBlank)
         && (lines[k] == [] || !IsWhitespace(lines[k][|lines[k]| - 1]))
  }

  /** A relaxed line keeps every character other than blanks, folds blanks to single
      spaces and ends in no white space. */
  lemma RelaxLineShape(line: string)
    ensures var r := RelaxLine(line);
      && '\t' !in r && NoAdjacent(r, IsBlank)
      && (r == [] || !IsWhitespace(r[|r| - 1]))
      && forall c :: !IsBlank(c) && c in r ==> c in line
  {
    var f := CollapseRuns(line, IsBlank, false);
    CollapseRunsShape(line, IsBlank, false);
    CollapseRunsKeeps(line, IsBlank, false);
    var r := RelaxLine(line);
    SliceFolded(f, 0, r);
    forall c | !IsBlank(c) && c in r
      ensures c in line
    {
      assert c in f by {
        var i :| 0 <= i < |r| && r[i] == c;
        assert f[i] == c;
      }
      KeptMembers(f, IsBlank, c);
      KeptMembers(line, IsBlank, c);
    }
  }

  /** A line already in relaxed form is unchanged by relaxing it. */
  lemma RelaxLineFixed(line: string)
    requires '\t' !in line && NoAdjacent(line, IsBlank)
    requires line == [] || !IsWhitespace(line[|line| - 1])
    ensures RelaxLine(line) == line
  {
    assert forall i :: 0 <= i < |line| && IsBlank(line[i]) ==> line[i] == ' ';
    CollapseRunsFixed(line, IsBlank, false);
  }

  /** The relaxed form is CRLF-terminated relaxed lines, or the empty text. */
  lemma RelaxedBodyForm(body: string)
    ensures RelaxedLines(DropTrailingEmpty(RelaxLines(BodyPieces(body))))
    ensures RelaxedBody(body) == Terminate(DropTrailingEmpty(RelaxLines(BodyPieces(body))), CRLF)
    ensures RelaxedBody(body) == "" || EndsWith(RelaxedBody(body), CRLF)
  {
    var lines := DropTrailingEmpty(RelaxLines(BodyPieces(body)));
    BodyPiecesClean(body);
    RelaxedLinesOfPieces(BodyPieces(body));
    CrlfBodyTerminates(lines);
    if lines != [] {
      var j := Join(lines, CRLF);
      assert RelaxedBody(body) == j + CRLF;
      assert (j + CRLF)[|j + CRLF| - |CRLF|..] == CRLF;
    }
  }

  /** Relaxing pieces free of line breaks and dropping the trailing empty ones gives
      relaxed lines. */
  lemma RelaxedLinesOfPieces(pieces: seq<string>)
    requires forall k :: 0 <= k < |pieces| ==> '\r' !in pieces[k] && '\n' !in pieces[k]
    ensures RelaxedLines(DropTrailingEmpty(RelaxLines(pieces)))
  {
    var relaxed := RelaxLines(pieces);
    var lines := DropTrailingEmpty(relaxed);
    forall k | 0 <= k < |lines|
      ensures '\r' !in lines[k] && '\n' !in lines[k] && '\t' !in lines[k]
      ensures NoAdjacent(lines[k], IsBlank) && (lines[k] == [] || !IsWhitespace(lines[k][|lines[k]| - 1]))
    {
      assert lines[k] == RelaxLine(pieces[k]);
      RelaxLineNoBreaks(pieces[k]);
    }
  }

  /** A relaxed line of a piece without line breaks has none, and has the relaxed shape. */
  lemma RelaxLineNoBreaks(line: string)
    requires '\r' !in line && '\n' !in line
    ensures var r := RelaxLine(line);
      && '\r' !in r && '\n' !in r && '\t' !in r && NoAdjacent(r, IsBlank)
      && (r == [] || !IsWhitespace(r[|r| - 1]))
  {
    RelaxLineShape(line);
    var r := RelaxLine(line);
    assert !IsBlank('\r') && !IsBlank('\n');
  }

  /** A relaxed body is left as it is. */
  lemma RelaxedBodyOfRelaxed(lines: seq<string>)
    requires RelaxedLines(lines)
    ensures RelaxedBody(CrlfBody(lines)) == CrlfBody(lines)
  {
    PiecesOfCanonical(lines);
    forall k | 0 <= k < |lines|
      ensures RelaxLine(lines[k]) == lines[k]
    {
      RelaxLineFixed(lines[k]);
    }
    assert RelaxLine("") == "";
    assert RelaxLines(lines + [""]) == lines + [""];
    DropTrailingEmptyStable(lines);
  }

  /** Relaxed canonicalization is idempotent. */
  lemma RelaxedBodyIdempotent(body: string)
    ensures RelaxedBody(RelaxedBody(body)) == RelaxedBody(body)
  {
    RelaxedBodyForm(body);
    var lines := DropTrailingEmpty(RelaxLines(BodyPieces(body)));
    CrlfBodyTerminates(lines);
    RelaxedBodyOfRelaxed(lines);
  }

  /** The canonical body the hash is taken over: relaxed only for "relaxed", simple for
      "simple" and for every unknown name. */
  function CanonicalBody(body: string, bodyCan: string): string
  {
    if bodyCan == "relaxed" then RelaxedBody(body) else SimpleBody(body)
  }

  /** `compute_body_hash_b64`, SHA-256 followed by base64 being `digestB64`. */
  function ComputeBodyHashB64(body: string, bodyCan: string, digestB64: string -> string): string
  {
    digestB64(CanonicalBody(body, bodyCan))
  }

  /** Every body-canonicalization name other than "relaxed" hashes the simple form, and the
      hashed text is canonical: hashing its canonical form again gives the same value. */
  lemma BodyHashFallsBackToSimple(body: string, bodyCan: string, digestB64: string -> string)
    ensures bodyCan != "relaxed" ==>
      ComputeBodyHashB64(body, bodyCan, digestB64) == ComputeBodyHashB64(body, "simple", digestB64)
    ensures ComputeBodyHashB64(CanonicalBody(body, bodyCan), bodyCan, digestB64)
         == ComputeBodyHashB64(body, bodyCan, digestB64)
  {
    if bodyCan == "relaxed" {
      RelaxedBodyIdempotent(body);
    } else {
      SimpleBodyIdempotent(body);
    }
  }

  // ---------------------------------------------------------------------------
  // The signed-header block

  /** The value cut right after the first `b=` found in its lower-cased form. */
  function BlankSignature(value: string): string
  {
    match FindSub(Lower(value), "b=")
    case Some(pos) => value[..pos + 2]
    case None => value
  }

  /** The cut keeps a prefix of the value: all of it when no `b=` occurs in any case, and
      otherwise exactly up to the end of the first `b=`. */
  lemma BlankSignatureMeaning(value: string)
    ensures BlankSignature(value) <= value
    ensures (forall j :: !HasAt(Lower(value), "b=", j)) ==> BlankSignature(value) == value
    ensures (exists j :: HasAt(Lower(value), "b=", j)) ==>
      var r := BlankSignature(value);
      |r| >= 2 && HasAt(Lower(value), "b=", |r| - 2)
      && forall j :: 0 <= j < |r| - 2 ==> !HasAt(Lower(value), "b=", j)
  {
  }

  /** The value a selected header contributes: a DKIM-Signature is cut after its `b=`. */
  function SignedValue(header: Header): string
  {
    if EqIgnoreCase(header.0, "DKIM-Signature") then BlankSignature(header.1) else header.1
  }

  /** The text a selected header contributes. */
  function SignedLine(header: Header, headerCan: string): string
  {
    if headerCan == "relaxed" then RelaxedHeader(header.0, SignedValue(header))
    else header.0 + ": " + SignedValue(header) + CRLF
  }

  /** The contribution of one listed name: the last header of that name, or nothing. */
  function NameLine(headers: seq<Header>, name: string, headerCan: string): string
  {
    match LastMatch(headers, name)
    case Some(i) => SignedLine(headers[i], headerCan)
    case None => ""
  }

  function LineOf(headers: seq<Header>, headerCan: string): string -> string
  {
    name => NameLine(headers, name, headerCan)
  }

  /** The block of the listed names, in list order. */
  function SignedBlock(headers: seq<Header>, names: seq<string>, headerCan: string): string
  {
    ConcatMap(names, LineOf(headers, headerCan))
  }

  /** `build_signed_headers_string`; its unused index argument is not modelled. */
  method BuildSignedHeadersString(headers: seq<Header>, hList: string, headerCan: string)
    returns (out: string)
    ensures out == SignedBlock(headers, WantedNames(hList), headerCan)
  {
    var want := WantedNames(hList);
    out := "";
    for i := 0 to |want|
      invariant out == SignedBlock(headers, want[..i], headerCan)
    {
      ConcatMapStep(want, i, LineOf(headers, headerCan));
      var name := want[i];
      ghost var before := out;
      match LastMatch(headers, name) {
        case Some(idx) =>
          var (hname, hvalue) := headers[idx];
          var v := hvalue;
          if EqIgnoreCase(hname, "DKIM-Signature") {
            var pos := FindSub(Lower(v), "b=");
            if pos.Some? {
              v := v[..pos.value + 2];
            }
          }
          assert v == SignedValue(headers[idx]);
          if headerCan == "relaxed" {
            var line := CanonicalizeHeaderRelaxed(hname, v);
            out := out + line;
          } else {
            out := out + (hname + ": " + v + CRLF);
          }
        case None =>
      }
      assert out == before + NameLine(headers, name, headerCan);
    }
    assert want[..|want|] == want;
  }

  /** A name no header carries contributes nothing. */
  lemma SignedBlockSkipsUnmatched(headers: seq<Header>, a: seq<string>, name: string, b: seq<string>, headerCan: string)
    requires forall i :: 0 <= i < |headers| ==> !EqIgnoreCase(headers[i].0, name)
    ensures SignedBlock(headers, a + [name] + b, headerCan) == SignedBlock(headers, a + b, headerCan)
  {
    ConcatMapSkip(a, name, b, LineOf(headers, headerCan));
  }

  /** A name listed twice contributes the same (last) header twice. */
  lemma SignedBlockRepeats(headers: seq<Header>, a: seq<string>, name: string, b: seq<string>, headerCan: string)
    ensures SignedBlock(headers, a + [name, name] + b, headerCan)
         == SignedBlock(headers, a, headerCan) + NameLine(headers, name, headerCan)
            + NameLine(headers, name, headerCan) + SignedBlock(headers, b, headerCan)
  {
    ConcatMapRepeat(a, name, b, LineOf(headers, headerCan));
  }

  /** Under "simple" (or any name but "relaxed") every line ends in CRLF; under "relaxed"
      no line ends in a line break. */
  lemma SignedLineEnding(header: Header, headerCan: string)
    ensures headerCan != "relaxed" ==> EndsWith(SignedLine(header, headerCan), CRLF)
    ensures headerCan == "relaxed" ==>
      var line := SignedLine(header, headerCan); line[|line| - 1] != '\n'
  {
    if headerCan == "relaxed" {
      RelaxedHeaderEnd(header.0, SignedValue(header));
    }
  }

  // ---------------------------------------------------------------------------
  // Verification

  /** The fields of the first DKIM-Signature header, if there is one. */
  function DkimFields(headers: seq<Header>): Option<SignatureFields>
  {
    match FirstMatch(headers, "DKIM-Signature")
    case Some(i) => Some(FieldsOf(Pairs(SignatureText(headers[i].1))))
    case None => None
  }

  /** `bh`, `b` and `h` are all present. */
  predicate Complete(f: SignatureFields)
  {
    f.bh.Some? && f.b.Some? && f.h.Some?
  }

  /** The header and body canonicalization names: `c` (default "relaxed/simple") split on
      `/`; the body part defaults to "simple". */
  function Canonicalizations(c: Option<string>): (string, string)
  {
    var parts := Split(match c case Some(x) => x case None => "relaxed/simple", '/');
    (parts[0], if |parts| > 1 then parts[1] else "simple")
  }

  /** Without `c` the header is canonicalized "relaxed" and the body "simple". */
  lemma CanonicalizationDefault()
    ensures Canonicalizations(None) == ("relaxed", "simple")
  {
    var x, y := "relaxed", "simple";
    assert '/' !in x && '/' !in y;
    SplitAppend(x, y, '/');
    assert x + ['/'] + y == "relaxed/simple";
  }

  /** A `c` without `/` names the header canonicalization only; the body is "simple". */
  lemma CanonicalizationWithoutSlash(c: string)
    requires '/' !in c
    ensures Canonicalizations(Some(c)) == (c, "simple")
  {
  }

  /** The foreign primitives: SHA-256 followed by base64 of a text, base64 decoding,
      the two PEM key parsers, and the PKCS#1 v1.5 check of a signature over the
      SHA-256 of a text. */
  datatype Crypto<!Key, !Sig> = Crypto(
    digestB64: string -> string,
    decodeB64: string -> Result<Sig, string>,
    fromPkcs1: string -> Result<Key, string>,
    fromSpki: string -> Result<Key, string>,
    rsaVerify: (Key, string, Sig) -> bool)

  /** The public key: PKCS#1 PEM first, SubjectPublicKeyInfo PEM otherwise. */
  function ParseKey<Key, Sig>(pem: string, crypto: Crypto<Key, Sig>): Result<Key, string>
  {
    if crypto.fromPkcs1(pem).Ok? then crypto.fromPkcs1(pem) else crypto.fromSpki(pem)
  }

  /** The signed-header block of complete fields. */
  function BlockOf(headers: seq<Header>, f: SignatureFields): string
    requires f.h.Some?
  {
    SignedBlock(headers, WantedNames(f.h.value), Canonicalizations(f.c).0)
  }

  /** The body hash matches the `bh` of complete fields. */
  predicate BodyHashMatches<Key, Sig>(body: string, f: SignatureFields, crypto: Crypto<Key, Sig>)
    requires Complete(f)
  {
    ComputeBodyHashB64(body, Canonicalizations(f.c).1, crypto.digestB64) == f.bh.value
  }

  /** The outcome of verification, each check in the order the verifier makes it. */
  function Verdict<Key, Sig>(headers: seq<Header>, body: string, pem: string, crypto: Crypto<Key, Sig>)
    : Result<(), DkimError>
  {
    match DkimFields(headers)
    case None => Err(NoDkimSignature)
    case Some(f) =>
      if !Complete(f) then Err(BadSignatureField)
      else if !BodyHashMatches(body, f, crypto) then Err(BodyHashMismatch)
      else
        match crypto.decodeB64(f.b.value)
        case Err(e) => Err(Other("base64 decode sig: " + e))
        case Ok(sig) =>
          match ParseKey(pem, crypto)
          case Err(e) => Err(PublicKeyParse(e))
          case Ok(key) =>
            if crypto.rsaVerify(key, BlockOf(headers, f), sig) then Ok(()) else Err(SignatureVerifyFailed)
  }

  /** `verify_dkim_signature_rsa` on a parsed message. */
  method VerifyDkimSignatureRsa<Key, Sig>(headers: seq<Header>, body: string, pubkeyPem: string, crypto: Crypto<Key, Sig>)
    returns (r: Result<(), DkimError>)
    ensures r == Verdict(headers, body, pubkeyPem, crypto)
  {
    var found := FirstMatch(headers, "DKIM-Signature");
    if found.None? {
      return Err(NoDkimSignature);
    }
    var parsed := ParseDkimSignatureHeader(headers[found.value].1);
    var fields := parsed.value;
    if fields.bh.None? || fields.b.None? || fields.h.None? {
      return Err(BadSignatureField);
    }
    var bh, bSig, hList := fields.bh.value, fields.b.value, fields.h.value;
    var c := if fields.c.Some? then fields.c.value else "relaxed/simple";
    var parts := Split(c, '/');
    var headerCan := parts[0];
    var bodyCan := if |parts| > 1 then parts[1] else "simple";
    assert DkimFields(headers) == Some(fields) && Complete(fields);
    assert Canonicalizations(fields.c) == (headerCan, bodyCan);
    if ComputeBodyHashB64(body, bodyCan, crypto.digestB64) != bh {
      return Err(BodyHashMismatch);
    }
    var signedHeaders := BuildSignedHeadersString(headers, hList, headerCan);
    var sigBytes := crypto.decodeB64(bSig);
    if sigBytes.Err? {
      return Err(Other("base64 decode sig: " + sigBytes.error));
    }
    var pubkey := crypto.fromPkcs1(pubkeyPem);
    if pubkey.Err? {
      pubkey := crypto.fromSpki(pubkeyPem);
    }
    assert pubkey == ParseKey(pubkeyPem, crypto);
    if pubkey.Err? {
      return Err(PublicKeyParse(pubkey.error));
    }
    if !crypto.rsaVerify(pubkey.value, signedHeaders, sigBytes.value) {
      return Err(SignatureVerifyFailed);
    }
    return Ok(());
  }

  /** Without a DKIM-Signature header nothing else is looked at; with one, a missing `bh`,
      `b` or `h` is reported before the body is read. */
  lemma VerdictMissingParts<Key, Sig>(headers: seq<Header>, body: string, pem: string, crypto: Crypto<Key, Sig>)
    ensures Verdict(headers, body, pem, crypto) == Err(NoDkimSignature)
        <==> forall i :: 0 <= i < |headers| ==> !EqIgnoreCase(headers[i].0, "DKIM-Signature")
    ensures Verdict(headers, body, pem, crypto) == Err(BadSignatureField)
        <==> DkimFields(headers).Some? && !Complete(DkimFields(headers).value)
  {
    var d := DkimFields(headers);
    var v := Verdict(headers, body, pem, crypto);
    assert d.None? <==> FirstMatch(headers, "DKIM-Signature").None?;
    if d.Some? && Complete(d.value) {
      VerdictLaterStages(headers, body, pem, crypto);
    }
  }

  /** Once the fields are complete, the outcome is neither of the two early errors. */
  lemma VerdictLaterStages<Key, Sig>(headers: seq<Header>, body: string, pem: string, crypto: Crypto<Key, Sig>)
    requires DkimFields(headers).Some? && Complete(DkimFields(headers).value)
    ensures Verdict(headers, body, pem, crypto) != Err(NoDkimSignature)
    ensures Verdict(headers, body, pem, crypto) != Err(BadSignatureField)
  {
    var f := DkimFields(headers).value;
    var v := Verdict(headers, body, pem, crypto);
    if !BodyHashMatches(body, f, crypto) {
      assert v == Err(BodyHashMismatch);
    } else if crypto.decodeB64(f.b.value).Err? {
      assert v.error.Other?;
    } else if ParseKey(pem, crypto).Err? {
      assert v.error.PublicKeyParse?;
    } else {
      assert v == Ok(()) || v == Err(SignatureVerifyFailed);
    }
  }

  /** The body hash is compared before any signature work: the outcome is a body-hash
      mismatch exactly when the fields are complete and the hash differs, whatever the
      signature, the key and the RSA check would say. */
  lemma VerdictBodyHashFirst<Key, Sig>(headers: seq<Header>, body: string, pem: string, crypto: Crypto<Key, Sig>)
    ensures Verdict(headers, body, pem, crypto) == Err(BodyHashMismatch)
        <==> var f := DkimFields(headers);
             f.Some? && Complete(f.value) && !BodyHashMatches(body, f.value, crypto)
  {
  }

  /** Acceptance: a DKIM-Signature with `bh`, `b` and `h`, a matching body hash, a decodable
      signature, a parsable key, and an RSA check that holds over the signed-header block. */
  lemma VerdictAccepts<Key, Sig>(headers: seq<Header>, body: string, pem: string, crypto: Crypto<Key, Sig>)
    ensures Verdict(headers, body, pem, crypto).Ok?
        <==> var f := DkimFields(headers);
             && f.Some? && Complete(f.value) && BodyHashMatches(body, f.value, crypto)
             && crypto.decodeB64(f.value.b.value).Ok?
             && ParseKey(pem, crypto).Ok?
             && crypto.rsaVerify(ParseKey(pem, crypto).value, BlockOf(headers, f.value),
                                 crypto.decodeB64(f.value.b.value).value)
  {
  }

  /** Tampering: replacing the body of an accepted message by one whose canonical form
      hashes differently gives a body-hash mismatch. */
  lemma VerdictTamperedBody<Key, Sig>(headers: seq<Header>, body: string, body2: string, pem: string, crypto: Crypto<Key, Sig>)
    requires Verdict(headers, body, pem, crypto).Ok?
    requires crypto.digestB64(CanonicalBody(body2, Canonicalizations(DkimFields(headers).value.c).1))
          != crypto.digestB64(CanonicalBody(body, Canonicalizations(DkimFields(headers).value.c).1))
    ensures Verdict(headers, body2, pem, crypto) == Err(BodyHashMismatch)
  {
    var f := DkimFields(headers).value;
    assert Complete(f) && BodyHashMatches(body, f, crypto);
    assert !BodyHashMatches(body2, f, crypto);
  }
}
