/** The key lookup of `dkim_key_fetch.rs`: the tag list parser that normalizes white
    space and lower-cases keys, the TXT name built from the first DKIM-Signature, and
    the choice of the first TXT record that carries `p=`. The DNS answer is an input. */
module KeyFetch {
  import opened Wrappers
  import opened Strings
  import opened Tags
  import opened Mail
  import opened Errors
  import Utils

  // ---------------------------------------------------------------------------
  // `parse_tag_value_pairs`

  /** CRLF and LF become spaces, then every white-space run is folded to one space. */
  function NormalizeTags(s: string): string
  {
    Utils.CollapseWhitespace(Replace(Replace(s, CRLF, " "), "\n", " "))
  }

  /** The entry of one segment: the trimmed, lower-cased text before the first `=` and
      the trimmed rest; none for a segment without `=`. */
  function EntryOf(segment: string): Option<Pair>
  {
    match SegmentPair(segment)
    case Some((k, v)) => Some((Lower(Trim(k)), Trim(v)))
    case None => None
  }

  /** The entries of the segments, in order. */
  function EntriesOf(segments: seq<string>): seq<Pair>
  {
    if segments == [] then []
    else
      var n := |segments| - 1;
      EntriesOf(segments[..n]) + (match EntryOf(segments[n]) case Some(p) => [p] case None => [])
  }

  lemma EntriesOfStep(segments: seq<string>, i: nat)
    requires i < |segments|
    ensures EntriesOf(segments[..i + 1])
         == EntriesOf(segments[..i]) + (match EntryOf(segments[i]) case Some(p) => [p] case None => [])
  {
    assert segments[..i + 1][..i] == segments[..i];
  }

  /** The entries of a tag list, in order. */
  function Entries(s: string): seq<Pair>
  {
    EntriesOf(Split(NormalizeTags(s), ';'))
  }

  /** The map `parse_tag_value_pairs` returns. */
  function TagValueMap(s: string): map<string, string>
  {
    ToMap(Entries(s))
  }

  method ParseTagValuePairs(s: string) returns (m: map<string, string>)
    ensures m == TagValueMap(s)
  {
    m := map[];
    var norm := Utils.CollapseWhitespace(Replace(Replace(s, CRLF, " "), "\n", " "));
    var parts := Split(norm, ';');
    for i := 0 to |parts|
      invariant m == ToMap(EntriesOf(parts[..i]))
    {
      EntriesOfStep(parts, i);
      ghost var prev := EntriesOf(parts[..i]);
      var p := Trim(parts[i]);
      if '=' in p {
        var eqPos := IndexOf(p, '=');
        var key := Lower(Trim(p[..eqPos]));
        var val := Trim(p[eqPos + 1..]);
        assert EntryOf(parts[i]) == Some((key, val));
        assert EntriesOf(parts[..i + 1]) == prev + [(key, val)];
        ToMapSnoc(prev, (key, val));
        m := m[key := val];
      } else {
        assert EntryOf(parts[i]) == None;
        assert EntriesOf(parts[..i + 1]) == prev;
      }
    }
    assert parts[..|parts|] == parts;
  }

  /** `parse_dkim_header_params` is `parse_tag_value_pairs`. */
  method ParseDkimHeaderParams(header: string) returns (m: map<string, string>)
    ensures m == TagValueMap(header)
  {
    m := ParseTagValuePairs(header);
  }

  /** The only white space left is the plain space. */
  predicate SpacesOnly(s: string)
  {
    forall i :: 0 <= i < |s| && IsWhitespace(s[i]) ==> s[i] == ' '
  }

  /** Neither end is white space. */
  predicate Trimmed(s: string)
  {
    s == [] || (!IsWhitespace(s[0]) && !IsWhitespace(s[|s| - 1]))
  }

  /** The shape of an entry: a lower-case key with no white space at its ends, and a value
      with no white space at its ends and none inside but plain spaces. */
  predicate EntryShape(p: Pair)
  {
    Lower(p.0) == p.0 && Trimmed(p.0) && Trimmed(p.1) && SpacesOnly(p.1)
  }

  lemma SpacesOnlyAbsent(s: string)
    ensures SpacesOnly(s) <==>
      ('\t' !in s && '\n' !in s && '\r' !in s && '\U{0B}' !in s && '\U{0C}' !in s)
  {
    if !SpacesOnly(s) {
      var i :| 0 <= i < |s| && IsWhitespace(s[i]) && s[i] != ' ';
      assert s[i] in s;
    }
  }

  lemma SplitSpacesOnly(s: string, sep: char)
    requires SpacesOnly(s)
    ensures forall k :: 0 <= k < |Split(s, sep)| ==> SpacesOnly(Split(s, sep)[k])
  {
    SpacesOnlyAbsent(s);
    SplitKeepsAbsent(s, sep, '\t');
    SplitKeepsAbsent(s, sep, '\n');
    SplitKeepsAbsent(s, sep, '\r');
    SplitKeepsAbsent(s, sep, '\U{0B}');
    SplitKeepsAbsent(s, sep, '\U{0C}');
    forall k | 0 <= k < |Split(s, sep)|
      ensures SpacesOnly(Split(s, sep)[k])
    {
      SpacesOnlyAbsent(Split(s, sep)[k]);
    }
  }

  lemma LowerTrimmed(s: string)
    requires Trimmed(s)
    ensures Lower(Lower(s)) == Lower(s) && Trimmed(Lower(s))
  {
  }

  lemma SpacesOnlySlice(s: string, a: nat, b: nat)
    requires SpacesOnly(s) && a <= b <= |s|
    ensures SpacesOnly(s[a..b])
  {
    assert forall i :: 0 <= i < b - a ==> s[a..b][i] == s[a + i];
  }

  lemma SpacesOnlyTrim(s: string)
    requires SpacesOnly(s)
    ensures SpacesOnly(Trim(s))
  {
    var off := TrimSlice(s);
    SpacesOnlySlice(s, off, off + |Trim(s)|);
  }

  lemma EntryOfShape(segment: string)
    requires SpacesOnly(segment)
    ensures EntryOf(segment).Some? ==> EntryShape(EntryOf(segment).value)
  {
    var sp := SegmentPair(segment);
    if sp.Some? {
      var k, v := sp.value.0, sp.value.1;
      SpacesOnlyTrim(segment);
      SegmentValueSpaces(segment);
      SpacesOnlyTrim(v);
      LowerTrimmed(Trim(k));
      var key, val := Lower(Trim(k)), Trim(v);
      assert EntryOf(segment) == Some((key, val));
      assert EntryShape((key, val));
    }
  }

  /** The value of a segment is a slice of the trimmed segment. */
  lemma SegmentValueSpaces(segment: string)
    requires SpacesOnly(Trim(segment)) && SegmentPair(segment).Some?
    ensures SpacesOnly(SegmentPair(segment).value.1)
  {
    var p := Trim(segment);
    var eq := IndexOf(p, '=');
    SpacesOnlySlice(p, eq + 1, |p|);
    assert p[eq + 1..] == p[eq + 1..|p|];
  }

  lemma {:induction false} EntriesOfShape(segments: seq<string>)
    requires forall k :: 0 <= k < |segments| ==> SpacesOnly(segments[k])
    ensures forall i :: 0 <= i < |EntriesOf(segments)| ==> EntryShape(EntriesOf(segments)[i])
    decreases |segments|
  {
    if segments != [] {
      var n := |segments| - 1;
      EntriesOfShape(segments[..n]);
      EntryOfShape(segments[n]);
    }
  }

  /** Every key of the map is lower case with no white space at its ends; every value has
      no white space at its ends, and inside it only single plain spaces survive: runs of
      white space are folded, not removed. */
  lemma TagValueMapShape(s: string)
    ensures forall k :: k in TagValueMap(s) ==> EntryShape((k, TagValueMap(s)[k]))
  {
    var norm := NormalizeTags(s);
    Utils.CollapseWhitespaceShape(Replace(Replace(s, CRLF, " "), "\n", " "));
    SplitSpacesOnly(norm, ';');
    EntriesOfShape(Split(norm, ';'));
    ToMapAll(Entries(s), EntryShape);
  }

  /** A repeated key keeps its last value. */
  lemma TagValueMapLastWins(s: string, key: string)
    ensures key in TagValueMap(s) <==> exists i :: 0 <= i < |Entries(s)| && Entries(s)[i].0 == key
    ensures key in TagValueMap(s) ==>
      exists i :: (0 <= i < |Entries(s)| && Entries(s)[i] == (key, TagValueMap(s)[key])
                   && forall j :: i < j < |Entries(s)| ==> Entries(s)[j].0 != key)
  {
    ToMapLastValue(Entries(s), key);
    LastValueMeaning(Entries(s), key);
  }

  /** A text with no `;` and no white space at all. */
  predicate Token(s: string)
  {
    forall i :: 0 <= i < |s| ==> s[i] != ';' && !IsWhitespace(s[i])
  }

  /** Text without white space is left alone by the normalization. */
  lemma NormalizeClean(s: string)
    requires forall i :: 0 <= i < |s| ==> !IsWhitespace(s[i])
    ensures NormalizeTags(s) == s
  {
    assert '\r' !in s && '\n' !in s;
    ReplaceAbsent(s, CRLF, " ");
    ReplaceAbsent(s, "\n", " ");
    CollapseRunsFixed(s, IsWhitespace, false);
  }

  lemma EntryOfTag(k: string, v: string)
    requires Token(k) && Token(v) && k != [] && '=' !in k && Lower(k) == k
    ensures EntryOf(k + "=" + v) == Some((k, v))
  {
    SegmentPairOfTag(k, v);
    TrimUntouched(k);
    if v != [] {
      TrimUntouched(v);
    }
  }

  /** A single tag `k=v` is read as that one entry, whatever `=` signs the value holds
      (base64 padding survives). */
  lemma TagValueMapSingle(k: string, v: string)
    requires Token(k) && Token(v) && k != [] && '=' !in k && Lower(k) == k
    ensures TagValueMap(k + "=" + v) == map[k := v]
  {
    var s := k + "=" + v;
    assert Token(s) by {
      assert forall i :: 0 <= i < |s| ==> s[i] == if i < |k| then k[i] else if i == |k| then '=' else v[i - |k| - 1];
    }
    assert NormalizeTags(s) == s by {
      NormalizeClean(s);
    }
    assert Split(s, ';') == [s] by {
      assert ';' !in s;
    }
    assert EntriesOf([s]) == [(k, v)] by {
      EntryOfTag(k, v);
      assert [s][..0] == [];
    }
    assert ToMap([(k, v)]) == map[k := v] by {
      assert [(k, v)][..0] == [];
    }
  }

  // ---------------------------------------------------------------------------
  // `dkim_key_fetch`

  /** The TXT name to query, or the error raised before any lookup: the first
      DKIM-Signature header, its `d` and its `s`, in that order. */
  function QueryName(headers: seq<Header>): Result<string, DkimError>
  {
    match FirstMatch(headers, "DKIM-Signature")
    case None => Err(DkimKeyFetch("No DKIM-Signature header found in message."))
    case Some(i) =>
      var params := TagValueMap(headers[i].1);
      if "d" !in params then Err(DkimKeyFetch("DKIM header missing 'd=' domain parameter."))
      else if "s" !in params then Err(DkimKeyFetch("DKIM header missing 's=' selector parameter."))
      else Ok(params["s"] + "._domainkey." + params["d"])
  }

  /** A TXT record: its fragments concatenated in order. */
  function RecordText(fragments: seq<string>): string
  {
    Join(fragments, "")
  }

  /** The `p` of a record, if its tags have one. */
  function RecordKey(fragments: seq<string>): Option<string>
  {
    var params := TagValueMap(RecordText(fragments));
    if "p" in params then Some(params["p"]) else None
  }

  /** The first item `f` gives something for, and what it gives. */
  function FirstSome<T, U>(xs: seq<T>, f: T -> Option<U>): (r: Option<U>)
    ensures r.None? <==> forall i :: 0 <= i < |xs| ==> f(xs[i]).None?
    ensures r.Some? ==> exists i :: (0 <= i < |xs| && f(xs[i]) == r
                                     && forall j :: 0 <= j < i ==> f(xs[j]).None?)
  {
    if xs == [] then None
    else if f(xs[0]).Some? then f(xs[0])
    else
      var rest := FirstSome(xs[1..], f);
      assert rest.Some? ==> exists i :: (0 <= i < |xs| && f(xs[i]) == rest
                                         && forall j :: 0 <= j < i ==> f(xs[j]).None?) by {
        if rest.Some? {
          var i :| 0 <= i < |xs| - 1 && f(xs[1..][i]) == rest
                   && forall j :: 0 <= j < i ==> f(xs[1..][j]).None?;
          assert f(xs[i + 1]) == rest;
          assert forall j :: 1 <= j < i + 1 ==> xs[j] == xs[1..][j - 1];
        }
      }
      rest
  }

  lemma FirstSomeStep<T, U>(xs: seq<T>, f: T -> Option<U>, i: nat)
    requires i < |xs| && f(xs[i]).None? && FirstSome(xs[..i], f).None?
    ensures FirstSome(xs[..i + 1], f).None?
  {
    assert forall k :: 0 <= k < i ==> xs[..i][k] == xs[k];
    assert forall k :: 0 <= k <= i ==> xs[..i + 1][k] == xs[k];
  }

  lemma FirstSomeAt<T, U>(xs: seq<T>, f: T -> Option<U>, i: nat)
    requires i < |xs| && f(xs[i]).Some? && FirstSome(xs[..i], f).None?
    ensures FirstSome(xs, f) == f(xs[i])
  {
    assert forall k :: 0 <= k < i ==> xs[..i][k] == xs[k];
  }

  function KeyOf(): seq<string> -> Option<string>
  {
    fragments => RecordKey(fragments)
  }

  lemma KeyOfParams(fragments: seq<string>, params: map<string, string>)
    requires params == TagValueMap(Join(fragments, ""))
    ensures KeyOf()(fragments) == if "p" in params then Some(params["p"]) else None
  {
  }

  /** The `p` of the first record that has one. */
  function FirstKey(records: seq<seq<string>>): Option<string>
  {
    FirstSome(records, KeyOf())
  }

  /** The outcome of `dkim_key_fetch` when the resolver answers `lookup`. */
  function FetchOutcome(headers: seq<Header>, lookup: string -> Result<seq<seq<string>>, string>)
    : Result<string, DkimError>
  {
    match QueryName(headers)
    case Err(e) => Err(e)
    case Ok(name) =>
      match lookup(name)
      case Err(e) => Err(DkimKeyFetch(e))
      case Ok(records) =>
        match FirstKey(records)
        case Some(key) => Ok(key)
        case None => Err(DkimKeyFetch("No 'p=' public key found in TXT records for " + name + "."))
  }

  /** `dkim_key_fetch` on a parsed message, the TXT lookup given as `lookup`. */
  method FetchDkimKey(headers: seq<Header>, lookup: string -> Result<seq<seq<string>>, string>)
    returns (r: Result<string, DkimError>)
    ensures r == FetchOutcome(headers, lookup)
  {
    var found := FirstMatch(headers, "DKIM-Signature");
    if found.None? {
      return Err(DkimKeyFetch("No DKIM-Signature header found in message."));
    }
    var params := ParseDkimHeaderParams(headers[found.value].1);
    if "d" !in params {
      return Err(DkimKeyFetch("DKIM header missing 'd=' domain parameter."));
    }
    var domain := params["d"];
    if "s" !in params {
      return Err(DkimKeyFetch("DKIM header missing 's=' selector parameter."));
    }
    var selector := params["s"];
    var dnsName := selector + "._domainkey." + domain;
    assert QueryName(headers) == Ok(dnsName);
    var txtResponse := lookup(dnsName);
    if txtResponse.Err? {
      return Err(DkimKeyFetch(txtResponse.error));
    }
    var key := FirstRecordKey(txtResponse.value);
    if key.Some? {
      return Ok(key.value);
    }
    return Err(DkimKeyFetch("No 'p=' public key found in TXT records for " + dnsName + "."));
  }

  /** The loop over the TXT records: each record's fragments joined and parsed, the first
      `p` found returned. */
  method FirstRecordKey(records: seq<seq<string>>) returns (key: Option<string>)
    ensures key == FirstKey(records)
  {
    for i := 0 to |records|
      invariant FirstSome(records[..i], KeyOf()).None?
    {
      var joined := Join(records[i], "");
      var txtParams := ParseTagValuePairs(joined);
      KeyOfParams(records[i], txtParams);
      if "p" in txtParams {
        FirstSomeAt(records, KeyOf(), i);
        return Some(txtParams["p"]);
      }
      FirstSomeStep(records, KeyOf(), i);
    }
    assert records[..|records|] == records;
    return None;
  }

  // ---------------------------------------------------------------------------

  /** A missing DKIM-Signature header, `d` or `s` is reported before any lookup: the
      outcome is that error whatever the resolver would answer. */
  lemma ErrorsBeforeLookup(headers: seq<Header>, lookup: string -> Result<seq<seq<string>>, string>)
    requires QueryName(headers).Err?
    ensures FetchOutcome(headers, lookup) == Err(QueryName(headers).error)
  {
  }

  /** The resolver is asked about one name only: two resolvers that agree on it give the
      same outcome. */
  lemma OnlyQueryNameMatters(headers: seq<Header>, l1: string -> Result<seq<seq<string>>, string>,
                             l2: string -> Result<seq<seq<string>>, string>)
    requires QueryName(headers).Ok? && l1(QueryName(headers).value) == l2(QueryName(headers).value)
    ensures FetchOutcome(headers, l1) == FetchOutcome(headers, l2)
  {
  }

  /** A first record whose `p` is empty wins: the empty text is returned as the key. */
  lemma EmptyKeyReturned(rest: seq<seq<string>>)
    ensures FirstKey([["p="]] + rest) == Some("")
  {
    assert TagValueMap(RecordText(["p="])) == map["p" := ""] by {
      assert RecordText(["p="]) == "p" + "=" + "";
      TagValueMapSingle("p", "");
    }
    KeyOfParams(["p="], map["p" := ""]);
    assert ([["p="]] + rest)[0] == ["p="];
  }
}
