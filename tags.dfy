/** `tag=value` lists as the prototypes read them: the text is split on `;`, each
    segment is trimmed and cut at its first `=`, and a later tag overrides an
    earlier one with the same name. */
module Tags {
  import opened Wrappers
  import opened Strings

  type Pair = (string, string)

  /** A trimmed segment cut at its first `=` (`find('=')`, `split_once('=')`); a segment
      without `=`, the empty one included, gives nothing. */
  function SegmentPair(segment: string): Option<Pair>
  {
    var p := Trim(segment);
    if '=' in p then
      var eq := IndexOf(p, '=');
      Some((p[..eq], p[eq + 1..]))
    else
      None
  }

  /** The pairs of the segments, in order. */
  function PairsOf(segments: seq<string>): seq<Pair>
  {
    if segments == [] then []
    else
      var n := |segments| - 1;
      PairsOf(segments[..n]) + (match SegmentPair(segments[n]) case Some(p) => [p] case None => [])
  }

  /** The pairs of a `;`-separated text. */
  function Pairs(s: string): seq<Pair>
  {
    PairsOf(Split(s, ';'))
  }

  lemma PairsOfStep(segments: seq<string>, i: nat)
    requires i < |segments|
    ensures PairsOf(segments[..i + 1])
         == PairsOf(segments[..i]) + (match SegmentPair(segments[i]) case Some(p) => [p] case None => [])
  {
    assert segments[..i + 1][..i] == segments[..i];
  }

  lemma PairsOfSnoc(segments: seq<string>, segment: string)
    ensures PairsOf(segments + [segment])
         == PairsOf(segments) + (match SegmentPair(segment) case Some(p) => [p] case None => [])
  {
    assert (segments + [segment])[..|segments|] == segments;
  }

  /** Two parts that are tags add their pairs at the end. */
  lemma PairsOfTwo(front: seq<string>, first: string, second: string, p1: Pair, p2: Pair)
    requires SegmentPair(first) == Some(p1) && SegmentPair(second) == Some(p2)
    ensures PairsOf(front + [first] + [second]) == PairsOf(front) + [p1] + [p2]
  {
    PairsOfSnoc(front, first);
    PairsOfSnoc(front + [first], second);
  }

  /** The value of the last pair named `key`. */
  function LastValue(pairs: seq<Pair>, key: string): Option<string>
  {
    if pairs == [] then None
    else
      var n := |pairs| - 1;
      if pairs[n].0 == key then Some(pairs[n].1) else LastValue(pairs[..n], key)
  }

  /** `LastValue` finds a value exactly when some pair has the name, and the value it finds
      belongs to a pair with that name that no later pair shares. */
  lemma {:induction false} LastValueMeaning(pairs: seq<Pair>, key: string)
    ensures LastValue(pairs, key).None? <==> forall i :: 0 <= i < |pairs| ==> pairs[i].0 != key
    ensures LastValue(pairs, key).Some? ==>
      exists i :: (0 <= i < |pairs| && pairs[i] == (key, LastValue(pairs, key).value)
                   && forall j :: i < j < |pairs| ==> pairs[j].0 != key)
    decreases |pairs|
  {
    if pairs != [] {
      var n := |pairs| - 1;
      LastValueMeaning(pairs[..n], key);
      if pairs[n].0 != key {
        assert forall i :: 0 <= i < n ==> pairs[..n][i] == pairs[i];
        if LastValue(pairs, key).Some? {
          var i :| 0 <= i < n && pairs[..n][i] == (key, LastValue(pairs, key).value)
                   && forall j :: i < j < n ==> pairs[..n][j].0 != key;
          assert pairs[i] == (key, LastValue(pairs, key).value);
        }
      }
    }
  }

  /** The map built by inserting every pair in order (`HashMap::insert` in a loop). */
  function ToMap(pairs: seq<Pair>): map<string, string>
  {
    if pairs == [] then map[]
    else
      var n := |pairs| - 1;
      ToMap(pairs[..n])[pairs[n].0 := pairs[n].1]
  }

  lemma ToMapSnoc(pairs: seq<Pair>, p: Pair)
    ensures ToMap(pairs + [p]) == ToMap(pairs)[p.0 := p.1]
  {
    assert (pairs + [p])[..|pairs|] == pairs;
  }

  /** A property every pair has holds of every entry of the map. */
  lemma {:induction false} ToMapAll(pairs: seq<Pair>, P: Pair -> bool)
    requires forall i :: 0 <= i < |pairs| ==> P(pairs[i])
    ensures forall k :: k in ToMap(pairs) ==> P((k, ToMap(pairs)[k]))
    decreases |pairs|
  {
    if pairs != [] {
      var n := |pairs| - 1;
      ToMapAll(pairs[..n], P);
    }
  }

  // ---------------------------------------------------------------------------

  /** A tag written after a space, as in `; bh=...`, is read the same. */
  lemma SegmentPairSpaced(key: string, value: string)
    requires '=' !in key && key != [] && !IsWhitespace(key[0])
    requires value == [] || !IsWhitespace(value[|value| - 1])
    ensures SegmentPair(" " + key + "=" + value) == Some((key, value))
  {
    var s := key + "=" + value;
    assert " " + key + "=" + value == " " + s;
    assert (" " + s)[1..] == s;
    assert TrimStart(" " + s) == TrimStart(s);
    SegmentPairOfTag(key, value);
  }

  /** The map holds exactly the names that occur, each with its last value. */
  lemma {:induction false} ToMapLastValue(pairs: seq<Pair>, key: string)
    ensures key in ToMap(pairs) <==> LastValue(pairs, key).Some?
    ensures key in ToMap(pairs) ==> ToMap(pairs)[key] == LastValue(pairs, key).value
    decreases |pairs|
  {
    if pairs != [] {
      ToMapLastValue(pairs[..|pairs| - 1], key);
    }
  }

  /** A pair added at the end decides the value of its name and leaves the others alone. */
  lemma LastValueSnoc(pairs: seq<Pair>, p: Pair, key: string)
    ensures LastValue(pairs + [p], key) == if p.0 == key then Some(p.1) else LastValue(pairs, key)
  {
    assert (pairs + [p])[..|pairs|] == pairs;
  }

  /** A segment `key=value` with no white space at its ends is read as that pair, whatever
      `=` signs the value holds. */
  lemma SegmentPairOfTag(key: string, value: string)
    requires '=' !in key && key != [] && !IsWhitespace(key[0])
    requires value == [] || !IsWhitespace(value[|value| - 1])
    ensures SegmentPair(key + "=" + value) == Some((key, value))
  {
    var s := key + "=" + value;
    assert s == key + ['='] + value;
    assert s[..|key|] == key && s[|key|] == '=' && s[|key| + 1..] == value;
    IndexOfUnique(s, '=', |key|);
    assert s[0] == key[0];
    assert s[|s| - 1] == if value == [] then '=' else value[|value| - 1];
    TrimUntouched(s);
  }
}
