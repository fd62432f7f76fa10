/** The message as the mail parser hands it over: an ordered list of headers, each a
    name and an unfolded value, duplicates kept in place. */
module Mail {
  import opened Wrappers
  import opened Strings

  type Header = (string, string)

  /** The first header whose name equals `name` ignoring ASCII case
      (`iter().find(..)`, `get_first_header`). */
  function FirstMatch(headers: seq<Header>, name: string): (r: Option<nat>)
    ensures r.None? <==> forall i :: 0 <= i < |headers| ==> !EqIgnoreCase(headers[i].0, name)
    ensures r.Some? ==> (r.value < |headers| && EqIgnoreCase(headers[r.value].0, name)
                         && forall j :: 0 <= j < r.value ==> !EqIgnoreCase(headers[j].0, name))
  {
    if headers == [] then None
    else if EqIgnoreCase(headers[0].0, name) then Some(0)
    else
      match FirstMatch(headers[1..], name)
      case None => None
      case Some(i) => Some(i + 1)
  }

  /** The last header whose name equals `name` ignoring ASCII case (`iter().rev().find(..)`). */
  function LastMatch(headers: seq<Header>, name: string): (r: Option<nat>)
    ensures r.None? <==> forall i :: 0 <= i < |headers| ==> !EqIgnoreCase(headers[i].0, name)
    ensures r.Some? ==> (r.value < |headers| && EqIgnoreCase(headers[r.value].0, name)
                         && forall j :: r.value < j < |headers| ==> !EqIgnoreCase(headers[j].0, name))
  {
    if headers == [] then None
    else if EqIgnoreCase(headers[|headers| - 1].0, name) then Some(|headers| - 1)
    else LastMatch(headers[..|headers| - 1], name)
  }

  /** The header names of an `h=` list: split on `:`, each trimmed. */
  function WantedNames(hList: string): (names: seq<string>)
    ensures |names| == |Split(hList, ':')|
    ensures forall k :: 0 <= k < |names| ==> names[k] == Trim(Split(hList, ':')[k])
  {
    var parts := Split(hList, ':');
    seq(|parts|, k requires 0 <= k < |parts| => Trim(parts[k]))
  }

  /** Every wanted name is free of `:` and has no white space at either end, so it can only
      be matched against a header name as a whole. */
  lemma WantedNamesShape(hList: string)
    ensures forall k :: 0 <= k < |WantedNames(hList)| ==>
      var n := WantedNames(hList)[k];
      ':' !in n && (n == [] || (!IsWhitespace(n[0]) && !IsWhitespace(n[|n| - 1])))
  {
    var parts := Split(hList, ':');
    var names := WantedNames(hList);
    forall k | 0 <= k < |names|
      ensures ':' !in names[k]
    {
      TrimAbsent(parts[k], ':');
    }
  }
}
