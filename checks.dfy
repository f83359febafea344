/** The checks generateChecks appends to a table. Table.addCheck parses a
    serialized order list into a check, or refuses it; the parser is not
    part of this model and is given as a function. */
module Checks {
  import opened Entities

  /** The checks made from the longest prefix of `lists` that parses: the
      appends generateChecks performs before its first refused addCheck. */
  function ParsedPrefix(lists: seq<string>, parse: string -> Option<Check>): (cs: seq<Check>)
    ensures |cs| <= |lists|
    ensures forall j :: 0 <= j < |cs| ==> parse(lists[j]) == Some(cs[j])
    ensures |cs| < |lists| ==> parse(lists[|cs|]) == None
  {
    if lists == [] then []
    else
      match parse(lists[0])
      case None => []
      case Some(c) => [c] + ParsedPrefix(lists[1..], parse)
  }

  /** Every list parses. */
  ghost predicate AllParse(lists: seq<string>, parse: string -> Option<Check>)
  {
    forall j :: 0 <= j < |lists| ==> parse(lists[j]).Some?
  }

  /** The appends stop short of the end exactly when some list is refused. */
  lemma ParsedPrefixComplete(lists: seq<string>, parse: string -> Option<Check>)
    ensures |ParsedPrefix(lists, parse)| == |lists| <==> AllParse(lists, parse)
  {
  }

  /** The contract of ParsedPrefix pins it down: a sequence of checks made
      from the first i lists, with list i refused or i at the end, is it. */
  lemma ParsedPrefixUnique(lists: seq<string>, parse: string -> Option<Check>, cs: seq<Check>)
    requires |cs| <= |lists|
    requires forall j :: 0 <= j < |cs| ==> parse(lists[j]) == Some(cs[j])
    requires |cs| < |lists| ==> parse(lists[|cs|]) == None
    ensures cs == ParsedPrefix(lists, parse)
  {
  }
}
