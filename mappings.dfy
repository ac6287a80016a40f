/** The repeatable `-mapping local;remote` flag: its value type, the split
    on the first ';' and the list the flag appends to. */
module Mappings {
  import opened Base

  /** A local directory and the directory the download client knows it as. */
  datatype Mapping = Mapping(local: string, remote: string)

  /** The position of the first ';' in `s`, if there is one. */
  function FirstSeparator(s: string): (r: Option<nat>)
    ensures r.None? <==> ';' !in s
    ensures r.Some? ==> r.value < |s| && s[r.value] == ';' && ';' !in s[..r.value]
  {
    if |s| == 0 then None
    else if s[0] == ';' then Some(0)
    else match FirstSeparator(s[1..])
      case None => None
      case Some(i) => Some(i + 1)
  }

  /** `strings.SplitN(value, ";", 2)` read as a mapping: the text before the
      first ';' is the local side, everything after it (further ';'
      included) the remote side; a value without ';' gives one part only
      and no mapping. */
  function SplitMapping(value: string): (r: Option<Mapping>)
    ensures r.None? <==> ';' !in value
    ensures r.Some? ==> value == r.value.local + ";" + r.value.remote && ';' !in r.value.local
  {
    match FirstSeparator(value)
    case None => None
    case Some(i) => Some(Mapping(value[..i], value[i + 1..]))
  }

  /** The split is determined by the first ';': whatever follows it,
      separators included, is the remote side. */
  lemma SplitMappingUnique(local: string, remote: string)
    requires ';' !in local
    ensures SplitMapping(local + ";" + remote) == Some(Mapping(local, remote))
  {
    var s := local + ";" + remote;
    assert s[..|local|] == local;
    assert s[|local|] == ';';
    var i := FirstSeparator(s).value;
    assert i == |local|;
    assert s[i + 1..] == remote;
  }

  /** The list behind the `-mapping` flag, in declaration order. */
  class MappingList {
    var items: seq<Mapping>

    constructor ()
      ensures items == []
    {
      items := [];
    }

    /** `mappings.Set`: appends the parsed mapping, or rejects the value
        and leaves the list as it was. */
    method Set(value: string) returns (err: Option<Error>)
      modifies this
      ensures err.Some? <==> ';' !in value
      ensures err.Some? ==> err.value == InvalidMapping(value) && items == old(items)
      ensures err.None? ==> |items| == |old(items)| + 1 && items[..|old(items)|] == old(items)
      ensures err.None? ==> var m := items[|items| - 1];
                              value == m.local + ";" + m.remote && ';' !in m.local
    {
      var parts := SplitMapping(value);
      if parts.None? {
        return Some(InvalidMapping(value));
      }
      items := items + [parts.value];
      err := None;
    }
  }
}
