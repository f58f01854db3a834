/** `Array.prototype.join`, which the CSV export uses and slugs are compared with. */
module Text {
  function Join(parts: seq<string>, separator: string): string {
    if parts == [] then ""
    else if |parts| == 1 then parts[0]
    else parts[0] + separator + Join(parts[1..], separator)
  }

  lemma JoinStep(first: string, parts: seq<string>, separator: string)
    requires parts != []
    ensures Join([first] + parts, separator) == first + separator + Join(parts, separator)
  {
    assert ([first] + parts)[1..] == parts;
  }
}
