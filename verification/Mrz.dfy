/** The machine-readable zone: `extract_mrz_from_dg1` and `parse_mrz`. */
module Mrz {
  import opened Bytes
  import opened Wrappers

  datatype MrzFields = MrzFields(
    issuingCountry: string,
    documentNumber: string,
    nationality: string,
    dateOfBirth: string,
    gender: string,
    expiryDate: string,
    lastName: string,
    firstName: string)

  // ----- finding the zone in data group 1

  /** Where the zone's bytes start and end, looking from `index` on. */
  function FindMrz(dg1: Buffer, index: nat): Option<(nat, nat)>
    decreases |dg1| - index
  {
    if index + 2 >= |dg1| then None
    else if dg1[index] == 0x5f && dg1[index + 1] == 0x1f && index + 3 + dg1[index + 2] <= |dg1| then
      Some((index + 3, index + 3 + dg1[index + 2]))
    else FindMrz(dg1, index + 1)
  }

  /** ASCII text only: other UTF-8 text is not part of this model. */
  function ToText(bytes: seq<byte>): Result<string> {
    if forall i :: 0 <= i < |bytes| ==> bytes[i] < 128 then
      Ok(seq(|bytes|, i requires 0 <= i < |bytes| => bytes[i] as char))
    else Err
  }

  function ExtractMrz(dg1: Buffer): Result<string> {
    match FindMrz(dg1, 0)
    case None => ToText(dg1)
    case Some((start, end)) => if start <= end <= |dg1| then ToText(dg1[start..end]) else Err
  }

  /** The object's tag stands at `i`, and as many bytes as its one length byte announces follow. */
  predicate ZoneAt(dg1: Buffer, i: nat) {
    i + 2 < |dg1| && dg1[i] == 0x5f && dg1[i + 1] == 0x1f && i + 3 + dg1[i + 2] <= |dg1|
  }

  /** The text of these bytes, which fails exactly if one of them is not ASCII. */
  ghost predicate IsTextOf(r: Result<string>, bytes: seq<byte>) {
    match r
    case Err => exists i :: 0 <= i < |bytes| && bytes[i] >= 128
    case Ok(s) => |s| == |bytes| && forall i :: 0 <= i < |bytes| ==> s[i] as int == bytes[i]
  }

  lemma TextIsText(bytes: seq<byte>)
    ensures IsTextOf(ToText(bytes), bytes)
  {
  }

  /** The text behind the first tag that fits, or all of the data group if none does. */
  method ReadMrz(dg1: Buffer) returns (r: Result<string>)
    ensures r == ExtractMrz(dg1)
    ensures forall i: nat :: ZoneAt(dg1, i) && (forall j: nat :: j < i ==> !ZoneAt(dg1, j)) ==>
              IsTextOf(r, dg1[i + 3..i + 3 + dg1[i + 2]])
    ensures (forall i: nat :: !ZoneAt(dg1, i)) ==> IsTextOf(r, dg1)
  {
    hide ToText, IsTextOf;
    var last := if |dg1| >= 2 then |dg1| - 2 else 0;
    for index := 0 to last
      invariant FindMrz(dg1, 0) == FindMrz(dg1, index)
      invariant forall j: nat :: j < index ==> !ZoneAt(dg1, j)
    {
      if dg1[index] == 0x5f && dg1[index + 1] == 0x1f {
        var len := dg1[index + 2];
        var start := index + 3;
        if start + len <= |dg1| {
          assert ZoneAt(dg1, index);
          TextIsText(dg1[start..start + len]);
          return ToText(dg1[start..start + len]);
        }
      }
    }
    TextIsText(dg1);
    return ToText(dg1);
  }

  // ----- text operations of the Rust standard library

  /** `replace(.., "")` for each of the characters in `drop`. */
  function Without(s: string, drop: set<char>): string {
    if s == "" then ""
    else if s[0] in drop then Without(s[1..], drop)
    else [s[0]] + Without(s[1..], drop)
  }

  /** `replace('<', " ")` */
  function Spaced(s: string): string {
    seq(|s|, i requires 0 <= i < |s| => if s[i] == '<' then ' ' else s[i])
  }

  predicate IsSpace(c: char) {
    c == ' ' || 9 as char <= c <= 13 as char
  }

  function TrimStart(s: string): string {
    if s != "" && IsSpace(s[0]) then TrimStart(s[1..]) else s
  }

  function TrimEnd(s: string): string {
    if s != "" && IsSpace(s[|s| - 1]) then TrimEnd(s[..|s| - 1]) else s
  }

  function Trim(s: string): string {
    TrimEnd(TrimStart(s))
  }

  /** The position of the first two adjoining fillers, or the length if there are none. */
  function FindFillers(s: string): (k: nat)
    ensures k <= |s|
    ensures k < |s| ==> k + 2 <= |s|
  {
    if |s| < 2 then |s|
    else if s[0] == '<' && s[1] == '<' then 0
    else 1 + FindFillers(s[1..])
  }

  /** `split("<<")` */
  function SplitFillers(s: string): (parts: seq<string>)
    ensures parts != []
  {
    var k := FindFillers(s);
    if k == |s| then [s] else [s[..k]] + SplitFillers(s[k + 2..])
  }

  /** The name in a part of the split, if there is such a part. */
  function NameIn(parts: seq<string>, k: nat): string {
    if k < |parts| then Trim(Spaced(parts[k])) else ""
  }

  /** `get(lo..hi).unwrap_or_default()` */
  function Sub(s: string, lo: nat, hi: nat): string
    requires lo <= hi
  {
    if hi <= |s| then s[lo..hi] else ""
  }

  // ----- the parser

  const FILLER := {'<'}
  const FILLERS := {'<', '_'}

  function Clean(mrz: string): string {
    Without(Without(mrz, {'\n'}), {' '})
  }

  function ParseMrz(mrz: string): MrzFields {
    var clean := Clean(mrz);
    if |clean| >= 88 && clean[0] == 'P' then
      var names := SplitFillers(clean[5..44]);
      MrzFields(
        Without(clean[2..5], FILLER),
        Without(clean[44..53], FILLERS),
        Without(clean[54..57], FILLER),
        Without(clean[57..63], FILLER),
        Without(clean[64..65], FILLER),
        Without(clean[65..71], FILLERS),
        NameIn(names, 0),
        NameIn(names, 1))
    else
      var names := SplitFillers(Sub(clean, 60, 90));
      MrzFields(
        Without(Sub(clean, 2, 5), FILLER),
        Without(Sub(clean, 5, 14), FILLERS),
        Without(Sub(clean, 45, 48), FILLER),
        Without(Sub(clean, 30, 36), FILLER),
        Without(Sub(clean, 37, 38), FILLER),
        Without(Sub(clean, 38, 44), FILLERS),
        NameIn(names, 0),
        NameIn(names, 1))
  }
}
