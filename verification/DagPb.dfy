/**
 A reader of protobuf messages by field number and wire type, and on top of it of
 dag-pb nodes and UnixFS messages as their schemas describe them.
 */
module DagPb {
  import opened Common

  /** A field on the wire: a varint (wire type 0) or length-delimited octets (wire type 2). */
  datatype Field = Number(field: nat, value: nat) | Octets(field: nat, data: seq<byte>)

  /** Seven bits an octet, least significant first, all but the last octet marked; the value and the octets it takes. */
  function ReadVarint(s: seq<byte>): (r: Option<(nat, nat)>)
    ensures r.Some? ==> 0 < r.value.1 <= |s|
  {
    if s == [] then None
    else if s[0] < 128 then Some((s[0], 1))
    else
      match ReadVarint(s[1..])
      case None => None
      case Some((high, n)) => Some((s[0] - 128 + 128 * high, n + 1))
  }

  /** The field at the front, and the octets it takes. */
  function ReadField(s: seq<byte>): (r: Option<(Field, nat)>)
    ensures r.Some? ==> 0 < r.value.1 <= |s|
  {
    match ReadVarint(s)
    case None => None
    case Some((tag, n)) =>
      match ReadVarint(s[n..])
      case None => None
      case Some((v, k)) =>
        if tag % 8 == 0 then Some((Number(tag / 8, v), n + k))
        else if tag % 8 == 2 && n + k + v <= |s| then Some((Octets(tag / 8, s[n + k..n + k + v]), n + k + v))
        else None
  }

  function ReadFields(s: seq<byte>): Option<seq<Field>>
    decreases |s|
  {
    if s == [] then Some([])
    else
      match ReadField(s)
      case None => None
      case Some((x, n)) =>
        match ReadFields(s[n..])
        case None => None
        case Some(xs) => Some([x] + xs)
  }

  /** The values of the varint fields of a number, in order. */
  function Numbers(fields: seq<Field>, n: nat): seq<nat> {
    if fields == [] then []
    else (if fields[0].Number? && fields[0].field == n then [fields[0].value] else []) + Numbers(fields[1..], n)
  }

  /** The contents of the length-delimited fields of a number, in order. */
  function Strings(fields: seq<Field>, n: nat): seq<seq<byte>> {
    if fields == [] then []
    else (if fields[0].Octets? && fields[0].field == n then [fields[0].data] else []) + Strings(fields[1..], n)
  }

  /** The last value given for an optional field counts. */
  function Last<T>(values: seq<T>): Option<T> {
    if values == [] then None else Some(values[|values| - 1])
  }

  /** message Data { required Type = 1; optional bytes Data = 2; optional filesize = 3; repeated blocksizes = 4 } */
  datatype FileData = FileData(kind: nat, data: Option<seq<byte>>, filesize: Option<nat>, blocksizes: seq<nat>)

  function ReadFileData(s: seq<byte>): Option<FileData> {
    match ReadFields(s)
    case None => None
    case Some(fs) =>
      match Last(Numbers(fs, 1))
      case None => None
      case Some(kind) => Some(FileData(kind, Last(Strings(fs, 2)), Last(Numbers(fs, 3)), Numbers(fs, 4)))
  }

  /** message PBLink { optional bytes Hash = 2; optional uint64 Tsize = 3 } */
  datatype PbLink = PbLink(hash: Option<seq<byte>>, tsize: Option<nat>)

  function ReadLink(s: seq<byte>): Option<PbLink> {
    match ReadFields(s)
    case None => None
    case Some(fs) => Some(PbLink(Last(Strings(fs, 2)), Last(Numbers(fs, 3))))
  }

  function ReadLinks(links: seq<seq<byte>>): Option<seq<PbLink>> {
    if links == [] then Some([])
    else
      match ReadLink(links[0])
      case None => None
      case Some(l) =>
        match ReadLinks(links[1..])
        case None => None
        case Some(ls) => Some([l] + ls)
  }

  /** message PBNode { repeated PBLink Links = 2; optional bytes Data = 1 }, the data a UnixFS message. */
  datatype PbNode = PbNode(links: seq<PbLink>, data: FileData)

  function ReadNode(s: seq<byte>): Option<PbNode> {
    match ReadFields(s)
    case None => None
    case Some(fs) =>
      match Last(Strings(fs, 1))
      case None => None
      case Some(message) =>
        match ReadFileData(message)
        case None => None
        case Some(data) =>
          match ReadLinks(Strings(fs, 2))
          case None => None
          case Some(links) => Some(PbNode(links, data))
  }
}
