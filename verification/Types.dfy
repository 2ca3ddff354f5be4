/** The integer widths, PLC data types and named ADS ports the driver is built on. */
module Types {

  type uint16 = x: int | 0 <= x < 0x1_0000
  type uint32 = x: int | 0 <= x < 0x1_0000_0000
  /** `size_t` on a 64-bit host. */
  type uint64 = x: int | 0 <= x < 0x1_0000_0000_0000_0000
  type Byte = bv8

  function Wrap16(x: int): uint16 { x % 0x1_0000 }

  function Wrap32(x: int): uint32 { x % 0x1_0000_0000 }

  function Wrap64(x: int): uint64 { x % 0x1_0000_0000_0000_0000 }

  lemma Unwrapped(x: int)
    ensures 0 <= x < 0x1_0000 ==> Wrap16(x) == x
    ensures 0 <= x < 0x1_0000_0000_0000_0000 ==> Wrap64(x) == x
  {
  }

  function Min(a: nat, b: nat): nat { if a < b then a else b }

  datatype Option<+T> = None | Some(value: T)

  datatype Operation = Read | Write

  datatype AdsDataType =
    | UNKNOWN | BOOL | SINT | BYTE | USINT | INT | WORD | DWORD | UINT
    | DINT | UDINT | LINT | REAL | LREAL | STRING

  /** Element sizes in bytes (`ads_datatype_sizes`). */
  function ElemSize(t: AdsDataType): uint32
  {
    match t
    case UNKNOWN => 0
    case BOOL | SINT | BYTE | USINT | STRING => 1
    case INT | WORD | UINT => 2
    case DWORD | DINT | UDINT | REAL => 4
    case LREAL | LINT => 8
  }

  /** The types of each size. */
  lemma ElementSizes(t: AdsDataType)
    ensures ElemSize(t) == 8 <==> t in {LREAL, LINT}
    ensures ElemSize(t) == 4 <==> t in {DWORD, DINT, UDINT, REAL}
    ensures ElemSize(t) == 2 <==> t in {INT, WORD, UINT}
    ensures ElemSize(t) == 1 <==> t in {BOOL, SINT, BYTE, USINT, STRING}
    ensures ElemSize(t) == 0 <==> t == UNKNOWN
  {
  }

  /** Name to type; an unlisted name yields UNKNOWN, as `std::map::operator[]` does. */
  const DATA_TYPES: map<string, AdsDataType> := map[
    "BOOL" := BOOL, "SINT" := SINT, "BYTE" := BYTE, "USINT" := USINT,
    "INT" := INT, "WORD" := WORD, "DWORD" := DWORD, "UINT" := UINT,
    "DINT" := DINT, "UDINT" := UDINT, "REAL" := REAL, "LREAL" := LREAL,
    "LINT" := LINT, "STRING" := STRING]

  const PORT_NAMES: map<string, uint16> := map[
    "LOGGER" := 100, "RTIME" := 200, "TRACE" := 290, "IO" := 300,
    "SPS" := 400, "NC" := 500, "ISG" := 550, "PCS" := 600,
    "PLC" := 801, "PLC_RTS1" := 801, "PLC_RTS2" := 811, "PLC_RTS3" := 821,
    "PLC_RTS4" := 831, "PLC_TC3" := 851]
}
