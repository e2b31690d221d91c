/** `MsgPackDeserializer`: what it makes of any byte string, and that it undoes every legal
    encoding. Short reads behave like `BinaryReader`: `ReadByte` and `ReadSingle` throw at the end
    of the stream, `ReadBytes` returns what is left, and indexing a short result throws. */
module MsgPackDecoder {
  import opened MachineWords
  import opened MsgPackFormat

  datatype Error = EndOfStream | IndexOutOfRange | NegativeLength | BadType | BadExtension | NullKey

  /** A value and the bytes not read yet, or an exception. */
  datatype Result<T> = Ok(value: T, rest: seq<Byte>) | Err(error: Error)

  /** `ToString` of a decoded value that is used as a map key. */
  type Show = Value -> seq<Byte>

  /** What `GetUnpacker` selects for a type byte; `width` as in the encodings. */
  datatype Format =
    | FPositive | FNegative | FNil | FFalse | FTrue | FSingle | FDouble
    | FUInt(width: nat) | FInt(width: nat)
    | FStr(width: nat) | FBin(width: nat) | FArr(width: nat) | FMap(width: nat)
    | FExt(width: nat) | FFixExt(length: nat) | FInvalid

  function GetUnpacker(t: Byte): Format {
    if t < 0xC0 then
      if t < 0x80 then FPositive else if t < 0x90 then FMap(0) else if t < 0xA0 then FArr(0) else FStr(0)
    else if t > 0xDF then FNegative
    else
      match t
      case 0xC0 => FNil
      case 0xC2 => FFalse
      case 0xC3 => FTrue
      case 0xC4 => FBin(1)
      case 0xC5 => FBin(2)
      case 0xC6 => FBin(4)
      case 0xC7 => FExt(1)
      case 0xC8 => FExt(2)
      case 0xC9 => FExt(4)
      case 0xCA => FSingle
      case 0xCB => FDouble
      case 0xCC => FUInt(1)
      case 0xCD => FUInt(2)
      case 0xCE => FUInt(4)
      case 0xCF => FUInt(8)
      case 0xD0 => FInt(1)
      case 0xD1 => FInt(2)
      case 0xD2 => FInt(4)
      case 0xD3 => FInt(8)
      case 0xD4 => FFixExt(1)
      case 0xD5 => FFixExt(2)
      case 0xD6 => FFixExt(4)
      case 0xD7 => FFixExt(8)
      case 0xD8 => FFixExt(16)
      case 0xD9 => FStr(1)
      case 0xDA => FStr(2)
      case 0xDB => FStr(4)
      case 0xDC => FArr(2)
      case 0xDD => FArr(4)
      case 0xDE => FMap(2)
      case 0xDF => FMap(4)
      case _ => FInvalid
  }

  // ----- reading -----

  function ReadBytes(s: seq<Byte>, n: int): (r: Result<seq<Byte>>)
    ensures r.Ok? ==> |r.rest| <= |s|
  {
    if n < 0 then Err(NegativeLength)
    else if n <= |s| then Ok(s[..n], s[n..])
    else Ok(s, [])
  }

  /** A number of `k` bytes, most significant first. One byte is read by `ReadByte`. */
  function ReadNumber(s: seq<Byte>, k: nat): (r: Result<nat>)
    ensures r.Ok? ==> |r.rest| <= |s|
  {
    if |s| >= k then Ok(LittleEndian(Flip(s[..k])), s[k..])
    else Err(if k == 1 then EndOfStream else IndexOutOfRange)
  }

  /** The length of a string, binary, array, map or extension. The fixed formats carry it in the
      type byte; 32-bit lengths are read as signed. */
  function ReadLength(t: Byte, fixed: nat, width: nat, s: seq<Byte>): (r: Result<int>)
    requires fixed > 0
    ensures r.Ok? ==> |r.rest| <= |s|
  {
    if width == 0 then Ok(t % fixed, s)
    else
      match ReadNumber(s, width)
      case Err(e) => Err(e)
      case Ok(n, rest) => Ok(if width == 4 then Signed(n, 4) else n, rest)
  }

  function ReadSingles(s: seq<Byte>, n: nat): (r: Result<seq<nat>>)
    ensures r.Ok? ==> |r.rest| <= |s|
  {
    if n == 0 then Ok([], s)
    else if |s| < 4 then Err(EndOfStream)
    else
      match ReadSingles(s[4..], n - 1)
      case Err(e) => Err(e)
      case Ok(fs, rest) => Ok([LittleEndian(s[..4])] + fs, rest)
  }

  /** `UnpackExt`: the length only matters for function references. */
  function UnpackExt(s: seq<Byte>, length: int): (r: Result<Value>)
    ensures r.Ok? ==> |r.rest| <= |s|
  {
    if s == [] then Err(EndOfStream)
    else if !IsFuncRef(s[0]) && !IsVec(s[0]) then Err(BadExtension)
    else if IsFuncRef(s[0]) then
      match ReadBytes(s[1..], length)
      case Err(e) => Err(e)
      case Ok(data, rest) => Ok(FuncRef(s[0], data), rest)
    else
      match ReadSingles(s[1..], Parts(s[0]))
      case Err(e) => Err(e)
      case Ok(fs, rest) => Ok(Vec(s[0], fs), rest)
  }

  /** The formats without nested values. */
  function UnpackScalar(f: Format, t: Byte, s: seq<Byte>): (r: Result<Value>)
    requires !f.FArr? && !f.FMap?
    ensures r.Ok? ==> |r.rest| <= |s|
  {
    match f
    case FPositive => Ok(Int(t), s)
    case FNegative => Ok(Int(t - 256), s)
    case FNil => Ok(Nil, s)
    case FFalse => Ok(Bool(false), s)
    case FTrue => Ok(Bool(true), s)
    case FSingle => (match ReadNumber(s, 4) case Ok(n, rest) => Ok(Single(n), rest) case Err(e) => Err(e))
    case FDouble => (match ReadNumber(s, 8) case Ok(n, rest) => Ok(Double(n), rest) case Err(e) => Err(e))
    case FUInt(w) => (match ReadNumber(s, w) case Ok(n, rest) => Ok(Int(n), rest) case Err(e) => Err(e))
    case FInt(w) => (match ReadNumber(s, w) case Ok(n, rest) => Ok(Int(Signed(n, w)), rest) case Err(e) => Err(e))
    case FStr(w) => UnpackBlob(t, w, s, true)
    case FBin(w) => UnpackBlob(t, w, s, false)
    case FExt(w) => (match ReadLength(t, 1, w, s) case Ok(n, rest) => UnpackExt(rest, n) case Err(e) => Err(e))
    case FFixExt(n) => UnpackExt(s, n)
    case FInvalid => Err(BadType)
  }

  function UnpackBlob(t: Byte, width: nat, s: seq<Byte>, text: bool): (r: Result<Value>)
    ensures r.Ok? ==> |r.rest| <= |s|
  {
    match ReadLength(t, 32, width, s)
    case Err(e) => Err(e)
    case Ok(n, rest) =>
      match ReadBytes(rest, n)
      case Err(e) => Err(e)
      case Ok(bytes, rest') => Ok(if text then Str(bytes) else Bin(bytes), rest')
  }

  /** `UnpackAny(reader).ToString()`. */
  function KeyOf(show: Show, v: Value): seq<Byte>
    requires v != Nil
  {
    if v.Str? then v.bytes else show(v)
  }

  /** `UnpackAny`: one type byte, then the unpacker selected for it. */
  function Unpack(show: Show, s: seq<Byte>): (r: Result<Value>)
    ensures r.Ok? ==> |r.rest| < |s|
    decreases |s|, 0
  {
    if s == [] then Err(EndOfStream) else UnpackAs(show, GetUnpacker(s[0]), s[0], s[1..])
  }

  function UnpackAs(show: Show, f: Format, t: Byte, s: seq<Byte>): (r: Result<Value>)
    ensures r.Ok? ==> |r.rest| <= |s|
    decreases |s|, 2
  {
    match f
    case FArr(w) =>
      (match ReadLength(t, 16, w, s)
       case Err(e) => Err(e)
       case Ok(n, rest) =>
         match UnpackItems(show, rest, n)
         case Err(e) => Err(e)
         case Ok(items, rest') => Ok(Arr(items), rest'))
    case FMap(w) =>
      (match ReadLength(t, 16, w, s)
       case Err(e) => Err(e)
       case Ok(n, rest) =>
         match UnpackEntries(show, rest, n, [])
         case Err(e) => Err(e)
         case Ok(entries, rest') => Ok(Map(entries), rest'))
    case _ => UnpackScalar(f, t, s)
  }

  /** The loop of `UnpackArray`; a negative length reads nothing. */
  function UnpackItems(show: Show, s: seq<Byte>, n: int): (r: Result<seq<Value>>)
    ensures r.Ok? ==> |r.rest| <= |s|
    decreases |s|, 1
  {
    if n <= 0 then Ok([], s)
    else
      match Unpack(show, s)
      case Err(e) => Err(e)
      case Ok(v, rest) =>
        match UnpackItems(show, rest, n - 1)
        case Err(e) => Err(e)
        case Ok(vs, rest') => Ok([v] + vs, rest')
  }

  /** The loop of `UnpackMap`, which sets the entries read so far one by one. */
  function UnpackEntries(show: Show, s: seq<Byte>, n: int, entries: seq<Entry>): (r: Result<seq<Entry>>)
    ensures r.Ok? ==> |r.rest| <= |s|
    decreases |s|, 1
  {
    if n <= 0 then Ok(entries, s)
    else
      match Unpack(show, s)
      case Err(e) => Err(e)
      case Ok(k, rest) =>
        if k == Nil then Err(NullKey)
        else
          match Unpack(show, rest)
          case Err(e) => Err(e)
          case Ok(v, rest') => UnpackEntries(show, rest', n - 1, SetEntry(entries, KeyOf(show, k), v))
  }
}
