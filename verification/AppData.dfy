/** The application data unit: function class, function number as a bit map, data. */
module AppData {
  import opened Wrappers
  import opened Bytes

  datatype Afn =
    | Answer | Init | DataForward | QueryData | PortCheck | CtrlCmd | Report | RouteGet | RouteSet | RouteCtrl
    | RouteDataForward | RouteDataRead | FileTransfer | Debug | ConcurrentReadMeter | Test

  function AfnToByte(afn: Afn): byte {
    match afn
    case Answer => 0x00
    case Init => 0x01
    case DataForward => 0x02
    case QueryData => 0x03
    case PortCheck => 0x04
    case CtrlCmd => 0x05
    case Report => 0x06
    case RouteGet => 0x10
    case RouteSet => 0x11
    case RouteCtrl => 0x12
    case RouteDataForward => 0x13
    case RouteDataRead => 0x14
    case FileTransfer => 0x15
    case Debug => 0xF0
    case ConcurrentReadMeter => 0xF1
    case Test => 0xFF
  }

  function AfnFromByte(b: byte): (r: Option<Afn>)
    ensures r.Some? ==> AfnToByte(r.value) == b
  {
    if b == 0x00 then Some(Answer) else if b == 0x01 then Some(Init) else if b == 0x02 then Some(DataForward)
    else if b == 0x03 then Some(QueryData) else if b == 0x04 then Some(PortCheck) else if b == 0x05 then Some(CtrlCmd)
    else if b == 0x06 then Some(Report) else if b == 0x10 then Some(RouteGet) else if b == 0x11 then Some(RouteSet)
    else if b == 0x12 then Some(RouteCtrl) else if b == 0x13 then Some(RouteDataForward)
    else if b == 0x14 then Some(RouteDataRead) else if b == 0x15 then Some(FileTransfer)
    else if b == 0xF0 then Some(Debug) else if b == 0xF1 then Some(ConcurrentReadMeter)
    else if b == 0xFF then Some(Test) else None
  }

  lemma AfnRoundTrip(afn: Afn)
    ensures AfnFromByte(AfnToByte(afn)) == Some(afn)
  {
  }

  /** A function number n from 1 to 255: row (n - 1) / 8, and bit (n - 1) % 8 of the mark. */
  datatype DataFlag = DataFlag(type_: byte, mark: byte)

  /** The number of zero bits below the lowest one. */
  function LowBit(mark: byte): byte
    requires mark != 0
  {
    if mark & 1 != 0 then 0 else 1 + LowBit(mark >> 1)
  }

  /** The lowest one bit, alone. */
  function LowestOnly(mark: byte): byte {
    mark & (0 - mark)
  }

  /** The number a flag stands for. An empty mark is a loop without end, or a shift too far;
      row 31 with the top bit, and rows above, overflow. */
  function FnNum(flag: DataFlag): Decoded<byte> {
    if flag.mark == 0 || flag.type_ > 31 || (flag.type_ == 31 && LowBit(flag.mark) == 7) then Fault
    else Good(flag.type_ * 8 + LowBit(flag.mark) + 1)
  }

  function FlagOf(fnNum: byte): DataFlag
    requires fnNum != 0
  {
    DataFlag((fnNum - 1) / 8, 1 << ((fnNum - 1) % 8))
  }

  lemma {:induction false} LowBitSpec(mark: byte)
    requires mark != 0
    ensures var low := LowBit(mark);
            && low < 8 && (mark >> low) & 1 == 1 && mark & ((1 << low) - 1) == 0
            && 1 << low == LowestOnly(mark)
  {
    if mark & 1 == 0 {
      LowBitSpec(mark >> 1);
    }
  }

  /** Only one position has a one with nothing below it. */
  lemma {:induction false} LowBitUnique(mark: byte, index: byte)
    requires index < 8 && (mark >> index) & 1 == 1 && mark & ((1 << index) - 1) == 0
    ensures mark != 0 && LowBit(mark) == index
  {
    LowBitSpec(mark);
  }

  /** The loop that looks for the lowest one bit. */
  method AsFnNum(flag: DataFlag) returns (fnNum: Decoded<byte>)
    ensures fnNum == FnNum(flag)
  {
    var index: byte := 0;
    while index < 8 && (flag.mark >> index) & 1 == 0
      invariant index <= 8 && flag.mark & ((1 << index) - 1) == 0
      decreases 8 - index
    {
      index := index + 1;
    }
    if index == 8 {
      return Fault;
    }
    LowBitUnique(flag.mark, index);
    if flag.type_ > 31 || (flag.type_ == 31 && index == 7) {
      return Fault;
    }
    return Good(flag.type_ * 8 + index + 1);
  }

  /** Every function number from 1 to 255 survives its bit map. */
  lemma FnNumRoundTrip(fnNum: byte)
    requires fnNum != 0
    ensures FnNum(FlagOf(fnNum)) == Good(fnNum)
  {
    LowBitSpec(FlagOf(fnNum).mark);
  }

  /** A bit map decodes to a number whose own bit map keeps only the lowest bit. */
  lemma FlagReencode(flag: DataFlag)
    requires FnNum(flag).Good?
    ensures FnNum(flag).value != 0 && FlagOf(FnNum(flag).value) == DataFlag(flag.type_, LowestOnly(flag.mark))
  {
    LowBitSpec(flag.mark);
  }

  // ---- data units ----

  const APP_DATA_PREFIX_SIZE := 3

  datatype App = App(afn: Afn, flag: DataFlag, data: Option<seq<byte>>) {
    function DataLength(): nat { if data.Some? then |data.value| else 0 }

    function Length(): nat { APP_DATA_PREFIX_SIZE + DataLength() }

    function CommMark(): byte {
      if afn == DataForward || afn == RouteDataForward || afn == ConcurrentReadMeter then 1 else 0
    }
  }

  function NewApp(afn: Afn, fnNum: byte, data: Option<seq<byte>>): Decoded<App> {
    if fnNum == 0 then Fault else Good(App(afn, FlagOf(fnNum), data))
  }

  /** The flag of every value the program can build. */
  predicate Canonical(app: App) {
    FnNum(app.flag).Good? && LowestOnly(app.flag.mark) == app.flag.mark
  }

  lemma NewAppCanonical(afn: Afn, fnNum: byte, data: Option<seq<byte>>)
    requires fnNum != 0
    ensures Canonical(NewApp(afn, fnNum, data).value)
    ensures FnNum(NewApp(afn, fnNum, data).value.flag) == Good(fnNum)
  {
    FnNumRoundTrip(fnNum);
    FlagReencode(FlagOf(fnNum));
  }

  function Encode(app: App): (bytes: seq<byte>)
    ensures |bytes| == app.Length()
  {
    [AfnToByte(app.afn), app.flag.mark, app.flag.type_] + (if app.data.Some? then app.data.value else [])
  }

  function Decode(bytes: seq<byte>): Decoded<App> {
    if |bytes| < APP_DATA_PREFIX_SIZE then Bad(AppDataLength)
    else
      var afn := AfnFromByte(bytes[0]);
      if afn.None? then Bad(UnknownAfn)
      else
        var fnNum := FnNum(DataFlag(bytes[2], bytes[1]));
        if fnNum.Good? then
          NewApp(afn.value, fnNum.value, if |bytes| > APP_DATA_PREFIX_SIZE then Some(bytes[3..]) else None)
        else Fault
  }

  function Check(app: App, afn: Afn, fnNum: byte, length: nat): Decoded<()> {
    if app.afn != afn then Bad(UnknownAfn)
    else
      match FnNum(app.flag)
      case Good(n) =>
        if n != fnNum then Bad(WrongFn)
        else if app.DataLength() != length then Bad(DataLength)
        else Good(())
      case _ => Fault
  }

  /** A data unit survives exactly when its data is absent or not empty. */
  lemma AppRoundTrip(app: App)
    requires Canonical(app)
    ensures Decode(Encode(app)) == Good(app) <==> app.data != Some([])
  {
    AfnRoundTrip(app.afn);
    FlagReencode(app.flag);
    var bytes := Encode(app);
    if app.data.Some? {
      assert bytes[3..] == app.data.value;
    }
  }

  /** The bytes of a data unit survive decoding except for the upper bits of the mark. */
  lemma AppReencode(bytes: seq<byte>)
    requires Decode(bytes).Good?
    ensures |bytes| >= 3 && Canonical(Decode(bytes).value)
    ensures Encode(Decode(bytes).value) == bytes[1 := LowestOnly(bytes[1])]
  {
    var flag := DataFlag(bytes[2], bytes[1]);
    FlagReencode(flag);
    NewAppCanonical(Answer, FnNum(flag).value, None);
    assert bytes == bytes[..3] + bytes[3..];
  }

  /** The data units whose bit map the program cannot evaluate: no bit at all, or a number
      above 255. */
  lemma AppFaults(bytes: seq<byte>)
    ensures Decode(bytes) == Fault <==>
            |bytes| >= 3 && AfnFromByte(bytes[0]).Some?
            && (bytes[1] == 0 || bytes[2] > 31 || (bytes[2] == 31 && bytes[1] == 0x80))
  {
    if |bytes| >= 3 && bytes[1] != 0 {
      LowBitSpec(bytes[1]);
      TopBit(bytes[1]);
      if FnNum(DataFlag(bytes[2], bytes[1])).Good? {
        FlagReencode(DataFlag(bytes[2], bytes[1]));
      }
    }
  }

  lemma TopBit(mark: byte)
    requires mark != 0
    ensures LowBit(mark) == 7 <==> mark == 0x80
  {
    LowBitSpec(mark);
    if mark == 0x80 {
      LowBitUnique(mark, 7);
    }
  }

  /** Why bytes are no data unit: fewer than three, or a class that does not exist. */
  lemma AppErrors(bytes: seq<byte>)
    ensures Decode(bytes) == Bad(AppDataLength) <==> |bytes| < 3
    ensures Decode(bytes) == Bad(UnknownAfn) <==> |bytes| >= 3 && AfnFromByte(bytes[0]).None?
    ensures Decode(bytes).Bad? ==> Decode(bytes).error == AppDataLength || Decode(bytes).error == UnknownAfn
  {
    hide AfnFromByte, FnNum;
    if |bytes| >= 3 && AfnFromByte(bytes[0]).Some? && FnNum(DataFlag(bytes[2], bytes[1])).Good? {
      FlagReencode(DataFlag(bytes[2], bytes[1]));
    }
  }

  // ---- codes and places ----

  /** The codes of the function classes. */
  lemma AfnCodes()
    ensures [AfnToByte(Answer), AfnToByte(Init), AfnToByte(DataForward), AfnToByte(QueryData), AfnToByte(PortCheck),
             AfnToByte(CtrlCmd), AfnToByte(Report)] == [0, 1, 2, 3, 4, 5, 6]
    ensures [AfnToByte(RouteGet), AfnToByte(RouteSet), AfnToByte(RouteCtrl), AfnToByte(RouteDataForward),
             AfnToByte(RouteDataRead), AfnToByte(FileTransfer)] == [0x10, 0x11, 0x12, 0x13, 0x14, 0x15]
    ensures [AfnToByte(Debug), AfnToByte(ConcurrentReadMeter), AfnToByte(Test)] == [0xF0, 0xF1, 0xFF]
    ensures forall b: byte :: AfnFromByte(b).Some? <==>
              b <= 6 || 0x10 <= b <= 0x15 || b == 0xF0 || b == 0xF1 || b == 0xFF
  {
  }

  /** Class, mark, row, data: the functions of a class stand in rows of eight, and the mark has
      the bit of the place in the row, the lowest for the first. */
  lemma AppPlaces(afn: Afn, fnNum: byte, data: Option<seq<byte>>)
    requires fnNum != 0
    ensures var app := NewApp(afn, fnNum, data).value;
            var bytes, place := Encode(app), fnNum - 1 - 8 * app.flag.type_;
            && bytes[0] == AfnToByte(afn) && bytes[2] == (fnNum - 1) / 8 && place < 8
            && bytes[1] == (if place == 0 then 1 else if place == 1 then 2 else if place == 2 then 4
                            else if place == 3 then 8 else if place == 4 then 16 else if place == 5 then 32
                            else if place == 6 then 64 else 128)
            && bytes[3..] == (if data.Some? then data.value else [])
  {
    assert (fnNum - 1) % 8 == fnNum - 1 - 8 * ((fnNum - 1) / 8);
  }
}
