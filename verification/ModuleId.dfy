/** The module identities of a network: records of different sizes, each saying its own. */
module ModuleId {
  import opened Wrappers
  import opened Bytes
  import AppData
  import UserData

  const HEADER_SIZE := 3
  const PREFIX_SIZE := 11
  const FN: byte := 7

  datatype Info = Info(address: UserData.Address, deviceType: byte, factory: seq<byte>, idFormat: byte, id: seq<byte>)

  datatype Response = Response(total: u16, infos: seq<Info>)

  /** Two bytes that are text: two ASCII characters, or one character of two bytes. */
  predicate Utf8Pair(pair: seq<byte>) {
    |pair| == 2 && ((pair[0] < 0x80 && pair[1] < 0x80) || (0xC2 <= pair[0] <= 0xDF && 0x80 <= pair[1] <= 0xBF))
  }

  predicate ValidInfo(i: Info) {
    Utf8Pair(i.factory) && i.idFormat < 4 && |i.id| < 256
  }

  predicate ValidInfos(infos: seq<Info>) {
    forall k :: 0 <= k < |infos| ==> ValidInfo(infos[k])
  }

  // ---- parsing ----

  function ParseRecord(bytes: seq<byte>): Decoded<Info>
    requires |bytes| >= PREFIX_SIZE
  {
    if !Utf8Pair([bytes[8], bytes[7]]) then Fault
    else if bytes[10] >= 4 then Bad(IdFormat)
    else Good(Info(UserData.Reversed(bytes[..6]), bytes[6], [bytes[8], bytes[7]], bytes[10], bytes[11..]))
  }

  /** The first record of the bytes, and how long it is. */
  function FirstRecord(bytes: seq<byte>): Decoded<(Info, nat)>
    ensures FirstRecord(bytes).Good? ==> PREFIX_SIZE <= FirstRecord(bytes).value.1 <= |bytes|
  {
    if |bytes| < PREFIX_SIZE then Bad(DataLength)
    else
      var size := PREFIX_SIZE + bytes[9] as nat;
      if |bytes| < size then Bad(DataLength)
      else
        match ParseRecord(bytes[..size])
        case Good(info) => Good((info, size))
        case Bad(e) => Bad(e)
        case Fault => Fault
  }

  /** Records and their bytes put before what was parsed after them. */
  function Prepend(infos: seq<Info>, size: nat, rest: Decoded<(seq<Info>, nat)>): Decoded<(seq<Info>, nat)> {
    match rest
    case Good(r) => Good((infos + r.0, size + r.1))
    case Bad(e) => Bad(e)
    case Fault => Fault
  }

  /** So many records, and how many bytes they take. */
  function Records(bytes: seq<byte>, count: nat): (r: Decoded<(seq<Info>, nat)>)
    ensures r.Good? ==> r.value.1 <= |bytes| && |r.value.0| == count
  {
    if count == 0 then Good(([], 0))
    else
      match FirstRecord(bytes)
      case Bad(e) => Bad(e)
      case Fault => Fault
      case Good(first) => Prepend([first.0], first.1, Records(bytes[first.1..], count - 1))
  }

  function Parse(app: AppData.App): Decoded<Response> {
    if app.DataLength() < HEADER_SIZE then Bad(DataLength)
    else
      var data := app.data.value;
      match Records(data[HEADER_SIZE..], data[2] as nat)
      case Bad(e) => Bad(e)
      case Fault => Fault
      case Good(records) =>
        match AppData.Check(app, AppData.RouteGet, FN, HEADER_SIZE + records.1)
        case Bad(e) => Bad(e)
        case Fault => Fault
        case Good(_) => Good(Response(Le16(data[0], data[1]), records.0))
  }

  // ---- the loop over the index ----

  lemma PrependTwice(infos: seq<Info>, size: nat, more: seq<Info>, extra: nat, rest: Decoded<(seq<Info>, nat)>)
    ensures Prepend(infos, size, Prepend(more, extra, rest)) == Prepend(infos + more, size + extra, rest)
  {
    if rest.Good? {
      assert infos + (more + rest.value.0) == infos + more + rest.value.0;
    }
  }

  lemma NoRecords(bytes: seq<byte>)
    ensures Records(bytes, 0) == Good(([], 0))
  {
  }

  lemma PrependNothing(rest: Decoded<(seq<Info>, nat)>)
    ensures Prepend([], 0, rest) == rest
  {
    if rest.Good? {
      assert [] + rest.value.0 == rest.value.0;
    }
  }

  lemma {:induction false} RecordsSplit(bytes: seq<byte>, count: nat, more: nat)
    requires Records(bytes, count).Good?
    ensures var (infos, size) := Records(bytes, count).value;
            Records(bytes, count + more) == Prepend(infos, size, Records(bytes[size..], more))
    decreases count
  {
    hide FirstRecord, Prepend;
    if count == 0 {
      assert bytes[0..] == bytes;
      PrependNothing(Records(bytes, more));
    } else {
      var (first, size) := FirstRecord(bytes).value;
      var tail := bytes[size..];
      var rest := Records(tail, count - 1);
      PrependGood([first], size, rest);
      RecordsSplit(tail, count - 1, more);
      assert tail[rest.value.1..] == bytes[size + rest.value.1..];
      PrependTwice([first], size, rest.value.0, rest.value.1, Records(tail[rest.value.1..], more));
    }
  }

  lemma PrependGood(infos: seq<Info>, size: nat, rest: Decoded<(seq<Info>, nat)>)
    ensures Prepend(infos, size, rest).Good? <==> rest.Good?
    ensures rest.Good? ==> Prepend(infos, size, rest).value == (infos + rest.value.0, size + rest.value.1)
  {
  }

  lemma OneRecord(bytes: seq<byte>, count: nat)
    requires count > 0
    ensures FirstRecord(bytes).Good? ==>
              Records(bytes, 1) == Good(([FirstRecord(bytes).value.0], FirstRecord(bytes).value.1))
    ensures FirstRecord(bytes).Bad? ==> Records(bytes, count) == Bad(FirstRecord(bytes).error)
    ensures FirstRecord(bytes).Fault? ==> Records(bytes, count) == Fault
  {
    hide FirstRecord;
    if FirstRecord(bytes).Good? {
      var (first, size) := FirstRecord(bytes).value;
      assert Records(bytes[size..], 0) == Good(([], 0));
      assert [first] + [] == [first];
    }
  }

  /** An error stays an error behind the records before it. */
  lemma PrependKeeps(infos: seq<Info>, size: nat, bytes: seq<byte>, count: nat)
    requires count > 0
    ensures FirstRecord(bytes).Bad? ==> Prepend(infos, size, Records(bytes, count)) == Bad(FirstRecord(bytes).error)
    ensures FirstRecord(bytes).Fault? ==> Prepend(infos, size, Records(bytes, count)) == Fault
    ensures FirstRecord(bytes).Good? ==>
              Prepend(infos, size, Records(bytes, 1))
              == Good((infos + [FirstRecord(bytes).value.0], size + FirstRecord(bytes).value.1))
  {
    OneRecord(bytes, count);
  }

  /** The parser as it is: one index moves over the data, and never leaves it. */
  method ParseModuleIds(app: AppData.App) returns (r: Decoded<Response>)
    ensures r == Parse(app)
  {
    hide FirstRecord, Records, Prepend, AppData.FnNum;
    if app.DataLength() < HEADER_SIZE {
      return Bad(DataLength);
    }
    var data := app.data.value;
    var count := data[2] as nat;
    var index := HEADER_SIZE;
    var infos := [];
    ghost var all := data[HEADER_SIZE..];
    NoRecords(all);
    for n := 0 to count
      invariant HEADER_SIZE <= index <= |data|
      invariant Records(all, n) == Good((infos, index - HEADER_SIZE))
    {
      assert data[index..] == all[index - HEADER_SIZE..];
      RecordsSplit(all, n, 1);
      RecordsSplit(all, n, count - n);
      PrependKeeps(infos, index - HEADER_SIZE, data[index..], count - n);
      var first := FirstRecord(data[index..]);
      match first
      case Bad(e) =>
        return Bad(e);
      case Fault =>
        return Fault;
      case Good(record) =>
        infos, index := infos + [record.0], index + record.1;
    }
    match AppData.Check(app, AppData.RouteGet, FN, index)
    case Bad(e) =>
      return Bad(e);
    case Fault =>
      return Fault;
    case Good(_) =>
      return Good(Response(Le16(data[0], data[1]), infos));
  }

  // ---- printing ----

  function RecordBytes(i: Info): seq<byte>
    requires ValidInfo(i)
  {
    UserData.Reversed(i.address) + [i.deviceType, i.factory[1], i.factory[0], ToByte(|i.id|), i.idFormat] + i.id
  }

  function InfosBytes(infos: seq<Info>): seq<byte>
    requires ValidInfos(infos)
  {
    if infos == [] then [] else RecordBytes(infos[0]) + InfosBytes(infos[1..])
  }

  function Print(r: Response): seq<byte>
    requires |r.infos| < 256 && ValidInfos(r.infos)
  {
    ToLe16(r.total) + [ToByte(|r.infos|)] + InfosBytes(r.infos)
  }

  /** The right class and number, on any flag that means the number. */
  predicate Addressed(app: AppData.App) {
    app.afn == AppData.RouteGet && AppData.FnNum(app.flag) == Good(FN)
  }

  lemma RecordParses(i: Info)
    requires ValidInfo(i)
    ensures ParseRecord(RecordBytes(i)) == Good(i)
  {
    var record := RecordBytes(i);
    assert record[..6] == UserData.Reversed(i.address) && record[11..] == i.id;
    UserData.ReversedTwice(i.address);
    assert i.factory == [i.factory[0], i.factory[1]];
  }

  lemma RecordRoundTrip(i: Info, rest: seq<byte>)
    requires ValidInfo(i)
    ensures FirstRecord(RecordBytes(i) + rest) == Good((i, |RecordBytes(i)|))
    ensures (RecordBytes(i) + rest)[|RecordBytes(i)|..] == rest
  {
    hide ParseRecord;
    RecordParses(i);
    var record := RecordBytes(i);
    assert (record + rest)[..|record|] == record;
  }

  lemma RecordReparses(record: seq<byte>)
    requires |record| >= PREFIX_SIZE && |record| == PREFIX_SIZE + record[9] as nat && ParseRecord(record).Good?
    ensures ValidInfo(ParseRecord(record).value) && RecordBytes(ParseRecord(record).value) == record
  {
    hide ToByte;
    var i := ParseRecord(record).value;
    UserData.ReversedTwice(record[..6]);
    SameByte(ToByte(|i.id|), record[9]);
  }

  lemma RecordReprint(bytes: seq<byte>)
    requires FirstRecord(bytes).Good?
    ensures var (i, size) := FirstRecord(bytes).value;
            ValidInfo(i) && RecordBytes(i) == bytes[..size]
  {
    hide ParseRecord, RecordBytes, ValidInfo;
    RecordReparses(bytes[..FirstRecord(bytes).value.1]);
  }

  lemma {:induction false} InfosRoundTrip(infos: seq<Info>)
    requires ValidInfos(infos)
    ensures Records(InfosBytes(infos), |infos|) == Good((infos, |InfosBytes(infos)|))
  {
    hide FirstRecord, RecordBytes, ValidInfo, Prepend;
    if infos != [] {
      RecordRoundTrip(infos[0], InfosBytes(infos[1..]));
      InfosRoundTrip(infos[1..]);
      PrependGood([infos[0]], |RecordBytes(infos[0])|, Records(InfosBytes(infos[1..]), |infos| - 1));
      assert [infos[0]] + infos[1..] == infos;
    }
  }

  lemma {:induction false} InfosReprint(bytes: seq<byte>, count: nat)
    requires Records(bytes, count).Good?
    ensures ValidInfos(Records(bytes, count).value.0)
    ensures InfosBytes(Records(bytes, count).value.0) == bytes[..Records(bytes, count).value.1]
    decreases count
  {
    hide FirstRecord, Prepend, ValidInfo, RecordBytes;
    if count > 0 {
      var (first, size) := FirstRecord(bytes).value;
      var rest := Records(bytes[size..], count - 1);
      PrependGood([first], size, rest);
      RecordReprint(bytes);
      InfosReprint(bytes[size..], count - 1);
      assert ([first] + rest.value.0)[1..] == rest.value.0;
      assert bytes[..size] + bytes[size..][..rest.value.1] == bytes[..size + rest.value.1];
    }
  }

  /** The parser undoes the printer. */
  lemma PrintedIsParsed(r: Response, app: AppData.App)
    requires |r.infos| < 256 && ValidInfos(r.infos) && Addressed(app) && app.data == Some(Print(r))
    ensures Parse(app) == Good(r)
  {
    var data := Print(r);
    assert data[HEADER_SIZE..] == InfosBytes(r.infos);
    assert [data[0], data[1]] == ToLe16(r.total);
    InfosRoundTrip(r.infos);
  }

  /** And what it accepts is what the printer prints: the header and as many records as it
      counts, end to end, filling the data. */
  lemma ParsedIsPrinted(app: AppData.App)
    requires Parse(app).Good?
    ensures var r := Parse(app).value;
            && Addressed(app) && |r.infos| < 256 && ValidInfos(r.infos) && app.data == Some(Print(r))
  {
    hide FirstRecord, Records, InfosBytes, ValidInfo, AppData.FnNum;
    var data, r := app.data.value, Parse(app).value;
    InfosReprint(data[HEADER_SIZE..], data[2] as nat);
    Le16Inverse(data[0], data[1]);
    SameByte(ToByte(|r.infos|), data[2]);
    assert data == [data[0], data[1]] + [data[2]] + data[HEADER_SIZE..];
    assert data[HEADER_SIZE..][..|data| - HEADER_SIZE] == data[HEADER_SIZE..];
  }

  // ---- the places of the parts ----

  /** The bytes of a record: address and factory backward, the length of the identity before
      its format, the identity last. */
  lemma RecordPlaces(i: Info)
    requires ValidInfo(i)
    ensures var bytes := RecordBytes(i);
            && |bytes| == 11 + |i.id| && UserData.Mirrors(bytes[..6], i.address)
            && bytes[6] == i.deviceType && bytes[7] == i.factory[1] && bytes[8] == i.factory[0]
            && bytes[9] as nat == |i.id| && bytes[10] == i.idFormat && bytes[11..] == i.id
  {
    assert RecordBytes(i)[..6] == UserData.Reversed(i.address);
  }

  /** The total, low byte first, the number of records, and the records. */
  lemma ResponsePlaces(r: Response)
    requires |r.infos| < 256 && ValidInfos(r.infos)
    ensures var data := Print(r);
            && |data| >= 3 && data[0] as nat + 256 * data[1] as nat == r.total && data[2] as nat == |r.infos|
            && data[3..] == InfosBytes(r.infos)
  {
    LowFirst(r.total);
  }

  /** The end of the data before the end of a record, text that is none, and an unknown format
      are told apart, in that order. */
  lemma RecordErrors(bytes: seq<byte>)
    ensures var r := FirstRecord(bytes);
            var whole := |bytes| >= 11 && |bytes| >= 11 + bytes[9] as nat;
            && (r == Bad(DataLength) <==> !whole)
            && (r == Fault <==> whole && !Utf8Pair([bytes[8], bytes[7]]))
            && (r == Bad(IdFormat) <==> whole && Utf8Pair([bytes[8], bytes[7]]) && bytes[10] > 3)
            && (r.Good? ==> r.value.1 == 11 + bytes[9] as nat)
  {
  }

  /** Records that all parse and yet are no response: too few bytes, or too many, or an answer
      to another request. */
  lemma ResponseErrors(app: AppData.App)
    requires AppData.FnNum(app.flag).Good?
    ensures app.DataLength() < 3 ==> Parse(app) == Bad(DataLength)
    ensures app.DataLength() >= 3 ==>
              var data := app.data.value;
              var records := Records(data[3..], data[2] as nat);
              && (records.Bad? ==> Parse(app) == Bad(records.error)) && (records.Fault? ==> Parse(app) == Fault)
              && (records.Good? ==>
                    Parse(app) == if app.afn != AppData.RouteGet then Bad(UnknownAfn)
                                  else if AppData.FnNum(app.flag).value != 7 then Bad(WrongFn)
                                  else if |data| != 3 + records.value.1 then Bad(DataLength)
                                  else Good(Response(data[0] as nat + 256 * data[1] as nat, records.value.0)))
  {
    hide Records, AppData.FnNum;
  }

  /** Two bytes are text exactly as section 3 of RFC 3629 says: two characters of seven bits, or
      one of two bytes whose number needs them. */
  lemma TextPair(x: byte, y: byte)
    ensures Utf8Pair([x, y]) <==>
            || (x & 0x80 == 0 && y & 0x80 == 0)
            || (x & 0xE0 == 0xC0 && y & 0xC0 == 0x80 && (((x & 0x1F) as bv16) << 6) | ((y & 0x3F) as bv16) >= 0x80)
  {
  }
}
