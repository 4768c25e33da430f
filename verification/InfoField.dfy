/** The six-byte information field, in its downward and its upward layout. */
module InfoField {
  import opened Bytes

  const INFO_FIELD_SIZE := 6

  datatype Direction = Downward | Upward

  datatype InfoDown = InfoDown(
    routeFlag: byte, nodeFlag: byte, commModelMark: byte, conflictCheck: byte, relayLevel: byte,
    channelFlag: byte, ecc: byte, answerBytes: byte, speed: bv16, speedUnitFlag: byte, seqNum: byte)

  datatype InfoUp = InfoUp(
    routeFlag: byte, commModelMark: byte, relayLevel: byte, channelFlag: byte, lineMark: byte,
    meterFeature: byte, cmdSignalQuality: byte, resSignalQuality: byte, eventMark: byte, seqNum: byte)

  datatype Info = Down(down: InfoDown) | Up(up: InfoUp) {
    function RelayLevel(): byte { if Down? then down.relayLevel else up.relayLevel }
    function CommModelMark(): byte { if Down? then down.commModelMark else up.commModelMark }
    function SeqNum(): byte { if Down? then down.seqNum else up.seqNum }
    function Type(): Direction { if Down? then Downward else Upward }
  }

  function NewDown(seqNum: byte, relayLevel: byte, commModelMark: byte): Info {
    Down(InfoDown(0, 0, commModelMark, 0, relayLevel, 0, 0, 0, 0, 0, seqNum))
  }

  function DownFromBytes(bytes: seq<byte>): InfoDown
    requires |bytes| == INFO_FIELD_SIZE
  {
    InfoDown(
      bytes[0] & 0x01, (bytes[0] & 0x02) >> 1, (bytes[0] & 0x04) >> 2, (bytes[0] & 0x08) >> 3, (bytes[0] & 0xF0) >> 4,
      bytes[1] & 0x0F, (bytes[1] & 0xF0) >> 4, bytes[2],
      (bytes[3] as bv16) | (((bytes[4] & 0x7F) as bv16) << 8), (bytes[4] & 0x80) >> 7, bytes[5])
  }

  function UpFromBytes(bytes: seq<byte>): InfoUp
    requires |bytes| == INFO_FIELD_SIZE
  {
    InfoUp(
      bytes[0] & 0x01, (bytes[0] & 0x04) >> 2, (bytes[0] & 0xF0) >> 4, bytes[1] & 0x0F,
      bytes[2] & 0x0F, (bytes[2] & 0xF0) >> 4, bytes[3] & 0x0F, (bytes[3] & 0xF0) >> 4, bytes[4], bytes[5])
  }

  function FromBytes(direction: Direction, bytes: seq<byte>): Decoded<Info> {
    if |bytes| != INFO_FIELD_SIZE then Bad(InfoFieldSize)
    else if direction == Downward then Good(Down(DownFromBytes(bytes)))
    else Good(Up(UpFromBytes(bytes)))
  }

  function ToBytes(info: Info): (bytes: seq<byte>)
    ensures |bytes| == INFO_FIELD_SIZE
  {
    match info
    case Down(d) =>
      [d.routeFlag | (d.nodeFlag << 1) | (d.commModelMark << 2) | (d.conflictCheck << 3) | (d.relayLevel << 4),
       d.channelFlag | (d.ecc << 4), d.answerBytes, (d.speed & 0xFF) as byte,
       (((d.speed >> 8) as byte) & 0x7F) | (d.speedUnitFlag << 7), d.seqNum]
    case Up(u) =>
      [u.routeFlag | (u.commModelMark << 2) | (u.relayLevel << 4), u.channelFlag,
       u.lineMark | (u.meterFeature << 4), u.cmdSignalQuality | (u.resSignalQuality << 4), u.eventMark, u.seqNum]
  }

  method EncodeDown(down: InfoDown, bytes: array<byte>)
    requires bytes.Length == INFO_FIELD_SIZE
    modifies bytes
    ensures bytes[..] == ToBytes(Down(down))
  {
    bytes[0] := down.routeFlag | (down.nodeFlag << 1) | (down.commModelMark << 2)
                | (down.conflictCheck << 3) | (down.relayLevel << 4);
    bytes[1] := down.channelFlag | (down.ecc << 4);
    bytes[2] := down.answerBytes;
    bytes[3] := (down.speed & 0xFF) as byte;
    bytes[4] := (((down.speed >> 8) as byte) & 0x7F) | (down.speedUnitFlag << 7);
    bytes[5] := down.seqNum;
  }

  method EncodeUp(up: InfoUp, bytes: array<byte>)
    requires bytes.Length == INFO_FIELD_SIZE
    modifies bytes
    ensures bytes[..] == ToBytes(Up(up))
  {
    bytes[0] := up.routeFlag | (up.commModelMark << 2) | (up.relayLevel << 4);
    bytes[1] := up.channelFlag;
    bytes[2] := up.lineMark | (up.meterFeature << 4);
    bytes[3] := up.cmdSignalQuality | (up.resSignalQuality << 4);
    bytes[4] := up.eventMark;
    bytes[5] := up.seqNum;
  }

  /** The encoder fills an array in place. */
  method Encode(info: Info) returns (bytes: array<byte>)
    ensures fresh(bytes) && bytes[..] == ToBytes(info)
  {
    bytes := new byte[INFO_FIELD_SIZE](_ => 0);
    match info {
      case Down(down) => EncodeDown(down, bytes);
      case Up(up) => EncodeUp(up, bytes);
    }
  }

  // ---- which values survive ----

  predicate DownInRange(d: InfoDown) {
    && d.routeFlag <= 1 && d.nodeFlag <= 1 && d.commModelMark <= 1 && d.conflictCheck <= 1 && d.relayLevel <= 0xF
    && d.channelFlag <= 0xF && d.ecc <= 0xF && d.speed <= 0x7FFF && d.speedUnitFlag <= 1
  }

  predicate UpInRange(u: InfoUp) {
    && u.routeFlag <= 1 && u.commModelMark <= 1 && u.relayLevel <= 0xF && u.channelFlag <= 0xF && u.lineMark <= 0xF
    && u.meterFeature <= 0xF && u.cmdSignalQuality <= 0xF && u.resSignalQuality <= 0xF
  }

  predicate InRange(info: Info) {
    if info.Down? then DownInRange(info.down) else UpInRange(info.up)
  }

  /** The bits an upward field does not use. */
  function UnusedCleared(direction: Direction, bytes: seq<byte>): seq<byte>
    requires |bytes| == INFO_FIELD_SIZE
  {
    if direction == Downward then bytes
    else [bytes[0] & 0xF5, bytes[1] & 0x0F, bytes[2], bytes[3], bytes[4], bytes[5]]
  }

  lemma DownByte0(b: byte)
    ensures (b & 0x01) | (((b & 0x02) >> 1) << 1) | (((b & 0x04) >> 2) << 2) | (((b & 0x08) >> 3) << 3)
            | (((b & 0xF0) >> 4) << 4) == b
  {
  }

  lemma DownFields0(r: byte, n: byte, c: byte, k: byte, l: byte)
    requires r <= 1 && n <= 1 && c <= 1 && k <= 1 && l <= 0xF
    ensures var b := r | (n << 1) | (c << 2) | (k << 3) | (l << 4);
            && b & 0x01 == r && (b & 0x02) >> 1 == n && (b & 0x04) >> 2 == c && (b & 0x08) >> 3 == k
            && (b & 0xF0) >> 4 == l
  {
  }

  lemma UpFields0(r: byte, c: byte, l: byte)
    requires r <= 1 && c <= 1 && l <= 0xF
    ensures var b := r | (c << 2) | (l << 4);
            b & 0x01 == r && (b & 0x04) >> 2 == c && (b & 0xF0) >> 4 == l
  {
  }

  lemma Nibbles(lo: byte, hi: byte)
    requires lo <= 0xF && hi <= 0xF
    ensures (lo | (hi << 4)) & 0x0F == lo && ((lo | (hi << 4)) & 0xF0) >> 4 == hi
  {
  }

  lemma SpeedFields(speed: bv16, unit: byte)
    requires speed <= 0x7FFF && unit <= 1
    ensures var b3, b4 := (speed & 0xFF) as byte, (((speed >> 8) as byte) & 0x7F) | (unit << 7);
            (b3 as bv16) | (((b4 & 0x7F) as bv16) << 8) == speed && (b4 & 0x80) >> 7 == unit
  {
  }

  lemma SpeedBytes(b3: byte, b4: byte)
    ensures var speed := (b3 as bv16) | (((b4 & 0x7F) as bv16) << 8);
            (speed & 0xFF) as byte == b3 && (((speed >> 8) as byte) & 0x7F) | (((b4 & 0x80) >> 7) << 7) == b4
  {
  }

  lemma DownRoundTrip(d: InfoDown)
    requires DownInRange(d)
    ensures DownFromBytes(ToBytes(Down(d))) == d
  {
    DownFields0(d.routeFlag, d.nodeFlag, d.commModelMark, d.conflictCheck, d.relayLevel);
    Nibbles(d.channelFlag, d.ecc);
    SpeedFields(d.speed, d.speedUnitFlag);
  }

  lemma UpRoundTrip(u: InfoUp)
    requires UpInRange(u)
    ensures UpFromBytes(ToBytes(Up(u))) == u
  {
    UpFields0(u.routeFlag, u.commModelMark, u.relayLevel);
    Nibbles(u.lineMark, u.meterFeature);
    Nibbles(u.cmdSignalQuality, u.resSignalQuality);
  }

  lemma DecodedInRange(direction: Direction, bytes: seq<byte>)
    requires |bytes| == INFO_FIELD_SIZE
    ensures InRange(FromBytes(direction, bytes).value)
  {
  }

  /** A field value survives encoding exactly when each part fits its bits. */
  lemma {:induction false} InfoRoundTrip(info: Info)
    ensures FromBytes(info.Type(), ToBytes(info)) == Good(info) <==> InRange(info)
  {
    if InRange(info) {
      match info
      case Down(d) => DownRoundTrip(d);
      case Up(u) => UpRoundTrip(u);
    } else {
      DecodedInRange(info.Type(), ToBytes(info));
    }
  }

  lemma UpByte0(b: byte)
    ensures (b & 0x01) | (((b & 0x04) >> 2) << 2) | (((b & 0xF0) >> 4) << 4) == b & 0xF5
  {
  }

  lemma NibblesJoined(b: byte)
    ensures (b & 0x0F) | (((b & 0xF0) >> 4) << 4) == b
  {
  }

  lemma DownReencode(bytes: seq<byte>)
    requires |bytes| == INFO_FIELD_SIZE
    ensures ToBytes(Down(DownFromBytes(bytes))) == bytes
  {
    DownByte0(bytes[0]);
    NibblesJoined(bytes[1]);
    SpeedBytes(bytes[3], bytes[4]);
  }

  lemma UpReencode(bytes: seq<byte>)
    requires |bytes| == INFO_FIELD_SIZE
    ensures ToBytes(Up(UpFromBytes(bytes))) == UnusedCleared(Upward, bytes)
  {
    UpByte0(bytes[0]);
    NibblesJoined(bytes[2]);
    NibblesJoined(bytes[3]);
  }

  /** Six bytes survive decoding except for the bits an upward field does not use. */
  lemma {:induction false} InfoReencode(direction: Direction, bytes: seq<byte>)
    requires |bytes| == INFO_FIELD_SIZE
    ensures ToBytes(FromBytes(direction, bytes).value) == UnusedCleared(direction, bytes)
  {
    if direction == Downward {
      DownReencode(bytes);
    } else {
      UpReencode(bytes);
    }
  }

  // ---- the places of the parts ----

  /** Two bytes as a number, the low byte first. */
  function Word(lo: byte, hi: byte): bv16 {
    (lo as bv16) + 256 * (hi as bv16)
  }

  /** A speed of fifteen bits with its unit above them. */
  function WithUnit(speed: bv16, unit: byte): bv16 {
    speed + 0x8000 * (unit as bv16)
  }

  lemma DownSum0(r: byte, n: byte, c: byte, k: byte, l: byte)
    requires r <= 1 && n <= 1 && c <= 1 && k <= 1 && l <= 0xF
    ensures r | (n << 1) | (c << 2) | (k << 3) | (l << 4) == r + 2 * n + 4 * c + 8 * k + 16 * l
  {
  }

  lemma UpSum0(r: byte, c: byte, l: byte)
    requires r <= 1 && c <= 1 && l <= 0xF
    ensures r | (c << 2) | (l << 4) == r + 4 * c + 16 * l
  {
  }

  lemma NibbleSum(lo: byte, hi: byte)
    requires lo <= 0xF && hi <= 0xF
    ensures lo | (hi << 4) == lo + 16 * hi
  {
  }

  lemma SpeedSum(speed: bv16, unit: byte)
    requires speed <= 0x7FFF && unit <= 1
    ensures var b3, b4 := (speed & 0xFF) as byte, (((speed >> 8) as byte) & 0x7F) | (unit << 7);
            Word(b3, b4) == WithUnit(speed, unit)
  {
  }

  /** A downward field that fits its bits, part by part, the lowest bits first. */
  lemma DownPlaces(d: InfoDown)
    requires DownInRange(d)
    ensures var bytes := ToBytes(Down(d));
            && bytes[0] == d.routeFlag + 2 * d.nodeFlag + 4 * d.commModelMark + 8 * d.conflictCheck + 16 * d.relayLevel
            && bytes[1] == d.channelFlag + 16 * d.ecc
            && bytes[2] == d.answerBytes
            && Word(bytes[3], bytes[4]) == WithUnit(d.speed, d.speedUnitFlag)
            && bytes[5] == d.seqNum
  {
    hide ToBytes, Word, WithUnit;
    DownPlace0(d);
    DownPlace1(d);
    DownSpeed(d);
    DownWhole(d);
  }

  lemma DownPlace0(d: InfoDown)
    requires DownInRange(d)
    ensures ToBytes(Down(d))[0] ==
            d.routeFlag + 2 * d.nodeFlag + 4 * d.commModelMark + 8 * d.conflictCheck + 16 * d.relayLevel
  {
    DownSum0(d.routeFlag, d.nodeFlag, d.commModelMark, d.conflictCheck, d.relayLevel);
  }

  lemma DownPlace1(d: InfoDown)
    requires DownInRange(d)
    ensures ToBytes(Down(d))[1] == d.channelFlag + 16 * d.ecc
  {
    NibbleSum(d.channelFlag, d.ecc);
  }

  lemma DownSpeed(d: InfoDown)
    requires DownInRange(d)
    ensures var bytes := ToBytes(Down(d));
            Word(bytes[3], bytes[4]) == WithUnit(d.speed, d.speedUnitFlag)
  {
    hide ToBytes, Word, WithUnit;
    DownSpeedBytes(d);
    SpeedSum(d.speed, d.speedUnitFlag);
  }

  lemma DownSpeedBytes(d: InfoDown)
    ensures ToBytes(Down(d))[3] == (d.speed & 0xFF) as byte
    ensures ToBytes(Down(d))[4] == (((d.speed >> 8) as byte) & 0x7F) | (d.speedUnitFlag << 7)
  {
  }

  lemma DownWhole(d: InfoDown)
    ensures ToBytes(Down(d))[2] == d.answerBytes && ToBytes(Down(d))[5] == d.seqNum
  {
  }

  lemma UpPlaces(u: InfoUp)
    requires UpInRange(u)
    ensures var bytes := ToBytes(Up(u));
            && bytes[0] == u.routeFlag + 4 * u.commModelMark + 16 * u.relayLevel
            && bytes[1] == u.channelFlag
            && bytes[2] == u.lineMark + 16 * u.meterFeature
            && bytes[3] == u.cmdSignalQuality + 16 * u.resSignalQuality
            && bytes[4] == u.eventMark && bytes[5] == u.seqNum
  {
    UpSum0(u.routeFlag, u.commModelMark, u.relayLevel);
    NibbleSum(u.lineMark, u.meterFeature);
    NibbleSum(u.cmdSignalQuality, u.resSignalQuality);
  }

  lemma NewDownPlaces(seqNum: byte, relayLevel: byte, commModelMark: byte)
    requires relayLevel <= 1 && commModelMark <= 1
    ensures ToBytes(NewDown(seqNum, relayLevel, commModelMark)) ==
            [4 * commModelMark + 16 * relayLevel, 0, 0, 0, 0, seqNum]
  {
  }
}
