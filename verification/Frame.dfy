/** The frame on the serial line: header, length, control byte, user data, checksum, tail. */
module Frame {
  import opened Wrappers
  import opened Bytes
  import InfoField
  import AppData
  import UserData

  const HEADER: byte := 0x68
  const TAIL: byte := 0x16
  const HEADER_SIZE := 3
  const FRAME_SIZE := 6
  const CTRL_FIELD_OFFSET := 3
  const USER_DATA_OFFSET := 4
  const LAST_SIZE := 2

  datatype Comm = Centralize | Decentralize | Hplc | LowerPower | Ethernet

  /** Bit 7: upward; bit 6: from the initiating station; bits 5 to 0: communication kind. */
  datatype Ctrl = Ctrl(up: bool, master: bool, comm: Comm) {
    function Direction(): InfoField.Direction { if up then InfoField.Upward else InfoField.Downward }
  }

  function CommToByte(comm: Comm): byte {
    match comm
    case Centralize => 1
    case Decentralize => 2
    case Hplc => 3
    case LowerPower => 10
    case Ethernet => 20
  }

  function CommFromByte(b: byte): Option<Comm> {
    if b == 1 then Some(Centralize) else if b == 2 then Some(Decentralize) else if b == 3 then Some(Hplc)
    else if b == 10 then Some(LowerPower) else if b == 20 then Some(Ethernet) else None
  }

  function CtrlToByte(c: Ctrl): byte {
    ((if c.up then 1 else 0) << 7) | ((if c.master then 1 else 0) << 6) | CommToByte(c.comm)
  }

  function CtrlFromByte(b: byte): Decoded<Ctrl> {
    var comm := CommFromByte(b & 0x3F);
    if comm.None? then Bad(CtrlField)
    else Good(Ctrl(b >> 7 == 1, (b >> 6) & 0x01 == 1, comm.value))
  }

  lemma CtrlRoundTrip(c: Ctrl)
    ensures CtrlFromByte(CtrlToByte(c)) == Good(c)
  {
  }

  lemma CtrlReencode(b: byte)
    requires CtrlFromByte(b).Good?
    ensures CtrlToByte(CtrlFromByte(b).value) == b
  {
  }

  // ---- checksum ----

  /** The sum of the bytes, modulo 256. */
  function Sum(bytes: seq<byte>): byte {
    if bytes == [] then 0 else Sum(bytes[..|bytes| - 1]) + bytes[|bytes| - 1]
  }

  /** The same as a natural number. */
  function Total(bytes: seq<byte>): nat {
    if bytes == [] then 0 else bytes[0] as nat + Total(bytes[1..])
  }

  lemma {:induction false} TotalOfBoth(bytes: seq<byte>, more: seq<byte>)
    ensures Total(bytes + more) == Total(bytes) + Total(more)
  {
    if bytes == [] {
      assert bytes + more == more;
    } else {
      TotalOfBoth(bytes[1..], more);
      assert (bytes + more)[1..] == bytes[1..] + more;
    }
  }

  function Value(b: byte): nat { b as nat }

  function Plus(a: byte, b: byte): byte { a + b }

  lemma PlusOne(a: byte)
    ensures Value(Plus(a, 1)) == if Value(a) == 255 then 0 else Value(a) + 1
  {
  }

  lemma PlusNone(a: byte)
    ensures Plus(a, ToByte(0)) == a
  {
  }

  lemma PlusNext(a: byte, n: nat)
    requires 0 < n < 256
    ensures Plus(a, ToByte(n)) == Plus(Plus(a, ToByte(n - 1)), 1)
  {
  }

  lemma NextModulo(n: nat)
    ensures (n + 1) % 256 == if n % 256 == 255 then 0 else n % 256 + 1
  {
  }

  lemma BelowModulo(n: nat)
    requires n < 256
    ensures n % 256 == n
  {
  }

  lemma ValueBound(b: byte)
    ensures Value(b) < 256 && ToByte(Value(b)) == b
  {
    SameByte(ToByte(b as nat), b);
  }

  /** Adding bytes adds their values, modulo 256. */
  lemma {:induction false} PlusCounted(a: byte, n: nat)
    requires n < 256
    ensures Value(Plus(a, ToByte(n))) == (Value(a) + n) % 256
  {
    hide Value, Plus, ToByte;
    if n == 0 {
      PlusNone(a);
      ValueBound(a);
      BelowModulo(Value(a));
    } else {
      PlusCounted(a, n - 1);
      PlusNext(a, n);
      PlusOne(Plus(a, ToByte(n - 1)));
      NextModulo(Value(a) + n - 1);
    }
  }

  lemma SumNext(bytes: seq<byte>)
    requires bytes != []
    ensures Sum(bytes) == Plus(Sum(bytes[..|bytes| - 1]), bytes[|bytes| - 1])
  {
  }

  lemma TotalLast(bytes: seq<byte>)
    requires bytes != []
    ensures Total(bytes) == Total(bytes[..|bytes| - 1]) + Value(bytes[|bytes| - 1])
  {
    assert bytes == bytes[..|bytes| - 1] + [bytes[|bytes| - 1]];
    TotalOfBoth(bytes[..|bytes| - 1], [bytes[|bytes| - 1]]);
  }

  lemma AddModulo(n: nat, m: nat)
    ensures (n % 256 + m) % 256 == (n + m) % 256
  {
  }

  lemma {:induction false} SumValue(bytes: seq<byte>)
    ensures Value(Sum(bytes)) == Total(bytes) % 256
  {
    if bytes == [] {
    } else {
      hide Value, Plus, Sum, Total;
      var init, last := bytes[..|bytes| - 1], bytes[|bytes| - 1];
      SumValue(init);
      SumNext(bytes);
      TotalLast(bytes);
      ValueBound(last);
      PlusCounted(Sum(init), Value(last));
      AddModulo(Total(init), Value(last));
    }
  }

  /** The checksum is the sum of all bytes, modulo 256. */
  lemma SumIsTotal(bytes: seq<byte>)
    ensures Sum(bytes) as nat == Total(bytes) % 256
  {
    hide Sum, Total;
    SumValue(bytes);
  }

  method CalcChecksum(bytes: seq<byte>) returns (checksum: byte)
    ensures checksum == Sum(bytes) && checksum as nat == Total(bytes) % 256
  {
    SumIsTotal(bytes);
    checksum := 0;
    for i := 0 to |bytes|
      invariant checksum == Sum(bytes[..i])
    {
      assert bytes[..i + 1][..i] == bytes[..i];
      checksum := checksum + bytes[i];
    }
    assert bytes[..|bytes|] == bytes;
  }

  // ---- frames ----

  datatype Frame = Frame(header: byte, length: u16, ctrl: Ctrl, user: UserData.User, checksum: byte, tail: byte) {
    predicate IsSlaveReport() { ctrl.up && ctrl.master }

    predicate IsMasterResponse() { !ctrl.up && !ctrl.master }

    function Seq(): byte { user.info.SeqNum() }
  }

  /** The part the checksum covers. */
  function Body(ctrl: Ctrl, user: UserData.User): seq<byte> {
    [CtrlToByte(ctrl)] + UserData.Encode(user)
  }

  function Encode(f: Frame): (bytes: seq<byte>)
    ensures |bytes| == FRAME_SIZE + f.user.Length()
  {
    [f.header] + ToLe16(f.length) + Body(f.ctrl, f.user) + [f.checksum, f.tail]
  }

  /** The length field keeps the low sixteen bits of the size. */
  function Unsigned(isResponse: bool, num: byte, address: Option<UserData.AddressField>, app: AppData.App): Frame {
    var user := UserData.NewUser(num, address, app);
    Frame(HEADER, (FRAME_SIZE + user.Length()) % 0x1_0000, Ctrl(false, !isResponse, Hplc), user, 0, TAIL)
  }

  function New(isResponse: bool, num: byte, address: Option<UserData.AddressField>, app: AppData.App): Frame {
    var unsigned := Unsigned(isResponse, num, address, app);
    var bytes := Encode(unsigned);
    unsigned.(checksum := Sum(bytes[CTRL_FIELD_OFFSET..|bytes| - LAST_SIZE]))
  }

  function Decode(bytes: seq<byte>): Decoded<Frame> {
    var n := |bytes|;
    if n < FRAME_SIZE then Bad(FrameLength)
    else if bytes[0] != HEADER then Bad(FrameHeader)
    else if Le16(bytes[1], bytes[2]) > n then Bad(FrameLength)
    else
      match CtrlFromByte(bytes[CTRL_FIELD_OFFSET])
      case Bad(e) => Bad(e)
      case Fault => Fault
      case Good(ctrl) =>
        match UserData.Decode(ctrl.Direction(), bytes[USER_DATA_OFFSET..n - LAST_SIZE])
        case Bad(e) => Bad(e)
        case Fault => Fault
        case Good(user) =>
          if bytes[n - 2] != Sum(bytes[CTRL_FIELD_OFFSET..n - LAST_SIZE]) then Bad(FrameChecksum)
          else if bytes[n - 1] != TAIL then Bad(FrameTail)
          else Good(Frame(bytes[0], Le16(bytes[1], bytes[2]), ctrl, user, bytes[n - 2], bytes[n - 1]))
  }

  lemma EncodedParts(f: Frame)
    ensures var bytes := Encode(f);
            var n := |bytes|;
            && bytes[0] == f.header && [bytes[1], bytes[2]] == ToLe16(f.length) && Le16(bytes[1], bytes[2]) == f.length
            && bytes[CTRL_FIELD_OFFSET] == CtrlToByte(f.ctrl)
            && bytes[USER_DATA_OFFSET..n - LAST_SIZE] == UserData.Encode(f.user)
            && bytes[CTRL_FIELD_OFFSET..n - LAST_SIZE] == Body(f.ctrl, f.user)
            && bytes[n - 2] == f.checksum && bytes[n - 1] == f.tail
  {
    hide ToLe16, Le16, Body, UserData.Encode, CtrlToByte;
    BodyParts(f.ctrl, f.user);
    Parts(f.header, ToLe16(f.length), Body(f.ctrl, f.user), [f.checksum, f.tail]);
  }

  lemma Parts(header: byte, length: seq<byte>, body: seq<byte>, end: seq<byte>)
    requires |length| == 2 && |end| == 2 && body != []
    ensures var bytes := [header] + length + body + end;
            var n := |bytes|;
            && bytes[0] == header && [bytes[1], bytes[2]] == length && bytes[3] == body[0]
            && bytes[3..n - 2] == body && bytes[4..n - 2] == body[1..] && bytes[n - 2..] == end
            && bytes[n - 2] == end[0] && bytes[n - 1] == end[1]
  {
    var bytes := [header] + length + body + end;
    assert bytes[3..|bytes| - 2] == body;
  }

  lemma BodyParts(ctrl: Ctrl, user: UserData.User)
    ensures var body := Body(ctrl, user);
            body != [] && body[0] == CtrlToByte(ctrl) && body[1..] == UserData.Encode(user)
  {
    hide CtrlToByte, UserData.Encode;
  }

  lemma NewSigned(isResponse: bool, num: byte, address: Option<UserData.AddressField>, app: AppData.App)
    ensures var unsigned := Unsigned(isResponse, num, address, app);
            New(isResponse, num, address, app) == unsigned.(checksum := Sum(Body(unsigned.ctrl, unsigned.user)))
  {
    EncodedParts(Unsigned(isResponse, num, address, app));
  }

  lemma Truncated(size: nat)
    ensures size % 0x1_0000 <= size && (size % 0x1_0000 == size <==> size < 0x1_0000)
  {
  }

  /** A frame just made carries the sum of its own body, and its size in the length field
      exactly when that has sixteen bits. */
  lemma {:induction false} NewFrame(isResponse: bool, num: byte, address: Option<UserData.AddressField>,
      app: AppData.App)
    ensures var f := New(isResponse, num, address, app);
            && f.checksum == Sum(Body(f.ctrl, f.user))
            && f.length <= |Encode(f)|
            && (f.length == |Encode(f)| <==> |Encode(f)| < 0x1_0000)
            && f.Seq() == num && f.IsMasterResponse() == isResponse && !f.IsSlaveReport()
  {
    NewSigned(isResponse, num, address, app);
    Truncated(FRAME_SIZE + UserData.NewUser(num, address, app).Length());
  }

  /** Every frame the program makes is read back from its bytes exactly when it carries an
      address just for the function classes that need one, at most one relay, and no empty
      data. */
  lemma {:induction false} FrameRoundTrip(isResponse: bool, num: byte, address: Option<UserData.AddressField>,
      app: AppData.App)
    requires AppData.Canonical(app)
    ensures var f := New(isResponse, num, address, app);
            Decode(Encode(f)) == Good(f) <==> UserData.Fits(address, app)
  {
    var f := New(isResponse, num, address, app);
    NewFrame(isResponse, num, address, app);
    EncodedParts(f);
    CtrlRoundTrip(f.ctrl);
    UserData.UserRoundTrip(num, address, app);
  }

  // ---- bytes there and back ----

  /** The user data of frame bytes. */
  function UserBytes(bytes: seq<byte>): seq<byte>
    requires |bytes| >= FRAME_SIZE
  {
    bytes[USER_DATA_OFFSET..|bytes| - LAST_SIZE]
  }

  lemma FrameBytes(bytes: seq<byte>, lo: byte, hi: byte, user: seq<byte>)
    requires |bytes| >= FRAME_SIZE && |user| == |bytes| - FRAME_SIZE
    ensures [bytes[0]] + [bytes[1], bytes[2]] + ([bytes[3]] + user) + [bytes[|bytes| - 2], bytes[|bytes| - 1]]
            == bytes <==>
            user == UserBytes(bytes)
  {
    var joined := [bytes[0]] + [bytes[1], bytes[2]] + ([bytes[3]] + user) + [bytes[|bytes| - 2], bytes[|bytes| - 1]];
    assert joined[4..|bytes| - 2] == user;
    assert user == UserBytes(bytes) ==> forall i :: 0 <= i < |bytes| ==> joined[i] == bytes[i];
  }

  /** A decoded frame is encoded to the bytes it came from exactly when those leave the
      unused bits of an upward information field clear and name one function in the mark. */
  lemma {:induction false} FrameReencode(bytes: seq<byte>)
    requires Decode(bytes).Good?
    ensures |UserBytes(bytes)| >= 6
    ensures var f := Decode(bytes).value;
            Encode(f) == bytes <==> UserData.Normal(f.ctrl.Direction(), UserBytes(bytes))
  {
    var f := Decode(bytes).value;
    CtrlReencode(bytes[3]);
    Le16Inverse(bytes[1], bytes[2]);
    UserData.UserReencodeExactly(f.ctrl.Direction(), UserBytes(bytes));
    FrameBytes(bytes, bytes[1], bytes[2], UserData.Encode(f.user));
  }

  /** Two different accepted byte strings in normal form are different frames. */
  lemma NormalDecodesOnce(bytes: seq<byte>, bytes': seq<byte>)
    requires Decode(bytes).Good? && Decode(bytes) == Decode(bytes')
    requires |UserBytes(bytes)| >= 6 && |UserBytes(bytes')| >= 6
    requires UserData.Normal(Decode(bytes).value.ctrl.Direction(), UserBytes(bytes))
    requires UserData.Normal(Decode(bytes').value.ctrl.Direction(), UserBytes(bytes'))
    ensures bytes == bytes'
  {
    FrameReencode(bytes);
    FrameReencode(bytes');
  }

  /** A byte string with sound header, length and control byte is not survived exactly when
      it is shorter than twelve bytes, or its application data cannot be evaluated. */
  lemma {:induction false} FrameFaults(bytes: seq<byte>)
    requires |bytes| >= FRAME_SIZE && bytes[0] == HEADER && Le16(bytes[1], bytes[2]) <= |bytes|
    requires CtrlFromByte(bytes[3]).Good?
    ensures Decode(bytes) == Fault <==>
            |bytes| < 12 ||
            var user := UserBytes(bytes);
            var offset := UserData.AppOffset(CtrlFromByte(bytes[3]).value.Direction(), user);
            offset <= |user| && AppData.Decode(user[offset..]) == Fault
  {
    hide Sum, UserData.Decode, UserData.AppOffset, AppData.Decode, CtrlFromByte, Le16;
    UserData.DecodeFaults(CtrlFromByte(bytes[3]).value.Direction(), UserBytes(bytes));
  }

  /** Why bytes are no frame, in the order in which it is found out. */
  lemma {:induction false} FrameErrors(bytes: seq<byte>)
    ensures var n, r := |bytes|, Decode(bytes);
            if n < 6 then r == Bad(FrameLength)
            else if bytes[0] != 0x68 then r == Bad(FrameHeader)
            else if bytes[1] as nat + 256 * bytes[2] as nat > n then r == Bad(FrameLength)
            else if bytes[3] & 0x3F !in {1, 2, 3, 10, 20} then r == Bad(CtrlField)
            else
              var user := UserData.Decode(if bytes[3] >= 0x80 then InfoField.Upward else InfoField.Downward,
                                          bytes[4..n - 2]);
              if user == Fault then r == Fault
              else if user.Bad? then r == Bad(user.error)
              else if bytes[n - 2] as nat != Total(bytes[3..n - 2]) % 256 then r == Bad(FrameChecksum)
              else if bytes[n - 1] != 0x16 then r == Bad(FrameTail)
              else r == Good(Frame(0x68, bytes[1] as nat + 256 * bytes[2] as nat, CtrlFromByte(bytes[3]).value,
                                   user.value, bytes[n - 2], 0x16))
  {
    hide Sum, Total, UserData.Decode, CtrlFromByte;
    if |bytes| >= 6 {
      CtrlBits(bytes[3]);
      SumIsTotal(bytes[3..|bytes| - 2]);
      var sum := Sum(bytes[3..|bytes| - 2]);
      if bytes[|bytes| - 2] as nat == sum as nat {
        SameByte(bytes[|bytes| - 2], sum);
      }
    }
  }

  lemma CtrlBits(b: byte)
    ensures CtrlFromByte(b) == Bad(CtrlField) <==> b & 0x3F !in {1, 2, 3, 10, 20}
    ensures CtrlFromByte(b).Good? ==> (CtrlFromByte(b).value.up <==> b >= 0x80)
    ensures CtrlFromByte(b).Good? || CtrlFromByte(b) == Bad(CtrlField)
  {
  }

  // ---- one wrong byte ----

  lemma TotalWithout(bytes: seq<byte>, i: nat, b: byte)
    requires i < |bytes|
    ensures Total(bytes[i := b]) == Total(bytes) - Value(bytes[i]) + Value(b)
  {
    var changed := bytes[i := b];
    assert bytes == bytes[..i] + ([bytes[i]] + bytes[i + 1..]);
    assert changed == bytes[..i] + ([b] + bytes[i + 1..]);
    TotalOfBoth(bytes[..i], [bytes[i]] + bytes[i + 1..]);
    TotalOfBoth(bytes[..i], [b] + bytes[i + 1..]);
    TotalOfBoth([bytes[i]], bytes[i + 1..]);
    TotalOfBoth([b], bytes[i + 1..]);
  }

  lemma DifferentModulo(n: nat, x: nat, y: nat)
    requires x < 256 && y < 256 && x != y && n >= x
    ensures (n - x + y) % 256 != n % 256
  {
    var m := n - x;
    AddModulo(m, x);
    AddModulo(m, y);
  }

  lemma TotalAtLeast(bytes: seq<byte>, i: nat)
    requires i < |bytes|
    ensures Total(bytes) >= Value(bytes[i])
  {
    assert bytes == bytes[..i] + ([bytes[i]] + bytes[i + 1..]);
    TotalOfBoth(bytes[..i], [bytes[i]] + bytes[i + 1..]);
    TotalOfBoth([bytes[i]], bytes[i + 1..]);
  }

  /** One wrong byte makes the sum wrong. */
  lemma SumDetects(bytes: seq<byte>, i: nat, b: byte)
    requires i < |bytes| && b != bytes[i]
    ensures Sum(bytes[i := b]) != Sum(bytes)
  {
    hide Sum, Total, Value;
    SumValue(bytes);
    SumValue(bytes[i := b]);
    TotalWithout(bytes, i, b);
    TotalAtLeast(bytes, i);
    ValueBound(b);
    ValueBound(bytes[i]);
    DifferentModulo(Total(bytes), Value(bytes[i]), Value(b));
  }

  lemma BodyWith(bytes: seq<byte>, i: nat, b: byte)
    requires |bytes| >= FRAME_SIZE && CTRL_FIELD_OFFSET <= i < |bytes| - LAST_SIZE
    ensures bytes[i := b][CTRL_FIELD_OFFSET..|bytes| - LAST_SIZE] ==
            bytes[CTRL_FIELD_OFFSET..|bytes| - LAST_SIZE][i - CTRL_FIELD_OFFSET := b]
  {
  }

  lemma OutsideBody(bytes: seq<byte>, i: nat, b: byte)
    requires |bytes| >= FRAME_SIZE && i < |bytes| && (i < CTRL_FIELD_OFFSET || i >= |bytes| - LAST_SIZE)
    ensures bytes[i := b][CTRL_FIELD_OFFSET..|bytes| - LAST_SIZE] == bytes[CTRL_FIELD_OFFSET..|bytes| - LAST_SIZE]
    ensures UserBytes(bytes[i := b]) == UserBytes(bytes)
    ensures bytes[i := b][CTRL_FIELD_OFFSET] == bytes[CTRL_FIELD_OFFSET]
  {
  }

  /** Of an accepted frame with one byte changed nothing is accepted, unless the byte is of the
      length, which is checked only for being too great. */
  lemma {:induction false} OneWrongByte(bytes: seq<byte>, i: nat, b: byte)
    requires Decode(bytes).Good? && i < |bytes| && b != bytes[i]
    ensures var wrong := bytes[i := b];
            && (Decode(wrong).Good? <==> (i == 1 || i == 2) && Le16(wrong[1], wrong[2]) <= |bytes|)
            && (i == 0 ==> Decode(wrong) == Bad(FrameHeader))
            && ((i == 1 || i == 2) && Le16(wrong[1], wrong[2]) > |bytes| ==> Decode(wrong) == Bad(FrameLength))
            && (i == |bytes| - 2 ==> Decode(wrong) == Bad(FrameChecksum))
            && (i == |bytes| - 1 ==> Decode(wrong) == Bad(FrameTail))
  {
    hide Sum, UserData.Decode, CtrlFromByte, Le16;
    if CTRL_FIELD_OFFSET <= i < |bytes| - LAST_SIZE {
      BodyWith(bytes, i, b);
      SumDetects(bytes[CTRL_FIELD_OFFSET..|bytes| - LAST_SIZE], i - CTRL_FIELD_OFFSET, b);
    } else {
      OutsideBody(bytes, i, b);
    }
  }

  // ---- the places of the parts ----

  lemma CtrlCodes(isResponse: bool)
    ensures CtrlToByte(Ctrl(false, !isResponse, Hplc)) == if isResponse then 0x03 else 0x43
  {
  }

  /** The control byte: direction, station, kind of line. */
  lemma CtrlPlaces(c: Ctrl)
    ensures CtrlToByte(c) == (if c.up then 128 else 0) + (if c.master then 64 else 0)
              + (match c.comm
                 case Centralize => 1 case Decentralize => 2 case Hplc => 3 case LowerPower => 10 case Ethernet => 20)
  {
  }

  /** Every byte of a frame the program makes. */
  lemma {:induction false} FramePlaces(isResponse: bool, num: byte, address: Option<UserData.AddressField>,
      app: AppData.App)
    ensures var bytes := Encode(New(isResponse, num, address, app));
            var n := |bytes|;
            var carries := app.afn == AppData.DataForward || app.afn == AppData.RouteDataForward
              || app.afn == AppData.ConcurrentReadMeter;
            var relayed := address.Some? && address.value.relays.Some?;
            && n >= 15 && bytes[0] == 0x68 && bytes[1] as nat + 256 * bytes[2] as nat == n % 0x1_0000
            && bytes[3] == (if isResponse then 0x03 else 0x43)
            && bytes[4..10] == [(if carries then 4 else 0) + (if relayed then 16 else 0), 0, 0, 0, 0, num]
            && bytes[10..n - 2] == UserData.OptionalAddressBytes(address) + AppData.Encode(app)
            && bytes[n - 2] as nat == Total(bytes[3..n - 2]) % 256 && bytes[n - 1] == 0x16
  {
    hide Sum, Total, UserData.Encode, UserData.OptionalAddressBytes, AppData.Encode, CtrlToByte;
    var f := New(isResponse, num, address, app);
    var bytes, user := Encode(f), UserData.Encode(f.user);
    NewFrame(isResponse, num, address, app);
    NewSigned(isResponse, num, address, app);
    EncodedParts(f);
    LowFirst(f.length);
    CtrlCodes(isResponse);
    SumIsTotal(Body(f.ctrl, f.user));
    UserData.NewUserPlaces(num, address, app);
    assert bytes[4..10] == bytes[4..|bytes| - 2][..6] == user[..6];
    assert bytes[10..|bytes| - 2] == bytes[4..|bytes| - 2][6..] == user[6..];
  }
}
