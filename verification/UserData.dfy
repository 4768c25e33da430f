/** User data: information field, optional addresses with relays, application data. */
module UserData {
  import opened Wrappers
  import opened Bytes
  import InfoField
  import AppData

  const ADDR_LEN := 6

  /** An address in reading order; on the wire its bytes are reversed. */
  type Address = a: seq<byte> | |a| == 6 witness [0, 0, 0, 0, 0, 0]

  function Reversed(a: Address): Address {
    [a[5], a[4], a[3], a[2], a[1], a[0]]
  }

  datatype AddressField = AddressField(src: Address, relays: Option<seq<Address>>, dst: Address) {
    function Length(): nat { ADDR_LEN * (2 + if relays.Some? then |relays.value| else 0) }
  }

  function RelayBytes(relays: seq<Address>): (bytes: seq<byte>)
    ensures |bytes| == ADDR_LEN * |relays|
  {
    if relays == [] then []
    else RelayBytes(relays[..|relays| - 1]) + Reversed(relays[|relays| - 1])
  }

  function AddressBytes(field: AddressField): (bytes: seq<byte>)
    ensures |bytes| == field.Length()
  {
    Reversed(field.src) + (if field.relays.Some? then RelayBytes(field.relays.value) else []) + Reversed(field.dst)
  }

  /** The encoder appends the relays one by one. */
  method EncodeAddress(field: AddressField) returns (bytes: seq<byte>)
    ensures bytes == AddressBytes(field)
  {
    bytes := Reversed(field.src);
    if field.relays.Some? {
      var relays := field.relays.value;
      var i := 0;
      while i < |relays|
        invariant 0 <= i <= |relays|
        invariant bytes == Reversed(field.src) + RelayBytes(relays[..i])
      {
        bytes := bytes + Reversed(relays[i]);
        assert relays[..i + 1][..i] == relays[..i];
        i := i + 1;
      }
      assert relays[..i] == relays;
    }
    bytes := bytes + Reversed(field.dst);
  }

  /** Consecutive addresses. */
  function Relays(bytes: seq<byte>): (relays: seq<Address>)
    requires |bytes| % ADDR_LEN == 0
    ensures ADDR_LEN * |relays| == |bytes|
  {
    if bytes == [] then []
    else Relays(bytes[..|bytes| - ADDR_LEN]) + [Reversed(bytes[|bytes| - ADDR_LEN..])]
  }

  function AddressFromBytes(bytes: seq<byte>): AddressField
    requires |bytes| % ADDR_LEN == 0 && |bytes| >= 2 * ADDR_LEN
  {
    AddressField(
      Reversed(bytes[..ADDR_LEN]),
      if |bytes| > 2 * ADDR_LEN then Some(Relays(bytes[ADDR_LEN..|bytes| - ADDR_LEN])) else None,
      Reversed(bytes[|bytes| - ADDR_LEN..]))
  }

  datatype User = User(info: InfoField.Info, address: Option<AddressField>, app: AppData.App) {
    function Length(): nat {
      InfoField.INFO_FIELD_SIZE + (if address.Some? then address.value.Length() else 0) + app.Length()
    }
  }

  /** The relay level says only whether there is a relay list, whatever its length. */
  function NewUser(num: byte, address: Option<AddressField>, app: AppData.App): User {
    var level := if address.Some? && address.value.relays.Some? then 1 else 0;
    User(InfoField.NewDown(num, level, app.CommMark()), address, app)
  }

  function OptionalAddressBytes(address: Option<AddressField>): seq<byte> {
    if address.Some? then AddressBytes(address.value) else []
  }

  function Encode(user: User): (bytes: seq<byte>)
    ensures |bytes| == user.Length()
  {
    InfoField.ToBytes(user.info) + OptionalAddressBytes(user.address) + AppData.Encode(user.app)
  }

  /** The size of the address field that an information field announces. */
  function AddressSize(info: InfoField.Info): nat {
    if info.CommModelMark() == 1 then (info.RelayLevel() as nat + 2) * ADDR_LEN else 0
  }

  function WithApp(info: InfoField.Info, address: Option<AddressField>, app: Decoded<AppData.App>): Decoded<User> {
    match app
    case Good(a) => Good(User(info, address, a))
    case Bad(e) => Bad(e)
    case Fault => Fault
  }

  /** The information field is sliced off before any length is looked at. */
  function Decode(direction: InfoField.Direction, bytes: seq<byte>): Decoded<User> {
    if |bytes| < InfoField.INFO_FIELD_SIZE then Fault
    else
      match InfoField.FromBytes(direction, bytes[..6])
      case Bad(e) => Bad(e)
      case Fault => Fault
      case Good(info) =>
        var size := AddressSize(info);
        var rest := bytes[6..];
        if size == 0 then WithApp(info, None, AppData.Decode(rest))
        else if |rest| < size then Bad(AddressLength)
        else WithApp(info, Some(AddressFromBytes(rest[..size])), AppData.Decode(rest[size..]))
  }

  // ---- addresses there and back ----

  lemma {:induction false} RelaysRoundTrip(relays: seq<Address>)
    ensures Relays(RelayBytes(relays)) == relays
  {
    if relays != [] {
      var init, last := relays[..|relays| - 1], relays[|relays| - 1];
      RelaysRoundTrip(init);
      var bytes := RelayBytes(relays);
      assert bytes[..|bytes| - 6] == RelayBytes(init);
      assert bytes[|bytes| - 6..] == Reversed(last) && Reversed(Reversed(last)) == last;
      assert relays == init + [last];
    }
  }

  lemma {:induction false} RelaysReencode(bytes: seq<byte>)
    requires |bytes| % ADDR_LEN == 0
    ensures RelayBytes(Relays(bytes)) == bytes
  {
    if bytes != [] {
      var init, last := bytes[..|bytes| - 6], bytes[|bytes| - 6..];
      RelaysReencode(init);
      var relays := Relays(bytes);
      assert relays[..|relays| - 1] == Relays(init);
      assert Reversed(Reversed(last)) == last;
      assert bytes == init + last;
    }
  }

  lemma AddressSlices(src: seq<byte>, mid: seq<byte>, dst: seq<byte>)
    requires |src| == 6 && |dst| == 6
    ensures var bytes := src + mid + dst;
            bytes[..6] == src && bytes[6..|bytes| - 6] == mid && bytes[|bytes| - 6..] == dst
  {
  }

  lemma ReversedTwice(a: Address)
    ensures Reversed(Reversed(a)) == a
  {
  }

  lemma AddressRoundTrip(field: AddressField)
    ensures AddressFromBytes(AddressBytes(field)) == field <==> field.relays != Some([])
  {
    var mid := if field.relays.Some? then RelayBytes(field.relays.value) else [];
    AddressSlices(Reversed(field.src), mid, Reversed(field.dst));
    ReversedTwice(field.src);
    ReversedTwice(field.dst);
    if field.relays.Some? {
      RelaysRoundTrip(field.relays.value);
    }
  }

  lemma AddressReencode(bytes: seq<byte>)
    requires |bytes| % ADDR_LEN == 0 && |bytes| >= 2 * ADDR_LEN
    ensures AddressBytes(AddressFromBytes(bytes)) == bytes
  {
    var field := AddressFromBytes(bytes);
    assert Reversed(field.src) == bytes[..6] && Reversed(field.dst) == bytes[|bytes| - 6..];
    if field.relays.Some? {
      RelaysReencode(bytes[6..|bytes| - 6]);
      assert bytes == bytes[..6] + bytes[6..|bytes| - 6] + bytes[|bytes| - 6..];
    } else {
      assert bytes == bytes[..6] + bytes[6..];
    }
  }

  // ---- user data there and back ----

  /** What the program may put into a frame for the receiver to read it back: an address
      exactly for the function classes that carry one, at most one relay, no empty data. */
  predicate Fits(address: Option<AddressField>, app: AppData.App) {
    && (address.Some? <==>
          app.afn == AppData.DataForward || app.afn == AppData.RouteDataForward
          || app.afn == AppData.ConcurrentReadMeter)
    && (address.Some? && address.value.relays.Some? ==> |address.value.relays.value| == 1)
    && app.data != Some([])
  }

  lemma AddressLengthKept(bytes: seq<byte>)
    requires |bytes| % ADDR_LEN == 0 && |bytes| >= 2 * ADDR_LEN
    ensures AddressFromBytes(bytes).Length() == |bytes|
  {
  }

  /** Decoding bytes laid out as an information field, addresses and data. */
  lemma DecodeParts(direction: InfoField.Direction, info: seq<byte>, addr: seq<byte>, data: seq<byte>)
    requires |info| == 6 && |addr| == AddressSize(InfoField.FromBytes(direction, info).value)
    ensures var field := InfoField.FromBytes(direction, info).value;
            Decode(direction, info + addr + data) ==
            WithApp(field, if addr == [] then None else Some(AddressFromBytes(addr)), AppData.Decode(data))
  {
    var bytes := info + addr + data;
    assert bytes[..6] == info;
    assert bytes[6..][..|addr|] == addr && bytes[6..][|addr|..] == data;
    assert addr == [] ==> bytes[6..] == data;
  }

  /** Bytes read in the right layout are read back exactly when each part is. */
  lemma FittingRoundTrip(num: byte, address: Option<AddressField>, app: AppData.App)
    requires AppData.Canonical(app)
    requires |OptionalAddressBytes(address)| == AddressSize(NewUser(num, address, app).info)
    ensures var user := NewUser(num, address, app);
            Decode(InfoField.Downward, Encode(user)) == Good(user) <==> app.data != Some([])
  {
    hide Decode, InfoField.FromBytes, InfoField.ToBytes, AddressBytes, AddressFromBytes;
    var user := NewUser(num, address, app);
    InfoField.InfoRoundTrip(user.info);
    DecodeParts(InfoField.Downward, InfoField.ToBytes(user.info), OptionalAddressBytes(address), AppData.Encode(app));
    AppData.AppRoundTrip(app);
    if address.Some? {
      AddressRoundTrip(address.value);
    }
  }

  /** In the wrong layout the addresses read have another length than those written. */
  lemma {:induction false} MisfitFails(num: byte, address: Option<AddressField>, app: AppData.App)
    requires |OptionalAddressBytes(address)| != AddressSize(NewUser(num, address, app).info)
    ensures Decode(InfoField.Downward, Encode(NewUser(num, address, app))) != Good(NewUser(num, address, app))
  {
    hide AppData.Decode, AppData.Encode, AddressBytes;
    var user := NewUser(num, address, app);
    var bytes := Encode(user);
    InfoField.InfoRoundTrip(user.info);
    assert bytes[..6] == InfoField.ToBytes(user.info);
    var size := AddressSize(user.info);
    if size != 0 && |bytes[6..]| >= size {
      AddressLengthKept(bytes[6..][..size]);
    }
  }

  lemma {:induction false} UserRoundTrip(num: byte, address: Option<AddressField>, app: AppData.App)
    requires AppData.Canonical(app)
    ensures var user := NewUser(num, address, app);
            Decode(InfoField.Downward, Encode(user)) == Good(user) <==> Fits(address, app)
  {
    if |OptionalAddressBytes(address)| == AddressSize(NewUser(num, address, app).info) {
      FittingRoundTrip(num, address, app);
    } else {
      MisfitFails(num, address, app);
    }
  }

  /** Where the application data starts in encoded user data. */
  function AppOffset(direction: InfoField.Direction, bytes: seq<byte>): nat
    requires |bytes| >= 6
  {
    6 + AddressSize(InfoField.FromBytes(direction, bytes[..6]).value)
  }

  /** The relay level counts only where the mark says that there are addresses; both stand at
      the same bits in either direction. */
  lemma OffsetIs(direction: InfoField.Direction, bytes: seq<byte>)
    requires |bytes| >= 6
    ensures AppOffset(direction, bytes) ==
            if bytes[0] & 4 == 0 then 6 else 6 + 6 * ((bytes[0] >> 4) as nat + 2)
  {
    Marks(bytes[0]);
    assert bytes[..6][0] == bytes[0];
  }

  lemma Marks(b: byte)
    ensures (b & 0x04) >> 2 == 1 <==> b & 4 != 0
    ensures (b & 0xF0) >> 4 == b >> 4
  {
  }

  /** Why bytes are no user data: their address is cut off, or what is behind it is no data unit. */
  lemma UserErrors(direction: InfoField.Direction, bytes: seq<byte>)
    requires |bytes| >= 6
    ensures var offset := AppOffset(direction, bytes);
            && (Decode(direction, bytes) == Bad(AddressLength) <==> offset > |bytes|)
            && (offset <= |bytes| && Decode(direction, bytes).Bad? ==>
                  Decode(direction, bytes) == Bad(AppData.Decode(bytes[offset..]).error)
                  && AppData.Decode(bytes[offset..]).Bad?)
  {
    hide AppData.Decode, AddressFromBytes;
    var offset := AppOffset(direction, bytes);
    if offset <= |bytes| {
      assert bytes[6..][offset - 6..] == bytes[offset..];
      AppData.AppErrors(bytes[offset..]);
    }
  }

  lemma DecodeFaults(direction: InfoField.Direction, bytes: seq<byte>)
    ensures Decode(direction, bytes) == Fault <==>
            |bytes| < 6 ||
            var offset := AppOffset(direction, bytes);
            offset <= |bytes| && AppData.Decode(bytes[offset..]) == Fault
  {
    hide AppData.Decode, AddressFromBytes;
    if |bytes| >= 6 {
      var offset := AppOffset(direction, bytes);
      assert offset <= |bytes| ==> bytes[6..][offset - 6..] == bytes[offset..];
    }
  }

  /** The bytes that decode: long enough, with data that decodes. */
  lemma DecodedParts(direction: InfoField.Direction, bytes: seq<byte>)
    requires Decode(direction, bytes).Good?
    ensures |bytes| >= AppOffset(direction, bytes) >= 6
    ensures var user := Decode(direction, bytes).value;
            var addr, data := bytes[6..AppOffset(direction, bytes)], bytes[AppOffset(direction, bytes)..];
            && user.info == InfoField.FromBytes(direction, bytes[..6]).value
            && user.address == (if addr == [] then None else Some(AddressFromBytes(addr)))
            && AppData.Decode(data) == Good(user.app)
            && |addr| % ADDR_LEN == 0 && (addr != [] ==> |addr| >= 2 * ADDR_LEN)
  {
    var offset := AppOffset(direction, bytes);
    assert bytes[6..][..offset - 6] == bytes[6..offset] && bytes[6..][offset - 6..] == bytes[offset..];
  }

  /** What decoded user data is encoded to. */
  lemma {:induction false} UserReencode(direction: InfoField.Direction, bytes: seq<byte>)
    requires Decode(direction, bytes).Good?
    ensures var offset := AppOffset(direction, bytes);
            && 6 <= offset && offset + 3 <= |bytes|
            && Encode(Decode(direction, bytes).value) ==
               InfoField.UnusedCleared(direction, bytes[..6]) + bytes[6..offset]
               + bytes[offset..][1 := AppData.LowestOnly(bytes[offset + 1])]
  {
    var offset := AppOffset(direction, bytes);
    DecodedParts(direction, bytes);
    InfoField.InfoReencode(direction, bytes[..6]);
    if offset != 6 {
      AddressReencode(bytes[6..offset]);
    }
    AppData.AppReencode(bytes[offset..]);
  }

  /** User data is encoded back to its bytes exactly when the unused bits are clear and the
      mark names one function. */
  predicate Normal(direction: InfoField.Direction, bytes: seq<byte>)
    requires |bytes| >= 6
  {
    var mark := AppOffset(direction, bytes) + 1;
    && InfoField.UnusedCleared(direction, bytes[..6]) == bytes[..6]
    && (mark < |bytes| ==> AppData.LowestOnly(bytes[mark]) == bytes[mark])
  }

  lemma {:induction false} UserReencodeExactly(direction: InfoField.Direction, bytes: seq<byte>)
    requires Decode(direction, bytes).Good?
    ensures Encode(Decode(direction, bytes).value) == bytes <==> Normal(direction, bytes)
    ensures |Encode(Decode(direction, bytes).value)| == |bytes|
  {
    UserReencode(direction, bytes);
    var offset := AppOffset(direction, bytes);
    var info, data := InfoField.UnusedCleared(direction, bytes[..6]),
        bytes[offset..][1 := AppData.LowestOnly(bytes[offset + 1])];
    Joined(bytes, offset, info, data);
    if Normal(direction, bytes) {
      assert data == bytes[offset..];
    } else {
      assert data[1] == AppData.LowestOnly(bytes[offset + 1]) && bytes[offset..][1] == bytes[offset + 1];
    }
  }

  lemma Joined(bytes: seq<byte>, offset: nat, info: seq<byte>, data: seq<byte>)
    requires |info| == 6 && 6 <= offset <= |bytes| == offset + |data|
    ensures info + bytes[6..offset] + data == bytes <==> info == bytes[..6] && data == bytes[offset..]
  {
    var joined := info + bytes[6..offset] + data;
    assert joined[..6] == info && joined[offset..] == data;
    assert bytes == bytes[..6] + bytes[6..offset] + bytes[offset..];
  }

  // ---- the places of the addresses ----

  /** Six bytes are an address from its last byte to its first. */
  predicate Mirrors(bytes: seq<byte>, a: Address) {
    && |bytes| == 6
    && bytes[0] == a[5] && bytes[1] == a[4] && bytes[2] == a[3]
    && bytes[3] == a[2] && bytes[4] == a[1] && bytes[5] == a[0]
  }

  lemma {:induction false} RelayPlaces(relays: seq<Address>, j: nat)
    requires j < |relays|
    ensures Mirrors(RelayBytes(relays)[6 * j..6 * j + 6], relays[j])
  {
    var init := relays[..|relays| - 1];
    if j < |relays| - 1 {
      RelayPlaces(init, j);
      assert RelayBytes(relays)[6 * j..6 * j + 6] == RelayBytes(init)[6 * j..6 * j + 6];
    } else {
      assert RelayBytes(relays)[6 * j..6 * j + 6] == Reversed(relays[j]);
    }
  }

  /** The source first, then the relays in order, then the target. */
  lemma AddressPlaces(field: AddressField)
    ensures var bytes, n := AddressBytes(field), field.Length();
            && Mirrors(bytes[..6], field.src) && Mirrors(bytes[n - 6..], field.dst)
            && n == 12 + (if field.relays.Some? then 6 * |field.relays.value| else 0)
            && (field.relays.Some? ==>
                  forall j :: 0 <= j < |field.relays.value| ==>
                    Mirrors(bytes[6 + 6 * j..6 + 6 * j + 6], field.relays.value[j]))
  {
    hide Mirrors, AddressBytes, RelayBytes;
    AddressEnds(field);
    if field.relays.Some? {
      forall j | 0 <= j < |field.relays.value|
        ensures Mirrors(AddressBytes(field)[6 + 6 * j..6 + 6 * j + 6], field.relays.value[j]) {
        RelayPlaces(field.relays.value, j);
        RelaySlice(field, j);
      }
    }
  }

  lemma AddressEnds(field: AddressField)
    ensures var bytes, n := AddressBytes(field), field.Length();
            Mirrors(bytes[..6], field.src) && Mirrors(bytes[n - 6..], field.dst)
  {
    hide Mirrors, RelayBytes;
    AddressSlices(Reversed(field.src), if field.relays.Some? then RelayBytes(field.relays.value) else [],
                  Reversed(field.dst));
    ReversedMirrors(field.src);
    ReversedMirrors(field.dst);
  }

  lemma RelaySlice(field: AddressField, j: nat)
    requires field.relays.Some? && j < |field.relays.value|
    ensures AddressBytes(field)[6 + 6 * j..6 + 6 * j + 6] == RelayBytes(field.relays.value)[6 * j..6 * j + 6]
  {
    hide RelayBytes;
    var mid := RelayBytes(field.relays.value);
    assert AddressBytes(field)[6..6 + |mid|] == mid;
  }

  lemma ReversedMirrors(a: Address)
    ensures Mirrors(Reversed(a), a)
  {
  }

  /** What the program puts into an information field, and what follows it. */
  lemma NewUserPlaces(num: byte, address: Option<AddressField>, app: AppData.App)
    ensures var bytes := Encode(NewUser(num, address, app));
            var carries := app.afn == AppData.DataForward || app.afn == AppData.RouteDataForward
              || app.afn == AppData.ConcurrentReadMeter;
            var relayed := address.Some? && address.value.relays.Some?;
            && bytes[..6] == [(if carries then 4 else 0) + (if relayed then 16 else 0), 0, 0, 0, 0, num]
            && bytes[6..] == OptionalAddressBytes(address) + AppData.Encode(app)
  {
    hide InfoField.ToBytes, OptionalAddressBytes, AppData.Encode;
    InfoField.NewDownPlaces(num, if address.Some? && address.value.relays.Some? then 1 else 0, app.CommMark());
  }
}
