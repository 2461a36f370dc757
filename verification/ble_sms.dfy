/** The soil moisture GATT service: its record, its stack-event handler, its
    registration with the stack and its value-changed notification.

    Every operation is a pure function of the record and of the stack's replies. The
    record is returned rather than updated in place, and what the operation does to the
    outside world is returned as a sequence of `Effect`s, in the order they happen. */
module BleSms {
  import opened Types
  import opened SoftDevice
  import opened Debug

  /** The 128-bit vendor base UUID, byte by byte as the header lists it. */
  const SMS_UUID_BASE: seq<u8> :=
    [0x23, 0xa9, 0x1f, 0xb8, 0x0d, 0xeb, 0x4a, 0xcc, 0x9d, 0xf1, 0x43, 0x98, 0x00, 0x00, 0x50, 0x08]
  /** 16-bit ids of the service and of its one characteristic within that base. */
  const SMS_UUID_SERVICE: u16 := 0xc998
  const SMS_UUID_SOIL_MOISTURE_CHAR: u16 := 0xc999
  /** `sizeof(soil_moisture_t)`: a soil moisture reading is a `uint16_t`. */
  const SOIL_MOISTURE_SIZE: u16 := 2

  /** The service record `ble_sms_t`. It has room for exactly one connection handle. */
  datatype Sms = Sms(
    serviceHandle: u16,
    ledCharHandles: CharHandles,
    buttonCharHandles: CharHandles,
    uuidType: u8,
    connHandle: u16)

  /** Something the service does that the outside world can observe: a call into the
      stack, or a line of the check macro's log. */
  datatype Effect = Call(call: StackCall) | Log(line: LogLine)

  /** What an operation leaves behind: the record, the effects in order, the return code. */
  datatype Outcome = Outcome(sms: Sms, effects: seq<Effect>, ret: u32)

  /** The calls into the stack among some effects, in order. */
  function CallsOf(effects: seq<Effect>): (calls: seq<StackCall>)
    ensures |calls| <= |effects|
  {
    if effects == [] then []
    else (if effects[0].Call? then [effects[0].call] else []) + CallsOf(effects[1..])
  }

  // ---------------------------------------------------------------------------
  // Moisture value bytes

  /** The in-memory bytes of a `uint16_t` on the little-endian target: low byte first. */
  function EncodeMoisture(v: u16): (b: seq<u8>)
    ensures |b| == SOIL_MOISTURE_SIZE as int
    // the low byte carries the units, the high byte the multiples of 256
    ensures b[0] as int + 0x100 * b[1] as int == v
  {
    [v % 0x100, v / 0x100]
  }

  /** Reads a `uint16_t` back from its two in-memory bytes. */
  function DecodeMoisture(b: seq<u8>): u16
    requires |b| == SOIL_MOISTURE_SIZE as int
  {
    var lo: int := b[0];
    var hi: int := b[1];
    lo + 0x100 * hi
  }

  lemma DecodeEncode(v: u16)
    ensures DecodeMoisture(EncodeMoisture(v)) == v
  {
  }

  lemma EncodeDecode(b: seq<u8>)
    requires |b| == SOIL_MOISTURE_SIZE as int
    ensures EncodeMoisture(DecodeMoisture(b)) == b
  {
  }

  // ---------------------------------------------------------------------------
  // Connection state machine

  /** The events the service reacts to. */
  predicate IsLinkEvent(e: BleEvt) {
    e.evtId == BLE_GAP_EVT_CONNECTED || e.evtId == BLE_GAP_EVT_DISCONNECTED
  }

  /** `on_connect`: remembers the connection the event names, replacing any earlier one. */
  function OnConnect(s: Sms, evt: BleEvt): (r: Sms)
    ensures r.connHandle == evt.connHandle
    ensures r.(connHandle := s.connHandle) == s
  {
    s.(connHandle := evt.connHandle)
  }

  /** `on_disconnect`: forgets the connection. The event is not consulted, so the handle
      becomes invalid whichever link the event names. */
  function OnDisconnect(s: Sms): (r: Sms)
    ensures r.connHandle == BLE_CONN_HANDLE_INVALID
    ensures r.(connHandle := s.connHandle) == s
  {
    s.(connHandle := BLE_CONN_HANDLE_INVALID)
  }

  /** `ble_sms_on_ble_evt`: dispatches on the event id. */
  function OnBleEvt(s: Sms, evt: BleEvt): (r: Sms)
    ensures evt.evtId == BLE_GAP_EVT_CONNECTED ==> r.connHandle == evt.connHandle
    ensures evt.evtId == BLE_GAP_EVT_DISCONNECTED ==> r.connHandle == BLE_CONN_HANDLE_INVALID
    ensures !IsLinkEvent(evt) ==> r == s
    // only the connection handle is ever written
    ensures r.(connHandle := s.connHandle) == s
  {
    if evt.evtId == BLE_GAP_EVT_CONNECTED then OnConnect(s, evt)
    else if evt.evtId == BLE_GAP_EVT_DISCONNECTED then OnDisconnect(s)
    else s
  }

  // ---------------------------------------------------------------------------
  // Service registration

  /** Metadata of the client characteristic configuration descriptor: the central may
      read and write it without security, and the stack stores it. */
  function SoilMoistureCccdMd(): (md: AttrMd)
    ensures md.readPerm == Open && md.writePerm == Open
    ensures md.vloc == VlocStack
  {
    AttrMd(Open, Open, false, VlocStack, false, false)
  }

  /** Characteristic metadata: readable and notifying, nothing else, and a CCCD so that a
      central can subscribe. */
  function SoilMoistureCharMd(): (md: CharMd)
    ensures md.props.read && md.props.notify
    ensures !md.props.write && !md.props.writeWoResp && !md.props.indicate
    ensures !md.props.broadcast && !md.props.authSignedWr
    ensures md.cccdMd == Some(SoilMoistureCccdMd())
    ensures md.userDesc.None? && !md.hasPresentationFormat
    ensures md.userDescMd.None? && md.sccdMd.None?
  {
    CharMd(
      CharProps(false, true, false, false, true, false, false),
      None, false, None, Some(SoilMoistureCccdMd()), None)
  }

  /** The characteristic's value attribute, with its UUID drawn from base `uuidType`: any
      central may read it, none may write it, and it is exactly one encoded reading long. */
  function SoilMoistureCharValue(uuidType: u8): (a: AttrCharValue)
    ensures a.uuid == BleUuid(uuidType, SMS_UUID_SOIL_MOISTURE_CHAR)
    ensures a.attrMd.readPerm == Open && a.attrMd.writePerm == NoAccess
    ensures a.attrMd.vloc == VlocStack && !a.attrMd.rdAuth && !a.attrMd.wrAuth
    ensures !a.attrMd.vlen && a.initOffs == 0 && a.initValue.None?
    ensures forall v: u16 :: a.initLen == a.maxLen == |EncodeMoisture(v)|
  {
    AttrCharValue(
      BleUuid(uuidType, SMS_UUID_SOIL_MOISTURE_CHAR),
      AttrMd(Open, NoAccess, false, VlocStack, false, false),
      SOIL_MOISTURE_SIZE, 0, SOIL_MOISTURE_SIZE, None)
  }

  /** `soil_moisture_char_add`: one characteristic-add call on the stored service handle
      with the stored UUID type, whose handles land in `button_char_handles`; the stack's
      code is logged and handed back unchanged. */
  function SoilMoistureCharAdd(s: Sms, reply: Reply<CharHandles>): (r: Outcome)
    ensures r.ret == reply.err
    ensures CallsOf(r.effects) ==
      [CharacteristicAdd(s.serviceHandle, SoilMoistureCharMd(), SoilMoistureCharValue(s.uuidType))]
    ensures |r.effects| == 2
    ensures r.effects[1] == Log(AppCheckResC(reply.err, "sd_ble_gatts_characteristic_add"))
    ensures r.sms.buttonCharHandles == reply.out.GetOr(s.buttonCharHandles)
    ensures r.sms.(buttonCharHandles := s.buttonCharHandles) == s
  {
    var call := CharacteristicAdd(s.serviceHandle, SoilMoistureCharMd(), SoilMoistureCharValue(s.uuidType));
    var effects := [Call(call), Log(AppCheckResC(reply.err, "sd_ble_gatts_characteristic_add"))];
    assert CallsOf(effects) == [call] by {
      assert effects[1..][1..] == [];
    }
    Outcome(s.(buttonCharHandles := reply.out.GetOr(s.buttonCharHandles)), effects, reply.err)
  }

  /** `ble_sms_init`, over the record's prior contents and the stack's three replies.

      The connection handle is invalidated first. Then the base UUID is registered, the
      primary service is added and the characteristic is added, in that order and
      whatever each step returned: a step the stack rejects is logged at error severity,
      and the next step uses whatever the record holds. The result is success always. */
  function Init(prior: Sms, vsAdd: Reply<u8>, serviceAdd: Reply<u16>, charAdd: Reply<CharHandles>)
    : (r: Outcome)
    ensures r.ret == NRF_SUCCESS
    ensures r.sms.connHandle == BLE_CONN_HANDLE_INVALID
    ensures r.sms.uuidType == vsAdd.out.GetOr(prior.uuidType)
    ensures r.sms.serviceHandle == serviceAdd.out.GetOr(prior.serviceHandle)
    ensures r.sms.buttonCharHandles == charAdd.out.GetOr(prior.buttonCharHandles)
    // the LED characteristic handles are never written
    ensures r.sms.ledCharHandles == prior.ledCharHandles
    // the three stack calls, each issued whatever the previous ones returned
    ensures CallsOf(r.effects) == [
      UuidVsAdd(SMS_UUID_BASE),
      ServiceAdd(BLE_GATTS_SRVC_TYPE_PRIMARY, BleUuid(r.sms.uuidType, SMS_UUID_SERVICE)),
      CharacteristicAdd(r.sms.serviceHandle, SoilMoistureCharMd(), SoilMoistureCharValue(r.sms.uuidType))]
    // a rejected step shows up only as an error log line naming it
    ensures Log(AppCheckResC(vsAdd.err, "sd_ble_uuid_vs_add")) in r.effects
    ensures Log(AppCheckResC(serviceAdd.err, "sd_ble_gatts_service_add")) in r.effects
    ensures Log(AppCheckResC(charAdd.err, "sd_ble_gatts_characteristic_add")) in r.effects
    ensures Log(AppCheckResC(charAdd.err, "soil_moisture_char_add")) in r.effects
  {
    var s1 := prior.(connHandle := BLE_CONN_HANDLE_INVALID);
    var e1 := [Call(UuidVsAdd(SMS_UUID_BASE)), Log(AppCheckResC(vsAdd.err, "sd_ble_uuid_vs_add"))];
    var s2 := s1.(uuidType := vsAdd.out.GetOr(s1.uuidType));
    var uuid := BleUuid(s2.uuidType, SMS_UUID_SERVICE);
    var e2 := [Call(ServiceAdd(BLE_GATTS_SRVC_TYPE_PRIMARY, uuid)), Log(AppCheckResC(serviceAdd.err, "sd_ble_gatts_service_add"))];
    var s3 := s2.(serviceHandle := serviceAdd.out.GetOr(s2.serviceHandle));
    var c := SoilMoistureCharAdd(s3, charAdd);
    var effects := e1 + e2 + c.effects + [Log(AppCheckResC(c.ret, "soil_moisture_char_add"))];
    assert CallsOf(effects) == CallsOf(e1) + CallsOf(e2) + CallsOf(c.effects) + [] by {
      CallsOfAppend(e1, e2 + c.effects + [Log(AppCheckResC(c.ret, "soil_moisture_char_add"))]);
      CallsOfAppend(e2, c.effects + [Log(AppCheckResC(c.ret, "soil_moisture_char_add"))]);
      CallsOfAppend(c.effects, [Log(AppCheckResC(c.ret, "soil_moisture_char_add"))]);
      assert e1 + e2 + c.effects + [Log(AppCheckResC(c.ret, "soil_moisture_char_add"))]
        == e1 + (e2 + (c.effects + [Log(AppCheckResC(c.ret, "soil_moisture_char_add"))]));
    }
    assert CallsOf(e1) == [UuidVsAdd(SMS_UUID_BASE)] by {
      assert e1[1..][1..] == [];
    }
    assert CallsOf(e2) == [ServiceAdd(BLE_GATTS_SRVC_TYPE_PRIMARY, uuid)] by {
      assert e2[1..][1..] == [];
    }
    assert effects[|e1| + |e2| + 1] == c.effects[1];
    Outcome(c.sms, effects, NRF_SUCCESS)
  }

  lemma {:induction false} CallsOfAppend(a: seq<Effect>, b: seq<Effect>)
    ensures CallsOf(a + b) == CallsOf(a) + CallsOf(b)
    decreases |a|
  {
    if a == [] {
      assert a + b == b;
    } else {
      var head := if a[0].Call? then [a[0].call] else [];
      assert (a + b)[0] == a[0];
      assert (a + b)[1..] == a[1..] + b;
      assert CallsOf(a + b) == head + CallsOf(a[1..] + b);
      CallsOfAppend(a[1..], b);
    }
  }

  // ---------------------------------------------------------------------------
  // Notification

  /** What a notification attempt leaves behind: the effects and the return code. The
      record is only read. */
  datatype Notified = Notified(effects: seq<Effect>, ret: u32)

  /** `ble_sms_on_moisture_update`: a notification of the reading, on the stored value
      handle, sent on whatever connection handle is stored (valid or not, subscribed or
      not), with the stack's code `hvxErr` logged and returned as is. */
  function OnMoistureUpdate(s: Sms, value: u16, hvxErr: u32): (r: Notified)
    ensures r.ret == hvxErr
    ensures |r.effects| == 2
    ensures r.effects[0].Call? && r.effects[0].call.Hvx?
    ensures r.effects[0].call.connHandle == s.connHandle
    ensures r.effects[0].call.params.hvxType == BLE_GATT_HVX_NOTIFICATION
    ensures r.effects[0].call.params.handle == s.buttonCharHandles.valueHandle
    ensures r.effects[0].call.params.offset == 0
    ensures r.effects[0].call.params.len as int == |r.effects[0].call.params.data| == SOIL_MOISTURE_SIZE as int
    ensures DecodeMoisture(r.effects[0].call.params.data) == value
    ensures r.effects[1] == Log(AppCheckResC(hvxErr, "sd_ble_gatts_hvx"))
  {
    var params := HvxParams(BLE_GATT_HVX_NOTIFICATION, s.buttonCharHandles.valueHandle, 0,
                            SOIL_MOISTURE_SIZE, EncodeMoisture(value));
    DecodeEncode(value);
    Notified([Call(Hvx(s.connHandle, params)), Log(AppCheckResC(hvxErr, "sd_ble_gatts_hvx"))], hvxErr)
  }

  // ---------------------------------------------------------------------------
  // Properties relating the operations

  /** The service UUID and the characteristic UUID come from the same registered base,
      and are still different UUIDs; the base is a full 128 bits. */
  lemma ServiceAndCharUuids(prior: Sms, vsAdd: Reply<u8>, serviceAdd: Reply<u16>, charAdd: Reply<CharHandles>)
    ensures var calls := CallsOf(Init(prior, vsAdd, serviceAdd, charAdd).effects);
      && |calls[0].base| == 16
      && calls[1].uuid.uuidType == calls[2].attr.uuid.uuidType
      && calls[1].uuid != calls[2].attr.uuid
  {
  }

  /** The return code and the stack calls of `Init` do not depend on the codes the stack
      returns, only on what it writes: error codes reach the log and nothing else. */
  lemma InitIgnoresStackErrors(prior: Sms, vsAdd: Reply<u8>, serviceAdd: Reply<u16>, charAdd: Reply<CharHandles>,
                               vsErr: u32, serviceErr: u32, charErr: u32)
    ensures var a := Init(prior, vsAdd, serviceAdd, charAdd);
      var b := Init(prior, vsAdd.(err := vsErr), serviceAdd.(err := serviceErr), charAdd.(err := charErr));
      a.sms == b.sms && a.ret == b.ret && CallsOf(a.effects) == CallsOf(b.effects)
  {
  }

  /** The header promises an error code when initialisation fails, but a registration
      rejected at every step still reports success. */
  lemma InitReportsSuccessOnFailure(prior: Sms, err1: u32, err2: u32, err3: u32)
    requires err1 != NRF_SUCCESS && err2 != NRF_SUCCESS && err3 != NRF_SUCCESS
    ensures Init(prior, Reply(err1, None), Reply(err2, None), Reply(err3, None)).ret == NRF_SUCCESS
    ensures var effects := Init(prior, Reply(err1, None), Reply(err2, None), Reply(err3, None)).effects;
      && Log(LogLine(Error, "sd_ble_uuid_vs_add")) in effects
      && Log(LogLine(Error, "sd_ble_gatts_service_add")) in effects
      && Log(LogLine(Error, "sd_ble_gatts_characteristic_add")) in effects
      && Log(LogLine(Error, "soil_moisture_char_add")) in effects
  {
  }

  /** Every reading fits the registered characteristic: the payload a notification
      carries is as long as the value attribute's initial and maximum length, and the
      attribute was registered for the UUID type the record holds. */
  lemma NotificationFitsCharacteristic(s: Sms, value: u16, hvxErr: u32)
    ensures var p := OnMoistureUpdate(s, value, hvxErr).effects[0].call.params;
      var a := SoilMoistureCharValue(s.uuidType);
      p.len == a.initLen == a.maxLen && !a.attrMd.vlen
  {
  }
}
