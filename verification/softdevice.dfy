/** The part of the Nordic SoftDevice interface the service uses, as data.
    The stack itself is not modelled: each call is recorded as a `StackCall` value and
    its answer is supplied by the caller of the model as a `Reply`. */
module SoftDevice {
  import opened Types

  /** Return code of a successful stack call. */
  const NRF_SUCCESS: u32 := 0
  /** Connection handle meaning "no connection". */
  const BLE_CONN_HANDLE_INVALID: u16 := 0xFFFF
  /** GAP event ids. */
  const BLE_GAP_EVT_CONNECTED: u16 := 0x10
  const BLE_GAP_EVT_DISCONNECTED: u16 := 0x11
  /** GATT server service type "primary". */
  const BLE_GATTS_SRVC_TYPE_PRIMARY: u8 := 0x01
  /** Handle-value operation type "notification". */
  const BLE_GATT_HVX_NOTIFICATION: u8 := 0x01

  /** A stack event: its header id and, for GAP events, the connection it concerns. */
  datatype BleEvt = BleEvt(evtId: u16, connHandle: u16)

  /** A UUID as the stack refers to it: a registered base (by type tag) plus a 16-bit id. */
  datatype BleUuid = BleUuid(uuidType: u8, uuid: u16)

  /** Security mode of an attribute permission. */
  datatype SecMode = Open | NoAccess

  /** Where the stack keeps an attribute's value. */
  datatype Vloc = VlocInvalid | VlocStack | VlocUser

  /** Attribute metadata (`ble_gatts_attr_md_t`). */
  datatype AttrMd = AttrMd(
    readPerm: SecMode,
    writePerm: SecMode,
    vlen: bool,
    vloc: Vloc,
    rdAuth: bool,
    wrAuth: bool)

  /** Characteristic properties (`ble_gatt_char_props_t`). */
  datatype CharProps = CharProps(
    broadcast: bool,
    read: bool,
    writeWoResp: bool,
    write: bool,
    notify: bool,
    indicate: bool,
    authSignedWr: bool)

  /** Characteristic metadata (`ble_gatts_char_md_t`); absent pointers are `None`/`false`. */
  datatype CharMd = CharMd(
    props: CharProps,
    userDesc: Option<seq<u8>>,
    hasPresentationFormat: bool,
    userDescMd: Option<AttrMd>,
    cccdMd: Option<AttrMd>,
    sccdMd: Option<AttrMd>)

  /** Characteristic value attribute (`ble_gatts_attr_t`). */
  datatype AttrCharValue = AttrCharValue(
    uuid: BleUuid,
    attrMd: AttrMd,
    initLen: u16,
    initOffs: u16,
    maxLen: u16,
    initValue: Option<seq<u8>>)

  /** Handles the stack assigns to an added characteristic (`ble_gatts_char_handles_t`). */
  datatype CharHandles = CharHandles(valueHandle: u16, userDescHandle: u16, cccdHandle: u16, sccdHandle: u16)

  /** Handle-value request (`ble_gatts_hvx_params_t`), with the payload bytes it points to. */
  datatype HvxParams = HvxParams(hvxType: u8, handle: u16, offset: u16, len: u16, data: seq<u8>)

  /** An outgoing call into the stack, with the arguments it was given. */
  datatype StackCall =
    | UuidVsAdd(base: seq<u8>)
    | ServiceAdd(serviceType: u8, uuid: BleUuid)
    | CharacteristicAdd(serviceHandle: u16, charMd: CharMd, attr: AttrCharValue)
    | Hvx(connHandle: u16, params: HvxParams)

  /** The stack's answer to one call: a return code, and the out-parameter value it
      wrote, if it wrote one. */
  datatype Reply<T> = Reply(err: u32, out: Option<T>)
}
