# Soil moisture BLE service — a Dafny model

This project models the peripheral-side core of `ble-soil-sense`: the soil moisture
GATT service of a Nordic nRF5 firmware. The service keeps one record (`ble_sms_t`) and
has three entry points:

- the stack-event handler (`ble_sms_on_ble_evt`, with `on_connect` and
  `on_disconnect`), which tracks the single connection handle;
- registration (`ble_sms_init`, with `soil_moisture_char_add`), which registers the
  vendor base UUID, the primary service and its one read/notify characteristic;
- the notification (`ble_sms_on_moisture_update`), which sends a 16-bit reading as a
  handle-value notification.

It also models two helpers of `debug.h`: `APP_CHECK_RES_C`, the result check the
service uses after every stack call, which only logs; and `led_debug`, the debug-LED
state update, which the service does not call.

The SoftDevice (the Nordic BLE stack) is not modelled. Each call into it is recorded
as a `StackCall` value carrying its arguments. Its answer is a parameter of the model:
a `Reply` holding the return code and, if the stack wrote one, the out-parameter value.
When a reply holds no value, the record keeps what it held before. Every operation is
a pure function: it returns the new record and the sequence of `Effect`s it produced.
An effect is a stack call or a check-macro log line, in the order they happen.

Files and modules:

- `types.dfy` (`Types`): `u8`, `u16`, `u32` and `Option`.
- `softdevice.dfy` (`SoftDevice`): stack constants, the event, UUID, descriptor and
  handle records, `StackCall` and `Reply`.
- `debug.dfy` (`Debug`): the check macro as a log line, and `led_debug` with its
  history lemmas.
- `ble_sms.dfy` (`BleSms`): the service record, the three entry points, the moisture
  byte encoding and the properties that relate them.
- `link.dfy` (`Link`): the event handler over a whole event history. It also holds a
  reference definition of the connection handle such a history implies.
- `session.dfy` (`Session`): events and readings interleaved after registration.

Two behaviours of the code are worth stating up front:

- Registration is not fail-fast. `APP_CHECK_RES_C` only logs, so all three stack
  calls are issued whatever the earlier ones returned, and each later step uses
  whatever the record holds. `ble_sms_init` always returns `NRF_SUCCESS`, although
  its header comment (ble_sms.h:49) promises an error code on failure
  (`BleSms.InitReportsSuccessOnFailure`).
- The notification is not guarded. Nothing checks that a central is connected or
  has subscribed, and no stack code is classified. The request goes to the stack on
  whatever connection handle is stored, the invalid one included, and the stack's
  code is returned unchanged (`Session.ConnectDisconnectReconnect`).

The stack constants (`NRF_SUCCESS` = 0, `BLE_CONN_HANDLE_INVALID` = 0xFFFF, the GAP
connect and disconnect event ids 0x10 and 0x11, the primary service type 1 and the
notification type 1) are the values of the Nordic SDK headers. Those headers are not
part of this model. No proof depends on these values beyond the two event ids being
different. Security modes are modelled as `Open` or `NoAccess` rather than as the
SDK's (mode, level) pairs.

The payload is the in-memory bytes of a `uint16_t`. The model assumes the nRF5
target's little-endian layout, so the low byte comes first. This is an assumption
about the target, not a wire-format standard.

## Model

| member | source | states |
|---|---|---|
| Debug.AppCheckResC | debug.h:35-43 | the check macro produces one log line naming the checked call, at error severity exactly when the code is not success, and nothing a caller could branch on |
| Debug.LedDebug | debug.h:51-65 | the new LED state is 0 or 1; the pin is set exactly when the new state is nonzero; toggle inverts the old state read as a truth value; on and off give 1 and 0 whatever the old state |
| Debug.OnOffIdempotent | debug.h:54 | switching on (or off) a second time changes neither the state nor the pin action |
| Debug.ToggleTwice | debug.h:54 | two toggles restore a state of 0 or 1, and turn any other stored byte into 1 |
| Debug.OnlyToggles | debug.h:54 | after n toggles the state is unchanged for n = 0, inverted for odd n, and normalised to a truth value for even n > 0 |
| Debug.LedFollowsLastSetting | debug.h:51-65 | after any series of calls the LED shows the last on/off setting, inverted exactly when an odd number of toggles followed it |
| BleSms.EncodeMoisture | ble_sms.c:145-150 | the payload is exactly two bytes, low byte first: the first byte plus 256 times the second is the reading; DecodeEncode and EncodeDecode make it a bijection |
| BleSms.DecodeEncode | ble_sms.c:150 | the two payload bytes read back as the reading that was sent |
| BleSms.EncodeDecode | ble_sms.h:21 | any two bytes are the payload of exactly one reading, so the 2-byte encoding is a bijection |
| BleSms.OnConnect | ble_sms.c:23-26 | the stored handle becomes the event's handle, replacing any earlier one; no other field changes |
| BleSms.OnDisconnect | ble_sms.c:34-38 | the stored handle becomes invalid without consulting the event; no other field changes |
| BleSms.OnBleEvt | ble_sms.c:41-59 | a connect event stores its handle, a disconnect event invalidates it, any other event leaves the record equal to what it was; only the connection handle is ever written |
| BleSms.SoilMoistureCccdMd | ble_sms.c:73-77 | the subscription descriptor is readable and writable with open security and is kept by the stack |
| BleSms.SoilMoistureCharMd | ble_sms.c:79-87 | the characteristic is readable and notifying and has no other property, no user description, no presentation format, no server configuration, and a subscription descriptor |
| BleSms.SoilMoistureCharValue | ble_sms.c:89-108 | the value attribute has the characteristic UUID under the given base, may be read openly and never written, has fixed length equal to the encoded length of every reading, starts at offset 0 and has no initial value |
| BleSms.SoilMoistureCharAdd | ble_sms.c:65-115 | exactly one characteristic-add call on the stored service handle with the stored UUID type; the handles the stack writes land in the button handles and nothing else changes; the stack's code is logged and returned unchanged |
| BleSms.Init | ble_sms.c:117-140 | returns success; the connection handle ends invalid; the base UUID, primary service and characteristic are added in that order, each with the UUID type and service handle the earlier steps left in the record; the LED handles are never written; every step's code is logged |
| BleSms.OnMoistureUpdate | ble_sms.c:142-156 | one notification request on the stored connection handle and the stored value handle, of length 2, whose payload decodes to the reading; the stack's code is logged and returned as is, and the record is not changed |
| BleSms.ServiceAndCharUuids | ble_sms.h:16-18 | registration sends a 16-byte base UUID; the service UUID and the characteristic UUID share the registered base type and are different UUIDs |
| BleSms.InitIgnoresStackErrors | ble_sms.c:123-139 | changing only the stack's return codes leaves the record, the return code and the sequence of stack calls of registration unchanged |
| BleSms.InitReportsSuccessOnFailure | ble_sms.c:127-139 | registration rejected at every step still returns success, and each of the four check-macro log lines is at error severity |
| BleSms.NotificationFitsCharacteristic | ble_sms.c:145-151 | every notification's length equals the characteristic's registered initial and maximum length, and that length is fixed |
| Link.ApplyEventsTracksLastLinkEvent | ble_sms.c:41-59 | after any event history the stored handle is the one the history implies (last connect wins, a later disconnect invalidates it, otherwise the starting value), and no other field was written |
| Link.ImpliedHandleUnique | ble_sms.h:39 | a history implies exactly one connection handle, so the record tracks at most one connection |
| Session.RunFollowsEvents | ble_sms.c:142-156 | readings never change the record: after any mix of inputs it equals what the stack events alone produce |
| Session.NotificationUsesImpliedHandle | ble_sms.c:149-153 | after any inputs a reading is always sent to the stack, and on the connection handle the preceding events imply, including the invalid one |
| Session.RegistrationSurvivesSession | ble_sms.h:33-40 | after registration and any session the service handle, UUID type and characteristic handles are unchanged, and the connection handle is invalid until the first connect and after every disconnect |
| Session.ConnectDisconnectReconnect | ble_sms.c:45-53 | connect 1, notify, disconnect, notify, connect 2, notify sends three notifications, on handle 1, on the invalid handle and on handle 2 |

## Left out

- SoftDevice internals: `sd_ble_uuid_vs_add`, `sd_ble_gatts_service_add`,
  `sd_ble_gatts_characteristic_add` and `sd_ble_gatts_hvx` are not visible. Their
  return codes and written values are parameters. The attribute table, the CCCD
  subscription state and the stack's write-back through `p_len` are not modelled.
- Logging text: format strings, `__FILE__`, `__LINE__` and `__func__` are dropped.
  A check-macro log line keeps only its severity and the checked call's name. The
  informational log lines of the event handler are not modelled.
- `APP_CHECK_RESULT`: the modelled code does not call it. It behaves like
  `APP_CHECK_RES_C` without the label.
- GPIO: `nrf_gpio_pin_set`/`nrf_gpio_pin_clear` on `DEBUG_LED_PIN` become a
  `PinAction` output. `led_debug_last_state` is a parameter and a result rather than
  a global.
- Unused items: the `p_sms_init` argument, the empty `ble_sms_init_t` and the
  `ble_sms_led_write_handler_t` typedef have no effect. `memset` zeroing is reflected
  only in the zero and absent fields of the descriptors.
- The `dbg_state_t` argument of `led_debug` is one of its three enumerators. An
  out-of-range integer cast to the enum is not modelled.
- The GAP event union: an event is modelled as its id plus the `gap_evt.conn_handle`
  field. That field is read only for connect events.
- Concurrency: the firmware runs one sequential context, and the model is sequential.
