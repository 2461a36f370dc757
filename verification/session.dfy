/** The service at run time: stack events and moisture readings arrive one at a time,
    in one sequential context, after registration. */
module Session {
  import opened Types
  import opened SoftDevice
  import opened BleSms
  import opened Link

  /** One thing the service is handed: a stack event, or a new reading together with
      the code the stack will answer its notification with. */
  datatype Input = StackEvent(evt: BleEvt) | MoistureUpdate(value: u16, hvxErr: u32)

  /** The record after some inputs and everything the service did meanwhile. */
  datatype Trace = Trace(sms: Sms, effects: seq<Effect>)

  function Step(s: Sms, input: Input): Trace {
    match input
    case StackEvent(e) => Trace(OnBleEvt(s, e), [])
    case MoistureUpdate(v, err) => Trace(s, OnMoistureUpdate(s, v, err).effects)
  }

  /** Handles `inputs`, oldest first. */
  function Run(s: Sms, inputs: seq<Input>): Trace
    decreases |inputs|
  {
    if inputs == [] then Trace(s, [])
    else
      var prev := Run(s, inputs[..|inputs| - 1]);
      var step := Step(prev.sms, inputs[|inputs| - 1]);
      Trace(step.sms, prev.effects + step.effects)
  }

  /** The stack events among `inputs`, in order. */
  function EventsOf(inputs: seq<Input>): seq<BleEvt>
    decreases |inputs|
  {
    if inputs == [] then []
    else
      var last := inputs[|inputs| - 1];
      EventsOf(inputs[..|inputs| - 1]) + (if last.StackEvent? then [last.evt] else [])
  }

  /** Readings never change the record: it is what the stack events alone make of it. */
  lemma {:induction false} RunFollowsEvents(s: Sms, inputs: seq<Input>)
    ensures Run(s, inputs).sms == ApplyEvents(s, EventsOf(inputs))
    decreases |inputs|
  {
    if inputs != [] {
      var pre := inputs[..|inputs| - 1];
      var last := inputs[|inputs| - 1];
      RunFollowsEvents(s, pre);
      if last.StackEvent? {
        ApplyEventsSnoc(s, EventsOf(pre), last.evt);
      } else {
        assert EventsOf(inputs) == EventsOf(pre) + [];
        assert EventsOf(pre) + [] == EventsOf(pre);
      }
    }
  }

  /** A reading is always notified, on the connection handle the events before it imply:
      the last connected link, or the invalid handle after a disconnect. Nothing checks
      that a central is connected or subscribed first. */
  lemma NotificationUsesImpliedHandle(s: Sms, inputs: seq<Input>, value: u16, hvxErr: u32)
    ensures var before := Run(s, inputs);
      var after := Run(s, inputs + [MoistureUpdate(value, hvxErr)]);
      && after.sms == before.sms
      && after.effects == before.effects + OnMoistureUpdate(before.sms, value, hvxErr).effects
      && after.effects[|before.effects|].call.Hvx?
      && ImpliedHandle(s.connHandle, EventsOf(inputs), after.effects[|before.effects|].call.connHandle)
  {
    var all := inputs + [MoistureUpdate(value, hvxErr)];
    assert all[..|all| - 1] == inputs;
    RunFollowsEvents(s, inputs);
    ApplyEventsTracksLastLinkEvent(s, EventsOf(inputs));
  }

  /** Registration followed by any session: the service, UUID type and characteristic
      handles registration produced are never changed, and the connection handle is
      invalid until the first connect and after every disconnect. */
  lemma RegistrationSurvivesSession(prior: Sms, vsAdd: Reply<u8>, serviceAdd: Reply<u16>,
                                    charAdd: Reply<CharHandles>, inputs: seq<Input>)
    ensures var reg := Init(prior, vsAdd, serviceAdd, charAdd).sms;
      var t := Run(reg, inputs).sms;
      && t.(connHandle := BLE_CONN_HANDLE_INVALID) == reg
      && ImpliedHandle(BLE_CONN_HANDLE_INVALID, EventsOf(inputs), t.connHandle)
  {
    var reg := Init(prior, vsAdd, serviceAdd, charAdd).sms;
    RunFollowsEvents(reg, inputs);
    ApplyEventsTracksLastLinkEvent(reg, EventsOf(inputs));
  }

  /** A stack event after some inputs changes only the record. */
  lemma RunEvent(s: Sms, inputs: seq<Input>, e: BleEvt)
    ensures Run(s, inputs + [StackEvent(e)]) ==
      Trace(OnBleEvt(Run(s, inputs).sms, e), Run(s, inputs).effects)
  {
  }

  /** A reading after some inputs appends its notification attempt's effects. */
  lemma RunReading(s: Sms, inputs: seq<Input>, value: u16, hvxErr: u32)
    ensures Run(s, inputs + [MoistureUpdate(value, hvxErr)]) ==
      Trace(Run(s, inputs).sms, Run(s, inputs).effects + OnMoistureUpdate(Run(s, inputs).sms, value, hvxErr).effects)
  {
  }

  /** The one stack call a notification attempt makes. */
  lemma NotificationCall(s: Sms, value: u16, hvxErr: u32)
    ensures CallsOf(OnMoistureUpdate(s, value, hvxErr).effects) ==
      [Hvx(s.connHandle, HvxParams(BLE_GATT_HVX_NOTIFICATION, s.buttonCharHandles.valueHandle, 0,
                                   SOIL_MOISTURE_SIZE, EncodeMoisture(value)))]
  {
  }

  /** Connect link 1 and read 500, disconnect and read 600, connect link 2 and read 700,
      with the stack answering the three notifications with codes e1, e2 and e3. */
  function Reconnection(e1: u32, e2: u32, e3: u32): seq<Input> {
    [StackEvent(BleEvt(BLE_GAP_EVT_CONNECTED, 1)), MoistureUpdate(500, e1),
     StackEvent(BleEvt(BLE_GAP_EVT_DISCONNECTED, 1)), MoistureUpdate(600, e2),
     StackEvent(BleEvt(BLE_GAP_EVT_CONNECTED, 2)), MoistureUpdate(700, e3)]
  }

  /** Connect link 1 and notify 500, disconnect and notify 600, connect link 2 and notify
      700: three notifications go out, on link 1, on the invalid handle and on link 2. */
  lemma ConnectDisconnectReconnect(s: Sms, e1: u32, e2: u32, e3: u32)
    ensures var calls := CallsOf(Run(s, Reconnection(e1, e2, e3)).effects);
      var vh := s.buttonCharHandles.valueHandle;
      calls == [
        Hvx(1, HvxParams(BLE_GATT_HVX_NOTIFICATION, vh, 0, 2, EncodeMoisture(500))),
        Hvx(BLE_CONN_HANDLE_INVALID, HvxParams(BLE_GATT_HVX_NOTIFICATION, vh, 0, 2, EncodeMoisture(600))),
        Hvx(2, HvxParams(BLE_GATT_HVX_NOTIFICATION, vh, 0, 2, EncodeMoisture(700)))]
  {
    var n1 := OnMoistureUpdate(s.(connHandle := 1), 500, e1).effects;
    var n2 := OnMoistureUpdate(s.(connHandle := BLE_CONN_HANDLE_INVALID), 600, e2).effects;
    var n3 := OnMoistureUpdate(s.(connHandle := 2), 700, e3).effects;
    ScenarioEffects(s, e1, e2, e3);
    CallsOfAppend(n1 + n2, n3);
    CallsOfAppend(n1, n2);
    NotificationCall(s.(connHandle := 1), 500, e1);
    NotificationCall(s.(connHandle := BLE_CONN_HANDLE_INVALID), 600, e2);
    NotificationCall(s.(connHandle := 2), 700, e3);
  }

  /** A stack event followed by a reading: the reading is notified on the record as the
      event left it. */
  lemma RunEventThenReading(s: Sms, inputs: seq<Input>, e: BleEvt, value: u16, hvxErr: u32)
    ensures var prev := Run(s, inputs);
      var t := OnBleEvt(prev.sms, e);
      Run(s, inputs + [StackEvent(e), MoistureUpdate(value, hvxErr)]) ==
        Trace(t, prev.effects + OnMoistureUpdate(t, value, hvxErr).effects)
  {
    RunEvent(s, inputs, e);
    RunReading(s, inputs + [StackEvent(e)], value, hvxErr);
    assert inputs + [StackEvent(e)] + [MoistureUpdate(value, hvxErr)]
      == inputs + [StackEvent(e), MoistureUpdate(value, hvxErr)];
  }

  /** The effects of the scenario above: the three notification attempts, each made on the
      record as the preceding event left it. */
  lemma ScenarioEffects(s: Sms, e1: u32, e2: u32, e3: u32)
    ensures Run(s, Reconnection(e1, e2, e3)).effects ==
      OnMoistureUpdate(s.(connHandle := 1), 500, e1).effects +
      OnMoistureUpdate(s.(connHandle := BLE_CONN_HANDLE_INVALID), 600, e2).effects +
      OnMoistureUpdate(s.(connHandle := 2), 700, e3).effects
  {
    var p2 := [StackEvent(BleEvt(BLE_GAP_EVT_CONNECTED, 1)), MoistureUpdate(500, e1)];
    var p4 := p2 + [StackEvent(BleEvt(BLE_GAP_EVT_DISCONNECTED, 1)), MoistureUpdate(600, e2)];
    var p6 := p4 + [StackEvent(BleEvt(BLE_GAP_EVT_CONNECTED, 2)), MoistureUpdate(700, e3)];
    var n1 := OnMoistureUpdate(s.(connHandle := 1), 500, e1).effects;
    var n2 := OnMoistureUpdate(s.(connHandle := BLE_CONN_HANDLE_INVALID), 600, e2).effects;
    var n3 := OnMoistureUpdate(s.(connHandle := 2), 700, e3).effects;
    RunEventThenReading(s, [], BleEvt(BLE_GAP_EVT_CONNECTED, 1), 500, e1);
    assert [] + p2 == p2;
    assert Run(s, p2) == Trace(s.(connHandle := 1), n1);
    RunEventThenReading(s, p2, BleEvt(BLE_GAP_EVT_DISCONNECTED, 1), 600, e2);
    assert Run(s, p4) == Trace(s.(connHandle := BLE_CONN_HANDLE_INVALID), n1 + n2);
    RunEventThenReading(s, p4, BleEvt(BLE_GAP_EVT_CONNECTED, 2), 700, e3);
    assert Run(s, p6) == Trace(s.(connHandle := 2), n1 + n2 + n3);
    assert p6 == Reconnection(e1, e2, e3);
  }
}
