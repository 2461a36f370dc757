/** The connection state machine over a whole history of stack events, and the
    reference it is checked against: the stored handle is the one the last connect or
    disconnect event implies, or the starting one when there was none. */
module Link {
  import opened Types
  import opened SoftDevice
  import opened BleSms

  /** The record after the event handler has seen `evs`, oldest first. */
  function ApplyEvents(s: Sms, evs: seq<BleEvt>): Sms
    decreases |evs|
  {
    if evs == [] then s else ApplyEvents(OnBleEvt(s, evs[0]), evs[1..])
  }

  /** The handle a connect or disconnect event leaves stored. */
  function HandleAfter(e: BleEvt): u16 {
    if e.evtId == BLE_GAP_EVT_CONNECTED then e.connHandle else BLE_CONN_HANDLE_INVALID
  }

  /** Position `i` holds the last connect or disconnect event of `evs`. */
  ghost predicate LastLinkEventAt(evs: seq<BleEvt>, i: int) {
    && 0 <= i < |evs|
    && IsLinkEvent(evs[i])
    && forall j :: i < j < |evs| ==> !IsLinkEvent(evs[j])
  }

  /** `h` is the connection handle that history `evs` implies when the handle was
      `initial` before it: the handle of the last connect event if no disconnect came
      after it, invalid if the last such event was a disconnect, and `initial` if there
      was neither. */
  ghost predicate ImpliedHandle(initial: u16, evs: seq<BleEvt>, h: u16) {
    && ((forall i :: 0 <= i < |evs| ==> !IsLinkEvent(evs[i])) ==> h == initial)
    && (forall i :: LastLinkEventAt(evs, i) ==> h == HandleAfter(evs[i]))
  }

  /** Feeding one more event is one more step of the handler. */
  lemma {:induction false} ApplyEventsSnoc(s: Sms, evs: seq<BleEvt>, e: BleEvt)
    ensures ApplyEvents(s, evs + [e]) == OnBleEvt(ApplyEvents(s, evs), e)
    decreases |evs|
  {
    if evs == [] {
      assert (evs + [e])[1..] == [];
    } else {
      assert (evs + [e])[0] == evs[0];
      assert (evs + [e])[1..] == evs[1..] + [e];
      ApplyEventsSnoc(OnBleEvt(s, evs[0]), evs[1..], e);
    }
  }

  /** Some connect or disconnect event is the last one, as soon as there is any. */
  lemma {:induction false} LastLinkEventExists(evs: seq<BleEvt>, k: int)
    requires 0 <= k < |evs| && IsLinkEvent(evs[k])
    ensures exists i :: LastLinkEventAt(evs, i)
    decreases |evs|
  {
    var n := |evs| - 1;
    if IsLinkEvent(evs[n]) {
      assert LastLinkEventAt(evs, n);
    } else {
      var pre := evs[..n];
      assert pre[k] == evs[k];
      LastLinkEventExists(pre, k);
      var i :| LastLinkEventAt(pre, i);
      assert pre[i] == evs[i];
      assert LastLinkEventAt(evs, i);
    }
  }

  /** A history implies exactly one handle. */
  lemma ImpliedHandleUnique(initial: u16, evs: seq<BleEvt>, h1: u16, h2: u16)
    requires ImpliedHandle(initial, evs, h1) && ImpliedHandle(initial, evs, h2)
    ensures h1 == h2
  {
    if k :| 0 <= k < |evs| && IsLinkEvent(evs[k]) {
      LastLinkEventExists(evs, k);
      var i :| LastLinkEventAt(evs, i);
      assert h1 == HandleAfter(evs[i]) == h2;
    }
  }

  /** Whatever the history, the event handler keeps the handle the history implies (the
      last connect wins, any disconnect invalidates it, other events are ignored), and it
      never writes any other field of the record. */
  lemma {:induction false} ApplyEventsTracksLastLinkEvent(s: Sms, evs: seq<BleEvt>)
    ensures ImpliedHandle(s.connHandle, evs, ApplyEvents(s, evs).connHandle)
    ensures ApplyEvents(s, evs).(connHandle := s.connHandle) == s
    decreases |evs|
  {
    if evs != [] {
      var s' := OnBleEvt(s, evs[0]);
      var rest := evs[1..];
      var r := ApplyEvents(s', rest);
      assert r == ApplyEvents(s, evs);
      ApplyEventsTracksLastLinkEvent(s', rest);
      if forall i :: 0 <= i < |evs| ==> !IsLinkEvent(evs[i]) {
        assert !IsLinkEvent(evs[0]);
        forall i | 0 <= i < |rest|
          ensures !IsLinkEvent(rest[i])
        {
          assert rest[i] == evs[i + 1];
        }
      }
      forall i | LastLinkEventAt(evs, i)
        ensures r.connHandle == HandleAfter(evs[i])
      {
        if i == 0 {
          forall k | 0 <= k < |rest|
            ensures !IsLinkEvent(rest[k])
          {
            assert rest[k] == evs[k + 1];
          }
        } else {
          forall j | i - 1 < j < |rest|
            ensures !IsLinkEvent(rest[j])
          {
            assert rest[j] == evs[j + 1];
          }
          assert LastLinkEventAt(rest, i - 1);
        }
      }
    }
  }
}
