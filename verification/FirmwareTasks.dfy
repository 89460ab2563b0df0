/** The callbacks and task bodies of firmware/src/main.cpp over the shared
    objects they update.  `t` is the true time at which a body reads `millis()`. */
module FirmwareTasks {
  import opened Clock
  import opened AccessController
  import opened GpioActuator
  import opened ControllerLoop
  import opened AuthRing
  import Auth = AuthEngine
  import opened Hmac
  import opened Uwb
  import opened Firmware

  class FirmwareTasks {
    const auth: Auth.AuthEngine
    const ctrl: AccessController
    const gpio: GpioActuator
    const uwb: UwbManager
    /** BleManager's conn_handle_. */
    var link: u16
    var queue: seq<Evt>
    /** Locals of the UWB and NFC tasks that live from pass to pass. */
    var prevZone: Zone
    var tapped: bool
    ghost var dropped: bool

    ghost function View(): Sys
      reads this, auth, auth.pool, ctrl, gpio, uwb
    {
      Sys(auth.View(), link, queue, dropped, Loop(ctrl.View(), gpio.View()), uwb.View(), prevZone, tapped)
    }

    ghost predicate Valid()
      reads this, auth, auth.pool, ctrl, gpio, uwb
    {
      auth.Valid() && View().Valid()
    }

    /** Everything up to the controller task's loop: its begin and reset. */
    constructor (bootMs: nat)
      ensures Valid() && Fresh(View(), bootMs)
      ensures fresh(auth) && fresh(auth.pool) && fresh(ctrl) && fresh(gpio) && fresh(uwb)
    {
      auth := new Auth.AuthEngine();
      ctrl := new AccessController();
      gpio := new GpioActuator();
      uwb := new UwbManager();
      link, queue, prevZone, tapped, dropped := INVALID_HANDLE, [], Far, false, false;
      new;
      gpio.Begin();
      ctrl.Reset(Millis(bootMs));
    }

    /** xQueueSend with no timeout. */
    method Send(e: Evt)
      requires Valid()
      modifies this`queue, this`dropped
      ensures Valid() && View() == old(View()).Post(e)
    {
      if |queue| < EVENT_QUEUE_LEN {
        queue := queue + [e];
      } else {
        dropped := true;
      }
    }

    /** BleManager::_on_connect and on_ble_connection(handle, true). */
    method OnConnect(handle: u16, t: nat) returns (nonce: Bytes)
      requires Valid()
      modifies this, auth, auth.pool
      ensures Valid() && View() == SysNext(old(View()), Auth.ExpectedMac, Connect(handle, t, nonce))
      ensures |nonce| == Auth.NONCE_LEN
    {
      hide Auth.ExpectedMac, Auth.RandBytes, Auth.RandState;
      link := handle;
      Send(Evt(BleConnect, handle));
      var buffer := new bv8[Auth.NONCE_LEN];
      var ok := auth.NewChallenge(handle, Millis(t), buffer);
      nonce := buffer[..];
    }

    /** BleManager::_on_disconnect and on_ble_connection(handle, false). */
    method OnDisconnect()
      requires Valid()
      modifies this
      ensures Valid() && View() == SysNext(old(View()), Auth.ExpectedMac, Disconnect)
    {
      hide Auth.ExpectedMac;
      var handle := link;
      link := INVALID_HANDLE;
      Send(Evt(BleDisconnect, handle));
    }

    /** BleManager::_on_response and on_ble_response; the write callback has
        checked that nonce and MAC are 32 bytes each. */
    method OnResponse(t: nat, nonce: Bytes, response: Bytes)
      requires Valid() && |nonce| == Auth.NONCE_LEN && |response| == Auth.HMAC_LEN
      modifies this, auth.pool
      ensures Valid() && View() == SysNext(old(View()), Auth.ExpectedMac, Respond(t, nonce, response))
    {
      hide Auth.ExpectedMac;
      var r := auth.VerifyResponse(link, Millis(t), To(nonce), To(response));
      Send(Evt(if r == OK then AuthOk else AuthFail, link));
    }

    /** One pass of uwb_task, with the sample its driver read. */
    method UwbPass(sample: UwbSample)
      requires Valid()
      modifies this, uwb
      ensures Valid() && View() == SysNext(old(View()), Auth.ExpectedMac, Range(sample))
    {
      hide Auth.ExpectedMac, Tracker.Push;
      var _ := uwb.PushMeasurement(sample);
      var z := uwb.zone;
      if z != prevZone {
        if z == Near {
          Send(Evt(ZoneNear, 0));
        } else if z == Far {
          Send(Evt(ZoneFar, 0));
        }
        prevZone := z;
      }
    }

    /** One pass of nfc_task, with the verdict on the tag it reads. */
    method NfcPass(authorised: bool)
      requires Valid()
      modifies this
      ensures Valid() && View() == SysNext(old(View()), Auth.ExpectedMac, Tap(authorised))
    {
      hide Auth.ExpectedMac;
      if link != INVALID_HANDLE && !tapped {
        Send(Evt(if authorised then NfcOk else NfcFail, 0));
        tapped := true;
      }
      if link == INVALID_HANDLE {
        tapped := false;
      }
    }

    /** First half of a pass of controller_task: receive, handle, apply. */
    method ControllerEvent(t: nat, appliedMs: nat)
      requires Valid()
      modifies this, ctrl, gpio
      ensures Valid() && View() == SysNext(old(View()), Auth.ExpectedMac, Dequeue(t, appliedMs))
    {
      hide Auth.ExpectedMac, Snapshot.HandleEvent, Apply;
      if queue == [] {
        return;
      }
      var e := queue[0];
      queue := queue[1..];
      var a := ctrl.HandleEvent(e.kind, Millis(t));
      ApplyAction(a, gpio, Millis(appliedMs));
    }

    /** Second half: tick, apply, service. */
    method ControllerTimers(t: nat, appliedMs: nat, serviceMs: nat)
      requires Valid()
      modifies this, ctrl, gpio
      ensures Valid() && View() == SysNext(old(View()), Auth.ExpectedMac, Service(t, appliedMs, serviceMs))
    {
      hide Auth.ExpectedMac, Snapshot.Tick, Apply, Outputs.Service;
      var a := ctrl.Tick(Millis(t));
      ApplyAction(a, gpio, Millis(appliedMs));
      gpio.Service(Millis(serviceMs));
    }
  }
}
