/** The ODCPI part of class GnssAdapter and its timer. The framework's callback is a ghost
    field. */
module GnssOdcpi {
  import opened Odcpi

  class OdcpiTimer {
    var mActive: bool

    constructor ()
      ensures !mActive
    {
      mActive := false;
    }

    method Start()
      modifies this
      ensures mActive
    {
      mActive := true;
    }

    method Stop()
      modifies this
      ensures !mActive
    {
      mActive := false;
    }

    method Restart()
      modifies this
      ensures mActive
    {
      Stop();
      Start();
    }
  }

  class GnssAdapter {
    var mOdcpiRegistered: bool
    var mOdcpiRequestActive: bool
    const mOdcpiTimer: OdcpiTimer
    var mOdcpiRequest: Request
    ghost var calls: seq<Request>

    ghost function World(): World
      reads this, mOdcpiTimer
    {
      Odcpi.World.World(mOdcpiRegistered, mOdcpiRequestActive, mOdcpiTimer.mActive, mOdcpiRequest, calls)
    }

    constructor ()
      ensures World() == INITIAL && fresh(mOdcpiTimer)
    {
      mOdcpiTimer := new OdcpiTimer();
      mOdcpiRegistered, mOdcpiRequestActive, mOdcpiRequest, calls := false, false, Request(0, false), [];
    }

    method InitOdcpi()
      modifies this
      ensures World() == Step(old(World()), Init)
    {
      mOdcpiRegistered := true;
    }

    method OdcpiRequestCb(request: Request)
      modifies this`calls
      ensures calls == old(calls) + [request]
    {
      calls := calls + [request];
    }

    method RequestOdcpi(request: Request)
      modifies this, mOdcpiTimer
      ensures World() == Step(old(World()), Start(request))
    {
      if mOdcpiRegistered {
        if !mOdcpiRequestActive && !mOdcpiTimer.mActive {
          OdcpiRequestCb(request);
          mOdcpiRequestActive := true;
          mOdcpiTimer.Start();
        } else if !mOdcpiRequest.isEmergencyMode && request.isEmergencyMode {
          OdcpiRequestCb(request);
          mOdcpiRequestActive := true;
          if mOdcpiTimer.mActive {
            mOdcpiTimer.Restart();
          } else {
            mOdcpiTimer.Start();
          }
        } else if !mOdcpiRequestActive && mOdcpiTimer.mActive {
          mOdcpiRequestActive := true;
        }
        mOdcpiRequest := request;
      }
    }

    method RequestOdcpiStop()
      modifies this
      ensures World() == Step(old(World()), Event.Stop)
    {
      if mOdcpiRegistered {
        mOdcpiRequestActive := false;
      }
    }

    method OdcpiTimerExpire()
      modifies this, mOdcpiTimer
      ensures World() == Step(old(World()), Expire)
    {
      if mOdcpiRequestActive {
        OdcpiRequestCb(mOdcpiRequest);
        mOdcpiTimer.Restart();
      } else {
        mOdcpiTimer.Stop();
      }
    }

    /** restartSessions: the request does not survive the modem. */
    method RestartSessions()
      modifies this
      ensures World() == Step(old(World()), ModemRestart)
    {
      mOdcpiRequestActive := false;
    }
  }
}
