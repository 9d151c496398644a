/** The GPS-lock part of class GnssAdapter. The calls into the modem are a ghost field. */
module GnssLock {
  import opened GpsLock

  class GnssAdapter {
    var mAfwControlId: nat
    var mSupportNfwControl: bool
    var gpsLock: Lock
    ghost var sent: seq<Lock>

    ghost function World(): World
      reads this
    {
      GpsLock.World.World(gpsLock, mSupportNfwControl, mAfwControlId, sent)
    }

    constructor (initial: Lock)
      ensures World() == Initial(initial)
    {
      mAfwControlId, mSupportNfwControl, gpsLock, sent := 0, true, initial, [];
    }

    method SetGpsLockSync(lock: Lock)
      modifies this`sent
      ensures World() == Sent(old(World()), lock)
    {
      sent := sent + [lock];
    }

    method EnableCommand(gnss: bool, sessionId: nat)
      modifies this
      ensures World() == Step(old(World()), Enable(gnss, sessionId))
    {
      if gnss && !(mAfwControlId > 0) {
        mAfwControlId := sessionId;
        var lock := NONE;
        if mSupportNfwControl {
          gpsLock := gpsLock.OnlyNi();
          lock := gpsLock;
        }
        SetGpsLockSync(lock);
      }
    }

    method DisableCommand(sessionId: nat)
      modifies this
      ensures World() == Step(old(World()), Disable(sessionId))
    {
      if mAfwControlId == sessionId {
        mAfwControlId := 0;
        if mSupportNfwControl {
          gpsLock := gpsLock.WithMo();
        }
        SetGpsLockSync(gpsLock);
      }
    }

    method ControlNfwLocationAccess(enable: bool)
      modifies this
      ensures World() == Step(old(World()), Nfw(enable))
    {
      var lock := gpsLock;
      if enable {
        lock := lock.WithNi(false);
      } else {
        lock := lock.WithNi(true);
      }
      gpsLock := lock;
      SetGpsLockSync(lock);
    }

    /** gnssUpdateConfigCommand, the part about the lock. */
    method UpdateConfig(requested: Lock)
      modifies this
      ensures World() == Step(old(World()), Config(requested))
    {
      var newGpsLock := requested.WithMo();
      gpsLock := newGpsLock;
      var needEngineUpdate := true;
      if mAfwControlId != 0 {
        if mSupportNfwControl {
          newGpsLock := NONE;
        } else {
          needEngineUpdate := false;
        }
      }
      mSupportNfwControl := false;
      if needEngineUpdate {
        SetGpsLockSync(newGpsLock);
      }
    }

    /** setConfig on engine-up, the part about the lock. */
    method SetConfig()
      modifies this
      ensures World() == Step(old(World()), ModemRestart)
    {
      var lock := NONE;
      if mSupportNfwControl || mAfwControlId == 0 {
        lock := gpsLock;
      }
      SetGpsLockSync(lock);
    }
  }
}
