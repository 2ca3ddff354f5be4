/** Return codes of the driver and their derivation from ADS return codes (err.h, err.cpp). */
module Errors {

  const EPICSADS_OK := 0
  const EPICSADS_ERROR := 1001
  const EPICSADS_INV_PARAM := 1002
  const EPICSADS_INV_CALL := 1003
  const EPICSADS_NOT_ALLOCATED := 1004
  const EPICSADS_NOT_INITIALIZED := 1005
  const EPICSADS_NOT_RESOLVED := 1006
  const EPICSADS_OUT_OF_RANGE := 1007
  const EPICSADS_LIMIT := 1008
  const EPICSADS_OVERFLOW := 1009
  const EPICSADS_NO_DATA := 1010
  const EPICSADS_DISCONNECTED := 1012
  const EPICSADS_UNHANDLED_RC := 1013

  const GLOBALERR_MISSING_ROUTE := 7
  const ADSERR_DEVICE_ERROR := 0x700
  const ADSERR_DEVICE_SYMBOLNOTFOUND := 0x710
  const ADSERR_CLIENT_SYNCTIMEOUT := 0x745

  const ADS_RC_TO_EPICSADS: map<int, int> := map[
    -1 := -1,
    0 := EPICSADS_OK,
    ADSERR_DEVICE_ERROR := EPICSADS_ERROR,
    GLOBALERR_MISSING_ROUTE := EPICSADS_DISCONNECTED,
    ADSERR_CLIENT_SYNCTIMEOUT := EPICSADS_DISCONNECTED,
    ADSERR_DEVICE_SYMBOLNOTFOUND := EPICSADS_NOT_RESOLVED]

  /** A failed ADS call never turns into success, and exactly two ADS codes read as a lost connection. */
  function EpicsCode(rc: int): (code: int)
    ensures code == EPICSADS_OK <==> rc == 0
    ensures code == EPICSADS_DISCONNECTED <==> rc == GLOBALERR_MISSING_ROUTE || rc == ADSERR_CLIENT_SYNCTIMEOUT
    ensures code != EPICSADS_INV_CALL && code != EPICSADS_NOT_INITIALIZED
  {
    if rc in ADS_RC_TO_EPICSADS then ADS_RC_TO_EPICSADS[rc] else EPICSADS_UNHANDLED_RC
  }

  /** The translation in numbers: what each code of the driver stands for, and the codes it leaves as they
    are. The driver's own codes are not among those: what the buffer calls "not initialized" or "out of range"
    comes out as unhandled. */
  lemma TranslationKeeps(rc: int)
    ensures EpicsCode(rc) == 0 <==> rc == 0
    ensures EpicsCode(rc) == -1 <==> rc == -1
    ensures EpicsCode(rc) == 1001 <==> rc == 0x700
    ensures EpicsCode(rc) == 1006 <==> rc == 0x710
    ensures EpicsCode(rc) == 1012 <==> rc == 7 || rc == 0x745
    ensures EpicsCode(rc) == 1013 <==> rc !in {0, -1, 7, 0x700, 0x710, 0x745}
    ensures EpicsCode(rc) == rc <==> rc in {-1, EPICSADS_OK, EPICSADS_UNHANDLED_RC}
    ensures rc in {EPICSADS_NOT_INITIALIZED, EPICSADS_INV_PARAM, EPICSADS_OUT_OF_RANGE} ==>
              EpicsCode(rc) == EPICSADS_UNHANDLED_RC
  {
    if rc in ADS_RC_TO_EPICSADS {
      assert rc in {-1, 0, ADSERR_DEVICE_ERROR, GLOBALERR_MISSING_ROUTE, ADSERR_CLIENT_SYNCTIMEOUT,
                    ADSERR_DEVICE_SYMBOLNOTFOUND};
    }
  }
}
