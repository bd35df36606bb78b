// The error codes of src/libotp/ppp_common.h.
module ErrorCodes {
  const STATE_LOCK_ERROR: int := 1001
  const STATE_PARSE_ERROR: int := 1002
  const STATE_NUMSPACE: int := 1003
  const STATE_IO_ERROR: int := 1004
  const STATE_NON_EXISTENT: int := 1006
  const STATE_NO_USER_ENTRY: int := 1008
  const PPP_ERROR_POLICY: int := 3001
  const PPP_ERROR_RANGE: int := 3004
  const PPP_ERROR_DISABLED: int := 3005
  const PPP_ERROR_SPASS_POLICY: int := 64
  const PPP_ERROR_SPASS_SET: int := 128
  const PPP_ERROR_SPASS_UNSET: int := 256
}
