/** The error codes of include/ec_errno.h:9-33 that the model uses; functions return them negated. */
module ErrorCodes {
  const EC_ERR_INVAL: int := 2
  const EC_ERR_TIMEOUT: int := 3
  const EC_ERR_NOSUPP: int := 4
  const EC_ERR_IO: int := 5
  const EC_ERR_WC: int := 6
  const EC_ERR_ALERR: int := 7
  const EC_ERR_MBOX: int := 9
  const EC_ERR_COE_TYPE: int := 11
  const EC_ERR_COE_SIZE: int := 12
  const EC_ERR_COE_REQUEST: int := 13
  const EC_ERR_COE_TOGGLE: int := 14
  const EC_ERR_COE_ABORT: int := 15
  const EC_ERR_UNKNOWN: int := 255
}
