/** Protocol and configuration constants, with the values the responder's headers give them. */
module Codes {
  // Handles, storage ids and format codes (include/ptp_datacodes.h)
  const ROOT: nat := 0
  const ALL: nat := 0xFFFF_FFFF
  const FORMAT_NOTUSED: nat := 0
  const FORMAT_ALL: nat := 0xFFFF_FFFF
  const FMT_UNDEF: nat := 0x3000
  const FMT_ASSOCIATION: nat := 0x3001
  const STORE_ID: nat := 0x20001

  // Protection status
  const NO_PROTECTION: nat := 0
  const READONLY: nat := 1
  const READONLY_DATA: nat := 0x8002

  // Response codes
  const UNDEFINED: nat := 0x2000
  const OK: nat := 0x2001
  const GEN_ERROR: nat := 0x2002
  const SESSION_NOT_OPEN: nat := 0x2003
  const OP_NOT_SUPPORTED: nat := 0x2005
  const PARAM_NOT_SUPPORTED: nat := 0x2006
  const INCOMPLETE_TRANSFER: nat := 0x2007
  const INVALID_STORE_ID: nat := 0x2008
  const INVALID_OBJ_HANDLE: nat := 0x2009
  const PROP_NOT_SUPPORTED: nat := 0x200A
  const INVALID_OBJ_FMTCODE: nat := 0x200B
  const STORE_FULL: nat := 0x200C
  const OBJ_WRITEPROTECTED: nat := 0x200D
  const STORE_READONLY: nat := 0x200E
  const ACCESS_DENIED: nat := 0x200F
  const PARTIAL_DELETION: nat := 0x2012
  const INVALID_CODE_FORMAT: nat := 0x2016
  const INVALID_PARENT: nat := 0x201A
  const INVALID_PROP_VALUE: nat := 0x201C
  const INVALID_PARAM: nat := 0x201D
  const SESSION_ALREADY_OPENED: nat := 0x201E
  const INVALID_DATASET: nat := 0xA806

  // Operation codes
  const GET_DEVICE_INFO: nat := 0x1001
  const OPEN_SESSION: nat := 0x1002
  const CLOSE_SESSION: nat := 0x1003
  const GET_STORAGE_IDS: nat := 0x1004
  const GET_STORAGE_INFO: nat := 0x1005
  const GET_OBJECT_HANDLES: nat := 0x1007
  const GET_OBJECT_INFO: nat := 0x1008
  const GET_OBJECT: nat := 0x1009
  const DELETE_OBJECT: nat := 0x100B
  const SEND_OBJECT_INFO: nat := 0x100C
  const SEND_OBJECT: nat := 0x100D
  const RESET_DEVICE: nat := 0x1010
  const POWER_DOWN: nat := 0x1013
  const GET_PARTIAL_OBJECT: nat := 0x101B
  const VENDOR_OP1: nat := 0x9001
  const ANDROID_GET_PARTIAL: nat := 0x95C1
  const ANDROID_SEND_PARTIAL: nat := 0x95C2
  const ANDROID_BEGIN_EDIT: nat := 0x95C4
  const ANDROID_END_EDIT: nat := 0x95C5
  const GET_OBJECT_PROP_DESC: nat := 0x9802
  const SET_OBJECT_PROP_VALUE: nat := 0x9804
  const GET_INTERDEP_PROP_DESC: nat := 0x9807

  // Container types and sizes
  const CMD_BLK: nat := 1
  const DATA_BLK: nat := 2
  const HEADER: nat := 12
  const CMD_CONTAINER_SIZE: nat := 36
  const FILE_4GB: nat := 0x1_0000_0000
  const U32_MAX: nat := 0xFFFF_FFFF

  // Limits
  const MAX_PATH: nat := 1045
  const MAX_NAME: nat := 1024
  const MAX_OBJECT_INFO: nat := 32000
  const MAX_PROP_DATA: nat := 1000000
}
