/** NTSTATUS values as the driver sees them: 32 bits whose two top bits are the severity. */
module NtStatus {

  type Status = x: int | 0 <= x < 0x1_0000_0000

  const STATUS_SUCCESS: Status := 0
  const STATUS_PENDING: Status := 0x103
  const STATUS_CANCELLED: Status := 0xC000_0120
  const STATUS_INVALID_DEVICE_STATE: Status := 0xC000_0184

  /** NT_SUCCESS: severity success or informational. */
  predicate NtSuccess(st: Status) { st < 0x8000_0000 }

  /** NT_ERROR: severity error. */
  predicate NtError(st: Status) { 0xC000_0000 <= st }

  /** NT_WARNING: neither of the two. */
  predicate NtWarning(st: Status) { !NtSuccess(st) && !NtError(st) }
}
