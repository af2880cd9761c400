/** `OSVR_TimeValue`, the timestamp every report and message carries. */
module TimeValues {
  /** Seconds and microseconds. */
  datatype TimeValue = TimeValue(seconds: int, microseconds: int)
}
