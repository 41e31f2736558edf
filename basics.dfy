/**
 * The value types shared by the whole model: points in time and durations (as
 * millisecond ticks), GUIDs, and IP addresses.
 */
module Basics {

  import opened Wrappers

  /** A point in time, in milliseconds; `DateTime.MinValue` is tick 0. */
  type Time = int

  /** A `TimeSpan`, in milliseconds. */
  type Duration = int

  const MinTime: Time := 0

  /** A GUID; `Guid.Empty` is 0. */
  type Guid = nat

  const EmptyGuid: Guid := 0

  /**
   * An `IPAddress` object. `IPAddress` does not overload `==`, so the source's
   * `==` on addresses compares object identity: `instance` stands for that
   * identity (each parse makes a new object) and `value` for the address bytes
   * that `Equals` compares.
   */
  datatype IPAddress = IPAddress(value: seq<int>, instance: nat)

  /** `string.IsNullOrEmpty`, with `None` standing for a null string. */
  predicate IsNullOrEmpty(s: Option<string>)
  {
    s.None? || s.value == ""
  }
}
