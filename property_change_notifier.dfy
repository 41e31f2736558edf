/**
 * Change-only property assignment with a `PropertyChanged` notification, the
 * base of the view rows.
 */
module PropertyChangeNotifiers {

  /**
   * The events raised so far, `raised`, followed by one naming `name` when
   * `raise` holds: a change-only assignment raises when the value differs and
   * a handler is attached.
   */
  function Emit(raised: seq<string>, raise: bool, name: string): seq<string>
  {
    if raise then raised + [name] else raised
  }

  /** An assignment adds at most one event after the earlier ones, and that one carries the caller's name. */
  lemma EmitMeaning(raised: seq<string>, raise: bool, name: string)
    ensures |raised| <= |Emit(raised, raise, name)| <= |raised| + 1
    ensures Emit(raised, raise, name)[..|raised|] == raised
    ensures |Emit(raised, raise, name)| == |raised| + 1 <==> raise
    ensures raise ==> Emit(raised, raise, name)[|raised|] == name
  {
  }

  class PropertyChangeNotifier {

    /** The property names carried by the `PropertyChanged` events raised so far, oldest first. */
    var Raised: seq<string>

    /** How many handlers are attached to `PropertyChanged`. */
    var Handlers: nat

    /** A new notifier has no handler and has raised nothing. */
    constructor ()
      ensures Raised == [] && Handlers == 0
    {
      Raised := [];
      Handlers := 0;
    }

    /** `PropertyChanged += handler`. */
    method Subscribe()
      modifies this
      ensures Handlers == old(Handlers) + 1 && Raised == old(Raised)
    {
      Handlers := Handlers + 1;
    }

    /**
     * `Update(ref member, value)`: the new value of `member` is returned as
     * `updated`; it is `value` whether or not a handler listens, and an event
     * naming `callerMemberName` is raised only for a real change under a handler.
     */
    method Update<T(==)>(member: T, value: T, callerMemberName: string) returns (updated: T)
      modifies this
      ensures updated == value
      ensures Raised == Emit(old(Raised), old(Handlers) > 0 && member != value, callerMemberName)
      ensures Handlers == old(Handlers)
    {
      updated := member;
      if member != value {
        updated := value;
        if Handlers > 0 {
          Raised := Raised + [callerMemberName];
        }
      }
    }
  }
}
