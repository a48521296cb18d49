/**
 * The per-key "copied" acknowledgment flags that the onboarding wizard and the
 * implementation page keep beside their copy buttons.  A copy request either
 * succeeds (the flag of its key becomes true) or fails (nothing changes); a
 * later timer expiry sets the flag of that key back to false.  The clipboard
 * write and the two-second timer are browser services, so they appear here
 * only as the events they cause.
 */
module Clipboard {

  /** The `copiedStates` record: copy key to flag; a missing key reads as false. */
  type Flags = map<string, bool>

  /** Whether the check mark is shown for `key` (an absent key is falsy). */
  predicate Shown(flags: Flags, key: string)
  {
    key in flags && flags[key]
  }

  /** The state after the clipboard write for `key` succeeded. */
  function Acknowledge(flags: Flags, key: string): (r: Flags)
    ensures Shown(r, key)
    ensures r.Keys == flags.Keys + {key}
    ensures forall k :: k in flags && k != key ==> r[k] == flags[k]
  {
    flags[key := true]
  }

  /** The state after the timer scheduled for `key` fired. */
  function Expire(flags: Flags, key: string): (r: Flags)
    ensures key in r && !Shown(r, key)
    ensures r.Keys == flags.Keys + {key}
    ensures forall k :: k in flags && k != key ==> r[k] == flags[k]
  {
    flags[key := false]
  }

  /** The state after a copy request for `key` resolved; `succeeded` is the
      outcome of the clipboard write, and a failure is only logged. */
  function AfterCopy(flags: Flags, key: string, succeeded: bool): (r: Flags)
    ensures succeeded ==> Shown(r, key) && r.Keys == flags.Keys + {key}
    ensures !succeeded ==> r == flags
    ensures forall k :: k != key ==> (k in r <==> k in flags) && (k in flags ==> r[k] == flags[k])
  {
    if succeeded then Acknowledge(flags, key) else flags
  }

  /** A copy followed by its timer leaves no check mark for that key and
      leaves every other key as it was, whatever the outcome of the copy. */
  lemma CopyThenExpire(flags: Flags, key: string, succeeded: bool, other: string)
    requires other != key
    ensures !Shown(Expire(AfterCopy(flags, key, succeeded), key), key)
    ensures Shown(Expire(AfterCopy(flags, key, succeeded), key), other) == Shown(flags, other)
  {
  }

  /** Two copies of the same key before either timer fires converge to the
      same state as one copy once both timers have fired. */
  lemma RepeatedCopyConverges(flags: Flags, key: string)
    ensures Expire(Expire(Acknowledge(Acknowledge(flags, key), key), key), key)
         == Expire(Acknowledge(flags, key), key)
  {
  }
}
