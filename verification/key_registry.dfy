/** `KeyRegistry`: the set of keys currently held down, driven by the
    window's key events. Keys are GLFW key codes, opaque here. */
module KeyRegistry {
  import opened Common

  /** A GLFW key. */
  datatype Key = Key(code: int)

  /** A GLFW key action. */
  datatype Action = Press | Release | Repeat

  /** A GLFW window event: a key event with its scancode and modifier bits,
      or any other event, which the registry ignores. */
  datatype WindowEvent =
    | KeyEvent(key: Key, scancode: int, action: Action, mods: nat)
    | OtherEvent(kind: nat)

  datatype Registry = Registry(activeKeys: set<Key>)

  /** `new`: no key is held. */
  function New(): (r: Registry)
    ensures forall k :: k !in r.activeKeys
  {
    Registry({})
  }

  /** `event`: a press adds the key (a second press of a held key changes
      nothing), a release removes it (releasing a key not held changes
      nothing), and repeats and other events change nothing. */
  function Event(reg: Registry, e: WindowEvent): (r: Registry)
    ensures e.KeyEvent? && e.action == Press ==> r.activeKeys == reg.activeKeys + {e.key}
    ensures e.KeyEvent? && e.action == Release ==> r.activeKeys == reg.activeKeys - {e.key}
    ensures e.OtherEvent? || e.action == Repeat ==> r == reg
  {
    match e
    case KeyEvent(k, _, Press, _) =>
      if k in reg.activeKeys then reg else Registry(reg.activeKeys + {k})
    case KeyEvent(k, _, Release, _) =>
      if k in reg.activeKeys then Registry(reg.activeKeys - {k}) else reg
    case _ => reg
  }

  /** Only the key and the action of an event matter: scancode and modifiers
      are ignored, and every event is idempotent. */
  lemma EventIgnoresScancodeAndMods(reg: Registry, k: Key, a: Action, s1: int, s2: int, m1: nat, m2: nat)
    ensures Event(reg, KeyEvent(k, s1, a, m1)) == Event(reg, KeyEvent(k, s2, a, m2))
    ensures Event(Event(reg, KeyEvent(k, s1, a, m1)), KeyEvent(k, s1, a, m1)) == Event(reg, KeyEvent(k, s1, a, m1))
  {
  }

  /** The registry after handling `events` in order. */
  function Events(reg: Registry, events: seq<WindowEvent>): Registry
  {
    if events == [] then reg else Event(Events(reg, events[..|events| - 1]), events[|events| - 1])
  }

  /** The last press or release of `k` among `events`, if any. */
  function LastToggle(events: seq<WindowEvent>, k: Key): (r: Option<Action>)
    ensures r.Some? ==> r.value != Repeat
  {
    if events == [] then None
    else
      var e := events[|events| - 1];
      if e.KeyEvent? && e.key == k && e.action != Repeat then Some(e.action)
      else LastToggle(events[..|events| - 1], k)
  }

  /** After any sequence of events a key is held exactly when its last press
      or release was a press, or, with neither among the events, when it was
      held before. */
  lemma {:induction false} HeldIffLastPressed(reg: Registry, events: seq<WindowEvent>, k: Key)
    ensures k in Events(reg, events).activeKeys <==>
              LastToggle(events, k) == Some(Press) || (LastToggle(events, k) == None && k in reg.activeKeys)
  {
    if events != [] {
      HeldIffLastPressed(reg, events[..|events| - 1], k);
    }
  }

  /** From a fresh registry, held keys are exactly the keys last pressed. */
  lemma {:induction false} FreshHeldIffLastPressed(events: seq<WindowEvent>, k: Key)
    ensures k in Events(New(), events).activeKeys <==> LastToggle(events, k) == Some(Press)
  {
    HeldIffLastPressed(New(), events, k);
  }

  /** `for_pressed_keys`: the keys `f` is called with, in call order: every
      held key exactly once, in the set's own order. */
  method ForPressedKeys(reg: Registry) returns (calls: seq<Key>)
    ensures Distinct(calls)
    ensures forall k :: k in calls <==> k in reg.activeKeys
    ensures |calls| == |reg.activeKeys|
  {
    calls := Enumerate(reg.activeKeys);
  }
}
