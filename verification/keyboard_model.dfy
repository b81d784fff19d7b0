/** model/keyboard.go: the set of keys currently held down.  Go keeps a
    `map[int]bool` whose entries are only ever `true`; a set is the same thing. */
module KeyboardModel {
  import opened Events

  const KB_CTRL := 29
  const KB_SHIFT := 42
  const KB_ALT := 56
  const KB_TAB := 15
  const KB_ESC := 1
  const KB_SUPER := 125

  datatype Keyboard = Keyboard(state: set<int>)

  function NewKeyboardModel(): Keyboard { Keyboard({}) }

  /** `DownKeys`. */
  function DownKeys(k: Keyboard): set<int> { k.state }

  /** `DownKeys()[key]`: a missing map entry reads as false. */
  predicate IsDown(k: Keyboard, key: int) { key in k.state }

  /** `ProcessKeyboardEvent`: state 0 is a release and removes the key, any other state adds it. */
  function ProcessKeyboardEvent(k: Keyboard, ev: KeyboardEvent): (r: Keyboard)
    ensures ev.state == 0 ==> !IsDown(r, ev.key)
    ensures ev.state != 0 ==> IsDown(r, ev.key)
    ensures forall key :: key != ev.key ==> (IsDown(r, key) <==> IsDown(k, key))
  {
    if ev.state == 0 then Keyboard(k.state - {ev.key}) else Keyboard(k.state + {ev.key})
  }

  /** Pressing a key that is already down, or releasing one that is up, changes nothing. */
  lemma RepeatIsIdempotent(k: Keyboard, ev: KeyboardEvent)
    requires (ev.state != 0) == IsDown(k, ev.key)
    ensures ProcessKeyboardEvent(k, ev) == k
  {
    var r := ProcessKeyboardEvent(k, ev);
    assert r.state == k.state;
  }

  function ProcessAll(k: Keyboard, evs: seq<KeyboardEvent>): Keyboard
    decreases |evs|
  {
    if |evs| == 0 then k else ProcessAll(ProcessKeyboardEvent(k, evs[0]), evs[1..])
  }

  /** Reference meaning of "held": the last event for this key was a press, or
      there was none and it was held at the start. */
  predicate Held(start: set<int>, evs: seq<KeyboardEvent>, key: int)
  {
    if |evs| == 0 then key in start
    else if evs[|evs| - 1].key == key then evs[|evs| - 1].state != 0
    else Held(start, evs[..|evs| - 1], key)
  }

  lemma {:induction false} ProcessAllSnoc(k: Keyboard, evs: seq<KeyboardEvent>, e: KeyboardEvent)
    ensures ProcessAll(k, evs + [e]) == ProcessKeyboardEvent(ProcessAll(k, evs), e)
    decreases |evs|
  {
    if |evs| > 0 {
      assert (evs + [e])[1..] == evs[1..] + [e];
      ProcessAllSnoc(ProcessKeyboardEvent(k, evs[0]), evs[1..], e);
    }
  }

  /** After any event history, DownKeys is exactly the set of keys held. */
  lemma {:induction false} DownKeysAreHeld(k: Keyboard, evs: seq<KeyboardEvent>, key: int)
    ensures key in DownKeys(ProcessAll(k, evs)) <==> Held(k.state, evs, key)
  {
    if |evs| > 0 {
      var init := evs[..|evs| - 1];
      assert evs == init + [evs[|evs| - 1]];
      ProcessAllSnoc(k, init, evs[|evs| - 1]);
      DownKeysAreHeld(k, init, key);
    }
  }
}
