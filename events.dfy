/**
 * The input the core consumes from its external collaborators: keyboard
 * events from the window and MIDI messages from the MIDI file and the MIDI
 * input port. Key codes follow SFML's sf::Keyboard::Key numbering.
 */
module Events {

  type KeyCode = int

  /** sf::Keyboard::Key::Unknown, used by the input handler as "not active". */
  const UNKNOWN_KEY: KeyCode := -1
  /** sf::Keyboard::Escape. */
  const ESCAPE_KEY: KeyCode := 36

  /** A physical key plus the modifier flags that must accompany it. */
  datatype KeyBinding = KeyBinding(key: KeyCode, ctrl: bool, shift: bool)

  /** The sf::Event kinds the core distinguishes; every other kind is `OtherEvent`. */
  datatype Event =
    | KeyPressed(code: KeyCode, control: bool, shift: bool)
    | KeyReleased(code: KeyCode, control: bool, shift: bool)
    | Closed
    | OtherEvent

  /** A window close request or an Escape key press ends the run. */
  predicate IsCloseEvent(e: Event) {
    e.Closed? || (e.KeyPressed? && e.code == ESCAPE_KEY)
  }

  datatype MidiStatus = NoteOn | NoteOff | OtherStatus

  /** A MIDI message as the file source and the input port deliver it. */
  datatype MidiMessage = MidiMessage(
    status: MidiStatus,
    track: int,
    chan: int,
    key: int,
    vel: int,
    duration: real)
  {
    predicate IsNote() { status == NoteOn || status == NoteOff }
    predicate IsNoteOn() { status == NoteOn }
  }

  /** The note-on messages of `msgs`, in order. */
  function NoteOns(msgs: seq<MidiMessage>): seq<MidiMessage> {
    if msgs == [] then []
    else NoteOns(msgs[..|msgs| - 1])
         + (if msgs[|msgs| - 1].IsNoteOn() then [msgs[|msgs| - 1]] else [])
  }

  /** NoteOns keeps exactly the note-on messages and drops the rest. */
  lemma {:induction false} NoteOnsExactly(msgs: seq<MidiMessage>)
    ensures |NoteOns(msgs)| <= |msgs|
    ensures forall m :: m in NoteOns(msgs) <==> m in msgs && m.IsNoteOn()
    decreases |msgs|
  {
    if msgs != [] {
      var prefix := msgs[..|msgs| - 1];
      NoteOnsExactly(prefix);
      assert msgs == prefix + [msgs[|msgs| - 1]];
    }
  }
}
