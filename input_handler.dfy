/**
 * InstrumentInputHandlerComponent: decides each tick whether an instrument
 * key is being played. The keyboard events of the tick are folded into the
 * handler's `key` (the keyboard key holding the instrument down, or Unknown)
 * and `keyDown`; the MIDI input messages of the tick are then folded into
 * `keyDown`. Finally the handler shows the result on its entity: an
 * instrument key that becomes active gets a Collidable component (so that
 * song notes can hit it), an InvertColour and a note-on MidiNote; one that
 * becomes inactive loses the Collidable and gets an InvertColour and a
 * note-off MidiNote.
 *
 * Config::MidiNoteToKeyboardKey is not part of this model: it is the
 * parameter `toKey`, from a MIDI note and the control and shift flags of an
 * event to the keyboard key that plays the note.
 */
module InstrumentInput {
  import opened Basics
  import opened Events
  import opened Components
  import opened GameObjects

  type KeyMap = (int, bool, bool) -> KeyCode

  /** `static_cast<char>(0xa0)`, the amount InvertColourComponent is built with. */
  const INVERT_AMOUNT: bv8 := 0xa0

  /** The handler's keyboard state: the key holding it down (or Unknown) and whether it is down. */
  datatype InputState = InputState(key: KeyCode, keyDown: bool)

  /**
   * One keyboard event. Events that are not key events, and key events with
   * code Unknown, change nothing. Only a trigger press makes the handler
   * active, only a release of the held key makes it inactive, and `key` is
   * Unknown exactly when the handler is up, if it was so before.
   */
  function EventStep(s: InputState, e: Event, noteKey: int, toKey: KeyMap): (r: InputState)
    ensures InStep(s) ==> InStep(r)
    ensures !s.keyDown && r.keyDown ==> Triggers(e, noteKey, toKey) && r.key == e.code
    ensures s.keyDown && !r.keyDown ==> e.KeyReleased? && e.code == s.key && r.key == UNKNOWN_KEY
  {
    match e
    case KeyPressed(code, control, shift) =>
      if code == UNKNOWN_KEY then s
      else if s.key == UNKNOWN_KEY && toKey(noteKey, control, shift) == code then InputState(code, true)
      else s
    case KeyReleased(code, _, _) =>
      if code == UNKNOWN_KEY then s
      else if code == s.key then InputState(UNKNOWN_KEY, false)
      else s
    case _ => s
  }

  /** The events of a tick, folded in order; `key` stays Unknown exactly when the handler is up. */
  function FoldEvents(s: InputState, events: seq<Event>, noteKey: int, toKey: KeyMap): (r: InputState)
    ensures InStep(s) ==> InStep(r)
  {
    if events == [] then s
    else EventStep(FoldEvents(s, events[..|events| - 1], noteKey, toKey), events[|events| - 1], noteKey, toKey)
  }

  /** A MIDI note message for the instrument's own note. */
  predicate MatchesNote(msg: MidiMessage, noteKey: int) {
    msg.IsNote() && msg.key == noteKey
  }

  /**
   * The MIDI messages of a tick, folded in order into `keyDown`: the result
   * is the value on entry or what some message for the note says.
   */
  function FoldMidi(keyDown: bool, msgs: seq<MidiMessage>, noteKey: int): (r: bool)
    ensures r == keyDown || exists i :: 0 <= i < |msgs| && MatchesNote(msgs[i], noteKey) && msgs[i].IsNoteOn() == r
  {
    if msgs == [] then keyDown
    else
      var last := msgs[|msgs| - 1];
      assert forall i :: 0 <= i < |msgs| - 1 ==> msgs[..|msgs| - 1][i] == msgs[i];
      if MatchesNote(last, noteKey) then last.IsNoteOn() else FoldMidi(keyDown, msgs[..|msgs| - 1], noteKey)
  }

  /** The handler's state after both folds of one Update. */
  function AfterInput(s: InputState, events: seq<Event>, msgs: seq<MidiMessage>, noteKey: int, toKey: KeyMap)
    : InputState
  {
    var t := FoldEvents(s, events, noteKey, toKey);
    t.(keyDown := FoldMidi(t.keyDown, msgs, noteKey))
  }

  // ------------------------------------------------------ keyboard events

  /** A press of the keyboard key that plays the instrument's note, with the modifiers of the event. */
  predicate Triggers(e: Event, noteKey: int, toKey: KeyMap) {
    e.KeyPressed? && e.code != UNKNOWN_KEY && toKey(noteKey, e.control, e.shift) == e.code
  }

  /** An inactive handler stays inactive, and unchanged, through any events without a trigger press. */
  lemma {:induction false} OnlyTriggerActivates(s: InputState, events: seq<Event>, noteKey: int, toKey: KeyMap)
    requires InStep(s) && !s.keyDown
    requires forall i :: 0 <= i < |events| ==> !Triggers(events[i], noteKey, toKey)
    ensures FoldEvents(s, events, noteKey, toKey) == s
    decreases |events|
  {
    if events != [] {
      var prefix := events[..|events| - 1];
      assert forall i :: 0 <= i < |prefix| ==> prefix[i] == events[i];
      OnlyTriggerActivates(s, prefix, noteKey, toKey);
      assert !Triggers(events[|events| - 1], noteKey, toKey);
    }
  }

  /** A held handler stays held, by the same key, until that key is released: no other event changes it. */
  lemma {:induction false} HeldUntilReleased(s: InputState, events: seq<Event>, noteKey: int, toKey: KeyMap)
    requires s.keyDown && s.key != UNKNOWN_KEY
    requires forall i :: 0 <= i < |events| ==> !(events[i].KeyReleased? && events[i].code == s.key)
    ensures FoldEvents(s, events, noteKey, toKey) == s
    decreases |events|
  {
    if events != [] {
      var prefix := events[..|events| - 1];
      assert forall i :: 0 <= i < |prefix| ==> prefix[i] == events[i];
      HeldUntilReleased(s, prefix, noteKey, toKey);
      assert !(events[|events| - 1].KeyReleased? && events[|events| - 1].code == s.key);
    }
  }

  /** Pressing the trigger key and releasing it again leaves the handler inactive and up. */
  lemma PressThenRelease(s: InputState, code: KeyCode, c1: bool, s1: bool, c2: bool, s2: bool,
                         noteKey: int, toKey: KeyMap)
    requires code != UNKNOWN_KEY && s.key == UNKNOWN_KEY && toKey(noteKey, c1, s1) == code
    ensures FoldEvents(s, [KeyPressed(code, c1, s1)], noteKey, toKey) == InputState(code, true)
    ensures FoldEvents(s, [KeyPressed(code, c1, s1), KeyReleased(code, c2, s2)], noteKey, toKey)
            == InputState(UNKNOWN_KEY, false)
  {
    var events := [KeyPressed(code, c1, s1), KeyReleased(code, c2, s2)];
    assert events[..1] == [KeyPressed(code, c1, s1)];
    assert [KeyPressed(code, c1, s1)][..0] == [];
  }

  /** Keyboard events alone keep `key` and `keyDown` in step: the key is Unknown exactly when it is up. */
  ghost predicate InStep(s: InputState) {
    s.key == UNKNOWN_KEY <==> !s.keyDown
  }


  // -------------------------------------------------------- MIDI messages

  /** After the MIDI fold, `keyDown` is whether the last message for the instrument's note is a note-on. */
  lemma {:induction false} FoldMidiLastMatch(keyDown: bool, msgs: seq<MidiMessage>, noteKey: int, i: nat)
    requires i < |msgs| && MatchesNote(msgs[i], noteKey)
    requires forall j :: i < j < |msgs| ==> !MatchesNote(msgs[j], noteKey)
    ensures FoldMidi(keyDown, msgs, noteKey) == msgs[i].IsNoteOn()
    decreases |msgs|
  {
    if i < |msgs| - 1 {
      var prefix := msgs[..|msgs| - 1];
      assert prefix[i] == msgs[i];
      assert forall j :: i < j < |prefix| ==> prefix[j] == msgs[j];
      FoldMidiLastMatch(keyDown, prefix, noteKey, i);
    }
  }

  // ------------------------------------------------------------ reaction

  /**
   * What the handler does to its entity's contents, given whether it is
   * active and the instrument's note information.
   */
  function React(m: map<ComponentType, Payload>, active: bool, chan: int, noteKey: int, vel: int)
    : (r: map<ComponentType, Payload>)
    ensures COLLIDABLE in r <==> active
  {
    if active then
      if COLLIDABLE !in m then
        m[COLLIDABLE := NoData][INVERT_COLOUR := InvertData(INVERT_AMOUNT)]
         [MIDI_NOTE := MidiNoteData(true, chan, noteKey, vel)]
      else m
    else if COLLIDABLE in m then
      (m - {COLLIDABLE})[INVERT_COLOUR := InvertData(INVERT_AMOUNT)][MIDI_NOTE := MidiNoteData(false, chan, noteKey, vel)]
    else m
  }

  /**
   * After the reaction the entity is collidable exactly when the handler is
   * active. The entity changes only when that was not already so, and then
   * it gets a MIDI note that switches the note on or off to match, an
   * inverted colour, and nothing else changes.
   */
  lemma ReactTracksActivity(m: map<ComponentType, Payload>, active: bool, chan: int, noteKey: int, vel: int)
    ensures var r := React(m, active, chan, noteKey, vel);
      && (COLLIDABLE in r <==> active)
      && ((COLLIDABLE in m <==> active) ==> r == m)
      && (!(COLLIDABLE in m <==> active) ==>
            && r[MIDI_NOTE] == MidiNoteData(active, chan, noteKey, vel)
            && r[INVERT_COLOUR] == InvertData(INVERT_AMOUNT)
            && forall t :: t != COLLIDABLE && t != INVERT_COLOUR && t != MIDI_NOTE ==>
                 (t in r <==> t in m) && (t in m ==> r[t] == m[t]))
  {
  }

  /** Reacting twice to the same activity is the same as reacting once. */
  lemma ReactIdempotent(m: map<ComponentType, Payload>, active: bool, chan: int, noteKey: int, vel: int)
    ensures React(React(m, active, chan, noteKey, vel), active, chan, noteKey, vel) == React(m, active, chan, noteKey, vel)
  {
    ReactTracksActivity(m, active, chan, noteKey, vel);
    ReactTracksActivity(React(m, active, chan, noteKey, vel), active, chan, noteKey, vel);
  }

  // ------------------------------------------------------------- handler

  /** The note information the handler reads from its entity: a NOTE_INFO slot always holds note data. */
  ghost predicate NoteInfoTyped(o: GameObject)
    reads o, o.components
    requires o.Valid()
  {
    o.HasComponent(NOTE_INFO) ==> o.GetComponent(NOTE_INFO).payload.NoteData?
  }

  class InstrumentInputHandler {
    var key: KeyCode
    var keyDown: bool
    var setActive: bool

    function State(): InputState
      reads this
    {
      InputState(key, keyDown)
    }

    constructor ()
      ensures key == UNKNOWN_KEY && !keyDown && !setActive
      ensures InStep(State())
    {
      key, keyDown, setActive := UNKNOWN_KEY, false, false;
    }

    method SetActive(active: bool)
      modifies this`setActive
      ensures setActive == active
    {
      setActive := active;
    }

    /** The keyboard loop of Update. */
    method ReadEvents(events: seq<Event>, noteKey: int, toKey: KeyMap)
      modifies this`key, this`keyDown
      ensures State() == FoldEvents(old(State()), events, noteKey, toKey)
    {
      ghost var s0 := State();
      for i := 0 to |events|
        invariant State() == FoldEvents(s0, events[..i], noteKey, toKey)
      {
        assert events[..i + 1][..i] == events[..i];
        var e := events[i];
        // Only key events carry a key code.
        if !(e.KeyPressed? || e.KeyReleased?) || e.code == UNKNOWN_KEY {
          continue;
        }
        if e.KeyPressed? && key == UNKNOWN_KEY {
          var needed := toKey(noteKey, e.control, e.shift);
          if needed == e.code {
            key := e.code;
            keyDown := true;
          }
        } else if e.KeyReleased? && e.code == key {
          key := UNKNOWN_KEY;
          keyDown := false;
        }
      }
      assert events[..|events|] == events;
    }

    /** The MIDI loop of Update. */
    method ReadMidi(msgs: seq<MidiMessage>, noteKey: int)
      modifies this`keyDown
      ensures keyDown == FoldMidi(old(keyDown), msgs, noteKey)
    {
      ghost var d0 := keyDown;
      for i := 0 to |msgs|
        invariant keyDown == FoldMidi(d0, msgs[..i], noteKey)
      {
        assert msgs[..i + 1][..i] == msgs[..i];
        var msg := msgs[i];
        if msg.IsNote() && msg.key == noteKey {
          keyDown := msg.IsNoteOn();
        }
      }
      assert msgs[..|msgs|] == msgs;
    }

    /** The last part of Update: the entity shows whether the instrument is active. */
    static method Show(o: GameObject, active: bool, chan: int, noteKey: int, vel: int)
      requires o.Valid()
      modifies o`toDelete, o.components
      ensures o.Valid()
      ensures o.Contents() == React(old(o.Contents()), active, chan, noteKey, vel)
      ensures |old(o.toDelete)| <= |o.toDelete| && o.toDelete[..|old(o.toDelete)|] == old(o.toDelete)
    {
      ghost var d0 := o.toDelete;
      if active {
        if !o.HasComponent(COLLIDABLE) {
          var _ := o.AddComponent(COLLIDABLE, NoData);
          var _ := o.AddComponent(INVERT_COLOUR, InvertData(INVERT_AMOUNT));
          var _ := o.AddComponent(MIDI_NOTE, MidiNoteData(true, chan, noteKey, vel));
        }
      } else if o.HasComponent(COLLIDABLE) {
        o.DeleteComponent(COLLIDABLE);
        var _ := o.AddComponent(INVERT_COLOUR, InvertData(INVERT_AMOUNT));
        var _ := o.AddComponent(MIDI_NOTE, MidiNoteData(false, chan, noteKey, vel));
      }
      assert o.toDelete[..|d0|] == d0;
    }

    /**
     * Update: without note information on the entity nothing happens.
     * Otherwise the handler folds the tick's input into its state and the
     * entity reacts to the result (or to `setActive`).
     */
    method Update(events: seq<Event>, msgs: seq<MidiMessage>, o: GameObject, toKey: KeyMap)
      requires o.Valid() && NoteInfoTyped(o)
      modifies this`key, this`keyDown, o`toDelete, o.components
      ensures o.Valid()
      ensures !old(o.HasComponent(NOTE_INFO)) ==>
                State() == old(State()) && o.components[..] == old(o.components[..]) && o.toDelete == old(o.toDelete)
      ensures old(o.HasComponent(NOTE_INFO)) ==>
                var note := old(o.Contents())[NOTE_INFO];
                && State() == AfterInput(old(State()), events, msgs, note.key, toKey)
                && o.Contents() == React(old(o.Contents()), keyDown || setActive, note.chan, note.key, note.vel)
      ensures |old(o.toDelete)| <= |o.toDelete| && o.toDelete[..|old(o.toDelete)|] == old(o.toDelete)
    {
      var noteInfo := o.GetComponent(NOTE_INFO);
      if noteInfo == null {
        return;
      }
      var note := noteInfo.payload;
      ReadEvents(events, note.key, toKey);
      ReadMidi(msgs, note.key);
      Show(o, keyDown || setActive, note.chan, note.key, note.vel);
    }
  }
}
