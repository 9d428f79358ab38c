/**
 * DrumGameObjectFactory: one lane per distinct drum note of the song. The
 * factory is built with the song's notes; the lane of a note is the position
 * of its first occurrence in that list, all lanes share the screen width
 * equally, and lane i is played with the i-th keyboard key.
 *
 * DrumGameObjectFactory.h is not part of this model: the instrument height
 * and hover percentage it defines are fields of the factory.
 */
module DrumFactories {
  import opened Basics
  import opened Events
  import opened Components
  import opened GameObjects

  /** MIDI channel 10 (9 counting from 0) is the General MIDI percussion channel. */
  const DRUM_CHANNEL: int := 9

  /**
   * The factory's configuration: the note speed and song notes it is built
   * with, and the values it reads from the configuration and its header.
   */
  datatype DrumGameObjectFactory = DrumGameObjectFactory(
    noteSpeed: real,
    songNotes: seq<int>,
    screenWidth: real,
    screenHeight: real,
    midiOutVelocity: int,
    qwertyKeys: seq<KeyCode>,
    instrumentHeight: real,
    hoverPercentage: real)
  {
    /** `note_width_`: the lanes share the screen width equally. */
    function NoteWidth(): (r: real)
      requires |songNotes| > 0
      ensures r * |songNotes| as real == screenWidth
    {
      screenWidth / |songNotes| as real
    }
  }

  // --------------------------------------------------------------- lanes

  /** `std::find`: the position of the first occurrence of `note` in `notes`. */
  function IndexOf(notes: seq<int>, note: int): (i: nat)
    requires note in notes
    ensures i < |notes| && notes[i] == note
    ensures forall j :: 0 <= j < i ==> notes[j] != note
  {
    if notes[0] == note then 0 else 1 + IndexOf(notes[1..], note)
  }

  /** GetNoteUniqueIndex: the lane of a note; the C++ asserts that the note is one of the song's. */
  function GetNoteUniqueIndex(f: DrumGameObjectFactory, note: int): (i: nat)
    requires note in f.songNotes
    ensures i < |f.songNotes| && f.songNotes[i] == note
    ensures forall j :: 0 <= j < i ==> f.songNotes[j] != note
  {
    IndexOf(f.songNotes, note)
  }

  /** In a list without repeats every entry is found at its own position. */
  lemma IndexOfEntry(notes: seq<int>, i: int)
    requires NoDuplicates(notes) && 0 <= i < |notes|
    ensures IndexOf(notes, notes[i]) == i
  {
  }

  /** Different notes of the song get different lanes, repeats or not. */
  lemma LanesDistinct(notes: seq<int>, n1: int, n2: int)
    requires n1 in notes && n2 in notes
    ensures IndexOf(notes, n1) == IndexOf(notes, n2) <==> n1 == n2
  {
  }

  /** GetXPosition: the left edge of a note's lane; every lane lies within the screen. */
  function GetXPosition(f: DrumGameObjectFactory, note: int): (r: real)
    requires note in f.songNotes
    ensures 0.0 <= f.screenWidth ==> 0.0 <= r && r + f.NoteWidth() <= f.screenWidth
  {
    var x := GetNoteUniqueIndex(f, note) as real * f.NoteWidth();
    if 0.0 <= f.screenWidth then LaneWithin(f.screenWidth, |f.songNotes|, GetNoteUniqueIndex(f, note)); x else x
  }

  /** Lane `i` of `n` lanes of a screen `w` wide lies within the screen. */
  lemma LaneWithin(w: real, n: nat, i: nat)
    requires 0.0 <= w && i < n
    ensures 0.0 <= i as real * (w / n as real)
    ensures i as real * (w / n as real) + w / n as real <= w
  {
    var lw := w / n as real;
    assert lw * n as real == w;
    assert 0.0 <= lw;
    assert (i + 1) as real <= n as real;
    assert (i + 1) as real * lw <= n as real * lw;
  }

  lemma LaneWithPositiveWidth(w: real, n: nat)
    requires 0.0 < w && 0 < n
    ensures 0.0 < w / n as real
  {
  }

  lemma ScaleInjective(i1: nat, i2: nat, w: real, x1: real, x2: real)
    requires 0.0 < w && x1 == i1 as real * w && x2 == i2 as real * w
    ensures x1 == x2 <==> i1 == i2
  {
    var a, b := i1 as real, i2 as real;
    if i1 < i2 {
      assert a * w < b * w;
    } else if i2 < i1 {
      assert b * w < a * w;
    }
  }

  /** Different notes of the song have lanes at different places, as long as the screen has a width. */
  lemma LanePositionsDistinct(f: DrumGameObjectFactory, n1: int, n2: int)
    requires n1 in f.songNotes && n2 in f.songNotes && 0.0 < f.screenWidth
    ensures GetXPosition(f, n1) == GetXPosition(f, n2) <==> n1 == n2
  {
    var i1, i2 := GetNoteUniqueIndex(f, n1), GetNoteUniqueIndex(f, n2);
    var w := f.NoteWidth();
    assert 0.0 < w by {
      LaneWithPositiveWidth(f.screenWidth, |f.songNotes|);
    }
    assert i1 == i2 <==> n1 == n2 by {
      LanesDistinct(f.songNotes, n1, n2);
    }
    ScaleInjective(i1, i2, w, GetXPosition(f, n1), GetXPosition(f, n2));
  }

  // --------------------------------------------------------- key binding

  /** Lane `i` is played with the i-th keyboard key, without modifiers. */
  function DrumBinding(f: DrumGameObjectFactory, note: int): (r: KeyBinding)
    requires note in f.songNotes && |f.qwertyKeys| >= |f.songNotes|
    ensures !r.ctrl && !r.shift
    ensures exists i :: 0 <= i < |f.songNotes| && f.songNotes[i] == note && r.key == f.qwertyKeys[i]
  {
    var i := GetNoteUniqueIndex(f, note);
    KeyBinding(f.qwertyKeys[i], false, false)
  }

  /** GetInstrumentKeyBinding; the C++ asserts there are at least as many keys as lanes. */
  method GetInstrumentKeyBinding(f: DrumGameObjectFactory, midiKey: int) returns (key: KeyCode, ctrl: bool, shift: bool)
    requires midiKey in f.songNotes && |f.qwertyKeys| >= |f.songNotes|
    ensures KeyBinding(key, ctrl, shift) == DrumBinding(f, midiKey)
  {
    var idx := GetNoteUniqueIndex(f, midiKey);
    key := f.qwertyKeys[idx];
    ctrl := false;
    shift := false;
  }

  /**
   * With distinct keyboard keys, different notes are bound to different
   * keys, and in a list without repeats the i-th note gets the i-th key.
   */
  lemma DrumBindingsDistinct(f: DrumGameObjectFactory, n1: int, n2: int)
    requires n1 in f.songNotes && n2 in f.songNotes && |f.qwertyKeys| >= |f.songNotes|
    requires forall i, j :: 0 <= i < j < |f.songNotes| ==> f.qwertyKeys[i] != f.qwertyKeys[j]
    ensures DrumBinding(f, n1) == DrumBinding(f, n2) <==> n1 == n2
    ensures !DrumBinding(f, n1).ctrl && !DrumBinding(f, n1).shift
  {
    var i1, i2 := GetNoteUniqueIndex(f, n1), GetNoteUniqueIndex(f, n2);
    LanesDistinct(f.songNotes, n1, n2);
    if i1 < i2 {
      assert f.qwertyKeys[i1] != f.qwertyKeys[i2];
    } else if i2 < i1 {
      assert f.qwertyKeys[i2] != f.qwertyKeys[i1];
    }
  }

  lemma DrumBindingOfEntry(f: DrumGameObjectFactory, i: int)
    requires NoDuplicates(f.songNotes) && 0 <= i < |f.songNotes| && |f.qwertyKeys| >= |f.songNotes|
    ensures DrumBinding(f, f.songNotes[i]) == KeyBinding(f.qwertyKeys[i], false, false)
  {
    IndexOfEntry(f.songNotes, i);
  }

  // ------------------------------------------------------------- objects

  /** CreateNotePlayEffect is not implemented for drums: it returns an empty object of size zero at the origin. */
  method CreateNotePlayEffect() returns (o: GameObject)
    ensures fresh(o) && fresh(o.components) && o.Valid()
    ensures o.x == 0.0 && o.y == 0.0 && o.originalWidth == 0.0 && o.originalHeight == 0.0
    ensures o.Contents() == map[]
    ensures o.toDelete == [] && o.Destroyed == [] && !o.requestDelete
  {
    o := NewGameObject(0.0, 0.0, 0.0, 0.0, []);
  }

  /** Every instrument note sits at the same height: its own height plus the hover gap above the bottom edge. */
  function InstrumentY(f: DrumGameObjectFactory): real {
    f.screenHeight - f.instrumentHeight - f.screenHeight * f.hoverPercentage
  }

  /** The components CreateInstrumentNote installs, in order, given the key binding. */
  function InstrumentNoteComponents(f: DrumGameObjectFactory, note: int, binding: KeyBinding)
    : seq<(ComponentType, Payload)>
  {
    [(INSTRUMENT, NoData),
     (NOTE_INFO, NoteData(-1, DRUM_CHANNEL, note, f.midiOutVelocity)),
     (INSTRUMENT_INPUT_HANDLER, InputData(binding)),
     (COLLISION_DETECTOR, DetectorData(true)),
     (COLLISION_HANDLER, HandlerData(false))]
  }

  /**
   * An instrument note is an input-driven instrument key on the drum
   * channel with the configured velocity and no track; it is drawn by its
   * own shape, so it has no graphics component, and it is not a song note.
   */
  lemma InstrumentNoteContents(f: DrumGameObjectFactory, note: int, binding: KeyBinding)
    ensures NewKinds(map[], InstrumentNoteComponents(f, note, binding))
    ensures Assemble(InstrumentNoteComponents(f, note, binding)).Keys
            == {INSTRUMENT, NOTE_INFO, INSTRUMENT_INPUT_HANDLER, COLLISION_DETECTOR, COLLISION_HANDLER}
    ensures Assemble(InstrumentNoteComponents(f, note, binding))[NOTE_INFO]
            == NoteData(-1, DRUM_CHANNEL, note, f.midiOutVelocity)
    ensures Assemble(InstrumentNoteComponents(f, note, binding))[INSTRUMENT_INPUT_HANDLER] == InputData(binding)
  {
    var items := InstrumentNoteComponents(f, note, binding);
    assert Assemble(items).Keys == {INSTRUMENT, NOTE_INFO, INSTRUMENT_INPUT_HANDLER, COLLISION_DETECTOR, COLLISION_HANDLER} by {
      OverlayKeys(map[], items);
      assert (set i | 0 <= i < |items| :: items[i].0)
          == {INSTRUMENT, NOTE_INFO, INSTRUMENT_INPUT_HANDLER, COLLISION_DETECTOR, COLLISION_HANDLER} by {
        assert items[0].0 == INSTRUMENT && items[1].0 == NOTE_INFO && items[2].0 == INSTRUMENT_INPUT_HANDLER;
        assert items[3].0 == COLLISION_DETECTOR && items[4].0 == COLLISION_HANDLER;
      }
    }
    OverlayLookup(map[], items, 1);
    OverlayLookup(map[], items, 2);
  }

  /** `o` is the instrument note CreateInstrumentNote makes for `note`. */
  ghost predicate IsLaneObject(f: DrumGameObjectFactory, o: GameObject, note: int)
    reads o, o.components
    requires |f.qwertyKeys| >= |f.songNotes|
  {
    && note in f.songNotes
    && o.Valid()
    && o.Contents() == Assemble(InstrumentNoteComponents(f, note, DrumBinding(f, note)))
    && o.x == GetXPosition(f, note) && o.y == InstrumentY(f)
    && o.originalWidth == f.NoteWidth() && o.originalHeight == f.instrumentHeight
  }

  method CreateInstrumentNote(f: DrumGameObjectFactory, note: int) returns (o: GameObject)
    requires note in f.songNotes && |f.qwertyKeys| >= |f.songNotes|
    ensures fresh(o) && fresh(o.components) && IsLaneObject(f, o, note)
    ensures o.toDelete == [] && o.Destroyed == [] && !o.requestDelete
  {
    var x := GetXPosition(f, note);
    var y := f.screenHeight - f.instrumentHeight - f.screenHeight * f.hoverPercentage;
    var key, ctrl, shift := GetInstrumentKeyBinding(f, note);
    var items := InstrumentNoteComponents(f, note, KeyBinding(key, ctrl, shift));
    InstrumentNoteContents(f, note, KeyBinding(key, ctrl, shift));
    o := NewGameObject(x, y, f.NoteWidth(), f.instrumentHeight, items);
  }

  /** `objects[i]` is the instrument note of `notes[i]`, and no object occurs twice. */
  ghost predicate LaneObjects(f: DrumGameObjectFactory, objects: seq<GameObject>, notes: seq<int>)
    reads set i | 0 <= i < |objects| :: objects[i]
    reads set i | 0 <= i < |objects| :: objects[i].components
    requires |f.qwertyKeys| >= |f.songNotes|
  {
    && |objects| == |notes|
    && (forall i :: 0 <= i < |objects| ==> IsLaneObject(f, objects[i], notes[i]))
    && (forall i, j :: 0 <= i < j < |objects| ==> objects[i] != objects[j])
  }

  /** A new instrument note added at the back keeps the correspondence. */
  lemma LaneObjectsAppend(f: DrumGameObjectFactory, objects: seq<GameObject>, notes: seq<int>, o: GameObject,
                          note: int, notes': seq<int>)
    requires |f.qwertyKeys| >= |f.songNotes|
    requires LaneObjects(f, objects, notes) && IsLaneObject(f, o, note)
    requires forall i :: 0 <= i < |objects| ==> objects[i] != o
    requires notes' == notes + [note]
    ensures LaneObjects(f, objects + [o], notes')
  {
    var objects' := objects + [o];
    forall i | 0 <= i < |objects'| ensures IsLaneObject(f, objects'[i], notes'[i]) {
      if i < |objects| {
        assert objects'[i] == objects[i] && notes'[i] == notes[i];
      }
    }
  }

  /** One turn of CreateInstrument's loop: the instrument note of the i-th song note is appended. */
  method PlaceLane(f: DrumGameObjectFactory, objects: seq<GameObject>, i: nat) returns (objects': seq<GameObject>)
    requires |f.qwertyKeys| >= |f.songNotes| && i < |f.songNotes|
    requires LaneObjects(f, objects, f.songNotes[..i])
    ensures LaneObjects(f, objects', f.songNotes[..i + 1])
    ensures forall j :: 0 <= j < |objects'| ==> objects'[j] in objects || fresh(objects'[j])
  {
    var note := CreateInstrumentNote(f, f.songNotes[i]);
    ghost var notes, notes' := f.songNotes[..i], f.songNotes[..i + 1];
    assert notes' == notes + [f.songNotes[i]];
    LaneObjectsAppend(f, objects, notes, note, f.songNotes[i], notes');
    objects' := objects + [note];
  }

  /** CreateInstrument: one instrument note per entry of the song's notes, in list order. */
  method CreateInstrument(f: DrumGameObjectFactory) returns (result: seq<GameObject>)
    requires |f.qwertyKeys| >= |f.songNotes|
    ensures LaneObjects(f, result, f.songNotes)
    ensures forall i :: 0 <= i < |result| ==> fresh(result[i])
  {
    result := [];
    var i := 0;
    while i < |f.songNotes|
      invariant 0 <= i <= |f.songNotes|
      invariant LaneObjects(f, result, f.songNotes[..i])
      invariant forall j :: 0 <= j < |result| ==> fresh(result[j])
    {
      result := PlaceLane(f, result, i);
      i := i + 1;
    }
    assert f.songNotes[..i] == f.songNotes;
  }

  /** A song note is as tall as the distance it falls during its duration (in seconds). */
  function SongNoteHeight(f: DrumGameObjectFactory, duration: real): real {
    duration * 1000.0 * f.noteSpeed
  }

  /** The components CreateSongNote installs, in order. */
  function SongNoteComponents(f: DrumGameObjectFactory, track: int, chan: int, note: int, vel: int)
    : seq<(ComponentType, Payload)>
  {
    [(SONG_NOTE, NoData),
     (COLLIDABLE, NoData),
     (NOTE_INFO, NoteData(track, chan, note, vel)),
     (PHYSICS, PhysicsData(0.0, f.noteSpeed)),
     (DELETE_OFFSCREEN, NoData),
     (COLLISION_DETECTOR, DetectorData(true)),
     (COLLISION_HANDLER, HandlerData(true))]
  }

  /**
   * A song note is a collidable falling note that carries its message's
   * note information and falls at the note speed; unlike an instrument
   * note it has no input handler.
   */
  lemma SongNoteContents(f: DrumGameObjectFactory, track: int, chan: int, note: int, vel: int)
    ensures NewKinds(map[], SongNoteComponents(f, track, chan, note, vel))
    ensures Assemble(SongNoteComponents(f, track, chan, note, vel)).Keys
            == {SONG_NOTE, COLLIDABLE, NOTE_INFO, PHYSICS, DELETE_OFFSCREEN, COLLISION_DETECTOR, COLLISION_HANDLER}
    ensures Assemble(SongNoteComponents(f, track, chan, note, vel))[NOTE_INFO] == NoteData(track, chan, note, vel)
    ensures Assemble(SongNoteComponents(f, track, chan, note, vel))[PHYSICS] == PhysicsData(0.0, f.noteSpeed)
  {
    var items := SongNoteComponents(f, track, chan, note, vel);
    assert Assemble(items).Keys == {SONG_NOTE, COLLIDABLE, NOTE_INFO, PHYSICS, DELETE_OFFSCREEN, COLLISION_DETECTOR, COLLISION_HANDLER} by {
      OverlayKeys(map[], items);
      assert (set i | 0 <= i < |items| :: items[i].0)
          == {SONG_NOTE, COLLIDABLE, NOTE_INFO, PHYSICS, DELETE_OFFSCREEN, COLLISION_DETECTOR, COLLISION_HANDLER} by {
        assert items[0].0 == SONG_NOTE && items[1].0 == COLLIDABLE && items[2].0 == NOTE_INFO && items[3].0 == PHYSICS;
        assert items[4].0 == DELETE_OFFSCREEN && items[5].0 == COLLISION_DETECTOR && items[6].0 == COLLISION_HANDLER;
      }
    }
    OverlayLookup(map[], items, 2);
    OverlayLookup(map[], items, 3);
  }

  /**
   * CreateSongNote: a note as wide as its lane, spawned in its lane just
   * above the top of the screen (its bottom edge at y = 0).
   */
  method CreateSongNote(f: DrumGameObjectFactory, track: int, chan: int, note: int, vel: int, duration: real)
    returns (o: GameObject)
    requires note in f.songNotes
    ensures fresh(o) && fresh(o.components) && o.Valid()
    ensures o.x == GetXPosition(f, note) && o.y == -SongNoteHeight(f, duration)
    ensures o.originalWidth == f.NoteWidth() && o.originalHeight == SongNoteHeight(f, duration)
    ensures o.Contents() == Assemble(SongNoteComponents(f, track, chan, note, vel))
    ensures o.toDelete == [] && o.Destroyed == [] && !o.requestDelete
  {
    var x := GetXPosition(f, note);
    var height := duration * 1000.0 * f.noteSpeed;
    SongNoteContents(f, track, chan, note, vel);
    o := NewGameObject(x, -height, f.NoteWidth(), height, SongNoteComponents(f, track, chan, note, vel));
  }
}
