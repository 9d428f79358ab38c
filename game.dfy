/**
 * Game: the frame loop. Each tick the scene is updated and drawn, a song
 * note is spawned for every note-on message the MIDI file source delivers,
 * the tick's MIDI input messages and window events are buffered for the
 * components to read, a close request or Escape closes the window, the MIDI
 * clocks advance once a scene has been entered, delete-requested entities
 * are cleaned up, and the run ends once the file is over and no song note
 * is left.
 *
 * The window, the clock and the MIDI sources are not part of this model:
 * what they deliver in a tick is the input of that tick. Scene.cpp is not
 * part of this model either: a scene is its list of entities, adding an
 * entity appends it, and cleaning up drops the entities that requested
 * deletion.
 */
module Games {
  import opened Basics
  import opened Events
  import opened Components
  import opened GameObjects
  import PianoFactories
  import DrumFactories

  /** The factory the game was set up with. */
  datatype GameFactory =
    | Piano(piano: PianoFactories.PianoGameObjectFactory)
    | Drum(drum: DrumFactories.DrumGameObjectFactory)

  /** The factory can make a song note for `msg`: the C++ asserts and table bounds hold. */
  predicate CanSpawn(f: GameFactory, msg: MidiMessage)
    ensures CanSpawn(f, msg) && f.Piano? ==> PianoFactories.OnKeyboard(msg.key)
  {
    match f
    case Piano(p) =>
      PianoFactories.OnKeyboardRange(msg.key);
      && msg.track >= 0
      && PianoFactories.PIANO_FIRST_MIDI_KEY <= msg.key <= PianoFactories.PIANO_FIRST_MIDI_KEY + PianoFactories.NUM_PIANO_KEYS
    case Drum(d) => msg.key in d.songNotes
  }

  /** The contents of the song note the factory makes for `msg`. */
  function SongNoteContents(f: GameFactory, msg: MidiMessage): map<ComponentType, Payload>
    requires CanSpawn(f, msg)
  {
    match f
    case Piano(p) => Assemble(PianoFactories.SongNoteComponents(p, msg.track, msg.chan, msg.key, msg.vel, msg.duration))
    case Drum(d) => Assemble(DrumFactories.SongNoteComponents(d, msg.track, msg.chan, msg.key, msg.vel))
  }

  /** Whichever the factory, what it spawns for a message is a song note. */
  lemma SpawnedIsSongNote(f: GameFactory, msg: MidiMessage)
    requires CanSpawn(f, msg)
    ensures SONG_NOTE in SongNoteContents(f, msg)
  {
    match f
    case Piano(p) =>
      var items := PianoFactories.SongNoteComponents(p, msg.track, msg.chan, msg.key, msg.vel, msg.duration);
      PianoFactories.SongNoteKindsDistinct(p, msg.track, msg.chan, msg.key, msg.vel, msg.duration);
      OverlayLookup(map[], items, 0);
    case Drum(d) =>
      DrumFactories.SongNoteContents(d, msg.track, msg.chan, msg.key, msg.vel);
  }

  /** GameObjectFactory::CreateSongNote, dispatched on the factory. */
  method CreateSongNote(f: GameFactory, msg: MidiMessage) returns (o: GameObject)
    requires CanSpawn(f, msg)
    ensures fresh(o) && fresh(o.components) && o.Valid()
    ensures o.Contents() == SongNoteContents(f, msg) && !o.requestDelete
    ensures f.Piano? ==>
              && o.x == PianoFactories.CalculateXPosition(f.piano, msg.key)
              && o.y == -PianoFactories.SongNoteHeight(f.piano, msg.duration)
              && o.originalWidth == 0.0 && o.originalHeight == 0.0
    ensures f.Drum? ==>
              && o.x == DrumFactories.GetXPosition(f.drum, msg.key)
              && o.y == -DrumFactories.SongNoteHeight(f.drum, msg.duration)
              && o.originalWidth == f.drum.NoteWidth()
              && o.originalHeight == DrumFactories.SongNoteHeight(f.drum, msg.duration)
  {
    match f
    case Piano(p) =>
      PianoFactories.OnKeyboardRange(msg.key);
      o := PianoFactories.CreateSongNote(p, msg.track, msg.chan, msg.key, msg.vel, msg.duration);
    case Drum(d) =>
      o := DrumFactories.CreateSongNote(d, msg.track, msg.chan, msg.key, msg.vel, msg.duration);
  }

  // ---------------------------------------------------------------- scene

  /** Every entity of `objs` has its full table of component slots. */
  predicate AllSized(objs: seq<GameObject>) {
    forall i :: 0 <= i < |objs| ==> objs[i].components.Length == NUM_COMPONENTS
  }

  /** Some entity of `objs` has a SongNote component. */
  function AnySongNote(objs: seq<GameObject>): (r: bool)
    reads set i | 0 <= i < |objs| :: objs[i].components
    requires AllSized(objs)
    ensures r <==> exists i :: 0 <= i < |objs| && objs[i].HasComponent(SONG_NOTE)
  {
    if objs == [] then false
    else
      assert forall i :: 0 <= i < |objs| - 1 ==> objs[..|objs| - 1][i] == objs[i];
      AnySongNote(objs[..|objs| - 1]) || objs[|objs| - 1].HasComponent(SONG_NOTE)
  }

  /** The entities of `objs` that have not requested deletion, in order. */
  function Surviving(objs: seq<GameObject>): (r: seq<GameObject>)
    reads objs
    ensures |r| <= |objs|
  {
    if objs == [] then []
    else Surviving(objs[..|objs| - 1]) + (if objs[|objs| - 1].requestDelete then [] else [objs[|objs| - 1]])
  }

  /** Clean-up keeps exactly the entities that did not request deletion. */
  lemma {:induction false} SurvivingExactly(objs: seq<GameObject>)
    ensures forall o :: o in Surviving(objs) <==> o in objs && !o.requestDelete
    decreases |objs|
  {
    if objs != [] {
      var prefix := objs[..|objs| - 1];
      SurvivingExactly(prefix);
      assert objs == prefix + [objs[|objs| - 1]];
    }
  }

  /** Entities added after one that is cleaned up are not affected by it: clean-up works entity by entity. */
  lemma {:induction false} SurvivingAppend(a: seq<GameObject>, b: seq<GameObject>)
    ensures Surviving(a + b) == Surviving(a) + Surviving(b)
    decreases |b|
  {
    if b != [] {
      var b' := b[..|b| - 1];
      assert (a + b)[..|a + b| - 1] == a + b';
      SurvivingAppend(a, b');
    } else {
      assert a + b == a;
    }
  }

  /** Clean-up leaves a list none of whose entities requested deletion as it is. */
  lemma {:induction false} SurvivingNone(objs: seq<GameObject>)
    requires forall i :: 0 <= i < |objs| ==> !objs[i].requestDelete
    ensures Surviving(objs) == objs
    decreases |objs|
  {
    if objs != [] {
      var prefix := objs[..|objs| - 1];
      assert forall i :: 0 <= i < |prefix| ==> prefix[i] == objs[i];
      SurvivingNone(prefix);
    }
  }

  lemma SurvivingSized(objs: seq<GameObject>)
    requires AllSized(objs)
    ensures AllSized(Surviving(objs))
  {
    SurvivingExactly(objs);
    forall i | 0 <= i < |Surviving(objs)| ensures Surviving(objs)[i].components.Length == NUM_COMPONENTS {
      assert Surviving(objs)[i] in Surviving(objs);
    }
  }

  lemma AllSizedAppend(objs: seq<GameObject>, o: GameObject)
    requires AllSized(objs) && o.components.Length == NUM_COMPONENTS
    ensures AllSized(objs + [o])
  {
    assert forall i :: 0 <= i < |objs| ==> (objs + [o])[i] == objs[i];
  }

  /** Clean-up after spawning: the new song notes all stay, after the survivors of the old entities. */
  lemma CleanUpKeepsSpawned(before: seq<GameObject>, spawned: seq<GameObject>)
    requires AllSized(before) && AllSized(spawned)
    requires forall j :: 0 <= j < |spawned| ==> !spawned[j].requestDelete
    ensures Surviving(before + spawned) == Surviving(before) + spawned
    ensures AllSized(Surviving(before) + spawned)
  {
    SurvivingAppend(before, spawned);
    SurvivingNone(spawned);
    SurvivingSized(before);
    var r := Surviving(before) + spawned;
    forall i | 0 <= i < |r| ensures r[i].components.Length == NUM_COMPONENTS {
      if i >= |Surviving(before)| {
        assert r[i] == spawned[i - |Surviving(before)|];
      }
    }
  }

  /** `o` is the song note the factory makes for `msg`, not yet asked to be deleted. */
  ghost predicate IsSongNoteFor(f: GameFactory, o: GameObject, msg: MidiMessage)
    reads o, o.components
  {
    o.Valid() && !o.requestDelete && CanSpawn(f, msg) && o.Contents() == SongNoteContents(f, msg)
  }

  lemma AllSizedSplit(a: seq<GameObject>, b: seq<GameObject>)
    requires AllSized(a + b)
    ensures AllSized(a) && AllSized(b)
  {
    assert forall i :: 0 <= i < |a| ==> (a + b)[i] == a[i];
    assert forall i :: 0 <= i < |b| ==> (a + b)[|a| + i] == b[i];
  }

  /** `spawned[j]` is the song note made for `notes[j]`. */
  ghost predicate SpawnedFor(f: GameFactory, spawned: seq<GameObject>, notes: seq<MidiMessage>)
    reads spawned, set j | 0 <= j < |spawned| :: spawned[j].components
  {
    |spawned| == |notes| && forall j :: 0 <= j < |spawned| ==> IsSongNoteFor(f, spawned[j], notes[j])
  }

  lemma SpawnedForAppend(f: GameFactory, spawned: seq<GameObject>, notes: seq<MidiMessage>, o: GameObject,
                         msg: MidiMessage)
    requires SpawnedFor(f, spawned, notes) && IsSongNoteFor(f, o, msg)
    ensures SpawnedFor(f, spawned + [o], notes + [msg])
  {
    var s', n' := spawned + [o], notes + [msg];
    forall j | 0 <= j < |s'| ensures IsSongNoteFor(f, s'[j], n'[j]) {
      if j < |spawned| {
        assert s'[j] == spawned[j] && n'[j] == notes[j];
      }
    }
  }

  lemma SpawnedAreSongNotes(f: GameFactory, spawned: seq<GameObject>, notes: seq<MidiMessage>)
    requires SpawnedFor(f, spawned, notes)
    ensures AllSized(spawned)
    ensures forall j :: 0 <= j < |spawned| ==> !spawned[j].requestDelete && spawned[j].HasComponent(SONG_NOTE)
  {
    forall j | 0 <= j < |spawned| ensures spawned[j].Valid() && spawned[j].HasComponent(SONG_NOTE) {
      assert IsSongNoteFor(f, spawned[j], notes[j]);
      SpawnedIsSongNote(f, notes[j]);
    }
  }

  lemma NoteOnsStep(msgs: seq<MidiMessage>, i: nat)
    requires i < |msgs|
    ensures NoteOns(msgs[..i + 1]) == NoteOns(msgs[..i]) + (if msgs[i].IsNoteOn() then [msgs[i]] else [])
  {
    assert msgs[..i + 1][..i] == msgs[..i];
  }

  class Scene {
    var objects: seq<GameObject>

    constructor (objects: seq<GameObject>)
      ensures this.objects == objects
    {
      this.objects := objects;
    }

    method AddNewGameObject(o: GameObject)
      modifies this`objects
      ensures objects == old(objects) + [o]
    {
      objects := objects + [o];
    }

    /** Drops the entities that requested deletion. */
    method CleanUpObjects()
      modifies this`objects
      ensures objects == Surviving(old(objects))
    {
      var kept := [];
      for i := 0 to |objects|
        invariant kept == Surviving(objects[..i])
      {
        assert objects[..i + 1][..i] == objects[..i];
        if !objects[i].requestDelete {
          kept := kept + [objects[i]];
        }
      }
      assert objects[..|objects|] == objects;
      objects := kept;
    }
  }

  // ----------------------------------------------------------------- game

  /** Everything the outside world delivers during one tick. */
  datatype TickInput = TickInput(
    delta: int,                       // milliseconds since the previous tick
    fileMessages: seq<MidiMessage>,   // drained from the MIDI file source
    portMessages: seq<MidiMessage>,   // drained from the MIDI input port
    events: seq<Event>,               // polled from the window
    fileAtEnd: bool)                  // the MIDI file source is at its end

  /** The tick lengths of `inputs`, in order. */
  function Deltas(inputs: seq<TickInput>): (r: seq<int>)
    ensures |r| == |inputs| && forall k :: 0 <= k < |inputs| ==> r[k] == inputs[k].delta
  {
    if inputs == [] then [] else Deltas(inputs[..|inputs| - 1]) + [inputs[|inputs| - 1].delta]
  }

  lemma DeltasStep(inputs: seq<TickInput>, k: nat)
    requires k < |inputs|
    ensures Deltas(inputs[..k + 1]) == Deltas(inputs[..k]) + [inputs[k].delta]
  {
    assert inputs[..k + 1][..k] == inputs[..k];
  }

  /** A tick whose file messages the factory can all turn into song notes. */
  predicate Spawnable(f: GameFactory, input: TickInput) {
    forall i :: 0 <= i < |input.fileMessages| && input.fileMessages[i].IsNoteOn()
                ==> CanSpawn(f, input.fileMessages[i])
  }

  /** Some event of the tick asks to close the window. */
  predicate AsksToClose(events: seq<Event>) {
    exists i :: 0 <= i < |events| && IsCloseEvent(events[i])
  }

  class Game {
    const factory: GameFactory
    var currentScene: Scene
    /** `objects_`: the instrument, which every new scene starts with. */
    var instrument: seq<GameObject>
    var sceneChanged: bool
    var windowOpen: bool
    /** `midi_in_buf_` and `sf_events_`: what the components read during the next tick. */
    var midiInBuf: seq<MidiMessage>
    var sfEvents: seq<Event>
    /** The deltas the MIDI file clock has been advanced by, and how often the MIDI input clock was. */
    var fileClockTicks: seq<int>
    var instrumentClockTicks: nat
    /** The song notes spawned so far, in order. */
    ghost var Spawned: seq<GameObject>

    ghost predicate Valid()
      reads this`currentScene, this`instrument, currentScene
    {
      AllSized(currentScene.objects) && AllSized(instrument)
    }

    /** The state Init leaves: the scene it built, the instrument, an open window. */
    constructor (factory: GameFactory, scene: Scene, instrument: seq<GameObject>)
      requires AllSized(scene.objects) && AllSized(instrument)
      ensures Valid()
      ensures this.factory == factory && currentScene == scene && this.instrument == instrument
      ensures !sceneChanged && windowOpen
      ensures midiInBuf == [] && sfEvents == [] && fileClockTicks == [] && instrumentClockTicks == 0
    {
      this.factory := factory;
      currentScene, this.instrument := scene, instrument;
      sceneChanged, windowOpen := false, true;
      midiInBuf, sfEvents := [], [];
      fileClockTicks, instrumentClockTicks := [], 0;
      Spawned := [];
    }

    /** CheckSongNotes: some entity of the current scene is a song note. */
    function CheckSongNotes(): (r: bool)
      reads this`currentScene, currentScene
      reads set i | 0 <= i < |currentScene.objects| :: currentScene.objects[i].components
      requires AllSized(currentScene.objects)
      ensures r <==> exists i :: 0 <= i < |currentScene.objects| && currentScene.objects[i].HasComponent(SONG_NOTE)
    {
      AnySongNote(currentScene.objects)
    }

    /**
     * SetScene: a name containing "Exit" closes the window; the new scene
     * starts with the instrument, and only a scene whose Init succeeds
     * (`initSucceeds`) sets `sceneChanged`.
     */
    method SetScene(name: string, initSucceeds: bool) returns (ok: bool)
      requires Valid()
      modifies this`currentScene, this`windowOpen, this`sceneChanged
      ensures Valid()
      ensures windowOpen == (old(windowOpen) && !Contains(name, "Exit"))
      ensures fresh(currentScene) && currentScene.objects == instrument
      ensures ok == initSucceeds && sceneChanged == (old(sceneChanged) || initSucceeds)
    {
      if Contains(name, "Exit") {
        windowOpen := false;
      }
      currentScene := new Scene(instrument);
      if !initSucceeds {
        return false;
      }
      sceneChanged := true;
      return true;
    }

    /** The MIDI file loop of Run: one song note per note-on message, in order. */
    method SpawnSongNotes(msgs: seq<MidiMessage>) returns (ghost spawned: seq<GameObject>)
      requires Valid()
      requires forall i :: 0 <= i < |msgs| && msgs[i].IsNoteOn() ==> CanSpawn(factory, msgs[i])
      modifies currentScene`objects
      ensures Valid()
      ensures currentScene.objects == old(currentScene.objects) + spawned
      ensures SpawnedFor(factory, spawned, NoteOns(msgs))
      ensures forall j :: 0 <= j < |spawned| ==> fresh(spawned[j])
    {
      spawned := [];
      for i := 0 to |msgs|
        invariant Valid()
        invariant currentScene.objects == old(currentScene.objects) + spawned
        invariant SpawnedFor(factory, spawned, NoteOns(msgs[..i]))
        invariant forall j :: 0 <= j < |spawned| ==> fresh(spawned[j])
      {
        spawned := SpawnStep(msgs, i, old(currentScene.objects), spawned);
      }
      assert msgs[..|msgs|] == msgs;
    }

    /** One turn of the MIDI file loop. */
    method SpawnStep(msgs: seq<MidiMessage>, i: nat, ghost before: seq<GameObject>, ghost spawned: seq<GameObject>)
      returns (ghost spawned': seq<GameObject>)
      requires i < |msgs| && (msgs[i].IsNoteOn() ==> CanSpawn(factory, msgs[i]))
      requires Valid() && currentScene.objects == before + spawned
      requires SpawnedFor(factory, spawned, NoteOns(msgs[..i]))
      modifies currentScene`objects
      ensures Valid() && currentScene.objects == before + spawned'
      ensures SpawnedFor(factory, spawned', NoteOns(msgs[..i + 1]))
      ensures forall j :: 0 <= j < |spawned'| ==> spawned'[j] in spawned || fresh(spawned'[j])
    {
      NoteOnsStep(msgs, i);
      spawned' := spawned;
      if msgs[i].IsNoteOn() {
        var o := CreateSongNote(factory, msgs[i]);
        assert IsSongNoteFor(factory, o, msgs[i]);
        AllSizedAppend(currentScene.objects, o);
        SpawnedForAppend(factory, spawned, NoteOns(msgs[..i]), o, msgs[i]);
        currentScene.AddNewGameObject(o);
        spawned' := spawned + [o];
      }
    }

    /** The MIDI input loop of Run: the buffer is cleared and refilled with the tick's messages. */
    method DrainInstrument(msgs: seq<MidiMessage>)
      modifies this`midiInBuf
      ensures midiInBuf == msgs
    {
      midiInBuf := [];
      for i := 0 to |msgs|
        invariant midiInBuf == msgs[..i]
      {
        midiInBuf := midiInBuf + [msgs[i]];
      }
    }

    /** The window event loop of Run: the buffer is refilled, and a close request or Escape closes the window. */
    method PollEvents(events: seq<Event>)
      modifies this`sfEvents, this`windowOpen
      ensures sfEvents == events
      ensures windowOpen == (old(windowOpen) && !AsksToClose(events))
    {
      sfEvents := [];
      for i := 0 to |events|
        invariant sfEvents == events[..i]
        invariant windowOpen == (old(windowOpen) && !AsksToClose(events[..i]))
      {
        assert events[..i + 1][..i] == events[..i];
        sfEvents := sfEvents + [events[i]];
        if IsCloseEvent(events[i]) {
          windowOpen := false;
        }
      }
      assert events[..|events|] == events;
    }

    /** The MIDI clocks advance only once a scene has been entered. */
    method TickClocks(delta: int)
      modifies this`fileClockTicks, this`instrumentClockTicks
      ensures fileClockTicks == old(fileClockTicks) + (if sceneChanged then [delta] else [])
      ensures instrumentClockTicks == old(instrumentClockTicks) + (if sceneChanged then 1 else 0)
    {
      if sceneChanged {
        fileClockTicks := fileClockTicks + [delta];
        instrumentClockTicks := instrumentClockTicks + 1;
      }
    }

    /** The clean-up at the end of a tick: the song notes spawned in it all stay. */
    method CleanUp(ghost before: seq<GameObject>, ghost spawned: seq<GameObject>, ghost notes: seq<MidiMessage>)
      requires currentScene.objects == before + spawned
      requires AllSized(before) && AllSized(instrument) && SpawnedFor(factory, spawned, notes)
      modifies currentScene`objects
      ensures Valid()
      ensures currentScene.objects == Surviving(before) + spawned
      ensures SpawnedFor(factory, spawned, notes)
      ensures spawned != [] ==> CheckSongNotes()
    {
      SpawnedAreSongNotes(factory, spawned, notes);
      CleanUpKeepsSpawned(before, spawned);
      currentScene.CleanUpObjects();
      if spawned != [] {
        assert CheckSongNotes() by {
          assert currentScene.objects[|Surviving(before)|] == spawned[0];
        }
      }
    }

    /** The end-of-song test: once the file is over and no song note is left, the window closes. */
    method EndOfSong(fileAtEnd: bool)
      requires AllSized(currentScene.objects)
      modifies this`windowOpen
      ensures windowOpen == (old(windowOpen) && !(fileAtEnd && !CheckSongNotes()))
    {
      if fileAtEnd && !CheckSongNotes() {
        windowOpen := false;
      }
    }

    /** The input loops of a tick and the clocks. */
    method ReadTickInput(input: TickInput)
      modifies this`windowOpen, this`midiInBuf, this`sfEvents, this`fileClockTicks, this`instrumentClockTicks
      ensures midiInBuf == input.portMessages && sfEvents == input.events
      ensures windowOpen == (old(windowOpen) && !AsksToClose(input.events))
      ensures fileClockTicks == old(fileClockTicks) + (if sceneChanged then [input.delta] else [])
      ensures instrumentClockTicks == old(instrumentClockTicks) + (if sceneChanged then 1 else 0)
    {
      DrainInstrument(input.portMessages);
      PollEvents(input.events);
      TickClocks(input.delta);
    }

    /**
     * One turn of Run's loop, after the scene's update and draw. The song
     * notes spawned in the tick survive its clean-up, so a tick that spawns
     * one never ends the run.
     */
    method Tick(input: TickInput)
      requires Valid() && Spawnable(factory, input)
      modifies this`windowOpen, this`midiInBuf, this`sfEvents, this`fileClockTicks, this`instrumentClockTicks
      modifies this`Spawned, currentScene
      ensures Valid()
      ensures |Spawned| == |old(Spawned)| + |NoteOns(input.fileMessages)| && Spawned[..|old(Spawned)|] == old(Spawned)
      ensures currentScene.objects == Surviving(old(currentScene.objects)) + Spawned[|old(Spawned)|..]
      ensures SpawnedFor(factory, Spawned[|old(Spawned)|..], NoteOns(input.fileMessages))
      ensures midiInBuf == input.portMessages && sfEvents == input.events
      ensures fileClockTicks == old(fileClockTicks) + (if sceneChanged then [input.delta] else [])
      ensures instrumentClockTicks == old(instrumentClockTicks) + (if sceneChanged then 1 else 0)
      ensures windowOpen == (old(windowOpen) && !AsksToClose(input.events) && !(input.fileAtEnd && !CheckSongNotes()))
      ensures NoteOns(input.fileMessages) != [] ==> CheckSongNotes()
    {
      ghost var before := currentScene.objects;
      ghost var spawned := SpawnTickNotes(input.fileMessages);
      FinishTick(input, before, spawned);
      assert Spawned[|old(Spawned)|..] == spawned;
    }

    /** The rest of a tick after the MIDI file loop: the input loops, the clean-up and the end-of-song test. */
    method FinishTick(input: TickInput, ghost before: seq<GameObject>, ghost spawned: seq<GameObject>)
      requires currentScene.objects == before + spawned
      requires AllSized(before) && AllSized(instrument) && SpawnedFor(factory, spawned, NoteOns(input.fileMessages))
      modifies this`windowOpen, this`midiInBuf, this`sfEvents, this`fileClockTicks, this`instrumentClockTicks
      modifies currentScene`objects
      ensures Valid()
      ensures currentScene.objects == Surviving(before) + spawned
      ensures SpawnedFor(factory, spawned, NoteOns(input.fileMessages))
      ensures midiInBuf == input.portMessages && sfEvents == input.events
      ensures fileClockTicks == old(fileClockTicks) + (if sceneChanged then [input.delta] else [])
      ensures instrumentClockTicks == old(instrumentClockTicks) + (if sceneChanged then 1 else 0)
      ensures windowOpen == (old(windowOpen) && !AsksToClose(input.events) && !(input.fileAtEnd && !CheckSongNotes()))
      ensures NoteOns(input.fileMessages) != [] ==> CheckSongNotes()
    {
      ReadTickInput(input);
      CleanUp(before, spawned, NoteOns(input.fileMessages));
      EndOfSong(input.fileAtEnd);
    }

    /** The song notes of a tick, recorded in the ghost log of spawned entities. */
    method SpawnTickNotes(msgs: seq<MidiMessage>) returns (ghost spawned: seq<GameObject>)
      requires Valid()
      requires forall i :: 0 <= i < |msgs| && msgs[i].IsNoteOn() ==> CanSpawn(factory, msgs[i])
      modifies this`Spawned, currentScene`objects
      ensures AllSized(old(currentScene.objects)) && AllSized(instrument)
      ensures currentScene.objects == old(currentScene.objects) + spawned
      ensures Spawned == old(Spawned) + spawned
      ensures SpawnedFor(factory, spawned, NoteOns(msgs))
    {
      spawned := SpawnSongNotes(msgs);
      AllSizedSplit(old(currentScene.objects), spawned);
      Spawned := Spawned + spawned;
    }

    /**
     * Tick, seen from Run's loop: the buffers, the clocks, the object
     * invariant, and why the window closes: only a close request, an Escape
     * press or the end of the file closes it, and a tick that spawns a song
     * note closes it only on a close request or an Escape press.
     */
    method RunTick(input: TickInput)
      requires Valid() && Spawnable(factory, input)
      modifies this`windowOpen, this`midiInBuf, this`sfEvents, this`fileClockTicks, this`instrumentClockTicks
      modifies this`Spawned, currentScene
      ensures Valid()
      ensures midiInBuf == input.portMessages && sfEvents == input.events
      ensures fileClockTicks == old(fileClockTicks) + (if sceneChanged then [input.delta] else [])
      ensures instrumentClockTicks == old(instrumentClockTicks) + (if sceneChanged then 1 else 0)
      ensures windowOpen ==> old(windowOpen) && !AsksToClose(input.events)
      ensures old(windowOpen) && !windowOpen ==> AsksToClose(input.events) || input.fileAtEnd
      ensures old(windowOpen) && !AsksToClose(input.events) && NoteOns(input.fileMessages) != [] ==> windowOpen
    {
      Tick(input);
    }

    /**
     * Run over a finite stream of ticks: ticks run while the window is
     * open, and the run stops after the first tick that closes it.
     * `openAfter[k]` is whether the window is open after tick `k`: it
     * closes only for a close request, an Escape press or the end of the
     * file, and a tick that spawns a song note ends the run only on a close
     * request or an Escape press. Every
     * tick advances the MIDI file clock by its delta and the input clock
     * once, or none does, depending on whether a scene was entered before
     * the run.
     */
    method Run(inputs: seq<TickInput>) returns (ticks: nat, ghost openAfter: seq<bool>)
      requires Valid()
      requires forall k :: 0 <= k < |inputs| ==> Spawnable(factory, inputs[k])
      modifies this`windowOpen, this`midiInBuf, this`sfEvents, this`fileClockTicks, this`instrumentClockTicks
      modifies this`Spawned, currentScene
      ensures Valid()
      ensures ticks <= |inputs| && |openAfter| == ticks
      ensures 0 < ticks ==> old(windowOpen)
      ensures forall k :: 0 <= k < ticks - 1 ==> openAfter[k]
      ensures windowOpen == if ticks == 0 then old(windowOpen) else openAfter[ticks - 1]
      ensures ticks < |inputs| ==> !windowOpen
      ensures instrumentClockTicks == old(instrumentClockTicks) + (if sceneChanged then ticks else 0)
      ensures fileClockTicks == old(fileClockTicks) + (if sceneChanged then Deltas(inputs[..ticks]) else [])
      ensures 0 < ticks ==> midiInBuf == inputs[ticks - 1].portMessages && sfEvents == inputs[ticks - 1].events
      ensures forall k :: 0 <= k < ticks ==> (openAfter[k] ==> !AsksToClose(inputs[k].events))
      ensures forall k :: 0 <= k < ticks ==> (!openAfter[k] ==> AsksToClose(inputs[k].events) || inputs[k].fileAtEnd)
      ensures forall k :: 0 <= k < ticks ==>
                (!AsksToClose(inputs[k].events) && NoteOns(inputs[k].fileMessages) != [] ==> openAfter[k])
    {
      ticks := 0;
      openAfter := [];
      while windowOpen && ticks < |inputs|
        invariant Valid()
        invariant ticks <= |inputs| && |openAfter| == ticks
        invariant 0 < ticks ==> old(windowOpen)
        invariant forall k :: 0 <= k < ticks - 1 ==> openAfter[k]
        invariant windowOpen == if ticks == 0 then old(windowOpen) else openAfter[ticks - 1]
        invariant instrumentClockTicks == old(instrumentClockTicks) + (if sceneChanged then ticks else 0)
        invariant fileClockTicks == old(fileClockTicks) + (if sceneChanged then Deltas(inputs[..ticks]) else [])
        invariant 0 < ticks ==> midiInBuf == inputs[ticks - 1].portMessages && sfEvents == inputs[ticks - 1].events
        invariant forall k :: 0 <= k < ticks ==> (openAfter[k] ==> !AsksToClose(inputs[k].events))
        invariant forall k :: 0 <= k < ticks ==> (!openAfter[k] ==> AsksToClose(inputs[k].events) || inputs[k].fileAtEnd)
        invariant forall k :: 0 <= k < ticks ==>
                    (!AsksToClose(inputs[k].events) && NoteOns(inputs[k].fileMessages) != [] ==> openAfter[k])
        decreases |inputs| - ticks
      {
        DeltasStep(inputs, ticks);
        RunTick(inputs[ticks]);
        openAfter := openAfter + [windowOpen];
        ticks := ticks + 1;
      }
    }
  }
}
