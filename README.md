# midistar core, modelled in Dafny

midistar is a rhythm game. Notes of a MIDI file fall down the screen
towards an on-screen instrument, a piano keyboard or a row of drum lanes.
The player plays the instrument with the computer keyboard or a MIDI
device. This project models the core of the game and proves properties
of the model:

- **The entity/component store** (`GameObjects`, game_object.dfy). A
  `GameObject` has a fixed array of component slots, one per component
  kind.
  - Removing or replacing a component moves it to `toDelete`; the list is
    destroyed only at the end of `Update`.
  - An entity none of whose slots was full during `Update` requests its own
    deletion.
  - The class invariant rules out the lifetime hazard: a component is never
    destroyed while it is still installed. It also rules out destroying a
    component twice.
  - `Component::Update` is polymorphic and not shown. Here it is a
    `Behaviour`: given a kind and the entity's current contents (the
    payload of every installed component), it returns the operations that
    component performs on its entity.
- **Piano key geometry** (`PianoFactories`, piano_factory.dfy). It covers:
  - the two octave tables, black-key membership and white-key numbers;
  - the x position of each key, its keyboard binding and its track colours;
  - the layering order of `CreateInstrument`;
  - the key and song-note objects the factory builds.
- **Drum lane geometry** (`DrumFactories`, drum_factory.dfy). A note's lane
  is its first occurrence in the song's note list. Lanes share the screen
  width equally. Lane i is played with the i-th keyboard key.
- **The instrument input state machine** (`InstrumentInput`,
  input_handler.dfy). Keyboard events, then MIDI input messages, are folded
  into `key`/`keyDown`. The entity then shows whether the instrument is
  active.
- **The per-tick bookkeeping of the game loop** (`Games`, game.dfy). Each
  tick:
  - song notes are spawned from the MIDI file;
  - the MIDI input and window buffers are cleared and refilled;
  - a close request or Escape closes the window;
  - the MIDI clocks advance once a scene has been entered;
  - delete-requested entities are cleaned up;
  - the end-of-song test runs.

  `SetScene` and `CheckSongNotes` are modelled as well.

Shared types live in basics.dfy (duplicate-free sequences, substring search), events.dfy
(keyboard events and MIDI messages) and components.dfy (component kinds and
payloads).

Headers that are not part of this model supply several constants; the model
takes them as follows:

- **Piano:** the first piano key is MIDI note 21 (A0), there are 88 keys and
  52 white keys, and an octave has 12 notes and 7 white keys.
- **Component kinds:** a kind is its own slot index (16 kinds).
- **Key codes:** SFML numbering, Unknown = -1 and Escape = 36.
- **Sizes:** the black-key width multiplier, the key heights and the hover
  percentage are fields of the factory value.
- **External functions:** `Config::MidiNoteToKeyboardKey` is an
  uninterpreted function parameter, and `Utility::GetQwertyKeys` is a key
  sequence in the factory.

Where the documented behaviour and the code differ, the model follows the
code. GameObject.h:75-78 documents `DeleteComponent` as removing and
deleting the component. GameObject.cpp:30-36 only empties the slot and
appends the component to `to_delete_`; the delete happens at the end of the
next `Update` (GameObject.cpp:109-112).

A consequence of the code (GameObject.cpp:95-107) that no comment spells
out: an entity whose only component removes itself during `Update` is not
marked for deletion in that `Update`. The slot was full when the loop
visited it, so `has_component` is already true. The mark is set by the next
`Update`, which finds every slot empty. `GameObjects.SelfRemovalDefersDelete`
proves this.

## Model

| member | source | states |
|---|---|---|
| GameObjects.GameObject.constructor | include/midistar/GameObject.h:62-68 | a new entity has the given position and original size, no components, nothing pending and no delete request |
| GameObjects.GameObject.HasComponent | src/GameObject.cpp:67-69 | true exactly when slot t holds a component, which is then of kind t |
| GameObjects.GameObject.GetComponent | include/midistar/GameObject.h:93-100 | returns exactly the component stored for kind t, or null; a non-null result has kind t and is installed |
| GameObjects.GameObject.Contents | include/midistar/GameObject.h:189 | the entity holds at most one payload per kind, exactly for the full slots |
| GameObjects.GameObject.GetRequestDelete | src/GameObject.cpp:63-65 | returns the delete request flag |
| GameObjects.GameObject.SetRequestDelete | src/GameObject.cpp:80-82 | sets the flag to `del`; the contents and every slot are unchanged; reading it back gives `del` |
| GameObjects.GameObject.DeleteComponent | src/GameObject.cpp:30-36 | on an empty slot nothing changes; otherwise slot t is emptied, the old component is appended to `toDelete` without being destroyed, and no other slot changes; the contents lose kind t |
| GameObjects.GameObject.SetComponent | src/GameObject.cpp:71-74 | slot `c.kind` holds `c`, the old occupant (if any) is appended to `toDelete`, and no other slot changes; `c` must be neither installed nor retired |
| GameObjects.GameObject.AddComponent | include/midistar/GameObject.h:149-154 | installing a new component in the slot of its kind: the contents map that kind to the new payload and are otherwise unchanged |
| GameObjects.GameObject.AddAll | src/PianoGameObjectFactory.cpp:103-110 | successive SetComponent calls give the contents `Overlay(old, items)`; items of new, distinct kinds replace nothing |
| GameObjects.GameObject.Perform | src/GameObject.cpp:95-102 | one operation of a component's Update: an install maps its kind to the new payload, a remove drops its kind from the contents, a delete request sets the flag (`ApplyOp`); every component that leaves its slot is pending |
| GameObjects.GameObject.PerformAll | src/GameObject.cpp:95-102 | a component's operations, in order, change the contents and flag as `ApplyOps` says; the pending list only grows and tracks every component that left its slot |
| GameObjects.GameObject.UpdateSlot | src/GameObject.cpp:97-101 | a slot is updated exactly when it is full at the moment the loop reaches it; its component sees the contents of that moment, and the new contents and flag are what its operations make of them |
| GameObjects.GameObject.UpdateSlots | src/GameObject.cpp:96-102 | the slot loop matches the specification `VisitFrom`: same final contents, flag and visited kinds, and `has_component` is whether any slot was visited |
| GameObjects.GameObject.Update | src/GameObject.cpp:95-113 | the contents, flag and visited kinds are `UpdateSpec`; afterwards `toDelete` is empty, everything it held is destroyed, and every component that left its slot is destroyed; the object invariant `Valid` (slot t holds only kind t, nothing retired twice, nothing retired still installed) is kept, so no installed component is ever destroyed |
| GameObjects.GameObject.Flush | src/GameObject.cpp:109-112 | every pending component is destroyed, in order, the pending list is emptied, and the contents and flag are unchanged |
| GameObjects.GameObject.Destroy | src/GameObject.cpp:23-28 | the destructor destroys exactly the installed components, in slot order |
| GameObjects.NewGameObject | src/DrumGameObjectFactory.cpp:80-89 | a fresh valid entity at the given position and size holding exactly `Assemble(items)` |
| GameObjects.Occupants | src/GameObject.cpp:24-26 | lists only installed components, and every installed one |
| GameObjects.VisitOrder | src/GameObject.cpp:97-102 | the slot loop visits kinds in strictly increasing order, none below the starting slot |
| GameObjects.VisitOnlyFull | src/GameObject.cpp:97-102 | when no component installs anything, only slots full before the loop are visited |
| GameObjects.QuietVisit | src/GameObject.cpp:97-102 | when components do nothing, exactly the full slots are visited and the view is unchanged |
| GameObjects.SkipEmpty | src/GameObject.cpp:98 | empty slots are passed over without effect |
| GameObjects.UpdateRequestDelete | src/GameObject.cpp:104-107 | if no slot was visited, the delete request is set; Update itself never clears a set request |
| GameObjects.VisitKeepsRequest | src/GameObject.cpp:97-102 | when no component clears the request, a set request survives the loop |
| GameObjects.ApplyOpsKeepsRequest | src/GameObject.cpp:80-82 | a set request survives operations that do not clear it |
| GameObjects.ApplyOpsNoInstall | src/GameObject.cpp:30-36 | operations without an install never fill an empty slot |
| GameObjects.ApplyOpsKeepsKind | src/GameObject.cpp:95-102 | operations that neither install nor remove kind t leave t's slot, and its payload, as they were |
| GameObjects.VisitKeepsKind | src/GameObject.cpp:95-102 | when no component ever installs or removes kind t, the slot loop leaves t's slot and payload as they were |
| GameObjects.EmptyRequestsDelete | src/GameObject.cpp:104-107 | an entity with no components requests deletion and is otherwise unchanged |
| GameObjects.SelfRemovalDefersDelete | src/GameObject.cpp:96-107 | a sole component that removes itself leaves the entity empty and unmarked after that Update; the next Update marks it for deletion |
| GameObjects.TrackedTransitive | src/GameObject.cpp:34-35 | the "pending list grows and holds every component that left its slot" relation composes |
| GameObjects.OverlayKeys | include/midistar/GameObject.h:149-154 | after installing items, the kinds held are the old kinds plus the items' kinds |
| GameObjects.OverlayLookup | include/midistar/GameObject.h:149-154 | with distinct new kinds, each item's kind maps to that item's payload |
| GameObjects.NoDuplicatesInsert | src/GameObject.cpp:34 | appending a component not yet retired keeps the retired list free of repeats |
| PianoFactories.OctaveTables | src/PianoGameObjectFactory.cpp:47-53 | the two octave tables, entry by entry |
| PianoFactories.WhiteWidth | src/PianoGameObjectFactory.cpp:55-59 | the 52 white keys together span exactly the screen width |
| PianoFactories.BlackWidth | src/PianoGameObjectFactory.cpp:175 | a black key is narrower than a white key exactly when the width multiplier is below 1 |
| PianoFactories.IsBlackKey | src/PianoGameObjectFactory.cpp:158-169 | a key is black exactly when its position in its octave, counted from A, is A#, C#, D#, F# or G# |
| PianoFactories.GetWhiteKeyIndex | src/PianoGameObjectFactory.cpp:146-156 | the white-key number is never negative |
| PianoFactories.Octave | src/PianoGameObjectFactory.cpp:146-169 | both lookups depend only on the key's octave q and its position d = (key - 21) % 12: colour is `table[d]` and the white-key number is 7q + `table[d]` |
| PianoFactories.OctaveTablesAgree | src/PianoGameObjectFactory.cpp:47-53 | position d is black iff d > 0 and it shares its white number with d - 1; otherwise the number grows by one |
| PianoFactories.OctaveNoAdjacentBlack | src/PianoGameObjectFactory.cpp:47-49 | no two neighbouring octave positions are black, across the octave boundary too |
| PianoFactories.OctaveNext | src/PianoGameObjectFactory.cpp:146-169 | one key up is the next octave position, or position 0 of the next octave |
| PianoFactories.OctavePeriodic | src/PianoGameObjectFactory.cpp:146-169 | 12 keys up gives the same colour and a white-key number 7 higher |
| PianoFactories.WhiteIndexStep | src/PianoGameObjectFactory.cpp:146-156 | one key up, the white-key number stays the same for a black key and grows by 1 for a white key |
| PianoFactories.NoAdjacentBlackKeys | src/PianoGameObjectFactory.cpp:158-169 | two black keys are never adjacent, and the first key is white |
| PianoFactories.BlackKeySharesIndex | src/PianoGameObjectFactory.cpp:146-148 | a key is black iff it has the white-key number of the key just below it |
| PianoFactories.SkipBlackKey | src/PianoGameObjectFactory.cpp:146-169 | after a black key comes a white key with the next white number |
| PianoFactories.NextWhiteKey | src/PianoGameObjectFactory.cpp:149-153 | consecutive white keys have white numbers differing by exactly 1 |
| PianoFactories.WhiteIndexMonotone | src/PianoGameObjectFactory.cpp:146-156 | white-key numbers never decrease going up, and a white key's is above every lower key's |
| PianoFactories.SameColourDistinctIndex | src/PianoGameObjectFactory.cpp:146-169 | two different keys of one colour have different white-key numbers |
| PianoFactories.OnKeyboardRange | src/PianoGameObjectFactory.cpp:154 | the assertion `0 <= result < NUM_WHITE_KEYS` holds exactly for keys 21..109 |
| PianoFactories.WhiteKeysDownSpec | src/PianoGameObjectFactory.cpp:63-67 | the reference list names exactly the white keys below `hi`, in strictly decreasing order |
| PianoFactories.BlackKeysUpSpec | src/PianoGameObjectFactory.cpp:63-67 | the reference list names exactly the black keys below `hi`, in strictly increasing order |
| PianoFactories.WhiteIndexCountsWhiteKeys | src/PianoGameObjectFactory.cpp:146-156 | a key's white-key number is the count of white keys from A0 up to it, minus one |
| PianoFactories.KeyCounts | src/PianoGameObjectFactory.cpp:63-64 | the 88 keys are 52 white and 36 black |
| PianoFactories.ColoursPartition | src/PianoGameObjectFactory.cpp:158-169 | every key is in exactly one of the white and black lists |
| PianoFactories.SaneWidths | src/PianoGameObjectFactory.cpp:55-59 | with a positive screen width and a multiplier below 1, white keys have positive width and black keys are narrower |
| PianoFactories.CalculateXPosition | src/PianoGameObjectFactory.cpp:171-180 | a white key starts at the left edge of its white-key slot; a black key that is narrower than a white one starts in the right half of the slot of the white key below it, before that slot ends |
| PianoFactories.XPositionIncreasing | src/PianoGameObjectFactory.cpp:171-180 | keys are laid out strictly left to right in MIDI order |
| PianoFactories.WhiteKeysAdjoin | src/PianoGameObjectFactory.cpp:171-180 | each white key starts exactly where the previous white key ends |
| PianoFactories.KeyboardSpansScreen | src/PianoGameObjectFactory.cpp:55-59 | the first key starts at x = 0 and the last (white) key ends at the screen width |
| PianoFactories.TrackColours | src/PianoGameObjectFactory.cpp:121-123 | track colours repeat every 6 tracks and the first 6 differ |
| PianoFactories.GetTrackColour | src/PianoGameObjectFactory.cpp:121-123 | a track's colour is one of the six table colours; each of the first six tracks gets the table entry at its own index |
| PianoFactories.GetInstrumentKeyBinding | src/PianoGameObjectFactory.cpp:125-144 | key = `keys[whiteIndex]`, ctrl = false, shift = true for a black key; for a white key shift keeps its value on entry |
| PianoFactories.BlackKeyIsShiftedWhiteKey | src/PianoGameObjectFactory.cpp:133-142 | with shift starting false, a white key has its own key and no modifiers, and a black key has the binding of the white key below it plus shift |
| PianoFactories.PianoBindingsDistinct | src/PianoGameObjectFactory.cpp:125-144 | with distinct keyboard keys and shift starting false, different piano keys get different bindings |
| PianoFactories.UninitialisedShiftCollides | src/PianoGameObjectFactory.cpp:215-217 | as written, if the uninitialised `shift` holds true, A0 and A#0 get the same binding |
| PianoFactories.CreateInstrumentNoteAsWritten | src/PianoGameObjectFactory.cpp:182-229 | the key object as the code builds it: position, the six components in order, and the binding with whatever `shift` held |
| PianoFactories.CreateInstrumentNote | src/PianoGameObjectFactory.cpp:182-229 | the same object with `shift` initialised to false |
| PianoFactories.SongNoteFitsKey | src/PianoGameObjectFactory.cpp:80-97 | a song note has the width of the key it falls on, is darkened exactly when that key is drawn black, and tracks six apart give the same rectangle |
| PianoFactories.CreateSongNote | src/PianoGameObjectFactory.cpp:72-112 | spawned at (x(note), -duration*1000*speed), so that its bottom edge is at y = 0, with size zero and the eight song-note components in order |
| PianoFactories.InstrumentLayering | src/PianoGameObjectFactory.cpp:61-70 | the instrument holds each of the 88 keys exactly once; the 52 white keys come first, then the black keys |
| PianoFactories.PlaceKey | src/PianoGameObjectFactory.cpp:65-67 | one loop turn makes the key object of `key` and appends it if the key is black, inserts it at the front if white; the objects stay the key objects of the keys placed so far, `PlacedKeys` |
| PianoFactories.PlacedKeysSplit | src/PianoGameObjectFactory.cpp:61-70 | placing keys 21.. one by one (black at the back, white at the front) leaves the white keys highest first followed by the black keys lowest first |
| PianoFactories.CreateInstrument | src/PianoGameObjectFactory.cpp:61-70 | the corrected instrument (see Findings; `shift` starts false): result[i] is the key object of the i-th key of `InstrumentOrder()`, white keys highest first, then black keys lowest first |
| DrumFactories.IndexOf | src/DrumGameObjectFactory.cpp:137-139 | the position of the first occurrence of the note |
| DrumFactories.GetNoteUniqueIndex | src/DrumGameObjectFactory.cpp:136-140 | the first lane index holding the note (no earlier lane holds it), inside the list; the note must be present |
| DrumFactories.IndexOfEntry | src/DrumGameObjectFactory.cpp:136-140 | without repeats, the i-th note gets lane i |
| DrumFactories.LanesDistinct | src/DrumGameObjectFactory.cpp:136-140 | two notes share a lane iff they are equal |
| DrumFactories.NoteWidth | src/DrumGameObjectFactory.cpp:46-47 | the lanes together span exactly the screen width |
| DrumFactories.GetXPosition | src/DrumGameObjectFactory.cpp:142-144 | on a screen of non-negative width, every lane lies within the screen |
| DrumFactories.LanePositionsDistinct | src/DrumGameObjectFactory.cpp:46-47 | with a positive screen width, two notes have the same x position iff they are equal |
| DrumFactories.GetInstrumentKeyBinding | src/DrumGameObjectFactory.cpp:121-134 | key = `keys[index]`, no ctrl, no shift; needs at least as many keys as lanes |
| DrumFactories.DrumBinding | src/DrumGameObjectFactory.cpp:130-131 | a lane is played without modifiers, with the keyboard key at a position where its note occurs in the song's notes |
| DrumFactories.DrumBindingsDistinct | src/DrumGameObjectFactory.cpp:121-134 | with distinct keyboard keys, two notes share a binding iff they are equal; no modifiers |
| DrumFactories.DrumBindingOfEntry | src/DrumGameObjectFactory.cpp:130-131 | without repeats, the i-th note is played with the i-th key |
| DrumFactories.CreateNotePlayEffect | src/DrumGameObjectFactory.cpp:51-55 | an empty object of size zero at (0, 0) |
| DrumFactories.InstrumentNoteContents | src/DrumGameObjectFactory.cpp:110-117 | an instrument note holds exactly its five kinds, note info (track -1, channel 9, the configured velocity) and the binding |
| DrumFactories.CreateInstrumentNote | src/DrumGameObjectFactory.cpp:93-119 | the note's lane object: lane x position, hover height, lane width times instrument height, those contents |
| DrumFactories.PlaceLane | src/DrumGameObjectFactory.cpp:59-61 | one loop turn appends the instrument note of the next song note |
| DrumFactories.CreateInstrument | src/DrumGameObjectFactory.cpp:57-63 | exactly one instrument note per entry of the song's notes, in list order |
| DrumFactories.SongNoteContents | src/DrumGameObjectFactory.cpp:83-89 | a song note holds exactly its seven kinds, its message's note info, and falls at the note speed |
| DrumFactories.CreateSongNote | src/DrumGameObjectFactory.cpp:65-91 | spawned at (x(note), -height) with size (lane width, height), where height = duration*1000*speed |
| InstrumentInput.EventStep | src/InstrumentInputHandlerComponent.cpp:47-75 | one event: only a trigger press (the key `MidiNoteToKeyboardKey` gives for its modifiers) activates the handler and records its key; only a release of the held key deactivates it and clears the key; `key` is Unknown exactly when the handler is up, if it was so before |
| InstrumentInput.FoldEvents | src/InstrumentInputHandlerComponent.cpp:47-75 | folding the tick's events keeps `key` Unknown exactly when `keyDown` is false |
| InstrumentInput.OnlyTriggerActivates | src/InstrumentInputHandlerComponent.cpp:47-67 | an inactive handler stays inactive and unchanged through any events without a trigger press |
| InstrumentInput.HeldUntilReleased | src/InstrumentInputHandlerComponent.cpp:68-74 | an active handler stays active, with its key, through any events without a release of that key |
| InstrumentInput.PressThenRelease | src/InstrumentInputHandlerComponent.cpp:53-74 | pressing and releasing the trigger key ends inactive and up |
| InstrumentInput.FoldMidi | src/InstrumentInputHandlerComponent.cpp:80-84 | `keyDown` after the MIDI loop is its value on entry or the on/off of some message for the instrument's note; without such a message it is unchanged |
| InstrumentInput.FoldMidiLastMatch | src/InstrumentInputHandlerComponent.cpp:80-84 | `keyDown` is whether the last matching note message is a note-on |
| InstrumentInput.React | src/InstrumentInputHandlerComponent.cpp:86-108 | afterwards the entity is collidable exactly when the handler is active |
| InstrumentInput.ReactTracksActivity | src/InstrumentInputHandlerComponent.cpp:86-108 | afterwards the entity is collidable iff active; when that already held nothing changes, otherwise only Collidable, InvertColour(0xa0) and a MIDI note switching on/off change |
| InstrumentInput.ReactIdempotent | src/InstrumentInputHandlerComponent.cpp:86-108 | reacting twice to the same activity equals reacting once |
| InstrumentInput.InstrumentInputHandler.constructor | src/InstrumentInputHandlerComponent.cpp:30-35 | starts inactive: key Unknown, not down, not set active |
| InstrumentInput.InstrumentInputHandler.SetActive | src/InstrumentInputHandlerComponent.cpp:37-39 | sets `setActive` and nothing else |
| InstrumentInput.InstrumentInputHandler.ReadEvents | src/InstrumentInputHandlerComponent.cpp:47-75 | the event loop computes `FoldEvents` of the tick's events |
| InstrumentInput.InstrumentInputHandler.ReadMidi | src/InstrumentInputHandlerComponent.cpp:80-84 | the MIDI loop computes `FoldMidi` of the tick's messages |
| InstrumentInput.InstrumentInputHandler.Show | src/InstrumentInputHandlerComponent.cpp:86-108 | the entity's new contents are `React(old contents, active, ...)` |
| InstrumentInput.InstrumentInputHandler.Update | src/InstrumentInputHandlerComponent.cpp:41-109 | without NOTE_INFO nothing changes; otherwise the state is `AfterInput` of the tick's input and the entity reacts to `keyDown or setActive` |
| Events.NoteOnsExactly | src/Game.cpp:166-168 | the spawn list keeps exactly the note-on messages, never more than were drained |
| Basics.ContainsFrom | src/Game.cpp:237 | the left-to-right search from `from` finds `sub` iff it occurs at or after `from` |
| Basics.Contains | src/Game.cpp:237 | `find(sub) != npos` iff `sub` occurs in the string |
| Games.CanSpawn | src/PianoGameObjectFactory.cpp:146-156 | a message the piano factory can spawn has a key on the keyboard, so that the assertion in GetWhiteKeyIndex holds |
| Games.SpawnedIsSongNote | src/Game.cpp:169-175 | whichever the factory, what it spawns for a message has a SongNote component |
| Games.CreateSongNote | src/Game.cpp:169-175 | the factory's song note for the message, dispatched on the factory kind: its contents, and its position and size as that factory places it (piano: key x, bottom edge at y = 0; drum: lane x, lane width times note height) |
| Games.AnySongNote | src/Game.cpp:258-265 | true iff some entity of the list has a SongNote component |
| Games.Surviving | src/Game.cpp:267-269 | clean-up never lengthens the list of entities |
| Games.SurvivingExactly | src/Game.cpp:267-269 | clean-up keeps exactly the entities that did not request deletion |
| Games.SurvivingAppend | src/Game.cpp:267-269 | clean-up works entity by entity: cleaning a concatenation cleans each part |
| Games.SurvivingNone | src/Game.cpp:267-269 | a list with no delete requests is unchanged by clean-up |
| Games.CleanUpKeepsSpawned | src/Game.cpp:213-215 | the song notes spawned this tick all survive clean-up, after the old survivors |
| Games.SpawnedAreSongNotes | src/Game.cpp:166-177 | every spawned entity is a song note that has not requested deletion |
| Games.Scene.AddNewGameObject | src/Game.cpp:57-59 | the entity is appended to the scene |
| Games.Scene.CleanUpObjects | src/Game.cpp:267-269 | the scene becomes `Surviving` of its entities |
| Games.Game.constructor | src/Game.cpp:36-45 | starts with the window open, the scene not changed, empty buffers and untouched clocks |
| Games.Game.CheckSongNotes | src/Game.cpp:258-265 | true iff some entity of the current scene has a SongNote component |
| Games.Game.SetScene | src/Game.cpp:234-256 | a name containing "Exit" closes the window; the new scene starts with the instrument (taking `Scene::Init` to add nothing); `sceneChanged` is set and true returned iff Init succeeds |
| Games.Game.SpawnSongNotes | src/Game.cpp:164-177 | exactly one new song note per note-on message, in order, appended to the scene |
| Games.Game.SpawnStep | src/Game.cpp:167-176 | one drained message: a note-on appends its song note, anything else adds nothing |
| Games.Game.DrainInstrument | src/Game.cpp:179-190 | the MIDI input buffer is cleared, then holds exactly the tick's messages in order |
| Games.Game.PollEvents | src/Game.cpp:192-204 | the event buffer holds exactly the tick's events; the window closes iff one is Closed or an Escape press |
| Games.Game.TickClocks | src/Game.cpp:206-211 | the file clock advances by the delta and the input clock ticks iff the scene has changed |
| Games.Game.CleanUp | src/Game.cpp:213-215 | the scene keeps its survivors plus all song notes spawned this tick, so a tick that spawns leaves `CheckSongNotes` true |
| Games.Game.EndOfSong | src/Game.cpp:217-221 | the window closes iff the file is at its end and no song note is left |
| Games.Game.ReadTickInput | src/Game.cpp:179-211 | both buffers refilled, the close test, and the clocks, as above |
| Games.Game.Tick | src/Game.cpp:153-222 | one tick: the i-th new entity is the song note of the i-th note-on message of the file, the scene is its survivors plus those notes, buffers and clocks as below, and the window stays open iff it was, nothing asked to close, and not (file at end and no song note); a tick that spawns leaves a song note in the scene, so the end-of-song test cannot close the window |
| Games.Game.SpawnTickNotes | src/Game.cpp:164-177 | the song notes of the tick are appended to the scene and to the ghost log of spawned entities, one per note-on message |
| Games.Game.FinishTick | src/Game.cpp:179-222 | the input loops, clean-up and end-of-song test of a tick, as described for Tick; the spawned song notes are untouched |
| Games.Game.RunTick | src/Game.cpp:153-222 | a tick leaves the buffers holding its input and advances the clocks once iff a scene was entered; the window stays open only if it was open and no close request or Escape press arrived, closes only for one of those or the end of the file, and a tick that spawns a song note closes it only for a close request or an Escape press |
| Games.Deltas | src/Game.cpp:208-210 | one tick length per tick, in order |
| Games.Game.Run | src/Game.cpp:150-224 | ticks run while the window is open: the window was open after every tick but the last one run, and a run that stops early leaves it closed; after each tick run the window is open only if that tick brought no close request or Escape press, is closed only if it brought one or reached the end of the file, and is open if that tick spawned a song note without a close request or Escape press; the file clock records exactly the deltas of the ticks run and the input clock counts them, iff a scene was entered; the buffers hold the last tick's input |

## Left out

- Scene.cpp is not part of this model. A scene is its list of entities. `AddNewGameObject` appends an entity. `CleanUpObjects` drops the delete-requested entities, keeping the order. Entities that are cleaned up are not destroyed in the model.
- `Scene::Update` and `Scene::Draw`, and with them every component's own behaviour, are left out of `Games.Game.Tick`. `GameObjects.GameObject.Update` models one entity's update behind an abstract `Behaviour`.
- Rendering is left out because it is drawing, not logic. This covers `GameObject::Draw`, the shapes' outline thickness and colours, `DarkenColour`, `window_.clear`/`display` and the background colour.
- `GetSize`/`SetSize`/`GetPosition`/`SetPosition` are left out: they are float round trips through SFML transformables. The model keeps only the position and size an entity is created with.
- `GameObjects.GameObject.constructor` does not require a non-zero width and height, although GameObject.h:53-61 asks for it. The drum factory's `CreateNotePlayEffect` itself passes zero. The piano factory's two-argument `GameObject{x, y}` matches no declared constructor, and it is modelled with size zero.
- `Game::Init`, the window, `sf::Clock` and the MIDI file, input and output devices are I/O. Each tick's delta, drained messages, polled events and end-of-file flag are the fields of a `TickInput`. A scene's `Init` result is the `initSucceeds` parameter.
- `Games.Game.Run` runs over a finite sequence of ticks, where the C++ loop runs until the window closes.
- Games.Game.SetScene: Scene.cpp is not part of this model, so the model takes `Scene::Init` to leave the new scene holding exactly the instrument entities it was constructed with; entities that `Init` adds are not modelled.
- PianoFactories.CreateInstrument: builds its keys with `PianoFactories.CreateInstrumentNote`, the corrected key object whose `shift` starts false (see Findings). The code as written passes an uninitialised `shift` for every key; that is modelled key by key in `PianoFactories.CreateInstrumentNoteAsWritten`, not for the whole instrument.
- PianoFactories.CalculateXPosition: the comment at PianoGameObjectFactory.cpp:176 says a black key sits between two white keys. The code puts its left edge half a black width right of the middle of the white key below, which centres it on the boundary only for a multiplier of one half. The multiplier comes from a header that is not part of this model, so the contract states only where the black key starts.
- The game factory is piano or drum. `DefaultGameObjectFactory` is not part of this model.
- Game.cpp:115-116 passes a third argument (the maximum note duration) to the drum factory's two-argument constructor. The model's drum factory has no such field.
- `InstrumentInputHandlerComponent`'s constructor takes no arguments, while both factories pass `{key, ctrl, shift}`. The model records the binding in the handler component's payload. The handler itself starts inactive, as the shown constructor does.
- A key or mouse event is not the only kind of event that carries a key code. The C++ reads `e.key.code` of every event, whatever its kind; for other kinds that reads another member of a union. The model treats non-key events as carrying no key code, so they change nothing.
- DeleteComponent and RemoveComponent are the same operation: the input handler calls `RemoveComponent`, while GameObject.h declares `DeleteComponent`.
- `TurnMidiNoteOn`/`TurnMidiNoteOff`, `GetGameObjects`, `DeleteObject` and the other Game accessors are left out, because none of them holds logic.
- `PianoFactories.OctaveBlackKeys` and `PianoFactories.OctaveKeyToWhiteKey` are written as functions over the octave position. `PianoFactories.OctaveTables` proves they equal the source's literal tables.
- `PianoFactories.IsBlackKey` and `PianoFactories.GetWhiteKeyIndex` require a key at or above the first piano key: below it the C++ remainder is negative and indexes outside the table. `PianoFactories.OnKeyboard` admits key 109, one past the last key, because the assertion in GetWhiteKeyIndex admits it (C#8 shares C8's white number).
- `Games.Game.PollEvents`: `TickInput.events` stands for what the window delivers in a tick. SFML's `pollEvent` delivers nothing once `window_.close()` has run inside the loop (src/Game.cpp:196-203), but the model does not constrain the events that follow a close event; they are buffered like any other.
- `DrumFactories.CreateSongNote` requires the note to be one of the song's notes, as the assertion in GetNoteUniqueIndex does. This also rules out an empty list, where the C++ lane width would divide by zero.
- `Games.CanSpawn` is what the factories require of a drained file message: a non-negative track and a key in 21..109 for the piano, a song note for the drum. The model does not say what happens to other messages.
- `Games.Game.Valid` only records that every entity has its full table of slots. The per-entity invariant is kept by `GameObjects.GameObject` itself, and it is not restated for the whole scene.

## Findings

| source | as written | input that shows it | evidently intended | confidence | as-written member | corrected member |
|---|---|---|---|---|---|---|
| src/PianoGameObjectFactory.cpp:215-217 | `bool ctrl, shift;` is not initialised, and GetInstrumentKeyBinding (lines 140-142) writes `*shift` only for black keys | white key A0 (MIDI 21) when the uninitialised `shift` holds true: its binding is (keys[0], no ctrl, shift), the same as black key A#0 (MIDI 22) | white keys bound without shift, so that every piano key has its own binding | not executed; the read of an uninitialised bool is undefined behaviour | PianoFactories.UninitialisedShiftCollides | PianoFactories.PianoBindingsDistinct |
