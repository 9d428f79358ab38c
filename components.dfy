/**
 * Component kinds and components. A GameObject owns at most one component of
 * each kind, stored in the slot whose index is the kind. The C++ enumeration
 * lives in Component.h, which is not part of this model: the kinds below are
 * the ones the modelled files name, in an order chosen here.
 */
module Components {
  import opened Events

  const NUM_COMPONENTS: int := 16

  /** Like the C++ enumeration, a kind is its own slot index. */
  type ComponentType = t: int | 0 <= t < NUM_COMPONENTS

  const SONG_NOTE: ComponentType := 0
  const COLLIDABLE: ComponentType := 1
  const NOTE_INFO: ComponentType := 2
  const GRAPHICS: ComponentType := 3
  const PHYSICS: ComponentType := 4
  const DELETE_OFFSCREEN: ComponentType := 5
  const COLLISION_DETECTOR: ComponentType := 6
  const COLLISION_HANDLER: ComponentType := 7
  const INSTRUMENT: ComponentType := 8
  const INSTRUMENT_INPUT_HANDLER: ComponentType := 9
  const INVERT_COLOUR: ComponentType := 10
  const MIDI_NOTE: ComponentType := 11
  const RESIZE: ComponentType := 12
  const MENU: ComponentType := 13
  const MENU_INPUT_HANDLER: ComponentType := 14
  const MENU_ITEM: ComponentType := 15

  /** The six colours of PianoGameObjectFactory::MIDI_TRACK_COLOURS, in table order. */
  datatype TrackColour = Red | Green | Blue | Yellow | Magenta | Cyan

  /** Fill colours used by the factories; `Darkened` is DarkenColour applied to a track colour. */
  datatype Colour = Track(c: TrackColour) | Darkened(c: TrackColour) | WhiteFill | BlackFill | RedFill

  /** The sf::RectangleShape a GraphicsComponent draws. */
  datatype Rect = Rect(width: real, height: real, fill: Colour)

  /**
   * The data a component is constructed with. Behaviour that is not modelled
   * (drawing, physics, collisions, menus) carries no data.
   */
  datatype Payload =
    | NoData
    | NoteData(track: int, chan: int, key: int, vel: int)
    | MidiNoteData(on: bool, chan: int, key: int, vel: int)
    | PhysicsData(vx: real, vy: real)
    | InvertData(amount: bv8)
    | GraphicsData(rect: Rect)
    | InputData(binding: KeyBinding)
    | DetectorData(vertical: bool)     // CollisionDetector or VerticalCollisionDetector
    | HandlerData(songNote: bool)      // SongNote- or InstrumentCollisionHandler

  /** A heap-allocated component; its kind never changes after construction. */
  class Component {
    const kind: ComponentType
    const payload: Payload

    constructor (kind: ComponentType, payload: Payload)
      ensures this.kind == kind && this.payload == payload
    {
      this.kind := kind;
      this.payload := payload;
    }
  }
}
