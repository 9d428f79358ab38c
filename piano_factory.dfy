/**
 * PianoGameObjectFactory: the 88-key piano. Keys are numbered by MIDI note;
 * the first piano key is an A, so within an octave (counted from A) the
 * pattern of black keys is A A# B C C# D D# E F F# G G#. White keys are
 * numbered 0, 1, ... from the left, and a black key shares the number of the
 * white key just below it.
 *
 * PianoGameObjectFactory.h is not part of this model. Its constants are taken
 * as: the first key is MIDI note 21 (A0), 88 keys, 12 notes and 7 white keys
 * per octave, 52 white keys. Sizes that header defines (black-key width
 * multiplier, key heights, hover percentage) are fields of the factory.
 */
module PianoFactories {
  import opened Basics
  import opened Events
  import opened Components
  import opened GameObjects

  const PIANO_FIRST_MIDI_KEY: int := 21
  const NUM_PIANO_KEYS: int := 88
  const NOTES_PER_OCTAVE: int := 12
  const WHITE_KEYS_PER_OCTAVE: int := 7
  const NUM_WHITE_KEYS: int := 52
  const NUM_TRACK_COLOURS: int := 6

  const MIDI_TRACK_COLOURS: seq<TrackColour> := [Red, Green, Blue, Yellow, Magenta, Cyan]
  /**
   * Which of the 12 notes of an octave, counted from A, are black: A#, C#,
   * D#, F# and G#. OctaveTables shows this is the source's table.
   */
  function OctaveBlackKeys(): seq<bool> {
    seq(NOTES_PER_OCTAVE, (d: int) => d == 1 || d == 4 || d == 6 || d == 9 || d == 11)
  }
  /**
   * The white-key number, within its octave, of each of the 12 notes: A and
   * A# share 0, B is 1, C and C# share 2, and so on up to G and G# at 6.
   * OctaveTables shows this is the source's table.
   */
  function OctaveKeyToWhiteKey(): seq<int> {
    seq(NOTES_PER_OCTAVE, (d: int) => if d < 3 then d / 2 else if d < 8 then (d + 1) / 2 else (d + 2) / 2)
  }

  /** The two octave tables, element by element. */
  lemma OctaveTables()
    ensures OctaveBlackKeys() == [false, true, false, false, true, false, true, false, false, true, false, true]
    ensures OctaveKeyToWhiteKey() == [0, 0, 1, 2, 2, 3, 3, 4, 5, 5, 6, 6]
  {
  }

  /**
   * The factory's configuration: the note speed it is built with, and the
   * values it reads from the configuration and its header.
   */
  datatype PianoGameObjectFactory = PianoGameObjectFactory(
    noteSpeed: real,
    screenWidth: real,
    screenHeight: real,
    midiOutVelocity: int,
    qwertyKeys: seq<KeyCode>,
    blackWidthMultiplier: real,
    whiteKeyHeight: real,
    blackKeyHeight: real,
    keyHoverPercentage: real)
  {
    /** `white_width_`: the white keys share the screen width equally. */
    function WhiteWidth(): (r: real)
      ensures r * NUM_WHITE_KEYS as real == screenWidth
    {
      screenWidth / NUM_WHITE_KEYS as real
    }

    /** A black key is narrower than a white one exactly when the multiplier is below one. */
    function BlackWidth(): (r: real)
      ensures WhiteWidth() > 0.0 ==> (r < WhiteWidth() <==> blackWidthMultiplier < 1.0)
    {
      WhiteWidth() * blackWidthMultiplier
    }
  }

  // ---------------------------------------------------------------- keys

  /**
   * The octave position of `midiKey` is `(midiKey - first) % 12`. Keys below
   * the first piano key would make the C++ remainder negative and index
   * outside the table, so they are excluded.
   */
  function IsBlackKey(midiKey: int): (r: bool)
    requires midiKey >= PIANO_FIRST_MIDI_KEY
    ensures r <==> (midiKey - PIANO_FIRST_MIDI_KEY) % NOTES_PER_OCTAVE in {1, 4, 6, 9, 11}
  {
    OctaveBlackKeys()[(midiKey - PIANO_FIRST_MIDI_KEY) % NOTES_PER_OCTAVE]
  }

  /** Seven white keys per full octave below, plus the position within the octave. */
  function GetWhiteKeyIndex(midiKey: int): (r: int)
    requires midiKey >= PIANO_FIRST_MIDI_KEY
    ensures r >= 0
  {
    var keyIndex := midiKey - PIANO_FIRST_MIDI_KEY;
    var octaveNum := keyIndex / NOTES_PER_OCTAVE;
    var prevWhiteKeys := octaveNum * WHITE_KEYS_PER_OCTAVE;
    var octaveIndex := keyIndex % NOTES_PER_OCTAVE;
    prevWhiteKeys + OctaveKeyToWhiteKey()[octaveIndex]
  }

  /** The keys for which the assertion in GetWhiteKeyIndex holds. */
  predicate OnKeyboard(midiKey: int) {
    midiKey >= PIANO_FIRST_MIDI_KEY && GetWhiteKeyIndex(midiKey) < NUM_WHITE_KEYS
  }

  /** Splits `midiKey` into its octave and its position within the octave. */
  lemma Octave(midiKey: int) returns (q: int, d: int)
    requires midiKey >= PIANO_FIRST_MIDI_KEY
    ensures q >= 0 && 0 <= d < NOTES_PER_OCTAVE
    ensures midiKey - PIANO_FIRST_MIDI_KEY == NOTES_PER_OCTAVE * q + d
    ensures IsBlackKey(midiKey) == OctaveBlackKeys()[d]
    ensures GetWhiteKeyIndex(midiKey) == WHITE_KEYS_PER_OCTAVE * q + OctaveKeyToWhiteKey()[d]
  {
    q := (midiKey - PIANO_FIRST_MIDI_KEY) / NOTES_PER_OCTAVE;
    d := (midiKey - PIANO_FIRST_MIDI_KEY) % NOTES_PER_OCTAVE;
  }

  /**
   * The two tables agree: a note of the octave is black exactly when it is
   * not the first and has the same white-key number as the note below it.
   */
  lemma OctaveTablesAgree(d: int)
    requires 0 <= d < NOTES_PER_OCTAVE
    ensures OctaveBlackKeys()[d] <==> d > 0 && OctaveKeyToWhiteKey()[d] == OctaveKeyToWhiteKey()[d - 1]
    ensures d > 0 ==> OctaveKeyToWhiteKey()[d]
                      == OctaveKeyToWhiteKey()[d - 1] + (if OctaveBlackKeys()[d] then 0 else 1)
  {
    assert d == 0 || d == 1 || d == 2 || d == 3 || d == 4 || d == 5
        || d == 6 || d == 7 || d == 8 || d == 9 || d == 10 || d == 11;
  }

  /** Table form of "no two adjacent black keys", including across the octave boundary. */
  lemma OctaveNoAdjacentBlack(d: int)
    requires 0 <= d < NOTES_PER_OCTAVE
    ensures OctaveBlackKeys()[d] ==> !OctaveBlackKeys()[(d + 1) % NOTES_PER_OCTAVE]
  {
    assert d == 0 || d == 1 || d == 2 || d == 3 || d == 4 || d == 5
        || d == 6 || d == 7 || d == 8 || d == 9 || d == 10 || d == 11;
  }

  /** One key up: either the next position in the same octave, or the first of the next octave. */
  lemma OctaveNext(midiKey: int) returns (q: int, d: int)
    requires midiKey >= PIANO_FIRST_MIDI_KEY
    ensures q >= 0 && 0 <= d < NOTES_PER_OCTAVE
    ensures IsBlackKey(midiKey) == OctaveBlackKeys()[d]
    ensures GetWhiteKeyIndex(midiKey) == WHITE_KEYS_PER_OCTAVE * q + OctaveKeyToWhiteKey()[d]
    ensures d < NOTES_PER_OCTAVE - 1 ==>
              IsBlackKey(midiKey + 1) == OctaveBlackKeys()[d + 1]
              && GetWhiteKeyIndex(midiKey + 1) == WHITE_KEYS_PER_OCTAVE * q + OctaveKeyToWhiteKey()[d + 1]
    ensures d == NOTES_PER_OCTAVE - 1 ==>
              IsBlackKey(midiKey + 1) == OctaveBlackKeys()[0]
              && GetWhiteKeyIndex(midiKey + 1) == WHITE_KEYS_PER_OCTAVE * (q + 1)
  {
    var n := midiKey - PIANO_FIRST_MIDI_KEY;
    q, d := n / NOTES_PER_OCTAVE, n % NOTES_PER_OCTAVE;
    if d < NOTES_PER_OCTAVE - 1 {
      assert (n + 1) / NOTES_PER_OCTAVE == q && (n + 1) % NOTES_PER_OCTAVE == d + 1;
    } else {
      assert (n + 1) / NOTES_PER_OCTAVE == q + 1 && (n + 1) % NOTES_PER_OCTAVE == 0;
    }
  }

  /** Both tables repeat every octave: twelve keys up is the same colour and seven white keys on. */
  lemma OctavePeriodic(midiKey: int)
    requires midiKey >= PIANO_FIRST_MIDI_KEY
    ensures IsBlackKey(midiKey + NOTES_PER_OCTAVE) == IsBlackKey(midiKey)
    ensures GetWhiteKeyIndex(midiKey + NOTES_PER_OCTAVE) == GetWhiteKeyIndex(midiKey) + WHITE_KEYS_PER_OCTAVE
  {
    var n := midiKey - PIANO_FIRST_MIDI_KEY;
    assert (n + NOTES_PER_OCTAVE) % NOTES_PER_OCTAVE == n % NOTES_PER_OCTAVE;
    assert (n + NOTES_PER_OCTAVE) / NOTES_PER_OCTAVE == n / NOTES_PER_OCTAVE + 1;
  }

  /**
   * Moving up one key: the white-key number stays the same for a black key
   * and grows by one for a white key, across octave boundaries too.
   */
  lemma WhiteIndexStep(midiKey: int)
    requires midiKey >= PIANO_FIRST_MIDI_KEY
    ensures GetWhiteKeyIndex(midiKey + 1) == GetWhiteKeyIndex(midiKey) + (if IsBlackKey(midiKey + 1) then 0 else 1)
  {
    var q, d := OctaveNext(midiKey);
    if d < NOTES_PER_OCTAVE - 1 {
      OctaveTablesAgree(d + 1);
    }
  }

  /** Two black keys are never adjacent, and the first piano key is white. */
  lemma NoAdjacentBlackKeys(midiKey: int)
    requires midiKey >= PIANO_FIRST_MIDI_KEY
    ensures IsBlackKey(midiKey) ==> !IsBlackKey(midiKey + 1)
    ensures IsBlackKey(midiKey) ==> midiKey > PIANO_FIRST_MIDI_KEY
  {
    var q, d := OctaveNext(midiKey);
    OctaveNoAdjacentBlack(d);
  }

  /** A black key has the white-key number of the key just below it; a white key one more. */
  lemma BlackKeySharesIndex(midiKey: int)
    requires midiKey > PIANO_FIRST_MIDI_KEY
    ensures IsBlackKey(midiKey) <==> GetWhiteKeyIndex(midiKey) == GetWhiteKeyIndex(midiKey - 1)
    ensures !IsBlackKey(midiKey) ==> GetWhiteKeyIndex(midiKey) == GetWhiteKeyIndex(midiKey - 1) + 1
  {
    WhiteIndexStep(midiKey - 1);
  }

  /** Past a black key: the key after it is white and has the next white-key number. */
  lemma SkipBlackKey(midiKey: int)
    requires midiKey >= PIANO_FIRST_MIDI_KEY && IsBlackKey(midiKey + 1)
    ensures !IsBlackKey(midiKey + 2)
    ensures GetWhiteKeyIndex(midiKey + 2) == GetWhiteKeyIndex(midiKey) + 1
  {
    NoAdjacentBlackKeys(midiKey + 1);
    WhiteIndexStep(midiKey);
    WhiteIndexStep(midiKey + 1);
  }

  /** The next white key above a white key has the next white-key number. */
  lemma NextWhiteKey(midiKey: int) returns (next: int)
    requires midiKey >= PIANO_FIRST_MIDI_KEY && !IsBlackKey(midiKey)
    ensures next == (if IsBlackKey(midiKey + 1) then midiKey + 2 else midiKey + 1)
    ensures !IsBlackKey(next)
    ensures GetWhiteKeyIndex(next) == GetWhiteKeyIndex(midiKey) + 1
  {
    if IsBlackKey(midiKey + 1) {
      next := midiKey + 2;
      SkipBlackKey(midiKey);
    } else {
      next := midiKey + 1;
      WhiteIndexStep(midiKey);
    }
  }

  /** White-key numbers never decrease going up, and a white key's is above every lower key's. */
  lemma {:induction false} WhiteIndexMonotone(k1: int, k2: int)
    requires PIANO_FIRST_MIDI_KEY <= k1 <= k2
    ensures GetWhiteKeyIndex(k1) <= GetWhiteKeyIndex(k2)
    ensures k1 < k2 && !IsBlackKey(k2) ==> GetWhiteKeyIndex(k1) < GetWhiteKeyIndex(k2)
    decreases k2 - k1
  {
    if k1 < k2 {
      WhiteIndexMonotone(k1, k2 - 1);
      BlackKeySharesIndex(k2);
    }
  }

  /** Two different keys of the same colour have different white-key numbers. */
  lemma SameColourDistinctIndex(k1: int, k2: int)
    requires PIANO_FIRST_MIDI_KEY <= k1 < k2
    requires IsBlackKey(k1) == IsBlackKey(k2)
    ensures GetWhiteKeyIndex(k1) < GetWhiteKeyIndex(k2)
  {
    if IsBlackKey(k2) {
      NoAdjacentBlackKeys(k2 - 1);
      NoAdjacentBlackKeys(k1);
      assert k1 < k2 - 1 && !IsBlackKey(k2 - 1);
      WhiteIndexMonotone(k1, k2 - 1);
      BlackKeySharesIndex(k2);
    } else {
      WhiteIndexMonotone(k1, k2);
    }
  }

  /**
   * The assertion in GetWhiteKeyIndex holds exactly from the first piano key
   * up to one key past the last one (C#8, which shares C8's number).
   */
  lemma OnKeyboardRange(midiKey: int)
    ensures OnKeyboard(midiKey) <==> PIANO_FIRST_MIDI_KEY <= midiKey <= PIANO_FIRST_MIDI_KEY + NUM_PIANO_KEYS
  {
    if midiKey >= PIANO_FIRST_MIDI_KEY {
      var q, d := Octave(midiKey);
      assert d == 0 || d == 1 || d == 2 || d == 3 || d == 4 || d == 5
          || d == 6 || d == 7 || d == 8 || d == 9 || d == 10 || d == 11;
    }
  }

  // ----------------------------------------------------- reference lists

  /** The white keys from the first piano key up to `hi` (exclusive), highest first. */
  function WhiteKeysDown(hi: int): seq<int>
    requires hi >= PIANO_FIRST_MIDI_KEY
    decreases hi
  {
    if hi == PIANO_FIRST_MIDI_KEY then []
    else (if IsBlackKey(hi - 1) then [] else [hi - 1]) + WhiteKeysDown(hi - 1)
  }

  /** The black keys from the first piano key up to `hi` (exclusive), lowest first. */
  function BlackKeysUp(hi: int): seq<int>
    requires hi >= PIANO_FIRST_MIDI_KEY
    decreases hi
  {
    if hi == PIANO_FIRST_MIDI_KEY then []
    else BlackKeysUp(hi - 1) + (if IsBlackKey(hi - 1) then [hi - 1] else [])
  }

  /** `r` lists exactly the white keys from the first piano key up to `hi` (exclusive), in strictly decreasing order. */
  ghost predicate ListsWhiteKeys(r: seq<int>, hi: int) {
    && (forall i :: 0 <= i < |r| ==> PIANO_FIRST_MIDI_KEY <= r[i] < hi && !IsBlackKey(r[i]))
    && (forall i, j :: 0 <= i < j < |r| ==> r[i] > r[j])
    && (forall k :: PIANO_FIRST_MIDI_KEY <= k < hi && !IsBlackKey(k) ==> k in r)
  }

  /** `r` lists exactly the black keys from the first piano key up to `hi` (exclusive), in strictly increasing order. */
  ghost predicate ListsBlackKeys(r: seq<int>, hi: int) {
    && (forall i :: 0 <= i < |r| ==> PIANO_FIRST_MIDI_KEY <= r[i] < hi && IsBlackKey(r[i]))
    && (forall i, j :: 0 <= i < j < |r| ==> r[i] < r[j])
    && (forall k :: PIANO_FIRST_MIDI_KEY <= k < hi && IsBlackKey(k) ==> k in r)
  }

  lemma WhiteKeysDownSpec(hi: int)
    requires hi >= PIANO_FIRST_MIDI_KEY
    ensures ListsWhiteKeys(WhiteKeysDown(hi), hi)
  {
    WhiteKeysListed(hi - PIANO_FIRST_MIDI_KEY);
  }

  lemma {:induction false} WhiteKeysListed(n: nat)
    ensures ListsWhiteKeys(WhiteKeysDown(PIANO_FIRST_MIDI_KEY + n), PIANO_FIRST_MIDI_KEY + n)
  {
    if n > 0 {
      WhiteKeysListed(n - 1);
      WhiteKeysDownStep(PIANO_FIRST_MIDI_KEY + n);
    }
  }

  lemma WhiteKeysDownStep(hi: int)
    requires hi > PIANO_FIRST_MIDI_KEY && ListsWhiteKeys(WhiteKeysDown(hi - 1), hi - 1)
    ensures ListsWhiteKeys(WhiteKeysDown(hi), hi)
  {
    if IsBlackKey(hi - 1) {
      SkipBlackKeyInList(hi);
    } else {
      AddWhiteKeyToList(hi);
    }
  }

  /** A white key `hi - 1` goes to the front of the white-key list. */
  lemma AddWhiteKeyToList(hi: int)
    requires hi > PIANO_FIRST_MIDI_KEY && !IsBlackKey(hi - 1) && ListsWhiteKeys(WhiteKeysDown(hi - 1), hi - 1)
    ensures ListsWhiteKeys(WhiteKeysDown(hi), hi)
  {
    var rest, r := WhiteKeysDown(hi - 1), WhiteKeysDown(hi);
    assert r == [hi - 1] + rest;
    assert forall i :: 0 < i < |r| ==> r[i] == rest[i - 1];
  }

  /** A black key `hi - 1` leaves the white-key list as it is. */
  lemma SkipBlackKeyInList(hi: int)
    requires hi > PIANO_FIRST_MIDI_KEY && IsBlackKey(hi - 1) && ListsWhiteKeys(WhiteKeysDown(hi - 1), hi - 1)
    ensures ListsWhiteKeys(WhiteKeysDown(hi), hi)
  {
    assert WhiteKeysDown(hi) == [] + WhiteKeysDown(hi - 1) == WhiteKeysDown(hi - 1);
    WhiteListAboveBlackKey(WhiteKeysDown(hi - 1), hi);
  }

  /** A list of the white keys below a black key `hi - 1` lists the white keys below `hi` too. */
  lemma WhiteListAboveBlackKey(r: seq<int>, hi: int)
    requires hi > PIANO_FIRST_MIDI_KEY && IsBlackKey(hi - 1) && ListsWhiteKeys(r, hi - 1)
    ensures ListsWhiteKeys(r, hi)
  {
    forall k | PIANO_FIRST_MIDI_KEY <= k < hi && !IsBlackKey(k) ensures k in r {
      assert k != hi - 1;
    }
  }

  lemma BlackKeysUpSpec(hi: int)
    requires hi >= PIANO_FIRST_MIDI_KEY
    ensures ListsBlackKeys(BlackKeysUp(hi), hi)
  {
    BlackKeysListed(hi - PIANO_FIRST_MIDI_KEY);
  }

  lemma {:induction false} BlackKeysListed(n: nat)
    ensures ListsBlackKeys(BlackKeysUp(PIANO_FIRST_MIDI_KEY + n), PIANO_FIRST_MIDI_KEY + n)
  {
    if n > 0 {
      BlackKeysListed(n - 1);
      BlackKeysUpStep(PIANO_FIRST_MIDI_KEY + n);
    }
  }

  lemma BlackKeysUpStep(hi: int)
    requires hi > PIANO_FIRST_MIDI_KEY && ListsBlackKeys(BlackKeysUp(hi - 1), hi - 1)
    ensures ListsBlackKeys(BlackKeysUp(hi), hi)
  {
    if IsBlackKey(hi - 1) {
      AddBlackKeyToList(hi);
    } else {
      SkipWhiteKeyInList(hi);
    }
  }

  /** A black key `hi - 1` goes to the back of the black-key list. */
  lemma AddBlackKeyToList(hi: int)
    requires hi > PIANO_FIRST_MIDI_KEY && IsBlackKey(hi - 1) && ListsBlackKeys(BlackKeysUp(hi - 1), hi - 1)
    ensures ListsBlackKeys(BlackKeysUp(hi), hi)
  {
    var rest, r := BlackKeysUp(hi - 1), BlackKeysUp(hi);
    assert r == rest + [hi - 1];
    assert forall i :: 0 <= i < |rest| ==> r[i] == rest[i];
    assert r[|rest|] == hi - 1;
  }

  /** A white key `hi - 1` leaves the black-key list as it is. */
  lemma SkipWhiteKeyInList(hi: int)
    requires hi > PIANO_FIRST_MIDI_KEY && !IsBlackKey(hi - 1) && ListsBlackKeys(BlackKeysUp(hi - 1), hi - 1)
    ensures ListsBlackKeys(BlackKeysUp(hi), hi)
  {
    assert BlackKeysUp(hi) == BlackKeysUp(hi - 1) + [] == BlackKeysUp(hi - 1);
    BlackListAboveWhiteKey(BlackKeysUp(hi - 1), hi);
  }

  /** A list of the black keys below a white key `hi - 1` lists the black keys below `hi` too. */
  lemma BlackListAboveWhiteKey(r: seq<int>, hi: int)
    requires hi > PIANO_FIRST_MIDI_KEY && !IsBlackKey(hi - 1) && ListsBlackKeys(r, hi - 1)
    ensures ListsBlackKeys(r, hi)
  {
    forall k | PIANO_FIRST_MIDI_KEY <= k < hi && IsBlackKey(k) ensures k in r {
      assert k != hi - 1;
    }
  }

  /** One key more adds one white key to the count exactly when that key is white. */
  lemma WhiteKeysDownGrows(midiKey: int)
    requires midiKey >= PIANO_FIRST_MIDI_KEY
    ensures |WhiteKeysDown(midiKey + 1)| == |WhiteKeysDown(midiKey)| + (if IsBlackKey(midiKey) then 0 else 1)
  {
    assert WhiteKeysDown(midiKey + 1) == (if IsBlackKey(midiKey) then [] else [midiKey]) + WhiteKeysDown(midiKey);
  }

  /** The first key is white, has white-key number 0 and is the only white key up to itself. */
  lemma FirstKeyCount(midiKey: int)
    requires midiKey == PIANO_FIRST_MIDI_KEY
    ensures GetWhiteKeyIndex(midiKey) + 1 == |WhiteKeysDown(midiKey + 1)|
  {
    assert !IsBlackKey(PIANO_FIRST_MIDI_KEY);
    assert WhiteKeysDown(PIANO_FIRST_MIDI_KEY) == [];
    assert WhiteKeysDown(PIANO_FIRST_MIDI_KEY + 1) == [PIANO_FIRST_MIDI_KEY];
  }

  /** The step of WhiteIndexCountsWhiteKeys: the count and the white-key number grow together. */
  lemma WhiteCountStep(midiKey: int)
    requires midiKey > PIANO_FIRST_MIDI_KEY
    requires GetWhiteKeyIndex(midiKey - 1) + 1 == |WhiteKeysDown(midiKey)|
    ensures GetWhiteKeyIndex(midiKey) + 1 == |WhiteKeysDown(midiKey + 1)|
  {
    WhiteKeysDownGrows(midiKey);
    BlackKeySharesIndex(midiKey);
  }

  /** A key's white-key number is the count of white keys from the first key up to it, less one. */
  lemma WhiteIndexCountsWhiteKeys(midiKey: int)
    requires midiKey >= PIANO_FIRST_MIDI_KEY
    ensures GetWhiteKeyIndex(midiKey) + 1 == |WhiteKeysDown(midiKey + 1)|
  {
    WhiteCountAbove(midiKey - PIANO_FIRST_MIDI_KEY);
  }

  /** WhiteIndexCountsWhiteKeys by induction on the distance `n` from the first key. */
  lemma {:induction false} WhiteCountAbove(n: nat)
    ensures GetWhiteKeyIndex(PIANO_FIRST_MIDI_KEY + n) + 1 == |WhiteKeysDown(PIANO_FIRST_MIDI_KEY + n + 1)|
  {
    if n == 0 {
      FirstKeyCount(PIANO_FIRST_MIDI_KEY + n);
    } else {
      WhiteCountAbove(n - 1);
      WhiteCountStep(PIANO_FIRST_MIDI_KEY + n);
    }
  }

  /** The 88 keys are 52 white and 36 black. */
  lemma KeyCounts()
    ensures |WhiteKeysDown(PIANO_FIRST_MIDI_KEY + NUM_PIANO_KEYS)| == NUM_WHITE_KEYS
    ensures |BlackKeysUp(PIANO_FIRST_MIDI_KEY + NUM_PIANO_KEYS)| == NUM_PIANO_KEYS - NUM_WHITE_KEYS
  {
    var last := PIANO_FIRST_MIDI_KEY + NUM_PIANO_KEYS - 1;
    WhiteIndexCountsWhiteKeys(last);
    var q, d := Octave(last);
    assert q == 7 && d == 3;
    ColoursPartition(last + 1);
  }

  /** Every key below `hi` is in exactly one of the two lists. */
  lemma ColoursPartition(hi: int)
    requires hi >= PIANO_FIRST_MIDI_KEY
    ensures |WhiteKeysDown(hi)| + |BlackKeysUp(hi)| == hi - PIANO_FIRST_MIDI_KEY
  {
    ColoursPartitionAbove(hi - PIANO_FIRST_MIDI_KEY);
  }

  lemma {:induction false} ColoursPartitionAbove(n: nat)
    ensures |WhiteKeysDown(PIANO_FIRST_MIDI_KEY + n)| + |BlackKeysUp(PIANO_FIRST_MIDI_KEY + n)| == n
  {
    if n > 0 {
      ColoursPartitionAbove(n - 1);
    }
  }

  // ------------------------------------------------------------ geometry

  /**
   * The left edge of a key: a white key starts at its slot; a black key
   * starts half a black width right of the middle of the white key below
   * it, so it starts in the right half of that slot.
   */
  function CalculateXPosition(f: PianoGameObjectFactory, midiKey: int): (r: real)
    requires midiKey >= PIANO_FIRST_MIDI_KEY
    ensures !IsBlackKey(midiKey) ==> r == GetWhiteKeyIndex(midiKey) as real * f.WhiteWidth()
    ensures IsBlackKey(midiKey) && 0.0 <= f.BlackWidth() < f.WhiteWidth() ==>
              GetWhiteKeyIndex(midiKey) as real * f.WhiteWidth() + f.WhiteWidth() / 2.0 <= r
              < (GetWhiteKeyIndex(midiKey) + 1) as real * f.WhiteWidth()
  {
    var x := GetWhiteKeyIndex(midiKey) as real * f.WhiteWidth();
    assert (GetWhiteKeyIndex(midiKey) + 1) as real * f.WhiteWidth() == x + f.WhiteWidth();
    if IsBlackKey(midiKey) then x + f.WhiteWidth() / 2.0 + f.BlackWidth() / 2.0 else x
  }

  /** A positive screen width and a black key narrower than a white one. */
  predicate SaneLayout(f: PianoGameObjectFactory) {
    f.screenWidth > 0.0 && 0.0 <= f.blackWidthMultiplier < 1.0
  }

  /** The left edge of a key from its white-key number and colour, for white width `w` and black width `b`. */
  function KeyLeft(w: real, b: real, index: int, black: bool): real {
    if black then index as real * w + w / 2.0 + b / 2.0 else index as real * w
  }

  /** The arithmetic of one step to the right, free of the key tables. */
  lemma KeyLeftStep(w: real, b: real, i0: int, b0: bool, i1: int, b1: bool)
    requires w > 0.0 && 0.0 <= b < w
    requires i1 == i0 + (if b1 then 0 else 1) && !(b0 && b1)
    ensures KeyLeft(w, b, i0, b0) < KeyLeft(w, b, i1, b1)
  {
    if !b1 {
      assert (i0 + 1) as real * w == i0 as real * w + w;
    }
  }

  /** Under a sane layout white keys have positive width and black keys are narrower. */
  lemma SaneWidths(f: PianoGameObjectFactory)
    requires SaneLayout(f)
    ensures f.WhiteWidth() > 0.0 && 0.0 <= f.BlackWidth() < f.WhiteWidth()
  {
    var w, m := f.WhiteWidth(), f.blackWidthMultiplier;
    assert w == f.screenWidth / 52.0;
    assert w > 0.0;
    assert f.BlackWidth() == w * m;
    NarrowerBlackKey(w, m);
  }

  lemma NarrowerBlackKey(w: real, m: real)
    requires w > 0.0 && 0.0 <= m < 1.0
    ensures 0.0 <= w * m < w
  {
  }

  /** CalculateXPosition is KeyLeft of the key's white-key number and colour. */
  lemma XPositionIsKeyLeft(f: PianoGameObjectFactory, midiKey: int)
    requires midiKey >= PIANO_FIRST_MIDI_KEY
    ensures CalculateXPosition(f, midiKey) == KeyLeft(f.WhiteWidth(), f.BlackWidth(), GetWhiteKeyIndex(midiKey), IsBlackKey(midiKey))
  {
  }

  /** The next white key number starts one white width further right. */
  lemma KeyLeftNextWhite(w: real, b: real, i: int)
    ensures KeyLeft(w, b, i + 1, false) == KeyLeft(w, b, i, false) + w
  {
    assert (i + 1) as real * w == i as real * w + w;
  }

  /** Keys are laid out strictly left to right in MIDI order. */
  lemma XPositionIncreasing(f: PianoGameObjectFactory, midiKey: int)
    requires midiKey >= PIANO_FIRST_MIDI_KEY && SaneLayout(f)
    ensures CalculateXPosition(f, midiKey) < CalculateXPosition(f, midiKey + 1)
  {
    SaneWidths(f);
    WhiteIndexStep(midiKey);
    NoAdjacentBlackKeys(midiKey);
    KeyLeftStep(f.WhiteWidth(), f.BlackWidth(), GetWhiteKeyIndex(midiKey), IsBlackKey(midiKey),
                GetWhiteKeyIndex(midiKey + 1), IsBlackKey(midiKey + 1));
    XPositionIsKeyLeft(f, midiKey);
    XPositionIsKeyLeft(f, midiKey + 1);
  }

  /** White keys tile the screen: each starts where the previous white key ends. */
  lemma WhiteKeysAdjoin(f: PianoGameObjectFactory, midiKey: int) returns (next: int)
    requires midiKey >= PIANO_FIRST_MIDI_KEY && !IsBlackKey(midiKey)
    ensures next == (if IsBlackKey(midiKey + 1) then midiKey + 2 else midiKey + 1) && !IsBlackKey(next)
    ensures CalculateXPosition(f, next) == CalculateXPosition(f, midiKey) + f.WhiteWidth()
  {
    next := NextWhiteKey(midiKey);
    KeyLeftNextWhite(f.WhiteWidth(), f.BlackWidth(), GetWhiteKeyIndex(midiKey));
    XPositionIsKeyLeft(f, midiKey);
    XPositionIsKeyLeft(f, next);
  }

  /** The keyboard spans the screen: the first key at the left edge, the last white key ending at the right edge. */
  lemma KeyboardSpansScreen(f: PianoGameObjectFactory)
    ensures CalculateXPosition(f, PIANO_FIRST_MIDI_KEY) == 0.0
    ensures var last := PIANO_FIRST_MIDI_KEY + NUM_PIANO_KEYS - 1;
      !IsBlackKey(last) && CalculateXPosition(f, last) + f.WhiteWidth() == f.screenWidth
  {
    NoAdjacentBlackKeys(PIANO_FIRST_MIDI_KEY);
    assert GetWhiteKeyIndex(PIANO_FIRST_MIDI_KEY) == 0;
    var q, d := Octave(PIANO_FIRST_MIDI_KEY + NUM_PIANO_KEYS - 1);
    assert q == 7 && d == 3;
  }

  // ------------------------------------------------------------- colours

  /** The colour of a MIDI track. A negative track would index outside the table in C++. */
  function GetTrackColour(midiTrack: int): (r: TrackColour)
    requires midiTrack >= 0
    ensures r in MIDI_TRACK_COLOURS
    ensures midiTrack < NUM_TRACK_COLOURS ==> r == MIDI_TRACK_COLOURS[midiTrack]
  {
    MIDI_TRACK_COLOURS[midiTrack % NUM_TRACK_COLOURS]
  }

  /** Track colours repeat every six tracks, and the first six tracks all differ. */
  lemma TrackColours(t1: int, t2: int)
    requires t1 >= 0 && t2 >= 0
    ensures GetTrackColour(t1 + NUM_TRACK_COLOURS) == GetTrackColour(t1)
    ensures t1 < t2 < NUM_TRACK_COLOURS ==> GetTrackColour(t1) != GetTrackColour(t2)
  {
    assert (t1 + NUM_TRACK_COLOURS) % NUM_TRACK_COLOURS == t1 % NUM_TRACK_COLOURS;
  }

  // --------------------------------------------------------- key binding

  /**
   * The out-parameters after GetInstrumentKeyBinding, when `*shift` held
   * `shiftBefore` on entry: the white key's keyboard key, no control
   * modifier, and shift set for a black key; for a white key `*shift` is not
   * written and keeps `shiftBefore`.
   */
  function BindingAfter(f: PianoGameObjectFactory, midiKey: int, shiftBefore: bool): KeyBinding
    requires OnKeyboard(midiKey) && |f.qwertyKeys| >= NUM_WHITE_KEYS
  {
    KeyBinding(f.qwertyKeys[GetWhiteKeyIndex(midiKey)], false, if IsBlackKey(midiKey) then true else shiftBefore)
  }

  /** GetInstrumentKeyBinding: `shift0` is what `*shift` held before the call. */
  method GetInstrumentKeyBinding(f: PianoGameObjectFactory, midiKey: int, shift0: bool)
    returns (key: KeyCode, ctrl: bool, shift: bool)
    requires OnKeyboard(midiKey) && |f.qwertyKeys| >= NUM_WHITE_KEYS
    ensures KeyBinding(key, ctrl, shift) == BindingAfter(f, midiKey, shift0)
  {
    shift := shift0;
    var whiteIndex := GetWhiteKeyIndex(midiKey);
    key := f.qwertyKeys[whiteIndex];
    if IsBlackKey(midiKey) {
      shift := true;
    }
    ctrl := false;
  }

  /**
   * When `*shift` starts out false, a black key is bound to the key of the
   * white key below it, plus shift, and a white key to its own key without
   * modifiers.
   */
  lemma BlackKeyIsShiftedWhiteKey(f: PianoGameObjectFactory, midiKey: int)
    requires OnKeyboard(midiKey) && |f.qwertyKeys| >= NUM_WHITE_KEYS
    ensures !IsBlackKey(midiKey) ==> BindingAfter(f, midiKey, false) == KeyBinding(f.qwertyKeys[GetWhiteKeyIndex(midiKey)], false, false)
    ensures IsBlackKey(midiKey) ==>
              midiKey - 1 >= PIANO_FIRST_MIDI_KEY && OnKeyboard(midiKey - 1) && !IsBlackKey(midiKey - 1)
              && BindingAfter(f, midiKey, false) == BindingAfter(f, midiKey - 1, false).(shift := true)
  {
    NoAdjacentBlackKeys(midiKey);
    if IsBlackKey(midiKey) {
      NoAdjacentBlackKeys(midiKey - 1);
      BlackKeySharesIndex(midiKey);
    }
  }

  /** Different keys of the keyboard get different bindings when `*shift` starts out false. */
  lemma PianoBindingsDistinct(f: PianoGameObjectFactory, k1: int, k2: int)
    requires |f.qwertyKeys| >= NUM_WHITE_KEYS
    requires forall i, j :: 0 <= i < j < NUM_WHITE_KEYS ==> f.qwertyKeys[i] != f.qwertyKeys[j]
    requires OnKeyboard(k1) && OnKeyboard(k2) && k1 != k2
    ensures BindingAfter(f, k1, false) != BindingAfter(f, k2, false)
  {
    if IsBlackKey(k1) == IsBlackKey(k2) {
      if k1 < k2 {
        SameColourDistinctIndex(k1, k2);
      } else {
        SameColourDistinctIndex(k2, k1);
      }
    }
  }

  /**
   * As written, CreateInstrumentNote passes an uninitialised `shift`, which
   * GetInstrumentKeyBinding leaves unwritten for white keys. If it happens
   * to hold true, the white key A0 gets exactly the binding of the black key
   * A#0.
   */
  lemma UninitialisedShiftCollides(f: PianoGameObjectFactory)
    requires |f.qwertyKeys| >= NUM_WHITE_KEYS
    ensures OnKeyboard(21) && OnKeyboard(22) && !IsBlackKey(21) && IsBlackKey(22)
    ensures BindingAfter(f, 21, true) == BindingAfter(f, 22, true)
  {
    BlackKeySharesIndex(22);
  }

  // ------------------------------------------------------------- objects

  function KeyRect(f: PianoGameObjectFactory, note: int): Rect
    requires note >= PIANO_FIRST_MIDI_KEY
  {
    if IsBlackKey(note) then Rect(f.BlackWidth(), f.blackKeyHeight, BlackFill)
    else Rect(f.WhiteWidth(), f.whiteKeyHeight, WhiteFill)
  }

  /** Every key sits at the same height: the white-key height plus the hover gap above the bottom edge. */
  function KeyY(f: PianoGameObjectFactory): real {
    f.screenHeight - f.whiteKeyHeight - f.screenHeight * f.keyHoverPercentage
  }

  /** The components CreateInstrumentNote installs, in order, given the key binding. */
  function InstrumentNoteComponents(f: PianoGameObjectFactory, note: int, binding: KeyBinding)
    : seq<(ComponentType, Payload)>
    requires note >= PIANO_FIRST_MIDI_KEY
  {
    [(INSTRUMENT, NoData),
     (NOTE_INFO, NoteData(-1, 0, note, f.midiOutVelocity)),
     (GRAPHICS, GraphicsData(KeyRect(f, note))),
     (INSTRUMENT_INPUT_HANDLER, InputData(binding)),
     (COLLISION_DETECTOR, DetectorData(false)),
     (COLLISION_HANDLER, HandlerData(false))]
  }

  lemma InstrumentNoteKindsDistinct(f: PianoGameObjectFactory, note: int, binding: KeyBinding)
    requires note >= PIANO_FIRST_MIDI_KEY
    ensures NewKinds(map[], InstrumentNoteComponents(f, note, binding))
  {
  }

  /**
   * CreateInstrumentNote as written: `indeterminate` stands for whatever the
   * uninitialised `shift` local holds.
   */
  method CreateInstrumentNoteAsWritten(f: PianoGameObjectFactory, note: int, indeterminate: bool)
    returns (o: GameObject)
    requires OnKeyboard(note) && |f.qwertyKeys| >= NUM_WHITE_KEYS
    ensures fresh(o) && fresh(o.components) && o.Valid()
    ensures o.x == CalculateXPosition(f, note) && o.y == KeyY(f)
    ensures o.Contents() == Assemble(InstrumentNoteComponents(f, note, BindingAfter(f, note, indeterminate)))
    ensures o.toDelete == [] && o.Destroyed == [] && !o.requestDelete
  {
    var x := CalculateXPosition(f, note);
    var y := f.screenHeight - f.whiteKeyHeight - f.screenHeight * f.keyHoverPercentage;
    var key, ctrl, shift := GetInstrumentKeyBinding(f, note, indeterminate);
    var items := InstrumentNoteComponents(f, note, KeyBinding(key, ctrl, shift));
    InstrumentNoteKindsDistinct(f, note, KeyBinding(key, ctrl, shift));
    o := NewGameObject(x, y, 0.0, 0.0, items);
  }

  /** CreateInstrumentNote with `shift` initialised to false. */
  method CreateInstrumentNote(f: PianoGameObjectFactory, note: int) returns (o: GameObject)
    requires OnKeyboard(note) && |f.qwertyKeys| >= NUM_WHITE_KEYS
    ensures fresh(o) && fresh(o.components) && o.Valid()
    ensures o.x == CalculateXPosition(f, note) && o.y == KeyY(f)
    ensures o.Contents() == Assemble(InstrumentNoteComponents(f, note, BindingAfter(f, note, false)))
    ensures o.toDelete == [] && o.Destroyed == [] && !o.requestDelete
  {
    o := CreateInstrumentNoteAsWritten(f, note, false);
  }

  /** A song note is as tall as the distance it falls during its duration (in seconds). */
  function SongNoteHeight(f: PianoGameObjectFactory, duration: real): real {
    duration * 1000.0 * f.noteSpeed
  }

  function SongNoteRect(f: PianoGameObjectFactory, track: int, note: int, duration: real): Rect
    requires track >= 0 && note >= PIANO_FIRST_MIDI_KEY
  {
    if IsBlackKey(note) then Rect(f.BlackWidth(), SongNoteHeight(f, duration), Darkened(GetTrackColour(track)))
    else Rect(f.WhiteWidth(), SongNoteHeight(f, duration), Track(GetTrackColour(track)))
  }

  /** The components CreateSongNote installs, in order. */
  function SongNoteComponents(f: PianoGameObjectFactory, track: int, chan: int, note: int, vel: int, duration: real)
    : seq<(ComponentType, Payload)>
    requires track >= 0 && note >= PIANO_FIRST_MIDI_KEY
  {
    [(SONG_NOTE, NoData),
     (COLLIDABLE, NoData),
     (NOTE_INFO, NoteData(track, chan, note, vel)),
     (GRAPHICS, GraphicsData(SongNoteRect(f, track, note, duration))),
     (PHYSICS, PhysicsData(0.0, f.noteSpeed)),
     (DELETE_OFFSCREEN, NoData),
     (COLLISION_DETECTOR, DetectorData(false)),
     (COLLISION_HANDLER, HandlerData(true))]
  }

  lemma SongNoteKindsDistinct(f: PianoGameObjectFactory, track: int, chan: int, note: int, vel: int, duration: real)
    requires track >= 0 && note >= PIANO_FIRST_MIDI_KEY
    ensures NewKinds(map[], SongNoteComponents(f, track, chan, note, vel, duration))
  {
  }

  /**
   * A song note falls in its key's column: it has the width of the key it
   * falls on, it is darkened exactly when that key is drawn black, and
   * tracks six apart give the same rectangle.
   */
  lemma SongNoteFitsKey(f: PianoGameObjectFactory, track: int, note: int, duration: real)
    requires track >= 0 && note >= PIANO_FIRST_MIDI_KEY
    ensures SongNoteRect(f, track, note, duration).width == KeyRect(f, note).width
    ensures SongNoteRect(f, track, note, duration).fill.Darkened? <==> KeyRect(f, note).fill == BlackFill
    ensures SongNoteRect(f, track + NUM_TRACK_COLOURS, note, duration) == SongNoteRect(f, track, note, duration)
  {
    TrackColours(track, track);
  }

  method CreateSongNote(f: PianoGameObjectFactory, track: int, chan: int, note: int, vel: int, duration: real)
    returns (o: GameObject)
    requires track >= 0 && OnKeyboard(note)
    ensures fresh(o) && fresh(o.components) && o.Valid()
    ensures o.x == CalculateXPosition(f, note) && o.y == -SongNoteHeight(f, duration)
    ensures o.y + SongNoteRect(f, track, note, duration).height == 0.0
    ensures o.originalWidth == 0.0 && o.originalHeight == 0.0
    ensures o.Contents() == Assemble(SongNoteComponents(f, track, chan, note, vel, duration))
    ensures o.toDelete == [] && o.Destroyed == [] && !o.requestDelete
  {
    var x := CalculateXPosition(f, note);
    var height := duration * 1000.0 * f.noteSpeed;
    SongNoteKindsDistinct(f, track, chan, note, vel, duration);
    o := NewGameObject(x, -height, 0.0, 0.0, SongNoteComponents(f, track, chan, note, vel, duration));
  }

  // ---------------------------------------------------------- instrument

  lemma AllKeysOnKeyboard()
    ensures forall k :: PIANO_FIRST_MIDI_KEY <= k < PIANO_FIRST_MIDI_KEY + NUM_PIANO_KEYS ==> OnKeyboard(k)
  {
    forall k | PIANO_FIRST_MIDI_KEY <= k < PIANO_FIRST_MIDI_KEY + NUM_PIANO_KEYS {
      OnKeyboardRange(k);
    }
  }

  /** The keys of CreateInstrument's result, in order: white keys highest first, then black keys lowest first. */
  function InstrumentOrder(): seq<int> {
    WhiteKeysDown(PIANO_FIRST_MIDI_KEY + NUM_PIANO_KEYS) + BlackKeysUp(PIANO_FIRST_MIDI_KEY + NUM_PIANO_KEYS)
  }

  /**
   * The instrument holds every key exactly once; the 52 white keys come
   * first so that the 36 black keys are drawn over them.
   */
  lemma InstrumentLayering()
    ensures |InstrumentOrder()| == NUM_PIANO_KEYS
    ensures forall k :: PIANO_FIRST_MIDI_KEY <= k < PIANO_FIRST_MIDI_KEY + NUM_PIANO_KEYS <==> k in InstrumentOrder()
    ensures forall i, j :: 0 <= i < j < |InstrumentOrder()| ==> InstrumentOrder()[i] != InstrumentOrder()[j]
    ensures forall i :: 0 <= i < |InstrumentOrder()| ==>
              OnKeyboard(InstrumentOrder()[i]) && (IsBlackKey(InstrumentOrder()[i]) <==> i >= NUM_WHITE_KEYS)
  {
    KeyCounts();
    var hi := PIANO_FIRST_MIDI_KEY + NUM_PIANO_KEYS;
    WhiteKeysDownSpec(hi);
    BlackKeysUpSpec(hi);
    var w, b := WhiteKeysDown(hi), BlackKeysUp(hi);
    assert InstrumentOrder() == w + b;
    forall k | k in w + b ensures PIANO_FIRST_MIDI_KEY <= k < hi {
      if k in w {
        var i :| 0 <= i < |w| && w[i] == k;
      } else {
        var i :| 0 <= i < |b| && b[i] == k;
      }
    }
    AllKeysOnKeyboard();
    forall i, j | 0 <= i < j < |w + b| ensures (w + b)[i] != (w + b)[j] {
      if j < |w| || i >= |w| {
      } else {
        assert !IsBlackKey((w + b)[i]) && IsBlackKey((w + b)[j]);
      }
    }
  }

  /** `o` is the key object CreateInstrumentNote makes for `note`. */
  ghost predicate IsKeyObject(f: PianoGameObjectFactory, o: GameObject, note: int)
    reads o, o.components
    requires |f.qwertyKeys| >= NUM_WHITE_KEYS
  {
    && OnKeyboard(note)
    && o.Valid()
    && o.Contents() == Assemble(InstrumentNoteComponents(f, note, BindingAfter(f, note, false)))
    && o.x == CalculateXPosition(f, note) && o.y == KeyY(f)
  }

  /** The keys CreateInstrument has placed once it reaches `key`: black keys at the back, white keys at the front. */
  function PlacedKeys(key: int): seq<int>
    requires key >= PIANO_FIRST_MIDI_KEY
    decreases key
  {
    if key == PIANO_FIRST_MIDI_KEY then []
    else if IsBlackKey(key - 1) then PlacedKeys(key - 1) + [key - 1]
    else [key - 1] + PlacedKeys(key - 1)
  }

  /** Placing the keys one by one yields the white keys highest first, then the black keys lowest first. */
  lemma {:induction false} PlacedKeysSplit(key: int)
    requires key >= PIANO_FIRST_MIDI_KEY
    ensures PlacedKeys(key) == WhiteKeysDown(key) + BlackKeysUp(key)
    decreases key
  {
    if key > PIANO_FIRST_MIDI_KEY {
      var k := key - 1;
      PlacedKeysSplit(k);
      if IsBlackKey(k) {
        assert WhiteKeysDown(key) == WhiteKeysDown(k);
        assert BlackKeysUp(key) == BlackKeysUp(k) + [k];
        assert PlacedKeys(key) == (WhiteKeysDown(k) + BlackKeysUp(k)) + [k];
      } else {
        assert WhiteKeysDown(key) == [k] + WhiteKeysDown(k);
        assert BlackKeysUp(key) == BlackKeysUp(k);
        assert PlacedKeys(key) == [k] + (WhiteKeysDown(k) + BlackKeysUp(k));
      }
    }
  }

  /** One step of PlacedKeys, stated for CreateInstrument's ghost copy of the placed keys. */
  lemma PlacedKeysNext(key: int, placed: seq<int>, placed': seq<int>)
    requires key >= PIANO_FIRST_MIDI_KEY && placed == PlacedKeys(key)
    requires placed' == if IsBlackKey(key) then placed + [key] else [key] + placed
    ensures placed' == PlacedKeys(key + 1)
  {
  }

  /** `objects[i]` is the key object of `keys[i]`, and no object occurs twice. */
  ghost predicate KeyObjects(f: PianoGameObjectFactory, objects: seq<GameObject>, keys: seq<int>)
    reads set i | 0 <= i < |objects| :: objects[i]
    reads set i | 0 <= i < |objects| :: objects[i].components
    requires |f.qwertyKeys| >= NUM_WHITE_KEYS
  {
    && |objects| == |keys|
    && (forall i :: 0 <= i < |objects| ==> IsKeyObject(f, objects[i], keys[i]))
    && (forall i, j :: 0 <= i < j < |objects| ==> objects[i] != objects[j])
  }

  /** A new key object added at the back keeps the correspondence. */
  lemma KeyObjectsAppend(f: PianoGameObjectFactory, objects: seq<GameObject>, keys: seq<int>, o: GameObject, key: int,
                         keys': seq<int>)
    requires |f.qwertyKeys| >= NUM_WHITE_KEYS
    requires KeyObjects(f, objects, keys) && IsKeyObject(f, o, key)
    requires forall i :: 0 <= i < |objects| ==> objects[i] != o
    requires keys' == keys + [key]
    ensures KeyObjects(f, objects + [o], keys')
  {
    var objects' := objects + [o];
    forall i | 0 <= i < |objects'| ensures IsKeyObject(f, objects'[i], keys'[i]) {
      if i < |objects| {
        assert objects'[i] == objects[i] && keys'[i] == keys[i];
      }
    }
  }

  /** A new key object added at the front keeps the correspondence. */
  lemma KeyObjectsPrepend(f: PianoGameObjectFactory, objects: seq<GameObject>, keys: seq<int>, o: GameObject, key: int,
                          keys': seq<int>)
    requires |f.qwertyKeys| >= NUM_WHITE_KEYS
    requires KeyObjects(f, objects, keys) && IsKeyObject(f, o, key)
    requires forall i :: 0 <= i < |objects| ==> objects[i] != o
    requires keys' == [key] + keys
    ensures KeyObjects(f, [o] + objects, keys')
  {
    var objects' := [o] + objects;
    forall i | 0 <= i < |objects'| ensures IsKeyObject(f, objects'[i], keys'[i]) {
      if i > 0 {
        assert objects'[i] == objects[i - 1] && keys'[i] == keys[i - 1];
      }
    }
  }

  /** A new key object for `key`; the key objects made so far are untouched. */
  method NewKeyObject(f: PianoGameObjectFactory, objects: seq<GameObject>, ghost keys: seq<int>, key: int)
    returns (o: GameObject)
    requires |f.qwertyKeys| >= NUM_WHITE_KEYS && OnKeyboard(key)
    requires KeyObjects(f, objects, keys)
    ensures fresh(o) && IsKeyObject(f, o, key)
    ensures KeyObjects(f, objects, keys)
    ensures forall i :: 0 <= i < |objects| ==> objects[i] != o
  {
    o := CreateInstrumentNote(f, key);
  }

  /** One turn of CreateInstrument's loop: a black key is appended, a white key inserted at the front. */
  method PlaceKey(f: PianoGameObjectFactory, objects: seq<GameObject>, key: int)
    returns (objects': seq<GameObject>, next: int, note: GameObject)
    requires |f.qwertyKeys| >= NUM_WHITE_KEYS && OnKeyboard(key)
    requires KeyObjects(f, objects, PlacedKeys(key))
    ensures next == key + 1 && fresh(note) && IsKeyObject(f, note, key)
    ensures objects' == if IsBlackKey(key) then objects + [note] else [note] + objects
    ensures KeyObjects(f, objects', PlacedKeys(next))
  {
    next := key + 1;
    ghost var keys := PlacedKeys(key);
    note := NewKeyObject(f, objects, keys, key);
    ghost var keys';
    // Black keys go after the white keys so that they are drawn on top.
    if IsBlackKey(key) {
      keys' := keys + [key];
      KeyObjectsAppend(f, objects, keys, note, key, keys');
      objects' := objects + [note];
    } else {
      keys' := [key] + keys;
      KeyObjectsPrepend(f, objects, keys, note, key, keys');
      objects' := [note] + objects;
    }
    PlacedKeysNext(key, keys, keys');
  }

  /**
   * CreateInstrument: one key object per piano key, white keys inserted at
   * the front and black keys appended.
   */
  method CreateInstrument(f: PianoGameObjectFactory) returns (result: seq<GameObject>)
    requires |f.qwertyKeys| >= NUM_WHITE_KEYS
    ensures KeyObjects(f, result, InstrumentOrder())
    ensures forall i :: 0 <= i < |result| ==> fresh(result[i])
  {
    AllKeysOnKeyboard();
    result := [];
    var key := PIANO_FIRST_MIDI_KEY;
    while key < PIANO_FIRST_MIDI_KEY + NUM_PIANO_KEYS
      invariant PIANO_FIRST_MIDI_KEY <= key <= PIANO_FIRST_MIDI_KEY + NUM_PIANO_KEYS
      invariant KeyObjects(f, result, PlacedKeys(key))
      invariant forall i :: 0 <= i < |result| ==> fresh(result[i])
    {
      var note;
      result, key, note := PlaceKey(f, result, key);
    }
    PlacedKeysSplit(key);
  }
}
