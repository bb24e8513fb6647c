/** The keyboard: scan codes go through a control-key state machine into a queue of characters. */
module KeyboardModel {
  import opened Common

  const BUFFER_SIZE: nat := 1024
  const CONTROL_KEY: nat := 0x1D
  const EMPTY: byte := 0xFF

  /** `char_hex_map`, row by row of the keyboard. */
  function KeyByte(key: nat): byte {
    if key < 15 then DigitRow()[key]
    else if key < 29 then UpperRow()[key - 15]
    else if key < 41 then HomeRow()[key - 29]
    else if key < 58 then LowerRow()[key - 41]
    else if key == 0x48 then 0x55
    else if key == 0x4B then 0x4C
    else if key == 0x4D then 0x52
    else if key == 0x50 then 0x44
    else 0
  }

  function DigitRow(): (t: seq<byte>)
    ensures |t| == 15
  {
    [0, 0, 0x31, 0x32, 0x33, 0x34, 0x35, 0x36, 0x37, 0x38, 0x39, 0x30, 0x2D, 0x3D, 0x7F]
  }

  function UpperRow(): (t: seq<byte>)
    ensures |t| == 14
  {
    [0x09, 0x71, 0x77, 0x65, 0x72, 0x74, 0x79, 0x75, 0x69, 0x6F, 0x70, 0x5B, 0x5D, 0x0A]
  }

  function HomeRow(): (t: seq<byte>)
    ensures |t| == 12
  {
    [0x7C, 0x61, 0x73, 0x64, 0x66, 0x67, 0x68, 0x6A, 0x6B, 0x6C, 0x3B, 0x22]
  }

  function LowerRow(): (t: seq<byte>)
    ensures |t| == 17
  {
    [0, 0, 0x5C, 0x7A, 0x78, 0x63, 0x76, 0x62, 0x6E, 0x6D, 0x2C, 0x2E, 0x2F, 0, 0x2A, 0, 0x20]
  }

  /** What a key does right after the control key: end of file, ampersand or pipe. */
  function ControlByte(key: nat): Option<byte> {
    if key == 0x20 then Some(0xFE)
    else if key == 0x07 then Some(0x26)
    else if key == 0x02 then Some(0x7C)
    else None
  }

  const KILL_KEY: nat := 0x2E

  /** The character a key produces, given whether the control key was the one before. */
  function Produces(ctrl: bool, key: nat): Option<byte> {
    if key == CONTROL_KEY || (ctrl && key == KILL_KEY) then None
    else if ctrl && ControlByte(key).Some? then ControlByte(key)
    else if key < 0x53 then Some(KeyByte(key))
    else None
  }

  /** Control-C. */
  predicate Kills(ctrl: bool, key: nat) {
    ctrl && key == KILL_KEY
  }

  /** The characters not yet read, and the flag `ctrl_pressed`. */
  datatype State = State(queue: seq<byte>, ctrl: bool)

  /** `keyboard_handler`: a character is dropped when the queue is full. */
  function Press(s: State, key: nat): State {
    var b := Produces(s.ctrl, key);
    State(if b.Some? && |s.queue| < BUFFER_SIZE then s.queue + [b.value] else s.queue, key == CONTROL_KEY)
  }

  /** `get_first_char`. */
  function Take(s: State): State {
    if s.queue == [] then s else s.(queue := s.queue[1..])
  }

  function Taken(s: State): byte {
    if s.queue == [] then EMPTY else s.queue[0]
  }

  // ----- every run -----

  datatype Event = Key(code: nat) | Read

  /** A run: the state, the characters accepted and delivered so far, and how often the processes were killed. */
  datatype Run = Run(state: State, accepted: seq<byte>, delivered: seq<byte>, kills: nat)

  function Step(r: Run, e: Event): Run {
    match e
    case Key(code) =>
      var s := Press(r.state, code);
      Run(s, if |s.queue| > |r.state.queue| then r.accepted + [Produces(r.state.ctrl, code).value] else r.accepted,
          r.delivered, r.kills + if Kills(r.state.ctrl, code) then 1 else 0)
    case Read =>
      var delivered := if r.state.queue == [] then r.delivered else r.delivered + [Taken(r.state)];
      Run(Take(r.state), r.accepted, delivered, r.kills)
  }

  function Exec(events: seq<Event>): Run {
    if events == [] then Run(State([], false), [], [], 0) else Step(Exec(events[..|events| - 1]), events[|events| - 1])
  }

  /** The key pressed last, whatever was read since. */
  function LastKey(events: seq<Event>): Option<nat> {
    if events == [] then None
    else match events[|events| - 1]
      case Key(code) => Some(code)
      case Read => LastKey(events[..|events| - 1])
  }

  /** In every run the flag is set exactly while the control key was the last one. */
  lemma {:induction false} ControlIsLastKey(events: seq<Event>)
    ensures Exec(events).state.ctrl <==> LastKey(events) == Some(CONTROL_KEY)
  {
    if events != [] {
      ControlIsLastKey(events[..|events| - 1]);
    }
  }

  /** In every run the characters come out in the order they went in, none lost or repeated, and at most 1024 wait. */
  lemma {:induction false} CharactersKeepOrder(events: seq<Event>)
    ensures var r := Exec(events); r.delivered + r.state.queue == r.accepted && |r.state.queue| <= BUFFER_SIZE
  {
    if events != [] {
      var before := Exec(events[..|events| - 1]);
      CharactersKeepOrder(events[..|events| - 1]);
      match events[|events| - 1]
      case Key(code) =>
      case Read =>
        if before.state.queue != [] {
          assert before.state.queue == [before.state.queue[0]] + before.state.queue[1..];
        }
    }
  }

  /** The characters the keys of a run stand for, each key taken with the key before it. */
  function Meaning(events: seq<Event>): seq<byte> {
    if events == [] then []
    else
      var before := events[..|events| - 1];
      match events[|events| - 1]
      case Key(code) =>
        var b := Produces(LastKey(before) == Some(CONTROL_KEY), code);
        if b.Some? then Meaning(before) + [b.value] else Meaning(before)
      case Read => Meaning(before)
  }

  /** No key that produces a character met a full queue. */
  predicate NothingDropped(events: seq<Event>) {
    events != [] ==>
      var before := events[..|events| - 1];
      && NothingDropped(before)
      && match events[|events| - 1]
         case Key(code) => Produces(Exec(before).state.ctrl, code).Some? ==> |Exec(before).state.queue| < BUFFER_SIZE
         case Read => true
  }

  /** What is typed is accepted up to the first character that meets a full queue; from then on something is missing. */
  lemma {:induction false} AcceptedSoFar(events: seq<Event>)
    ensures if NothingDropped(events) then Exec(events).accepted == Meaning(events)
            else |Exec(events).accepted| < |Meaning(events)|
  {
    if events != [] {
      AcceptedSoFar(events[..|events| - 1]);
      ControlIsLastKey(events[..|events| - 1]);
    }
  }

  /** Everything typed is accepted if and only if no key that produces a character met a full queue. */
  lemma TypedIsAccepted(events: seq<Event>)
    ensures Exec(events).accepted == Meaning(events) <==> NothingDropped(events)
  {
    AcceptedSoFar(events);
  }

  // ----- which characters -----

  /** What is printed on the key, with letters for the arrows; zero for a key below 0x53 with nothing printed on it. */
  function Legend(key: nat): char {
    if 0x02 <= key < 0x0E then "1234567890-="[key - 0x02]
    else if 0x10 <= key < 0x1C then "qwertyuiop[]"[key - 0x10]
    else if 0x1E <= key < 0x29 then "asdfghjkl;\""[key - 0x1E]
    else if 0x2B <= key < 0x36 then "\\zxcvbnm,./"[key - 0x2B]
    else match key
      case 0x0E => '\U{7F}'
      case 0x0F => '\t'
      case 0x1C => '\n'
      case 0x37 => '*'
      case 0x39 => ' '
      case 0x48 => 'U'
      case 0x4B => 'L'
      case 0x4D => 'R'
      case 0x50 => 'D'
      case _ => '\0'
  }

  /** The characters a key press adds, given the key before it. */
  function Typed(last: Option<nat>, key: nat): seq<int> {
    if key == 0x1D then []
    else if last == Some(0x1D) && key == 0x2E then []
    else if last == Some(0x1D) && key == 0x20 then [0xFE]
    else if last == Some(0x1D) && key == 0x07 then ['&' as int]
    else if last == Some(0x1D) && key == 0x02 then ['|' as int]
    else if key < 0x53 then [Legend(key) as int]
    else []
  }

  lemma LegendIs(key: nat)
    requires key < 0x53 && key != 0x1D
    ensures KeyByte(key) == Legend(key) as int
  {
    if key < 15 {
      DigitLegend(key);
    } else if key < 29 {
      UpperLegend(key);
    } else if key < 41 {
      HomeLegend(key);
    } else if key < 58 {
      LowerLegend(key);
    }
  }

  lemma DigitLegend(key: nat)
    requires key < 15
    ensures DigitRow()[key] == Legend(key) as int
  {
  }

  lemma UpperLegend(key: nat)
    requires 15 <= key < 29
    ensures UpperRow()[key - 15] == Legend(key) as int
  {
  }

  lemma HomeLegend(key: nat)
    requires 29 < key < 41
    ensures HomeRow()[key - 29] == Legend(key) as int
  {
  }

  lemma LowerLegend(key: nat)
    requires 41 <= key < 58
    ensures LowerRow()[key - 41] == Legend(key) as int
  {
  }

  /**
    In every run a key adds to the accepted characters the one on its legend, or end of file, ampersand or pipe right
    after the control key, unless 1024 characters are waiting.
   */
  lemma KeysType(events: seq<Event>, key: nat)
    ensures var r := Exec(events);
            Exec(events + [Key(key)]).accepted ==
            r.accepted + if |r.state.queue| < 1024 then Typed(LastKey(events), key) else []
  {
    assert (events + [Key(key)])[..|events|] == events;
    ControlIsLastKey(events);
    if key < 0x53 && key != 0x1D {
      LegendIs(key);
    }
  }

  /** Processes are killed by a key exactly if it is C right after the control key. */
  lemma {:induction false} KillsExactly(events: seq<Event>, key: nat)
    ensures Exec(events + [Key(key)]).kills > Exec(events).kills <==>
            LastKey(events) == Some(CONTROL_KEY) && key == KILL_KEY
  {
    ControlIsLastKey(events);
    assert (events + [Key(key)])[..|events|] == events;
  }
}

/** The keyboard as the kernel keeps it: a ring whose write index may rest one past its last cell. */
module KeyboardDevice {
  import opened Common
  import opened KeyboardModel
  import Ring

  /** After the wrap the write index is the first free cell, and moves on to the next one. */
  lemma WriteCell(read: nat, count: nat, write: nat)
    requires read < BUFFER_SIZE && count < BUFFER_SIZE && write <= BUFFER_SIZE
    requires write % BUFFER_SIZE == (read + count) % BUFFER_SIZE
    ensures var w := if write >= BUFFER_SIZE then 0 else write;
            w == (read + count) % BUFFER_SIZE && (w + 1) % BUFFER_SIZE == (read + (count + 1)) % BUFFER_SIZE
  {
    Ring.WrapSmall(BUFFER_SIZE, write);
    Ring.FreeCellAfterPush(BUFFER_SIZE, read, count);
  }

  class Keyboard {
    const buffer: array<byte>
    var qElements: nat
    var readIndex: nat
    var writeIndex: nat
    var ctrlPressed: bool

    ghost predicate Valid()
      reads this, buffer
    {
      && buffer.Length == BUFFER_SIZE && qElements <= BUFFER_SIZE && readIndex < BUFFER_SIZE &&
         writeIndex <= BUFFER_SIZE
      && writeIndex % BUFFER_SIZE == (readIndex + qElements) % BUFFER_SIZE
    }

    ghost function Model(): State
      requires Valid()
      reads this, buffer
    {
      State(Ring.Cells(buffer[..], readIndex, qElements), ctrlPressed)
    }

    constructor ()
      ensures Valid() && fresh(buffer) && Model() == State([], false)
    {
      buffer := new byte[BUFFER_SIZE](_ => 0);
      qElements, readIndex, writeIndex, ctrlPressed := 0, 0, 0, false;
    }

    /** The end of `keyboard_handler`: one character goes into the ring, if there is room. */
    method PutByte(b: byte)
      requires Valid()
      modifies this`qElements, this`writeIndex, buffer
      ensures Valid()
      ensures Model() == if |old(Model()).queue| < BUFFER_SIZE then old(Model()).(queue := old(Model()).queue + [b])
                         else old(Model())
    {
      if qElements >= BUFFER_SIZE {
        return;
      }
      WriteCell(readIndex, qElements, writeIndex);
      if writeIndex >= BUFFER_SIZE {
        writeIndex := 0;
      }
      Ring.Push(buffer[..], readIndex, qElements, b);
      ghost var was := buffer[..];
      buffer[writeIndex] := b;
      assert buffer[..] == was[writeIndex := b];
      qElements := qElements + 1;
      writeIndex := writeIndex + 1;
    }

    /** `keyboard_handler`; `killed` says that all processes are to be killed. */
    method Handle(key: nat) returns (killed: bool)
      requires Valid()
      modifies this`qElements, this`writeIndex, this`ctrlPressed, buffer
      ensures Valid() && Model() == Press(old(Model()), key)
      ensures killed == Kills(old(ctrlPressed), key)
    {
      var special: byte := 0;
      killed := false;
      if key == 0x1D {
        ctrlPressed := true;
        return;
      } else if ctrlPressed && key == 0x2E {
        ctrlPressed := false;
        return true;
      } else if ctrlPressed && key == 0x20 {
        special := 0xFE;
        ctrlPressed := false;
      } else if ctrlPressed && key == 0x07 {
        special := 0x26;
        ctrlPressed := false;
      } else if ctrlPressed && key == 0x02 {
        special := 0x7C;
        ctrlPressed := false;
      } else {
        ctrlPressed := false;
      }
      if key < 0x53 || special != 0 {
        PutByte(if special == 0 then KeyByte(key) else special);
      }
    }

    /** `get_first_char`. */
    method GetFirstChar() returns (b: byte)
      requires Valid()
      modifies this`qElements, this`readIndex
      ensures Valid() && b == Taken(old(Model())) && Model() == Take(old(Model()))
    {
      if qElements == 0 {
        return EMPTY;
      }
      Ring.Pop(buffer[..], readIndex, qElements);
      Ring.FreeCellAfterPop(BUFFER_SIZE, readIndex, qElements);
      Ring.WrapSmall(BUFFER_SIZE, readIndex + 1);
      b := buffer[readIndex];
      qElements := qElements - 1;
      readIndex := readIndex + 1;
      if readIndex == BUFFER_SIZE {
        readIndex := 0;
      }
    }
  }
}
