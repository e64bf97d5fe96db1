/** Keyboard and mouse bookkeeping: the per-frame event list, the held-key
    table, the translation of key presses into typed characters, and the
    bindings from events to script commands. */
module InputEvents {
  import Seqs

  // Key codes and mouse buttons of SDL 1.2, the values the input code and the text box compare against.
  const KeyCount: int := 323        // SDLK_LAST: the size of the held-key table
  const KeyReturn: int := 13
  const KeyKpEnter: int := 271
  const KeyRShift: int := 303
  const KeyLShift: int := 304
  const KeyA: int := 97
  const KeyZ: int := 122
  const Key0: int := 48
  const Key9: int := 57
  const KeyQuote: int := 39
  const KeyComma: int := 44
  const KeyMinus: int := 45
  const KeyPeriod: int := 46
  const KeySlash: int := 47
  const KeySemicolon: int := 59
  const KeyEquals: int := 61
  const KeyLeftBracket: int := 91
  const KeyBackslash: int := 92
  const KeyRightBracket: int := 93
  const KeyBackquote: int := 96
  const KeyEscape: int := 27
  const KeyArrowUp: int := 273
  const KeyArrowDown: int := 274
  const KeyArrowRight: int := 275
  const KeyArrowLeft: int := 276
  const KeyRCtrl: int := 305
  const KeyLCtrl: int := 306
  const KeyRAlt: int := 307
  const KeyLAlt: int := 308
  const KeyRMeta: int := 309
  const KeyLMeta: int := 310
  const KeyLSuper: int := 311
  const KeyRSuper: int := 312

  /** The punctuation keys that have a shifted character of their own. */
  const PunctuationKeys: set<int> :=
    {KeyQuote, KeySemicolon, KeyBackquote, KeyMinus, KeySlash, KeyComma, KeyPeriod,
     KeyBackslash, KeyLeftBracket, KeyRightBracket, KeyEquals}

  const ButtonLeft: int := 1
  const ButtonMiddle: int := 2
  const ButtonRight: int := 3
  const ButtonWheelUp: int := 4
  const ButtonWheelDown: int := 5

  /** What shift turns the digits 0..9 into on an American keyboard. */
  const ShiftedDigits: string := ")!@#$%^&*("

  datatype KeyState = KeyUp | KeyDown | KeyPressed | KeyTyped

  /** Unhandled is the state the handlers test as false. */
  datatype MouseState =
    | Unhandled | MouseMotion
    | MouseLUp | MouseLDown | MouseMUp | MouseMDown | MouseRUp | MouseRDown
    | MouseWUp | MouseWDown

  /** An event in the game's own input model. For a KeyTyped event, key holds
      the typed character. */
  datatype InputEvent =
    | Key(kstate: KeyState, key: int)
    | Mouse(mstate: MouseState, mx: int, my: int)

  /** The events the windowing layer delivers, as far as the input code tells them apart. */
  datatype WindowEvent =
    | QuitRequest
    | KeyPress(key: int)
    | KeyRelease(key: int)
    | Motion(x: int, y: int)
    | ButtonPress(button: int, x: int, y: int)
    | ButtonRelease(button: int, x: int, y: int)
    | OtherEvent

  /** Every key the windowing layer reports indexes the held-key table. */
  predicate KeysInRange(polled: seq<WindowEvent>)
  {
    forall i :: 0 <= i < |polled| ==>
      (polled[i].KeyPress? ==> 0 <= polled[i].key < KeyCount) &&
      (polled[i].KeyRelease? ==> 0 <= polled[i].key < KeyCount)
  }

  /** The mouse state for a button going up or down. Wheel buttons count only
      on release; a wheel press and any unknown button are Unhandled. */
  function CheckMouseState(button: int, up: bool): (s: MouseState)
    ensures s != MouseMotion
    ensures up ==> (s == Unhandled <==> !(ButtonLeft <= button <= ButtonWheelDown))
    ensures !up ==> (s == Unhandled <==> !(ButtonLeft <= button <= ButtonRight))
  {
    if button == ButtonLeft then (if up then MouseLUp else MouseLDown)
    else if button == ButtonMiddle then (if up then MouseMUp else MouseMDown)
    else if button == ButtonRight then (if up then MouseRUp else MouseRDown)
    else if button == ButtonWheelUp then (if up then MouseWUp else Unhandled)
    else if button == ButtonWheelDown then (if up then MouseWDown else Unhandled)
    else Unhandled
  }

  /** The button and direction a handled mouse state came from. */
  function ButtonOf(s: MouseState): (int, bool)
  {
    match s
    case MouseLUp => (ButtonLeft, true)
    case MouseLDown => (ButtonLeft, false)
    case MouseMUp => (ButtonMiddle, true)
    case MouseMDown => (ButtonMiddle, false)
    case MouseRUp => (ButtonRight, true)
    case MouseRDown => (ButtonRight, false)
    case MouseWUp => (ButtonWheelUp, true)
    case MouseWDown => (ButtonWheelDown, true)
    case _ => (0, false)
  }

  /** No two button transitions share a mouse state: the state tells which
      button moved and which way. */
  lemma MouseStateDetermined(button: int, up: bool)
    requires CheckMouseState(button, up) != Unhandled
    ensures ButtonOf(CheckMouseState(button, up)) == (button, up)
  {
  }

  /** What shift turns the punctuation keys into; other keys stay as they are. */
  function ShiftedPunctuation(key: int): (r: int)
    ensures r == key <==> key !in PunctuationKeys
    ensures r != key ==> !(Key0 <= r <= Key9) && !(KeyA <= r <= KeyZ) && 32 < r < 127
  {
    if key == KeyQuote then '"' as int
    else if key == KeySemicolon then ':' as int
    else if key == KeyBackquote then '~' as int
    else if key == KeyMinus then '_' as int
    else if key == KeySlash then '?' as int
    else if key == KeyComma then '<' as int
    else if key == KeyPeriod then '>' as int
    else if key == KeyBackslash then '|' as int
    else if key == KeyLeftBracket then '{' as int
    else if key == KeyRightBracket then '}' as int
    else if key == KeyEquals then '+' as int
    else key
  }

  /** The character a key press types, given whether a shift key is held. */
  function TypedLetter(key: int, shift: bool): (letter: int)
    ensures key == KeyReturn || key == KeyKpEnter ==> letter == '\n' as int
    ensures !shift && key != KeyReturn && key != KeyKpEnter ==> letter == key
    ensures shift && KeyA <= key <= KeyZ ==> 'A' as int <= letter <= 'Z' as int && letter + 32 == key
    ensures shift && Key0 <= key <= Key9 ==> letter == ShiftedDigits[key - Key0] as int
    ensures shift && Key0 <= key <= Key9 ==> !(Key0 <= letter <= Key9)
    ensures shift && key in PunctuationKeys ==> letter == ShiftedPunctuation(key) && letter != key
    ensures shift && key != KeyReturn && key != KeyKpEnter && key !in PunctuationKeys
            && !(KeyA <= key <= KeyZ) && !(Key0 <= key <= Key9)
            ==> letter == key
  {
    var shifted :=
      if !shift then key
      else if KeyA <= key <= KeyZ then key - 32
      else if Key0 <= key <= Key9 then ShiftedDigits[key - Key0] as int
      else ShiftedPunctuation(key);
    if key == KeyReturn || key == KeyKpEnter then '\n' as int else shifted
  }

  /** Is either shift key held? */
  function Shifted(held: seq<bool>): bool
    requires |held| == KeyCount
  {
    held[KeyLShift] || held[KeyRShift]
  }

  /** The events one delivered window event adds to the frame's list. */
  function Translate(e: WindowEvent, held: seq<bool>): seq<InputEvent>
    requires |held| == KeyCount
  {
    match e
    case KeyPress(k) => [Key(KeyDown, k), Key(KeyTyped, TypedLetter(k, Shifted(held)))]
    case KeyRelease(k) => [Key(KeyUp, k)]
    case Motion(x, y) => [Mouse(MouseMotion, x, y)]
    case ButtonPress(b, x, y) =>
      if CheckMouseState(b, false) == Unhandled then [] else [Mouse(CheckMouseState(b, false), x, y)]
    case ButtonRelease(b, x, y) =>
      if CheckMouseState(b, true) == Unhandled then [] else [Mouse(CheckMouseState(b, true), x, y)]
    case _ => []
  }

  /** The held-key table after one delivered window event. */
  function HeldAfter(e: WindowEvent, held: seq<bool>): (r: seq<bool>)
    requires |held| == KeyCount
    requires e.KeyPress? || e.KeyRelease? ==> 0 <= e.key < KeyCount
    ensures |r| == KeyCount
  {
    match e
    case KeyPress(k) => held[k := true]
    case KeyRelease(k) => held[k := false]
    case _ => held
  }

  /** The result of handling a frame's window events. */
  datatype Polled = Polled(events: seq<InputEvent>, held: seq<bool>, quit: bool)

  /** Handles the window events in order, stopping at the first quit request. */
  function Dispatch(polled: seq<WindowEvent>, held0: seq<bool>): (r: Polled)
    requires |held0| == KeyCount && KeysInRange(polled)
    ensures |r.held| == KeyCount
    ensures r.quit <==> QuitRequest in polled
    decreases |polled|
  {
    if polled == [] then Polled([], held0, false)
    else
      var front := polled[..|polled| - 1];
      var e := polled[|polled| - 1];
      assert polled == front + [e];
      var pre := Dispatch(front, held0);
      if pre.quit then pre
      else if e == QuitRequest then Polled(pre.events, pre.held, true)
      else Polled(pre.events + Translate(e, pre.held), HeldAfter(e, pre.held), false)
  }

  /** Nothing after a quit request is handled. */
  lemma {:induction false} DispatchStopsAtQuit(polled: seq<WindowEvent>, held0: seq<bool>, i: nat)
    requires |held0| == KeyCount && KeysInRange(polled) && i <= |polled|
    requires Dispatch(polled[..i], held0).quit
    ensures Dispatch(polled, held0) == Dispatch(polled[..i], held0)
    decreases |polled| - i
  {
    if i < |polled| {
      assert polled[..i + 1][..i] == polled[..i];
      DispatchStopsAtQuit(polled, held0, i + 1);
    } else {
      assert polled[..i] == polled;
    }
  }

  /** One KeyPressed event per held key among the first n, in ascending key order. */
  function HeldUpTo(held: seq<bool>, n: nat): seq<InputEvent>
    requires n <= |held|
  {
    if n == 0 then []
    else HeldUpTo(held, n - 1) + (if held[n - 1] then [Key(KeyPressed, n - 1)] else [])
  }

  /** The KeyPressed events the end of a frame emits for the held keys. */
  function HeldEvents(held: seq<bool>): seq<InputEvent>
  {
    HeldUpTo(held, |held|)
  }

  /** The held-key events are exactly one KeyPressed per held key below n... */
  lemma {:induction false} HeldUpToExact(held: seq<bool>, n: nat, e: InputEvent)
    requires n <= |held|
    ensures e in HeldUpTo(held, n) <==> e.Key? && e.kstate == KeyPressed && 0 <= e.key < n && held[e.key]
  {
    if n > 0 {
      HeldUpToExact(held, n - 1, e);
    }
  }

  /** ...and they come in strictly ascending key order. */
  lemma {:induction false} HeldUpToAscending(held: seq<bool>, n: nat)
    requires n <= |held|
    ensures forall i :: 0 <= i < |HeldUpTo(held, n)| ==>
      HeldUpTo(held, n)[i].Key? && HeldUpTo(held, n)[i].key < n
    ensures forall i, j :: 0 <= i < j < |HeldUpTo(held, n)| ==>
      HeldUpTo(held, n)[i].key < HeldUpTo(held, n)[j].key
  {
    if n > 0 {
      HeldUpToAscending(held, n - 1);
    }
  }

  /** The held-key events of a whole table: exactly the held keys, ascending. */
  lemma HeldEventsExact(held: seq<bool>, e: InputEvent)
    ensures e in HeldEvents(held) <==> e.Key? && e.kstate == KeyPressed && 0 <= e.key < |held| && held[e.key]
    ensures forall i :: 0 <= i < |HeldEvents(held)| ==> HeldEvents(held)[i].Key?
    ensures forall i, j :: 0 <= i < j < |HeldEvents(held)| ==> HeldEvents(held)[i].key < HeldEvents(held)[j].key
  {
    HeldUpToExact(held, |held|, e);
    HeldUpToAscending(held, |held|);
  }

  /** RegisterCallBack's map insert: an existing binding is never replaced. */
  function Registered(m: map<InputEvent, string>, e: InputEvent, command: string): (r: map<InputEvent, string>)
    ensures r.Keys == m.Keys + {e}
    ensures forall k :: k in m ==> r[k] == m[k]
    ensures e !in m ==> r[e] == command
  {
    if e in m then m else m[e := command]
  }

  /** UnRegisterCallBack's map erase. */
  function Unregistered(m: map<InputEvent, string>, e: InputEvent): (r: map<InputEvent, string>)
    ensures r.Keys == m.Keys - {e}
    ensures forall k :: k in r ==> r[k] == m[k]
  {
    m - {e}
  }

  /** Unregistering an event that was just registered afresh restores the bindings. */
  lemma UnregisterUndoesRegister(m: map<InputEvent, string>, e: InputEvent, command: string)
    requires e !in m
    ensures Unregistered(Registered(m, e, command), e) == m
  {
  }

  /** The events without a binding, in order. */
  function Unbound(events: seq<InputEvent>, m: map<InputEvent, string>): seq<InputEvent>
  {
    Seqs.Filter(events, e => e !in m)
  }

  /** The commands bound to the events, one per bound event, in event order. */
  function BoundCommands(events: seq<InputEvent>, m: map<InputEvent, string>): seq<string>
  {
    if events == [] then []
    else (if events[0] in m then [m[events[0]]] else []) + BoundCommands(events[1..], m)
  }

  lemma {:induction false} BoundCommandsAppend(a: seq<InputEvent>, b: seq<InputEvent>, m: map<InputEvent, string>)
    ensures BoundCommands(a + b, m) == BoundCommands(a, m) + BoundCommands(b, m)
  {
    if a == [] {
      assert a + b == b;
    } else {
      assert (a + b)[0] == a[0];
      assert (a + b)[1..] == a[1..] + b;
      BoundCommandsAppend(a[1..], b, m);
    }
  }

  /** Every event is either kept (unbound) or runs exactly one command (bound). */
  lemma {:induction false} CallBacksPartition(events: seq<InputEvent>, m: map<InputEvent, string>)
    ensures |Unbound(events, m)| + |BoundCommands(events, m)| == |events|
  {
    if events != [] {
      CallBacksPartition(events[1..], m);
    }
  }

  /** One more event of the list: it is either kept or runs its command. */
  lemma CallBackStep(list: seq<InputEvent>, j: nat, m: map<InputEvent, string>)
    requires j < |list|
    ensures Unbound(list[..j + 1], m) == Unbound(list[..j], m) + (if list[j] in m then [] else [list[j]])
    ensures BoundCommands(list[..j + 1], m) == BoundCommands(list[..j], m) + (if list[j] in m then [m[list[j]]] else [])
  {
    assert list[..j + 1] == list[..j] + [list[j]];
    Seqs.FilterAppend(list[..j], [list[j]], e => e !in m);
    BoundCommandsAppend(list[..j], [list[j]], m);
  }

  /** The list with every copy of the trigger removed (list::remove). */
  function Without(events: seq<InputEvent>, trigger: InputEvent): seq<InputEvent>
  {
    Seqs.Filter(events, e => e != trigger)
  }

  /** After removal the trigger is gone and every other event occurs as often
      as before; removal distributes over concatenation, so order is kept. */
  lemma WithoutSpec(events: seq<InputEvent>, trigger: InputEvent, x: InputEvent, rest: seq<InputEvent>)
    ensures trigger !in Without(events, trigger)
    ensures x != trigger ==> multiset(Without(events, trigger))[x] == multiset(events)[x]
    ensures Without(events + rest, trigger) == Without(events, trigger) + Without(rest, trigger)
  {
    Seqs.FilterMember(events, e => e != trigger, trigger);
    Seqs.FilterCount(events, e => e != trigger, x);
    Seqs.FilterAppend(events, rest, e => e != trigger);
  }

  /** Removing an event that does not occur changes nothing. */
  lemma {:induction false} WithoutAbsent(events: seq<InputEvent>, trigger: InputEvent)
    requires trigger !in events
    ensures Without(events, trigger) == events
  {
    if events != [] {
      WithoutAbsent(events[1..], trigger);
    }
  }

  /** The input processor: the frame's event list, the held-key table, the
      script bindings, and the commands handed to the script runner so far. */
  class Input {
    var events: seq<InputEvent>
    const heldKeys: array<bool>
    var eventMappings: map<InputEvent, string>
    var ran: seq<string>

    ghost predicate Valid()
      reads this
    {
      heldKeys.Length == KeyCount
    }

    constructor ()
      ensures Valid() && fresh(heldKeys)
      ensures events == [] && eventMappings == map[] && ran == []
      ensures forall k :: 0 <= k < KeyCount ==> !heldKeys[k]
    {
      events := [];
      heldKeys := new bool[KeyCount](_ => false);
      eventMappings := map[];
      ran := [];
    }

    /** Appends the KeyTyped event for a key press, shifted if a shift key is held. */
    method PushTypeEvent(key: int)
      requires Valid()
      ensures Valid()
      modifies this`events
      ensures events == old(events) + [Key(KeyTyped, TypedLetter(key, Shifted(heldKeys[..])))]
    {
      var shift := heldKeys[KeyLShift] || heldKeys[KeyRShift];
      var letter := key;
      if shift {
        if KeyA <= key <= KeyZ {
          letter := letter - 32;
        } else if Key0 <= key <= Key9 {
          letter := ShiftedDigits[key - Key0] as int;
        } else {
          letter := ShiftedPunctuation(key);
        }
      }
      if key == KeyReturn || key == KeyKpEnter {
        letter := '\n' as int;
      }
      events := events + [Key(KeyTyped, letter)];
    }

    /** A key goes down: KeyDown, then the typed character, then the key is held. */
    method HandleKeyDown(key: int)
      requires Valid() && 0 <= key < KeyCount
      ensures Valid()
      modifies this`events, heldKeys
      ensures events == old(events) + Translate(KeyPress(key), old(heldKeys[..]))
      ensures heldKeys[..] == HeldAfter(KeyPress(key), old(heldKeys[..]))
    {
      events := events + [Key(KeyDown, key)];
      PushTypeEvent(key);
      heldKeys[key] := true;
    }

    /** A key goes up: KeyUp, and the key is no longer held. */
    method HandleKeyUp(key: int)
      requires Valid() && 0 <= key < KeyCount
      ensures Valid()
      modifies this`events, heldKeys
      ensures events == old(events) + Translate(KeyRelease(key), old(heldKeys[..]))
      ensures heldKeys[..] == HeldAfter(KeyRelease(key), old(heldKeys[..]))
    {
      events := events + [Key(KeyUp, key)];
      heldKeys[key] := false;
    }

    /** A mouse button goes down; nothing is recorded for an unhandled button. */
    method HandleMouseDown(button: int, x: int, y: int)
      requires Valid()
      ensures Valid()
      modifies this`events
      ensures events == old(events) + Translate(ButtonPress(button, x, y), heldKeys[..])
    {
      var state := CheckMouseState(button, false);
      if state != Unhandled {
        events := events + [Mouse(state, x, y)];
      }
    }

    /** A mouse button goes up; nothing is recorded for an unhandled button. */
    method HandleMouseUp(button: int, x: int, y: int)
      requires Valid()
      ensures Valid()
      modifies this`events
      ensures events == old(events) + Translate(ButtonRelease(button, x, y), heldKeys[..])
    {
      var state := CheckMouseState(button, true);
      if state != Unhandled {
        events := events + [Mouse(state, x, y)];
      }
    }

    /** The mouse moved. */
    method HandleMouseMotion(x: int, y: int)
      requires Valid()
      ensures Valid()
      modifies this`events
      ensures events == old(events) + Translate(Motion(x, y), heldKeys[..])
    {
      events := events + [Mouse(MouseMotion, x, y)];
    }

    /** One frame: clear the list, handle the window events in order, then add a
        KeyPressed event for every held key in ascending key order. A quit
        request ends the program, reported here by `quit`. */
    method Update(polled: seq<WindowEvent>) returns (result: seq<InputEvent>, quit: bool)
      requires Valid() && KeysInRange(polled)
      ensures Valid()
      modifies this`events, heldKeys
      ensures quit <==> QuitRequest in polled
      ensures heldKeys[..] == Dispatch(polled, old(heldKeys[..])).held
      ensures !quit ==> result == events == Dispatch(polled, old(heldKeys[..])).events + HeldEvents(heldKeys[..])
    {
      ghost var held0 := heldKeys[..];
      events := [];
      quit := false;
      var i := 0;
      assert polled[..0] == [];
      while i < |polled| && !quit
        invariant 0 <= i <= |polled|
        invariant Dispatch(polled[..i], held0) == Polled(events, heldKeys[..], quit)
      {
        var e := polled[i];
        assert polled[..i + 1] == polled[..i] + [e];
        assert polled[..i + 1][..i] == polled[..i];
        match e {
          case QuitRequest => quit := true;
          case KeyPress(k) => HandleKeyDown(k);
          case KeyRelease(k) => HandleKeyUp(k);
          case Motion(x, y) => HandleMouseMotion(x, y);
          case ButtonRelease(b, x, y) => HandleMouseUp(b, x, y);
          case ButtonPress(b, x, y) => HandleMouseDown(b, x, y);
          case OtherEvent =>
        }
        i := i + 1;
      }
      if quit {
        DispatchStopsAtQuit(polled, held0, i);
        assert Dispatch(polled, held0).held == heldKeys[..];
        result := events;
        return;
      }
      assert polled[..i] == polled;
      ghost var dispatched := events;
      var k := 0;
      while k < KeyCount
        invariant 0 <= k <= KeyCount
        invariant events == dispatched + HeldUpTo(heldKeys[..], k)
        invariant heldKeys[..] == Dispatch(polled, held0).held
      {
        if heldKeys[k] {
          events := events + [Key(KeyPressed, k)];
        }
        k := k + 1;
      }
      result := events;
    }

    /** Binds a command to an event unless the event is already bound. */
    method RegisterCallBack(e: InputEvent, command: string)
      modifies this`eventMappings
      ensures eventMappings == Registered(old(eventMappings), e, command)
    {
      if e !in eventMappings {
        eventMappings := eventMappings[e := command];
      }
    }

    /** Removes an event's binding, if any. */
    method UnRegisterCallBack(e: InputEvent)
      modifies this`eventMappings
      ensures eventMappings == Unregistered(old(eventMappings), e)
    {
      eventMappings := eventMappings - {e};
    }

    /** Runs the command bound to each bound event, in order, and erases those
        events from the list; the unbound events are kept in order. */
    method HandleLuaCallBacks(list: seq<InputEvent>) returns (kept: seq<InputEvent>)
      modifies this`ran
      ensures kept == Unbound(list, eventMappings)
      ensures ran == old(ran) + BoundCommands(list, eventMappings)
    {
      var m := eventMappings;
      kept := list;
      var i := 0;
      ghost var j := 0;
      assert list[..0] == [];
      while i < |kept|
        invariant 0 <= i <= |kept| && 0 <= j <= |list|
        invariant kept[..i] == Unbound(list[..j], m)
        invariant kept[i..] == list[j..]
        invariant ran == old(ran) + BoundCommands(list[..j], m)
        decreases |kept| - i
      {
        var e := kept[i];
        assert e == list[j] by {
          assert kept[i..][0] == list[j..][0];
        }
        CallBackStep(list, j, m);
        if e in m {
          ran := ran + [m[e]];
          ghost var before := kept;
          kept := kept[..i] + kept[i + 1..];
          assert kept[..i] == before[..i];
          assert kept[i..] == before[i + 1..];
        } else {
          i := i + 1;
        }
        j := j + 1;
      }
      assert list[..j] == list;
    }

    /** Does the trigger occur in the list? The list is not changed. */
    static method SearchSpecificEvent(list: seq<InputEvent>, trigger: InputEvent) returns (found: bool)
      ensures found <==> trigger in list
    {
      var i := 0;
      while i < |list|
        invariant 0 <= i <= |list|
        invariant trigger !in list[..i]
      {
        if list[i] == trigger {
          return true;
        }
        i := i + 1;
      }
      assert list[..i] == list;
      return false;
    }

    /** Searches for the trigger and, when found, removes every copy of it. */
    static method HandleSpecificEvent(list: seq<InputEvent>, trigger: InputEvent) returns (found: bool, rest: seq<InputEvent>)
      ensures found <==> trigger in list
      ensures rest == Without(list, trigger)
      ensures trigger !in rest
    {
      found := SearchSpecificEvent(list, trigger);
      if found {
        rest := Without(list, trigger);
        WithoutSpec(list, trigger, trigger, []);
      } else {
        rest := list;
        WithoutAbsent(list, trigger);
      }
    }
  }
}
