/** Event translation of the SDL adapter: the keycode translation table, which
    is sorted once when the hardware layer starts and then searched with a
    binary search for every keyboard event, the joystick hat mapping, and the
    dispatch from SDL event types to the library's events. Windows are known by
    the identifiers SDL reports; the registry of open windows is a map. */
module Keyboard {
  import opened Wrappers

  /** The library's key codes; Unknown is KeyCode::Unknown. */
  datatype KeyCode = Unknown | Key(code: nat)

  /** One entry of translationTable: an SDL keycode and the library's key code. */
  datatype Entry = Entry(from: nat, to: KeyCode)

  /** SDLK_UNKNOWN, the smallest SDL keycode. */
  const SDLK_UNKNOWN: nat := 0

  // ---------------------------------------------------------------------------
  // Sorting the table
  // ---------------------------------------------------------------------------

  /** Ascending by SDL keycode, as the three-way comparator given to qsort orders it. */
  predicate SortedByFrom(t: seq<Entry>)
  {
    forall a, b :: 0 <= a < b < |t| ==> t[a].from <= t[b].from
  }

  /** Each SDL keycode appears at most once. */
  predicate DistinctFrom(t: seq<Entry>)
  {
    forall a, b :: 0 <= a < b < |t| ==> t[a].from != t[b].from
  }

  /** The index of an entry with the smallest keycode among t[lo..]. */
  method MinFrom(t: array<Entry>, lo: nat) returns (m: nat)
    requires lo < t.Length
    ensures lo <= m < t.Length
    ensures forall b :: lo <= b < t.Length ==> t[m].from <= t[b].from
  {
    m := lo;
    var j := lo + 1;
    while j < t.Length
      invariant lo <= m < j <= t.Length
      invariant forall b :: lo <= b < j ==> t[m].from <= t[b].from
    {
      if t[j].from < t[m].from {
        m := j;
      }
      j := j + 1;
    }
  }

  /** The sort in HW::HW. The C++ code calls qsort with a comparator on the
      keycodes; this selection sort meets qsort's contract: the table ends
      ascending by keycode and holds the same entries. */
  method SortTranslationTable(t: array<Entry>)
    modifies t
    ensures SortedByFrom(t[..])
    ensures multiset(t[..]) == multiset(old(t[..]))
  {
    var i := 0;
    while i < t.Length
      invariant 0 <= i <= t.Length
      invariant forall a, b :: 0 <= a < b < i ==> t[a].from <= t[b].from
      invariant forall a, b :: 0 <= a < i <= b < t.Length ==> t[a].from <= t[b].from
      invariant multiset(t[..]) == multiset(old(t[..]))
    {
      var m := MinFrom(t, i);
      t[i], t[m] := t[m], t[i];
      i := i + 1;
    }
  }

  /** A sorted table with no repeated keycode is strictly ascending. */
  lemma SortedDistinctIsStrict(t: seq<Entry>)
    requires SortedByFrom(t) && DistinctFrom(t)
    ensures forall a, b :: 0 <= a < b < |t| ==> t[a].from < t[b].from
  {
  }

  /** A sorted table that holds an SDLK_UNKNOWN entry starts with one, so its
      first keycode is at most any key an event can carry. */
  lemma SortedStartsAtUnknown(t: seq<Entry>, i: nat)
    requires SortedByFrom(t) && i < |t| && t[i].from == SDLK_UNKNOWN
    ensures t[0].from == SDLK_UNKNOWN
  {
  }

  // ---------------------------------------------------------------------------
  // Looking a key up
  // ---------------------------------------------------------------------------

  /** Reference lookup: the code of the first entry for key, Unknown when there is none. */
  function Translate(t: seq<Entry>, key: nat): (k: KeyCode)
  {
    if t == [] then Unknown
    else if t[0].from == key then t[0].to
    else Translate(t[1..], key)
  }

  /** The reference lookup finds the entry for key when there is one and gives Unknown otherwise. */
  lemma {:induction false} TranslateSpec(t: seq<Entry>, key: nat)
    requires DistinctFrom(t)
    ensures forall i :: 0 <= i < |t| && t[i].from == key ==> Translate(t, key) == t[i].to
    ensures (forall i :: 0 <= i < |t| ==> t[i].from != key) ==> Translate(t, key) == Unknown
  {
    if t != [] {
      TranslateSpec(t[1..], key);
      assert forall i :: 1 <= i < |t| ==> t[1..][i - 1] == t[i];
    }
  }

  /** The binary search of translateKeyboardEvent. low and high are size_t in
      the C++ code: high = midpoint - 1 would wrap around at midpoint 0, which
      the first entry's keycode being at most key rules out (the search only
      moves high below an entry whose keycode exceeds key). */
  method SearchKey(t: seq<Entry>, key: nat) returns (k: KeyCode)
    requires |t| >= 1 && SortedByFrom(t) && DistinctFrom(t) && t[0].from <= key
    ensures k == Translate(t, key)
  {
    TranslateSpec(t, key);
    var low, high: nat := 0, |t| - 1;
    k := Unknown;
    while low <= high
      invariant high < |t| && low <= high + 1
      invariant forall i :: 0 <= i < low ==> t[i].from < key
      invariant forall i :: high < i < |t| ==> t[i].from > key
      decreases high + 1 - low
    {
      var midpoint := low + (high - low) / 2;
      if key == t[midpoint].from {
        k := t[midpoint].to;
        return;
      } else if key < t[midpoint].from {
        high := midpoint - 1;
      } else {
        low := midpoint + 1;
      }
    }
  }

  // ---------------------------------------------------------------------------
  // SDL events and the library's events
  // ---------------------------------------------------------------------------

  datatype ButtonState = Pressed | Released

  /** The nine hat positions of the library. */
  datatype HatPosition = LeftUp | Up | RightUp | Left | Centered | Right | LeftDown | Down | RightDown

  /** SDL_HAT_* bit patterns: up 1, right 2, down 4, left 8, and their corner combinations. */
  const SDL_HAT_CENTERED: nat := 0x00
  const SDL_HAT_UP: nat := 0x01
  const SDL_HAT_RIGHT: nat := 0x02
  const SDL_HAT_DOWN: nat := 0x04
  const SDL_HAT_LEFT: nat := 0x08
  const SDL_HAT_RIGHTUP: nat := 0x03
  const SDL_HAT_RIGHTDOWN: nat := 0x06
  const SDL_HAT_LEFTUP: nat := 0x09
  const SDL_HAT_LEFTDOWN: nat := 0x0C

  /** The switch in translateJoyHatMotionEvent; None for a value it has no case for. */
  function HatPositionOf(value: nat): (r: Option<HatPosition>)
    ensures r.Some? ==> HatValueOf(r.value) == value
  {
    if value == SDL_HAT_LEFTUP then Some(LeftUp)
    else if value == SDL_HAT_UP then Some(Up)
    else if value == SDL_HAT_RIGHTUP then Some(RightUp)
    else if value == SDL_HAT_LEFT then Some(Left)
    else if value == SDL_HAT_CENTERED then Some(Centered)
    else if value == SDL_HAT_RIGHT then Some(Right)
    else if value == SDL_HAT_LEFTDOWN then Some(LeftDown)
    else if value == SDL_HAT_DOWN then Some(Down)
    else if value == SDL_HAT_RIGHTDOWN then Some(RightDown)
    else None
  }

  /** The SDL value of each hat position. */
  function HatValueOf(p: HatPosition): nat
  {
    match p
    case LeftUp => SDL_HAT_LEFTUP
    case Up => SDL_HAT_UP
    case RightUp => SDL_HAT_RIGHTUP
    case Left => SDL_HAT_LEFT
    case Centered => SDL_HAT_CENTERED
    case Right => SDL_HAT_RIGHT
    case LeftDown => SDL_HAT_LEFTDOWN
    case Down => SDL_HAT_DOWN
    case RightDown => SDL_HAT_RIGHTDOWN
  }

  /** The nine SDL hat values and the nine positions correspond one to one
      (the other direction is the postcondition of HatPositionOf). */
  lemma HatBijection(value: nat, p: HatPosition)
    ensures HatPositionOf(HatValueOf(p)) == Some(p)
    ensures HatPositionOf(value).Some? <==>
      value in {SDL_HAT_CENTERED, SDL_HAT_UP, SDL_HAT_RIGHT, SDL_HAT_DOWN, SDL_HAT_LEFT,
                SDL_HAT_RIGHTUP, SDL_HAT_RIGHTDOWN, SDL_HAT_LEFTUP, SDL_HAT_LEFTDOWN}
  {
  }

  /** The SDL event types the dispatch distinguishes; any other type code is OtherType. */
  datatype SdlEventType =
    | KeyUp | KeyDown | MouseButtonDown | MouseButtonUp | MouseMotion | MouseWheel
    | JoystickAxisMotion | JoystickHatMotion | JoystickButtonDown | JoystickButtonUp
    | TextInput | WindowResized | WindowCloseRequested | Quit | OtherType(code: nat)

  /** The fields of an SDL event the translators read (the C++ event is a union of per-type records). */
  datatype SdlEvent = SdlEvent(
    kind: SdlEventType,
    windowID: nat,
    repeat: bool,
    down: bool,
    mod: nat,
    key: nat,
    which: nat,
    index: nat,
    value: nat)

  /** The window-bound events whose payload (coordinates, text, sizes) is copied field by field. */
  datatype WindowEventKind = MouseButtonKind | MouseMotionKind | MouseWheelKind | TextInputKind | ResizedKind | ClosedKind

  /** The library events the dispatch produces. A hat event whose value has no
      case leaves the position unwritten (None). The joystick axis value is
      float arithmetic and is not modelled. */
  datatype Event =
    | KeyboardEvent(wsrc: nat, state: ButtonState, mod: nat, key: KeyCode)
    | WindowBoundEvent(kind: WindowEventKind, wsrc: nat)
    | JoystickMotionEvent(joystickId: nat, axis: nat)
    | JoystickHatMotionEvent(joystickId: nat, hatId: nat, position: Option<HatPosition>)
    | JoystickButtonEvent(joystickId: nat, button: nat, buttonState: ButtonState)
    | QuitEvent

  function StateOf(down: bool): ButtonState
  {
    if down then Pressed else Released
  }

  /** translateKeyboardEvent: repeats and events for unknown windows are
      dropped (false, None here); otherwise the event carries the window, the
      pressed state, the modifiers and the translated key. */
  method TranslateKeyboardEvent(ev: SdlEvent, windows: map<nat, nat>, t: seq<Entry>) returns (r: Option<Event>)
    requires |t| >= 1 && SortedByFrom(t) && DistinctFrom(t) && t[0].from <= ev.key
    ensures ev.repeat || ev.windowID !in windows ==> r.None?
    ensures !ev.repeat && ev.windowID in windows ==>
      r == Some(KeyboardEvent(windows[ev.windowID], StateOf(ev.down), ev.mod, Translate(t, ev.key)))
  {
    if ev.repeat {
      return None;
    }
    if ev.windowID !in windows {
      return None;
    }
    var w := windows[ev.windowID];
    var state := if ev.down then Pressed else Released;
    var key := SearchKey(t, ev.key);
    return Some(KeyboardEvent(w, state, ev.mod, key));
  }

  /** The translators that only look the window up before copying the payload. */
  function WindowBound(ev: SdlEvent, windows: map<nat, nat>, kind: WindowEventKind): (r: Option<Event>)
    ensures r.Some? <==> ev.windowID in windows
    ensures r.Some? ==> r.value.WindowBoundEvent? && r.value.kind == kind && r.value.wsrc in windows.Values
  {
    if ev.windowID in windows then Some(WindowBoundEvent(kind, windows[ev.windowID])) else None
  }

  /** translateSDLEventToPGUPV: the switch on the SDL event type. None is the
      C++ false: an unhandled type or a translator that rejected the event. */
  method TranslateSdlEvent(ev: SdlEvent, windows: map<nat, nat>, t: seq<Entry>) returns (r: Option<Event>)
    requires |t| >= 1 && SortedByFrom(t) && DistinctFrom(t) && t[0].from <= ev.key
    ensures ev.kind.OtherType? ==> r.None?
    ensures ev.kind == Quit ==> r == Some(QuitEvent)
    ensures ev.kind in {KeyUp, KeyDown} ==>
      r == (if ev.repeat || ev.windowID !in windows then None
            else Some(KeyboardEvent(windows[ev.windowID], StateOf(ev.down), ev.mod, Translate(t, ev.key))))
    ensures ev.kind == JoystickHatMotion ==>
      r == Some(JoystickHatMotionEvent(ev.which, ev.index, HatPositionOf(ev.value)))
    ensures ev.kind in {JoystickButtonDown, JoystickButtonUp} ==>
      r == Some(JoystickButtonEvent(ev.which, ev.index, StateOf(ev.down)))
    ensures ev.kind == JoystickAxisMotion ==> r == Some(JoystickMotionEvent(ev.which, ev.index))
    ensures ev.kind in {MouseButtonDown, MouseButtonUp, MouseMotion, MouseWheel, TextInput, WindowResized, WindowCloseRequested} ==>
      (r.Some? <==> ev.windowID in windows)
    ensures ev.kind in {MouseButtonDown, MouseButtonUp} ==> r == WindowBound(ev, windows, MouseButtonKind)
    ensures ev.kind == MouseMotion ==> r == WindowBound(ev, windows, MouseMotionKind)
    ensures ev.kind == MouseWheel ==> r == WindowBound(ev, windows, MouseWheelKind)
    ensures ev.kind == TextInput ==> r == WindowBound(ev, windows, TextInputKind)
    ensures ev.kind == WindowResized ==> r == WindowBound(ev, windows, ResizedKind)
    ensures ev.kind == WindowCloseRequested ==> r == WindowBound(ev, windows, ClosedKind)
  {
    match ev.kind {
      case KeyUp => r := TranslateKeyboardEvent(ev, windows, t);
      case KeyDown => r := TranslateKeyboardEvent(ev, windows, t);
      case MouseButtonDown => r := WindowBound(ev, windows, MouseButtonKind);
      case MouseButtonUp => r := WindowBound(ev, windows, MouseButtonKind);
      case MouseMotion => r := WindowBound(ev, windows, MouseMotionKind);
      case MouseWheel => r := WindowBound(ev, windows, MouseWheelKind);
      case JoystickAxisMotion => r := Some(JoystickMotionEvent(ev.which, ev.index));
      case JoystickHatMotion => r := Some(JoystickHatMotionEvent(ev.which, ev.index, HatPositionOf(ev.value)));
      case JoystickButtonDown => r := Some(JoystickButtonEvent(ev.which, ev.index, StateOf(ev.down)));
      case JoystickButtonUp => r := Some(JoystickButtonEvent(ev.which, ev.index, StateOf(ev.down)));
      case TextInput => r := WindowBound(ev, windows, TextInputKind);
      case WindowResized => r := WindowBound(ev, windows, ResizedKind);
      case WindowCloseRequested => r := WindowBound(ev, windows, ClosedKind);
      case Quit => r := Some(QuitEvent);
      case OtherType(_) => r := None;
    }
  }
}
