/** The InputManager: the keyboard edge states (pressed this frame, held,
    released this frame), the key map, the mouse-button map, the touch
    table, the four callback registries routed by event-name prefix, and
    the tap and swipe classification of the gesture recogniser. */
module Input {
  import opened Common
  import opened OrderedSets

  /** The three key sets as one value. */
  datatype KeySets = KeySets(pressed: set<string>, held: set<string>, released: set<string>)

  /** `handleKeyDown`: a key already held is not pressed again (auto-repeat);
      afterwards it is held. */
  function KeyDown(k: KeySets, key: string): (r: KeySets)
    ensures key in r.held && r.released == k.released
    ensures key in r.pressed <==> key in k.pressed || key !in k.held
  {
    KeySets(if key !in k.held then k.pressed + {key} else k.pressed, k.held + {key}, k.released)
  }

  /** `handleKeyUp`: released this frame and no longer held. */
  function KeyUp(k: KeySets, key: string): (r: KeySets)
    ensures key in r.released && key !in r.held && r.pressed == k.pressed
  {
    KeySets(k.pressed, k.held - {key}, k.released + {key})
  }

  /** `update`: the per-frame edges are cleared, the held set stays. */
  function ClearEdges(k: KeySets): (r: KeySets)
    ensures r.pressed == {} && r.released == {} && r.held == k.held
  {
    KeySets({}, k.held, {})
  }

  /** Every key reported pressed is still held or was released in the same
      frame. */
  predicate KeysInvariant(k: KeySets)
  {
    k.pressed <= k.held + k.released
  }

  lemma KeyEventsKeepInvariant(k: KeySets, key: string)
    requires KeysInvariant(k)
    ensures KeysInvariant(KeyDown(k, key)) && KeysInvariant(KeyUp(k, key)) && KeysInvariant(ClearEdges(k))
  {
  }

  /** An auto-repeated keydown in a later frame is not a new press: a key
      is pressed once per physical press. */
  lemma AutoRepeatIsNotAPress(k: KeySets, key: string)
    ensures key !in KeyDown(ClearEdges(KeyDown(k, key)), key).pressed
  {
  }

  /** After a keyup, the next keydown is a press again. */
  lemma PressAfterRelease(k: KeySets, key: string)
    ensures key in KeyDown(KeyUp(k, key), key).pressed
  {
  }

  /** `keyMap.get(key) || key`: a mapped action reads its key, an unmapped
      name (or one mapped to the empty string) reads itself. */
  function Resolve(keyMap: map<string, string>, key: string): (r: string)
    ensures key !in keyMap ==> r == key
  {
    if key in keyMap && keyMap[key] != "" then keyMap[key] else key
  }

  /** `mapKey` overwrites an earlier mapping of the action and no other. */
  lemma MapKeyOverwrites(keyMap: map<string, string>, action: string, key: string, other: string)
    requires key != ""
    ensures Resolve(keyMap[action := key], action) == key
    ensures other != action ==> Resolve(keyMap[action := key], other) == Resolve(keyMap, other)
  {
  }

  /** `mouseButtons.get(button) || false`. */
  function ButtonDown(buttons: map<int, bool>, button: int): (r: bool)
    ensures button !in buttons ==> !r
  {
    button in buttons && buttons[button]
  }

  /** A button reflects the last down or up event for it; other buttons are
      unaffected. */
  lemma ButtonsFollowLastEvent(buttons: map<int, bool>, button: int, other: int, down: bool)
    ensures ButtonDown(buttons[button := down], button) == down
    ensures other != button ==> ButtonDown(buttons[button := down], other) == ButtonDown(buttons, other)
  {
  }

  /** One entry of `event.changedTouches`. */
  datatype TouchPoint = TouchPoint(identifier: int, clientX: real, clientY: real)

  /** A record of the `touches` table. */
  datatype TouchRecord = TouchRecord(x: real, y: real, startX: real, startY: real, timeStart: real)

  type TouchTable = map<int, TouchRecord>

  function Identifiers(changed: seq<TouchPoint>): set<int>
  {
    set i | 0 <= i < |changed| :: changed[i].identifier
  }

  lemma IdentifiersSnoc(changed: seq<TouchPoint>)
    requires |changed| > 0
    ensures Identifiers(changed) == Identifiers(changed[..|changed| - 1]) + {changed[|changed| - 1].identifier}
  {
    var init := changed[..|changed| - 1];
    forall id | id in Identifiers(changed) ensures id in Identifiers(init) + {changed[|changed| - 1].identifier} {
      var i :| 0 <= i < |changed| && changed[i].identifier == id;
      if i < |changed| - 1 { assert init[i] == changed[i]; }
    }
    forall id | id in Identifiers(init) ensures id in Identifiers(changed) {
      var i :| 0 <= i < |init| && init[i].identifier == id;
      assert changed[i] == init[i];
    }
  }

  /** The `touchstart` loop: each changed touch gets a fresh record whose
      start is its current position; every other record stays. */
  function StartTouches(m: TouchTable, changed: seq<TouchPoint>, now: real): (r: TouchTable)
    ensures r.Keys == m.Keys + Identifiers(changed)
    ensures forall id :: id in r && id !in Identifiers(changed) ==> r[id] == m[id]
    ensures forall id :: id in r && id in Identifiers(changed) ==>
      r[id].x == r[id].startX && r[id].y == r[id].startY && r[id].timeStart == now
  {
    if |changed| == 0 then m
    else
      var t := changed[|changed| - 1];
      IdentifiersSnoc(changed);
      StartTouches(m, changed[..|changed| - 1], now)[t.identifier := TouchRecord(t.clientX, t.clientY, t.clientX, t.clientY, now)]
  }

  /** The `touchend` loop: the records of the changed touches are
      deleted. */
  function EndTouches(m: TouchTable, changed: seq<TouchPoint>): (r: TouchTable)
    ensures r.Keys == m.Keys - Identifiers(changed)
    ensures forall id :: id in r ==> r[id] == m[id]
  {
    if |changed| == 0 then m
    else
      IdentifiersSnoc(changed);
      EndTouches(m, changed[..|changed| - 1]) - {changed[|changed| - 1].identifier}
  }

  /** The `touchmove` loop: a known touch gets its new position; unknown
      identifiers are skipped, and no start or time changes. */
  function MoveTouches(m: TouchTable, changed: seq<TouchPoint>): (r: TouchTable)
    ensures r.Keys == m.Keys
    ensures forall id :: id in r ==>
      r[id].startX == m[id].startX && r[id].startY == m[id].startY && r[id].timeStart == m[id].timeStart
    ensures forall id :: id in r && id !in Identifiers(changed) ==> r[id] == m[id]
  {
    if |changed| == 0 then m
    else
      var t := changed[|changed| - 1];
      var before := MoveTouches(m, changed[..|changed| - 1]);
      IdentifiersSnoc(changed);
      if t.identifier in before then before[t.identifier := before[t.identifier].(x := t.clientX, y := t.clientY)]
      else before
  }

  /** A move of a known touch lands where the touch is now. */
  lemma MoveLandsOnLastPosition(m: TouchTable, changed: seq<TouchPoint>)
    requires |changed| > 0 && changed[|changed| - 1].identifier in m
    ensures var t := changed[|changed| - 1];
      MoveTouches(m, changed)[t.identifier].x == t.clientX && MoveTouches(m, changed)[t.identifier].y == t.clientY
  {
  }

  /** A touch that starts and ends leaves the table as it was, when it was
      not in the table before. */
  lemma EndUndoesStart(m: TouchTable, t: TouchPoint, now: real)
    requires t.identifier !in m
    ensures EndTouches(StartTouches(m, [t], now), [t]) == m
  {
    assert [t][0] == t;
    assert Identifiers([t]) == {t.identifier};
    var r := EndTouches(StartTouches(m, [t], now), [t]);
    assert r.Keys == m.Keys;
  }

  datatype Direction = Right | Left | Down | Up

  datatype Gesture = Tap(x: real, y: real) | Swipe(direction: Direction, deltaX: real, deltaY: real)

  /** The swipe direction: horizontal only when |dx| > |dy|, so ties are
      vertical; then by the sign of the delta (zero counts as left or up). */
  function SwipeDirection(dx: real, dy: real): Direction
  {
    if Abs(dx) > Abs(dy) then (if dx > 0.0 then Right else Left)
    else (if dy > 0.0 then Down else Up)
  }

  /** The `touchmove` test of the recogniser: a swipe once either delta
      exceeds 50. */
  function SwipeOf(dx: real, dy: real): (r: Option<Gesture>)
    ensures r.Some? <==> Abs(dx) > 50.0 || Abs(dy) > 50.0
    ensures r.Some? ==> r.value.Swipe? && r.value.deltaX == dx && r.value.deltaY == dy
  {
    if Abs(dx) > 50.0 || Abs(dy) > 50.0 then Some(Swipe(SwipeDirection(dx, dy), dx, dy)) else None
  }

  /** The `touchend` test of the recogniser: a tap at the start position
      when the touch lasted under 300 ms. */
  function TapOf(duration: real, x: real, y: real): (r: Option<Gesture>)
    ensures r.Some? <==> duration < 300.0
    ensures r.Some? ==> r.value == Tap(x, y)
  {
    if duration < 300.0 then Some(Tap(x, y)) else None
  }

  /** Horizontal exactly when the horizontal delta dominates, and the sign
      decides between the two directions of an axis. */
  lemma SwipeDirectionCases(dx: real, dy: real)
    ensures SwipeDirection(dx, dy) in {Right, Left} <==> Abs(dx) > Abs(dy)
    ensures SwipeDirection(dx, dy) == Right <==> Abs(dx) > Abs(dy) && dx > 0.0
    ensures SwipeDirection(dx, dy) == Down <==> Abs(dx) <= Abs(dy) && dy > 0.0
  {
  }

  /** Mirroring a swipe left-right swaps Right and Left and keeps a vertical
      swipe; a diagonal swipe is vertical. */
  lemma MirroredSwipe(dx: real, dy: real)
    requires dx != 0.0
    ensures SwipeDirection(-dx, dy) == match SwipeDirection(dx, dy)
      case Right => Left
      case Left => Right
      case d => d
    ensures Abs(dx) == Abs(dy) ==> SwipeDirection(dx, dy) in {Down, Up}
  {
  }

  /** The four callback registries, chosen by the event name's prefix. */
  datatype Channel = KeyEvents | MouseEvents | TouchEvents | GestureEvents

  /** The branch of `on` and `off` an event name takes. */
  function ChannelOf(event: string): (r: Option<Channel>)
    ensures r == Some(KeyEvents) <==> StartsWith(event, "key")
    ensures r == Some(MouseEvents) <==> StartsWith(event, "mouse")
    ensures r == Some(TouchEvents) <==> StartsWith(event, "touch")
    ensures r == Some(GestureEvents) <==> StartsWith(event, "gesture")
  {
    PrefixesExclusive(event);
    if StartsWith(event, "key") then Some(KeyEvents)
    else if StartsWith(event, "mouse") then Some(MouseEvents)
    else if StartsWith(event, "touch") then Some(TouchEvents)
    else if StartsWith(event, "gesture") then Some(GestureEvents)
    else None
  }

  lemma FirstLetter(event: string, prefix: string)
    requires |prefix| > 0 && StartsWith(event, prefix)
    ensures event[0] == prefix[0]
  {
    assert event[..|prefix|][0] == event[0];
  }

  /** The four prefixes begin with four different letters, so an event name
      has at most one of them. */
  lemma PrefixesExclusive(event: string)
    ensures StartsWith(event, "key") ==>
      !StartsWith(event, "mouse") && !StartsWith(event, "touch") && !StartsWith(event, "gesture")
    ensures StartsWith(event, "mouse") ==> !StartsWith(event, "touch") && !StartsWith(event, "gesture")
    ensures StartsWith(event, "touch") ==> !StartsWith(event, "gesture")
  {
    assert "key"[0] == 'k' && "mouse"[0] == 'm' && "touch"[0] == 't' && "gesture"[0] == 'g';
    if StartsWith(event, "key") { FirstLetter(event, "key"); }
    if StartsWith(event, "mouse") { FirstLetter(event, "mouse"); }
    if StartsWith(event, "touch") { FirstLetter(event, "touch"); }
    if StartsWith(event, "gesture") { FirstLetter(event, "gesture"); }
  }

  /** The registry a channel's events go to after `on`/`off`, when `event`
      is routed to `c`; other registries stay. */
  function Routed(event: string, c: Channel, unrouted: Registry<Callback>, routed: Registry<Callback>): Registry<Callback>
  {
    if ChannelOf(event) == Some(c) then routed else unrouted
  }

  /** Every event name stored in a registry carries the prefix of its
      channel. */
  ghost predicate Prefixed(m: Registry<Callback>, prefix: string)
  {
    forall e :: e in m ==> StartsWith(e, prefix)
  }

  lemma SubscribeKeepsPrefixed(m: Registry<Callback>, prefix: string, event: string, cb: Callback)
    requires Prefixed(m, prefix) && StartsWith(event, prefix)
    ensures Prefixed(Subscribe(m, event, cb), prefix) && Prefixed(Unsubscribe(m, event, cb), prefix)
  {
  }

  /** The type the recogniser passes to `emitGesture` ('tap' at `touchend`,
      'swipe' at `touchmove`); the corrected lookup name is it with the
      'gesture' prefix. */
  function GestureType(g: Gesture): (r: string)
    ensures !StartsWith(r, "gesture")
    ensures GestureEvent(g) == "gesture" + r
  {
    if g.Tap? then "tap" else "swipe"
  }

  /** As written, `emitGesture` looks up the bare gesture type ('tap',
      'swipe'), but `on` only stores gesture listeners under names starting
      with 'gesture': no listener registered through `on` is ever called. */
  lemma AsWrittenGestureReachesNoListener(m: Registry<Callback>)
    requires Prefixed(m, "gesture")
    ensures ListenersOf(m, "tap") == [] && ListenersOf(m, "swipe") == []
  {
    assert "tap" !in m by { assert !StartsWith("tap", "gesture"); }
    assert "swipe" !in m by { assert !StartsWith("swipe", "gesture"); }
  }

  /** The name under which a recognised gesture is looked up, carrying the
      prefix `on` demands ('gesturetap', 'gestureswipe'). */
  function GestureEvent(g: Gesture): (r: string)
    ensures StartsWith(r, "gesture")
  {
    "gesture" + (if g.Tap? then "tap" else "swipe")
  }

  /** With that lookup, a listener registered with `on` for the gesture's
      name is called when the gesture is recognised. */
  lemma GestureReachesListener(m: Registry<Callback>, g: Gesture, cb: Callback)
    ensures cb in ListenersOf(Subscribe(m, GestureEvent(g), cb), GestureEvent(g))
  {
  }

  class InputManager {
    var pressedKeys: set<string>
    var heldKeys: set<string>
    var releasedKeys: set<string>
    var keyMap: map<string, string>
    var mouseButtons: map<int, bool>
    var mousePosition: Vec
    var touches: TouchTable
    var keyCallbacks: Registry<Callback>
    var mouseCallbacks: Registry<Callback>
    var touchCallbacks: Registry<Callback>
    var gestureCallbacks: Registry<Callback>

    function Keys(): KeySets
      reads this
    {
      KeySets(pressedKeys, heldKeys, releasedKeys)
    }

    ghost predicate Valid()
      reads this
    {
      KeysInvariant(Keys())
      && Prefixed(keyCallbacks, "key") && Prefixed(mouseCallbacks, "mouse")
      && Prefixed(touchCallbacks, "touch") && Prefixed(gestureCallbacks, "gesture")
    }

    constructor()
      ensures Valid()
      ensures Keys() == KeySets({}, {}, {}) && keyMap == map[] && mouseButtons == map[]
      ensures mousePosition == Vec(0.0, 0.0) && touches == map[]
      ensures keyCallbacks == map[] && mouseCallbacks == map[] && touchCallbacks == map[] && gestureCallbacks == map[]
    {
      pressedKeys, heldKeys, releasedKeys := {}, {}, {};
      keyMap := map[];
      mouseButtons := map[];
      mousePosition := Vec(0.0, 0.0);
      touches := map[];
      keyCallbacks, mouseCallbacks, touchCallbacks, gestureCallbacks := map[], map[], map[], map[];
    }

    /** `handleKeyDown`; returns the 'keydown' listeners it calls, in
      order. */
    method HandleKeyDown(key: string) returns (called: seq<Callback>)
      requires Valid()
      modifies this
      ensures unchanged(this`keyMap, this`mouseButtons, this`mousePosition, this`touches,
        this`keyCallbacks, this`mouseCallbacks, this`touchCallbacks, this`gestureCallbacks)
      ensures Valid()
      ensures Keys() == KeyDown(old(Keys()), key)
      ensures called == ListenersOf(keyCallbacks, "keydown")
    {
      KeyEventsKeepInvariant(Keys(), key);
      if key !in heldKeys {
        pressedKeys := pressedKeys + {key};
      }
      heldKeys := heldKeys + {key};
      called := ListenersOf(keyCallbacks, "keydown");
    }

    /** `handleKeyUp`. */
    method HandleKeyUp(key: string) returns (called: seq<Callback>)
      requires Valid()
      modifies this
      ensures unchanged(this`keyMap, this`mouseButtons, this`mousePosition, this`touches,
        this`keyCallbacks, this`mouseCallbacks, this`touchCallbacks, this`gestureCallbacks)
      ensures Valid()
      ensures Keys() == KeyUp(old(Keys()), key)
      ensures called == ListenersOf(keyCallbacks, "keyup")
    {
      KeyEventsKeepInvariant(Keys(), key);
      releasedKeys := releasedKeys + {key};
      heldKeys := heldKeys - {key};
      called := ListenersOf(keyCallbacks, "keyup");
    }

    /** `update`: gamepad polling aside, the edges are cleared. */
    method Update()
      requires Valid()
      modifies this
      ensures unchanged(this`keyMap, this`mouseButtons, this`mousePosition, this`touches,
        this`keyCallbacks, this`mouseCallbacks, this`touchCallbacks, this`gestureCallbacks)
      ensures Valid()
      ensures Keys() == ClearEdges(old(Keys()))
    {
      pressedKeys := {};
      releasedKeys := {};
    }

    function IsKeyPressed(key: string): bool
      reads this
    {
      Resolve(keyMap, key) in pressedKeys
    }

    function IsKeyHeld(key: string): bool
      reads this
    {
      Resolve(keyMap, key) in heldKeys
    }

    function IsKeyReleased(key: string): bool
      reads this
    {
      Resolve(keyMap, key) in releasedKeys
    }

    function IsMouseButtonDown(button: int): bool
      reads this
    {
      ButtonDown(mouseButtons, button)
    }

    /** `mapKey(action, key)`. */
    method MapKey(action: string, key: string)
      requires Valid()
      modifies this
      ensures unchanged(this`pressedKeys, this`heldKeys, this`releasedKeys, this`mouseButtons, this`mousePosition,
        this`touches, this`keyCallbacks, this`mouseCallbacks, this`touchCallbacks, this`gestureCallbacks)
      ensures Valid()
      ensures keyMap == old(keyMap)[action := key]
    {
      keyMap := keyMap[action := key];
    }

    /** `handleMouseDown` / `handleMouseUp` with `down` telling which. */
    method HandleMouseButton(button: int, down: bool, clientX: real, clientY: real, rect: Vec)
      returns (called: seq<Callback>, position: Vec)
      requires Valid()
      modifies this
      ensures unchanged(this`pressedKeys, this`heldKeys, this`releasedKeys, this`keyMap, this`mousePosition,
        this`touches, this`keyCallbacks, this`mouseCallbacks, this`touchCallbacks, this`gestureCallbacks)
      ensures Valid()
      ensures mouseButtons == old(mouseButtons)[button := down]
      ensures called == ListenersOf(mouseCallbacks, if down then "mousedown" else "mouseup")
      ensures position == MousePosition(clientX, clientY, rect)
    {
      mouseButtons := mouseButtons[button := down];
      called := ListenersOf(mouseCallbacks, if down then "mousedown" else "mouseup");
      position := MousePosition(clientX, clientY, rect);
    }

    /** `handleMouseMove`; `rect` is the target's client rectangle
      origin. */
    method HandleMouseMove(clientX: real, clientY: real, rect: Vec) returns (called: seq<Callback>)
      requires Valid()
      modifies this
      ensures unchanged(this`pressedKeys, this`heldKeys, this`releasedKeys, this`keyMap, this`mouseButtons,
        this`touches, this`keyCallbacks, this`mouseCallbacks, this`touchCallbacks, this`gestureCallbacks)
      ensures Valid()
      ensures mousePosition == MousePosition(clientX, clientY, rect)
      ensures called == ListenersOf(mouseCallbacks, "mousemove")
    {
      mousePosition := MousePosition(clientX, clientY, rect);
      called := ListenersOf(mouseCallbacks, "mousemove");
    }

    /** `handleTouchStart`. */
    method HandleTouchStart(changed: seq<TouchPoint>, now: real) returns (called: seq<Callback>)
      requires Valid()
      modifies this
      ensures unchanged(this`pressedKeys, this`heldKeys, this`releasedKeys, this`keyMap, this`mouseButtons,
        this`mousePosition, this`keyCallbacks, this`mouseCallbacks, this`touchCallbacks, this`gestureCallbacks)
      ensures Valid()
      ensures touches == StartTouches(old(touches), changed, now)
      ensures called == ListenersOf(touchCallbacks, "touchstart")
    {
      var table := touches;
      var k := 0;
      while k < |changed|
        invariant 0 <= k <= |changed|
        invariant table == StartTouches(touches, changed[..k], now)
      {
        assert changed[..k + 1][..k] == changed[..k];
        var t := changed[k];
        table := table[t.identifier := TouchRecord(t.clientX, t.clientY, t.clientX, t.clientY, now)];
        k := k + 1;
      }
      assert changed[..k] == changed;
      touches := table;
      called := ListenersOf(touchCallbacks, "touchstart");
    }

    /** `handleTouchEnd`. */
    method HandleTouchEnd(changed: seq<TouchPoint>) returns (called: seq<Callback>)
      requires Valid()
      modifies this
      ensures unchanged(this`pressedKeys, this`heldKeys, this`releasedKeys, this`keyMap, this`mouseButtons,
        this`mousePosition, this`keyCallbacks, this`mouseCallbacks, this`touchCallbacks, this`gestureCallbacks)
      ensures Valid()
      ensures touches == EndTouches(old(touches), changed)
      ensures called == ListenersOf(touchCallbacks, "touchend")
    {
      var table := touches;
      var k := 0;
      while k < |changed|
        invariant 0 <= k <= |changed|
        invariant table == EndTouches(touches, changed[..k])
      {
        assert changed[..k + 1][..k] == changed[..k];
        table := table - {changed[k].identifier};
        k := k + 1;
      }
      assert changed[..k] == changed;
      touches := table;
      called := ListenersOf(touchCallbacks, "touchend");
    }

    /** `handleTouchMove`. */
    method HandleTouchMove(changed: seq<TouchPoint>) returns (called: seq<Callback>)
      requires Valid()
      modifies this
      ensures unchanged(this`pressedKeys, this`heldKeys, this`releasedKeys, this`keyMap, this`mouseButtons,
        this`mousePosition, this`keyCallbacks, this`mouseCallbacks, this`touchCallbacks, this`gestureCallbacks)
      ensures Valid()
      ensures touches == MoveTouches(old(touches), changed)
      ensures called == ListenersOf(touchCallbacks, "touchmove")
    {
      var table := touches;
      var k := 0;
      while k < |changed|
        invariant 0 <= k <= |changed|
        invariant table == MoveTouches(touches, changed[..k])
      {
        assert changed[..k + 1][..k] == changed[..k];
        var t := changed[k];
        if t.identifier in table {
          table := table[t.identifier := table[t.identifier].(x := t.clientX, y := t.clientY)];
        }
        k := k + 1;
      }
      assert changed[..k] == changed;
      touches := table;
      called := ListenersOf(touchCallbacks, "touchmove");
    }

    /** `emitGesture` as written: the recogniser passes the bare type, and
      the listeners stored under it are called. Every name in the gesture
      registry starts with 'gesture', so that list is always empty. */
    method EmitGesture(g: Gesture) returns (called: seq<Callback>)
      requires Valid()
      ensures called == ListenersOf(gestureCallbacks, GestureType(g))
      ensures called == []
    {
      AsWrittenGestureReachesNoListener(gestureCallbacks);
      called := ListenersOf(gestureCallbacks, GestureType(g));
    }

    /** `on(event, callback)`: routed by prefix; any other name is
      ignored. */
    method On(event: string, callback: Callback)
      requires Valid()
      modifies this
      ensures unchanged(this`pressedKeys, this`heldKeys, this`releasedKeys, this`keyMap, this`mouseButtons,
        this`mousePosition, this`touches)
      ensures Valid()
      ensures keyCallbacks == Routed(event, KeyEvents, old(keyCallbacks), Subscribe(old(keyCallbacks), event, callback))
      ensures mouseCallbacks == Routed(event, MouseEvents, old(mouseCallbacks), Subscribe(old(mouseCallbacks), event, callback))
      ensures touchCallbacks == Routed(event, TouchEvents, old(touchCallbacks), Subscribe(old(touchCallbacks), event, callback))
      ensures gestureCallbacks == Routed(event, GestureEvents, old(gestureCallbacks), Subscribe(old(gestureCallbacks), event, callback))
    {
      var c := ChannelOf(event);
      if c == Some(KeyEvents) {
        SubscribeKeepsPrefixed(keyCallbacks, "key", event, callback);
        keyCallbacks := Subscribe(keyCallbacks, event, callback);
      } else if c == Some(MouseEvents) {
        SubscribeKeepsPrefixed(mouseCallbacks, "mouse", event, callback);
        mouseCallbacks := Subscribe(mouseCallbacks, event, callback);
      } else if c == Some(TouchEvents) {
        SubscribeKeepsPrefixed(touchCallbacks, "touch", event, callback);
        touchCallbacks := Subscribe(touchCallbacks, event, callback);
      } else if c == Some(GestureEvents) {
        SubscribeKeepsPrefixed(gestureCallbacks, "gesture", event, callback);
        gestureCallbacks := Subscribe(gestureCallbacks, event, callback);
      }
    }

    /** `off(event, callback)`. */
    method Off(event: string, callback: Callback)
      requires Valid()
      modifies this
      ensures unchanged(this`pressedKeys, this`heldKeys, this`releasedKeys, this`keyMap, this`mouseButtons,
        this`mousePosition, this`touches)
      ensures Valid()
      ensures keyCallbacks == Routed(event, KeyEvents, old(keyCallbacks), Unsubscribe(old(keyCallbacks), event, callback))
      ensures mouseCallbacks == Routed(event, MouseEvents, old(mouseCallbacks), Unsubscribe(old(mouseCallbacks), event, callback))
      ensures touchCallbacks == Routed(event, TouchEvents, old(touchCallbacks), Unsubscribe(old(touchCallbacks), event, callback))
      ensures gestureCallbacks == Routed(event, GestureEvents, old(gestureCallbacks), Unsubscribe(old(gestureCallbacks), event, callback))
    {
      var c := ChannelOf(event);
      if c == Some(KeyEvents) && event in keyCallbacks {
        SubscribeKeepsPrefixed(keyCallbacks, "key", event, callback);
        keyCallbacks := keyCallbacks[event := Delete(keyCallbacks[event], callback)];
      } else if c == Some(MouseEvents) && event in mouseCallbacks {
        SubscribeKeepsPrefixed(mouseCallbacks, "mouse", event, callback);
        mouseCallbacks := mouseCallbacks[event := Delete(mouseCallbacks[event], callback)];
      } else if c == Some(TouchEvents) && event in touchCallbacks {
        SubscribeKeepsPrefixed(touchCallbacks, "touch", event, callback);
        touchCallbacks := touchCallbacks[event := Delete(touchCallbacks[event], callback)];
      } else if c == Some(GestureEvents) && event in gestureCallbacks {
        SubscribeKeepsPrefixed(gestureCallbacks, "gesture", event, callback);
        gestureCallbacks := gestureCallbacks[event := Delete(gestureCallbacks[event], callback)];
      }
    }
  }

  /** `getMousePosition`: client coordinates relative to the target's
      rectangle. */
  function MousePosition(clientX: real, clientY: real, rect: Vec): (p: Vec)
    ensures p.x + rect.x == clientX && p.y + rect.y == clientY
  {
    Vec(clientX - rect.x, clientY - rect.y)
  }

  /** A name with none of the four prefixes reaches no registry. */
  lemma UnroutedEventIsIgnored(event: string)
    requires !StartsWith(event, "key") && !StartsWith(event, "mouse")
    requires !StartsWith(event, "touch") && !StartsWith(event, "gesture")
    ensures forall c: Channel, a: Registry<Callback>, b: Registry<Callback> :: Routed(event, c, a, b) == a
  {
  }

  /** The key queries go through the key map: after `mapKey(action, key)`,
      asking about the action asks about the key. */
  lemma MappedActionAsksMappedKey(m: InputManager, action: string, key: string)
    requires key != "" && action in m.keyMap && m.keyMap[action] == key
    ensures m.IsKeyPressed(action) == (key in m.pressedKeys)
    ensures m.IsKeyHeld(action) == (key in m.heldKeys)
    ensures m.IsKeyReleased(action) == (key in m.releasedKeys)
  {
  }
}
