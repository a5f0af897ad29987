/** Buttons driven by an analog source (`JoyGradientButton`): the
    distance-dependent turbo cycle and the mouse-wheel repeat logic. The
    distance from the dead zone is a real in [0, 1] in practice; timers and
    `QTime` readings are explicit state fields. */
module GradientButton {
  import opened Common

  datatype TurboMode = NormalTurbo | GradientTurbo | PulseTurbo

  datatype KeyAction = Press | Release | NoAction

  /** The turbo-related state of one button. `holdNull` and `holdElapsed`
      stand for `turboHold.isNull()` and `turboHold.elapsed()` at the time
      of the call; restarting the hold clock clears both. */
  datatype TurboState = TurboState(
    timerActive: bool,
    timerInterval: int,
    holdNull: bool,
    holdElapsed: int,
    isButtonPressed: bool,
    isKeyPressed: bool,
    lastDistance: real,
    tempTurboInterval: int,
    turboInterval: int,
    ignoreSetQueue: seq<bool>,
    isButtonPressedQueue: seq<bool>)

  /** NormalTurbo hands the call to the plain button's turbo handler. */
  datatype TurboResult = Delegated | Turbo(state: TurboState, action: KeyAction)

  /** The longest the turbo and wheel timers are ever armed for, in ms. */
  const MaxTimerInterval: int := 5

  /** How long one phase of the cycle lasts at distance `d`: `held` selects
      the phase in which the key is down. Gradient splits the period in
      proportion to the distance; Pulse keeps the down phase at half a
      period and stretches the up phase as the distance shrinks. */
  function PhaseInterval(mode: TurboMode, held: bool, d: real, turboInterval: int): int {
    if held then
      if mode == GradientTurbo then Round(d * turboInterval as real)
      else Round(turboInterval as real * 0.5)
    else
      if mode == GradientTurbo then Round((1.0 - d) * turboInterval as real)
      else if d > 0.0 then Round(turboInterval as real / d * 0.5)
      else 0
  }

  function StartTimer(s: TurboState, interval: int): TurboState {
    s.(timerActive := true, timerInterval := interval)
  }

  function RestartHold(s: TurboState): TurboState {
    s.(holdNull := false, holdElapsed := 0)
  }

  /** The state change: press when the key is up, release when it is down.
      A pending press queue is reset (press) or extended (release); a
      running timer is re-armed for the new phase. */
  function ChangeState(mode: TurboMode, s: TurboState, d: real): (r: TurboState)
    ensures r.isKeyPressed == !s.isKeyPressed
    ensures r.lastDistance == d
    ensures r.timerActive == s.timerActive
    ensures r.turboInterval == s.turboInterval && r.isButtonPressed == s.isButtonPressed
    ensures s.timerActive ==>
      && r.tempTurboInterval == PhaseInterval(mode, r.isKeyPressed, d, s.turboInterval)
      && r.timerInterval == Min(r.tempTurboInterval, MaxTimerInterval)
      && !r.holdNull && r.holdElapsed == 0
    ensures !s.timerActive ==> r.timerInterval == s.timerInterval && r.tempTurboInterval == s.tempTurboInterval
    ensures |s.isButtonPressedQueue| == 0 ==>
      r.isButtonPressedQueue == s.isButtonPressedQueue && r.ignoreSetQueue == s.ignoreSetQueue
    ensures |s.isButtonPressedQueue| > 0 && !s.isKeyPressed ==>
      r.isButtonPressedQueue == [s.isButtonPressed] && r.ignoreSetQueue == [false]
    ensures |s.isButtonPressedQueue| > 0 && s.isKeyPressed ==>
      r.isButtonPressedQueue == s.isButtonPressedQueue + [!s.isButtonPressed] &&
      r.ignoreSetQueue == s.ignoreSetQueue + [false]
  {
    var queued := |s.isButtonPressedQueue| > 0;
    var s1 :=
      if !s.isKeyPressed then
        if queued then s.(ignoreSetQueue := [false], isButtonPressedQueue := [s.isButtonPressed]) else s
      else
        if queued then s.(ignoreSetQueue := s.ignoreSetQueue + [false],
                          isButtonPressedQueue := s.isButtonPressedQueue + [!s.isButtonPressed]) else s;
    var s2 := s1.(isKeyPressed := !s.isKeyPressed);
    var s3 :=
      if s.timerActive then
        var temp := PhaseInterval(mode, !s.isKeyPressed, d, s.turboInterval);
        RestartHold(StartTimer(s2.(tempTurboInterval := temp), Min(temp, MaxTimerInterval)))
      else s2;
    s3.(lastDistance := d)
  }

  function FlipAction(s: TurboState): KeyAction {
    if s.isKeyPressed then Release else Press
  }

  /** `turboEvent` at distance `d` from the dead zone. */
  function TurboEvent(mode: TurboMode, s: TurboState, d: real): (r: TurboResult)
    ensures r.Delegated? <==> mode == NormalTurbo
    ensures mode != NormalTurbo && !s.timerActive && !s.isButtonPressed ==>
      r.action != NoAction
    ensures mode == GradientTurbo && (s.timerActive || s.isButtonPressed) &&
            AbsReal(d - s.lastDistance) > 0.0 && d >= 1.0 && s.isKeyPressed ==>
      r.action == NoAction && r.state.timerActive && r.state.timerInterval == MaxTimerInterval &&
      r.state.lastDistance == 1.0 && r.state.isKeyPressed && r.state.holdElapsed == 0
    ensures r.Turbo? && r.action != NoAction ==>
      && (r.action == Press <==> !s.isKeyPressed)
      && r.state.isKeyPressed == (r.action == Press)
      && r.state.lastDistance == d
    ensures r.Turbo? && r.action != NoAction && s.timerActive ==>
      r.state.timerInterval == Min(PhaseInterval(mode, r.action == Press, d, s.turboInterval), MaxTimerInterval)
    ensures r.Turbo? && r.action == NoAction ==>
      && r.state.isKeyPressed == s.isKeyPressed
      && r.state.isButtonPressedQueue == s.isButtonPressedQueue
      && r.state.ignoreSetQueue == s.ignoreSetQueue
    ensures r.Turbo? && (r.state.timerActive != s.timerActive || r.state.timerInterval != s.timerInterval) ==>
      r.state.timerActive && r.state.timerInterval <= MaxTimerInterval
    ensures r.Turbo? ==> (s.timerActive ==> r.state.timerActive) && r.state.turboInterval == s.turboInterval
  {
    if mode == NormalTurbo then Delegated
    else
      var diff := AbsReal(d - s.lastDistance);
      if !s.timerActive && !s.isButtonPressed then
        Turbo(ChangeState(mode, s, d), FlipAction(s))
      else if mode == GradientTurbo && diff > 0.0 && d >= 1.0 then
        if s.isKeyPressed then
          Turbo(RestartHold(StartTimer(s, MaxTimerInterval)).(lastDistance := 1.0), NoAction)
        else Turbo(ChangeState(mode, s, d), FlipAction(s))
      else if s.holdNull || s.lastDistance == 0.0 || s.holdElapsed > s.tempTurboInterval then
        Turbo(ChangeState(mode, s, d), FlipAction(s))
      else if diff >= 0.1 then
        var t2 := PhaseInterval(mode, s.isKeyPressed, d, s.turboInterval);
        if s.holdElapsed < t2 then
          var temp := t2 - s.holdElapsed;
          Turbo(RestartHold(StartTimer(s.(tempTurboInterval := temp), Min(temp, MaxTimerInterval))).(lastDistance := d),
                NoAction)
        else Turbo(ChangeState(mode, s, d), FlipAction(s))
      else Turbo(s, NoAction)
  }

  /** Invariant: a running turbo timer is never armed for more than 5 ms. */
  predicate TimerBounded(s: TurboState) {
    s.timerActive ==> s.timerInterval <= MaxTimerInterval
  }

  lemma TurboKeepsTimerBounded(mode: TurboMode, s: TurboState, d: real)
    requires mode != NormalTurbo
    requires TimerBounded(s)
    ensures TimerBounded(TurboEvent(mode, s, d).state)
  {
  }

  /** Two successive state changes press then release (or the reverse):
      the key alternates. */
  lemma TurboAlternates(mode: TurboMode, s: TurboState, d1: real, d2: real)
    requires mode != NormalTurbo
    requires TurboEvent(mode, s, d1).action != NoAction
    requires TurboEvent(mode, TurboEvent(mode, s, d1).state, d2).action != NoAction
    ensures TurboEvent(mode, s, d1).action != TurboEvent(mode, TurboEvent(mode, s, d1).state, d2).action
  {
  }

  /** In Gradient mode the two phases together last one turbo period, up
      to one millisecond of rounding. */
  lemma GradientPhasesFillPeriod(d: real, turboInterval: int)
    ensures var total := PhaseInterval(GradientTurbo, true, d, turboInterval) +
                         PhaseInterval(GradientTurbo, false, d, turboInterval);
      turboInterval <= total <= turboInterval + 1
  {
    var x := d * turboInterval as real;
    var y := (1.0 - d) * turboInterval as real;
    assert x + y == turboInterval as real;
  }

  /** Dividing a non-negative amount by a larger positive divisor never
      gives more. */
  lemma QuotientAntitone(t: real, d1: real, d2: real)
    requires t >= 0.0 && 0.0 < d1 <= d2
    ensures t / d2 <= t / d1
  {
    var a := t / d1;
    var b := t / d2;
    assert a * d1 == t && b * d2 == t;
    assert a >= 0.0;
    assert a * d1 <= a * d2 by {
      assert a * d2 - a * d1 == a * (d2 - d1);
    }
  }

  /** Rounding half up never reverses an order. */
  lemma RoundMonotone(x: real, y: real)
    requires x <= y
    ensures Round(x) <= Round(y)
  {
  }

  /** In Pulse mode the up phase shrinks as the distance grows. */
  lemma PulseReleaseAntitone(d1: real, d2: real, turboInterval: int)
    requires 0.0 < d1 <= d2
    requires turboInterval >= 0
    ensures PhaseInterval(PulseTurbo, false, d2, turboInterval) <= PhaseInterval(PulseTurbo, false, d1, turboInterval)
  {
    var t := turboInterval as real;
    QuotientAntitone(t, d1, d2);
    RoundMonotone(t / d2 * 0.5, t / d1 * 0.5);
  }

  /** `isPartRealAxis`, as axis buttons and stick buttons override it:
      constantly true. */
  function IsPartRealAxis(): bool {
    true
  }

  /* ---------------- Mouse-wheel repeat ---------------- */

  datatype WheelAxis = Vertical | Horizontal

  /** One wheel direction: its repeat timer, the elapsed reading of its
      time stamp, the distance at the last firing and the queue of slots
      that keep repeating. Slots are identified by integers. */
  datatype WheelState = WheelState(
    timerActive: bool,
    timerInterval: int,
    elapsed: int,
    lastDistance: real,
    queue: seq<int>)

  datatype SlotEvent = SlotEvent(slot: int, press: bool)

  datatype WheelOutcome = WheelOutcome(state: WheelState, sent: seq<SlotEvent>, activated: bool)

  /** The interval derived from the distance at the last firing (the
      division by the distance is done in floating point). */
  function OldInterval(speed: int, last: real): int {
    if speed == 0 then 0
    else if last > 0.0 then TruncReal(TruncDiv(1000, speed) as real / last)
    else TruncReal(TruncDiv(1000, speed) as real / 0.01)
  }

  /** The repeat interval at distance `d` as written: the distance is
      truncated to an integer before an integer division, which faults for
      every distance strictly between 0 and 1. */
  function WheelIntervalAsWritten(speed: int, d: real): (r: Result<int>)
    requires speed != 0
    ensures r.Failure? <==> 0.0 < d < 1.0
  {
    if d > 0.0 then
      var n := TruncReal(d);
      if n == 0 then Failure("integer division by zero") else Ok(TruncDiv(TruncDiv(1000, speed), n))
    else Ok(0)
  }

  /** The repeat interval at distance `d`, divided in floating point as
      `OldInterval` does; the rest of the model uses this one. */
  function WheelInterval(speed: int, d: real): (t: int)
    requires speed != 0
    ensures speed > 0 ==> t >= 0
    ensures d <= 0.0 ==> t == 0
  {
    if d > 0.0 then TruncReal(TruncDiv(1000, speed) as real / d) else 0
  }

  /** Counterexample for the written form: half-way out of the dead zone
      with wheel speed 1 the written division faults, while the floating
      point reading gives a 2000 ms interval. */
  lemma WheelIntervalFaultsBelowOne()
    ensures WheelIntervalAsWritten(1, 0.5).Failure?
    ensures WheelInterval(1, 0.5) == 2000
  {
    assert 1000.0 / 0.5 == 2000.0;
  }

  lemma FloorOfQuotient(q: nat, n: int)
    requires n >= 1
    ensures (q as real / n as real).Floor == q / n
  {
    var k := q / n;
    var r := q % n;
    assert q == k * n + r && 0 <= r < n;
    var x := q as real / n as real;
    assert (k * n) as real / n as real == k as real;
    assert x == k as real + r as real / n as real;
    assert 0.0 <= r as real / n as real < 1.0;
  }

  /** Where the written form does not fault and the distance is a whole
      number, it agrees with the floating point reading. */
  lemma WheelIntervalAgreesOnWholeDistances(speed: int, n: int)
    requires speed > 0 && n >= 1
    ensures WheelIntervalAsWritten(speed, n as real) == Ok(WheelInterval(speed, n as real))
  {
    FloorOfQuotient(1000 / speed, n);
  }

  /** A larger distance never lengthens the repeat interval. */
  lemma WheelIntervalAntitone(speed: int, d1: real, d2: real)
    requires speed > 0
    requires 0.0 < d1 <= d2
    ensures WheelInterval(speed, d2) <= WheelInterval(speed, d1)
  {
    QuotientAntitone((1000 / speed) as real, d1, d2);
  }

  /** Arm the timer with `interval` unless it already runs and `compared`
      (the interval the source compares against) equals it. */
  function Arm(s: WheelState, interval: int, compared: int): WheelState {
    if !s.timerActive || compared != interval then s.(timerActive := true, timerInterval := interval) else s
  }

  /** The queued slots that are still active, in queue order. */
  function Kept(queue: seq<int>, active: set<int>): (r: seq<int>)
    ensures |r| <= |queue|
    ensures forall x :: x in r <==> x in queue && x in active
    decreases |queue|
  {
    if |queue| == 0 then []
    else
      var init := Kept(queue[..|queue| - 1], active);
      assert queue == queue[..|queue| - 1] + [queue[|queue| - 1]];
      if queue[|queue| - 1] in active then init + [queue[|queue| - 1]] else init
  }

  /** A press immediately followed by a release for each slot, in order. */
  function Pairs(slots: seq<int>): (r: seq<SlotEvent>)
    ensures |r| == 2 * |slots|
    ensures forall k :: 0 <= k < |slots| ==>
      r[2 * k] == SlotEvent(slots[k], true) && r[2 * k + 1] == SlotEvent(slots[k], false)
    decreases |slots|
  {
    if |slots| == 0 then []
    else Pairs(slots[..|slots| - 1]) + [SlotEvent(slots[|slots| - 1], true), SlotEvent(slots[|slots| - 1], false)]
  }

  /** The first half of a wheel call: whether this call fires
      (`activateEvent`). A current slot, an idle timer or an expired old
      interval fire at once; a distance that moved by 0.1 or more either
      fires or re-arms the timer for the time left. */
  function WheelActivation(s: WheelState, speed: int, current: Option<int>, d: real): (r: (WheelState, bool))
    ensures current.Some? || !s.timerActive ==> r.1
    ensures r.0.queue == s.queue && r.0.elapsed == s.elapsed && r.0.lastDistance == s.lastDistance
    ensures r.0 != s ==> !r.1 && r.0.timerActive && r.0.timerInterval <= MaxTimerInterval
  {
    if current.Some? || !s.timerActive || s.elapsed > OldInterval(speed, s.lastDistance) then (s, true)
    else if AbsReal(d - s.lastDistance) >= 0.1 && speed != 0 then
      var t := WheelInterval(speed, d);
      if s.elapsed < t then (Arm(s, Min(t - s.elapsed, MaxTimerInterval), s.timerInterval), false)
      else (s, true)
    else (s, false)
  }

  /** The second half: send the wheel slots and re-arm or stop the timer.
      `compared` is the interval the re-arm test reads. */
  function WheelFire(axis: WheelAxis, s: WheelState, activate: bool, speed: int, current: Option<int>,
                     active: set<int>, d: real, compared: int): (r: (WheelState, seq<SlotEvent>))
    requires current.Some? ==> activate
    ensures speed == 0 ==> r.1 == [] && !r.0.timerActive
    ensures current.Some? && speed != 0 && current.value in active ==>
      r.1 == [SlotEvent(current.value, true), SlotEvent(current.value, false)] &&
      r.0.queue == s.queue + [current.value] && r.0.timerActive
    ensures current.Some? && speed != 0 && current.value !in active ==> r.1 == [] && !r.0.timerActive
    ensures current.None? && |s.queue| == 0 ==> r.1 == [] && !r.0.timerActive
    ensures current.None? && speed != 0 ==> r.0.queue == Kept(s.queue, active)
    ensures current.None? && speed != 0 && (axis == Horizontal || activate) ==> r.1 == Pairs(Kept(s.queue, active))
    ensures axis == Vertical && !activate ==> r.1 == []
    ensures forall i :: 0 <= i < |r.1| ==> r.1[i].slot in active
    ensures r.0.elapsed == s.elapsed && r.0.lastDistance == s.lastDistance
    ensures r.0.timerActive && (r.0.timerInterval != s.timerInterval || !s.timerActive) ==>
      r.0.timerInterval <= MaxTimerInterval
  {
    if current.Some? && speed != 0 then
      var c := current.value;
      if c in active then
        (Arm(s.(queue := s.queue + [c]), Min(WheelInterval(speed, d), MaxTimerInterval), compared),
         [SlotEvent(c, true), SlotEvent(c, false)])
      else (s.(timerActive := false), [])
    else if |s.queue| > 0 && speed != 0 then QueueFire(axis, s, activate, speed, active, d, compared)
    else (s.(timerActive := false), [])
  }

  /** Re-fire the queued slots: the still-active ones stay queued; the
      vertical direction sends them only when this call fires, the
      horizontal direction always (as written). */
  function QueueFire(axis: WheelAxis, s: WheelState, activate: bool, speed: int,
                     active: set<int>, d: real, compared: int): (r: (WheelState, seq<SlotEvent>))
    requires speed != 0
    ensures r.0.queue == Kept(s.queue, active)
    ensures r.1 == if axis == Horizontal || activate then Pairs(Kept(s.queue, active)) else []
    ensures forall i :: 0 <= i < |r.1| ==> r.1[i].slot in active
    ensures r.0.elapsed == s.elapsed && r.0.lastDistance == s.lastDistance
    ensures |Kept(s.queue, active)| == 0 ==> !r.0.timerActive
    ensures r.0.timerActive && (r.0.timerInterval != s.timerInterval || !s.timerActive) ==>
      r.0.timerInterval <= MaxTimerInterval
  {
    var kept := Kept(s.queue, active);
    var sent := if axis == Horizontal || activate then Pairs(kept) else [];
    PairsSlots(kept);
    if |kept| > 0 then (Arm(s.(queue := kept), Min(WheelInterval(speed, d), MaxTimerInterval), compared), sent)
    else (s.(queue := kept, timerActive := false), sent)
  }

  lemma PairsSlots(slots: seq<int>)
    ensures forall i :: 0 <= i < |Pairs(slots)| ==> Pairs(slots)[i].slot in slots
  {
    forall i | 0 <= i < |Pairs(slots)|
      ensures Pairs(slots)[i].slot in slots
    {
      var k := i / 2;
      if i == 2 * k {
        assert Pairs(slots)[2 * k].slot == slots[k];
      } else {
        assert i == 2 * k + 1;
        assert Pairs(slots)[2 * k + 1].slot == slots[k];
      }
    }
  }

  /** `wheelEventVertical` / `wheelEventHorizontal`. `current` is the slot
      currently driving the wheel, `active` the button's active slots and
      `verticalInterval` the vertical timer's interval, which the
      horizontal direction compares against when re-arming (as written). */
  function WheelEvent(axis: WheelAxis, s: WheelState, speed: int, current: Option<int>, active: set<int>,
                      d: real, verticalInterval: int): (r: WheelOutcome)
    ensures speed == 0 ==> r.sent == [] && !r.state.timerActive
    ensures current.Some? ==> r.activated
    ensures current.Some? && speed != 0 && current.value in active ==>
      r.sent == [SlotEvent(current.value, true), SlotEvent(current.value, false)] &&
      r.state.queue == s.queue + [current.value] && r.state.timerActive
    ensures current.Some? && speed != 0 && current.value !in active ==>
      r.sent == [] && !r.state.timerActive
    ensures current.None? && |s.queue| == 0 ==> r.sent == [] && !r.state.timerActive
    ensures current.None? && speed != 0 ==> r.state.queue == Kept(s.queue, active)
    ensures current.None? && speed != 0 && (axis == Horizontal || r.activated) ==>
      r.sent == Pairs(Kept(s.queue, active))
    ensures axis == Vertical && !r.activated ==> r.sent == []
    ensures forall i :: 0 <= i < |r.sent| ==> r.sent[i].slot in active
    ensures r.activated ==> r.state.elapsed == 0 && r.state.lastDistance == d
    ensures !r.activated ==> r.state.elapsed == s.elapsed && r.state.lastDistance == s.lastDistance
  {
    var (s1, activate) := WheelActivation(s, speed, current, d);
    var compared := if axis == Vertical then s1.timerInterval else verticalInterval;
    var (s2, sent) := WheelFire(axis, s1, activate, speed, current, active, d, compared);
    var s3 := if activate then s2.(elapsed := 0, lastDistance := d) else s2;
    WheelOutcome(s3, sent, activate)
  }

  predicate WheelTimerBounded(s: WheelState) {
    s.timerActive ==> s.timerInterval <= MaxTimerInterval
  }

  /** Invariant: a running wheel timer is never armed for more than 5 ms
      (for the horizontal direction, provided the vertical timer's interval
      is bounded too). */
  lemma WheelKeepsTimerBounded(axis: WheelAxis, s: WheelState, speed: int, current: Option<int>,
                               active: set<int>, d: real, verticalInterval: int)
    requires WheelTimerBounded(s)
    ensures WheelTimerBounded(WheelEvent(axis, s, speed, current, active, d, verticalInterval).state)
  {
  }

  /** Quirk kept as written: with no current slot and the timer still
      waiting, the horizontal direction fires its queued slots anyway,
      while the vertical direction stays silent. At the whole distance 1
      the written interval does not fault, so the source reaches this
      state too. */
  lemma HorizontalQueueFiresWithoutActivation()
    ensures var s := WheelState(true, 5, 0, 1.0, [7]);
      && WheelIntervalAsWritten(1, 1.0) == Ok(WheelInterval(1, 1.0))
      && !WheelEvent(Horizontal, s, 1, None, {7}, 1.0, 5).activated
      && WheelEvent(Horizontal, s, 1, None, {7}, 1.0, 5).sent == [SlotEvent(7, true), SlotEvent(7, false)]
      && WheelEvent(Vertical, s, 1, None, {7}, 1.0, 5).sent == []
  {
    WheelIntervalAgreesOnWholeDistances(1, 1);
    assert Kept([7], {7}) == [7];
  }
}
