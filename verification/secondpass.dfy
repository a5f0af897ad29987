/** Pass 2 of a poll cycle (`InputDaemon::secondInputPass`), device
    removal (`InputDaemon::removeDevice`) and device addition
    (`InputDaemon::addInputDevice`): replay the batch in order, hand each
    event to its device, and after every single event commit the pending
    transitions of every device touched so far. */
module SecondPass {
  import opened Common
  import opened DeviceModel
  import opened BitArrays
  import opened FirstPass
  import opened UnplugRewrite

  /** What handling one event asks of the rest of the program. */
  datatype Effect =
    | ButtonQueued(dev: int, button: int, down: bool)
    | AxisQueued(dev: int, axis: int, value: int)
      /** `rawAxisEvent` on a plain joystick; `index` is what the source
          passes as the axis index, which is the device id. */
    | RawAxis(dev: int, index: int, value: int)
    | DPadEvent(dev: int, hat: int, value: int)
    | GamepadRawButton(dev: int, button: int, down: bool)
    | GamepadRawAxis(dev: int, axis: int, value: int)
    | GamepadRawDPad(dev: int, hat: int, value: int)
    | DeviceRemovedSignal(id: int)
    | DeviceAddedSignal(id: int)

  /** The control groups a device commits, in the order they are committed. */
  datatype ControlGroup = Sticks | Axes | DPads | VDPads | Buttons

  datatype Activation = Activation(dev: int, group: ControlGroup)

  /** What happened while handling one dequeued event: its effects, the
      device whose control it queued on (if any), and the commits after it. */
  datatype Round = Round(effects: seq<Effect>, touched: Option<int>, activations: seq<Activation>)

  /** Pass 2 state: the registry, the ids of the devices touched so far (in
      the order they were first touched), the stop flag, and one round per
      handled event. */
  datatype P2 = P2(reg: Registry, active: seq<int>, stopped: bool, rounds: seq<Round>)

  /** The outcome of handling one event. `touched` names the device whose
      control took a queued event. */
  datatype Dispatch = Dispatch(effects: seq<Effect>, touched: Option<int>, reg: Registry, quit: bool)

  function GroupAt(g: int): ControlGroup
    requires 0 <= g < 5
  {
    if g == 0 then Sticks else if g == 1 then Axes else if g == 2 then DPads
    else if g == 3 then VDPads else Buttons
  }

  /** `removeDevice`: a null device changes nothing; otherwise the device's
      id disappears from all three registry maps and every other entry is
      kept. */
  function RemoveDevice(reg: Registry, dev: Option<Device>): (r: Registry)
    ensures dev.None? ==> r == reg
    ensures dev.Some? ==>
      && dev.value.id !in r.joysticks
      && dev.value.id !in r.trackjoysticks
      && dev.value.id !in r.trackcontrollers
    ensures dev.Some? ==>
      && r.joysticks.Keys == reg.joysticks.Keys - {dev.value.id}
      && r.trackjoysticks.Keys == reg.trackjoysticks.Keys - {dev.value.id}
      && r.trackcontrollers.Keys == reg.trackcontrollers.Keys - {dev.value.id}
    ensures forall k :: k in r.joysticks ==> r.joysticks[k] == reg.joysticks[k]
    ensures forall k :: k in r.trackjoysticks ==> r.trackjoysticks[k] == reg.trackjoysticks[k]
    ensures forall k :: k in r.trackcontrollers ==> r.trackcontrollers[k] == reg.trackcontrollers[k]
  {
    match dev
    case None => reg
    case Some(d) =>
      Registry(reg.joysticks - {d.id}, reg.trackjoysticks - {d.id}, reg.trackcontrollers - {d.id})
  }

  /** `addInputDevice` for a device the backend opened: its id goes into
      `joysticks` and into `trackcontrollers` when it is driven as a game
      controller, otherwise into `trackjoysticks`. */
  function AddDevice(reg: Registry, d: Device): (r: Registry)
    ensures r.joysticks.Keys == reg.joysticks.Keys + {d.id} && r.joysticks[d.id] == d
    ensures d.isController ==>
      && r.trackcontrollers.Keys == reg.trackcontrollers.Keys + {d.id} && r.trackcontrollers[d.id] == d
      && r.trackjoysticks == reg.trackjoysticks
    ensures !d.isController ==>
      && r.trackjoysticks.Keys == reg.trackjoysticks.Keys + {d.id} && r.trackjoysticks[d.id] == d
      && r.trackcontrollers == reg.trackcontrollers
    ensures forall k :: k in reg.joysticks && k != d.id ==> r.joysticks[k] == reg.joysticks[k]
  {
    if d.isController
    then Registry(reg.joysticks[d.id := d], reg.trackjoysticks, reg.trackcontrollers[d.id := d])
    else Registry(reg.joysticks[d.id := d], reg.trackjoysticks[d.id := d], reg.trackcontrollers)
  }

  /** Handle one event. A joystick event goes to the tracked joystick when
      there is one (queueing on its control when the active set has it),
      otherwise to a tracked controller's raw handler. Controller events
      need a tracked controller and the control. Removal looks the device
      up in `joysticks`. Addition registers the device the backend opens at
      the event's index, unless its id is already registered: `opens` maps
      a device index to that device, with `isController` telling whether it
      is a game controller that is not switched to joystick mode, and lacks
      the indexes where opening fails. Quit stops the daemon. */
  function DispatchEvent(opens: map<int, Device>, reg: Registry, e: Event): (r: Dispatch)
    ensures r.touched.Some? <==> PendingWrite(reg, e).Some?
    ensures r.touched.Some? ==> r.touched.value == e.which
    ensures r.quit <==> e.Quit?
    ensures !e.DeviceRemoved? && !e.DeviceAdded? ==> r.reg == reg
    ensures e.DeviceRemoved? && e.which in reg.joysticks ==>
      r.reg == RemoveDevice(reg, Some(reg.joysticks[e.which])) &&
      r.effects == [DeviceRemovedSignal(reg.joysticks[e.which].id)]
    ensures e.DeviceAdded? && e.which in opens && opens[e.which].id !in reg.joysticks ==>
      r.reg == AddDevice(reg, opens[e.which]) && r.effects == [DeviceAddedSignal(opens[e.which].id)]
    ensures e.DeviceAdded? && !(e.which in opens && opens[e.which].id !in reg.joysticks) ==>
      r.reg == reg && r.effects == []
    ensures !e.DeviceAdded? ==>
      && r.reg.joysticks.Keys <= reg.joysticks.Keys
      && r.reg.trackjoysticks.Keys <= reg.trackjoysticks.Keys
      && r.reg.trackcontrollers.Keys <= reg.trackcontrollers.Keys
    ensures e.JoyAxis? && e.which in reg.trackjoysticks ==>
      |r.effects| > 0 && r.effects[|r.effects| - 1] == RawAxis(e.which, e.which, e.value)
  {
    match e
    case JoyButton(w, b, down) =>
      if w in reg.trackjoysticks then
        if b in reg.trackjoysticks[w].buttons then Dispatch([ButtonQueued(w, b, down)], Some(w), reg, false)
        else Dispatch([], None, reg, false)
      else if w in reg.trackcontrollers then Dispatch([GamepadRawButton(w, b, down)], None, reg, false)
      else Dispatch([], None, reg, false)
    case JoyAxis(w, a, v) =>
      if w in reg.trackjoysticks then
        if a in reg.trackjoysticks[w].axes then Dispatch([AxisQueued(w, a, v), RawAxis(w, w, v)], Some(w), reg, false)
        else Dispatch([RawAxis(w, w, v)], None, reg, false)
      else if w in reg.trackcontrollers then Dispatch([GamepadRawAxis(w, a, v)], None, reg, false)
      else Dispatch([], None, reg, false)
    case JoyHat(w, h, v) =>
      if w in reg.trackjoysticks then
        if h in reg.trackjoysticks[w].hats then Dispatch([DPadEvent(w, h, v)], Some(w), reg, false)
        else Dispatch([], None, reg, false)
      else if w in reg.trackcontrollers then Dispatch([GamepadRawDPad(w, h, v)], None, reg, false)
      else Dispatch([], None, reg, false)
    case ControllerAxis(w, a, v) =>
      if w in reg.trackcontrollers && a in reg.trackcontrollers[w].axes
      then Dispatch([AxisQueued(w, a, v)], Some(w), reg, false)
      else Dispatch([], None, reg, false)
    case ControllerButton(w, b, down) =>
      if w in reg.trackcontrollers && b in reg.trackcontrollers[w].buttons
      then Dispatch([ButtonQueued(w, b, down)], Some(w), reg, false)
      else Dispatch([], None, reg, false)
    case DeviceRemoved(w) =>
      if w in reg.joysticks
      then Dispatch([DeviceRemovedSignal(reg.joysticks[w].id)], None, RemoveDevice(reg, Some(reg.joysticks[w])), false)
      else Dispatch([], None, reg, false)
    case DeviceAdded(w) =>
      if w in opens && opens[w].id !in reg.joysticks
      then Dispatch([DeviceAddedSignal(opens[w].id)], None, AddDevice(reg, opens[w]), false)
      else Dispatch([], None, reg, false)
    case Quit => Dispatch([], None, reg, true)
    case Unhandled(_) => Dispatch([], None, reg, false)
  }

  /** The commits made after one event: for each active device in turn,
      sticks, axes, D-pads, virtual D-pads, then buttons. */
  function ActivationBlock(keys: seq<int>): (r: seq<Activation>)
    ensures |r| == 5 * |keys|
    ensures forall k, g :: 0 <= k < |keys| && 0 <= g < 5 ==> r[5 * k + g] == Activation(keys[k], GroupAt(g))
    decreases |keys|
  {
    if |keys| == 0 then []
    else
      var init := ActivationBlock(keys[..|keys| - 1]);
      var k := keys[|keys| - 1];
      init + [Activation(k, Sticks), Activation(k, Axes), Activation(k, DPads),
              Activation(k, VDPads), Activation(k, Buttons)]
  }

  /** Record a touched device the first time it is touched. */
  function Remember(active: seq<int>, touched: Option<int>): (r: seq<int>)
    ensures forall id :: id in r <==> id in active || touched == Some(id)
    ensures active <= r
  {
    if touched.Some? && touched.value !in active then active + [touched.value] else active
  }

  function Step2(opens: map<int, Device>, s: P2, e: Event): P2 {
    var d := DispatchEvent(opens, s.reg, e);
    var active := Remember(s.active, d.touched);
    P2(d.reg, active, s.stopped || d.quit, s.rounds + [Round(d.effects, d.touched, ActivationBlock(active))])
  }

  /** Pass 2 over a batch, starting with no active devices. */
  function Run2(opens: map<int, Device>, reg: Registry, stopped: bool, batch: seq<Event>): (s: P2)
    ensures |s.rounds| == |batch|
    decreases |batch|
  {
    if |batch| == 0 then P2(reg, [], stopped, [])
    else Step2(opens, Run2(opens, reg, stopped, batch[..|batch| - 1]), batch[|batch| - 1])
  }

  predicate NoDuplicates(s: seq<int>) {
    forall i, j :: 0 <= i < j < |s| ==> s[i] != s[j]
  }

  /** Every event yields exactly one round; earlier rounds are never
      revisited; each round commits, in order, every device touched up to
      and including that event, and the set of touched devices only grows. */
  lemma {:induction false} Run2Prefix(opens: map<int, Device>, reg: Registry, stopped: bool, batch: seq<Event>, n: nat)
    requires n <= |batch|
    ensures Run2(opens, reg, stopped, batch[..n]).rounds == Run2(opens, reg, stopped, batch).rounds[..n]
    ensures Run2(opens, reg, stopped, batch[..n]).active <= Run2(opens, reg, stopped, batch).active
    decreases |batch|
  {
    if n < |batch| {
      var init := batch[..|batch| - 1];
      PrefixOfPrefix(batch, |batch| - 1, n);
      Run2Prefix(opens, reg, stopped, init, n);
      Run2Step(opens, reg, stopped, batch);
      PrefixOfPrefix(Run2(opens, reg, stopped, batch).rounds, |batch| - 1, n);
    } else {
      assert batch[..n] == batch;
    }
  }

  /** One more event appends one round and only adds touched devices. */
  lemma Run2Step(opens: map<int, Device>, reg: Registry, stopped: bool, batch: seq<Event>)
    requires |batch| > 0
    ensures var init := Run2(opens, reg, stopped, batch[..|batch| - 1]);
      && Run2(opens, reg, stopped, batch).rounds[..|batch| - 1] == init.rounds
      && init.active <= Run2(opens, reg, stopped, batch).active
  {
  }

  /** Touched devices are remembered once each. */
  lemma {:induction false} ActiveNoDuplicates(opens: map<int, Device>, reg: Registry, stopped: bool, batch: seq<Event>)
    ensures NoDuplicates(Run2(opens, reg, stopped, batch).active)
    decreases |batch|
  {
    if |batch| > 0 {
      ActiveNoDuplicates(opens, reg, stopped, batch[..|batch| - 1]);
    }
  }

  /** Event `i` of the batch queued on a control of device `id`. */
  predicate TouchedAt(opens: map<int, Device>, reg: Registry, stopped: bool, batch: seq<Event>, i: int, id: int)
    requires 0 <= i < |batch|
  {
    Run2(opens, reg, stopped, batch).rounds[i].touched == Some(id)
  }

  /** The last round records the device its event was dispatched to, given
      the registry the earlier events left; with `Run2Prefix` this holds for
      every round. */
  lemma LastTouched(opens: map<int, Device>, reg: Registry, stopped: bool, batch: seq<Event>)
    requires |batch| > 0
    ensures var n := |batch| - 1;
      Run2(opens, reg, stopped, batch).rounds[n].touched == DispatchEvent(opens, Run2(opens, reg, stopped, batch[..n]).reg, batch[n]).touched
  {
  }

  lemma TouchedAtPrefix(opens: map<int, Device>, reg: Registry, stopped: bool, batch: seq<Event>, m: nat, i: nat, id: int)
    requires i < m <= |batch|
    ensures TouchedAt(opens, reg, stopped, batch[..m], i, id) == TouchedAt(opens, reg, stopped, batch, i, id)
  {
    Run2Prefix(opens, reg, stopped, batch, m);
  }

  /** One more event adds to the active devices exactly the one it touched. */
  lemma ActiveStep(opens: map<int, Device>, reg: Registry, stopped: bool, batch: seq<Event>, id: int)
    requires |batch| > 0
    ensures id in Run2(opens, reg, stopped, batch).active <==>
      id in Run2(opens, reg, stopped, batch[..|batch| - 1]).active || TouchedAt(opens, reg, stopped, batch, |batch| - 1, id)
  {
  }

  /** A device is active after the batch exactly when one of its events
      queued on a control of the active set along the way. */
  lemma {:induction false} ActiveIffTouched(opens: map<int, Device>, reg: Registry, stopped: bool, batch: seq<Event>, id: int)
    ensures id in Run2(opens, reg, stopped, batch).active <==>
      exists i :: 0 <= i < |batch| && TouchedAt(opens, reg, stopped, batch, i, id)
    decreases |batch|
  {
    if |batch| > 0 {
      var n := |batch| - 1;
      var init := batch[..n];
      ActiveIffTouched(opens, reg, stopped, init, id);
      ActiveStep(opens, reg, stopped, batch, id);
      if id in Run2(opens, reg, stopped, init).active {
        var i :| 0 <= i < n && TouchedAt(opens, reg, stopped, init, i, id);
        TouchedAtPrefix(opens, reg, stopped, batch, n, i, id);
      } else if !TouchedAt(opens, reg, stopped, batch, n, id) {
        forall i | 0 <= i < n
          ensures !TouchedAt(opens, reg, stopped, batch, i, id)
        {
          TouchedAtPrefix(opens, reg, stopped, batch, n, i, id);
        }
      }
    }
  }

  /** The round for event `i` commits exactly the devices active after
      that event, each in the fixed group order. */
  lemma RoundActivations(opens: map<int, Device>, reg: Registry, stopped: bool, batch: seq<Event>, i: nat)
    requires i < |batch|
    ensures Run2(opens, reg, stopped, batch).rounds[i].activations ==
      ActivationBlock(Run2(opens, reg, stopped, batch[..i + 1]).active)
  {
    Run2Prefix(opens, reg, stopped, batch, i + 1);
    LastRound(opens, reg, stopped, batch[..i + 1]);
  }

  lemma LastRound(opens: map<int, Device>, reg: Registry, stopped: bool, batch: seq<Event>)
    requires |batch| > 0
    ensures Run2(opens, reg, stopped, batch).rounds[|batch| - 1].activations ==
      ActivationBlock(Run2(opens, reg, stopped, batch).active)
  {
  }

  /** The five commits of device `id`, in order, starting at position `5 * k`. */
  predicate CommitsAt(acts: seq<Activation>, k: nat, id: int) {
    5 * k + 5 <= |acts| && forall g :: 0 <= g < 5 ==> acts[5 * k + g] == Activation(id, GroupAt(g))
  }

  /** Quirk kept as written: commits happen after every event. Once a
      device is touched at event `i`, the round of every later event `j`
      commits all five of its groups again, in order. */
  lemma CommitsRepeatAfterTouch(opens: map<int, Device>, reg: Registry, stopped: bool, batch: seq<Event>, i: nat, j: nat, id: int)
    requires i <= j < |batch|
    requires TouchedAt(opens, reg, stopped, batch, i, id)
    ensures exists k: nat :: CommitsAt(Run2(opens, reg, stopped, batch).rounds[j].activations, k, id)
  {
    ActiveAfterTouch(opens, reg, stopped, batch, i, j, id);
    var act := Run2(opens, reg, stopped, batch[..j + 1]).active;
    var k :| 0 <= k < |act| && act[k] == id;
    RoundActivations(opens, reg, stopped, batch, j);
    BlockCommits(act, k);
  }

  lemma ActiveAfterTouch(opens: map<int, Device>, reg: Registry, stopped: bool, batch: seq<Event>, i: nat, j: nat, id: int)
    requires i <= j < |batch|
    requires TouchedAt(opens, reg, stopped, batch, i, id)
    ensures id in Run2(opens, reg, stopped, batch[..j + 1]).active
  {
    TouchedAtPrefix(opens, reg, stopped, batch, j + 1, i, id);
    ActiveIffTouched(opens, reg, stopped, batch[..j + 1], id);
  }

  lemma BlockCommits(keys: seq<int>, k: nat)
    requires k < |keys|
    ensures CommitsAt(ActivationBlock(keys), k, keys[k])
  {
  }

  /** The daemon stops exactly when the batch holds a quit event (or it was
      already stopped). */
  lemma {:induction false} StoppedIffQuit(opens: map<int, Device>, reg: Registry, stopped: bool, batch: seq<Event>)
    ensures Run2(opens, reg, stopped, batch).stopped <==> stopped || Quit in batch
    decreases |batch|
  {
    if |batch| > 0 {
      var n := |batch| - 1;
      StoppedIffQuit(opens, reg, stopped, batch[..n]);
      StoppedStep(opens, reg, stopped, batch);
      InSnoc(batch, Quit);
    }
  }

  lemma StoppedStep(opens: map<int, Device>, reg: Registry, stopped: bool, batch: seq<Event>)
    requires |batch| > 0
    ensures Run2(opens, reg, stopped, batch).stopped ==
      (Run2(opens, reg, stopped, batch[..|batch| - 1]).stopped || batch[|batch| - 1] == Quit)
  {
  }

  lemma RegistryStep(opens: map<int, Device>, reg: Registry, stopped: bool, batch: seq<Event>)
    requires |batch| > 0
    ensures var n := |batch| - 1;
      Run2(opens, reg, stopped, batch).reg == DispatchEvent(opens, Run2(opens, reg, stopped, batch[..n]).reg, batch[n]).reg
  {
  }

  /** Without device-added events, pass 2 never adds to the registry: the
      maps after the batch are contained in the maps after any prefix of it. */
  lemma {:induction false} RegistryShrinks(opens: map<int, Device>, reg: Registry, stopped: bool, batch: seq<Event>, m: nat)
    requires m <= |batch|
    requires forall k | m <= k < |batch| :: !batch[k].DeviceAdded?
    ensures Run2(opens, reg, stopped, batch).reg.joysticks.Keys <= Run2(opens, reg, stopped, batch[..m]).reg.joysticks.Keys
    ensures Run2(opens, reg, stopped, batch).reg.trackjoysticks.Keys <= Run2(opens, reg, stopped, batch[..m]).reg.trackjoysticks.Keys
    ensures Run2(opens, reg, stopped, batch).reg.trackcontrollers.Keys <= Run2(opens, reg, stopped, batch[..m]).reg.trackcontrollers.Keys
    decreases |batch|
  {
    if m < |batch| {
      var init := batch[..|batch| - 1];
      assert init[..m] == batch[..m];
      RegistryShrinks(opens, reg, stopped, init, m);
      RegistryStep(opens, reg, stopped, batch);
    } else {
      assert batch[..m] == batch;
    }
  }

  /** `id` is in none of the three maps. */
  predicate Unregistered(r: Registry, id: int) {
    id !in r.joysticks && id !in r.trackjoysticks && id !in r.trackcontrollers
  }

  /** `e` is a device-added event whose device the backend opens with
      instance id `id`. */
  predicate AddsId(opens: map<int, Device>, e: Event, id: int) {
    e.DeviceAdded? && e.which in opens && opens[e.which].id == id
  }

  /** An id absent after a prefix stays absent unless a later device-added
      event opens a device with that id. */
  lemma AbsentStaysAbsent(opens: map<int, Device>, reg: Registry, stopped: bool, batch: seq<Event>, m: nat, id: int)
    requires m <= |batch|
    requires Unregistered(Run2(opens, reg, stopped, batch[..m]).reg, id)
    requires forall k | m <= k < |batch| :: !AddsId(opens, batch[k], id)
    ensures Unregistered(Run2(opens, reg, stopped, batch).reg, id)
  {
    AbsentUpTo(opens, reg, stopped, batch, m, |batch|, id);
    assert batch[..|batch|] == batch;
  }

  /** The same, for every prefix that extends the first `m` events. */
  lemma {:induction false} AbsentUpTo(opens: map<int, Device>, reg: Registry, stopped: bool, batch: seq<Event>,
                                      m: nat, j: nat, id: int)
    requires m <= j <= |batch|
    requires Unregistered(Run2(opens, reg, stopped, batch[..m]).reg, id)
    requires forall k | m <= k < |batch| :: !AddsId(opens, batch[k], id)
    ensures Unregistered(Run2(opens, reg, stopped, batch[..j]).reg, id)
    decreases j
  {
    if j > m {
      AbsentUpTo(opens, reg, stopped, batch, m, j - 1, id);
      AbsentStep(opens, reg, stopped, batch, j - 1, id);
    }
  }

  lemma AbsentStep(opens: map<int, Device>, reg: Registry, stopped: bool, batch: seq<Event>, j: nat, id: int)
    requires j < |batch|
    requires Unregistered(Run2(opens, reg, stopped, batch[..j]).reg, id)
    requires !AddsId(opens, batch[j], id)
    ensures Unregistered(Run2(opens, reg, stopped, batch[..j + 1]).reg, id)
  {
    var next := batch[..j + 1];
    assert next[..j] == batch[..j] && next[j] == batch[j];
    RegistryStep(opens, reg, stopped, next);
    DispatchKeepsAbsent(opens, Run2(opens, reg, stopped, batch[..j]).reg, batch[j], id);
  }

  lemma DispatchKeepsAbsent(opens: map<int, Device>, r: Registry, e: Event, id: int)
    requires Unregistered(r, id)
    requires !AddsId(opens, e, id)
    ensures Unregistered(DispatchEvent(opens, r, e).reg, id)
  {
  }

  /** A device removed at event `i` stays out of all three maps for the
      rest of the batch, provided no later device-added event opens a
      device with the same instance id (the backend does not reuse ids). */
  lemma RemovedStaysRemoved(opens: map<int, Device>, reg: Registry, stopped: bool, batch: seq<Event>, i: nat)
    requires i < |batch| && batch[i].DeviceRemoved?
    requires batch[i].which in Run2(opens, reg, stopped, batch[..i]).reg.joysticks
    requires var id := Run2(opens, reg, stopped, batch[..i]).reg.joysticks[batch[i].which].id;
      forall k | i < k < |batch| :: !AddsId(opens, batch[k], id)
    ensures var id := Run2(opens, reg, stopped, batch[..i]).reg.joysticks[batch[i].which].id;
      Unregistered(Run2(opens, reg, stopped, batch).reg, id)
  {
    var upto := batch[..i + 1];
    assert upto[..i] == batch[..i] && upto[i] == batch[i];
    RegistryStep(opens, reg, stopped, upto);
    AbsentStaysAbsent(opens, reg, stopped, batch, i + 1,
      Run2(opens, reg, stopped, batch[..i]).reg.joysticks[batch[i].which].id);
  }

  /** A device-added event for a device the backend opens, whose id is not
      yet registered, registers it in `joysticks` and in the track map of
      its kind, and announces it. */
  lemma AddedIsRegistered(opens: map<int, Device>, reg: Registry, stopped: bool, batch: seq<Event>)
    requires |batch| > 0 && batch[|batch| - 1].DeviceAdded?
    requires var w := batch[|batch| - 1].which;
      w in opens && opens[w].id !in Run2(opens, reg, stopped, batch[..|batch| - 1]).reg.joysticks
    ensures var d := opens[batch[|batch| - 1].which];
      var s := Run2(opens, reg, stopped, batch);
      && s.reg.joysticks[d.id] == d
      && (if d.isController then s.reg.trackcontrollers[d.id] == d else s.reg.trackjoysticks[d.id] == d)
      && s.rounds[|batch| - 1].effects == [DeviceAddedSignal(d.id)]
  {
    RegistryStep(opens, reg, stopped, batch);
  }

  /** What the tail of `run` emits once the daemon is stopped. */
  datatype Completion =
      /** `complete(joystick)` with the device stored under key 0 of
          `joysticks`, or a null pointer when that key is missing. */
    | CompleteWith(device: Option<Device>)
    | CompleteBare

  /** One call of `InputDaemon::run`: the passes' outcome, the completion
      signals, whether the next wait was scheduled, and the stop flag it
      leaves behind. */
  datatype Cycle = Cycle(pass: P2, completions: seq<Completion>, rescheduled: bool, stopped: bool)

  /** The passes of `run`: pass 1, the unplug rewrite (visiting the release
      table's devices in the hash order `order`, which lists every one of
      them), then pass 2 over the rewritten batch. A daemon stopped on entry
      runs none of them. */
  function Passes(opens: map<int, Device>, reg: Registry, stopped: bool, events: seq<Event>, order: seq<Device>): P2
    requires !stopped ==> forall d :: d in Run(reg, events).release ==> d in order
  {
    if stopped then P2(reg, [], true, [])
    else
      var p := Run(reg, events);
      Run2(opens, reg, false, ModifyUnplugEvents(reg, p, order, p.queue))
  }

  /** The completion signals for the registry left by the passes: the
      device-carrying one only when some device is open, then the bare one. */
  function Completions(reg: Registry): (r: seq<Completion>)
    ensures |r| > 0 && r[|r| - 1] == CompleteBare
    ensures |r| == 2 <==> |reg.joysticks| > 0
    ensures |r| == 2 ==> r[0] == CompleteWith(if 0 in reg.joysticks then Some(reg.joysticks[0]) else None)
  {
    if |reg.joysticks| > 0 then
      [CompleteWith(if 0 in reg.joysticks then Some(reg.joysticks[0]) else None), CompleteBare]
    else [CompleteBare]
  }

  /** `run`: the passes when not stopped; then, if the daemon is stopped
      (on entry or by a quit event), the completion signals and the reset
      of the flag, and otherwise the scheduling of the next wait. */
  function Poll(opens: map<int, Device>, reg: Registry, stopped: bool, events: seq<Event>, order: seq<Device>): (r: Cycle)
    requires !stopped ==> forall d :: d in Run(reg, events).release ==> d in order
    ensures !r.stopped
    ensures r.completions != [] <==> r.pass.stopped
    ensures r.rescheduled <==> r.completions == []
    ensures r.completions != [] ==> r.completions == Completions(r.pass.reg)
    ensures stopped ==> r.pass.rounds == [] && r.pass.reg == reg && r.completions != []
  {
    var pass := Passes(opens, reg, stopped, events, order);
    if pass.stopped then Cycle(pass, Completions(pass.reg), false, false)
    else Cycle(pass, [], true, false)
  }

  /** One round per event kept by pass 1, whatever the hash order, unless
      the daemon was stopped on entry. */
  lemma PollRounds(opens: map<int, Device>, reg: Registry, stopped: bool, events: seq<Event>, order: seq<Device>)
    requires !stopped ==> forall d :: d in Run(reg, events).release ==> d in order
    ensures |Poll(opens, reg, stopped, events, order).pass.rounds| == if stopped then 0 else |Filter(reg, events)|
  {
    if !stopped {
      var p := Run(reg, events);
      QueueIsFilter(reg, events);
      ModifyUnplugIsPointwise(reg, p, order, p.queue);
    }
  }

  /** The passes are pass 2 over the kept events, each rewritten on its own
      exactly when its device is unplugged. */
  lemma PollIsPointwise(opens: map<int, Device>, reg: Registry, stopped: bool, events: seq<Event>, order: seq<Device>)
    requires !stopped ==> forall d :: d in Run(reg, events).release ==> d in order
    ensures Poll(opens, reg, stopped, events, order).pass ==
      if stopped then P2(reg, [], true, [])
      else Run2(opens, reg, false, RewriteAll(reg, UnpluggedIds(Run(reg, events)), Filter(reg, events)))
  {
    if !stopped {
      var p := Run(reg, events);
      QueueIsFilter(reg, events);
      ModifyUnplugIsPointwise(reg, p, order, p.queue);
      TriggeredIdsCover(p, order);
    }
  }

  /** Hence the hash order does not matter. */
  lemma PollOrderIndependent(opens: map<int, Device>, reg: Registry, stopped: bool, events: seq<Event>,
                             order1: seq<Device>, order2: seq<Device>)
    requires !stopped ==> forall d :: d in Run(reg, events).release ==> d in order1
    requires !stopped ==> forall d :: d in Run(reg, events).release ==> d in order2
    ensures Poll(opens, reg, stopped, events, order1) == Poll(opens, reg, stopped, events, order2)
  {
    PollIsPointwise(opens, reg, stopped, events, order1);
    PollIsPointwise(opens, reg, stopped, events, order2);
  }

  /** The unplug rewrite neither creates nor removes quit events. */
  lemma RewriteKeepsQuit(reg: Registry, ids: set<int>, queue: seq<Event>)
    ensures Quit in RewriteAll(reg, ids, queue) <==> Quit in queue
  {
    var r := RewriteAll(reg, ids, queue);
    if Quit in r {
      var i :| 0 <= i < |r| && r[i] == Quit;
      assert queue[i] == Quit;
    }
    if Quit in queue {
      var i :| 0 <= i < |queue| && queue[i] == Quit;
      assert r[i] == Quit;
    }
  }

  /** `run` emits the completion signals exactly when the daemon was stopped
      on entry or the batch holds a quit event, and it always leaves the
      flag cleared. */
  lemma PollCompletesIffStoppedOrQuit(opens: map<int, Device>, reg: Registry, stopped: bool, events: seq<Event>,
                                      order: seq<Device>)
    requires !stopped ==> forall d :: d in Run(reg, events).release ==> d in order
    ensures Poll(opens, reg, stopped, events, order).completions != [] <==> stopped || Quit in events
    ensures !Poll(opens, reg, stopped, events, order).stopped
  {
    if !stopped {
      var ids := UnpluggedIds(Run(reg, events));
      PollIsPointwise(opens, reg, stopped, events, order);
      StoppedIffQuit(opens, reg, false, RewriteAll(reg, ids, Filter(reg, events)));
      RewriteKeepsQuit(reg, ids, Filter(reg, events));
      assert Quit in Filter(reg, events) <==> Quit in events;
    }
  }
}
