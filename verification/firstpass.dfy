/** Pass 1 of a poll cycle (`InputDaemon::firstInputPass`): drain the raw
    events into an ordered batch while recording, per device, a "pending"
    bit array (is each control active?) and a "release-tracking" bit array
    (does each axis sit at its release value?). */
module FirstPass {
  import opened Common
  import opened DeviceModel
  import opened BitArrays

  datatype Table = Pending | Release

  /** One bit written into one device's entry of one table. */
  datatype BitWrite = BitWrite(dev: Device, slot: Slot, bit: bool)

  datatype Pass1 = Pass1(
    queue: seq<Event>,
    release: map<Device, BitStatus>,
    pending: map<Device, BitStatus>)

  /** Whether pass 1 appends the event to the batch. Joystick events from a
      device that is not tracked as a joystick are kept; controller events
      need a tracked controller with that control; hot-plug and quit events
      are always kept; every other event type is dropped. */
  predicate Keep(reg: Registry, e: Event) {
    match e
    case JoyButton(w, b, _) =>
      w !in reg.trackjoysticks || b in reg.trackjoysticks[w].buttons
    case JoyAxis(w, a, _) =>
      w !in reg.trackjoysticks || a in reg.trackjoysticks[w].axes
    case JoyHat(w, h, _) =>
      w !in reg.trackjoysticks || h in reg.trackjoysticks[w].hats
    case ControllerAxis(w, a, _) =>
      w in reg.trackcontrollers && a in reg.trackcontrollers[w].axes
    case ControllerButton(w, b, _) =>
      w in reg.trackcontrollers && b in reg.trackcontrollers[w].buttons
    case DeviceAdded(_) => true
    case DeviceRemoved(_) => true
    case Quit => true
    case Unhandled(_) => false
  }

  /** The pending bit an event records: a button's pressed state, whether an
      axis sample lies outside the dead zone, whether a hat is off-centre. */
  function PendingWrite(reg: Registry, e: Event): Option<BitWrite> {
    match e
    case JoyButton(w, b, down) =>
      if w in reg.trackjoysticks && b in reg.trackjoysticks[w].buttons
      then Some(BitWrite(reg.trackjoysticks[w], ButtonSlot(b), down)) else None
    case JoyAxis(w, a, v) =>
      if w in reg.trackjoysticks && a in reg.trackjoysticks[w].axes
      then Some(BitWrite(reg.trackjoysticks[w], AxisSlot(a), !InDeadZone(reg.trackjoysticks[w].axes[a], v)))
      else None
    case JoyHat(w, h, v) =>
      if w in reg.trackjoysticks && h in reg.trackjoysticks[w].hats
      then Some(BitWrite(reg.trackjoysticks[w], HatSlot(h), v != 0)) else None
    case ControllerAxis(w, a, v) =>
      if w in reg.trackcontrollers && a in reg.trackcontrollers[w].axes
      then Some(BitWrite(reg.trackcontrollers[w], AxisSlot(a), !InDeadZone(reg.trackcontrollers[w].axes[a], v)))
      else None
    case ControllerButton(w, b, down) =>
      if w in reg.trackcontrollers && b in reg.trackcontrollers[w].buttons
      then Some(BitWrite(reg.trackcontrollers[w], ButtonSlot(b), down)) else None
    case _ => None
  }

  /** The release-tracking bit an axis event records. For a controller a
      trigger is released at 16384 and any other axis at 0. For a plain
      joystick the source records `axis index == 0`, not `value == 0`; the
      model keeps that as written. */
  function ReleaseWrite(reg: Registry, e: Event): Option<BitWrite> {
    match e
    case JoyAxis(w, a, v) =>
      if w in reg.trackjoysticks && a in reg.trackjoysticks[w].axes
      then Some(BitWrite(reg.trackjoysticks[w], AxisSlot(a), a == 0)) else None
    case ControllerAxis(w, a, v) =>
      if w in reg.trackcontrollers && a in reg.trackcontrollers[w].axes
      then Some(BitWrite(reg.trackcontrollers[w], AxisSlot(a),
                         if IsTrigger(a) then v == GameControllerTriggerRelease else v == 0))
      else None
    case _ => None
  }

  function TableWrite(t: Table, reg: Registry, e: Event): Option<BitWrite> {
    if t == Pending then PendingWrite(reg, e) else ReleaseWrite(reg, e)
  }

  /** Pending entries start from the device's current control states,
      release entries from all-clear. */
  function ReadsCurrent(t: Table): bool {
    t == Pending
  }

  function TableOf(p: Pass1, t: Table): map<Device, BitStatus> {
    if t == Pending then p.pending else p.release
  }

  function Apply(hash: map<Device, BitStatus>, w: Option<BitWrite>, readCurrent: bool)
    : (r: map<Device, BitStatus>)
    ensures forall e :: e in r <==> e in hash || (w.Some? && w.value.dev == e)
    ensures forall e :: e in hash && !(w.Some? && w.value.dev == e) ==> r[e] == hash[e]
    ensures w.Some? ==>
      r[w.value.dev] == Change(if w.value.dev in hash then hash[w.value.dev]
                               else Initial(w.value.dev, readCurrent), w.value.slot, w.value.bit)
  {
    match w
    case None => hash
    case Some(bw) =>
      var (h, entry) := CreateOrGrab(hash, bw.dev, readCurrent);
      h[bw.dev := Change(entry, bw.slot, bw.bit)]
  }

  function Step(reg: Registry, p: Pass1, e: Event): Pass1 {
    Pass1(
      if Keep(reg, e) then p.queue + [e] else p.queue,
      Apply(p.release, ReleaseWrite(reg, e), ReadsCurrent(Release)),
      Apply(p.pending, PendingWrite(reg, e), ReadsCurrent(Pending)))
  }

  /** Pass 1 over the drained events, in order. */
  function Run(reg: Registry, events: seq<Event>): Pass1
    decreases |events|
  {
    if |events| == 0 then Pass1([], map[], map[])
    else Step(reg, Run(reg, events[..|events| - 1]), events[|events| - 1])
  }

  /** Reference definition: the kept events, in their original order. */
  function Filter(reg: Registry, events: seq<Event>): (r: seq<Event>)
    ensures |r| <= |events|
    ensures forall e :: e in r <==> e in events && Keep(reg, e)
    decreases |events|
  {
    if |events| == 0 then []
    else
      var init := Filter(reg, events[..|events| - 1]);
      assert events == events[..|events| - 1] + [events[|events| - 1]];
      if Keep(reg, events[|events| - 1]) then init + [events[|events| - 1]] else init
  }

  /** Pass 1's batch is exactly the kept events in drain order. */
  lemma {:induction false} QueueIsFilter(reg: Registry, events: seq<Event>)
    ensures Run(reg, events).queue == Filter(reg, events)
    decreases |events|
  {
    if |events| > 0 {
      QueueIsFilter(reg, events[..|events| - 1]);
    }
  }

  /** The last value written to one bit of one device's entry, if any. */
  function LastWrite(t: Table, reg: Registry, events: seq<Event>, d: Device, s: Slot): Option<bool>
    decreases |events|
  {
    if |events| == 0 then None
    else
      var w := TableWrite(t, reg, events[|events| - 1]);
      if w.Some? && w.value.dev == d && w.value.slot == s then Some(w.value.bit)
      else LastWrite(t, reg, events[..|events| - 1], d, s)
  }

  /** Whether any event writes into device `d`'s entry of table `t`. */
  predicate Touches(t: Table, reg: Registry, events: seq<Event>, d: Device) {
    exists i :: 0 <= i < |events| && TableWrite(t, reg, events[i]).Some? &&
      TableWrite(t, reg, events[i]).value.dev == d
  }

  lemma TouchesSnoc(t: Table, reg: Registry, events: seq<Event>, d: Device)
    requires |events| > 0
    ensures var w := TableWrite(t, reg, events[|events| - 1]);
      Touches(t, reg, events, d) <==>
        Touches(t, reg, events[..|events| - 1], d) || (w.Some? && w.value.dev == d)
  {
    var n := |events| - 1;
    if Touches(t, reg, events[..n], d) {
      var i :| 0 <= i < n && TableWrite(t, reg, events[..n][i]).Some? &&
        TableWrite(t, reg, events[..n][i]).value.dev == d;
      assert events[..n][i] == events[i];
    }
    if Touches(t, reg, events, d) {
      var i :| 0 <= i < |events| && TableWrite(t, reg, events[i]).Some? &&
        TableWrite(t, reg, events[i]).value.dev == d;
      if i < n {
        assert events[..n][i] == events[i];
      }
    }
  }

  /** A device has an entry exactly when some event wrote to it. */
  lemma {:induction false} TableKeys(t: Table, reg: Registry, events: seq<Event>, d: Device)
    ensures d in TableOf(Run(reg, events), t) <==> Touches(t, reg, events, d)
    decreases |events|
  {
    if |events| > 0 {
      TableKeys(t, reg, events[..|events| - 1], d);
      TouchesSnoc(t, reg, events, d);
    }
  }

  /** Every entry keeps the device's array sizes. */
  lemma {:induction false} TableShape(t: Table, reg: Registry, events: seq<Event>, d: Device)
    requires d in TableOf(Run(reg, events), t)
    ensures SameShape(TableOf(Run(reg, events), t)[d], Blank(d))
    decreases |events|
  {
    var n := |events| - 1;
    if d in TableOf(Run(reg, events[..n]), t) {
      TableShape(t, reg, events[..n], d);
    }
  }

  lemma RunTable(t: Table, reg: Registry, events: seq<Event>)
    requires |events| > 0
    ensures TableOf(Run(reg, events), t) ==
      Apply(TableOf(Run(reg, events[..|events| - 1]), t), TableWrite(t, reg, events[|events| - 1]), ReadsCurrent(t))
  {
  }

  /** How one write moves one bit of one entry. */
  lemma ApplyBit(before: map<Device, BitStatus>, w: Option<BitWrite>, rc: bool, d: Device, s: Slot)
    requires d in Apply(before, w, rc)
    requires InRange(Blank(d), s)
    requires d in before ==> SameShape(before[d], Blank(d))
    ensures InRange(Apply(before, w, rc)[d], s)
    ensures Bit(Apply(before, w, rc)[d], s) ==
      if w.Some? && w.value.dev == d && w.value.slot == s then w.value.bit
      else if d in before then Bit(before[d], s)
      else Bit(Initial(d, rc), s)
  {
    if w.Some? && w.value.dev == d {
      var base := if d in before then before[d] else Initial(d, rc);
      assert SameShape(base, Blank(d));
      assert Apply(before, w, rc)[d] == Change(base, w.value.slot, w.value.bit);
    } else {
      assert Apply(before, w, rc)[d] == before[d];
    }
  }

  lemma LastWriteSnoc(t: Table, reg: Registry, events: seq<Event>, d: Device, s: Slot)
    requires |events| > 0
    ensures var w := TableWrite(t, reg, events[|events| - 1]);
      LastWrite(t, reg, events, d, s) ==
        if w.Some? && w.value.dev == d && w.value.slot == s then Some(w.value.bit)
        else LastWrite(t, reg, events[..|events| - 1], d, s)
  {
  }

  /** Each in-range bit of an entry is the last value written to it, or the
      entry's initial value when nothing wrote that bit. */
  lemma {:induction false} TableBit(t: Table, reg: Registry, events: seq<Event>, d: Device, s: Slot)
    requires d in TableOf(Run(reg, events), t)
    requires InRange(Blank(d), s)
    ensures InRange(TableOf(Run(reg, events), t)[d], s)
    ensures Bit(TableOf(Run(reg, events), t)[d], s) ==
        match LastWrite(t, reg, events, d, s)
        case Some(b) => b
        case None => Bit(Initial(d, ReadsCurrent(t)), s)
    decreases |events|
  {
    var n := |events| - 1;
    var init := events[..n];
    var before := TableOf(Run(reg, init), t);
    var w := TableWrite(t, reg, events[n]);
    RunTable(t, reg, events);
    LastWriteSnoc(t, reg, events, d, s);
    if d in before {
      TableShape(t, reg, init, d);
      TableBit(t, reg, init, d, s);
    } else {
      TableKeys(t, reg, init, d);
      if LastWrite(t, reg, init, d, s).Some? {
        LastWriteTouches(t, reg, init, d, s);
      }
    }
    ApplyBit(before, w, ReadsCurrent(t), d, s);
  }

  lemma {:induction false} LastWriteTouches(t: Table, reg: Registry, events: seq<Event>, d: Device, s: Slot)
    requires LastWrite(t, reg, events, d, s).Some?
    ensures Touches(t, reg, events, d)
    decreases |events|
  {
    var n := |events| - 1;
    var w := TableWrite(t, reg, events[n]);
    if !(w.Some? && w.value.dev == d && w.value.slot == s) {
      LastWriteTouches(t, reg, events[..n], d, s);
      var i :| 0 <= i < n && TableWrite(t, reg, events[..n][i]).Some? &&
        TableWrite(t, reg, events[..n][i]).value.dev == d;
      assert events[..n][i] == events[i];
    }
  }
}
