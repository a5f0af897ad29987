/** The unplug heuristic between the two passes
    (`InputDaemon::createUnplugEventBitArray`, `modifyUnplugEvents`): when a
    device's release-tracking array reports every axis released and its
    pending array equals the synthetic unplug pattern, that device's axis
    events in the batch are rewritten to their release values. */
module UnplugRewrite {
  import opened Common
  import opened DeviceModel
  import opened BitArrays
  import opened FirstPass

  predicate NonNormalAxis(d: Device, i: int) {
    i in d.axes && d.axes[i].throttle != NormalThrottle
  }

  /** The status after marking the first `n` raw axes: start all-clear and set
      each axis that exists and is not in normal throttle. */
  function UnplugStatus(d: Device, n: nat): (b: BitStatus)
    requires n <= d.rawAxes
    ensures SameShape(b, Blank(d))
    ensures forall i :: 0 <= i < d.rawAxes ==> b.axes[i] == (i < n && NonNormalAxis(d, i))
    ensures forall i :: 0 <= i < d.rawHats ==> !b.hats[i]
    ensures forall i :: 0 <= i < d.rawButtons ==> !b.buttons[i]
  {
    if n == 0 then Blank(d)
    else
      var b := UnplugStatus(d, n - 1);
      if NonNormalAxis(d, n - 1) then Change(b, AxisSlot(n - 1), true) else b
  }

  /** The synthetic unplug pattern: bit `i` is set exactly when axis `i`
      exists in the active set and is not in normal throttle; every hat and
      button bit is clear. */
  function UnplugBits(d: Device): (bits: seq<bool>)
    ensures |bits| == d.rawAxes + d.rawHats + d.rawButtons
    ensures forall i :: 0 <= i < |bits| ==> bits[i] == (i < d.rawAxes && NonNormalAxis(d, i))
  {
    Final(UnplugStatus(d, d.rawAxes))
  }

  /** The rewrite condition for one device. */
  predicate Triggered(p: Pass1, d: Device) {
    && d in p.release
    && |Final(p.release[d])| > 0
    && CountTrue(Final(p.release[d])) == d.numberAxes
    && d in p.pending
    && |Final(p.pending[d])| == |Final(p.release[d])|
    && Final(p.pending[d]) == UnplugBits(d)
  }

  /** The value an axis event is rewritten to, when it is eligible: a
      joystick axis whose throttle is not normal, or a controller trigger. */
  function ReleaseValueFor(reg: Registry, e: Event): Option<int> {
    match e
    case JoyAxis(w, a, _) =>
      if w in reg.trackjoysticks && a in reg.trackjoysticks[w].axes &&
         reg.trackjoysticks[w].axes[a].throttle != NormalThrottle
      then Some(ToShort(reg.trackjoysticks[w].axes[a].releaseValue)) else None
    case ControllerAxis(w, a, _) =>
      if w in reg.trackcontrollers && a in reg.trackcontrollers[w].axes && IsTrigger(a)
      then Some(ToShort(reg.trackcontrollers[w].axes[a].releaseValue)) else None
    case _ => None
  }

  /** Rewrite one event for the devices whose ids are in `ids`. Only axis
      events of those devices change, only their value changes, and it
      becomes the axis's release value. */
  function RewriteEvent(reg: Registry, ids: set<int>, e: Event): (r: Event)
    ensures r.JoyAxis? == e.JoyAxis? && r.ControllerAxis? == e.ControllerAxis?
    ensures !(e.JoyAxis? || e.ControllerAxis?) ==> r == e
    ensures (e.JoyAxis? || e.ControllerAxis?) ==> r.which == e.which && r.axis == e.axis
    ensures (e.JoyAxis? || e.ControllerAxis?) && e.which in ids && ReleaseValueFor(reg, e).Some? ==>
      r.value == ReleaseValueFor(reg, e).value
    ensures r != e ==> e.which in ids && ReleaseValueFor(reg, e).Some?
  {
    match e
    case JoyAxis(w, a, _) =>
      if w in ids && ReleaseValueFor(reg, e).Some? then JoyAxis(w, a, ReleaseValueFor(reg, e).value) else e
    case ControllerAxis(w, a, _) =>
      if w in ids && ReleaseValueFor(reg, e).Some? then ControllerAxis(w, a, ReleaseValueFor(reg, e).value) else e
    case _ => e
  }

  function RewriteAll(reg: Registry, ids: set<int>, queue: seq<Event>): (r: seq<Event>)
    ensures |r| == |queue|
    ensures forall i :: 0 <= i < |queue| ==> r[i] == RewriteEvent(reg, ids, queue[i])
  {
    seq(|queue|, i requires 0 <= i < |queue| => RewriteEvent(reg, ids, queue[i]))
  }

  /** `modifyUnplugEvents`: visit the devices holding a release entry in hash
      order `order`, rewriting the batch once per device that meets the
      condition. */
  function ModifyUnplugEvents(reg: Registry, p: Pass1, order: seq<Device>, queue: seq<Event>): seq<Event>
    decreases |order|
  {
    if |order| == 0 then queue
    else
      var q := ModifyUnplugEvents(reg, p, order[..|order| - 1], queue);
      var d := order[|order| - 1];
      if Triggered(p, d) then RewriteAll(reg, {d.id}, q) else q
  }

  function TriggeredIds(p: Pass1, order: seq<Device>): set<int> {
    set d | d in order && Triggered(p, d) :: d.id
  }

  /** The ids of the devices in the release table that meet the trigger
      condition. */
  function UnpluggedIds(p: Pass1): set<int> {
    set d | d in p.release && Triggered(p, d) :: d.id
  }

  /** An order that visits every device of the release table, as the hash
      iteration does, triggers exactly the unplugged ids. */
  lemma TriggeredIdsCover(p: Pass1, order: seq<Device>)
    requires forall d :: d in p.release ==> d in order
    ensures TriggeredIds(p, order) == UnpluggedIds(p)
  {
    forall id | id in UnpluggedIds(p)
      ensures id in TriggeredIds(p, order)
    {
      var d :| d in p.release && Triggered(p, d) && d.id == id;
      assert d in order;
    }
  }

  lemma RewriteCompose(reg: Registry, ids: set<int>, id: int, e: Event)
    ensures RewriteEvent(reg, {id}, RewriteEvent(reg, ids, e)) == RewriteEvent(reg, ids + {id}, e)
  {
  }

  /** The rewrite does not depend on the hash order: the batch keeps its
      length and order, and each event is rewritten exactly when its device
      met the condition. */
  lemma {:induction false} ModifyUnplugIsPointwise(reg: Registry, p: Pass1, order: seq<Device>, queue: seq<Event>)
    ensures ModifyUnplugEvents(reg, p, order, queue) == RewriteAll(reg, TriggeredIds(p, order), queue)
    decreases |order|
  {
    if |order| == 0 {
      assert TriggeredIds(p, order) == {};
      forall i | 0 <= i < |queue|
        ensures RewriteEvent(reg, {}, queue[i]) == queue[i]
      {
      }
    } else {
      var n := |order| - 1;
      var d := order[n];
      ModifyUnplugIsPointwise(reg, p, order[..n], queue);
      var before := TriggeredIds(p, order[..n]);
      assert order == order[..n] + [d];
      if Triggered(p, d) {
        assert TriggeredIds(p, order) == before + {d.id};
        forall i | 0 <= i < |queue|
          ensures RewriteEvent(reg, {d.id}, RewriteEvent(reg, before, queue[i])) ==
                  RewriteEvent(reg, before + {d.id}, queue[i])
        {
          RewriteCompose(reg, before, d.id, queue[i]);
        }
      } else {
        assert TriggeredIds(p, order) == before;
      }
    }
  }

  /** A device tracked only as a plain joystick: no controller entry is it. */
  predicate JoystickOnly(reg: Registry, d: Device) {
    forall w :: w in reg.trackcontrollers ==> reg.trackcontrollers[w] != d
  }

  /** Because a plain joystick records `axis index == 0` as its release bit,
      whatever it wrote last to axis `i` is `i == 0`, and it never writes a
      hat or button release bit. */
  lemma {:induction false} JoystickReleaseWrites(reg: Registry, events: seq<Event>, d: Device, s: Slot)
    requires JoystickOnly(reg, d)
    ensures LastWrite(Release, reg, events, d, s).Some? ==>
      s.AxisSlot? && LastWrite(Release, reg, events, d, s).value == (s.index == 0)
    decreases |events|
  {
    if |events| > 0 {
      JoystickReleaseWrites(reg, events[..|events| - 1], d, s);
    }
  }

  lemma JoystickReleaseBit(reg: Registry, events: seq<Event>, d: Device, s: Slot)
    requires JoystickOnly(reg, d)
    requires d in Run(reg, events).release
    requires InRange(Blank(d), s)
    ensures InRange(Run(reg, events).release[d], s)
    ensures Bit(Run(reg, events).release[d], s) ==> s == AxisSlot(0)
  {
    TableBit(Release, reg, events, d, s);
    JoystickReleaseWrites(reg, events, d, s);
  }

  /** Whatever axis values arrive, a plain joystick's release array can only
      have its axis-0 bit set. */
  lemma JoystickReleaseBitsOnlyAxisZero(reg: Registry, events: seq<Event>, d: Device, k: int)
    requires JoystickOnly(reg, d)
    requires d in Run(reg, events).release
    requires 0 <= k < |Final(Run(reg, events).release[d])|
    requires Final(Run(reg, events).release[d])[k]
    ensures k == 0
  {
    var entry := Run(reg, events).release[d];
    TableShape(Release, reg, events, d);
    var s := SlotOf(entry, k);
    JoystickReleaseBit(reg, events, d, s);
  }

  lemma {:induction false} CountTrueAtMostFirst(bits: seq<bool>)
    requires forall k :: 0 <= k < |bits| && bits[k] ==> k == 0
    ensures CountTrue(bits) <= 1
    decreases |bits|
  {
    if |bits| > 1 {
      CountTrueAtMostFirst(bits[..|bits| - 1]);
    }
  }

  /** Consequence of the recorded quirk: the rewrite never fires for a plain
      joystick that reports two or more axes. */
  lemma JoystickNeverRewritten(reg: Registry, events: seq<Event>, d: Device)
    requires JoystickOnly(reg, d)
    requires d.numberAxes >= 2
    ensures !Triggered(Run(reg, events), d)
  {
    if d in Run(reg, events).release {
      var bits := Final(Run(reg, events).release[d]);
      forall k | 0 <= k < |bits| && bits[k]
        ensures k == 0
      {
        JoystickReleaseBitsOnlyAxisZero(reg, events, d, k);
      }
      CountTrueAtMostFirst(bits);
    }
  }
}
