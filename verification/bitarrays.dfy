/** Per-device bit-array status used during one poll cycle: one bit per raw
    axis, hat and button, flattened in that order. */
module BitArrays {
  import opened Common
  import opened DeviceModel

  datatype BitStatus = BitStatus(axes: seq<bool>, hats: seq<bool>, buttons: seq<bool>)

  datatype Slot = AxisSlot(index: int) | HatSlot(index: int) | ButtonSlot(index: int)

  predicate SameShape(a: BitStatus, b: BitStatus) {
    |a.axes| == |b.axes| && |a.hats| == |b.hats| && |a.buttons| == |b.buttons|
  }

  predicate InRange(b: BitStatus, s: Slot) {
    match s
    case AxisSlot(i) => 0 <= i < |b.axes|
    case HatSlot(i) => 0 <= i < |b.hats|
    case ButtonSlot(i) => 0 <= i < |b.buttons|
  }

  function Bit(b: BitStatus, s: Slot): bool
    requires InRange(b, s)
  {
    match s
    case AxisSlot(i) => b.axes[i]
    case HatSlot(i) => b.hats[i]
    case ButtonSlot(i) => b.buttons[i]
  }

  /** Set one bit; an index outside the array is ignored. */
  function Change(b: BitStatus, s: Slot, bit: bool): (r: BitStatus)
    ensures SameShape(r, b)
    ensures InRange(b, s) ==> Bit(r, s) == bit
    ensures forall t :: InRange(b, t) && t != s ==> Bit(r, t) == Bit(b, t)
    ensures !InRange(b, s) ==> r == b
  {
    match s
    case AxisSlot(i) => if 0 <= i < |b.axes| then b.(axes := b.axes[i := bit]) else b
    case HatSlot(i) => if 0 <= i < |b.hats| then b.(hats := b.hats[i := bit]) else b
    case ButtonSlot(i) => if 0 <= i < |b.buttons| then b.(buttons := b.buttons[i := bit]) else b
  }

  /** The flattened array (`generateFinalBitArray`). */
  function Final(b: BitStatus): (bits: seq<bool>)
    ensures |bits| == |b.axes| + |b.hats| + |b.buttons|
    ensures forall i :: 0 <= i < |b.axes| ==> bits[i] == b.axes[i]
    ensures forall i :: 0 <= i < |b.hats| ==> bits[|b.axes| + i] == b.hats[i]
    ensures forall i :: 0 <= i < |b.buttons| ==> bits[|b.axes| + |b.hats| + i] == b.buttons[i]
  {
    b.axes + b.hats + b.buttons
  }

  /** The slot that flattened index `k` of `Final(b)` belongs to; it is in
      range for every status of the same shape. */
  function SlotOf(b: BitStatus, k: int): (s: Slot)
    requires 0 <= k < |Final(b)|
    ensures InRange(b, s) && Bit(b, s) == Final(b)[k]
    ensures forall c :: SameShape(b, c) ==> InRange(c, s)
  {
    if k < |b.axes| then AxisSlot(k)
    else if k < |b.axes| + |b.hats| then HatSlot(k - |b.axes|)
    else ButtonSlot(k - |b.axes| - |b.hats|)
  }

  /** A status whose every bit is clear, sized by the device's raw counts. */
  function Blank(d: Device): BitStatus {
    BitStatus(seq(d.rawAxes, _ => false), seq(d.rawHats, _ => false), seq(d.rawButtons, _ => false))
  }

  /** A status read from the device's current control states. */
  function Current(d: Device): BitStatus {
    BitStatus(
      seq(d.rawAxes, i => AxisActive(d, i)),
      seq(d.rawHats, i => HatActive(d, i)),
      seq(d.rawButtons, i => ButtonActive(d, i)))
  }

  /** The status a new entry starts with (`readCurrent` selects which). */
  function Initial(d: Device, readCurrent: bool): (b: BitStatus)
    ensures SameShape(b, Blank(d))
    ensures !readCurrent ==> forall s :: InRange(b, s) ==> !Bit(b, s)
    ensures readCurrent ==> forall i :: 0 <= i < d.rawAxes ==> Bit(b, AxisSlot(i)) == AxisActive(d, i)
  {
    if readCurrent then Current(d) else Blank(d)
  }

  /** `createOrGrabBitStatusEntry`: the device's entry, created on first use. */
  function CreateOrGrab(hash: map<Device, BitStatus>, d: Device, readCurrent: bool)
    : (r: (map<Device, BitStatus>, BitStatus))
    ensures d in r.0 && r.0[d] == r.1
    ensures r.0.Keys == hash.Keys + {d}
    ensures d in hash ==> r.0 == hash
    ensures d !in hash ==> r.1 == Initial(d, readCurrent)
    ensures forall e :: e in hash ==> r.0[e] == hash[e]
  {
    if d !in hash then
      var entry := Initial(d, readCurrent);
      (hash[d := entry], entry)
    else
      (hash, hash[d])
  }

  /** Grabbing twice hands back the entry created the first time, whatever
      `readCurrent` the second call passes. */
  lemma CreateOrGrabIdempotent(hash: map<Device, BitStatus>, d: Device, first: bool, second: bool)
    ensures CreateOrGrab(CreateOrGrab(hash, d, first).0, d, second) == CreateOrGrab(hash, d, first)
  {
  }

  /** Each bit of the flattened array can be read back through its slot. */
  lemma FinalSlot(b: BitStatus, s: Slot)
    requires InRange(b, s)
    ensures s.AxisSlot? ==> Final(b)[s.index] == Bit(b, s)
    ensures s.HatSlot? ==> Final(b)[|b.axes| + s.index] == Bit(b, s)
    ensures s.ButtonSlot? ==> Final(b)[|b.axes| + |b.hats| + s.index] == Bit(b, s)
  {
  }
}
