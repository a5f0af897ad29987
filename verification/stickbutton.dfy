/** The eight direction buttons of a control stick
    (`JoyControlStickButton`): direction and display names, set-change
    condition, spring dead circle and the index accessors. */
module StickButton {
  import opened Common
  import opened SetChange
  import GradientButton

  datatype StickDirection =
    | StickUp | StickDown | StickLeft | StickRight
    | StickLeftUp | StickLeftDown | StickRightUp | StickRightDown

  /** A stick button's index read as a direction: one of the eight
      directions, or any other value the integer index may hold. */
  datatype StickIndex = Direction(dir: StickDirection) | OtherIndex(raw: int)

  /** The integer value of each direction enumerator. The header that
      declares them is not part of this model, so the values are a
      parameter; they are distinct. */
  datatype Numbering = Numbering(
    up: int, down: int, left: int, right: int,
    leftUp: int, leftDown: int, rightUp: int, rightDown: int)

  function ValueOf(n: Numbering, d: StickDirection): int {
    match d
    case StickUp => n.up
    case StickDown => n.down
    case StickLeft => n.left
    case StickRight => n.right
    case StickLeftUp => n.leftUp
    case StickLeftDown => n.leftDown
    case StickRightUp => n.rightUp
    case StickRightDown => n.rightDown
  }

  predicate Distinct(n: Numbering) {
    forall a: StickDirection, b: StickDirection :: a != b ==> ValueOf(n, a) != ValueOf(n, b)
  }

  /** Compare the index with each enumerator in the order the source does. */
  function Decode(n: Numbering, index: int): (r: StickIndex)
    ensures r.Direction? ==> ValueOf(n, r.dir) == index
    ensures r.OtherIndex? ==> r.raw == index && forall d: StickDirection :: ValueOf(n, d) != index
  {
    if index == n.up then Direction(StickUp)
    else if index == n.down then Direction(StickDown)
    else if index == n.left then Direction(StickLeft)
    else if index == n.right then Direction(StickRight)
    else if index == n.leftUp then Direction(StickLeftUp)
    else if index == n.leftDown then Direction(StickLeftDown)
    else if index == n.rightUp then Direction(StickRightUp)
    else if index == n.rightDown then Direction(StickRightDown)
    else OtherIndex(index)
  }

  /** With distinct enumerator values every direction decodes back to
      itself. */
  lemma DecodeValueOf(n: Numbering, d: StickDirection)
    requires Distinct(n)
    ensures Decode(n, ValueOf(n, d)) == Direction(d)
  {
    var r := Decode(n, ValueOf(n, d));
    if r.Direction? {
      assert ValueOf(n, r.dir) == ValueOf(n, d);
    }
  }

  datatype StickView = StickView(
    index: int,
    partialName: string,
    springDeadCircleX: int,
    springDeadCircleY: int)

  datatype StickButtonState = StickButtonState(
    index: int,
    buttonName: string,
    defaultButtonName: string,
    setChange: SetChangeState,
    springDeadCircleMultiplier: int,
    turboMode: GradientButton.TurboMode)

  predicate IsDiagonal(d: StickDirection) {
    d == StickLeftUp || d == StickLeftDown || d == StickRightUp || d == StickRightDown
  }

  /** The vertical and horizontal parts of a diagonal. */
  function VerticalPart(d: StickDirection): StickDirection
    requires IsDiagonal(d)
  {
    if d == StickLeftUp || d == StickRightUp then StickUp else StickDown
  }

  function HorizontalPart(d: StickDirection): StickDirection
    requires IsDiagonal(d)
  {
    if d == StickLeftUp || d == StickLeftDown then StickLeft else StickRight
  }

  /** `getDirectionName`: a cardinal's name, "vertical+horizontal" for a
      diagonal, and the empty string for any other index. */
  function DirectionName(i: StickIndex): (r: string)
    ensures i.OtherIndex? <==> r == ""
  {
    match i
    case OtherIndex(_) => ""
    case Direction(d) =>
      match d
      case StickUp => "Up"
      case StickDown => "Down"
      case StickLeft => "Left"
      case StickRight => "Right"
      case StickLeftUp => "Up+Left"
      case StickLeftDown => "Down+Left"
      case StickRightUp => "Up+Right"
      case StickRightDown => "Down+Right"
  }

  /** A diagonal is named after its two parts, vertical first. */
  lemma DiagonalNameComposed(d: StickDirection)
    requires IsDiagonal(d)
    ensures DirectionName(Direction(d)) ==
      DirectionName(Direction(VerticalPart(d))) + "+" + DirectionName(Direction(HorizontalPart(d)))
  {
  }

  /** Different directions get different names. */
  lemma DirectionNamesInjective(a: StickDirection, b: StickDirection)
    requires a != b
    ensures DirectionName(Direction(a)) != DirectionName(Direction(b))
  {
  }

  /** `getPartialName`. Unlike the axis button, a default name is used
      whether or not names are displayed. */
  function PartialName(n: Numbering, stick: StickView, b: StickButtonState, forceFullFormat: bool, displayNames: bool)
    : (r: string)
    ensures var p := stick.partialName + ": ";
      var prefix := if forceFullFormat then "Button " else "";
      && (displayNames && b.buttonName != "" ==> r == p + prefix + b.buttonName)
      && ((!displayNames || b.buttonName == "") && b.defaultButtonName != "" ==> r == p + prefix + b.defaultButtonName)
      && ((!displayNames || b.buttonName == "") && b.defaultButtonName == "" ==>
            r == p + "Button " + DirectionName(Decode(n, b.index)))
  {
    var p := stick.partialName + ": ";
    var prefix := if forceFullFormat then "Button " else "";
    if b.buttonName != "" && displayNames then p + prefix + b.buttonName
    else if b.defaultButtonName != "" then p + prefix + b.defaultButtonName
    else p + "Button " + DirectionName(Decode(n, b.index))
  }

  /** Two unnamed buttons of one stick whose indices are different
      directions get different partial names. */
  lemma PartialNamesTellDirectionsApart(n: Numbering, stick: StickView, b: StickButtonState, c: StickButtonState,
                                        forceFullFormat: bool, displayNames: bool)
    requires b.defaultButtonName == "" && c.defaultButtonName == ""
    requires !displayNames || (b.buttonName == "" && c.buttonName == "")
    requires Decode(n, b.index).Direction? && Decode(n, c.index).Direction?
    requires b.index != c.index
    ensures PartialName(n, stick, b, forceFullFormat, displayNames) != PartialName(n, stick, c, forceFullFormat, displayNames)
  {
    var p := stick.partialName + ": " + "Button ";
    var x := DirectionName(Decode(n, b.index));
    var y := DirectionName(Decode(n, c.index));
    DirectionNamesInjective(Decode(n, b.index).dir, Decode(n, c.index).dir);
    assert x == (p + x)[|p|..] && y == (p + y)[|p|..];
  }

  /** `setChangeSetCondition` of a stick button: the shared transition,
      keyed by the stick index, always rebuilding the summary on a change. */
  function SetCondition(stick: StickView, b: StickButtonState, condition: SetChangeCondition,
                        passive: bool): (r: (StickButtonState, SetChangeOutcome))
    ensures r.0.setChange == r.1.state
    ensures r.0.index == b.index && r.0.buttonName == b.buttonName
    ensures r.1.emitted.Some? ==> r.1.emitted.value.owner == stick.index && r.1.emitted.value.button == b.index
    ensures r.1.summaryRebuilt <==> r.1.propertyUpdated
    ensures r.1.selectionReset <==> condition == SetChangeDisabled
    ensures r.1.propertyUpdated <==> condition != b.setChange.condition
    ensures condition == SetChangeDisabled ==> r.0.setChange.setSelection == -1
  {
    var out := Transition(b.index, stick.index, b.setChange, condition, passive, true);
    (b.(setChange := out.state), out)
  }

  predicate IsHorizontal(n: Numbering, index: int) {
    index == n.left || index == n.right
  }

  predicate IsVertical(n: Numbering, index: int) {
    index == n.up || index == n.down
  }

  predicate IsDiagonalIndex(n: Numbering, index: int) {
    index == n.rightUp || index == n.rightDown || index == n.leftDown || index == n.leftUp
  }

  /** `getCurrentSpringDeadCircle`: the index is tested against left and
      right first, then up and down, then the diagonals. Horizontal
      directions scale the stick's X circle by the multiplier percentage,
      vertical ones the Y circle, diagonals get 0, and any other index the
      bare multiplier percentage. */
  function SpringDeadCircle(n: Numbering, stick: StickView, b: StickButtonState): (r: real)
    ensures IsHorizontal(n, b.index) ==>
      r == stick.springDeadCircleX as real * b.springDeadCircleMultiplier as real * 0.01
    ensures !IsHorizontal(n, b.index) && IsVertical(n, b.index) ==>
      r == stick.springDeadCircleY as real * b.springDeadCircleMultiplier as real * 0.01
    ensures !IsHorizontal(n, b.index) && !IsVertical(n, b.index) && IsDiagonalIndex(n, b.index) ==> r == 0.0
    ensures !IsHorizontal(n, b.index) && !IsVertical(n, b.index) && !IsDiagonalIndex(n, b.index) ==>
      r == b.springDeadCircleMultiplier as real * 0.01
    ensures b.springDeadCircleMultiplier == 0 ==> r == 0.0
  {
    var scale := b.springDeadCircleMultiplier as real * 0.01;
    if IsHorizontal(n, b.index) then stick.springDeadCircleX as real * scale
    else if IsVertical(n, b.index) then stick.springDeadCircleY as real * scale
    else if IsDiagonalIndex(n, b.index) then 0.0
    else scale
  }

  /** Read through the decoded direction (which needs distinct enumerator
      values): Left/Right use the X circle, Up/Down the Y circle,
      diagonals 0, and any other index the bare multiplier percentage. */
  lemma SpringDeadCircleByDirection(n: Numbering, stick: StickView, b: StickButtonState)
    requires Distinct(n)
    ensures var r := SpringDeadCircle(n, stick, b);
      var scale := b.springDeadCircleMultiplier as real * 0.01;
      && (Decode(n, b.index).OtherIndex? ==> r == scale)
      && (Decode(n, b.index).Direction? && IsDiagonal(Decode(n, b.index).dir) ==> r == 0.0)
      && (Decode(n, b.index) in {Direction(StickLeft), Direction(StickRight)} ==>
            r == stick.springDeadCircleX as real * scale)
      && (Decode(n, b.index) in {Direction(StickUp), Direction(StickDown)} ==>
            r == stick.springDeadCircleY as real * scale)
  {
    var i := Decode(n, b.index);
    if i == Direction(StickUp) || i == Direction(StickDown) {
      assert ValueOf(n, i.dir) != ValueOf(n, StickLeft);
      assert ValueOf(n, i.dir) != ValueOf(n, StickRight);
    }
  }

  /** Opposite cardinals share a dead circle; with equal X and Y circles
      all four cardinals do. */
  lemma SpringDeadCircleSymmetric(n: Numbering, stick: StickView, b: StickButtonState, c: StickButtonState)
    requires b.springDeadCircleMultiplier == c.springDeadCircleMultiplier
    requires Decode(n, b.index).Direction? && Decode(n, c.index).Direction?
    requires !IsDiagonal(Decode(n, b.index).dir) && !IsDiagonal(Decode(n, c.index).dir)
    requires stick.springDeadCircleX == stick.springDeadCircleY
    ensures SpringDeadCircle(n, stick, b) == SpringDeadCircle(n, stick, c)
  {
  }

  /** `setTurboMode`: takes effect whenever the button is part of a real
      axis, which is always, since `isPartRealAxis` is overridden to return
      true (`GradientButton.IsPartRealAxis`). */
  function SetTurboMode(b: StickButtonState, mode: GradientButton.TurboMode): (r: StickButtonState)
    ensures r.turboMode == mode
    ensures r.(turboMode := b.turboMode) == b
  {
    if GradientButton.IsPartRealAxis() then b.(turboMode := mode) else b
  }
}
