/**
 * The photo viewer's event wiring: which key presses and which clicks ask the
 * gallery to close the viewer or to move to the previous or the next photo.
 * The viewer itself keeps no state; it only turns events into requests.
 */
module Lightbox {

  datatype Direction = Prev | Next

  /** What the viewer asks of its owner: `onClose()` or `onNavigate(direction)`. */
  datatype Action = Close | Navigate(direction: Direction)

  const EscapeKey: string := "Escape"
  const LeftKey: string := "ArrowLeft"
  const RightKey: string := "ArrowRight"

  /** The arrow key that moves in direction `d`. */
  function ArrowKey(d: Direction): string {
    match d
    case Prev => LeftKey
    case Next => RightKey
  }

  /** Whether moving in direction `d` is offered (`hasPrev` or `hasNext`). */
  function Offered(d: Direction, hasPrev: bool, hasNext: bool): bool {
    match d
    case Prev => hasPrev
    case Next => hasNext
  }

  /** `handleKeyDown`: three independent tests on `e.key`, each of which may
      fire its request, in the order they are written. */
  function KeyActions(key: string, hasPrev: bool, hasNext: bool): (r: seq<Action>)
    ensures |r| <= 1
    ensures r == [Close] <==> key == EscapeKey
    ensures forall d :: r == [Navigate(d)] <==> key == ArrowKey(d) && Offered(d, hasPrev, hasNext)
    ensures r == [] <==>
      key != EscapeKey && (key != LeftKey || !hasPrev) && (key != RightKey || !hasNext)
  {
    assert |EscapeKey| == 6 && |LeftKey| == 9 && |RightKey| == 10;
    var escape := if key == EscapeKey then [Close] else [];
    var left := if key == LeftKey && hasPrev then [Navigate(Prev)] else [];
    var right := if key == RightKey && hasNext then [Navigate(Next)] else [];
    // the three keys differ, so at most one of the tests fires
    assert escape == [] || (left == [] && right == []);
    assert left == [] || right == [];
    assert escape + left + right == if escape != [] then escape else if left != [] then left else right;
    escape + left + right
  }

  /** The parts of the viewer a click can land on. */
  datatype Control = Backdrop | CloseButton | PrevButton | NextButton | Content

  /** The previous and next buttons are drawn only when their direction is offered. */
  predicate Rendered(c: Control, hasPrev: bool, hasNext: bool) {
    match c
    case PrevButton => hasPrev
    case NextButton => hasNext
    case _ => true
  }

  /** The `onClick` handler of each control; the photo and its caption have none. */
  function ClickActions(c: Control): (r: seq<Action>)
    ensures |r| <= 1
    ensures r == [Close] <==> c == Backdrop || c == CloseButton
    ensures r == [Navigate(Prev)] <==> c == PrevButton
    ensures r == [Navigate(Next)] <==> c == NextButton
  {
    match c
    case Backdrop => [Close]
    case CloseButton => [Close]
    case PrevButton => [Navigate(Prev)]
    case NextButton => [Navigate(Next)]
    case Content => []
  }

  /** The button for direction `d`. */
  function ButtonFor(d: Direction): Control {
    match d
    case Prev => PrevButton
    case Next => NextButton
  }

  /** A direction can be requested by a click on a drawn button exactly when its
      arrow key requests it too. */
  lemma ButtonsMatchKeys(d: Direction, hasPrev: bool, hasNext: bool)
    ensures (exists c :: Rendered(c, hasPrev, hasNext) && ClickActions(c) == [Navigate(d)]) <==>
      KeyActions(ArrowKey(d), hasPrev, hasNext) == [Navigate(d)]
  {
    var b := ButtonFor(d);
    assert ClickActions(b) == [Navigate(d)];
    if exists c :: Rendered(c, hasPrev, hasNext) && ClickActions(c) == [Navigate(d)] {
      var c :| Rendered(c, hasPrev, hasNext) && ClickActions(c) == [Navigate(d)];
      assert c == b;
    }
  }

  /** Closing is always possible, whatever is offered: by Escape, by the backdrop
      and by the close button, which are always drawn. */
  lemma CloseAlwaysAvailable(hasPrev: bool, hasNext: bool)
    ensures KeyActions(EscapeKey, hasPrev, hasNext) == [Close]
    ensures forall c :: c == Backdrop || c == CloseButton ==>
      Rendered(c, hasPrev, hasNext) && ClickActions(c) == [Close]
  {
  }
}
