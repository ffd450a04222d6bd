/**
 The input step: a table binding each arrow key to a move, run in table
 order once per frame, each entry firing when its key is held and it has a
 callback.

 The keyboard is a parameter (`HeldKeys`), and the table's function pointers
 are the enumeration `Callback`, dispatched by `Invoke`.
 */
module Input {
  import opened Shapes
  import opened Pieces

  /** A value that may be absent; `None` stands for a null pointer. */
  datatype Option<X> = None | Some(value: X)

  /** The four arrow keys the table binds. */
  datatype Key = KeyLeft | KeyRight | KeyUp | KeyDown

  /** The move functions a table entry can point to. */
  datatype Callback = CallMoveLeft | CallMoveRight | CallMoveUp | CallMoveDown

  /** A table entry: a key and the move to call while it is held, if any. */
  datatype KeyCommand = KeyCommand(key: Key, callback: Option<Callback>)

  /** Which of the four arrow keys are held down in the current frame. */
  datatype HeldKeys = HeldKeys(left: bool, right: bool, up: bool, down: bool)

  /** The key table, in its declared order: left, right, up, down. */
  const KeyCommands: seq<KeyCommand> := [
    KeyCommand(KeyLeft, Some(CallMoveLeft)),
    KeyCommand(KeyRight, Some(CallMoveRight)),
    KeyCommand(KeyUp, Some(CallMoveUp)),
    KeyCommand(KeyDown, Some(CallMoveDown))
  ]

  /** Whether key `k` is held down. */
  predicate IsKeyDown(held: HeldKeys, k: Key) {
    match k
    case KeyLeft => held.left
    case KeyRight => held.right
    case KeyUp => held.up
    case KeyDown => held.down
  }

  /** The horizontal step of a move: -1 to the left, +1 to the right. */
  function StepX(cb: Callback): int {
    match cb
    case CallMoveLeft => -1
    case CallMoveRight => 1
    case CallMoveUp => 0
    case CallMoveDown => 0
  }

  /** The vertical step of a move: -1 up, +1 down. */
  function StepY(cb: Callback): int {
    match cb
    case CallMoveLeft => 0
    case CallMoveRight => 0
    case CallMoveUp => -1
    case CallMoveDown => 1
  }

  /** Calling the move a callback points to: the piece shifts by the move's unit step and keeps its kind and rotation. */
  function Invoke(cb: Callback, t: Tetromino): (r: Tetromino)
    ensures r == t.(x := t.x + StepX(cb), y := t.y + StepY(cb))
    ensures Cells(r) == Translate(Cells(t), StepX(cb), StepY(cb))
  {
    MovesTranslateCells(t);
    match cb
    case CallMoveLeft => MoveLeft(t)
    case CallMoveRight => MoveRight(t)
    case CallMoveUp => MoveUp(t)
    case CallMoveDown => MoveDown(t)
  }

  /** Whether entry `c` fires: its key is held and it has a callback. */
  predicate Fires(c: KeyCommand, held: HeldKeys) {
    IsKeyDown(held, c.key) && c.callback.Some?
  }

  /** One entry of the input loop: call its move when it fires. */
  function Fire(c: KeyCommand, held: HeldKeys, t: Tetromino): Tetromino {
    if Fires(c, held) then Invoke(c.callback.value, t) else t
  }

  /** The entries of `cmds` applied one after the other, first entry first. */
  function FireAll(cmds: seq<KeyCommand>, held: HeldKeys, t: Tetromino): Tetromino {
    if cmds == [] then t else Fire(cmds[|cmds| - 1], held, FireAll(cmds[..|cmds| - 1], held, t))
  }

  /** The horizontal step entry `c` contributes: its move's step when it fires, nothing otherwise. */
  function FiredX(c: KeyCommand, held: HeldKeys): int {
    if Fires(c, held) then StepX(c.callback.value) else 0
  }

  /** The vertical step entry `c` contributes. */
  function FiredY(c: KeyCommand, held: HeldKeys): int {
    if Fires(c, held) then StepY(c.callback.value) else 0
  }

  /** The summed horizontal steps of the entries of `cmds` that fire. */
  function NetX(cmds: seq<KeyCommand>, held: HeldKeys): int {
    if cmds == [] then 0 else NetX(cmds[..|cmds| - 1], held) + FiredX(cmds[|cmds| - 1], held)
  }

  /** The summed vertical steps of the entries of `cmds` that fire. */
  function NetY(cmds: seq<KeyCommand>, held: HeldKeys): int {
    if cmds == [] then 0 else NetY(cmds[..|cmds| - 1], held) + FiredY(cmds[|cmds| - 1], held)
  }

  /** Running a list of entries shifts the piece by the summed steps of those that fire, and changes nothing else. */
  lemma {:induction false} FireAllShifts(cmds: seq<KeyCommand>, held: HeldKeys, t: Tetromino)
    ensures FireAll(cmds, held, t) == t.(x := t.x + NetX(cmds, held), y := t.y + NetY(cmds, held))
  {
    if cmds != [] {
      FireAllShifts(cmds[..|cmds| - 1], held, t);
    }
  }

  /** With main.c's table, the summed steps are right minus left and down minus up. */
  lemma KeyCommandsNet(held: HeldKeys)
    ensures NetX(KeyCommands, held) == (if held.right then 1 else 0) - (if held.left then 1 else 0)
    ensures NetY(KeyCommands, held) == (if held.down then 1 else 0) - (if held.up then 1 else 0)
  {
    var c := KeyCommands;
    assert c[..1][..0] == [] && c[..2][..1] == c[..1] && c[..3][..2] == c[..2] && c[..3] == c[..4][..3];
    assert NetX(c[..1], held) == FiredX(c[0], held) && NetY(c[..1], held) == FiredY(c[0], held);
    assert NetX(c[..2], held) == NetX(c[..1], held) + FiredX(c[1], held);
    assert NetY(c[..2], held) == NetY(c[..1], held) + FiredY(c[1], held);
    assert NetX(c[..3], held) == NetX(c[..2], held) + FiredX(c[2], held);
    assert NetY(c[..3], held) == NetY(c[..2], held) + FiredY(c[2], held);
    assert c[..4] == c;
  }

  /**
   One frame of input: the table's entries in order, each calling its move
   when its key is held and its callback is present.
   */
  method HandleInputAndUpdateTetromino(t: Tetromino, held: HeldKeys) returns (r: Tetromino)
    ensures r == FireAll(KeyCommands, held, t)
    ensures r.kind == t.kind && r.rotation == t.rotation
    ensures r.x == t.x + (if held.right then 1 else 0) - (if held.left then 1 else 0)
    ensures r.y == t.y + (if held.down then 1 else 0) - (if held.up then 1 else 0)
    ensures Cells(r) == Translate(Cells(t), r.x - t.x, r.y - t.y)
  {
    r := t;
    var i := 0;
    while i < 4
      invariant 0 <= i <= 4
      invariant r == FireAll(KeyCommands[..i], held, t)
    {
      var k := KeyCommands[i];
      assert KeyCommands[..i + 1][..i] == KeyCommands[..i];
      if IsKeyDown(held, k.key) && k.callback.Some? {
        r := Invoke(k.callback.value, r);
      }
      i := i + 1;
    }
    assert KeyCommands[..4] == KeyCommands;
    FrameEffect(t, held);
  }

  /**
   The effect of one frame in closed form: x gains right minus left, y gains
   down minus up, kind and rotation are kept, and the filled cells move with
   the box.
   */
  lemma FrameEffect(t: Tetromino, held: HeldKeys)
    ensures FireAll(KeyCommands, held, t).kind == t.kind && FireAll(KeyCommands, held, t).rotation == t.rotation
    ensures FireAll(KeyCommands, held, t).x == t.x + (if held.right then 1 else 0) - (if held.left then 1 else 0)
    ensures FireAll(KeyCommands, held, t).y == t.y + (if held.down then 1 else 0) - (if held.up then 1 else 0)
    ensures Cells(FireAll(KeyCommands, held, t)) ==
      Translate(Cells(t), FireAll(KeyCommands, held, t).x - t.x, FireAll(KeyCommands, held, t).y - t.y)
  {
    FireAllShifts(KeyCommands, held, t);
    KeyCommandsNet(held);
    SameShapeCells(t, FireAll(KeyCommands, held, t));
  }

  /**
   The frame applies the four moves in table order: after the first entry
   only left may have moved the piece, after the second right is applied to
   that, then up, then down. The moves commute, so the final piece alone does
   not show the order; the prefixes do.
   */
  lemma InputInTableOrder(t: Tetromino, held: HeldKeys)
    ensures FireAll(KeyCommands[..1], held, t) == if held.left then MoveLeft(t) else t
    ensures FireAll(KeyCommands[..2], held, t) ==
      var before := FireAll(KeyCommands[..1], held, t);
      if held.right then MoveRight(before) else before
    ensures FireAll(KeyCommands[..3], held, t) ==
      var before := FireAll(KeyCommands[..2], held, t);
      if held.up then MoveUp(before) else before
    ensures FireAll(KeyCommands, held, t) ==
      var before := FireAll(KeyCommands[..3], held, t);
      if held.down then MoveDown(before) else before
    ensures FireAll(KeyCommands, held, t) ==
      var afterLeft := if held.left then MoveLeft(t) else t;
      var afterRight := if held.right then MoveRight(afterLeft) else afterLeft;
      var afterUp := if held.up then MoveUp(afterRight) else afterRight;
      if held.down then MoveDown(afterUp) else afterUp
  {
    var c := KeyCommands;
    assert c[..1][..0] == [] && c[..2][..1] == c[..1] && c[..3][..2] == c[..2] && c[..3] == c[..4][..3];
    assert FireAll(c[..1], held, t) == Fire(c[0], held, t);
    assert FireAll(c[..2], held, t) == Fire(c[1], held, FireAll(c[..1], held, t));
    assert FireAll(c[..3], held, t) == Fire(c[2], held, FireAll(c[..2], held, t));
    assert c[..4] == c;
  }

  /** With no key held the frame leaves the piece where it is. */
  lemma NoKeysNoMove(t: Tetromino)
    ensures FireAll(KeyCommands, HeldKeys(false, false, false, false), t) == t
  {
    FireAllShifts(KeyCommands, HeldKeys(false, false, false, false), t);
    KeyCommandsNet(HeldKeys(false, false, false, false));
  }

  /** Holding both keys of an axis cancels out on that axis. */
  lemma OpposedKeysCancel(t: Tetromino, held: HeldKeys)
    ensures held.left && held.right ==> FireAll(KeyCommands, held, t).x == t.x
    ensures held.up && held.down ==> FireAll(KeyCommands, held, t).y == t.y
  {
    FireAllShifts(KeyCommands, held, t);
    KeyCommandsNet(held);
  }
}
