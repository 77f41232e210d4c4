/** The undo/redo history of one edited value
    (client/src/hooks/useUndoRedo.ts): the values before the current one,
    the current one, and the values an undo has stepped back over. */
module UndoRedo {

  datatype History<T> = History(past: seq<T>, present: T, future: seq<T>)

  /** The state the hook starts from. */
  function Init<T>(initial: T): (h: History<T>)
    ensures h.present == initial && h.past == [] && h.future == []
  {
    History([], initial, [])
  }

  /** `canUndo`. */
  predicate CanUndo<T>(h: History<T>) {
    |h.past| > 0
  }

  /** `canRedo`. */
  predicate CanRedo<T>(h: History<T>) {
    |h.future| > 0
  }

  /** The whole timeline, oldest first. */
  function Timeline<T>(h: History<T>): seq<T> {
    h.past + [h.present] + h.future
  }

  /** `push(x)` (exposed as `setState`): the current value is remembered and
      every redo step is forgotten. */
  function Push<T>(h: History<T>, x: T): (r: History<T>)
    ensures r.present == x
    ensures r.past == h.past + [h.present]
    ensures r.future == []
    ensures CanUndo(r) && !CanRedo(r)
    ensures |Timeline(r)| == |h.past| + 2
  {
    History(h.past + [h.present], x, [])
  }

  /** `undo()`: step back one value, or nothing when there is no past. */
  function Undo<T>(h: History<T>): (r: History<T>)
    ensures !CanUndo(h) ==> r == h
    ensures CanUndo(h) ==> (r.present == h.past[|h.past| - 1]
                            && r.past == h.past[..|h.past| - 1]
                            && r.future == [h.present] + h.future)
    ensures Timeline(r) == Timeline(h)
  {
    if |h.past| == 0 then h
    else
      var r := History(h.past[..|h.past| - 1], h.past[|h.past| - 1], [h.present] + h.future);
      assert h.past == r.past + [r.present];
      r
  }

  /** `redo()`: step forward one value, or nothing when there is no future. */
  function Redo<T>(h: History<T>): (r: History<T>)
    ensures !CanRedo(h) ==> r == h
    ensures CanRedo(h) ==> (r.present == h.future[0]
                            && r.future == h.future[1..]
                            && r.past == h.past + [h.present])
    ensures Timeline(r) == Timeline(h)
  {
    if |h.future| == 0 then h
    else
      var r := History(h.past + [h.present], h.future[0], h.future[1..]);
      assert h.future == [r.present] + r.future;
      r
  }

  /** Undo and redo only move the cursor: the timeline keeps its length and
      its contents. */
  lemma UndoRedoPreserveLength<T>(h: History<T>)
    ensures |Undo(h).past| + 1 + |Undo(h).future| == |h.past| + 1 + |h.future|
    ensures |Redo(h).past| + 1 + |Redo(h).future| == |h.past| + 1 + |h.future|
  {
    assert |Timeline(Undo(h))| == |Timeline(h)|;
    assert |Timeline(Redo(h))| == |Timeline(h)|;
  }

  /** `canUndo` and `canRedo` say exactly whether the step would change
      anything. */
  lemma CanStepIffMoves<T>(h: History<T>)
    ensures CanUndo(h) <==> Undo(h) != h
    ensures CanRedo(h) <==> Redo(h) != h
  {
    if CanUndo(h) {
      assert |Undo(h).past| < |h.past|;
    }
    if CanRedo(h) {
      assert |Redo(h).future| < |h.future|;
    }
  }

  /** A redo right after an undo restores the state exactly. */
  lemma RedoUndo<T>(h: History<T>)
    requires CanUndo(h)
    ensures CanRedo(Undo(h))
    ensures Redo(Undo(h)) == h
  {
    var u := Undo(h);
    assert u.past + [u.present] == h.past;
  }

  /** An undo right after a redo restores the state exactly. */
  lemma UndoRedo<T>(h: History<T>)
    requires CanRedo(h)
    ensures CanUndo(Redo(h))
    ensures Undo(Redo(h)) == h
  {
    var r := Redo(h);
    assert r.past[..|r.past| - 1] == h.past;
    assert [r.present] + r.future == h.future;
  }

  /** `n` undos in a row. */
  function UndoN<T>(h: History<T>, n: nat): History<T>
    decreases n
  {
    if n == 0 then h else UndoN(Undo(h), n - 1)
  }

  /** Undoing every step reaches the oldest value and keeps everything else
      available for redo. */
  lemma {:induction false} UndoAll<T>(h: History<T>)
    ensures UndoN(h, |h.past|).past == []
    ensures Timeline(UndoN(h, |h.past|)) == Timeline(h)
    ensures |h.past| > 0 ==> UndoN(h, |h.past|).present == h.past[0]
    decreases |h.past|
  {
    if |h.past| > 0 {
      var u := Undo(h);
      UndoAll(u);
      assert |u.past| == |h.past| - 1;
      if |u.past| > 0 {
        assert u.past[0] == h.past[0];
      }
    }
  }

  /** The scenario of pushing B and C onto A: undo gives B, undo again A,
      redo B, and a push after an undo leaves nothing to redo. */
  lemma Scenario<T>(a: T, b: T, c: T, d: T)
    ensures Undo(Push(Push(Init(a), b), c)).present == b
    ensures Undo(Undo(Push(Push(Init(a), b), c))).present == a
    ensures Redo(Undo(Undo(Push(Push(Init(a), b), c)))).present == b
    ensures Redo(Push(Undo(Push(Push(Init(a), b), c)), d)) == Push(Undo(Push(Push(Init(a), b), c)), d)
  {
  }
}
