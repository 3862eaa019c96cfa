/**
 * The two stacks of CommandManager.java as a value: the top of each stack is
 * the last element of its sequence. A command is pushed onto the undo stack
 * when it is executed, which empties the redo stack; undo and redo move the
 * top of one stack onto the other and do nothing when their stack is empty.
 */
module History {
  datatype Stacks<T> = Stacks(undos: seq<T>, redos: seq<T>)

  /** executeCommand: push onto undos, clear redos. */
  function Execute<T>(h: Stacks<T>, c: T): Stacks<T> {
    Stacks(h.undos + [c], [])
  }

  /** undoAvailable. */
  predicate UndoAvailable<T>(h: Stacks<T>) {
    h.undos != []
  }

  /** redoAvailable. */
  predicate RedoAvailable<T>(h: Stacks<T>) {
    h.redos != []
  }

  /** undo: when available, pop the top of undos and push it onto redos. */
  function Undo<T>(h: Stacks<T>): Stacks<T> {
    if h.undos == [] then h
    else Stacks(h.undos[..|h.undos| - 1], h.redos + [h.undos[|h.undos| - 1]])
  }

  /** redo: when available, pop the top of redos and push it onto undos. */
  function Redo<T>(h: Stacks<T>): Stacks<T> {
    if h.redos == [] then h
    else Stacks(h.undos + [h.redos[|h.redos| - 1]], h.redos[..|h.redos| - 1])
  }

  /** The number of commands on both stacks. */
  function Size<T>(h: Stacks<T>): nat {
    |h.undos| + |h.redos|
  }

  /** A redo right after an undo puts both stacks back as they were. */
  lemma RedoAfterUndo<T>(h: Stacks<T>)
    requires UndoAvailable(h)
    ensures RedoAvailable(Undo(h)) && Redo(Undo(h)) == h
  {
    assert h.undos[..|h.undos| - 1] + [h.undos[|h.undos| - 1]] == h.undos;
  }

  /** An undo right after a redo puts both stacks back as they were. */
  lemma UndoAfterRedo<T>(h: Stacks<T>)
    requires RedoAvailable(h)
    ensures UndoAvailable(Redo(h)) && Undo(Redo(h)) == h
  {
    assert h.redos[..|h.redos| - 1] + [h.redos[|h.redos| - 1]] == h.redos;
  }

  /** undo moves one command from undos to redos when one is available, and changes nothing otherwise. */
  lemma UndoKeepsCommands<T>(h: Stacks<T>)
    ensures Size(Undo(h)) == Size(h)
    ensures |Undo(h).undos| == if UndoAvailable(h) then |h.undos| - 1 else |h.undos|
    ensures multiset(Undo(h).undos + Undo(h).redos) == multiset(h.undos + h.redos)
  {
    if UndoAvailable(h) {
      var n := |h.undos| - 1;
      assert h.undos == h.undos[..n] + [h.undos[n]];
      assert h.undos + h.redos == h.undos[..n] + ([h.undos[n]] + h.redos);
    }
  }

  /** redo moves one command from redos to undos when one is available, and changes nothing otherwise. */
  lemma RedoKeepsCommands<T>(h: Stacks<T>)
    ensures Size(Redo(h)) == Size(h)
    ensures |Redo(h).redos| == if RedoAvailable(h) then |h.redos| - 1 else |h.redos|
    ensures multiset(Redo(h).undos + Redo(h).redos) == multiset(h.undos + h.redos)
  {
    if RedoAvailable(h) {
      var n := |h.redos| - 1;
      assert h.redos == h.redos[..n] + [h.redos[n]];
      assert multiset(h.redos) == multiset(h.redos[..n]) + multiset{h.redos[n]};
    }
  }

  /** The command an executeCommand pushed is the one the next undo takes, and it is then the only redo. */
  lemma UndoAfterExecute<T>(h: Stacks<T>, c: T)
    ensures !RedoAvailable(Execute(h, c)) && UndoAvailable(Execute(h, c))
    ensures Undo(Execute(h, c)) == Stacks(h.undos, [c])
    ensures Redo(Undo(Execute(h, c))) == Execute(h, c)
  {
    assert (h.undos + [c])[..|h.undos|] == h.undos;
  }

  /**
   * Undoing k commands and redoing k of them gives the stacks back, so long
   * as there were k commands to undo.
   */
  lemma {:induction false} RedoAllAfterUndoAll<T>(h: Stacks<T>, k: nat)
    requires k <= |h.undos|
    ensures |UndoTimes(h, k).redos| == |h.redos| + k
    ensures RedoTimes(UndoTimes(h, k), k) == h
    decreases k
  {
    if k > 0 {
      var u := Undo(h);
      assert u.undos == h.undos[..|h.undos| - 1];
      RedoAllAfterUndoAll(u, k - 1);
      RedoAfterUndo(h);
      RedoTimesLast(UndoTimes(u, k - 1), k - 1);
    }
  }

  /** k undos in a row. */
  function UndoTimes<T>(h: Stacks<T>, k: nat): Stacks<T>
    decreases k
  {
    if k == 0 then h else UndoTimes(Undo(h), k - 1)
  }

  /** k redos in a row. */
  function RedoTimes<T>(h: Stacks<T>, k: nat): Stacks<T>
    decreases k
  {
    if k == 0 then h else RedoTimes(Redo(h), k - 1)
  }

  /** The last of k + 1 redos is one redo after the first k. */
  lemma {:induction false} RedoTimesLast<T>(h: Stacks<T>, k: nat)
    ensures RedoTimes(h, k + 1) == Redo(RedoTimes(h, k))
    decreases k
  {
    if k > 0 {
      RedoTimesLast(Redo(h), k - 1);
    }
  }
}
