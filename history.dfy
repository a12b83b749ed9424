/**
 * The undo/redo stack of hooks/useHistoryState.ts: a list of states and the index of the
 * current one. Entries after the index are the states that can be redone.
 */
module UndoHistory {

  class History<T(==)> {
    var history: seq<T>
    var index: nat

    ghost predicate Valid()
      reads this
    {
      index < |history|
    }

    /** `history[index]`: the state the editor shows. */
    function Current(): T
      reads this
      requires Valid()
    {
      history[index]
    }

    /** `index > 0` */
    function CanUndo(): bool
      reads this
    {
      index > 0
    }

    /** `index < history.length - 1` */
    function CanRedo(): bool
      reads this
    {
      index + 1 < |history|
    }

    constructor(initialState: T)
      ensures Valid()
      ensures history == [initialState] && index == 0
      ensures !CanUndo() && !CanRedo()
    {
      history := [initialState];
      index := 0;
    }

    /** `setState(newState)`: a state equal to the current one is ignored; otherwise the redo
      * entries are dropped and the new state becomes the last and current one. */
    method SetState(newState: T)
      requires Valid()
      modifies this
      ensures Valid()
      ensures newState == old(Current()) ==> history == old(history) && index == old(index)
      ensures newState != old(Current()) ==>
        && history == old(history)[..old(index) + 1] + [newState]
        && index == old(index) + 1
        && Current() == newState && !CanRedo() && CanUndo()
    {
      var currentState := history[index];
      if newState == currentState {
        return;
      }
      var newHistory := history[..index + 1];
      newHistory := newHistory + [newState];
      history := newHistory;
      index := |newHistory| - 1;
    }

    /** `setState(prev => f(prev))`: the same, with the new state computed from the current one. */
    method Update(f: T -> T)
      requires Valid()
      modifies this
      ensures Valid()
      ensures f(old(Current())) == old(Current()) ==> history == old(history) && index == old(index)
      ensures f(old(Current())) != old(Current()) ==>
        history == old(history)[..old(index) + 1] + [f(old(Current()))] && index == old(index) + 1
    {
      SetState(f(history[index]));
    }

    /** `undo()`: steps back when there is an earlier state; the list is never changed. */
    method Undo()
      requires Valid()
      modifies this
      ensures Valid()
      ensures history == old(history)
      ensures old(CanUndo()) ==> index == old(index) - 1
      ensures !old(CanUndo()) ==> index == old(index)
    {
      if index > 0 {
        index := index - 1;
      }
    }

    /** `redo()`: steps forward when there is a later state; the list is never changed. */
    method Redo()
      requires Valid()
      modifies this
      ensures Valid()
      ensures history == old(history)
      ensures old(CanRedo()) ==> index == old(index) + 1
      ensures !old(CanRedo()) ==> index == old(index)
    {
      if index < |history| - 1 {
        index := index + 1;
      }
    }

    /** `resetState(newState)`: a fresh single-entry history. */
    method Reset(newState: T)
      modifies this
      ensures Valid()
      ensures history == [newState] && index == 0
      ensures !CanUndo() && !CanRedo()
    {
      history := [newState];
      index := 0;
    }
  }

  /** Undoing and then redoing returns to the same state and leaves the list alone. */
  method UndoThenRedo<T(==)>(h: History<T>)
    requires h.Valid() && h.CanUndo()
    modifies h
    ensures h.Valid()
    ensures h.history == old(h.history) && h.index == old(h.index)
    ensures h.Current() == old(h.Current())
  {
    h.Undo();
    h.Redo();
  }

  /** Redoing and then undoing returns to the same state as well. */
  method RedoThenUndo<T(==)>(h: History<T>)
    requires h.Valid() && h.CanRedo()
    modifies h
    ensures h.Valid()
    ensures h.history == old(h.history) && h.index == old(h.index)
  {
    h.Redo();
    h.Undo();
  }

  /** After a change is recorded, undo brings back exactly the state that was current before. */
  method SetThenUndo<T(==)>(h: History<T>, s: T)
    requires h.Valid() && s != h.Current()
    modifies h
    ensures h.Valid()
    ensures h.Current() == old(h.Current())
  {
    h.SetState(s);
    h.Undo();
  }
}
