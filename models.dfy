/**
 * Entities of the list-state engine: the two input modes, the todo item
 * record and the constructor for a fresh, not yet persisted item.
 */
module Models {

  datatype Option<T> = None | Some(value: T)

  /** The editor is either navigating the lists or composing text. */
  datatype InputMode = Normal | Insert {

    /** Flips between the two modes. */
    function Toggle(): (r: InputMode)
      ensures r != this
      ensures r.Normal? <==> this.Insert?
    {
      match this
      case Normal => Insert
      case Insert => Normal
    }
  }

  /** Toggling twice gives back the mode one started from. */
  lemma ToggleTwice(m: InputMode)
    ensures m.Toggle().Toggle() == m
  {
  }

  /** Which of the two lists has the keyboard focus. */
  datatype WhichList = Uncompleted | Completed {

    function Other(): (r: WhichList)
      ensures r != this
    {
      match this
      case Uncompleted => Completed
      case Completed => Uncompleted
    }
  }

  /**
   * A point in time. Clock reads and date parsing are outside the model:
   * a timestamp is an opaque number handed in by the caller.
   */
  type Timestamp = int

  /**
   * One task. `id` is None until the storage layer has assigned one;
   * `parentId` None marks a top-level item; `completedAt` present means done.
   * `sortOrder` is a 32-bit key in the program, unbounded here.
   */
  datatype TodoItem = TodoItem(
    id: Option<int>,
    todo: string,
    details: string,
    completedAt: Option<Timestamp>,
    date: Timestamp,
    parentId: Option<int>,
    sortOrder: int)

  /** A fresh in-memory item: not yet persisted, pending, first in order. */
  function NewTodoItem(todo: string, details: string, parentId: Option<int>, now: Timestamp): (r: TodoItem)
    ensures r.id == None && r.completedAt == None && r.sortOrder == 0
    ensures r.todo == todo && r.details == details && r.parentId == parentId
    ensures r.date == now
  {
    TodoItem(None, todo, details, None, now, parentId, 0)
  }
}
