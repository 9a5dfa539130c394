/**
 * The board's own logic (components/Board/KanbanBoard.tsx): grouping the store's tasks into
 * the three columns, and the drag-start and drag-end rules that decide whether a dropped card
 * is moved and what the store is then asked to do. Rendering and the drag sensors are not
 * part of this model.
 */
module Board {
  import opened Wrappers
  import opened Entities
  import opened ClientTasks

  /** The column a task is shown in: its status, or TODO when that is not a valid status. */
  function ColumnOf(t: ClientTask): (c: Status)
    ensures ParseStatus(t.status).Some? ==> StatusName(c) == t.status
    ensures ParseStatus(t.status).None? ==> c == TODO
  {
    match ParseStatus(t.status)
    case Some(s) => s
    case None => TODO
  }

  /** The tasks shown in column `c`, in the order of the store's list. */
  function Column(ts: seq<ClientTask>, c: Status): (r: seq<ClientTask>)
    ensures |r| <= |ts|
    ensures forall t | t in r :: t in ts && ColumnOf(t) == c
  {
    if ts == [] then []
    else Column(ts[..|ts| - 1], c) + (if ColumnOf(ts[|ts| - 1]) == c then [ts[|ts| - 1]] else [])
  }

  datatype Grouped = Grouped(todo: seq<ClientTask>, inProgress: seq<ClientTask>, done: seq<ClientTask>)

  /** tasksByColumn: one pass over the list, pushing each task onto its column. */
  method TasksByColumn(tasks: seq<ClientTask>) returns (grouped: Grouped)
    ensures grouped.todo == Column(tasks, TODO)
    ensures grouped.inProgress == Column(tasks, IN_PROGRESS)
    ensures grouped.done == Column(tasks, DONE)
  {
    var todo, inProgress, done := [], [], [];
    for i := 0 to |tasks|
      invariant todo == Column(tasks[..i], TODO)
      invariant inProgress == Column(tasks[..i], IN_PROGRESS)
      invariant done == Column(tasks[..i], DONE)
    {
      assert tasks[..i + 1][..i] == tasks[..i];
      match ColumnOf(tasks[i])
      case TODO => todo := todo + [tasks[i]];
      case IN_PROGRESS => inProgress := inProgress + [tasks[i]];
      case DONE => done := done + [tasks[i]];
    }
    assert tasks[..|tasks|] == tasks;
    grouped := Grouped(todo, inProgress, done);
  }

  /** A task is in a column exactly when that column is the one it belongs to. */
  lemma {:induction false} ColumnMembership(ts: seq<ClientTask>, c: Status, t: ClientTask)
    ensures t in Column(ts, c) <==> t in ts && ColumnOf(t) == c
    decreases |ts|
  {
    if ts != [] {
      var init, last := ts[..|ts| - 1], ts[|ts| - 1];
      assert ts == init + [last];
      ColumnMembership(init, c, t);
    }
  }

  /** Every task is shown exactly once: the three columns together are as long as the list. */
  lemma {:induction false} ColumnSizes(ts: seq<ClientTask>)
    ensures |Column(ts, TODO)| + |Column(ts, IN_PROGRESS)| + |Column(ts, DONE)| == |ts|
    decreases |ts|
  {
    if ts != [] {
      ColumnSizes(ts[..|ts| - 1]);
    }
  }

  /** A column of a concatenation is the concatenation of the columns: relative order is kept. */
  lemma {:induction false} ColumnAppend(a: seq<ClientTask>, b: seq<ClientTask>, c: Status)
    ensures Column(a + b, c) == Column(a, c) + Column(b, c)
    decreases |b|
  {
    if b == [] {
      assert a + b == a;
    } else {
      var init, last := b[..|b| - 1], b[|b| - 1];
      var tail := if ColumnOf(last) == c then [last] else [];
      assert (a + b)[..|a + b| - 1] == a + init && (a + b)[|a + b| - 1] == last;
      assert Column(a + b, c) == Column(a + init, c) + tail;
      assert Column(b, c) == Column(init, c) + tail;
      ColumnAppend(a, init, c);
      assert Column(a, c) + Column(init, c) + tail == Column(a, c) + (Column(init, c) + tail);
    }
  }

  /** A task with an invalid status is shown under TODO and in no other column. */
  lemma InvalidStatusShownAsTodo(ts: seq<ClientTask>, t: ClientTask)
    requires t in ts && ParseStatus(t.status).None?
    ensures t in Column(ts, TODO)
    ensures t !in Column(ts, IN_PROGRESS) && t !in Column(ts, DONE)
  {
    ColumnMembership(ts, TODO, t);
    ColumnMembership(ts, IN_PROGRESS, t);
    ColumnMembership(ts, DONE, t);
  }

  // ---------------------------------------------------------------------------------------
  // Dragging

  /** dnd-kit's UniqueIdentifier: a column is identified by its status name, a card by its id. */
  datatype UniqueId = StrId(s: string) | NumId(n: int)

  /** A JavaScript number as far as this model needs it: an integer or NaN. */
  datatype JsNumber = Num(n: int) | NaN

  /** `data.current` of a draggable: its type tag and, for a card, its task. */
  datatype DragData = DragData(kind: string, task: Option<ClientTask>)

  datatype Active = Active(id: UniqueId, data: Option<DragData>)

  datatype DragEndEvent = DragEndEvent(active: Active, over: Option<UniqueId>)

  /** The call onDragEnd makes, `moveTask(activeId, Number(overId), newStatus)`, argument by argument. */
  datatype MoveCall = MoveCall(activeId: UniqueId, second: JsNumber, third: string)

  function IsDigit(ch: char): bool { '0' <= ch <= '9' }

  function DigitsValue(s: seq<char>): (n: nat)
    requires forall i | 0 <= i < |s| :: IsDigit(s[i])
  {
    if s == [] then 0
    else
      assert IsDigit(s[|s| - 1]);
      10 * DigitsValue(s[..|s| - 1]) + (s[|s| - 1] as int - '0' as int)
  }

  /**
   * `Number(id)`: a number stays itself; a string of decimal digits is its value, the empty
   * string is 0 and any other string is NaN.
   */
  function ToNumber(id: UniqueId): (r: JsNumber)
    ensures id.NumId? ==> r == Num(id.n)
    ensures id.StrId? && (exists i | 0 <= i < |id.s| :: !IsDigit(id.s[i])) ==> r == NaN
  {
    match id
    case NumId(n) => Num(n)
    case StrId(s) => if forall i | 0 <= i < |s| :: IsDigit(s[i]) then Num(DigitsValue(s)) else NaN
  }

  /** `COLUMNS.some((c) => c.id === overId)`. */
  predicate IsColumnId(id: UniqueId)
  {
    id.StrId? && ParseStatus(id.s).Some?
  }

  /**
   * The status a drop asks for: the column's, when dropped on a column; else the status of
   * the card dropped on; else none.
   */
  function TargetStatus(overId: UniqueId, tasks: seq<ClientTask>): (r: Option<string>)
    ensures IsColumnId(overId) ==> r == Some(overId.s)
    ensures !IsColumnId(overId) && overId.NumId? && FindById(tasks, overId.n).Some? ==>
      r == Some(FindById(tasks, overId.n).value.status)
    ensures r.Some? ==> IsColumnId(overId) || exists t | t in tasks :: overId == NumId(t.id) && r.value == t.status
    ensures overId.StrId? && !IsColumnId(overId) ==> r == None
  {
    if IsColumnId(overId) then Some(overId.s)
    else match overId
      case StrId(_) => None
      case NumId(n) =>
        match FindById(tasks, n)
        case Some(overTask) => Some(overTask.status)
        case None => None
  }

  /** The guard `newStatus && activeTask && activeTask.status !== newStatus`; "" is falsy. */
  function ShouldMove(newStatus: Option<string>, activeTask: Option<ClientTask>): (move: bool)
    ensures move ==> newStatus.Some? && activeTask.Some? && activeTask.value.status != newStatus.value
    ensures newStatus == Some("") || newStatus.None? || activeTask.None? ==> !move
    ensures activeTask.Some? && newStatus == Some(activeTask.value.status) ==> !move
  {
    newStatus.Some? && newStatus.value != "" && activeTask.Some? && activeTask.value.status != newStatus.value
  }

  /** The move a drop on a target requests, if any. */
  function MoveDecision(event: DragEndEvent, activeTask: Option<ClientTask>, tasks: seq<ClientTask>)
    : (r: Option<MoveCall>)
    requires event.over.Some?
    ensures r.Some? <==>
      && event.active.data.Some? && event.active.data.value.kind == "Task"
      && ShouldMove(TargetStatus(event.over.value, tasks), activeTask)
    ensures r.Some? ==>
      && r.value.activeId == event.active.id
      && r.value.second == ToNumber(event.over.value)
      && r.value.third == TargetStatus(event.over.value, tasks).value
      && r.value.third != activeTask.value.status
  {
    var isActiveTask := event.active.data.Some? && event.active.data.value.kind == "Task";
    var newStatus := TargetStatus(event.over.value, tasks);
    if isActiveTask && ShouldMove(newStatus, activeTask) then
      Some(MoveCall(event.active.id, ToNumber(event.over.value), newStatus.value))
    else None
  }

  /** A drop that asks for the status the card already has never moves anything. */
  lemma SameColumnDropNeverMoves(event: DragEndEvent, activeTask: Option<ClientTask>, tasks: seq<ClientTask>)
    requires event.over.Some? && activeTask.Some?
    requires TargetStatus(event.over.value, tasks) == Some(activeTask.value.status)
    ensures MoveDecision(event, activeTask, tasks).None?
  {
  }

  /**
   * A card dropped on another column asks to move: the status goes as the third argument,
   * and the second, `Number` of a column id, is NaN.
   */
  lemma ColumnDropPassesStatusThird(event: DragEndEvent, card: ClientTask, tasks: seq<ClientTask>, c: Status)
    requires event.active.data == Some(DragData("Task", Some(card)))
    requires event.over == Some(StrId(StatusName(c))) && card.status != StatusName(c)
    ensures MoveDecision(event, Some(card), tasks)
         == Some(MoveCall(event.active.id, NaN, StatusName(c)))
  {
    assert ParseStatus(StatusName(c)) == Some(c);
    assert !IsDigit(StatusName(c)[0]);
  }

  /** The drag state of the board, `activeTask`. */
  class KanbanBoard {
    var activeTask: Option<ClientTask>

    constructor ()
      ensures activeTask == None
    {
      activeTask := None;
    }

    /** onDragStart: a card being dragged becomes the active task; anything else is ignored. */
    method OnDragStart(data: Option<DragData>)
      modifies this
      ensures data.Some? && data.value.kind == "Task" ==> activeTask == data.value.task
      ensures !(data.Some? && data.value.kind == "Task") ==> activeTask == old(activeTask)
    {
      if data.Some? && data.value.kind == "Task" {
        activeTask := data.value.task;
      }
    }

    /**
     * onDragEnd: a drop without a target does nothing at all; any other drop makes the call
     * MoveDecision describes, if any, and clears the active task.
     */
    method OnDragEnd(event: DragEndEvent, tasks: seq<ClientTask>) returns (call: Option<MoveCall>)
      modifies this
      ensures event.over.None? ==> call == None && activeTask == old(activeTask)
      ensures event.over.Some? ==> call == MoveDecision(event, old(activeTask), tasks) && activeTask == None
    {
      if event.over.None? {
        return None;
      }
      var overId := event.over.value;
      var isActiveTask := event.active.data.Some? && event.active.data.value.kind == "Task";
      call := None;
      if isActiveTask {
        var newStatus: Option<string> := None;
        if overId.StrId? && ParseStatus(overId.s).Some? {
          newStatus := Some(overId.s);
        } else if overId.NumId? {
          var overTask := FindById(tasks, overId.n);
          if overTask.Some? {
            newStatus := Some(overTask.value.status);
          }
        }
        if ShouldMove(newStatus, activeTask) {
          call := Some(MoveCall(event.active.id, ToNumber(overId), newStatus.value));
        }
      }
      activeTask := None;
    }
  }
}
