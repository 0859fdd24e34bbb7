/** One task card of src/components/TaskItem.tsx: the priority badge and the edit, save and
    cancel transitions. */
module TaskItem {
  import opened Outcomes
  import opened Tasks
  import opened Text

  /** `getPriorityColor`: the badge variant of a priority. */
  function PriorityColor(priority: string): (r: string)
    ensures priority == High ==> r == "destructive"
    ensures priority == Medium ==> r == "secondary"
    ensures priority == Low ==> r == "outline"
    ensures priority != High && priority != Medium && priority != Low ==> r == "secondary"
    ensures r in {"destructive", "secondary", "outline"}
  {
    match priority
    case "high" => "destructive"
    case "medium" => "secondary"
    case "low" => "outline"
    case _ => "secondary"
  }

  /** The edit inputs; blank optional inputs hold the empty text. */
  datatype EditData = EditData(title: string, description: string, priority: string, dueDate: string)

  /** The inputs filled from the task: a null description is blank, and the due date is shown
      through `format` (the ISO text cut to the minute). */
  function EditDataOf(task: Task, format: Timestamp -> string): (r: EditData)
    ensures r.title == task.title && r.priority == task.priority
    ensures r.description == task.description.GetOr("")
    ensures task.dueDate.None? ==> r.dueDate == ""
    ensures task.dueDate.Some? ==> r.dueDate == format(task.dueDate.value)
  {
    EditData(task.title, task.description.GetOr(""), task.priority,
             if task.dueDate.Some? then format(task.dueDate.value) else "")
  }

  /** `value || null`: a blank input clears the column. */
  function Nullable(value: string): (r: Field<string>)
    ensures r.Null? <==> value == ""
    ensures r.Value? ==> r.value == value
    ensures !r.Absent?
  {
    if value == "" then Null else Value(value)
  }

  /** The update sent by `handleSave`: title, description, priority and due date only. */
  function SavePayload(edit: EditData): (u: UpdateTaskData)
    ensures u.title == Value(edit.title) && u.priority == Value(edit.priority)
    ensures u.description == Nullable(edit.description) && u.dueDate == Nullable(edit.dueDate)
    ensures u.completed.Absent? && u.category.Absent?
  {
    UpdateTaskData(Value(edit.title), Nullable(edit.description), Absent, Value(edit.priority),
                   Nullable(edit.dueDate), Absent)
  }

  /** The save button is disabled for a blank title. */
  predicate SaveEnabled(edit: EditData) {
    Trim(edit.title) != ""
  }

  /** The edit button is disabled for a completed task. */
  predicate EditEnabled(task: Task) {
    !task.completed
  }

  /** The card keeps its edit state across renders, while its `task` prop is whatever row the
      store holds for its id at the latest render. */
  class TaskCard {
    var task: Task
    const format: Timestamp -> string
    var isEditing: bool
    var editData: EditData

    constructor(task: Task, format: Timestamp -> string)
      ensures this.task == task && this.format == format
      ensures !isEditing && editData == EditDataOf(task, format)
    {
      this.task := task;
      this.format := format;
      isEditing := false;
      editData := EditDataOf(task, format);
    }

    /** The edit button: enters editing mode unless the task is completed. */
    method StartEdit()
      modifies this
      ensures isEditing == (old(isEditing) || EditEnabled(task))
      ensures task == old(task) && editData == old(editData)
    {
      if EditEnabled(task) {
        isEditing := true;
      }
    }

    /** The save button: disabled for a blank title; otherwise sends the payload and leaves
        editing mode only if the update resolved. */
    method ClickSave(onUpdate: Outcome) returns (sent: Option<(string, UpdateTaskData)>)
      requires isEditing
      modifies this
      ensures !SaveEnabled(old(editData)) ==> sent.None? && isEditing == old(isEditing)
      ensures SaveEnabled(old(editData)) ==> sent == Some((task.id, SavePayload(old(editData))))
      ensures SaveEnabled(old(editData)) && onUpdate.Done? ==> !isEditing
      ensures onUpdate.Threw? ==> isEditing == old(isEditing)
      ensures task == old(task) && editData == old(editData)
    {
      if !SaveEnabled(editData) {
        return None;
      }
      sent := Some((task.id, SavePayload(editData)));
      if onUpdate.Done? {
        isEditing := false;
      }
    }

    /** `handleCancel`: the inputs are refilled from the task and editing ends. */
    method Cancel()
      requires isEditing
      modifies this
      ensures !isEditing && editData == EditDataOf(task, format)
      ensures task == old(task)
    {
      editData := EditDataOf(task, format);
      isEditing := false;
    }

    /** A re-render after the store replaced the row: the list is keyed by id, so the same card
        receives the new row and keeps its editing flag and its inputs. */
    method Rerender(t: Task)
      requires t.id == task.id
      modifies this
      ensures task == t
      ensures isEditing == old(isEditing) && editData == old(editData)
    {
      task := t;
    }
  }
}
