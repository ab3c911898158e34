/** The action item card: the flags it derives from its action and props, and
    the forwarding of the column item's events to its optional callbacks. */
module ActionItemCard {
  import opened Types

  /** The optional callbacks a parent may pass; a missing one is a no-op. */
  datatype Callback = OnEditTask | OnEditAssignee | OnDelete | OnComplete

  datatype Props = Props(action: ActionItem, readOnly: Option<bool>, given: set<Callback>)

  /** What the card renders: the `completed` class, the checkbox, the column item
      type and text, the DateCreated `disabled` flag and the Assignee `readOnly` flag. */
  datatype CardView = CardView(completedClass: bool, checked: bool, itemType: Topic, text: string,
                               itemReadOnly: bool, dateCreatedDisabled: bool, assigneeReadOnly: bool)

  /** The card while its column item is `editing` or `deleting`. */
  function Render(p: Props, editing: bool, deleting: bool): (v: CardView)
    ensures v.completedClass == p.action.completed && v.checked == p.action.completed
    ensures v.itemType == Action && v.text == p.action.task
    ensures v.itemReadOnly <==> p.readOnly == Some(true)
    ensures v.dateCreatedDisabled <==> (p.action.completed || editing || deleting) && p.readOnly != Some(true)
    // a read-only card never greys out its date
    ensures v.itemReadOnly ==> !v.dateCreatedDisabled
    ensures v.assigneeReadOnly <==> p.readOnly == Some(true) || p.action.completed
    // the assignee of a completed item cannot be edited, even on a live board
    ensures p.action.completed ==> v.assigneeReadOnly
  {
    var readOnly := p.readOnly.GetOr(false);
    CardView(p.action.completed, p.action.completed, Action, p.action.task, readOnly,
             (p.action.completed || editing || deleting) && !readOnly,
             readOnly || p.action.completed)
  }

  /** What the column item and the Assignee child report to the card. */
  datatype ItemEvent = Edited(text: string) | Assigned(assignee: string) | DeleteConfirmed | Checked

  /** What the card reports to its parent. */
  datatype ActionEvent =
    | EditTask(action: ActionItem, updatedTask: string)
    | EditAssignee(action: ActionItem, assignee: string)
    | Delete(action: ActionItem)
    | Complete(action: ActionItem)

  function CallbackFor(e: ItemEvent): Callback {
    match e
    case Edited(_) => OnEditTask
    case Assigned(_) => OnEditAssignee
    case DeleteConfirmed => OnDelete
    case Checked => OnComplete
  }

  /** The parent callback invocations one item event causes: none when that
      callback was not given, otherwise exactly one carrying the card's action
      and the event's text unchanged. */
  function Forward(p: Props, e: ItemEvent): (r: seq<ActionEvent>)
    ensures |r| <= 1
    ensures r == [] <==> CallbackFor(e) !in p.given
    ensures forall k :: 0 <= k < |r| ==> r[k].action == p.action
    ensures r != [] && e.Edited? ==> r[0] == EditTask(p.action, e.text)
    ensures r != [] && e.Assigned? ==> r[0] == EditAssignee(p.action, e.assignee)
    ensures r != [] && e.DeleteConfirmed? ==> r[0] == Delete(p.action)
    ensures r != [] && e.Checked? ==> r[0] == Complete(p.action)
  {
    if CallbackFor(e) !in p.given then []
    else
      match e
      case Edited(t) => [EditTask(p.action, t)]
      case Assigned(a) => [EditAssignee(p.action, a)]
      case DeleteConfirmed => [Delete(p.action)]
      case Checked => [Complete(p.action)]
  }
}
