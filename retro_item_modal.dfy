/** The expanded view of a thought: a modal whose only state of its own is
    `creatingActionItem`, which decides whether the "Add Action Item" button or
    the add-action form is shown. */
module RetroItemModal {

  /** The "Add Action Item" button is rendered. */
  function AddButtonShown(readOnly: bool, creating: bool): (r: bool)
    // the button and the form are never shown together
    ensures r ==> !FormShown(creating)
    // on an editable modal exactly one of the two is shown
    ensures !readOnly ==> (r || FormShown(creating))
    // a read-only modal never offers the button
    ensures readOnly ==> !r
  {
    !readOnly && !creating
  }

  /** The add-action form is rendered. */
  function FormShown(creating: bool): bool {
    creating
  }

  /** What may happen to the modal. */
  datatype ModalEvent = Show | Hide | ClickAdd | Cancel | Confirm(task: string, assignee: string)

  /** `creatingActionItem` after `e`, when the modal is `shown`. */
  function NextCreating(readOnly: bool, shown: bool, creating: bool, e: ModalEvent): (r: bool)
    // only the button click turns the form on, and only while the button is on screen
    ensures r && !creating ==> e == ClickAdd && shown && AddButtonShown(readOnly, creating)
    // hiding, cancelling and confirming all close the form
    ensures e.Hide? || e.Cancel? || e.Confirm? ==> !r
    // showing the modal keeps the form as it was
    ensures e.Show? ==> r == creating
  {
    match e
    case Show => creating
    case Hide => false
    case ClickAdd => if shown && AddButtonShown(readOnly, creating) then true else creating
    case Cancel => false
    case Confirm(_, _) => false
  }

  function NextShown(shown: bool, e: ModalEvent): bool {
    match e
    case Show => true
    case Hide => false
    case _ => shown
  }

  /** `creatingActionItem` after each of `events` in turn, from the given visibility and form state. */
  function CreatingAfter(readOnly: bool, shown: bool, creating: bool, events: seq<ModalEvent>): bool
    decreases |events|
  {
    if events == [] then creating
    else CreatingAfter(readOnly, NextShown(shown, events[0]),
                       NextCreating(readOnly, shown, creating, events[0]), events[1..])
  }

  /** On a read-only modal the form can never be reached: the only way in is the
      button, which a read-only modal does not show. */
  lemma {:induction false} ReadOnlyNeverCreates(shown: bool, events: seq<ModalEvent>)
    ensures !CreatingAfter(true, shown, false, events)
    decreases |events|
  {
    if events != [] {
      ReadOnlyNeverCreates(NextShown(shown, events[0]), events[1..]);
    }
  }

  /** The modal's state; `requested` records the `onAction(task, assignee)` calls. */
  class ItemModal {
    const readOnly: bool
    var shown: bool
    var creatingActionItem: bool
    var requested: seq<(string, string)>

    ghost predicate Valid()
      reads this
    {
      readOnly ==> !creatingActionItem
    }

    constructor (readOnly: bool)
      ensures Valid() && this.readOnly == readOnly
      ensures !shown && !creatingActionItem && requested == []
    {
      this.readOnly := readOnly;
      shown := false;
      creatingActionItem := false;
      requested := [];
    }

    function ButtonShown(): bool
      reads this
    {
      AddButtonShown(readOnly, creatingActionItem)
    }

    method Open()
      requires Valid()
      modifies this
      ensures Valid() && shown
      ensures creatingActionItem == NextCreating(readOnly, old(shown), old(creatingActionItem), Show)
      ensures creatingActionItem == old(creatingActionItem)
      ensures requested == old(requested)
    {
      shown := true;
    }

    /** `onHide`: the modal closes and the form is reset. */
    method Close()
      requires Valid()
      modifies this
      ensures Valid() && !shown && !creatingActionItem
      ensures requested == old(requested)
    {
      shown := false;
      creatingActionItem := false;
    }

    /** The "Add Action Item" button's click, if the button is there to be clicked. */
    method ClickAddActionItem()
      requires Valid()
      modifies this
      ensures Valid() && shown == old(shown)
      ensures creatingActionItem == NextCreating(readOnly, old(shown), old(creatingActionItem), ClickAdd)
      ensures creatingActionItem == (old(creatingActionItem) || (old(shown) && !readOnly))
      ensures requested == old(requested)
    {
      if shown && ButtonShown() {
        creatingActionItem := true;
      }
    }

    /** `onCancel`: the form closes and no action is requested. */
    method CancelActionItem()
      requires Valid()
      modifies this
      ensures Valid() && shown == old(shown) && !creatingActionItem
      ensures requested == old(requested)
    {
      creatingActionItem := false;
    }

    /** `onConfirm(task, assignee)`: the form closes and `onAction` is called once
        with the same arguments. */
    method ConfirmActionItem(task: string, assignee: string)
      requires Valid()
      modifies this
      ensures Valid() && shown == old(shown) && !creatingActionItem
      ensures requested == old(requested) + [(task, assignee)]
    {
      creatingActionItem := false;
      requested := requested + [(task, assignee)];
    }
  }

  /** Opening the modal, adding, then confirming: one `onAction` call with the
      typed arguments, and the button back on screen. */
  method AddActionFromModal(task: string, assignee: string)
    returns (formWhileAdding: bool, buttonAfter: bool, requested: seq<(string, string)>)
    ensures formWhileAdding && buttonAfter
    ensures requested == [(task, assignee)]
  {
    var modal := new ItemModal(false);
    modal.Open();
    modal.ClickAddActionItem();
    formWhileAdding := FormShown(modal.creatingActionItem);
    modal.ConfirmActionItem(task, assignee);
    buttonAfter := modal.ButtonShown();
    requested := modal.requested;
  }
}
