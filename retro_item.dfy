/** A thought card on the retro board: its interaction mode (default, editing,
    confirming a delete), which of its controls react given the thought's
    `discussed` flag and the board's `readOnly` flag, and the thought-service
    calls each reaction issues. */
module RetroItemCard {
  import opened Types
  import UpvoteButton
  import RetroItemModal

  datatype Mode = Default | Editing | DeleteConfirming

  /** The card's clickable controls: the text (opens the expanded view), the
      upvote, edit and delete buttons and the discussed checkbox. */
  datatype Control = Select | Upvote | Edit | Delete | Checkbox

  /** Whether clicking `control` does anything in `mode`, on a thought that is
      `discussed` or not, on a board that is `readOnly` or not. */
  function Enabled(control: Control, mode: Mode, discussed: bool, readOnly: bool): (r: bool)
    // while editing only the edit button reacts (it cancels the edit)
    ensures mode == Editing ==> (r <==> control == Edit)
    // while the delete overlay is up none of the card's buttons react
    ensures mode == DeleteConfirming ==> !r
    // an undiscussed card on a live board: every control reacts
    ensures mode == Default && !discussed && !readOnly ==> r
    // a discussed card: upvote, edit and the expanded view are blocked; delete and the checkbox are not
    ensures mode == Default && discussed && !readOnly ==> (r <==> control == Delete || control == Checkbox)
    // a read-only card: only the expanded view opens, and only for an undiscussed thought
    ensures mode == Default && readOnly ==> (r <==> control == Select && !discussed)
  {
    match mode
    case Editing => control == Edit
    case DeleteConfirming => false
    case Default =>
      match control
      case Select => !discussed
      case Upvote | Edit => !discussed && !readOnly
      case Delete | Checkbox => !readOnly
  }

  /** One card. `calls` is the record of thought-service calls the card has made
      (the mocked service's call log). */
  class RetroItem {
    const teamId: string
    const thought: Thought
    const readOnly: bool
    const modal: RetroItemModal.ItemModal
    var mode: Mode
    var draft: string
    var calls: seq<ThoughtCall>

    /** Outside editing the text box holds the thought's own message; editing and
        confirming a delete are never entered on a read-only board, nor editing
        on a discussed thought. */
    ghost predicate Valid()
      reads this, modal
    {
      && modal.Valid() && modal.readOnly == readOnly
      && (mode != Editing ==> draft == thought.message)
      && (mode == Editing ==> !readOnly && !thought.discussed)
      && (mode == DeleteConfirming ==> !readOnly)
    }

    constructor (teamId: string, thought: Thought, readOnly: bool)
      ensures Valid() && fresh(modal)
      ensures this.teamId == teamId && this.thought == thought && this.readOnly == readOnly
      ensures mode == Default && calls == [] && !modal.shown && !modal.creatingActionItem
    {
      this.teamId := teamId;
      this.thought := thought;
      this.readOnly := readOnly;
      modal := new RetroItemModal.ItemModal(readOnly);
      mode := Default;
      draft := thought.message;
      calls := [];
    }

    function IsEnabled(control: Control): bool
      reads this
    {
      Enabled(control, mode, thought.discussed, readOnly)
    }

    /** The text the card shows. */
    function ShownText(): (r: string)
      reads this, modal
      requires Valid()
      ensures mode != Editing ==> r == thought.message
    {
      draft
    }

    /** The text box is read-only unless the card is being edited. */
    function TextReadOnly(): (r: bool)
      reads this, modal
      requires Valid()
      ensures !r ==> !readOnly && !thought.discussed
    {
      mode != Editing
    }

    /** The "Delete this Thought?" overlay is on screen. */
    function DeleteOverlayShown(): (r: bool)
      reads this, modal
      requires Valid()
      ensures r ==> !readOnly
    {
      mode == DeleteConfirming
    }

    /** The upvote button as rendered: disabled whenever the card is busy or the
        thought is discussed, read-only with the board. */
    function UpvoteView(): (v: UpvoteButton.ButtonView)
      reads this
      // the button is greyed out exactly when a click would issue no call
      ensures v.disabled <==> !IsEnabled(Upvote)
      ensures v.readonlyClass == readOnly && v.count == thought.hearts
    {
      UpvoteButton.Render(thought.hearts, Some(mode != Default || thought.discussed), Some(readOnly))
    }

    /** Clicking the text opens the expanded view, unless the thought is discussed
        or the card is busy. */
    method ClickRetroItem()
      requires Valid()
      modifies modal
      ensures Valid()
      ensures modal.shown == (old(modal.shown) || IsEnabled(Select))
      ensures modal.creatingActionItem == old(modal.creatingActionItem)
      ensures modal.requested == old(modal.requested)
    {
      if IsEnabled(Select) {
        modal.Open();
      }
    }

    method ClickUpvote()
      requires Valid()
      modifies this
      ensures Valid() && mode == old(mode) && draft == old(draft)
      ensures calls == old(calls) + (if IsEnabled(Upvote) then [UpvoteThought(teamId, thought.id)] else [])
    {
      if IsEnabled(Upvote) {
        calls := calls + [UpvoteThought(teamId, thought.id)];
      }
    }

    /** The edit button starts an edit with the thought's message or, while
        editing, abandons the edit. */
    method ClickEdit()
      requires Valid()
      modifies this
      ensures Valid() && calls == old(calls)
      ensures old(mode) == Editing ==> mode == Default
      ensures old(mode) == Default && old(IsEnabled(Edit)) ==> mode == Editing && draft == thought.message
      ensures !old(IsEnabled(Edit)) ==> mode == old(mode) && draft == old(draft)
    {
      if mode == Editing {
        mode, draft := Default, thought.message;
      } else if IsEnabled(Edit) {
        mode, draft := Editing, thought.message;
      }
    }

    /** Typing replaces the text box's contents, and only while editing. */
    method EditText(text: string)
      requires Valid()
      modifies this
      ensures Valid() && mode == old(mode) && calls == old(calls)
      ensures draft == if mode == Editing then text else old(draft)
    {
      if mode == Editing {
        draft := text;
      }
    }

    /** Enter commits the edit: one message update with the typed text verbatim. */
    method PressEnter()
      requires Valid()
      modifies this
      ensures Valid()
      ensures old(mode) == Editing ==> mode == Default && calls == old(calls) + [UpdateMessage(teamId, thought.id, old(draft))]
      ensures old(mode) != Editing ==> mode == old(mode) && calls == old(calls)
    {
      if mode == Editing {
        calls := calls + [UpdateMessage(teamId, thought.id, draft)];
        mode, draft := Default, thought.message;
      }
    }

    /** Escape abandons an edit or closes the delete overlay, with no call. */
    method PressEscape()
      requires Valid()
      modifies this
      ensures Valid() && mode == Default && calls == old(calls)
      ensures draft == thought.message
    {
      mode, draft := Default, thought.message;
    }

    method ClickDelete()
      requires Valid()
      modifies this
      ensures Valid() && calls == old(calls) && draft == old(draft)
      ensures mode == if old(IsEnabled(Delete)) then DeleteConfirming else old(mode)
    {
      if IsEnabled(Delete) {
        mode := DeleteConfirming;
      }
    }

    /** "No" on the delete overlay: closed, nothing deleted. */
    method ClickNo()
      requires Valid()
      modifies this
      ensures Valid() && calls == old(calls) && draft == old(draft)
      ensures mode == if old(mode) == DeleteConfirming then Default else old(mode)
    {
      if mode == DeleteConfirming {
        mode := Default;
      }
    }

    /** "Yes" on the delete overlay: one delete call. */
    method ClickYes()
      requires Valid()
      modifies this
      ensures Valid() && draft == old(draft)
      ensures old(mode) == DeleteConfirming ==> mode == Default && calls == old(calls) + [DeleteThought(teamId, thought.id)]
      ensures old(mode) != DeleteConfirming ==> mode == old(mode) && calls == old(calls)
    {
      if mode == DeleteConfirming {
        calls := calls + [DeleteThought(teamId, thought.id)];
        mode := Default;
      }
    }

    /** The checkbox asks for the opposite of the thought's discussed flag. */
    method ClickCheckbox()
      requires Valid()
      modifies this
      ensures Valid() && mode == old(mode) && draft == old(draft)
      ensures calls == old(calls) + (if IsEnabled(Checkbox)
                                     then [UpdateDiscussionStatus(teamId, thought.id, !thought.discussed)] else [])
    {
      if IsEnabled(Checkbox) {
        calls := calls + [UpdateDiscussionStatus(teamId, thought.id, !thought.discussed)];
      }
    }
  }

  // Each method below replays one test of the card against the class's contracts.

  /** An upvote click on an undiscussed card issues one upvote call. */
  method UpvoteFreshCard(teamId: string, t: Thought) returns (calls: seq<ThoughtCall>)
    requires !t.discussed
    ensures calls == [UpvoteThought(teamId, t.id)]
  {
    var card := new RetroItem(teamId, t, false);
    card.ClickUpvote();
    calls := card.calls;
  }

  /** Start editing, type, escape; start again, type, press edit again: the
      original message is back each time and nothing is sent. */
  method StartAndCancelEditing(teamId: string, t: Thought, newText: string)
    returns (shown: seq<string>, calls: seq<ThoughtCall>)
    requires !t.discussed
    ensures shown == [t.message, t.message, newText, t.message, t.message, newText, t.message]
    ensures calls == []
  {
    var card := new RetroItem(teamId, t, false);
    shown := [card.ShownText()];
    card.ClickEdit();
    shown := shown + [card.ShownText()];
    card.EditText(newText);
    shown := shown + [card.ShownText()];
    card.PressEscape();
    shown := shown + [card.ShownText()];
    card.ClickEdit();
    shown := shown + [card.ShownText()];
    card.EditText(newText);
    shown := shown + [card.ShownText()];
    card.ClickEdit();
    shown := shown + [card.ShownText()];
    calls := card.calls;
  }

  /** While editing, upvote, delete and the checkbox do nothing. */
  method EditingDisablesOtherButtons(teamId: string, t: Thought)
    returns (textReadOnly: bool, overlay: bool, calls: seq<ThoughtCall>)
    requires !t.discussed
    ensures !textReadOnly && !overlay && calls == []
  {
    var card := new RetroItem(teamId, t, false);
    card.ClickEdit();
    textReadOnly := card.TextReadOnly();
    card.ClickUpvote();
    card.ClickDelete();
    overlay := card.DeleteOverlayShown();
    card.ClickCheckbox();
    calls := card.calls;
  }

  /** Edit, type, Enter: one message update with the typed text. */
  method EditThought(teamId: string, t: Thought, updated: string) returns (calls: seq<ThoughtCall>)
    requires !t.discussed
    ensures calls == [UpdateMessage(teamId, t.id, updated)]
  {
    var card := new RetroItem(teamId, t, false);
    card.ClickEdit();
    card.EditText(updated);
    card.PressEnter();
    calls := card.calls;
  }

  /** The delete overlay opens, and Escape or "No" closes it without a delete. */
  method CancelDeletion(teamId: string, t: Thought, byEscape: bool)
    returns (openedOverlay: bool, overlayAfter: bool, calls: seq<ThoughtCall>)
    ensures openedOverlay && !overlayAfter && calls == []
  {
    var card := new RetroItem(teamId, t, false);
    card.ClickDelete();
    openedOverlay := card.DeleteOverlayShown();
    if byEscape {
      card.PressEscape();
    } else {
      card.ClickNo();
    }
    overlayAfter := card.DeleteOverlayShown();
    calls := card.calls;
  }

  /** Delete then "Yes": one delete call. Deleting is allowed on a discussed thought too. */
  method ConfirmDeletion(teamId: string, t: Thought) returns (calls: seq<ThoughtCall>)
    ensures calls == [DeleteThought(teamId, t.id)]
  {
    var card := new RetroItem(teamId, t, false);
    card.ClickDelete();
    card.ClickYes();
    calls := card.calls;
  }

  /** The checkbox asks for `true` on an undiscussed thought and `false` on a discussed one. */
  method ToggleDiscussed(teamId: string, t: Thought) returns (calls: seq<ThoughtCall>)
    ensures calls == [UpdateDiscussionStatus(teamId, t.id, !t.discussed)]
  {
    var card := new RetroItem(teamId, t, false);
    card.ClickCheckbox();
    calls := card.calls;
  }

  /** A discussed thought: upvote sends nothing, edit leaves the text read-only and
      the expanded view stays closed, but delete opens its overlay. */
  method DiscussedCard(teamId: string, t: Thought)
    returns (calls: seq<ThoughtCall>, textReadOnly: bool, modalShown: bool, overlay: bool)
    requires t.discussed
    ensures calls == [] && textReadOnly && !modalShown && overlay
  {
    var card := new RetroItem(teamId, t, false);
    card.ClickUpvote();
    card.ClickEdit();
    textReadOnly := card.TextReadOnly();
    card.ClickRetroItem();
    modalShown := card.modal.shown;
    card.ClickDelete();
    overlay := card.DeleteOverlayShown();
    calls := card.calls;
  }

  /** A read-only card: upvote, edit, delete and the checkbox all do nothing,
      yet the expanded view opens. */
  method ReadOnlyCard(teamId: string, t: Thought)
    returns (calls: seq<ThoughtCall>, textReadOnly: bool, overlay: bool, modalShown: bool)
    requires !t.discussed
    ensures calls == [] && textReadOnly && !overlay && modalShown
  {
    var card := new RetroItem(teamId, t, true);
    card.ClickUpvote();
    card.ClickEdit();
    textReadOnly := card.TextReadOnly();
    card.ClickDelete();
    overlay := card.DeleteOverlayShown();
    card.ClickCheckbox();
    calls := card.calls;
    card.ClickRetroItem();
    modalShown := card.modal.shown;
  }
}
