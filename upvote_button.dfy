/** The upvote button: its `disabled` attribute, its `readonly` class and the
    vote count it displays, from its props. */
module UpvoteButton {
  import opened Types

  datatype ButtonView = ButtonView(disabled: bool, readonlyClass: bool, count: int)

  /** The button for `votes` with the optional `disabled` and `readOnly` props
      (both default to false). */
  function Render(votes: int, disabled: Option<bool>, readOnly: Option<bool>): (v: ButtonView)
    ensures v.disabled <==> disabled == Some(true) || readOnly == Some(true)
    ensures v.readonlyClass <==> readOnly == Some(true)
    ensures v.count == votes
    // with neither flag given the button is live
    ensures disabled == None && readOnly == None ==> !v.disabled
    // a read-only button is always disabled, whatever `disabled` says
    ensures v.readonlyClass ==> v.disabled
  {
    var isDisabled := disabled.GetOr(false);
    var isReadOnly := readOnly.GetOr(false);
    ButtonView(isDisabled || isReadOnly, isReadOnly, votes)
  }
}
