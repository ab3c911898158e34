/** Records shared by the retrospective board's components: topics, thoughts,
    action items, the column card union, and the service calls a card issues. */
module Types {

  datatype Option<T> = None | Some(value: T) {
    /** The value, or `default` when absent (a destructuring default in the UI). */
    function GetOr(default: T): T {
      match this
      case Some(v) => v
      case None => default
    }
  }

  /** The four board columns; ACTION is reserved for action items. */
  datatype Topic = Happy | Confused | Unhappy | Action

  /** The three columns a thought may belong to. */
  type ThoughtTopic = t: Topic | t != Action witness Happy

  datatype Thought = Thought(id: int, message: string, hearts: nat, discussed: bool, topic: ThoughtTopic)

  /** `dateCreated` is an opaque timestamp supplied by the caller (the clock is outside the model). */
  datatype ActionItem = ActionItem(id: int, task: string, assignee: string, completed: bool,
                                   dateCreated: int, archived: bool)

  /** A card of a column: the tagged union of the two kinds of item. */
  datatype Card = ThoughtCard(thought: Thought) | ActionCard(action: ActionItem)

  /** A card is resolved when its thought is discussed or its action item is completed. */
  function IsResolved(c: Card): bool {
    match c
    case ThoughtCard(t) => t.discussed
    case ActionCard(a) => a.completed
  }

  /** The same card with its discussed/completed flag set to `b`. */
  function WithResolved(c: Card, b: bool): (r: Card)
    ensures IsResolved(r) == b
    ensures r.ThoughtCard? == c.ThoughtCard?
    ensures r.ThoughtCard? ==> r.thought.(discussed := c.thought.discussed) == c.thought
    ensures r.ActionCard? ==> r.action.(completed := c.action.completed) == c.action
  {
    match c
    case ThoughtCard(t) => ThoughtCard(t.(discussed := b))
    case ActionCard(a) => ActionCard(a.(completed := b))
  }

  /** The calls a thought card makes on the thought service. */
  datatype ThoughtCall =
    | UpvoteThought(teamId: string, thoughtId: int)
    | UpdateMessage(teamId: string, thoughtId: int, message: string)
    | UpdateDiscussionStatus(teamId: string, thoughtId: int, discussed: bool)
    | DeleteThought(teamId: string, thoughtId: int)
}
