/** The live board of one team as the journeys drive it: thoughts and action items
    are created, changed by the calls and events their cards emit, deleted, shown
    in columns in display order, exported, and folded into an archive when the
    retro ends. */
module Board {
  import opened Types
  import opened Seqs
  import opened ColumnOrder
  import ActionInput
  import opened ActionItemCard
  import CsvExport
  import RetroItemCard

  function ThoughtId(t: Thought): int { t.id }
  function ActionId(a: ActionItem): int { a.id }
  function IsArchived(a: ActionItem): bool { a.archived }
  function IsCompleted(a: ActionItem): bool { a.completed }

  /** The action items on the live board, in the order they were created. */
  function LiveActions(actions: seq<ActionItem>): (r: seq<ActionItem>)
    ensures |r| <= |actions| && forall i :: 0 <= i < |r| ==> !r[i].archived
  {
    Filter(actions, IsArchived, false)
  }

  /** The action-item archive: every archived item, in the order they were created. */
  function ArchivedActions(actions: seq<ActionItem>): (r: seq<ActionItem>)
    ensures |r| <= |actions| && forall i :: 0 <= i < |r| ==> r[i].archived
  {
    Filter(actions, IsArchived, true)
  }

  /** The thoughts of the `topic` column, in the order they were created. */
  function ThoughtsIn(ts: seq<Thought>, topic: ThoughtTopic): (r: seq<Thought>)
    ensures |r| <= |ts|
    ensures forall i :: 0 <= i < |r| ==> r[i].topic == topic && r[i] in ts
    ensures forall i :: 0 <= i < |ts| && ts[i].topic == topic ==> ts[i] in r
  {
    if ts == [] then []
    else
      assert forall i :: 1 <= i < |ts| ==> ts[i] == ts[1..][i - 1];
      (if ts[0].topic == topic then [ts[0]] else []) + ThoughtsIn(ts[1..], topic)
  }

  /** A new thought lands at the end of its own column and nowhere else. */
  lemma {:induction false} ThoughtsInAppend(ts: seq<Thought>, t: Thought, topic: ThoughtTopic)
    ensures ThoughtsIn(ts + [t], topic) == ThoughtsIn(ts, topic) + (if t.topic == topic then [t] else [])
  {
    if ts == [] {
      assert [t][1..] == [];
    } else {
      assert (ts + [t])[1..] == ts[1..] + [t];
      ThoughtsInAppend(ts[1..], t, topic);
    }
  }

  /** Changing thoughts without moving any of them to another topic keeps every
      column's size. */
  lemma {:induction false} ThoughtsInSameTopics(ts: seq<Thought>, us: seq<Thought>, topic: ThoughtTopic)
    requires |ts| == |us|
    requires forall i :: 0 <= i < |ts| ==> ts[i].topic == us[i].topic
    ensures |ThoughtsIn(us, topic)| == |ThoughtsIn(ts, topic)|
  {
    if ts != [] {
      ThoughtsInSameTopics(ts[1..], us[1..], topic);
    }
  }

  function ThoughtCards(ts: seq<Thought>): (r: seq<Card>)
    ensures |r| == |ts| && forall i :: 0 <= i < |ts| ==> r[i] == ThoughtCard(ts[i])
  {
    seq(|ts|, i requires 0 <= i < |ts| => ThoughtCard(ts[i]))
  }

  function ActionCards(actions: seq<ActionItem>): (r: seq<Card>)
    ensures |r| == |actions| && forall i :: 0 <= i < |actions| ==> r[i] == ActionCard(actions[i])
  {
    seq(|actions|, i requires 0 <= i < |actions| => ActionCard(actions[i]))
  }

  /** The `topic` column as displayed. */
  function ThoughtColumn(ts: seq<Thought>, topic: ThoughtTopic): (r: seq<Card>)
    ensures |r| == |ThoughtsIn(ts, topic)|
  {
    DisplayOrder(ThoughtCards(ThoughtsIn(ts, topic)))
  }

  /** The action column as displayed: the live items only. */
  function ActionColumn(actions: seq<ActionItem>): (r: seq<Card>)
    ensures |r| == |LiveActions(actions)|
  {
    DisplayOrder(ActionCards(LiveActions(actions)))
  }

  /** Every card of the live board, as the CSV export lists them. */
  function BoardCards(ts: seq<Thought>, actions: seq<ActionItem>): (r: seq<Card>)
    ensures |r| == |ts| + |LiveActions(actions)|
  {
    ThoughtCards(ts) + ActionCards(LiveActions(actions))
  }

  /** What call `c` does to thought `t`: only the thought it names is touched. */
  function CallOnThought(t: Thought, c: ThoughtCall): Thought {
    if t.id != c.thoughtId then t
    else
      match c
      case UpvoteThought(_, _) => t.(hearts := t.hearts + 1)
      case UpdateMessage(_, _, m) => t.(message := m)
      case UpdateDiscussionStatus(_, _, d) => t.(discussed := d)
      case DeleteThought(_, _) => t
  }

  /** The thoughts after the thought service carries out card call `c` on the board
      of team `teamId`. */
  function ApplyThoughtCall(ts: seq<Thought>, teamId: string, c: ThoughtCall): (r: seq<Thought>)
    // a call for another team changes nothing
    ensures c.teamId != teamId ==> r == ts
    // a delete removes the named thought and keeps the rest in order
    ensures c.teamId == teamId && c.DeleteThought? ==> r == RemoveKey(ts, ThoughtId, c.thoughtId)
    // every other call keeps each thought in its place and its column
    ensures !c.DeleteThought? ==> |r| == |ts|
    ensures !c.DeleteThought? ==> forall i :: 0 <= i < |ts| ==> r[i].id == ts[i].id && r[i].topic == ts[i].topic
    ensures c.UpvoteThought? ==> forall i :: 0 <= i < |ts| ==>
      && r[i].hearts == ts[i].hearts + (if c.teamId == teamId && ts[i].id == c.thoughtId then 1 else 0)
      && r[i].message == ts[i].message && r[i].discussed == ts[i].discussed
    ensures c.UpdateMessage? ==> forall i :: 0 <= i < |ts| ==>
      && r[i].message == (if c.teamId == teamId && ts[i].id == c.thoughtId then c.message else ts[i].message)
      && r[i].hearts == ts[i].hearts && r[i].discussed == ts[i].discussed
    ensures c.UpdateDiscussionStatus? ==> forall i :: 0 <= i < |ts| ==>
      && r[i].discussed == (if c.teamId == teamId && ts[i].id == c.thoughtId then c.discussed else ts[i].discussed)
      && r[i].hearts == ts[i].hearts && r[i].message == ts[i].message
  {
    if c.teamId != teamId then ts
    else if c.DeleteThought? then RemoveKey(ts, ThoughtId, c.thoughtId)
    else seq(|ts|, i requires 0 <= i < |ts| => CallOnThought(ts[i], c))
  }

  /** What event `e` of an action card does to action item `a`: only the item it
      names is touched; completing flips the flag the card was showing. */
  function EventOnAction(a: ActionItem, e: ActionEvent): ActionItem {
    if a.id != e.action.id then a
    else
      match e
      case EditTask(_, task) => a.(task := task)
      case EditAssignee(_, who) => a.(assignee := who)
      case Complete(shown) => a.(completed := !shown.completed)
      case Delete(_) => a
  }

  /** The action items after the board handles event `e` of an action card. */
  function ApplyActionEvent(actions: seq<ActionItem>, e: ActionEvent): (r: seq<ActionItem>)
    ensures e.Delete? ==> r == RemoveKey(actions, ActionId, e.action.id)
    ensures !e.Delete? ==> |r| == |actions|
    ensures !e.Delete? ==> forall i :: 0 <= i < |actions| ==>
      r[i].id == actions[i].id && r[i].archived == actions[i].archived && r[i].dateCreated == actions[i].dateCreated
    ensures e.EditTask? ==> forall i :: 0 <= i < |actions| ==>
      && r[i].task == (if actions[i].id == e.action.id then e.updatedTask else actions[i].task)
      && r[i].assignee == actions[i].assignee && r[i].completed == actions[i].completed
    ensures e.EditAssignee? ==> forall i :: 0 <= i < |actions| ==>
      && r[i].assignee == (if actions[i].id == e.action.id then e.assignee else actions[i].assignee)
      && r[i].task == actions[i].task && r[i].completed == actions[i].completed
    ensures e.Complete? ==> forall i :: 0 <= i < |actions| ==>
      && r[i].completed == (if actions[i].id == e.action.id then !e.action.completed else actions[i].completed)
      && r[i].task == actions[i].task && r[i].assignee == actions[i].assignee
  {
    if e.Delete? then RemoveKey(actions, ActionId, e.action.id)
    else seq(|actions|, i requires 0 <= i < |actions| => EventOnAction(actions[i], e))
  }

  /** Deleting a live action item takes exactly one card off the action column. */
  lemma {:induction false} DeleteRemovesOneLive(actions: seq<ActionItem>, id: int)
    requires UniqueKeys(actions, ActionId)
    requires exists i :: 0 <= i < |actions| && actions[i].id == id && !actions[i].archived
    ensures |LiveActions(RemoveKey(actions, ActionId, id))| == |LiveActions(actions)| - 1
  {
    var a, rest := actions[0], actions[1..];
    assert actions == [a] + rest;
    UniqueKeysTail(actions, ActionId);
    if a.id == id {
      RemoveKeyAbsent(rest, ActionId, id);
    } else {
      var i :| 0 <= i < |actions| && actions[i].id == id && !actions[i].archived;
      assert rest[i - 1] == actions[i];
      DeleteRemovesOneLive(rest, id);
      assert ([a] + RemoveKey(rest, ActionId, id))[1..] == RemoveKey(rest, ActionId, id);
    }
  }

  /** A new live action item adds exactly one card to the action column. */
  lemma {:induction false} CreateAddsOneLive(actions: seq<ActionItem>, a: ActionItem)
    requires !a.archived
    ensures LiveActions(actions + [a]) == LiveActions(actions) + [a]
    ensures |ActionColumn(actions + [a])| == |ActionColumn(actions)| + 1
  {
    FilterConcat(actions, [a], IsArchived, false);
    FilterSingleton(a, IsArchived, false);
  }

  /** Ticking or clearing the discussed box of thought `t` keeps its column's size;
      a ticked box puts a resolved card at the bottom, and clearing the only ticked
      box of the board leaves no resolved card at the bottom. */
  lemma {:induction false} DiscussedMovesOnBoard(ts: seq<Thought>, teamId: string, k: nat, b: bool)
    requires k < |ts|
    ensures var us := ApplyThoughtCall(ts, teamId, UpdateDiscussionStatus(teamId, ts[k].id, b));
      var before, after := ThoughtColumn(ts, ts[k].topic), ThoughtColumn(us, ts[k].topic);
      && |after| == |before| > 0
      && (b ==> IsResolved(after[|after| - 1]))
      && (!b && (forall i :: 0 <= i < |ts| && ts[i].id != ts[k].id ==> !ts[i].discussed)
          ==> !IsResolved(after[|after| - 1]))
  {
    var us := ApplyThoughtCall(ts, teamId, UpdateDiscussionStatus(teamId, ts[k].id, b));
    ThoughtsInSameTopics(ts, us, ts[k].topic);
    ColumnBottom(us, k);
    if !b && forall i :: 0 <= i < |ts| && ts[i].id != ts[k].id ==> !ts[i].discussed {
      forall i | 0 <= i < |us| ensures !us[i].discussed {
        assert us[i].discussed == (if ts[i].id == ts[k].id then b else ts[i].discussed);
      }
    }
  }

  /** The column of thought `us[k]` is not empty; it ends in a resolved card when
      that thought is discussed, and in an unresolved one when none is. */
  lemma ColumnBottom(us: seq<Thought>, k: nat)
    requires k < |us|
    ensures var after := ThoughtColumn(us, us[k].topic);
      && |after| > 0
      && (us[k].discussed ==> IsResolved(after[|after| - 1]))
      && ((forall i :: 0 <= i < |us| ==> !us[i].discussed) ==> !IsResolved(after[|after| - 1]))
  {
    var column := ThoughtsIn(us, us[k].topic);
    assert us[k] in column;
    var cards := ThoughtCards(column);
    LastResolvedIff(cards);
    var j :| 0 <= j < |column| && column[j] == us[k];
    assert us[k].discussed ==> IsResolved(cards[j]);
    if forall i :: 0 <= i < |us| ==> !us[i].discussed {
      forall j | 0 <= j < |cards| ensures !IsResolved(cards[j]) {
        var m :| 0 <= m < |us| && us[m] == column[j];
      }
    }
  }

  /** Ticking the completed box of a live action item keeps the action column's
      size and puts a resolved card at the bottom. */
  lemma {:induction false} CompletedMovesOnBoard(actions: seq<ActionItem>, k: nat)
    requires k < |actions| && !actions[k].archived && !actions[k].completed
    ensures var after := ActionColumn(ApplyActionEvent(actions, Complete(actions[k])));
      && |after| == |ActionColumn(actions)| > 0
      && IsResolved(after[|after| - 1])
  {
    var us := ApplyActionEvent(actions, Complete(actions[k]));
    FilterSplits(actions, IsArchived);
    FilterSplits(us, IsArchived);
    SameArchivedFlags(actions, us);
    var live := LiveActions(us);
    FilterContains(us, k, IsArchived, false);
    var j :| 0 <= j < |live| && live[j] == us[k];
    var cards := ActionCards(live);
    assert IsResolved(cards[j]);
    LastResolvedIff(cards);
  }

  /** With no completed item on the board, the bottom card of the action column is
      not resolved. */
  lemma NoneCompletedAtBottom(actions: seq<ActionItem>)
    requires forall i :: 0 <= i < |actions| ==> !actions[i].completed
    ensures var column := ActionColumn(actions); |column| > 0 ==> !IsResolved(column[|column| - 1])
  {
    var live := LiveActions(actions);
    if |live| > 0 {
      FilterSplits(actions, IsArchived);
      var cards := ActionCards(live);
      forall j | 0 <= j < |cards| ensures !IsResolved(cards[j]) {
        assert live[j] in multiset(actions);
      }
      LastResolvedIff(cards);
    }
  }

  /** Events that keep every item's archived flag keep the live board's size. */
  lemma {:induction false} SameArchivedFlags(actions: seq<ActionItem>, us: seq<ActionItem>)
    requires |actions| == |us|
    requires forall i :: 0 <= i < |actions| ==> actions[i].archived == us[i].archived
    ensures |LiveActions(us)| == |LiveActions(actions)|
  {
    if actions != [] {
      SameArchivedFlags(actions[1..], us[1..]);
    }
  }

  /** An archive record: the thoughts and the live action items of the board at the
      moment the retro was ended, as they were. */
  datatype Archive = Archive(thoughts: seq<Thought>, actionItems: seq<ActionItem>)

  /** Ending a retro archives the completed items and leaves the others untouched. */
  function ArchiveCompleted(actions: seq<ActionItem>): (r: seq<ActionItem>)
    ensures |r| == |actions|
    ensures forall i :: 0 <= i < |actions| ==>
      r[i] == if actions[i].completed then actions[i].(archived := true) else actions[i]
  {
    seq(|actions|, i requires 0 <= i < |actions| =>
      if actions[i].completed then actions[i].(archived := true) else actions[i])
  }

  /** After archiving, the live board holds exactly the active items it held before,
      in the same order. */
  lemma {:induction false} ArchiveKeepsActive(actions: seq<ActionItem>)
    ensures LiveActions(ArchiveCompleted(actions)) == Filter(LiveActions(actions), IsCompleted, false)
  {
    if actions != [] {
      var a, rest := actions[0], actions[1..];
      var r := ArchiveCompleted(actions);
      assert r[1..] == ArchiveCompleted(rest);
      ArchiveKeepsActive(rest);
      var live := LiveActions(rest);
      if !a.archived {
        assert LiveActions(actions) == [a] + live;
        assert ([a] + live)[1..] == live;
      }
    }
  }

  /** Every completed item present when the retro ends is in the action-item
      archive afterwards, and nothing already archived leaves it. */
  lemma ArchiveHoldsCompleted(actions: seq<ActionItem>, i: nat)
    requires i < |actions| && (actions[i].completed || actions[i].archived)
    ensures actions[i].(archived := true) in ArchivedActions(ArchiveCompleted(actions))
  {
    var r := ArchiveCompleted(actions);
    FilterContains(r, i, IsArchived, true);
    assert r[i] == actions[i].(archived := true);
  }

  /** The board's service state; `archiveCalls` counts the end-retro requests sent. */
  class RetroBoard {
    const teamId: string
    var thoughts: seq<Thought>
    var actions: seq<ActionItem>
    var archives: seq<Archive>
    var nextId: int
    var archiveCalls: nat

    /** Ids are distinct and all below the next one handed out. */
    ghost predicate Valid()
      reads this
    {
      && UniqueKeys(thoughts, ThoughtId) && UniqueKeys(actions, ActionId)
      && (forall i :: 0 <= i < |thoughts| ==> thoughts[i].id < nextId)
      && (forall i :: 0 <= i < |actions| ==> actions[i].id < nextId)
    }

    constructor (teamId: string)
      ensures Valid() && this.teamId == teamId
      ensures thoughts == [] && actions == [] && archives == [] && archiveCalls == 0
    {
      this.teamId := teamId;
      thoughts, actions, archives := [], [], [];
      nextId, archiveCalls := 0, 0;
    }

    /** The thought payload `{message, hearts, discussed, topic}` is stored as given,
        under a fresh id, at the end of the board. */
    method CreateThought(message: string, hearts: nat, discussed: bool, topic: ThoughtTopic)
      returns (t: Thought)
      requires Valid()
      modifies this
      ensures Valid()
      ensures t.message == message && t.hearts == hearts && t.discussed == discussed && t.topic == topic
      ensures forall i :: 0 <= i < |old(thoughts)| ==> old(thoughts)[i].id != t.id
      ensures thoughts == old(thoughts) + [t]
      ensures actions == old(actions) && archives == old(archives) && archiveCalls == old(archiveCalls)
    {
      t := Thought(nextId, message, hearts, discussed, topic);
      thoughts := thoughts + [t];
      nextId := nextId + 1;
    }

    /** Typing a thought into a column: no hearts, not discussed, one more card there
        and no change to the other columns. */
    method EnterThought(topic: ThoughtTopic, message: string) returns (t: Thought)
      requires Valid()
      modifies this
      ensures Valid() && thoughts == old(thoughts) + [t]
      ensures t == Thought(t.id, message, 0, false, topic)
      ensures ThoughtsIn(thoughts, topic) == ThoughtsIn(old(thoughts), topic) + [t]
      ensures forall o: ThoughtTopic :: o != topic ==>
                ThoughtsIn(thoughts, o) == ThoughtsIn(old(thoughts), o)
      ensures actions == old(actions) && archives == old(archives) && archiveCalls == old(archiveCalls)
    {
      t := CreateThought(message, 0, false, topic);
      ThoughtsInAppend(old(thoughts), t, topic);
      forall o: ThoughtTopic | o != topic
        ensures ThoughtsIn(thoughts, o) == ThoughtsIn(old(thoughts), o)
      {
        ThoughtsInAppend(old(thoughts), t, o);
      }
    }

    /** The action-item payload `{task, completed, assignee, dateCreated, archived}` is
        stored as given, under a fresh id, at the end of the board. */
    method CreateActionItem(task: string, assignee: string, completed: bool, dateCreated: int, archived: bool)
      returns (a: ActionItem)
      requires Valid()
      modifies this
      ensures Valid()
      ensures a == ActionItem(a.id, task, assignee, completed, dateCreated, archived)
      ensures forall i :: 0 <= i < |old(actions)| ==> old(actions)[i].id != a.id
      ensures actions == old(actions) + [a]
      ensures thoughts == old(thoughts) && archives == old(archives) && archiveCalls == old(archiveCalls)
    {
      a := ActionItem(nextId, task, assignee, completed, dateCreated, archived);
      actions := actions + [a];
      nextId := nextId + 1;
    }

    /** Typing `task @assignee` into the action column: a new active item with the
        parsed task and assignee (empty without an '@'), one more card in the column. */
    method EnterActionItem(input: string, dateCreated: int) returns (a: ActionItem)
      requires Valid()
      modifies this
      ensures Valid() && actions == old(actions) + [a]
      ensures var p := ActionInput.ParseActionInput(input);
        a.task == p.task && a.assignee == p.assignee.GetOr("")
      ensures !a.completed && !a.archived && a.dateCreated == dateCreated
      ensures LiveActions(actions) == LiveActions(old(actions)) + [a]
      ensures thoughts == old(thoughts) && archives == old(archives) && archiveCalls == old(archiveCalls)
    {
      var p := ActionInput.ParseActionInput(input);
      a := CreateActionItem(p.task, p.assignee.GetOr(""), false, dateCreated, false);
      CreateAddsOneLive(old(actions), a);
    }

    /** The thought service carries out a call a thought card issued. */
    method ReceiveThoughtCall(c: ThoughtCall)
      requires Valid()
      modifies this
      ensures Valid() && thoughts == ApplyThoughtCall(old(thoughts), teamId, c)
      ensures actions == old(actions) && archives == old(archives) && archiveCalls == old(archiveCalls)
      ensures nextId == old(nextId)
    {
      RemoveKeyUnique(thoughts, ThoughtId, c.thoughtId);
      thoughts := ApplyThoughtCall(thoughts, teamId, c);
    }

    /** The board handles an event an action card forwarded. */
    method ReceiveActionEvent(e: ActionEvent)
      requires Valid()
      modifies this
      ensures Valid() && actions == ApplyActionEvent(old(actions), e)
      ensures e.Delete? && !e.action.archived && e.action in old(actions) ==>
        |LiveActions(actions)| == |LiveActions(old(actions))| - 1
      ensures !e.Delete? ==> |LiveActions(actions)| == |LiveActions(old(actions))|
      ensures thoughts == old(thoughts) && archives == old(archives) && archiveCalls == old(archiveCalls)
      ensures nextId == old(nextId)
    {
      if e.Delete? && !e.action.archived && e.action in actions {
        var i :| 0 <= i < |actions| && actions[i] == e.action;
        DeleteRemovesOneLive(actions, e.action.id);
      }
      RemoveKeyUnique(actions, ActionId, e.action.id);
      actions := ApplyActionEvent(actions, e);
      if !e.Delete? {
        SameArchivedFlags(old(actions), actions);
      }
    }

    /** The archive dialog's answer: `confirmed` is "Yes!", otherwise "Nope"; `persisted`
        is whether the end-retro request succeeded. "Nope" sends nothing; a failed
        request changes nothing; a successful one records every thought and every
        live action item as they were, removes all thoughts, and archives the
        completed items while the active ones stay on the board. */
    method ArchiveRetro(confirmed: bool, persisted: bool)
      requires Valid()
      modifies this
      ensures Valid() && nextId == old(nextId)
      ensures archiveCalls == old(archiveCalls) + (if confirmed then 1 else 0)
      ensures !(confirmed && persisted) ==>
        thoughts == old(thoughts) && actions == old(actions) && archives == old(archives)
      ensures confirmed && persisted ==>
        && thoughts == []
        && actions == ArchiveCompleted(old(actions))
        && archives == old(archives) + [Archive(old(thoughts), LiveActions(old(actions)))]
    {
      if confirmed {
        archiveCalls := archiveCalls + 1;
        if persisted {
          archives := archives + [Archive(thoughts, LiveActions(actions))];
          thoughts := [];
          actions := ArchiveCompleted(actions);
        }
      }
    }

    /** The contents of the board's CSV download, with each card written by `row`. */
    function Csv(row: Card -> string): (r: string)
      reads this
      ensures BoardCards(thoughts, actions) == [] ==> r == CsvExport.CsvHeader
    {
      CsvExport.BoardCsv(BoardCards(thoughts, actions), row)
    }
  }

  /** The live part of a two-item board. */
  lemma LiveOfTwo(a: ActionItem, b: ActionItem)
    ensures LiveActions([a, b]) == (if a.archived then [] else [a]) + (if b.archived then [] else [b])
  {
    assert [a, b] == [a] + [b];
    FilterConcat([a], [b], IsArchived, false);
    FilterSingleton(a, IsArchived, false);
    FilterSingleton(b, IsArchived, false);
  }

  /** A column of two undiscussed thoughts, shown in the order they were typed. */
  lemma TwoFreshThoughts(a: Thought, b: Thought)
    requires !a.discussed && !b.discussed
    ensures ThoughtColumn([a, b], a.topic) == if b.topic == a.topic then [ThoughtCard(a), ThoughtCard(b)] else [ThoughtCard(a)]
  {
    ThoughtsInAppend([], a, a.topic);
    ThoughtsInAppend([a], b, a.topic);
    assert [a] + [b] == [a, b];
    AllActiveKeepsOrder(ThoughtCards(ThoughtsIn([a, b], a.topic)));
  }

  // Each method below replays one journey against the board's contracts.

  /** The happy column at each step of the discussed journey: two undiscussed
      thoughts, the first ticked, then cleared again. */
  lemma DiscussedJourneyColumns(teamId: string, good: Thought, other: Thought)
    requires good.topic == Happy && other.topic == Happy && good.id != other.id
    requires !good.discussed && !other.discussed
    ensures var ts := [good, other];
      var marked := ApplyThoughtCall(ts, teamId, UpdateDiscussionStatus(teamId, good.id, true));
      var cleared := ApplyThoughtCall(marked, teamId, UpdateDiscussionStatus(teamId, good.id, false));
      var c0, c1, c2 := ThoughtColumn(ts, Happy), ThoughtColumn(marked, Happy), ThoughtColumn(cleared, Happy);
      && marked == [good.(discussed := true), other]
      && |c0| == 2 && !IsResolved(c0[1])
      && |c1| == 2 && IsResolved(c1[1])
      && |c2| == 2 && !IsResolved(c2[1])
  {
    var ts := [good, other];
    TwoFreshThoughts(good, other);
    DiscussedMovesOnBoard(ts, teamId, 0, true);
    var marked := ApplyThoughtCall(ts, teamId, UpdateDiscussionStatus(teamId, good.id, true));
    assert marked == [good.(discussed := true), other];
    DiscussedMovesOnBoard(marked, teamId, 0, false);
  }

  /** The discussed checkbox of the live card showing `t` is clicked, and the board
      carries out the call the card issues: the thought's flag is flipped. */
  method ClickDiscussedOnBoard(board: RetroBoard, t: Thought)
    requires board.Valid()
    modifies board
    ensures board.Valid()
    ensures board.thoughts == ApplyThoughtCall(old(board.thoughts), board.teamId,
                                               UpdateDiscussionStatus(board.teamId, t.id, !t.discussed))
    ensures board.actions == old(board.actions) && board.archives == old(board.archives)
    ensures board.archiveCalls == old(board.archiveCalls)
  {
    var calls := RetroItemCard.ToggleDiscussed(board.teamId, t);
    board.ReceiveThoughtCall(calls[0]);
  }

  /** Two happy thoughts; the first card's checkbox is clicked, and the call it issues
      is carried out by the board: a resolved card goes to the bottom of a column that
      keeps its two cards. Clicking the checkbox of the now discussed card again
      leaves an unresolved card at the bottom. */
  method MarkThoughtAsDiscussed(teamId: string)
    returns (sizes: seq<int>, bottomResolved: seq<bool>)
    ensures sizes == [2, 2, 2]
    ensures bottomResolved == [false, true, false]
  {
    var board := new RetroBoard(teamId);
    var good := board.EnterThought(Happy, "This is a good week");
    assert board.thoughts == [good];
    var other := board.EnterThought(Happy, "Another positive note");
    assert board.thoughts == [good, other];
    DiscussedJourneyColumns(teamId, good, other);
    var c0 := ThoughtColumn(board.thoughts, Happy);

    ClickDiscussedOnBoard(board, good);
    var c1 := ThoughtColumn(board.thoughts, Happy);

    ClickDiscussedOnBoard(board, board.thoughts[0]);
    var c2 := ThoughtColumn(board.thoughts, Happy);

    sizes := [|c0|, |c1|, |c2|];
    bottomResolved := [IsResolved(c0[|c0| - 1]), IsResolved(c1[|c1| - 1]), IsResolved(c2[|c2| - 1])];
  }

  /** The action column at each step of the action-item journey: the first item
      edited, completed and reopened, then the second deleted. */
  lemma ActionJourneyColumns(a1: ActionItem, a2: ActionItem, task: string, assignee: string)
    requires a1.id != a2.id && !a1.completed && !a2.completed && !a1.archived && !a2.archived
    ensures var s1 := ApplyActionEvent([a1, a2], EditTask(a1, task));
      var s2 := ApplyActionEvent(s1, EditAssignee(s1[0], assignee));
      var s3 := ApplyActionEvent(s2, Complete(s2[0]));
      var s4 := ApplyActionEvent(s3, Complete(s3[0]));
      var s5 := ApplyActionEvent(s4, Delete(s4[1]));
      var c3, c4 := ActionColumn(s3), ActionColumn(s4);
      && |c3| > 0 && IsResolved(c3[|c3| - 1])
      && |c4| > 0 && !IsResolved(c4[|c4| - 1])
      && s4[0].task == task && s4[0].assignee == assignee
      && |ActionColumn(s5)| == 1
  {
    var b := a1.(task := task, assignee := assignee);
    var s1 := ApplyActionEvent([a1, a2], EditTask(a1, task));
    assert s1 == [a1.(task := task), a2];
    var s2 := ApplyActionEvent(s1, EditAssignee(s1[0], assignee));
    assert s2 == [b, a2];
    CompletedMovesOnBoard(s2, 0);
    var s3 := ApplyActionEvent(s2, Complete(s2[0]));
    assert s3 == [b.(completed := true), a2];
    var s4 := ApplyActionEvent(s3, Complete(s3[0]));
    assert s4 == [b, a2];
    NoneCompletedAtBottom(s4);
    LiveOfTwo(b, a2);
    assert s4[1].id == a2.id && !s4[1].archived;
    DeleteRemovesOneLive(s4, a2.id);
  }

  /** One action item typed as `task @assignee` into the action column of `board`:
      the new card holds the task and the assignee, and the column has one more card. */
  method TypeActionItem(board: RetroBoard, task: string, who: string, today: int)
    returns (a: ActionItem, count: nat)
    requires board.Valid()
    requires ActionInput.IsTrimmed(task) && '@' !in task && '@' !in who
    modifies board
    ensures board.Valid() && board.actions == old(board.actions) + [a]
    ensures a.task == task && a.assignee == who && !a.completed && !a.archived
    ensures count == |ActionColumn(board.actions)| == |LiveActions(old(board.actions))| + 1
  {
    ActionInput.ParseRoundTrip(task, who);
    a := board.EnterActionItem(task + " @" + who, today);
    count := |ActionColumn(board.actions)|;
  }

  /** Two items typed as `task @assignee`, each adding one card that holds the task
      and assignee read from the typed text. */
  method CreateActionItems(teamId: string, today: int, task1: string, who1: string,
                           task2: string, who2: string)
    returns (created: seq<ActionItem>, counts: seq<nat>)
    requires ActionInput.IsTrimmed(task1) && '@' !in task1 && '@' !in who1
    requires ActionInput.IsTrimmed(task2) && '@' !in task2 && '@' !in who2
    ensures |created| == 2
    ensures created[0].task == task1 && created[0].assignee == who1
    ensures created[1].task == task2 && created[1].assignee == who2
    ensures counts == [1, 2]
  {
    var board := new RetroBoard(teamId);
    assert LiveActions(board.actions) == [];
    var a1, n1 := TypeActionItem(board, task1, who1, today);
    var a2, n2 := TypeActionItem(board, task2, who2, today);
    created, counts := [a1, a2], [n1, n2];
  }

  /** On a board of two active items, the first is edited (text appended to its task
      after a space and to its assignee), completed (to the bottom) and reopened;
      then the second is deleted, leaving one card. */
  method EditCompleteDeleteActionItems(teamId: string, today: int, task1: string, who1: string,
                                       task2: string, who2: string, moreTask: string, moreWho: string)
    returns (first: ActionItem, bottomResolved: seq<bool>, finalCount: nat)
    ensures first.task == task1 + " " + moreTask && first.assignee == who1 + moreWho
    ensures bottomResolved == [true, false]
    ensures finalCount == 1
  {
    var board := new RetroBoard(teamId);
    var a1 := board.CreateActionItem(task1, who1, false, today, false);
    var a2 := board.CreateActionItem(task2, who2, false, today, false);
    assert board.actions == [a1, a2];
    var newTask, newWho := task1 + " " + moreTask, who1 + moreWho;
    board.ReceiveActionEvent(EditTask(board.actions[0], newTask));
    board.ReceiveActionEvent(EditAssignee(board.actions[0], newWho));
    board.ReceiveActionEvent(Complete(board.actions[0]));
    var c3 := ActionColumn(board.actions);
    board.ReceiveActionEvent(Complete(board.actions[0]));
    var c4 := ActionColumn(board.actions);
    first := board.actions[0];
    board.ReceiveActionEvent(Delete(board.actions[1]));
    ActionJourneyColumns(a1, a2, newTask, newWho);
    bottomResolved := [IsResolved(c3[|c3| - 1]), IsResolved(c4[|c4| - 1])];
    finalCount := |ActionColumn(board.actions)|;
  }

  /** The board of the archive journey before and after "Yes!": one unhappy thought,
      an active item and a completed one. */
  lemma ArchiveJourneyColumns(t: Thought, active: ActionItem, done: ActionItem)
    requires t.topic == Unhappy && active.id != done.id
    requires !active.archived && !done.archived && !active.completed && !done.completed
    ensures var s := ApplyActionEvent([active, done], Complete(done));
      && |ThoughtColumn([t], Unhappy)| == 1 && |ThoughtColumn([], Unhappy)| == 0
      && |ActionColumn(s)| == 2
      && LiveActions(ArchiveCompleted(s)) == [active]
  {
    assert [t][1..] == [];
    var s := ApplyActionEvent([active, done], Complete(done));
    var d := done.(completed := true);
    assert s == [active, d];
    LiveOfTwo(active, d);
    assert ArchiveCompleted(s) == [active, d.(archived := true)];
    LiveOfTwo(active, d.(archived := true));
  }

  /** The archive journey's board: one unhappy thought typed, then an active item
      and a second item that is completed. */
  method ArchiveJourneyBoard(teamId: string, today: int)
    returns (board: RetroBoard, t: Thought, active: ActionItem, done: ActionItem)
    ensures fresh(board) && board.Valid()
    ensures board.thoughts == [t] && t.topic == Unhappy
    ensures active.task == "Active Action Item" && active.id != done.id
    ensures !active.archived && !done.archived && !active.completed && !done.completed
    ensures board.actions == ApplyActionEvent([active, done], Complete(done))
    ensures board.archiveCalls == 0
  {
    board := new RetroBoard(teamId);
    t := board.EnterThought(Unhappy, "Unhappy Thought");
    active := board.CreateActionItem("Active Action Item", "", false, today, false);
    assert board.actions == [active];
    done := board.CreateActionItem("Action item we completed", "", false, today, false);
    assert [active][0].id != done.id;
    assert board.actions == [active, done];
    board.ReceiveActionEvent(Complete(done));
  }

  /** One unhappy thought and two action items, the second completed. "Nope" sends
      no request and keeps one thought and two items; "Yes!" sends one and leaves no
      thought and only the active item. */
  method ArchiveRetroJourney(teamId: string, today: int)
    returns (afterNope: (nat, nat), callsAfterNope: nat, afterYes: (nat, nat), callsAfterYes: nat,
             live: seq<ActionItem>)
    ensures afterNope == (1, 2) && callsAfterNope == 0
    ensures afterYes == (0, 1) && callsAfterYes == 1
    ensures |live| == 1 && live[0].task == "Active Action Item"
  {
    var board, t, active, done := ArchiveJourneyBoard(teamId, today);
    ArchiveJourneyColumns(t, active, done);

    board.ArchiveRetro(false, true);
    afterNope := (|ThoughtColumn(board.thoughts, Unhappy)|, |ActionColumn(board.actions)|);
    callsAfterNope := board.archiveCalls;

    board.ArchiveRetro(true, true);
    afterYes := (|ThoughtColumn(board.thoughts, Unhappy)|, |ActionColumn(board.actions)|);
    callsAfterYes := board.archiveCalls;
    live := LiveActions(board.actions);
  }

  /** Given thoughts [T1 not discussed, T2 discussed] and action items [A1 active,
      A2 completed], ending the retro leaves no thought and only A1 live, and the
      record holds T1, T2, A1 and A2 exactly as they were. */
  method ArchiveResolvedAndActive(teamId: string, today: int)
    returns (t1: Thought, t2: Thought, a1: ActionItem, a2: ActionItem,
             record: Archive, thoughtsLeft: seq<Thought>, live: seq<ActionItem>)
    ensures !t1.discussed && t2.discussed && !a1.completed && a2.completed
    ensures thoughtsLeft == [] && live == [a1]
    ensures record == Archive([t1, t2], [a1, a2])
  {
    var board := new RetroBoard(teamId);
    t1 := board.CreateThought("T1", 0, false, Happy);
    t2 := board.CreateThought("T2", 0, true, Happy);
    a1 := board.CreateActionItem("A1", "", false, today, false);
    a2 := board.CreateActionItem("A2", "", true, today, false);
    assert board.thoughts == [t1, t2] && board.actions == [a1, a2];
    LiveOfTwo(a1, a2);
    board.ArchiveRetro(true, true);
    record := board.archives[0];
    thoughtsLeft := board.thoughts;
    assert board.actions == [a1, a2.(archived := true)];
    LiveOfTwo(a1, a2.(archived := true));
    live := LiveActions(board.actions);
  }

  /** The messages of `ts`, in order, as the thought archive lists them. */
  function Messages(ts: seq<Thought>): (r: seq<string>)
    ensures |r| == |ts| && forall i :: 0 <= i < |ts| ==> r[i] == ts[i].message
  {
    if ts == [] then [] else [ts[0].message] + Messages(ts[1..])
  }

  /** The tasks of `actions`, in order, as the action-item archive lists them. */
  function Tasks(actions: seq<ActionItem>): (r: seq<string>)
    ensures |r| == |actions| && forall i :: 0 <= i < |actions| ==> r[i] == actions[i].task
  {
    if actions == [] then [] else [actions[0].task] + Tasks(actions[1..])
  }

  /** An item that is already archived when the retro ends stays in the action-item
      archive and off the live board, which then holds no card. */
  lemma ArchivistJourneyBoard(item: ActionItem)
    requires item.archived
    ensures item.task in Tasks(ArchivedActions(ArchiveCompleted([item])))
    ensures BoardCards([], ArchiveCompleted([item])) == []
  {
    var r := ArchiveCompleted([item]);
    assert r == [item];
    FilterKeepsAll(r, IsArchived, true);
    FilterKeepsNone(r, IsArchived, false);
    assert Tasks(ArchivedActions(r))[0] == item.task;
  }

  /** The thought archive of a four-thought board lists the four messages in order. */
  lemma MessagesOfFour(m1: Thought, m2: Thought, m3: Thought, m4: Thought)
    ensures Messages([m1, m2, m3, m4]) == [m1.message, m2.message, m3.message, m4.message]
  {
  }

  /** Four thoughts and a completed, already archived item posted to the board, then
      the retro ended: the record lists the four messages whatever their hearts,
      discussed flag and column, the item is in the action-item archive, and the CSV
      download of the emptied board, named after the team, is the header alone. */
  method ArchivistJourney(teamId: string, today: int, row: Card -> string)
    returns (messages: seq<string>, archivedTasks: seq<string>, csv: string, fileName: string)
    ensures messages == ["message1", "message2", "message3", "message4"]
    ensures "action to take" in archivedTasks
    ensures csv == "Column,Message,Likes,Completed,Assigned To\r\n"
    ensures fileName == teamId + "-board.csv"
  {
    var board := new RetroBoard(teamId);
    var m1 := board.CreateThought("message1", 0, false, Happy);
    var m2 := board.CreateThought("message2", 1, false, Happy);
    var m3 := board.CreateThought("message3", 2, true, Happy);
    var m4 := board.CreateThought("message4", 0, false, Unhappy);
    var item := board.CreateActionItem("action to take", "me", true, today, true);
    assert board.thoughts == [m1, m2, m3, m4];
    board.ArchiveRetro(true, true);
    MessagesOfFour(m1, m2, m3, m4);
    messages := Messages(board.archives[0].thoughts);
    archivedTasks := Tasks(ArchivedActions(board.actions));
    csv := board.Csv(row);
    fileName := CsvExport.CsvFileName(teamId);
    ArchivistJourneyBoard(item);
  }
}
