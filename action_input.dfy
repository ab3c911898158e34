/** Reading an action item typed into the action column as `task @assignee`:
    the text is split on '@' as JavaScript's `String.prototype.split` does, the
    first part trimmed becomes the task and the second part, untrimmed, the
    assignee (the rule the facilitator journey checks the created item against). */
module ActionInput {
  import opened Types

  /** The characters `String.prototype.trim` removes: the white-space characters
      (tab, vertical tab, form feed, the byte-order mark and every space separator)
      and the line terminators (line feed, carriage return, U+2028, U+2029). */
  predicate IsWhitespace(c: char) {
    || c == '\t' || c == '\U{000B}' || c == '\U{000C}' || c == '\U{FEFF}'
    || c == ' ' || c == '\U{00A0}' || c == '\U{1680}' || '\U{2000}' <= c <= '\U{200A}'
    || c == '\U{202F}' || c == '\U{205F}' || c == '\U{3000}'
    || c == '\n' || c == '\r' || c == '\U{2028}' || c == '\U{2029}'
  }

  /** The position of the first `c` in `s`, if any. */
  function IndexOf(s: string, c: char): (r: Option<nat>)
    ensures r.None? <==> c !in s
    ensures r.Some? ==> r.value < |s| && s[r.value] == c && c !in s[..r.value]
  {
    if s == [] then None
    else if s[0] == c then Some(0)
    else
      match IndexOf(s[1..], c)
      case None => None
      case Some(i) =>
        assert s[..i + 1] == [s[0]] + s[1..][..i];
        Some(i + 1)
  }

  /** The first `c` after a prefix without `c` is right after that prefix. */
  lemma {:induction false} IndexOfAfterPrefix(a: string, c: char, b: string)
    requires c !in a
    ensures IndexOf(a + [c] + b, c) == Some(|a|)
  {
    if a != [] {
      assert (a + [c] + b)[1..] == a[1..] + [c] + b;
      IndexOfAfterPrefix(a[1..], c, b);
    }
  }

  /** `parts` glued back together with `sep` between neighbours. */
  function Join(parts: seq<string>, sep: char): string
    requires |parts| >= 1
  {
    if |parts| == 1 then parts[0] else parts[0] + [sep] + Join(parts[1..], sep)
  }

  /** `s.split(sep)` for a one-character separator. */
  function Split(s: string, sep: char): (r: seq<string>)
    ensures |r| >= 1
    ensures Join(r, sep) == s
    ensures forall i :: 0 <= i < |r| ==> sep !in r[i]
    decreases |s|
  {
    match IndexOf(s, sep)
    case None => [s]
    case Some(i) =>
      var rest := Split(s[i + 1..], sep);
      assert s == s[..i] + [sep] + s[i + 1..];
      [s[..i]] + rest
  }

  /** Splitting at the first separator: the text before it is the first part. */
  lemma SplitAtFirst(a: string, sep: char, b: string)
    requires sep !in a
    ensures Split(a + [sep] + b, sep) == [a] + Split(b, sep)
  {
    var s := a + [sep] + b;
    IndexOfAfterPrefix(a, sep, b);
    assert s[..|a|] == a;
    assert s[|a| + 1..] == b;
  }

  /** Splitting undoes joining, when no part holds the separator. */
  lemma {:induction false} SplitJoin(parts: seq<string>, sep: char)
    requires |parts| >= 1
    requires forall i :: 0 <= i < |parts| ==> sep !in parts[i]
    ensures Split(Join(parts, sep), sep) == parts
    decreases |parts|
  {
    if |parts| > 1 {
      var tail := parts[1..];
      assert forall i :: 0 <= i < |tail| ==> tail[i] == parts[i + 1];
      SplitJoin(tail, sep);
      assert sep !in parts[0];
      SplitAtFirst(parts[0], sep, Join(tail, sep));
      assert parts == [parts[0]] + tail;
    }
  }

  /** `s` without its leading whitespace. */
  function TrimStart(s: string): (r: string)
    ensures |r| <= |s| && r == s[|s| - |r|..]
    ensures r == [] || !IsWhitespace(r[0])
    ensures forall k :: 0 <= k < |s| - |r| ==> IsWhitespace(s[k])
  {
    if s != [] && IsWhitespace(s[0]) then TrimStart(s[1..]) else s
  }

  /** `s` without its trailing whitespace. */
  function TrimEnd(s: string): (r: string)
    ensures |r| <= |s| && r == s[..|r|]
    ensures r == [] || !IsWhitespace(r[|r| - 1])
    ensures forall k :: |r| <= k < |s| ==> IsWhitespace(s[k])
  {
    if s != [] && IsWhitespace(s[|s| - 1]) then TrimEnd(s[..|s| - 1]) else s
  }

  /** `s.trim()`: no whitespace is left at either end. */
  function Trim(s: string): (r: string)
    ensures |r| <= |s| && IsTrimmed(r)
  {
    var e := TrimEnd(s);
    var r := TrimStart(e);
    assert r != [] ==> r[|r| - 1] == e[|e| - 1] by {
      if r != [] {
        assert r == e[|e| - |r|..];
      }
    }
    r
  }

  /** A string with no whitespace at either end. */
  predicate IsTrimmed(s: string) {
    s == [] || (!IsWhitespace(s[0]) && !IsWhitespace(s[|s| - 1]))
  }

  /** Trimming leaves a trimmed string, and leaves a trimmed string alone. */
  lemma TrimFacts(s: string)
    ensures IsTrimmed(Trim(s))
    ensures IsTrimmed(s) ==> Trim(s) == s
  {
    var e := TrimEnd(s);
    var r := TrimStart(e);
    if r != [] {
      assert r == e[|e| - |r|..];
      assert r[|r| - 1] == e[|e| - 1];
    }
  }

  /** Trailing whitespace after a trimmed text is dropped entirely. */
  lemma {:induction false} TrimDropsTrailingSpace(task: string)
    requires IsTrimmed(task)
    ensures Trim(task + " ") == task
  {
    var s := task + " ";
    assert s[..|s| - 1] == task;
    assert TrimEnd(s) == TrimEnd(task);
    TrimFacts(task);
  }

  datatype ParsedAction = ParsedAction(task: string, assignee: Option<string>)

  /** The text of `t` before its first `c`, or all of `t` when it has none. */
  function UpTo(t: string, c: char): (r: string)
    ensures c !in r
  {
    match IndexOf(t, c)
    case None => t
    case Some(j) => t[..j]
  }

  /** The task and assignee the journey expects for the typed text `s`: the first
      '@'-separated part trimmed, and the second part if there is one. */
  function ParseActionInput(s: string): (r: ParsedAction)
    // without an '@' the whole text, trimmed, is the task and there is no assignee
    ensures IndexOf(s, '@').None? ==> r.task == Trim(s) && r.assignee.None?
    // otherwise the task is the text before the first '@', trimmed, and the assignee
    // is the text after it, up to the next '@' or the end, untrimmed
    ensures IndexOf(s, '@').Some? ==>
      var i := IndexOf(s, '@').value;
      r.task == Trim(s[..i]) && r.assignee == Some(UpTo(s[i + 1..], '@'))
  {
    var parts := Split(s, '@');
    SplitParts(s, '@');
    ParsedAction(Trim(parts[0]), if |parts| > 1 then Some(parts[1]) else None)
  }

  /** The parsed task has no surrounding whitespace and no '@'; there is an assignee
      exactly when the text holds an '@', and it holds none itself. */
  lemma ParseShape(s: string)
    ensures var r := ParseActionInput(s);
      && IsTrimmed(r.task) && '@' !in r.task
      && (r.assignee.None? <==> '@' !in s)
      && (r.assignee.Some? ==> '@' !in r.assignee.value)
  {
    match IndexOf(s, '@')
    case None => TrimKeepsOut(s, '@');
    case Some(i) => TrimKeepsOut(s[..i], '@');
  }

  /** The first part of a split is the text before the first separator, and the
      second, when there is one, the text after it up to the next separator. */
  lemma SplitParts(s: string, sep: char)
    ensures IndexOf(s, sep).None? ==> Split(s, sep) == [s]
    ensures IndexOf(s, sep).Some? ==>
      var i := IndexOf(s, sep).value;
      |Split(s, sep)| > 1 && Split(s, sep)[0] == s[..i] && Split(s, sep)[1] == UpTo(s[i + 1..], sep)
  {
    match IndexOf(s, sep)
    case None =>
    case Some(i) =>
      var rest := s[i + 1..];
      assert Split(s, sep) == [s[..i]] + Split(rest, sep);
      match IndexOf(rest, sep)
      case None => assert Split(rest, sep) == [rest];
      case Some(j) => assert Split(rest, sep)[0] == rest[..j];
  }

  /** Trimming takes characters away and never adds one, and leaves a trimmed string. */
  lemma TrimKeepsOut(s: string, c: char)
    requires c !in s
    ensures c !in Trim(s) && IsTrimmed(Trim(s))
  {
    TrimFacts(s);
    var e := TrimEnd(s);
    assert e == s[..|e|];
    assert Trim(s) == e[|e| - |Trim(s)|..];
  }

  /** A text splits into one part exactly when it holds no separator. */
  lemma SplitIsWhole(s: string, sep: char)
    ensures |Split(s, sep)| == 1 <==> sep !in s
  {
    var parts := Split(s, sep);
    if |parts| == 1 {
      assert Join(parts, sep) == parts[0];
    } else {
      assert s == parts[0] + [sep] + Join(parts[1..], sep);
      assert s[|parts[0]|] == sep;
    }
  }

  /** Typing `task @assignee` gives back that task and that assignee, provided the
      task has no surrounding whitespace and neither part holds an '@'. */
  lemma {:induction false} ParseRoundTrip(task: string, assignee: string)
    requires IsTrimmed(task) && '@' !in task && '@' !in assignee
    ensures ParseActionInput(task + " @" + assignee) == ParsedAction(task, Some(assignee))
  {
    var first := task + " ";
    assert '@' !in first;
    assert Join([first, assignee], '@') == task + " @" + assignee;
    SplitJoin([first, assignee], '@');
    TrimDropsTrailingSpace(task);
  }

  /** Text without an '@' is a task with no assignee, kept as it is when it has no
      surrounding whitespace. */
  lemma {:induction false} ParseWithoutAssignee(s: string)
    requires '@' !in s
    ensures ParseActionInput(s).assignee.None?
    ensures IsTrimmed(s) ==> ParseActionInput(s).task == s
  {
    assert Split(s, '@') == [s];
    TrimFacts(s);
  }
}
