/** A column's header: the sort toggle, which flips and reports its new value on
    every click, and the title, edited in place and committed by Enter or by
    leaving the input, or abandoned by Escape. */
module ColumnHeader {
  import opened Types

  /** The values reported by `n` successive sort clicks from the unsorted start:
      true, false, true, ... */
  function SortEmissions(n: nat): (r: seq<bool>)
    ensures |r| == n
    ensures forall i :: 0 <= i < n ==> r[i] == (i % 2 == 0)
  {
    if n == 0 then [] else SortEmissions(n - 1) + [(n - 1) % 2 == 0]
  }

  /** The longest title the input takes; the counter shows what is left of it. */
  const MaxTitleLength := 16

  /** The number the character counter shows while `draft` is in the input. */
  function CharactersLeft(draft: string): (r: int)
    ensures |draft| <= MaxTitleLength ==> 0 <= r <= MaxTitleLength
    ensures r + |draft| == MaxTitleLength
  {
    MaxTitleLength - |draft|
  }

  /** The header's props (`readOnly`) and state; `sortReports` and `titleReports`
      record the `sortedChanged` and `titleChanged` calls. */
  class Header {
    const readOnly: bool
    var title: string
    var sorted: bool
    var editing: bool
    var draft: string
    var sortReports: seq<bool>
    var titleReports: seq<string>

    /** The sort flag is the last value reported, and the reports alternate from true;
        the input only exists on an editable header. */
    ghost predicate Valid()
      reads this
    {
      && sortReports == SortEmissions(|sortReports|)
      && sorted == (|sortReports| % 2 == 1)
      && (editing ==> !readOnly)
    }

    constructor (initialTitle: string, readOnly: bool)
      ensures Valid() && this.readOnly == readOnly && title == initialTitle
      ensures !sorted && !editing && sortReports == [] && titleReports == []
    {
      this.readOnly := readOnly;
      title := initialTitle;
      sorted := false;
      editing := false;
      draft := initialTitle;
      sortReports := [];
      titleReports := [];
    }

    /** The edit button is rendered only on an editable header. */
    function EditButtonShown(): bool
      reads this
    {
      !readOnly
    }

    /** The character counter, shown only while editing. */
    function Counter(): (r: Option<int>)
      reads this
      ensures r.Some? <==> editing
      ensures editing ==> r.value == CharactersLeft(draft)
    {
      if editing then Some(CharactersLeft(draft)) else None
    }

    method ClickSort()
      requires Valid()
      modifies this
      ensures Valid() && sorted == !old(sorted)
      ensures sortReports == old(sortReports) + [sorted]
      ensures title == old(title) && editing == old(editing) && draft == old(draft) && titleReports == old(titleReports)
    {
      sorted := !sorted;
      sortReports := sortReports + [sorted];
    }

    /** The edit button opens the input holding the current title. */
    method ClickEdit()
      requires Valid()
      modifies this
      ensures Valid() && title == old(title) && sorted == old(sorted) && sortReports == old(sortReports)
      ensures titleReports == old(titleReports)
      ensures editing == (old(editing) || !readOnly)
      ensures !old(editing) && !readOnly ==> draft == title
      ensures old(editing) || readOnly ==> draft == old(draft)
    {
      if !readOnly && !editing {
        editing, draft := true, title;
      }
    }

    /** Typing leaves `value` in the input. */
    method EditInput(value: string)
      requires Valid()
      modifies this
      ensures Valid() && title == old(title) && editing == old(editing)
      ensures sorted == old(sorted) && sortReports == old(sortReports) && titleReports == old(titleReports)
      ensures draft == if editing then value else old(draft)
    {
      if editing {
        draft := value;
      }
    }

    /** Enter, or the input losing focus: the typed title replaces the old one and
        is reported once. */
    method Commit()
      requires Valid()
      modifies this
      ensures Valid() && !editing && sorted == old(sorted) && sortReports == old(sortReports)
      ensures old(editing) ==> title == old(draft) && titleReports == old(titleReports) + [old(draft)]
      ensures !old(editing) ==> title == old(title) && titleReports == old(titleReports)
    {
      if editing {
        title := draft;
        titleReports := titleReports + [draft];
        editing := false;
      }
    }

    /** Escape: the input closes and the title is kept, with no report. */
    method PressEscape()
      requires Valid()
      modifies this
      ensures Valid() && !editing && title == old(title) && draft == title
      ensures sorted == old(sorted) && sortReports == old(sortReports) && titleReports == old(titleReports)
    {
      editing, draft := false, title;
    }
  }

  /** Two sort clicks report true then false. */
  method SortTwice() returns (reports: seq<bool>)
    ensures reports == [true, false]
  {
    var header := new Header("", false);
    header.ClickSort();
    header.ClickSort();
    reports := header.sortReports;
  }

  /** A read-only header offers no edit button, and clicking where it would be opens no input. */
  method ReadOnlyHeader(title: string) returns (buttonShown: bool, editing: bool)
    ensures !buttonShown && !editing
  {
    var header := new Header(title, true);
    buttonShown := header.EditButtonShown();
    header.ClickEdit();
    editing := header.editing;
  }

  /** Edit "Change This" to "Something Else" and commit it: the input closes, the
      new title is shown and reported; the counter showed 5 while editing. */
  method RenameColumn() returns (counter: Option<int>, title: string, editing: bool, reports: seq<string>)
    ensures counter == Some(5)
    ensures title == "Something Else" && !editing && reports == ["Something Else"]
  {
    var header := new Header("Change This", false);
    header.ClickEdit();
    counter := header.Counter();
    header.EditInput("Something Else");
    header.Commit();
    title, editing, reports := header.title, header.editing, header.titleReports;
  }

  /** Escape after typing keeps "No Change" and reports nothing. */
  method AbandonRename() returns (title: string, editing: bool, reports: seq<string>)
    ensures title == "No Change" && !editing && reports == []
  {
    var header := new Header("No Change", false);
    header.ClickEdit();
    header.EditInput("Something Else");
    header.PressEscape();
    title, editing, reports := header.title, header.editing, header.titleReports;
  }
}
