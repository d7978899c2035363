/**
 * The records list box as a sequence of lines: the stopwatch appends a
 * line at the end, and the context menu's "Delete Record" removes the
 * first selected line. The list box allows one selection at a time, so the
 * selection is an optional index.
 */
module RecordStore {
  import opened Wrappers

  /** `selection` names an existing line. */
  predicate Selects(lines: seq<string>, selection: Option<nat>) {
    selection.Some? && selection.value < |lines|
  }

  /**
   * The list after deleting the selected line: what follows the selected
   * position moves up by one and what precedes it stays; with no selection
   * (or one past the end) the list is unchanged.
   */
  function DeleteSelected(lines: seq<string>, selection: Option<nat>): (r: seq<string>)
    ensures !Selects(lines, selection) ==> r == lines
    ensures Selects(lines, selection) ==>
      && |r| == |lines| - 1
      && (forall k :: 0 <= k < selection.value ==> r[k] == lines[k])
      && (forall k :: selection.value <= k < |r| ==> r[k] == lines[k + 1])
  {
    match selection
    case None => lines
    case Some(i) => if i < |lines| then lines[..i] + lines[i + 1..] else lines
  }

  /** Deleting takes away exactly one copy of the selected line and nothing else. */
  lemma DeleteSelectedRemovesOne(lines: seq<string>, i: nat)
    requires i < |lines|
    ensures multiset(DeleteSelected(lines, Some(i))) + multiset{lines[i]} == multiset(lines)
  {
    assert lines == lines[..i] + [lines[i]] + lines[i + 1..];
  }

  /** Deleting the line just appended restores the list. */
  lemma DeleteAppended(lines: seq<string>, line: string)
    ensures DeleteSelected(lines + [line], Some(|lines|)) == lines
  {
    assert (lines + [line])[..|lines|] == lines;
  }

  class RecordList {
    /** The list box contents, top to bottom. */
    var lines: seq<string>

    constructor()
      ensures lines == []
    {
      lines := [];
    }

    /** `records_listbox.insert(tk.END, line)`. */
    method Insert(line: string)
      modifies this
      ensures lines == old(lines) + [line]
    {
      lines := lines + [line];
    }

    /**
     * `delete_record`: remove the first selected line; `deleted` is whether
     * anything was removed (the "Record deleted" message).
     */
    method DeleteRecord(selection: Option<nat>) returns (deleted: bool)
      modifies this
      ensures lines == DeleteSelected(old(lines), selection)
      ensures deleted <==> Selects(old(lines), selection)
    {
      deleted := Selects(lines, selection);
      if deleted {
        var i := selection.value;
        lines := lines[..i] + lines[i + 1..];
      }
    }
  }
}
