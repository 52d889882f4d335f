/** The earliest local panel (src/tui/app/file_list_widget.rs): built from a
    list of builds handed in by the caller, with a cursor over it and the
    unguarded decrement. */
module LegacyFileListWidget {
  import opened Types
  import opened Selection

  class FileListWidget {
    const files: seq<BlenderVersion>
    const len: nat
    var selected: nat

    predicate Valid()
      reads this
    {
      len == |files|
    }

    /** `FileListWidget::new(files)`: the given list, its length, the cursor at
        0. */
    constructor(files: seq<BlenderVersion>)
      ensures Valid()
      ensures this.files == files && len == |files|
      ensures selected == 0
    {
      this.len := |files|;
      this.files := files;
      selected := 0;
    }

    /** Move the cursor down one entry, wrapping to the top after the last; the
        list and its length are constants. */
    method IncrementActiveSelection()
      modifies this`selected
      ensures selected == Next(old(selected), len)
      ensures len > 0 ==> selected < len
      ensures len == 0 ==> selected == 0
    {
      selected := selected + 1;
      if selected >= len {
        selected := 0;
      }
    }

    /** Move the cursor up one entry, wrapping to the bottom from the top; at
        index 0 of an empty list `len - 1` underflows and the call panics,
        leaving the cursor as it was. */
    method DecrementActiveSelection() returns (panicked: bool)
      modifies this`selected
      ensures panicked <==> old(selected) == 0 && len == 0
      ensures panicked ==> selected == old(selected)
      ensures !panicked ==> Some(selected) == PrevUnguarded(old(selected), len)
      ensures old(selected) < len ==> !panicked && selected < len
    {
      panicked := false;
      if selected == 0 {
        if len == 0 {
          panicked := true;
          return;
        }
        selected := len - 1;
      } else {
        selected := selected - 1;
      }
    }
  }
}
