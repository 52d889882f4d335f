/** The local panel of the earlier interface (src/tui/app/file_list.rs): the
    builds found in the download directory and a cursor over them, with the
    unguarded decrement. The directory scan is a parameter. */
module LegacyFileList {
  import opened Types
  import opened Selection
  import opened FilesUtils

  class FileListWidget {
    var files: seq<BlenderVersion>
    var selected: nat
    var len: nat

    predicate Valid()
      reads this
    {
      len == |files|
    }

    /** `FileListWidget::new`: an empty panel with the cursor at 0, filled by
        one `refresh_local`. */
    constructor(scanned: seq<Path>)
      ensures Valid()
      ensures files == ParseDownloaded(scanned)
      ensures selected == 0
    {
      len := 0;
      files := [];
      selected := 0;
      new;
      RefreshLocal(scanned);
    }

    /** `refresh_local`: the builds named by the scanned directories replace the
        list; the cursor is not touched. */
    method RefreshLocal(scanned: seq<Path>)
      modifies this`files, this`len
      ensures Valid()
      ensures files == ParseDownloaded(scanned)
      ensures len <= |scanned|
    {
      var found := ParseDownloaded(scanned);
      len := |found|;
      files := found;
    }

    /** Move the cursor down one entry, wrapping to the top after the last. */
    method IncrementActiveSelection()
      modifies this`selected
      ensures selected == Next(old(selected), len)
      ensures len > 0 ==> selected < len
      ensures len == 0 ==> selected == 0
    {
      selected := selected + 1;
      if selected >= len {
        selected := 0;
      }
    }

    /** Move the cursor up one entry, wrapping to the bottom from the top; at
        index 0 of an empty list `len - 1` underflows and the call panics,
        leaving the cursor as it was. */
    method DecrementActiveSelection() returns (panicked: bool)
      modifies this`selected
      ensures panicked <==> old(selected) == 0 && len == 0
      ensures panicked ==> selected == old(selected)
      ensures !panicked ==> Some(selected) == PrevUnguarded(old(selected), len)
      ensures old(selected) < len ==> !panicked && selected < len
    {
      panicked := false;
      if selected == 0 {
        if len == 0 {
          panicked := true;
          return;
        }
        selected := len - 1;
      } else {
        selected := selected - 1;
      }
    }
  }
}
