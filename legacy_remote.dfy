/** The remote panel of the earlier interface (src/tui/app/remote.rs): a list of
    builds fetched on demand and a cursor over it. `get_links` replaces the
    list but never updates `len`, so the length this panel's cursor wraps at
    stays 0 for good. The fetch itself is a parameter: its outcome. */
module LegacyRemote {
  import opened Types
  import opened Selection

  class RemoteWidget {
    const config: Config
    var checked: bool
    var available: seq<BlenderVersion>
    var len: nat
    var selected: nat

    /** The state every operation keeps: nothing ever sets `len` or `checked`,
        and the cursor cannot leave 0. */
    predicate Stale()
      reads this
    {
      len == 0 && !checked && selected == 0
    }

    /** `RemoteWidget::new(config)`: nothing fetched, cursor at 0. */
    constructor(config: Config)
      ensures Stale()
      ensures this.config == config
      ensures available == []
    {
      this.config := config;
      checked := false;
      len := 0;
      available := [];
      selected := 0;
    }

    /** `get_links` with the fetch's outcome as a parameter: a successful fetch
        replaces the list and touches nothing else; a failed one is only
        logged. */
    method GetLinks(fetched: Result<seq<BlenderVersion>, string>)
      modifies this`available
      ensures fetched.Ok? ==> available == fetched.value
      ensures fetched.Err? ==> available == old(available)
      ensures old(Stale()) ==> Stale()
    {
      match fetched
      case Ok(versions) =>
        available := versions;
      case Err(_) =>
    }

    /** Move the cursor down one entry, wrapping to the top at `len`. */
    method IncrementActiveSelection()
      modifies this`selected
      ensures selected == Next(old(selected), len)
      ensures len > 0 ==> selected < len
      ensures len == 0 ==> selected == 0
      ensures old(Stale()) ==> Stale()
    {
      selected := selected + 1;
      if selected >= len {
        selected := 0;
      }
    }

    /** Move the cursor up one entry, wrapping to the bottom from the top; at
        index 0 of an empty list `len - 1` underflows and the call panics,
        leaving the cursor as it was. In the stale state this always panics. */
    method DecrementActiveSelection() returns (panicked: bool)
      modifies this`selected
      ensures panicked <==> old(selected) == 0 && len == 0
      ensures panicked ==> selected == old(selected)
      ensures !panicked ==> Some(selected) == PrevUnguarded(old(selected), len)
      ensures old(Stale()) ==> panicked && Stale()
    {
      panicked := false;
      if selected == 0 {
        if len == 0 {
          panicked := true;
          return;
        }
        selected := len - 1;
      } else {
        selected := selected - 1;
      }
    }
  }
}
