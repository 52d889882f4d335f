/** The earlier terminal application (src/tui/app/mod.rs): no focus; Up and
    Down always move the local panel's cursor (Up increments, Down
    decrements); Enter always fetches the list of builds. Its local panel is
    the one built from a list handed in (src/tui/app/file_list_widget.rs), its
    remote panel the one with `set_available` and `set_message`
    (src/tui/app/widgets/remote.rs). */
module LegacyApp {
  import opened Types
  import opened Selection
  import opened RemotePanel
  import LegacyFileListWidget

  /** What the fetch task reports back. */
  datatype Message = GetLinksResult(links: seq<BlenderVersion>) | Error(err: string)

  const Loading := "loading..."
  const Checking := "checking available versions..."

  datatype LegacyView = LegacyView(
    done: bool,
    files: seq<BlenderVersion>,
    fileLen: nat,
    fileSelected: nat,
    remote: RemoteView,
    tasks: seq<Task>)

  datatype Outcome = Outcome(view: LegacyView, panicked: bool)

  predicate ViewValid(v: LegacyView)
  {
    v.fileLen == |v.files| && v.remote.len == |v.remote.available|
  }

  /** The state `TuiApp::new(config, downloaded)` starts in. */
  function Init(downloaded: seq<BlenderVersion>): (v: LegacyView)
    ensures ViewValid(v)
    ensures !v.done && v.files == downloaded && v.fileSelected == 0 && v.tasks == []
  {
    LegacyView(false, downloaded, |downloaded|, 0, Fresh, [])
  }

  /** `handle_messages`: a fetched list is installed in the remote panel; an
      error becomes its status line. */
  function Receive(v: LegacyView, m: Message): (r: LegacyView)
    ensures r.(remote := v.remote) == v
    ensures r.remote.selected == v.remote.selected
    ensures ViewValid(v) ==> ViewValid(r)
    ensures m.Error? ==> r.remote == v.remote.(message := m.err)
    ensures m.GetLinksResult? ==>
      && r.remote.available == m.links && r.remote.len == |m.links|
      && r.remote.selectMode && r.remote.checked && r.remote.message == Ready
  {
    match m
    case GetLinksResult(links) =>
      v.(remote := v.remote.(len := |links|, selectMode := true, checked := true, available := links, message := Ready))
    case Error(err) => v.(remote := v.remote.(message := err))
  }

  /** `handle_events`: only key presses act. Up increments and Down decrements
      the local panel's cursor (the decrement underflows on an empty list at
      0); 'q' quits; Enter sets the status line and launches one fetch. */
  function Step(v: LegacyView, e: Event, config: Config): (r: Outcome)
    ensures !(e.Key? && e.kind == Press) ==> r == Outcome(v, false)
    ensures r.panicked ==> r.view == v
    ensures r.view.done <==> v.done || e == Key(Press, Char('q'))
    ensures r.view.files == v.files && r.view.fileLen == v.fileLen
    ensures r.view.remote.selected == v.remote.selected && r.view.remote.available == v.remote.available
    ensures v.tasks <= r.view.tasks && |r.view.tasks| <= |v.tasks| + 1
    ensures ViewValid(v) ==> ViewValid(r.view)
  {
    if !(e.Key? && e.kind == Press) then Outcome(v, false)
    else match e.code
      case Up => Outcome(v.(fileSelected := Next(v.fileSelected, v.fileLen)), false)
      case Down =>
        (match PrevUnguarded(v.fileSelected, v.fileLen)
         case None => Outcome(v, true)
         case Some(s) => Outcome(v.(fileSelected := s), false))
      case Char(c) => if c == 'q' then Outcome(v.(done := true), false) else Outcome(v, false)
      case Enter =>
        Outcome(v.(remote := v.remote.(message := Checking), tasks := v.tasks + [FetchLinks(config)]), false)
      case Left => Outcome(v, false)
      case Right => Outcome(v, false)
      case OtherKey => Outcome(v, false)
  }

  class TuiApp {
    var done: bool
    const config: Config
    const text: string
    const fileWidget: LegacyFileListWidget.FileListWidget
    const remoteWidget: RemoteWidget
    ghost var tasks: seq<Task>

    ghost function View(): LegacyView
      reads this, fileWidget, remoteWidget
    {
      LegacyView(done, fileWidget.files, fileWidget.len, fileWidget.selected, remoteWidget.View(), tasks)
    }

    /** `TuiApp::new(config, downloaded)`: not done, a status text of
        "loading...", the local panel over `downloaded`, a fresh remote panel.
        (The remote panel `new` builds here takes the configuration; the one
        modelled keeps it in the shared state instead.) */
    constructor(config: Config, downloaded: seq<BlenderVersion>)
      ensures fresh(fileWidget) && fresh(remoteWidget)
      ensures this.config == config && text == Loading
      ensures View() == Init(downloaded)
    {
      this.config := config;
      var files := new LegacyFileListWidget.FileListWidget(downloaded);
      var remote := new RemoteWidget();
      done := false;
      text := Loading;
      fileWidget := files;
      remoteWidget := remote;
      tasks := [];
    }

    /** `handle_messages`: only the remote panel changes, as `Receive` says. */
    method HandleMessages(m: Message)
      modifies remoteWidget
      ensures View() == Receive(old(View()), m)
    {
      match m
      case GetLinksResult(links) => remoteWidget.SetAvailable(links);
      case Error(err) => remoteWidget.SetMessage(err);
    }

    /** `handle_events`: the new state and the panic flag are those `Step`
        gives. */
    method HandleEvents(e: Event) returns (panicked: bool)
      modifies this, fileWidget, remoteWidget
      ensures Outcome(View(), panicked) == Step(old(View()), e, config)
    {
      panicked := false;
      if !(e.Key? && e.kind == Press) {
        return;
      }
      match e.code {
        case Up =>
          fileWidget.IncrementActiveSelection();
        case Down =>
          panicked := fileWidget.DecrementActiveSelection();
        case Left =>
        case Right =>
        case Char(c) =>
          if c == 'q' {
            done := true;
          }
        case Enter =>
          remoteWidget.SetMessage(Checking);
          tasks := tasks + [FetchLinks(config)];
        case OtherKey =>
      }
    }
  }

  /** Left, Right and a space change nothing; 'q' sets only the quit flag. */
  lemma NoFocusKeys(v: LegacyView, config: Config)
    ensures Step(v, Key(Press, Left), config) == Outcome(v, false)
    ensures Step(v, Key(Press, Right), config) == Outcome(v, false)
    ensures Step(v, Key(Press, Char(' ')), config) == Outcome(v, false)
    ensures Step(v, Key(Press, Char('q')), config) == Outcome(v.(done := true), false)
  {
  }

  /** Up and Down move only the local panel's cursor: Up is the increment and
      Down the decrement, the reverse of the current application. */
  lemma UpDownReversed(v: LegacyView, config: Config)
    ensures Step(v, Key(Press, Up), config) == Outcome(v.(fileSelected := Next(v.fileSelected, v.fileLen)), false)
    ensures var r := Step(v, Key(Press, Down), config);
      (r.panicked <==> v.fileSelected == 0 && v.fileLen == 0)
      && (!r.panicked ==> r.view == v.(fileSelected := PrevUnguarded(v.fileSelected, v.fileLen).value))
  {
  }

  /** Enter always launches exactly one fetch, whatever the remote panel's
      state: even after a list has arrived it fetches again. */
  lemma EnterAlwaysFetches(v: LegacyView, links: seq<BlenderVersion>, config: Config)
    ensures Step(v, Key(Press, Enter), config).view.tasks == v.tasks + [FetchLinks(config)]
    ensures Step(v, Key(Press, Enter), config).view.remote.message == Checking
    ensures var w := Receive(v, GetLinksResult(links));
      Step(w, Key(Press, Enter), config).view.tasks == v.tasks + [FetchLinks(config)]
  {
  }
}
