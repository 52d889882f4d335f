/** The current terminal application (src/tui/app.rs): the key and message
    dispatcher over the local panel, the remote panel, the focus and the quit
    flag. A background task the handlers spawn is recorded in the ghost log
    `tasks`; a message a task sends back is a call of `HandleMessages`. */
module App {
  import opened Types
  import opened Selection
  import opened FilesUtils
  import opened RemotePanel
  import FilesPanel

  datatype ActiveWidget = FileListWidget | RemoteWidget

  /** What a background task reports back. */
  datatype Message =
    | GetLinksResult(links: seq<BlenderVersion>)
    | GetVersionUpdate(update: string)
    | GetVersionResult
    | Error(err: string)

  const Loading := "loading..."
  const Checking := "checking available versions..."
  const Downloaded := "downloaded"

  /** The application's state as a value: quit flag, focus, the local panel's
      list and cursor, the remote panel, and the tasks launched so far. */
  datatype AppView = AppView(
    done: bool,
    active: ActiveWidget,
    files: seq<BlenderVersion>,
    fileLen: nat,
    fileSelected: nat,
    remote: RemoteView,
    tasks: seq<Task>)

  /** A key handler's outcome: the new state, and whether it panicked (an
      `unwrap` on a missing entry, or the underflow of `len - 1`). */
  datatype Outcome = Outcome(view: AppView, panicked: bool)

  /** Each panel's length is the length of its list. */
  predicate ViewValid(v: AppView)
  {
    v.fileLen == |v.files| && v.remote.len == |v.remote.available|
  }

  /** The state `TuiApp::new` starts in, for a download directory whose scan
      found `scanned`. */
  function Init(scanned: seq<Path>): (v: AppView)
    ensures ViewValid(v)
    ensures !v.done && v.active == FileListWidget && v.fileSelected == 0 && v.tasks == []
  {
    var files := ParseDownloaded(scanned);
    AppView(false, FileListWidget, files, |files|, 0, Fresh, [])
  }

  /** `handle_messages`: a fetched list is installed in the remote panel; an
      error or a progress report becomes its status line; the end of a
      download says "downloaded". */
  function Receive(v: AppView, m: Message): (r: AppView)
    ensures r.(remote := v.remote) == v
    ensures r.remote.selected == v.remote.selected
    ensures ViewValid(v) ==> ViewValid(r)
    ensures m.Error? ==> r.remote == v.remote.(message := m.err)
    ensures m.GetVersionUpdate? ==> r.remote == v.remote.(message := m.update)
    ensures m.GetVersionResult? ==> r.remote == v.remote.(message := Downloaded)
    ensures m.GetLinksResult? ==>
      && r.remote.available == m.links && r.remote.len == |m.links|
      && r.remote.selectMode && r.remote.checked && r.remote.message == Ready
  {
    match m
    case GetLinksResult(links) =>
      v.(remote := v.remote.(len := |links|, selectMode := true, checked := true, available := links, message := Ready))
    case Error(err) => v.(remote := v.remote.(message := err))
    case GetVersionUpdate(s) => v.(remote := v.remote.(message := s))
    case GetVersionResult => v.(remote := v.remote.(message := Downloaded))
  }

  /** `handle_events`: what one terminal event does to the state. Only key
      presses act; Up and Down move the cursor of the focused panel (the local
      panel's decrement is the unguarded one); Left and Right move the focus;
      'q' quits; Enter on the remote panel either downloads the build under
      the cursor or fetches the list of builds. */
  function Step(v: AppView, e: Event, config: Config): (r: Outcome)
    ensures !(e.Key? && e.kind == Press) ==> r == Outcome(v, false)
    ensures r.panicked ==> r.view == v
    ensures r.view.done <==> v.done || e == Key(Press, Char('q'))
    ensures r.view.files == v.files && r.view.fileLen == v.fileLen
    ensures r.view.remote.available == v.remote.available && r.view.remote.len == v.remote.len
    ensures r.view.remote.selectMode == v.remote.selectMode && r.view.remote.checked == v.remote.checked
    ensures v.tasks <= r.view.tasks && |r.view.tasks| <= |v.tasks| + 1
    ensures ViewValid(v) ==> ViewValid(r.view)
  {
    if !(e.Key? && e.kind == Press) then Outcome(v, false)
    else match e.code
      case Up =>
        (match v.active
         case FileListWidget =>
           (match PrevUnguarded(v.fileSelected, v.fileLen)
            case None => Outcome(v, true)
            case Some(s) => Outcome(v.(fileSelected := s), false))
         case RemoteWidget =>
           Outcome(v.(remote := v.remote.(selected := PrevGuarded(v.remote.selected, v.remote.len))), false))
      case Down =>
        (match v.active
         case FileListWidget => Outcome(v.(fileSelected := Next(v.fileSelected, v.fileLen)), false)
         case RemoteWidget =>
           Outcome(v.(remote := v.remote.(selected := Next(v.remote.selected, v.remote.len))), false))
      case Left => Outcome(v.(active := FileListWidget), false)
      case Right => Outcome(v.(active := RemoteWidget), false)
      case Char(c) => if c == 'q' then Outcome(v.(done := true), false) else Outcome(v, false)
      case Enter =>
        (match v.active
         case FileListWidget => Outcome(v, false)
         case RemoteWidget =>
           if v.remote.selectMode then
             if v.remote.selected < |v.remote.available| then
               var build := v.remote.available[v.remote.selected];
               Outcome(v.(remote := v.remote.(message := Downloading + build.link),
                          tasks := v.tasks + [Download(build, config)]), false)
             else
               Outcome(v, true)
           else
             Outcome(v.(remote := v.remote.(message := Checking), tasks := v.tasks + [FetchLinks(config)]), false))
      case OtherKey => Outcome(v, false)
  }

  class TuiApp {
    var done: bool
    const config: Config
    var activeWidget: ActiveWidget
    const text: string
    const fileWidget: FilesPanel.FileListWidget
    const remoteWidget: RemoteWidget
    ghost var tasks: seq<Task>

    ghost function View(): AppView
      reads this, fileWidget, remoteWidget
    {
      AppView(done, activeWidget, fileWidget.files, fileWidget.len, fileWidget.selected,
              remoteWidget.View(), tasks)
    }

    ghost predicate Valid()
      reads this, fileWidget, remoteWidget
    {
      fileWidget.Valid() && remoteWidget.Valid()
    }

    /** `TuiApp::new`: not done, the local panel focused, a status text of
        "loading...", a fresh remote panel and a local panel filled from the
        scan of the configured directory. */
    constructor(config: Config, scanned: seq<Path>)
      ensures Valid()
      ensures fresh(fileWidget) && fresh(remoteWidget)
      ensures this.config == config && text == Loading
      ensures View() == Init(scanned)
    {
      this.config := config;
      var files := new FilesPanel.FileListWidget(scanned);
      var remote := new RemoteWidget();
      done := false;
      text := Loading;
      activeWidget := FileListWidget;
      fileWidget := files;
      remoteWidget := remote;
      tasks := [];
    }

    /** `handle_messages`: only the remote panel changes, as `Receive` says. */
    method HandleMessages(m: Message)
      requires Valid()
      modifies remoteWidget
      ensures Valid()
      ensures View() == Receive(old(View()), m)
    {
      match m
      case GetLinksResult(links) => remoteWidget.SetAvailable(links);
      case Error(err) => remoteWidget.SetMessage(err);
      case GetVersionUpdate(s) => remoteWidget.SetMessage(s);
      case GetVersionResult => remoteWidget.SetMessage(Downloaded);
    }

    /** `handle_events`: the new state and the panic flag are those `Step`
        gives. */
    method HandleEvents(e: Event) returns (panicked: bool)
      requires Valid()
      modifies this, fileWidget, remoteWidget
      ensures Valid()
      ensures Outcome(View(), panicked) == Step(old(View()), e, config)
    {
      panicked := false;
      if !(e.Key? && e.kind == Press) {
        return;
      }
      match e.code {
        case Up =>
          match activeWidget {
            case FileListWidget =>
              panicked := fileWidget.DecrementActiveSelection();
            case RemoteWidget =>
              remoteWidget.DecrementActiveSelection();
          }
        case Down =>
          match activeWidget {
            case FileListWidget =>
              fileWidget.IncrementActiveSelection();
            case RemoteWidget =>
              remoteWidget.IncrementActiveSelection();
          }
        case Left =>
          activeWidget := FileListWidget;
        case Right =>
          activeWidget := RemoteWidget;
        case Char(c) =>
          if c == 'q' {
            done := true;
          }
        case Enter =>
          match activeWidget {
            case FileListWidget =>
            case RemoteWidget =>
              if remoteWidget.selectMode {
                var version := remoteWidget.DownloadSelected();
                match version {
                  case None =>
                    panicked := true;
                  case Some(build) =>
                    tasks := tasks + [Download(build, config)];
                }
              } else {
                remoteWidget.SetMessage(Checking);
                tasks := tasks + [FetchLinks(config)];
              }
          }
        case OtherKey =>
      }
    }
  }

  /** Left focuses the local panel and Right the remote one; 'q' sets the quit
      flag; a space changes nothing. Each changes only that. */
  lemma FocusAndQuit(v: AppView, config: Config)
    ensures Step(v, Key(Press, Left), config) == Outcome(v.(active := FileListWidget), false)
    ensures Step(v, Key(Press, Right), config) == Outcome(v.(active := RemoteWidget), false)
    ensures Step(v, Key(Press, Char('q')), config) == Outcome(v.(done := true), false)
    ensures Step(v, Key(Press, Char(' ')), config) == Outcome(v, false)
  {
  }

  /** Up and Down act on the focused panel only, and keep an in-range cursor
      in range; Up on an empty local panel at index 0 is the one panic. Down is
      the increment; Up is the unguarded decrement on the local panel and the
      guarded one on the remote panel. */
  lemma UpDownFocused(v: AppView, config: Config)
    ensures v.active == FileListWidget ==>
      && Step(v, Key(Press, Down), config).view == v.(fileSelected := Next(v.fileSelected, v.fileLen))
      && (PrevUnguarded(v.fileSelected, v.fileLen).Some? ==>
            Step(v, Key(Press, Up), config).view == v.(fileSelected := PrevUnguarded(v.fileSelected, v.fileLen).value))
    ensures v.active == RemoteWidget ==>
      && Step(v, Key(Press, Down), config).view == v.(remote := v.remote.(selected := Next(v.remote.selected, v.remote.len)))
      && Step(v, Key(Press, Up), config).view == v.(remote := v.remote.(selected := PrevGuarded(v.remote.selected, v.remote.len)))
    ensures var r := Step(v, Key(Press, Down), config);
      !r.panicked && r.view.tasks == v.tasks && r.view.active == v.active
    ensures var r := Step(v, Key(Press, Up), config);
      r.view.tasks == v.tasks && r.view.active == v.active
      && (r.panicked <==> v.active == FileListWidget && v.fileSelected == 0 && v.fileLen == 0)
    ensures v.active == FileListWidget ==>
      var down, up := Step(v, Key(Press, Down), config), Step(v, Key(Press, Up), config);
      down.view.remote == v.remote && up.view.remote == v.remote
      && (v.fileSelected < v.fileLen ==> down.view.fileSelected < v.fileLen && up.view.fileSelected < v.fileLen)
    ensures v.active == RemoteWidget ==>
      var down, up := Step(v, Key(Press, Down), config), Step(v, Key(Press, Up), config);
      down.view.fileSelected == v.fileSelected && up.view.fileSelected == v.fileSelected
      && (v.remote.selected < v.remote.len ==>
            down.view.remote.selected < v.remote.len && up.view.remote.selected < v.remote.len)
  {
  }

  /** Down then Up on the focused panel brings its cursor back, when the list
      is non-empty and the cursor in range. */
  lemma {:induction false} DownThenUp(v: AppView, config: Config)
    requires v.active == FileListWidget ==> v.fileSelected < v.fileLen
    requires v.active == RemoteWidget ==> v.remote.selected < v.remote.len
    ensures var d := Step(v, Key(Press, Down), config);
      Step(d.view, Key(Press, Up), config) == Outcome(v, false)
  {
    match v.active
    case FileListWidget => NextPrevInverse(v.fileSelected, v.fileLen);
    case RemoteWidget => NextPrevInverse(v.remote.selected, v.remote.len);
  }

  /** Enter does nothing on the local panel. On the remote panel in selection
      mode it launches exactly one download, of the build under the cursor,
      and panics when the cursor is past the end; otherwise it launches
      exactly one fetch of the list. */
  lemma EnterLaunches(v: AppView, config: Config)
    ensures v.active == FileListWidget ==> Step(v, Key(Press, Enter), config) == Outcome(v, false)
    ensures v.active == RemoteWidget && v.remote.selectMode && v.remote.selected < |v.remote.available| ==>
      var build := v.remote.available[v.remote.selected];
      var r := Step(v, Key(Press, Enter), config);
      !r.panicked && r.view.tasks == v.tasks + [Download(build, config)]
      && r.view.remote.message == Downloading + build.link
    ensures v.active == RemoteWidget && v.remote.selectMode && v.remote.selected >= |v.remote.available| ==>
      Step(v, Key(Press, Enter), config).panicked
    ensures v.active == RemoteWidget && !v.remote.selectMode ==>
      var r := Step(v, Key(Press, Enter), config);
      !r.panicked && r.view.tasks == v.tasks + [FetchLinks(config)] && r.view.remote.message == Checking
  {
  }

  /** Once a fetched list has arrived, Enter on the remote panel no longer
      fetches: it downloads the entry under the cursor, if the cursor lies
      within the new list. */
  lemma {:induction false} FetchThenDownload(v: AppView, links: seq<BlenderVersion>, config: Config)
    requires v.active == RemoteWidget
    ensures var w := Receive(v, GetLinksResult(links));
      var r := Step(w, Key(Press, Enter), config);
      (v.remote.selected < |links| ==> !r.panicked && r.view.tasks == v.tasks + [Download(links[v.remote.selected], config)])
      && (v.remote.selected >= |links| ==> r.panicked)
  {
    var w := Receive(v, GetLinksResult(links));
    assert w.remote.selectMode && w.remote.available == links && w.active == RemoteWidget;
    assert w.remote.selected == v.remote.selected && w.tasks == v.tasks;
    EnterLaunches(w, config);
  }
}
