/** The remote panel of the current interface (src/tui/app/widgets/remote.rs):
    the list of builds offered for download, a cursor over it, the flags that
    say whether the list was fetched, and a status line. Also the pure part of
    `get_file`: where a downloaded archive is written. */
module RemotePanel {
  import opened Types
  import opened Selection

  const Initial := "press enter to check available versions"
  const Ready := "ready"
  const Downloading := "downloading "

  /** The panel's state as a value. */
  datatype RemoteView = RemoteView(
    checked: bool,
    selectMode: bool,
    available: seq<BlenderVersion>,
    len: nat,
    selected: nat,
    message: string)

  /** The state `RemoteWidget::new` starts in. */
  const Fresh := RemoteView(false, false, [], 0, 0, Initial)

  class RemoteWidget {
    var checked: bool
    var selectMode: bool
    var available: seq<BlenderVersion>
    var len: nat
    var selected: nat
    var message: string

    /** `len` is the length of the offered list: every operation that replaces
        the list also sets its length. */
    predicate Valid()
      reads this
    {
      len == |available|
    }

    function View(): RemoteView
      reads this
    {
      RemoteView(checked, selectMode, available, len, selected, message)
    }

    /** `RemoteWidget::new`: nothing fetched yet, cursor at 0, the invitation
        to press Enter. */
    constructor()
      ensures Valid()
      ensures !checked && !selectMode
      ensures available == [] && len == 0 && selected == 0
      ensures message == Initial
      ensures View() == Fresh
    {
      checked := false;
      selectMode := false;
      len := 0;
      available := [];
      selected := 0;
      message := Initial;
    }

    /** Move the cursor down one entry, wrapping to the top after the last. */
    method IncrementActiveSelection()
      modifies this`selected
      ensures selected == Next(old(selected), len)
      ensures len > 0 ==> selected < len
      ensures len == 0 ==> selected == 0
    {
      selected := selected + 1;
      if selected >= len {
        selected := 0;
      }
    }

    /** Move the cursor up one entry, wrapping to the bottom from the top; an
        empty list leaves the cursor alone. */
    method DecrementActiveSelection()
      modifies this`selected
      ensures selected == PrevGuarded(old(selected), len)
      ensures len == 0 ==> selected == old(selected)
      ensures old(selected) < len ==> selected < len
      ensures 0 < old(selected) && len > 0 ==> selected == old(selected) - 1
      ensures old(selected) == 0 && len > 0 ==> selected == len - 1
    {
      if len == 0 {
        return;
      }
      if selected == 0 {
        selected := len - 1;
      } else {
        selected := selected - 1;
      }
    }

    /** Install a fetched list: the panel switches to selection mode and says
        it is ready. The cursor is kept as it was, so it may lie past the end
        of a shorter list. */
    method SetAvailable(links: seq<BlenderVersion>)
      modifies this
      ensures Valid()
      ensures available == links && len == |links|
      ensures selectMode && checked
      ensures message == Ready
      ensures selected == old(selected)
    {
      len := |links|;
      selectMode := true;
      checked := true;
      available := links;
      SetMessage(Ready);
    }

    /** Replace the status line, and nothing else. */
    method SetMessage(m: string)
      modifies this`message
      ensures message == m
    {
      message := m;
    }

    /** The build under the cursor, announced in the status line. When the
        cursor is past the end of the list, the `unwrap` panics before the
        status line is touched: the result is `None` and nothing changes. */
    method DownloadSelected() returns (r: Option<BlenderVersion>)
      modifies this`message
      ensures selected < |available| ==> r == Some(available[selected])
      ensures selected < |available| ==> message == Downloading + available[selected].link
      ensures selected >= |available| ==> r.None? && message == old(message)
    {
      if selected < |available| {
        var version := available[selected];
        SetMessage(Downloading + version.link);
        r := Some(version);
      } else {
        r := None;
      }
    }
  }

  const Daily := "daily/"

  /** `pat` occurs in `s` starting at index `i`. */
  predicate OccursAt(s: string, pat: string, i: nat)
  {
    i + |pat| <= |s| && s[i..i + |pat|] == pat
  }

  /** The first occurrence of `pat` in `s` at or after `from`. */
  function FindFrom(s: string, pat: string, from: nat): (r: Option<nat>)
    requires from <= |s|
    ensures r.Some? ==> from <= r.value && OccursAt(s, pat, r.value)
    ensures r.Some? ==> forall k: nat :: from <= k < r.value ==> !OccursAt(s, pat, k)
    ensures r.None? ==> forall k: nat :: from <= k <= |s| ==> !OccursAt(s, pat, k)
    decreases |s| - from
  {
    if OccursAt(s, pat, from) then Some(from)
    else if from == |s| then None
    else FindFrom(s, pat, from + 1)
  }

  /** `name` is the second piece of `link` split on "daily/": the first
      occurrence is at `i`, and `name` runs from the end of it to the next
      occurrence or to the end of the link. */
  predicate SecondPiece(link: string, i: nat, name: string)
  {
    var st := i + |Daily|;
    st + |name| <= |link|
    && OccursAt(link, Daily, i)
    && (forall k: nat :: k < i ==> !OccursAt(link, Daily, k))
    && link[st..st + |name|] == name
    && (forall k: nat :: st <= k < st + |name| ==> !OccursAt(link, Daily, k))
    && (st + |name| == |link| || OccursAt(link, Daily, st + |name|))
  }

  /** `link.split("daily/").nth(1)`: `None` (the `unwrap` panics) exactly when
      the link has no "daily/". */
  function FileName(link: string): (r: Option<string>)
    ensures r.None? <==> forall k: nat :: k <= |link| ==> !OccursAt(link, Daily, k)
    ensures r.Some? ==> exists i: nat :: SecondPiece(link, i, r.value)
  {
    match FindFrom(link, Daily, 0)
    case None => None
    case Some(i) =>
      var st := i + |Daily|;
      match FindFrom(link, Daily, st)
      case Some(j) =>
        assert SecondPiece(link, i, link[st..j]);
        Some(link[st..j])
      case None =>
        assert SecondPiece(link, i, link[st..]);
        Some(link[st..])
  }

  /** A link made of a prefix, the first "daily/" and a name free of "daily/"
      yields that name. */
  lemma FileNameOfLink(prefix: string, name: string)
    requires forall k: nat :: k < |prefix| ==> !OccursAt(prefix + Daily, Daily, k)
    requires forall k: nat :: k <= |name| ==> !OccursAt(name, Daily, k)
    ensures FileName(prefix + Daily + name) == Some(name)
  {
    var link := prefix + Daily + name;
    var st := |prefix| + |Daily|;
    assert OccursAt(link, Daily, |prefix|) by {
      assert link[|prefix|..st] == Daily;
    }
    forall k: nat | k < |prefix| ensures !OccursAt(link, Daily, k) {
      var pd := prefix + Daily;
      assert link == pd + name;
      assert !OccursAt(pd, Daily, k);
      assert k + |Daily| <= |pd|;
      assert link[k..k + |Daily|] == pd[k..k + |Daily|];
    }
    forall k: nat | |prefix| < k < st ensures !OccursAt(link, Daily, k) {
      assert link[k] == Daily[k - |prefix|];
    }
    forall k: nat | st <= k <= |link| ensures !OccursAt(link, Daily, k) {
      if OccursAt(link, Daily, k) {
        assert link[k..k + |Daily|] == name[k - st..k - st + |Daily|];
        assert OccursAt(name, Daily, k - st);
      }
    }
    assert FindFrom(link, Daily, 0) == Some(|prefix|);
    assert FindFrom(link, Daily, st) == None;
    assert link[st..] == name;
  }

  /** `PathBuf::push` on Unix: an absolute name replaces the path; otherwise
      the name is appended, with a '/' in between unless the path is empty or
      already ends with one. */
  function PushPath(base: string, name: string): (r: string)
    ensures |name| > 0 && name[0] == '/' ==> r == name
    ensures !(|name| > 0 && name[0] == '/') ==> |base| + |name| <= |r| <= |base| + |name| + 1
    ensures !(|name| > 0 && name[0] == '/') ==> base <= r && r[|r| - |name|..] == name
    ensures |r| == |base| + |name| + 1 ==> base != [] && base[|base| - 1] != '/' && r[|base|] == '/'
    ensures !(|name| > 0 && name[0] == '/') && base != [] && base[|base| - 1] != '/' ==> r == base + "/" + name
    ensures !(|name| > 0 && name[0] == '/') && (base == [] || base[|base| - 1] == '/') ==> r == base + name
  {
    if |name| > 0 && name[0] == '/' then name
    else if base == [] || base[|base| - 1] == '/' then base + name
    else base + "/" + name
  }

  /** The pure part of `get_file`: the archive goes to the configured download
      directory under the link's name after "daily/"; `None` where the
      `unwrap` of the name panics. */
  function GetFile(version: BlenderVersion, config: Config): (r: Option<string>)
    ensures r.None? <==> FileName(version.link).None?
    ensures r.Some? ==> r.value == PushPath(config.path, FileName(version.link).value)
  {
    match FileName(version.link)
    case None => None
    case Some(name) => Some(PushPath(config.path, name))
  }

  /** The file for a link `prefix + "daily/" + name` is `name` pushed onto the
      configured download directory. */
  lemma GetFileOfLink(version: BlenderVersion, config: Config, prefix: string, name: string)
    requires version.link == prefix + Daily + name
    requires forall k: nat :: k < |prefix| ==> !OccursAt(prefix + Daily, Daily, k)
    requires forall k: nat :: k <= |name| ==> !OccursAt(name, Daily, k)
    ensures GetFile(version, config) == Some(PushPath(config.path, name))
  {
    FileNameOfLink(prefix, name);
  }
}
