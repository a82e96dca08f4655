/**
 * The dock's D-Bus proxy (panels/dock/dockdbusproxy.cpp): it turns a desktop file path into an
 * application id, forwards dock requests to the task manager applet, and keeps three handles on
 * sibling applets (the old tray dock, the clipboard item and the search item) that a one-second
 * timer looks up until all three are found. Through those handles it lists the dock's plugins and
 * routes "show this item on the dock" requests.
 *
 * The applet tree the plugin loader owns is passed in as `root`; each timer expiry is one call to
 * `Timeout` with the tree as it is at that moment. A call the proxy makes into another applet by
 * method name is a function parameter, whose `None` stands for an invocation that found no
 * matching slot.
 */
module DockProxy {
  import opened Wrappers
  import opened Strings
  import opened AppletTree

  const TaskManagerId := "org.deepin.ds.dock.taskmanager"
  const TrayId := "org.deepin.ds.dock.tray"
  const ClipboardId := "org.deepin.ds.dock.clipboarditem"
  const SearchId := "org.deepin.ds.dock.searchitem"

  const DesktopLeft := "/applications/"
  const DesktopSuffix := ".desktop"

  // ----------------------------------------------------------------------------------------
  // getAppID
  // ----------------------------------------------------------------------------------------

  /**
   * `getAppID`: the text between the last "/applications/" and the last ".desktop" of the path.
   * Neither marker is checked for: a missing one feeds -1 into the arithmetic, and `mid` clamps.
   */
  function GetAppID(desktopFile: string): (id: string)
    ensures var l, r := LastIndexOf(desktopFile, DesktopLeft), LastIndexOf(desktopFile, DesktopSuffix);
      0 <= l && l + |DesktopLeft| <= r ==>
        desktopFile == desktopFile[..l] + DesktopLeft + id + desktopFile[r..]
    ensures |id| <= |desktopFile|
  {
    var l := LastIndexOf(desktopFile, DesktopLeft);
    var r := LastIndexOf(desktopFile, DesktopSuffix);
    var start := l + |DesktopLeft|;
    var id := Mid(desktopFile, start, r - start);
    if 0 <= l && start <= r then
      assert desktopFile[l..start] == DesktopLeft;
      assert desktopFile == desktopFile[..l] + desktopFile[l..start] + desktopFile[start..r] + desktopFile[r..];
      id
    else id
  }

  /**
   * For a desktop file `<dir>/applications/<name>.desktop` whose name holds no '/', the id is
   * the name, whatever the directory holds.
   */
  lemma AppIdOfDesktopPath(dir: string, name: string)
    requires '/' !in name
    ensures GetAppID(dir + DesktopLeft + name + DesktopSuffix) == name
  {
    var s := dir + DesktopLeft + name + DesktopSuffix;
    var l := |dir|;
    var r := |s| - |DesktopSuffix|;
    assert s[l..l + |DesktopLeft|] == DesktopLeft;
    assert OccursAt(s, DesktopLeft, l);
    assert forall j :: l + |DesktopLeft| <= j < |s| ==> s[j] != '/' by {
      forall j | l + |DesktopLeft| <= j < |s|
        ensures s[j] != '/'
      {
        if j < r {
          assert s[j] == name[j - l - |DesktopLeft|];
        } else {
          assert s[j] == DesktopSuffix[j - r];
        }
      }
    }
    forall k | l < k
      ensures !OccursAt(s, DesktopLeft, k)
    {
      if k + |DesktopLeft| <= |s| {
        assert s[k..k + |DesktopLeft|][13] == s[k + 13] != DesktopLeft[13];
      }
    }
    assert LastIndexOf(s, DesktopLeft) == l;
    assert s[r..r + |DesktopSuffix|] == DesktopSuffix;
    assert OccursAt(s, DesktopSuffix, r);
    assert LastIndexOf(s, DesktopSuffix) == r;
    assert s[l + |DesktopLeft|..r] == name;
  }

  /** The example of the desktop-file naming convention. */
  lemma AppIdExample()
    ensures GetAppID("/usr/share/applications/foo.desktop") == "foo"
  {
    assert "/usr/share/applications/foo.desktop" == "/usr/share" + DesktopLeft + "foo" + DesktopSuffix;
    AppIdOfDesktopPath("/usr/share", "foo");
  }

  /**
   * Without "/applications/" the start index is -1 + 14 = 13: the id is whatever lies between
   * index 13 and the last ".desktop".
   */
  lemma AppIdWithoutDirectoryMarker(desktopFile: string)
    requires LastIndexOf(desktopFile, DesktopLeft) == -1
    requires LastIndexOf(desktopFile, DesktopSuffix) >= 13
    ensures GetAppID(desktopFile) == desktopFile[13..LastIndexOf(desktopFile, DesktopSuffix)]
  {
  }

  /** Without ".desktop" the count is negative, and the id runs to the end of the path. */
  lemma AppIdWithoutSuffix(desktopFile: string)
    requires LastIndexOf(desktopFile, DesktopLeft) >= 0
    requires LastIndexOf(desktopFile, DesktopSuffix) == -1
    ensures GetAppID(desktopFile) == desktopFile[LastIndexOf(desktopFile, DesktopLeft) + |DesktopLeft|..]
  {
  }

  /**
   * With both markers present but the last ".desktop" starting before the last "/applications/"
   * ends, the count is negative and the id runs to the end of the path: "/x.desktop/applications/foo"
   * gives "foo".
   */
  lemma AppIdSuffixBeforeDirectory(desktopFile: string)
    requires LastIndexOf(desktopFile, DesktopLeft) >= 0
    requires LastIndexOf(desktopFile, DesktopSuffix) < LastIndexOf(desktopFile, DesktopLeft) + |DesktopLeft|
    ensures GetAppID(desktopFile) == desktopFile[LastIndexOf(desktopFile, DesktopLeft) + |DesktopLeft|..]
  {
  }

  /** The boundary case above on a concrete path. */
  lemma AppIdSuffixBeforeDirectoryExample()
    ensures GetAppID("/x.desktop/applications/foo") == "foo"
  {
    var s := "/x.desktop/applications/foo";
    assert s[10..24] == DesktopLeft;
    assert OccursAt(s, DesktopLeft, 10);
    forall k | 10 < k
      ensures !OccursAt(s, DesktopLeft, k)
    {
      if k + |DesktopLeft| <= |s| {
        assert k <= 13;
        assert s[k..k + |DesktopLeft|][13] == s[k + 13] != DesktopLeft[13];
      }
    }
    assert LastIndexOf(s, DesktopLeft) == 10;
    AppIdSuffixBeforeDirectory(s);
    assert s[24..] == "foo";
  }

  /**
   * Without "/applications/" and with the last ".desktop" starting before index 13, the count is
   * negative: the id is everything from index 13 on, or "" for shorter paths.
   */
  lemma AppIdShortWithoutDirectoryMarker(desktopFile: string)
    requires LastIndexOf(desktopFile, DesktopLeft) == -1
    requires 0 <= LastIndexOf(desktopFile, DesktopSuffix) < 13
    ensures GetAppID(desktopFile) == if |desktopFile| < 13 then "" else desktopFile[13..]
  {
  }

  /** A bare file name: "foo.desktop" gives "" and "org.foo.desktop" gives "op". */
  lemma AppIdOfBareFileName()
    ensures GetAppID("foo.desktop") == ""
    ensures GetAppID("org.foo.desktop") == "op"
  {
    var s := "org.foo.desktop";
    forall k | -1 < k
      ensures !OccursAt(s, DesktopLeft, k)
    {
      if k + |DesktopLeft| <= |s| {
        assert s[k..k + |DesktopLeft|][0] == s[k] != DesktopLeft[0];
      }
    }
    assert LastIndexOf(s, DesktopLeft) == -1;
    assert s[7..15] == DesktopSuffix;
    assert OccursAt(s, DesktopSuffix, 7);
    AppIdShortWithoutDirectoryMarker(s);
    assert s[13..] == "op";
  }

  /** With neither marker, the id is everything from index 13 on (empty for shorter paths). */
  lemma AppIdWithoutMarkers(desktopFile: string)
    requires LastIndexOf(desktopFile, DesktopLeft) == -1
    requires LastIndexOf(desktopFile, DesktopSuffix) == -1
    ensures GetAppID(desktopFile) == if |desktopFile| < 13 then "" else desktopFile[13..]
  {
  }

  // ----------------------------------------------------------------------------------------
  // The handles and the lookup timer, as values
  // ----------------------------------------------------------------------------------------

  /** The three sibling applets the proxy holds on to; `None` is a null pointer. */
  datatype Handles = Handles(oldDock: Option<DApplet>, clipboard: Option<DApplet>, search: Option<DApplet>)

  /** The handles together with whether the lookup timer is still running. */
  datatype ProxyState = ProxyState(handles: Handles, timerActive: bool)

  /** State right after construction: nothing bound, timer started. */
  const Initial := ProxyState(Handles(None, None, None), true)

  /**
   * One lookup of one handle: rebound to the first applet `appletList` finds for `id`, left as it
   * was when the search finds nothing.
   */
  function Bind(h: Option<DApplet>, root: DApplet, id: string): (r: Option<DApplet>)
    requires root.Containment?
    ensures h.Some? ==> r.Some?
    ensures r.Some? <==> h.Some? || exists a :: a in Descendants(root) && a.pluginId == id
    ensures r != h ==> r.Some? && r.value.pluginId == id && r.value in Descendants(root)
  {
    var list := SearchFrom(root, id);
    ScanFindsDescendants(root, id);
    if list != [] then
      assert list[0] in list;
      Some(list[0])
    else h
  }

  /** `getOtherApplet`'s lookups, applied to all three handles. */
  function Poll(h: Handles, root: DApplet): (r: Handles)
    requires root.Containment?
    ensures Covers(r, h)
    ensures WellTyped(h) ==> WellTyped(r)
    ensures r.oldDock != h.oldDock ==> r.oldDock.Some? && r.oldDock.value in Descendants(root)
    ensures r.clipboard != h.clipboard ==> r.clipboard.Some? && r.clipboard.value in Descendants(root)
    ensures r.search != h.search ==> r.search.Some? && r.search.value in Descendants(root)
    ensures r.oldDock.Some? <==> h.oldDock.Some? || SearchFrom(root, TrayId) != []
    ensures r.clipboard.Some? <==> h.clipboard.Some? || SearchFrom(root, ClipboardId) != []
    ensures r.search.Some? <==> h.search.Some? || SearchFrom(root, SearchId) != []
  {
    Handles(Bind(h.oldDock, root, TrayId), Bind(h.clipboard, root, ClipboardId), Bind(h.search, root, SearchId))
  }

  /** `getOtherApplet`'s answer: all three handles are bound. */
  predicate AllBound(h: Handles)
  {
    h.oldDock.Some? && h.clipboard.Some? && h.search.Some?
  }

  /** Every bound handle points at an applet of the plugin it stands for. */
  predicate WellTyped(h: Handles)
  {
    (h.oldDock.Some? ==> h.oldDock.value.pluginId == TrayId)
    && (h.clipboard.Some? ==> h.clipboard.value.pluginId == ClipboardId)
    && (h.search.Some? ==> h.search.value.pluginId == SearchId)
  }

  /** `h2` has every handle `h1` has bound bound as well. */
  predicate Covers(h2: Handles, h1: Handles)
  {
    (h1.oldDock.Some? ==> h2.oldDock.Some?)
    && (h1.clipboard.Some? ==> h2.clipboard.Some?)
    && (h1.search.Some? ==> h2.search.Some?)
  }

  /** One timer expiry: a stopped timer does nothing; a running one polls and stops once all are bound. */
  function Tick(s: ProxyState, root: DApplet): (r: ProxyState)
    requires root.Containment?
    ensures !s.timerActive ==> r == s
    ensures Covers(r.handles, s.handles)
    ensures r.timerActive ==> s.timerActive && !AllBound(r.handles)
    ensures s.timerActive && AllBound(r.handles) ==> !r.timerActive
  {
    if !s.timerActive then s
    else
      var h := Poll(s.handles, root);
      ProxyState(h, !AllBound(h))
  }

  /** The proxy's invariant: bound handles are well typed, and the timer runs exactly while one is missing. */
  predicate Inv(s: ProxyState)
  {
    WellTyped(s.handles) && (s.timerActive <==> !AllBound(s.handles))
  }

  lemma InitialInv()
    ensures Inv(Initial) && !AllBound(Initial.handles)
  {
  }

  /** A poll never unbinds a handle, binds only to applets of the right plugin, and keeps the invariant. */
  lemma TickPreservesInv(s: ProxyState, root: DApplet)
    requires root.Containment? && Inv(s)
    ensures Inv(Tick(s, root))
    ensures Covers(Tick(s, root).handles, s.handles)
  {
  }

  /** A poll on a tree holding all three plugins binds all three handles, so the timer stops. */
  lemma TickStopsWhenAllPresent(s: ProxyState, root: DApplet)
    requires root.Containment? && Inv(s)
    requires SearchFrom(root, TrayId) != [] && SearchFrom(root, ClipboardId) != [] && SearchFrom(root, SearchId) != []
    ensures !Tick(s, root).timerActive && AllBound(Tick(s, root).handles)
  {
    if s.timerActive {
      ScanFindsDescendants(root, TrayId);
      ScanFindsDescendants(root, ClipboardId);
      ScanFindsDescendants(root, SearchId);
      assert SearchFrom(root, TrayId)[0] in SearchFrom(root, TrayId);
      assert SearchFrom(root, ClipboardId)[0] in SearchFrom(root, ClipboardId);
      assert SearchFrom(root, SearchId)[0] in SearchFrom(root, SearchId);
    }
  }

  predicate AllRoots(roots: seq<DApplet>)
  {
    forall i :: 0 <= i < |roots| ==> roots[i].Containment?
  }

  /** The state after one timer expiry per tree of `roots`, in order. */
  function Run(s: ProxyState, roots: seq<DApplet>): ProxyState
    requires AllRoots(roots)
  {
    if roots == [] then s else Tick(Run(s, roots[..|roots| - 1]), roots[|roots| - 1])
  }

  /** However the tree changes between expiries, the invariant holds and no handle is ever reset. */
  lemma {:induction false} RunPreservesInv(s: ProxyState, roots: seq<DApplet>)
    requires AllRoots(roots) && Inv(s)
    ensures Inv(Run(s, roots)) && Covers(Run(s, roots).handles, s.handles)
  {
    if roots != [] {
      var before := Run(s, roots[..|roots| - 1]);
      RunPreservesInv(s, roots[..|roots| - 1]);
      TickPreservesInv(before, roots[|roots| - 1]);
    }
  }

  /** Once the timer has stopped, later expiries change nothing: the handles are frozen. */
  lemma {:induction false} StoppedIsFrozen(s: ProxyState, roots: seq<DApplet>)
    requires AllRoots(roots) && !s.timerActive
    ensures Run(s, roots) == s
  {
    if roots != [] {
      StoppedIsFrozen(s, roots[..|roots| - 1]);
    }
  }

  /**
   * If the tree at some expiry holds all three plugins, the timer has stopped after that expiry
   * and every later state is that one.
   */
  lemma {:induction false} StopsOnceAllPresent(s: ProxyState, roots: seq<DApplet>, j: nat, k: nat)
    requires AllRoots(roots) && Inv(s)
    requires j < k <= |roots|
    requires SearchFrom(roots[j], TrayId) != [] && SearchFrom(roots[j], ClipboardId) != []
    requires SearchFrom(roots[j], SearchId) != []
    ensures !Run(s, roots[..j + 1]).timerActive
    ensures Run(s, roots[..k]) == Run(s, roots[..j + 1])
    decreases k
  {
    var pre := roots[..j + 1];
    assert pre[..|pre| - 1] == roots[..j];
    RunPreservesInv(s, roots[..j]);
    TickStopsWhenAllPresent(Run(s, roots[..j]), roots[j]);
    if k > j + 1 {
      StopsOnceAllPresent(s, roots, j, k - 1);
      assert roots[..k][..k - 1] == roots[..k - 1];
    }
  }

  // ----------------------------------------------------------------------------------------
  // Forwarding to another applet
  // ----------------------------------------------------------------------------------------

  /** A bool slot's answer as the proxy reads it: `res` starts true and stays so if the call fails. */
  function Answer(reply: Option<bool>): bool
  {
    if reply.Some? then reply.value else true
  }

  /** What `plugins` appends for a clipboard or search handle: its item info, when it yields one. */
  function ExtraInfo<Info>(h: Option<DApplet>, itemInfo: DApplet -> Option<Info>): seq<Info>
  {
    if h.Some? && itemInfo(h.value).Some? then [itemInfo(h.value).value] else []
  }

  /** A call `setItemOnDock` posts to the event queue of another applet. */
  datatype QueuedCall =
    | SetVisible(target: DApplet, visible: bool)
    | ForwardItemOnDock(target: DApplet, settingKey: string, itemKey: string, visible: bool)

  // ----------------------------------------------------------------------------------------
  // The proxy object
  // ----------------------------------------------------------------------------------------

  class DockDBusProxy {
    var oldDockApplet: Option<DApplet>
    var clipboardApplet: Option<DApplet>
    var searchApplet: Option<DApplet>
    var timerActive: bool

    function State(): ProxyState
      reads this
    {
      ProxyState(Handles(oldDockApplet, clipboardApplet, searchApplet), timerActive)
    }

    /** Construction: all three handles null, the lookup timer started. */
    constructor ()
      ensures State() == Initial
    {
      oldDockApplet, clipboardApplet, searchApplet := None, None, None;
      timerActive := true;
    }

    /** `getOtherApplet`: look each of the three plugins up and report whether all are bound. */
    method GetOtherApplet(root: DApplet) returns (allBound: bool)
      requires root.Containment?
      modifies this
      ensures State() == ProxyState(Poll(old(State()).handles, root), old(timerActive))
      ensures allBound == AllBound(State().handles)
    {
      var list, _ := AppletList(root, TrayId);
      if list != [] {
        oldDockApplet := Some(list[0]);
      }
      var list2, _ := AppletList(root, ClipboardId);
      if list2 != [] {
        clipboardApplet := Some(list2[0]);
      }
      var list3, _ := AppletList(root, SearchId);
      if list3 != [] {
        searchApplet := Some(list3[0]);
      }
      allBound := oldDockApplet.Some? && clipboardApplet.Some? && searchApplet.Some?;
    }

    /** One expiry of the lookup timer: poll, and stop the timer on the first poll that binds all three. */
    method Timeout(root: DApplet)
      requires root.Containment?
      modifies this
      ensures State() == Tick(old(State()), root)
    {
      if timerActive {
        var allBound := GetOtherApplet(root);
        if allBound {
          timerActive := false;
        }
      }
    }

    /** Shared path of the three task-manager requests. */
    static method CallTaskManager(root: DApplet, desktopFile: string, slot: (DApplet, string) -> Option<bool>)
      returns (ok: bool)
      requires root.Containment?
      ensures SearchFrom(root, TaskManagerId) == [] ==> !ok
      ensures SearchFrom(root, TaskManagerId) != [] ==>
        ok == Answer(slot(SearchFrom(root, TaskManagerId)[0], GetAppID(desktopFile)))
    {
      var id := GetAppID(desktopFile);
      var appletItem := FindApplet(root, TaskManagerId);
      if appletItem.None? {
        return false;
      }
      ok := Answer(slot(appletItem.value, id));
    }

    /**
     * `RequestDock`: false when no task manager is loaded; otherwise the task manager's answer
     * for the desktop file's id, true when the call fails. The index is not used.
     */
    static method RequestDock(root: DApplet, desktopFile: string, index: int, requestDock: (DApplet, string) -> Option<bool>)
      returns (ok: bool)
      requires root.Containment?
      ensures SearchFrom(root, TaskManagerId) == [] ==> !ok
      ensures SearchFrom(root, TaskManagerId) != [] ==>
        ok == Answer(requestDock(SearchFrom(root, TaskManagerId)[0], GetAppID(desktopFile)))
    {
      ok := CallTaskManager(root, desktopFile, requestDock);
    }

    /** `IsDocked`: as `RequestDock`, asking the task manager whether the id is docked. */
    static method IsDocked(root: DApplet, desktopFile: string, isDocked: (DApplet, string) -> Option<bool>)
      returns (ok: bool)
      requires root.Containment?
      ensures SearchFrom(root, TaskManagerId) == [] ==> !ok
      ensures SearchFrom(root, TaskManagerId) != [] ==>
        ok == Answer(isDocked(SearchFrom(root, TaskManagerId)[0], GetAppID(desktopFile)))
    {
      ok := CallTaskManager(root, desktopFile, isDocked);
    }

    /** `RequestUndock`: as `RequestDock`, asking the task manager to undock the id. */
    static method RequestUndock(root: DApplet, desktopFile: string, requestUndock: (DApplet, string) -> Option<bool>)
      returns (ok: bool)
      requires root.Containment?
      ensures SearchFrom(root, TaskManagerId) == [] ==> !ok
      ensures SearchFrom(root, TaskManagerId) != [] ==>
        ok == Answer(requestUndock(SearchFrom(root, TaskManagerId)[0], GetAppID(desktopFile)))
    {
      ok := CallTaskManager(root, desktopFile, requestUndock);
    }

    /**
     * `plugins`: empty without the old dock applet; otherwise its plugin list (empty when that call
     * fails), then the clipboard item's info, then the search item's, each only when bound and
     * when its call succeeds.
     */
    method Plugins<Info>(trayPlugins: DApplet -> Option<seq<Info>>, itemInfo: DApplet -> Option<Info>)
      returns (infos: seq<Info>)
      ensures oldDockApplet.None? ==> infos == []
      ensures oldDockApplet.Some? ==>
        var listed := trayPlugins(oldDockApplet.value);
        var tray := if listed.Some? then listed.value else [];
        |tray| <= |infos| && infos[..|tray|] == tray
        && infos[|tray|..] == ExtraInfo(clipboardApplet, itemInfo) + ExtraInfo(searchApplet, itemInfo)
    {
      if oldDockApplet.None? {
        return [];
      }
      var listed := trayPlugins(oldDockApplet.value);
      infos := if listed.Some? then listed.value else [];
      ghost var tray := infos;
      if clipboardApplet.Some? {
        var info := itemInfo(clipboardApplet.value);
        if info.Some? {
          infos := infos + [info.value];
        }
      }
      if searchApplet.Some? {
        var info := itemInfo(searchApplet.value);
        if info.Some? {
          infos := infos + [info.value];
        }
      }
      assert infos == tray + ExtraInfo(clipboardApplet, itemInfo) + ExtraInfo(searchApplet, itemInfo);
    }

    /**
     * `setItemOnDock`: "clipboard" and "search" toggle their own applet when it is bound; any
     * other key, or one whose applet is not bound, goes to the old dock applet; with that unbound
     * too, nothing is posted.
     */
    function SetItemOnDock(settingKey: string, itemKey: string, visible: bool): (c: Option<QueuedCall>)
      reads this
      ensures c.None? <==>
        (oldDockApplet.None? && (itemKey != "clipboard" || clipboardApplet.None?)
         && (itemKey != "search" || searchApplet.None?))
      ensures c.Some? && c.value.SetVisible? ==>
        (itemKey == "clipboard" && Some(c.value.target) == clipboardApplet)
        || (itemKey == "search" && Some(c.value.target) == searchApplet)
      ensures c.Some? && c.value.ForwardItemOnDock? ==>
        Some(c.value.target) == oldDockApplet && c.value.settingKey == settingKey && c.value.itemKey == itemKey
      ensures c.Some? ==> c.value.visible == visible
      ensures itemKey == "clipboard" && clipboardApplet.Some? ==> c == Some(SetVisible(clipboardApplet.value, visible))
      ensures itemKey == "search" && searchApplet.Some? ==> c == Some(SetVisible(searchApplet.value, visible))
      ensures !(itemKey == "clipboard" && clipboardApplet.Some?) && !(itemKey == "search" && searchApplet.Some?)
              && oldDockApplet.Some? ==>
        c == Some(ForwardItemOnDock(oldDockApplet.value, settingKey, itemKey, visible))
    {
      if itemKey == "clipboard" && clipboardApplet.Some? then Some(SetVisible(clipboardApplet.value, visible))
      else if itemKey == "search" && searchApplet.Some? then Some(SetVisible(searchApplet.value, visible))
      else if oldDockApplet.Some? then Some(ForwardItemOnDock(oldDockApplet.value, settingKey, itemKey, visible))
      else None
    }
  }

  /** With the invariant, `setItemOnDock` only ever addresses applets of the plugin its key names. */
  lemma SetItemOnDockTargets(p: DockDBusProxy, settingKey: string, itemKey: string, visible: bool)
    requires Inv(p.State())
    ensures var c := p.SetItemOnDock(settingKey, itemKey, visible);
      c.Some? ==>
        (c.value.target.pluginId ==
         if c.value.ForwardItemOnDock? then TrayId else if itemKey == "clipboard" then ClipboardId else SearchId)
  {
  }
}
