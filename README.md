# dde-shell dock proxy and notification record, in Dafny

This project models two small pieces of the deepin desktop shell and proves properties of them.

**Notification records** (`panels/notification/common/notifyentity.cpp`). A `NotifyEntity`
is a handle on shared `NotifyData`. The data holds the application name, icon, summary, body,
action list, hint map, bubble id, replaces id, expire timeout, id, creation time, processed type
and preview flag, with their defaults. A record is valid when it holds data with a positive id.
Two records are equal when both hold data and their ids agree. A record is "processed" when its
processed type is `Processed`. For storage and transport a record is flattened into a map from
field name to value. Two text codecs handle the composite fields:

- actions are joined with the bar character `|` as separator, without a trailing bar, and split back on it;
- hints are written as `key!!!value|` for each entry in ascending key order, and parsed back
  chunk by chunk. Chunks that do not split on `!!!` into exactly two parts are dropped, and a
  later chunk for the same key overwrites an earlier one.

**Dock D-Bus proxy** (`panels/dock/dockdbusproxy.cpp`). The proxy finds applets by plugin id
with a breadth-first search over the loaded applet tree (`appletList`); `applet` returns the
first hit. The proxy:

- turns a desktop file path into an application id (`getAppID`);
- forwards `RequestDock`, `IsDocked` and `RequestUndock` to the task manager applet;
- looks up the tray, clipboard and search applets on a one-second timer until all three are
  found, then stops the timer for good;
- lists dock plugins through those handles (`plugins`);
- routes `setItemOnDock` to the clipboard applet, the search applet or the tray applet.

Files:

- `wrappers.dfy`: `Option`, which stands for null pointers and "not found".
- `strings.dfy`: the QString operations the code relies on. These are split with empty parts
  kept (on one character or on a multi-character separator), join, `lastIndexOf`, `mid`, and
  the key order of QMap.
- `notify_codec.dfy`: the action and hint codecs. The hint map is the list of its entries in
  strictly ascending key order, which is the order a QMap iterator visits them in.
- `notify_entity.dfy`: the record, its constructors, validity, equality, and the flat encoding.
- `applet_tree.dfy`: the applet tree, `appletList` as a loop proved against a
  specification function, and `applet`.
- `dock_proxy.dfy`: `getAppID`, the handles and timer as the class `DockDBusProxy`, the
  forwarding methods, `plugins` and `setItemOnDock`.

The applet tree that the plugin loader owns is a parameter, `root`. Each timer expiry is one
call to `Timeout` with the tree as it is at that moment. A call into another applet by method
name is a function parameter, and its `None` means that no matching slot was found. The
current time in the full constructor is a parameter, `now`.

At the edges the code behaves as follows:

- `getAppID` has no guard for a missing marker. Without `/applications/` the id starts at
  index 13 (a position in UTF-16 code units in the source, in characters here), so `foo.desktop` gives "" and `org.foo.desktop` gives `op`. Without `.desktop` the
  id runs to the end of the path. See `AppIdWithoutDirectoryMarker`,
  `AppIdShortWithoutDirectoryMarker`, `AppIdOfBareFileName`, `AppIdWithoutSuffix` and
  `AppIdWithoutMarkers`.
- `appletList` does not handle a missing root. The root is cast to a containment and
  dereferenced, so the model requires the root to be a containment.
- The default id of a record is -1. Decoding a non-empty map without `"id"` gives 0.
- The preview flag defaults to true. Decoding a non-empty map without `"enablePreview"` gives
  false.

## Model

| member | source | states |
|---|---|---|
| NotifyCodec.ConvertActionsToString | panels/notification/common/notifyentity.cpp:305-317 | The result is the tokens with one separator bar between each pair and none at the end; an empty list gives "". |
| NotifyCodec.ParseAction | panels/notification/common/notifyentity.cpp:347-355 | "" gives no tokens. Any other text gives bar-free tokens that join back to the text, one more token than the text has bars. |
| NotifyCodec.ParseActionPaired | panels/notification/common/notifyentity.cpp:352-353 | The pairing check on the token count holds exactly when the text is empty or has an odd number of bars. |
| NotifyCodec.ActionsRoundTrip | panels/notification/common/notifyentity.cpp:305-355 | Parsing the joined text gives the list back when no token contains a bar and the list is not `[""]`. |
| NotifyCodec.ActionsSingleEmptyTokenLost | panels/notification/common/notifyentity.cpp:313-314 | The list `[""]` encodes to "" and decodes to the empty list, so that list does not round-trip. |
| NotifyCodec.ActionsEncodingInjective | panels/notification/common/notifyentity.cpp:305-317 | Two bar-free lists other than `[""]` with the same text are equal. |
| NotifyCodec.Insert | panels/notification/common/notifyentity.cpp:371 | After `insert`, the key maps to the new value, every other key keeps its value, and keys stay strictly ascending. |
| NotifyCodec.ConvertHintsToString | panels/notification/common/notifyentity.cpp:329-345 | The text is each entry as key, `!!!`, value and a bar, in ascending key order; a non-empty map's text ends with a bar. |
| NotifyCodec.ParseHint | panels/notification/common/notifyentity.cpp:357-375 | The map built by the loop is the chunks inserted in order. Each key's value is the one from the last well-formed chunk for that key. "" gives the empty map. |
| NotifyCodec.InsertChunksLookup | panels/notification/common/notifyentity.cpp:364-372 | After the chunks are inserted, a key has the value of its last well-formed chunk, or the value it had before if no chunk has it. |
| NotifyCodec.LaterDuplicateWins | panels/notification/common/notifyentity.cpp:371 | Whatever text comes before it, a final chunk `key!!!value` decides the value of `key`. |
| NotifyCodec.MalformedChunkIgnored | panels/notification/common/notifyentity.cpp:365-367 | A final chunk that does not split into exactly two parts changes the value of no key. |
| NotifyCodec.HintsRoundTrip | panels/notification/common/notifyentity.cpp:329-375 | Parsing the hints text gives the map back when no key or value contains a bar or `!`. |
| NotifyEntity.EmptyEntity | panels/notification/common/notifyentity.cpp:30-51 | The default record has data, id -1, processed type `NotProcessed` and the preview flag set; it is neither valid nor processed. |
| NotifyEntity.EntityWithId | panels/notification/common/notifyentity.cpp:53-58 | The record carries the given id and application name, and every other field keeps its default. It is valid exactly when the id is positive. |
| NotifyEntity.EntityWithFields | panels/notification/common/notifyentity.cpp:60-74 | The record carries each given field and the current time as creation time. The id stays -1, so the record is invalid; bubble id, processed type and preview flag keep their defaults. |
| NotifyEntity.IsValid | panels/notification/common/notifyentity.cpp:115-118 | A valid record holds data, and its id is neither the default -1 nor 0. |
| NotifyEntity.Equal | panels/notification/common/notifyentity.cpp:107-113 | Equal records both hold data and are either both valid or both invalid. A record without data equals nothing. |
| NotifyEntity.IsProcessed | panels/notification/common/notifyentity.cpp:230-233 | A processed record has a processed type other than `None`, the default `NotProcessed` and `Removed`. |
| NotifyEntity.ConstructorsValidity | panels/notification/common/notifyentity.cpp:47-118 | The default and the full constructors give invalid records (id -1). The id constructor gives a valid record exactly when the id is positive. A default record is not processed. |
| NotifyEntity.EqualIsPartialEquivalence | panels/notification/common/notifyentity.cpp:107-113 | Equality is symmetric and transitive. A record equals itself exactly when it holds data. Between records with data, equality means equal ids. |
| NotifyEntity.EqualIgnoresContent | panels/notification/common/notifyentity.cpp:107-113 | Records with the same id are equal whatever their other fields. A record without data equals nothing. |
| NotifyEntity.ToVariantMap | panels/notification/common/notifyentity.cpp:255-272 | The map has exactly the eleven field names, not `bubbleId` or `processedType`. Each name carries its own field: `id`, `cTime`, `replacesId` and `expireTimeout` as numbers, the four texts as text, `enablePreview` as a flag, the actions as joined text and the hints as hints text. |
| NotifyEntity.FromVariantMap | panels/notification/common/notifyentity.cpp:274-293 | An empty map gives the default record. Otherwise each field is read from the entry of its own name, converted to the field's type: a missing id reads 0, a missing preview flag reads false, and actions and hints are parsed from their texts. Bubble id and processed type stay at 0 and `NotProcessed`. |
| NotifyEntity.DecodeEmptyIsInvalid | panels/notification/common/notifyentity.cpp:276-277 | Decoding the empty map gives the default record, which is invalid. |
| NotifyEntity.RecordRoundTrip | panels/notification/common/notifyentity.cpp:255-293 | Encoding then decoding gives back every encoded field, with bubble id and processed type at their defaults. This holds when actions and hints are encodable. |
| NotifyEntity.RoundTripKeepsValidity | panels/notification/common/notifyentity.cpp:274-293 | The decoded record is valid exactly when the original is, and it equals the original. |
| AppletTree.AppletList | panels/dock/dockdbusproxy.cpp:65-83 | The loop returns the breadth-first search result `SearchFrom`. It dequeues exactly as many times as there are containments in the tree, so it ends and visits each containment once. |
| AppletTree.VisitChildren | panels/dock/dockdbusproxy.cpp:74-80 | The inner loop enqueues the child containments and collects the matching children, both in stored order. |
| AppletTree.DequeueCount | panels/dock/dockdbusproxy.cpp:72-77 | Dequeuing a containment and enqueuing its child containments lowers the number of containments still to visit by one. |
| AppletTree.FindApplet | panels/dock/dockdbusproxy.cpp:85-91 | `applet` returns nothing exactly when the search finds nothing, else the first result, which carries the id and lies below the root. |
| AppletTree.ScanIsComplete | panels/dock/dockdbusproxy.cpp:65-83 | From any queue of containments, the search adds each matching applet below the queue, as often as it occurs there. |
| AppletTree.SearchCountsMatches | panels/dock/dockdbusproxy.cpp:65-83 | The result holds, as a multiset, exactly the applets below the root that carry the id. |
| AppletTree.ScanFindsDescendants | panels/dock/dockdbusproxy.cpp:65-83 | An applet is in the result exactly when it lies below the root and carries the id. |
| AppletTree.ScanExtends | panels/dock/dockdbusproxy.cpp:79 | The search only appends to what it has already found. |
| AppletTree.DirectChildrenFirst | panels/dock/dockdbusproxy.cpp:70-80 | The root's own matching children come first, in stored order. |
| AppletTree.BreadthFirstExample | panels/dock/dockdbusproxy.cpp:70-80 | Take a root whose children are a containment B holding a matching applet A, then a matching empty containment C. The result is [C, A]; a depth-first search would give A first. |
| DockProxy.GetAppID | panels/dock/dockdbusproxy.cpp:58-63 | When "/applications/" comes before ".desktop", the path is its text up to the last "/applications/", then that marker, then the id, then its text from the last ".desktop". |
| DockProxy.AppIdOfDesktopPath | panels/dock/dockdbusproxy.cpp:58-63 | For `<dir>/applications/<name>.desktop` with no '/' in the name, the id is the name, whatever the directory. |
| DockProxy.AppIdExample | panels/dock/dockdbusproxy.cpp:58-63 | "/usr/share/applications/foo.desktop" gives "foo". |
| DockProxy.AppIdWithoutDirectoryMarker | panels/dock/dockdbusproxy.cpp:62 | Without "/applications/", the id is the text from index 13 to the last ".desktop". |
| DockProxy.AppIdShortWithoutDirectoryMarker | panels/dock/dockdbusproxy.cpp:62 | Without "/applications/" and with the last ".desktop" before index 13, the id is everything from index 13 on, or "" for shorter paths. |
| DockProxy.AppIdOfBareFileName | panels/dock/dockdbusproxy.cpp:58-63 | "foo.desktop" gives "" and "org.foo.desktop" gives "op". |
| DockProxy.AppIdWithoutSuffix | panels/dock/dockdbusproxy.cpp:62 | Without ".desktop", the id runs from after the last "/applications/" to the end. |
| DockProxy.AppIdWithoutMarkers | panels/dock/dockdbusproxy.cpp:62 | With neither marker, the id is everything from index 13 on. |
| DockProxy.AppIdSuffixBeforeDirectory | panels/dock/dockdbusproxy.cpp:62 | When the last ".desktop" starts before the last "/applications/" ends, the count is negative and the id runs from after "/applications/" to the end. |
| DockProxy.AppIdSuffixBeforeDirectoryExample | panels/dock/dockdbusproxy.cpp:62 | "/x.desktop/applications/foo" gives "foo". |
| DockProxy.Bind | panels/dock/dockdbusproxy.cpp:29-36 | One lookup never clears a bound handle. The handle ends up bound exactly when it was bound already or the tree holds an applet with that id. A changed handle points at such an applet. |
| DockProxy.Poll | panels/dock/dockdbusproxy.cpp:28-37 | After a poll, each handle is bound exactly when it was bound before or the tree holds an applet of its plugin. A poll never clears a handle, keeps every bound handle pointing at an applet of its plugin, and only changes a handle to an applet of the current tree. |
| DockProxy.Tick | panels/dock/dockdbusproxy.cpp:44-49 | A stopped timer leaves the state as it is. An expiry never clears a handle and never restarts the timer. The timer keeps running only while a handle is missing, and stops on the expiry that binds all three. |
| DockProxy.InitialInv | panels/dock/dockdbusproxy.cpp:15-50 | Right after construction, no handle is bound and the timer runs, so the proxy invariant holds. |
| DockProxy.TickPreservesInv | panels/dock/dockdbusproxy.cpp:44-49 | A timer expiry keeps the invariant: bound handles point at applets of their plugin, and the timer runs exactly while a handle is missing. It never clears a handle. |
| DockProxy.TickStopsWhenAllPresent | panels/dock/dockdbusproxy.cpp:28-48 | An expiry on a tree that holds all three plugins binds all three handles and stops the timer. |
| DockProxy.RunPreservesInv | panels/dock/dockdbusproxy.cpp:28-50 | Over any sequence of expiries, however the tree changes between them, the invariant holds and no handle is ever cleared. |
| DockProxy.StoppedIsFrozen | panels/dock/dockdbusproxy.cpp:45-47 | Once the timer has stopped, later expiries change nothing. |
| DockProxy.StopsOnceAllPresent | panels/dock/dockdbusproxy.cpp:42-50 | After the first expiry whose tree holds all three plugins, the timer has stopped and every later state equals that one. |
| DockProxy.DockDBusProxy.constructor | panels/dock/dockdbusproxy.cpp:15-20 | The three handles start null and the lookup timer starts running. |
| DockProxy.DockDBusProxy.GetOtherApplet | panels/dock/dockdbusproxy.cpp:28-39 | Each handle is rebound to the first applet found for its plugin id, or kept when none is found. The answer is whether all three are bound. |
| DockProxy.DockDBusProxy.Timeout | panels/dock/dockdbusproxy.cpp:44-49 | One expiry: if the timer runs, look the applets up and stop the timer when all three are bound. A stopped timer does nothing. |
| DockProxy.DockDBusProxy.CallTaskManager | panels/dock/dockdbusproxy.cpp:130-136 | false when no task manager is loaded. Otherwise the answer of the first task manager for the path's id, or true when the call fails. |
| DockProxy.DockDBusProxy.RequestDock | panels/dock/dockdbusproxy.cpp:128-137 | false when no task manager is loaded. Otherwise the task manager's answer for the id, true when the call fails. The index plays no part. |
| DockProxy.DockDBusProxy.IsDocked | panels/dock/dockdbusproxy.cpp:139-148 | As `RequestDock`, for the docked query. |
| DockProxy.DockDBusProxy.RequestUndock | panels/dock/dockdbusproxy.cpp:150-159 | As `RequestDock`, for the undock request. |
| DockProxy.DockDBusProxy.Plugins | panels/dock/dockdbusproxy.cpp:167-189 | Empty without the tray handle. Otherwise the tray's list comes first (empty if that call fails), then the clipboard item's info, then the search item's. Each info is added only when its handle is bound and its call succeeds. |
| DockProxy.DockDBusProxy.SetItemOnDock | panels/dock/dockdbusproxy.cpp:201-210 | "clipboard" with the clipboard applet bound posts `setVisible` to that applet, whatever else is bound; "search" likewise for the search applet. Otherwise, with the tray applet bound, the call goes to it with both keys and the flag. Nothing is posted exactly when none of these applies. |
| DockProxy.SetItemOnDockTargets | panels/dock/dockdbusproxy.cpp:201-210 | Under the proxy invariant, a posted call only addresses an applet of the plugin its key names. |

## Left out

- Signal wiring of the constructor (`panels/dock/dockdbusproxy.cpp:23-25`) only connects the dock panel's change signals to the proxy's; `registerPluginInfoMetaType` registers the dock item info types with Qt's type system. Neither changes what the modelled operations compute.
- Geometry, position, hide mode, hide state, `ReloadPlugins` and `callShow` (`panels/dock/dockdbusproxy.cpp:93-126`, `191-199`): they only pass through to the dock panel.
- `GetLoadedPlugins`, `setPluginVisible`, `getPluginVisible`, `getPluginKey` and `resizeDock`: they are unimplemented stubs that do nothing or return a fixed value.
- Calls by method name: the callee is a function parameter. The model does not capture matching slots by name and argument types at run time.
- DockProxy.DockDBusProxy.SetItemOnDock: returns the queued call it posts instead of delivering it. Its later delivery on the event loop is not modelled.
- The timer as real time: one `Timeout` call is one expiry, and `deleteLater` is not modelled. Whether the timer outlives the proxy is not modelled either.
- The plugin loader singleton: the applet tree is a parameter. The source's applets are distinct objects; the model identifies them by value, so two structurally equal applets cannot be told apart.
- AppletTree.AppletList: requires the root to be a containment. The source casts the root and dereferences it without a check.
- `panels/dock/dockhelper.h` and the network-manager interface headers are not part of this model.
- The shared, reference-counted storage of `NotifyData`: a record is a value, and a moved-from record is one without data. Copy and move themselves are not modelled as operations.
- Getters and setters of `NotifyEntity` are field reads and updates of the record value. The truncation of the 64-bit `setBubbleId` argument to 32 bits is not modelled.
- NotifyEntity.FromVariantMap: QVariant conversions between text and numbers are not modelled. Numeric text in a numeric field reads as 0, where QVariant would parse it. A number or flag in a text field reads as "", and text in the flag field reads as false.
- NotifyCodec.ParseAction: models the release build, which returns the split list whatever its length. In a debug build the `Q_ASSERT` at `panels/notification/common/notifyentity.cpp:353` aborts on an odd token count; that abort is not modelled, and `ParseActionPaired` states when it would fire.
- NotifyCodec.ConvertHintsToString: hint values are strings only. The text form of other QVariant types is not modelled.
- Characters are compared by code point. QString compares UTF-16 code units, which gives the same key order outside surrogate pairs.
- Positions count code points, where QString counts UTF-16 code units. This only matters for `getAppID`'s fixed start 13 when `/applications/` is missing: each character outside the Basic Multilingual Plane among the first 13 moves that start one character earlier in the source than in the model.
- The current time read by the full constructor is a parameter, `now`.
