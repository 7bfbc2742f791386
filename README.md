# Square Monster / Crusade of Ages — game-logic model

This project models the sequential game logic of the Square Monster engine and its successor, Crusade of Ages, in Dafny. The modelled parts are:

- **The per-frame update of `GameManager`.**
  - The notification pass removes ended notifications without stepping back.
  - The entity pass removes dead objects in place and steps back after each removal.
  - `getObject` looks up the first object with a tag.
  - The level reloads when the player is gone and the last state was 0 or 7.
- **The options-file reader `readOptions`** and the default lines that `writeAppData` writes.
- **Three menu views: `PausedEdit`, `GameOver` and `CreaMenu`.**
  - Each `update` processes Escape, applies the selected buttons' side effects and transitions, and runs the per-button hover-sound guard.
  - Each `render` runs the layout loop.
- **The launcher's `manageArgs`**, with its built-in defaults and the OS choice of the configuration folder.
- **The `GameObject` entity record**, with its setters.

The modelled classes keep their source form. `GameManager`, the views, `CrusadeOfAges` and `GameObject` are Dafny classes whose methods update their fields in place, and every loop of the source that updates state is a `while` or `for` loop. The one exception is the search loop in `getObject`, which only reads the list. It is the recursive function `Manager.FirstTagged`. Each method is proved against a pure specification function of the old state: `Survivors`/`NotifSweep`, `ReadLines`, `AfterSelections`, `ScanArgs` and `Span`. The source's promises are then proved about those functions as lemmas.

The collaborators the code calls are stand-ins with only the state the modelled logic observes:

- `SoundClip` counts play and stop requests.
- `GameContainer` holds `state`, `lastState`, `actiView` and `prevView`.
- `Button` holds its label, goal state or target view, height, hover flags and offsets.
- Java's `/`, `Integer.parseInt`, `String.split(":")` and `String.contains` are written out with Java semantics in `JavaLang`.

The per-frame inputs are parameters of each `update`:

- whether Escape or F12 is down;
- which buttons `isSelected`/`isHover` report;
- whether the hover clip `isRunning`;
- which entities die and which notifications end during their own `update`.

The source files `Button.java`, `View.java`, `SoundClip.java`, `GameContainer.java`, `Settings.java`, `FlashNotif.java`, `Player.java`, `Camera.java`, `Editor.java`, `CreativeMode.java`, `EditList.java` and `PlayerStats.java` are not part of this model. The stand-ins hold only what the modelled code reads or writes through them.

The `GameManager` entity list is modelled with the `GameObject` record of the `sm` variant. It has the same `tag` and `dead` members that `com.strozor`'s `GameManager` uses.

After the player dies, the level reload happens in the same `update` call: the reload check comes after the entity pass, not on the next frame.

## Model

| member | source | states |
|---|---|---|
| `Manager.FirstTagged` | StrozorEngine/src/com/strozor/game/GameManager.java:132-135 | the lookup finds nothing exactly when no object has the tag; otherwise it returns an object with that tag that no earlier object shares |
| `Manager.GameManager.GetObject` | StrozorEngine/src/com/strozor/game/GameManager.java:132-135 | `getObject` applies the `FirstTagged` lookup to the current object list: nothing is found exactly when no object has the tag, and otherwise the first object carrying it |
| `Manager.FoundAfterAppend` | StrozorEngine/src/com/strozor/game/GameManager.java:91-101 | after the new player is appended, `getObject("player")` finds an object |
| `Manager.SurvivorsMembership` | StrozorEngine/src/com/strozor/game/GameManager.java:79-85 | an object is in the list after the entity pass exactly when it was there before and did not die during its own update |
| `Manager.SurvivorsAlive` | StrozorEngine/src/com/strozor/game/GameManager.java:79-85 | every survivor was in the list and did not die |
| `Manager.SurvivorsAppend` | StrozorEngine/src/com/strozor/game/GameManager.java:79-85 | the pass works element by element, keeping the survivors' relative order: the survivors of a concatenation are the concatenation of the survivors |
| `Manager.SurvivorsAllAlive` | StrozorEngine/src/com/strozor/game/GameManager.java:79-85 | when nobody dies, the list is unchanged |
| `Manager.SurvivorsDistinct` | StrozorEngine/src/com/strozor/game/GameManager.java:79-85 | removing objects keeps the list free of repeated objects |
| `Manager.VisitsWithin` | StrozorEngine/src/com/strozor/game/GameManager.java:74-77 | the notification pass only updates notifications of the list and only keeps notifications of the list |
| `Manager.NotifSweepMembership` | StrozorEngine/src/com/strozor/game/GameManager.java:74-77 | a notification remains exactly when it was not updated this frame or did not end |
| `Manager.NotifSkippedAfterEnded` | StrozorEngine/src/com/strozor/game/GameManager.java:74-77 | when the first notification ends, the one shifted into its slot is neither updated nor removed that frame |
| `Manager.NotifSkippedAfterEndedAt` | StrozorEngine/src/com/strozor/game/GameManager.java:74-77 | the same skip at any position: after a visited notification ends, the next one is kept and not updated that frame |
| `Manager.FlashNotif.Update` | StrozorEngine/src/com/strozor/game/GameManager.java:75 | a notification's own update decides whether it has ended, and counts one more update of that notification |
| `Manager.GameManager.constructor` | StrozorEngine/src/com/strozor/game/GameManager.java:44-54 | the first level (or the test map) is loaded, the list holds one live "player" and the camera follows "player" |
| `Manager.GameManager.Update` | StrozorEngine/src/com/strozor/game/GameManager.java:57-104 | one frame: Escape requests state 2 and the frame goes on; F12 adds a notification; notifications and objects are updated and removed as the passes define; every old object is updated exactly once, and each notification once when the pass visits it and not at all otherwise; the reload appends a player, stops the game-over clip once and rebuilds the camera exactly when no player survives and the last state is 0 or 7, and otherwise leaves the list, clip and camera alone |
| `Manager.GameManager.NotifPhase` | StrozorEngine/src/com/strozor/game/GameManager.java:61-77 | the optional screenshot notification is appended, then the notification pass runs over the extended list |
| `Manager.GameManager.NotifPass` | StrozorEngine/src/com/strozor/game/GameManager.java:74-77 | the index loop leaves `NotifSweep` of the old list and updates exactly the notifications `NotifVisits` names, each exactly once; the others keep their flag and update count |
| `Manager.GameManager.VisitNotif` | StrozorEngine/src/com/strozor/game/GameManager.java:75-76 | one turn: the notification at i is updated once, and it is removed exactly when it has ended |
| `Manager.GameManager.ObjectPhase` | StrozorEngine/src/com/strozor/game/GameManager.java:79-101 | the entity pass then the reload rule; every old object's update count went up by exactly one and its dead flag is its own outcome; no object left in the list is dead |
| `Manager.GameManager.ObjectPass` | StrozorEngine/src/com/strozor/game/GameManager.java:79-85 | the index loop with step-back leaves exactly `Survivors` of the old list; each old object's update count went up by exactly one, and no survivor is dead |
| `Manager.GameManager.VisitObject` | StrozorEngine/src/com/strozor/game/GameManager.java:80-84 | one turn: object k of the old list, at index i, is updated once and removed with the index stepped back when it dies; the objects before it have been updated once and those after it not yet |
| `Manager.GameManager.Reload` | StrozorEngine/src/com/strozor/game/GameManager.java:91-101 | the reload fires exactly when no object is tagged "player" and the last state is 0 or 7; then exactly one live "player" is appended after the old list, the game-over clip gets one stop, the level is loaded again and a new camera follows "player"; otherwise nothing changes |
| `GameObjects.GameObject.constructor` | StrozorEngine/src/sm/game/objects/GameObject.java:9-13 | a new object carries its tag, is not dead, and its counters are zero |
| `GameObjects.GameObject.SetDead` | StrozorEngine/src/sm/game/objects/GameObject.java:47-53 | after `setDead(b)` `isDead()` is b, and only `dead` changes |
| `GameObjects.GameObject.SetLives` | StrozorEngine/src/sm/game/objects/GameObject.java:55-61 | `getLives` returns the new value, and only `lives` changes |
| `GameObjects.GameObject.SetCoins` | StrozorEngine/src/sm/game/objects/GameObject.java:63-69 | `getCoins` returns the new value, and only `coins` changes |
| `GameObjects.GameObject.SetKeys` | StrozorEngine/src/sm/game/objects/GameObject.java:71-77 | `getKeys` returns the new value, and only `keys` changes |
| `GameObjects.GameObject.SetSkulls` | StrozorEngine/src/sm/game/objects/GameObject.java:79-85 | `getSkulls` returns the new value, and only `skulls` changes |
| `GameObjects.GameObject.Update` | StrozorEngine/src/sm/game/objects/GameObject.java:15 | an entity's own update decides whether it is dead afterwards, and counts one more update of that entity |
| `Options.LangIndex` | StrozorEngine/src/com/strozor/game/GameManager.java:192-196 | the language index is 1 exactly for "fr" and 0 for every other value, "en" included |
| `Options.ApplyLine` | StrozorEngine/src/com/strozor/game/GameManager.java:189-202 | a line whose split is empty is out of range; a line with an unknown key changes nothing; in the model a number-format error only comes from `maxFPS` |
| `Options.ApplyLineTo` | StrozorEngine/src/com/strozor/game/GameManager.java:189-202 | the settings object ends as `ApplyLine` says, or unchanged with the fault |
| `Options.ReadOptions` | StrozorEngine/src/com/strozor/game/GameManager.java:185-208 | the read loop leaves the settings and the escaping fault that `ReadLines` gives for the file's lines; a missing file (the caught `IOException`) changes nothing |
| `Options.LangLine` | StrozorEngine/src/com/strozor/game/GameManager.java:191-197 | `lang:<v>` sets index 1 for "fr" and 0 otherwise, touching nothing else |
| `Options.ScaleLine` | StrozorEngine/src/com/strozor/game/GameManager.java:198 | `guiScale:<v>` stores v |
| `Options.MaxFpsLine` | StrozorEngine/src/com/strozor/game/GameManager.java:199 | a `maxFPS` line written by `Integer.toString(n)` reads back as n for every 32-bit n |
| `Options.MaxFpsNotANumber` | StrozorEngine/src/com/strozor/game/GameManager.java:199 | a `maxFPS` value that is not an int raises the number-format fault |
| `Options.FlagLines` | StrozorEngine/src/com/strozor/game/GameManager.java:200-201 | `showFPS` and `showLights` become true exactly when the value is "true" |
| `Options.KeyWithoutValue` | StrozorEngine/src/com/strozor/game/GameManager.java:189-201 | a recognised key with nothing after it (with or without the ':') raises the out-of-range fault |
| `Options.UnknownKeyIgnored` | StrozorEngine/src/com/strozor/game/GameManager.java:190-202 | a line whose key is not one of the five is ignored, whatever follows the ':' |
| `Options.ApplyKeepsOthers` | StrozorEngine/src/com/strozor/game/GameManager.java:190-202 | a line changes no setting other than the one its key names |
| `Options.ApplySetsKey` | StrozorEngine/src/com/strozor/game/GameManager.java:190-202 | the value a line stores does not depend on the settings before it |
| `Options.LastLineWins` | StrozorEngine/src/com/strozor/game/GameManager.java:188-204 | when the file reads without a fault, each setting is as the last line with its key set it |
| `Options.FaultStops` | StrozorEngine/src/com/strozor/game/GameManager.java:186-207 | once a line raises a fault, later lines have no effect |
| `Options.DefaultLineValue` | StrozorEngine/src/com/strozor/game/GameManager.java:170-176 | each default line on its own sets its setting to its default without a fault |
| `Options.DefaultPrefix` | StrozorEngine/src/com/strozor/game/GameManager.java:170-176 | reading the default lines applies them one after the other, with no fault |
| `Options.DefaultOptions` | StrozorEngine/src/com/strozor/game/GameManager.java:170-176 | reading the default file gives language 0, scale "3", 60 frames per second, no frame counter and lights on, whatever the settings were before |
| `JavaLang.Div` | CrusadeOfAges/src/engine/view/PausedEdit.java:65 | int division truncates toward zero |
| `JavaLang.ParseInt` | StrozorEngine/src/sm/CrusadeOfAges.java:64 | a parsed value lies in the 32-bit range and comes from a non-empty string |
| `JavaLang.ParseIntOfToString` | StrozorEngine/src/com/strozor/game/GameManager.java:199 | parsing the text `Integer.toString` writes gives the number back, for every 32-bit int |
| `JavaLang.ParseIntRejectsNonDigit` | StrozorEngine/src/sm/CrusadeOfAges.java:64 | a non-digit character (other than a leading sign) makes parsing fail |
| `JavaLang.SplitKeyValue` | StrozorEngine/src/com/strozor/game/GameManager.java:189 | splitting `key:value` on ':' gives exactly the key and the value |
| `JavaLang.SplitKeyOnly` | StrozorEngine/src/com/strozor/game/GameManager.java:189 | splitting `key:` on ':' gives only the key, since trailing empty pieces are dropped |
| `JavaLang.SplitFirst` | StrozorEngine/src/com/strozor/game/GameManager.java:189-190 | the first piece of a split is the text before the first ':' |
| `Buttons.Button.WithState` | StrozorEngine/src/sm/engine/view/GameOver.java:21-22 | a new state button carries its label, goal state and height, and is neither hovered nor sounded |
| `Buttons.Button.WithView` | CrusadeOfAges/src/engine/view/PausedEdit.java:22-25 | a new view button carries its label, target view and height, and is neither hovered nor sounded |
| `Buttons.Button.SetHover` | CrusadeOfAges/src/engine/view/PausedEdit.java:49 | `setHover` stores the flag and returns it |
| `Buttons.GuardHover` | CrusadeOfAges/src/engine/view/PausedEdit.java:49-56 | one frame of the guard: the hover and sounded flags follow the pointer, and one play request is made exactly when the button is hovered, was not sounded and the clip is not running |
| `Buttons.HoverRequestsAtMostEntries` | StrozorEngine/src/sm/engine/view/GameOver.java:44-51 | over any run of frames, a button requests the hover sound at most once per time the pointer enters it |
| `Buttons.HoverRequestsWhenQuiet` | StrozorEngine/src/sm/engine/view/GameOver.java:44-51 | when the clip is never running, it requests exactly once per entry |
| `Buttons.HoverSpanRequests` | CrusadeOfAges/src/engine/view/PausedEdit.java:49-56 | while the pointer stays on a button, at most one request is made, and none if it was already sounded |
| `Buttons.HoverReEntry` | CrusadeOfAges/src/engine/view/PausedEdit.java:54-56 | leaving the button resets the guard, so re-entering on a quiet frame requests once more |
| `Buttons.FrameHoverRequestsBound` | StrozorEngine/src/sm/engine/view/GameOver.java:34-52 | in one frame, the hover loop makes at most one request per button, and none when every hovered button was already sounded |
| `Buttons.LastSelected` | StrozorEngine/src/com/strozor/view/CreaMenu.java:34-44 | the last selected button in list order is found; no selection is reported exactly when nothing is selected |
| `Buttons.SelectedCountPositive` | StrozorEngine/src/com/strozor/view/CreaMenu.java:34-44 | the number of selected buttons is zero exactly when there is no last selection, and at most the number of buttons |
| `Buttons.LayOut` | StrozorEngine/src/com/strozor/view/CreaMenu.java:52-58 | the layout loop puts every button at x = width/2 − 85 and button k at y = height/4 + the heights of the buttons above it plus 5 each, whatever the offsets were before; hover flags are untouched |
| `Buttons.PlaceButton` | StrozorEngine/src/sm/engine/view/GameOver.java:64-67 | one turn of the layout loop places button k and keeps the buttons above it in place |
| `Buttons.LayoutGap` | CrusadeOfAges/src/engine/view/PausedEdit.java:65-71 | buttons of non-negative height never overlap: each starts at least 5 pixels below the end of every button above it |
| `Buttons.UniformSpan` | StrozorEngine/src/sm/engine/view/GameOver.java:62-69 | with one button height h, button k starts k·(h + 5) below the first |
| `PausedEditView.LastSelectedAmong` | CrusadeOfAges/src/engine/view/PausedEdit.java:33-43 | the last selected button whose label is in a set, and none exactly when there is none |
| `PausedEditView.SelectionNavigation` | CrusadeOfAges/src/engine/view/PausedEdit.java:45-46 | after a frame with selections, the active view and the previous view are both the last selected button's target; without selections neither changes |
| `PausedEditView.SelectionClicks` | CrusadeOfAges/src/engine/view/PausedEdit.java:44 | each selection issues exactly one click request |
| `PausedEditView.SelectionSaves` | CrusadeOfAges/src/engine/view/PausedEdit.java:36-40 | the image is saved once per "Save" selection, and the creative-mode flag is cleared exactly when "Save" was selected |
| `PausedEditView.SelectionSpawn` | CrusadeOfAges/src/engine/view/PausedEdit.java:35-43 | spawning ends enabled exactly when the last selected of "Try", "Save", "Cancel" is "Try"; "Back" leaves it alone |
| `PausedEditView.EscapeThenSelections` | CrusadeOfAges/src/engine/view/PausedEdit.java:31-45 | Escape makes "edit" the active view unless a selection in the same frame overrides it |
| `PausedEditView.PausedEdit.constructor` | CrusadeOfAges/src/engine/view/PausedEdit.java:17-26 | four distinct new buttons: "Try" and "Back" go to "edit", "Save" and "Cancel" to "creativeMode" |
| `PausedEditView.PausedEdit.Update` | CrusadeOfAges/src/engine/view/PausedEdit.java:29-58 | one frame: Escape, then each selected button's effect in list order; each button's hover flags end as the pointer reports, and the hover sound is requested as `FrameHoverRequests` counts |
| `PausedEditView.PausedEdit.VisitButton` | CrusadeOfAges/src/engine/view/PausedEdit.java:34-56 | one turn of the button loop extends the handled prefix by one button |
| `PausedEditView.PausedEdit.Selected` | CrusadeOfAges/src/engine/view/PausedEdit.java:35-46 | a selection applies its label's side effect, one click and the navigation |
| `PausedEditView.PausedEdit.Render` | CrusadeOfAges/src/engine/view/PausedEdit.java:61-73 | the view's layout loop, as `LayOut` states |
| `PausedEditView.TableTargets` | CrusadeOfAges/src/engine/view/PausedEdit.java:22-25 | "Try"/"Back" lead to "edit" and "Save"/"Cancel" to "creativeMode" |
| `GameOverView.PlayerStats.SaveData` | StrozorEngine/src/sm/engine/view/GameOver.java:36 | saving the statistics is counted once per call |
| `GameOverView.SelectionNavigation` | StrozorEngine/src/sm/engine/view/GameOver.java:40-41 | after a frame with selections the state is the last selected button's goal state and the last state is 7; without selections neither changes |
| `GameOverView.SelectionEffects` | StrozorEngine/src/sm/engine/view/GameOver.java:36-41 | each selection clicks once and stops the jingle once; the statistics are saved once per selection whose label contains "Quit"; the once-flag survives only a frame without selections |
| `GameOverView.QuitLabels` | StrozorEngine/src/sm/engine/view/GameOver.java:21-22 | "Quit to title" contains "Quit" and "Try again" does not |
| `GameOverView.JingleAtMostOnce` | StrozorEngine/src/sm/engine/view/GameOver.java:28-31 | over frames with no selection, the jingle is requested at most once, and never if it already played |
| `GameOverView.JingleAfterReset` | StrozorEngine/src/sm/engine/view/GameOver.java:28-39 | a selection re-arms the guard, so the next frame arriving from state 1 requests the jingle again |
| `GameOverView.GameOver.constructor` | StrozorEngine/src/sm/engine/view/GameOver.java:16-23 | two distinct new buttons, "Try again" to state 1 and "Quit to title" to state 0; the once-flag is false |
| `GameOverView.GameOver.Update` | StrozorEngine/src/sm/engine/view/GameOver.java:26-53 | one frame: the jingle is requested once exactly when the last state is 1 and it has not played; then each selected button's effect in list order; the hover flags and requests as in the other views |
| `GameOverView.GameOver.CheckJingle` | StrozorEngine/src/sm/engine/view/GameOver.java:28-31 | the once-guarded jingle request |
| `GameOverView.GameOver.ButtonPass` | StrozorEngine/src/sm/engine/view/GameOver.java:34-52 | the button loop applies `AfterSelections` and the hover guard to every button |
| `GameOverView.GameOver.VisitButton` | StrozorEngine/src/sm/engine/view/GameOver.java:35-51 | one turn of the button loop extends the handled prefix by one button |
| `GameOverView.GameOver.Selected` | StrozorEngine/src/sm/engine/view/GameOver.java:35-42 | a selection saves on "Quit", clicks, stops and re-arms the jingle and moves to the goal state with last state 7 |
| `GameOverView.GameOver.Render` | StrozorEngine/src/sm/engine/view/GameOver.java:56-70 | the view's layout loop, as `LayOut` states |
| `GameOverView.QuitSavesStats` | StrozorEngine/src/sm/engine/view/GameOver.java:36 | in this view the statistics are saved exactly when "Quit to title" is selected |
| `CreaMenuView.SelectionNavigation` | StrozorEngine/src/com/strozor/view/CreaMenu.java:40-42 | one select sound per selection; after a frame with selections the state is the last selected button's goal state and the last state is 5 |
| `CreaMenuView.SaveByIdentity` | StrozorEngine/src/com/strozor/view/CreaMenu.java:36-39 | with distinct buttons, the image is saved and the level-list flag cleared exactly when the stored save button is selected |
| `CreaMenuView.NoSaveWithout` | StrozorEngine/src/com/strozor/view/CreaMenu.java:36-39 | buttons other than the stored one never save, whatever their label |
| `CreaMenuView.CreaMenu.constructor` | StrozorEngine/src/com/strozor/view/CreaMenu.java:19-26 | three distinct new buttons "Save"→8, "Cancel"→8, "Back"→4, with the first stored as `save` |
| `CreaMenuView.CreaMenu.Update` | StrozorEngine/src/com/strozor/view/CreaMenu.java:29-45 | Escape requests state 4, then each selected button's effect in list order; the hover flags are neither read nor written |
| `CreaMenuView.CreaMenu.Render` | StrozorEngine/src/com/strozor/view/CreaMenu.java:48-60 | the view's layout loop, as `LayOut` states |
| `CreaMenuView.MenuSaves` | StrozorEngine/src/com/strozor/view/CreaMenu.java:23-39 | only "Save" saves the image and clears the level-list flag; "Cancel" and "Back" do neither |
| `Launcher.ArgStep` | StrozorEngine/src/sm/CrusadeOfAges.java:61-65 | an argument that is not a flag changes nothing; only a flag can fail |
| `Launcher.CrusadeOfAges.constructor` | StrozorEngine/src/sm/CrusadeOfAges.java:17-19 | no folder, host "localhost", port 5338 |
| `Launcher.CrusadeOfAges.ManageArgs` | StrozorEngine/src/sm/CrusadeOfAges.java:59-67 | the index loop leaves the fields and the escaping exception as `ScanArgs` over all arguments gives them |
| `Launcher.CrusadeOfAges.Start` | StrozorEngine/src/sm/CrusadeOfAges.java:27-34 | the folder comes from `AppData` on Windows and the working directory elsewhere, then the arguments are applied |
| `Launcher.FaultStops` | StrozorEngine/src/sm/CrusadeOfAges.java:60-64 | after an exception, later arguments are not looked at |
| `Launcher.NoFlagsNoChange` | StrozorEngine/src/sm/CrusadeOfAges.java:60-65 | arguments that are not flags leave the defaults in place |
| `Launcher.AbsentFlagKeeps` | StrozorEngine/src/sm/CrusadeOfAges.java:60-65 | a flag that never occurs among the arguments leaves its setting unchanged, whatever the other flags do and even when the scan faults |
| `Launcher.ServerDefaultsKept` | StrozorEngine/src/sm/CrusadeOfAges.java:18-19 | without `-h` the host stays "localhost", and without `-p` the port stays 5338 |
| `Launcher.LastFlagWins` | StrozorEngine/src/sm/CrusadeOfAges.java:60-65 | when the arguments are accepted, each setting comes from the value after the last occurrence of its flag |
| `Launcher.FlagLast` | StrozorEngine/src/sm/CrusadeOfAges.java:62-64 | a flag in last position makes the loop fail, with an index out of range when nothing failed before |
| `Launcher.BadPortFails` | StrozorEngine/src/sm/CrusadeOfAges.java:64 | a `-p` whose value is not an int fails with a number-format error |
| `Launcher.ValueIsAlsoAFlag` | StrozorEngine/src/sm/CrusadeOfAges.java:60-65 | a consumed value is not skipped: in `-h -p 80` the host becomes "-p" and the port 80 |
| `Launcher.ConfigFolderOverridesOs` | StrozorEngine/src/sm/CrusadeOfAges.java:27-34 | a `-c` argument overrides the folder the operating system gave |

## Left out

- Screenshot capture, PNG writing and the timestamped file name (GameManager.java:61-71): file I/O and the clock. A successful screenshot is an input that adds one notification.
- `writeAppData`'s directory and file creation (GameManager.java:149-183): filesystem I/O. Only the default lines are kept, as data.
- `readOptions`' file opening and line reading: the file is given as its list of lines, or as missing. The `IOException` this catches is the missing-file case; a read error in the middle of the file is not modelled.
- `guiScale`: its value is kept as text. The `Float.valueOf` conversion, and the `NumberFormatException` it raises for a value that is not a float, are not modelled, because they are floating point.
- `Integer.parseInt`/`valueOf`: only ASCII digits are accepted. The non-ASCII Unicode digits that Java also accepts are not modelled.
- `main` of `CrusadeOfAges` after `manageArgs`: `Conf` loading, the socket connection and the game container start are configuration and network I/O. The OS name test is an `isWindows` input.
- `main` of `GameManager`: the single-argument test-map switch is a constructor parameter.
- Sound playback: `SoundClip` keeps only play and stop request counts. `isRunning` depends on playback time and is an input per button per frame.
- `isSelected`/`isHover`: `View` is not part of this model, so these are inputs per button per frame.
- `Button` heights: `Button.java` is not part of this model, so every view's constructor takes the button height as a parameter.
- `Manager.GameManager.Update`: the entity and notification updates are abstract steps. Each step sets only the dead or ended flag, from an input set. Movement, collisions, statistics and notification timers (the bodies of `Player`, `FlashNotif` and the other entities) are left out.
- `Manager.GameManager.Update`: the map animation `gameMap.animate(dt * 3)` and `camera.update` are left out. They are floating point, in classes that are not part of this model.
- `Manager.GameManager.Reload`: loading a level is recorded as the loaded path and a load counter. `GameMap.init` and `Image` decoding are left out.
- `getLevelList`, `getGameOver`, `isMapTesting`, `getMapTest`: plain accessors. Only the level path they determine is modelled.
- `Manager.GameManager.Reload`: the model keeps the level index at 0, its value after construction. `setCurrLevel` accepts any int, and an index outside the two-level list makes the reload fail with an array index error. Neither the setter nor that failure is modelled.
- `Options.ApplyLine`: a `guiScale` value that `Float.valueOf` cannot parse raises a number-format error in the source. The model stores the value text unchanged, because the float parse and the `Settings` field are not part of this model.
- `Image.java`: a thin wrapper over `javax.imageio`, and not part of this model.
- `GameObjects.GameObject`: the floating-point positions and their setters are left out. The abstract `render` is left out too.
- `render` methods: `fillRect`, `drawButton`, `drawMenuTitle`, the map and lights drawing, and `Settings.translate` are left out. Only the layout loop is modelled.
- `Buttons.LayOut`: it uses unbounded integers, so 32-bit overflow of `startY` for absurd heights is not modelled.
- `PausedEditView.PausedEdit.Update`: saving the image (`creaImg.saveIt`) is a counter of save requests.
- `CreaMenuView.CreaMenu.Update`: saving the image (`creaImg.saveIt`) is a counter of save requests.
- `GameOverView.PlayerStats.SaveData`: writing the statistics is a counter of save requests.
