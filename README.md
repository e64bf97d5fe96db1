# Epiar support components in Dafny

This project models six small, self-contained parts of the Epiar space game
engine and proves properties of them:

- **Crop-rectangle stack** (`video.dfy`, module `Graphics`). Widgets push the
  region they may draw into. A nested push records the intersection with the
  region already in force, clamped to a non-negative size. A pop restores the
  enclosing region. The scissor box handed to the graphics library is kept as
  state, with its y axis flipped against the screen height.
- **Input bookkeeping** (`input.dfy`, module `InputEvents`, with `seqs.dfy`).
  This covers the per-frame event list, the held-key table, and how a key
  press becomes a "typed" character under shift. It also covers mouse-button
  states, the key-to-command bindings and the pass that consumes bound
  events, and the search for a trigger event and its removal.
- **Text box** (`textbox.dfy`, module `TextboxWidget`): the row height and
  padding computed from the font's line height, and the key handling that
  edits the text.
- **Logger state** (`log.dfy`, module `Logging`). This covers level names and
  their reverse lookup, the level and filter setters, and the gate that
  decides whether a message is written. It also covers the clipping and
  newline trim of a formatted message, and the timestamp used in the log
  file's name.
- **XML path lookup** (`xml.dfy`, module `XmlPath`). A `/`-separated path is
  cut into a queue of segments. A cursor then walks an element tree, given
  here as a datatype of name, text and children.
- **Point-in-rectangle test** (`ui.dfy`, module `Ui`): the half-open
  `WITHIN_BOUNDS` test.

Where the code mutates state, the model is imperative. The crop stack, the
input processor, the logger and the text box are classes whose methods change
their fields. The held-key table is an `array<bool>`. The timestamp rewrite
edits a `char` array. The XML file holds its parsed document. Its `Get` and
`Tokenize` are loops over local state, a cursor and a queue, and leave the
file unchanged. Most methods are proved against a specification function,
and the properties of those functions are proved as lemmas. The setters and
the trigger search state their results directly.

Several properties describe the code as written, including behaviour that
looks unintended:

- The function filter drops the functions whose name *starts with* the
  filter, because the code compares `find` with `false`. The code's own
  comment calls this filtering broken.
- The message filter is stored but never consulted when a message is logged.
- The XML walk compares the current segment with the last segment by value,
  not by position.
- The XML walk skips the first child after descending into an element.
- Descending into an element without children dereferences a null pointer.
- Under the assumed level ordering (below), the default level drops Fatal,
  Error, Warn and Info messages.

Declarations the code relies on but that are not part of this model:
`src/input/input.h` (the event type, its enumerations and its comparison
operators), `src/utilities/log.h` (the `LogLevel` enumeration and the
`LogMsg` macro), and SDL's key and button constants. The model makes these
assumptions about them:

- Key and button codes are those of SDL 1.2 (`SDLK_LAST` = 323, shift keys
  303/304, keypad enter 271, buttons 1..5). `src/includes.h:45` includes the
  SDL 2 header, and `Textbox::KeyPress` takes an `SDL_Keycode`. However, the
  modelled code uses `SDLK_LAST`, `SDL_BUTTON_WHEELUP` and `SDLK_RMETA`, which
  exist only in SDL 1.2, so the SDL 1.2 values are used. `KeyPress` takes the
  key's name as a parameter and compares it with "backspace" and "space".
  SDL 2's key names ("Backspace", "Space") would take the append branch
  instead; the parameter leaves that case open.
- Event equality is structural, and the binding map's ordering agrees with it.
- `UNHANDLED` is the mouse state that the handlers' `if (state)` treats as false.
- The log levels are ordered as the logger registers their names (None, Fatal,
  Error, Warn, Info, Debug), with Invalid after them. Together with the gate
  in `Log::realLog`, which drops every level below the current one, this
  ordering makes the default level Debug keep only Debug messages, while None
  keeps every message. That is the reverse of the verbosity order the
  `--log-lvl` option's help text lists (src/main.cpp:277-278). If the
  enumeration were declared in the opposite order, the gate would behave as
  the help text suggests.

## Model

| member | source | states |
|---|---|---|
| `Ui.WithinBounds` | src/ui/ui.h:21 | a point inside implies positive width and height and lies in the half-open box; points on the right or bottom edge are never inside |
| `Ui.CornerWithin` | src/ui/ui.h:21 | the corner is inside exactly when width and height are positive |
| `Ui.DegenerateIsEmpty` | src/ui/ui.h:21 | a rectangle with w <= 0 or h <= 0 contains no point |
| `Ui.TranslationInvariant` | src/ui/ui.h:21 | shifting point and rectangle by the same offset keeps the answer |
| `Graphics.FirstPushUnchanged` | src/graphics/video.cpp:498-504 | on an empty stack the requested rectangle is recorded unchanged |
| `Graphics.Nested` | src/graphics/video.cpp:508-521 | defines the nested crop: left/top edges are the maxima, right/bottom edges the minima, and width and height are clamped at zero |
| `Graphics.NewTop` | src/graphics/video.cpp:498-524 | defines the rectangle a push records: the request itself on an empty stack, else its nesting in the top |
| `Graphics.BoxFor` | src/graphics/video.cpp:527 | defines the scissor box issued for a crop rectangle: x, the y axis flipped against the screen height (screen height - (y + h)), width and height |
| `Graphics.ScissorFor` | src/graphics/video.cpp:539-545 | defines the scissor state that matches a stack: off when it is empty, the top's box otherwise |
| `Graphics.NestedNonNegative` | src/graphics/video.cpp:520-521 | a nested crop never has negative width or height |
| `Graphics.NestedIsIntersection` | src/graphics/video.cpp:508-521 | a point is inside the nested crop exactly when it is inside both the previous crop and the requested rectangle |
| `Graphics.NestedEnclosed` | src/graphics/video.cpp:515-518 | with overlap, the nested crop lies within both rectangles and its right/bottom edges are the minima of theirs |
| `Graphics.NestedDisjointIsEmpty` | src/graphics/video.cpp:517-521 | without overlap, the nested crop has zero width or zero height |
| `Graphics.Video.SetCropRect` | src/graphics/video.cpp:495-528 | the stack grows by exactly one entry, the max/min intersection of the previous top (or the request itself on an empty stack); lower entries are untouched; the scissor box matches the new top |
| `Graphics.Video.UnsetCropRect` | src/graphics/video.cpp:532-546 | pops exactly one entry, or only warns on an empty stack; scissoring follows the new top or is turned off |
| `Graphics.Video.CropAndRelease` | src/ui/ui_textbox.cpp:65-72 | a set followed by an unset restores the stack and the scissor state |
| `InputEvents.CheckMouseState` | src/input/input.cpp:137-152 | a release is handled exactly for buttons 1..5, a press exactly for buttons 1..3; wheel presses and unknown buttons are Unhandled |
| `InputEvents.MouseStateDetermined` | src/input/input.cpp:137-152 | a handled state identifies the button and direction it came from |
| `InputEvents.ShiftedPunctuation` | src/input/input.cpp:234-259 | the shift table: exactly the eleven punctuation keys change, each into a printable character that is neither a digit nor a lower-case letter; other keys stay as they are |
| `InputEvents.TypedLetter` | src/input/input.cpp:222-266 | return and keypad enter give '\n' regardless of shift; unshifted keys type themselves; shifted letters become the upper-case letter 32 below; shifted digits map through ")!@#$%^&*(" and are no longer digits; shifted punctuation goes through the shift table and changes; any other shifted key types itself |
| `InputEvents.Dispatch` | src/input/input.cpp:87-119 | handling the frame's window events stops exactly when a quit request occurs |
| `InputEvents.DispatchStopsAtQuit` | src/input/input.cpp:89-90 | nothing after a quit request is handled |
| `InputEvents.Translate` | src/input/input.cpp:156-220 | defines the events one window event appends: motion, the handled mouse state (nothing when Unhandled), KeyDown followed by KeyTyped with the translated character, or KeyUp |
| `InputEvents.HeldAfter` | src/input/input.cpp:203-220 | defines the held-key table after one window event: a key press sets the key's flag, a release clears it; the table keeps its size |
| `InputEvents.HeldUpTo` | src/input/input.cpp:121-125 | defines the held-key pass over the first n keys: one KeyPressed per held key, in key order |
| `InputEvents.HeldEvents` | src/input/input.cpp:121-125 | defines the held-key pass over the whole table: one KeyPressed per held key, in key order |
| `InputEvents.HeldUpToExact` | src/input/input.cpp:121-125 | the held-key pass emits a KeyPressed event for a key exactly when it is held |
| `InputEvents.HeldUpToAscending` | src/input/input.cpp:121-125 | the held-key events come in strictly ascending key order |
| `InputEvents.HeldEventsExact` | src/input/input.cpp:121-125 | over the whole table: exactly the held keys, ascending |
| `InputEvents.Registered` | src/input/input.cpp:292-294 | inserting a binding adds the event and never overwrites an existing binding |
| `InputEvents.Unregistered` | src/input/input.cpp:298-300 | erasing removes exactly that event's binding |
| `InputEvents.UnregisterUndoesRegister` | src/input/input.cpp:292-300 | unregistering a freshly registered event restores the bindings |
| `InputEvents.Unbound` | src/input/input.cpp:276-288 | defines the events the callback pass keeps: those without a binding, in order |
| `InputEvents.BoundCommands` | src/input/input.cpp:276-288 | defines the commands the callback pass runs: the binding of each bound event, in event order |
| `InputEvents.CallBacksPartition` | src/input/input.cpp:276-288 | each event is either kept or runs exactly one command |
| `InputEvents.Without` | src/input/input.cpp:327 | defines the list with every copy of the trigger removed, order kept |
| `InputEvents.WithoutSpec` | src/input/input.cpp:327 | after removal the trigger is absent, every other event keeps its count, and removal distributes over concatenation (order kept) |
| `InputEvents.WithoutAbsent` | src/input/input.cpp:324-330 | removing an absent trigger changes nothing |
| `InputEvents.Input.constructor` | src/input/input.cpp:75-78 | no key is held, no events, no bindings |
| `InputEvents.Input.PushTypeEvent` | src/input/input.cpp:222-272 | appends exactly one KeyTyped event carrying the translated character and changes nothing else |
| `InputEvents.Input.HandleKeyDown` | src/input/input.cpp:203-211 | appends KeyDown then KeyTyped (shift read before the key is marked) and marks the key held |
| `InputEvents.Input.HandleKeyUp` | src/input/input.cpp:215-220 | appends KeyUp and clears the held flag |
| `InputEvents.Input.HandleMouseDown` | src/input/input.cpp:172-184 | appends the button's down state, or nothing when it is Unhandled |
| `InputEvents.Input.HandleMouseUp` | src/input/input.cpp:188-199 | appends the button's up state, or nothing when it is Unhandled |
| `InputEvents.Input.HandleMouseMotion` | src/input/input.cpp:156-168 | appends one motion event with the pointer position |
| `InputEvents.Input.Update` | src/input/input.cpp:82-133 | the list is cleared, the window events are handled in order, then one KeyPressed per held key is appended in ascending order; the returned list is that list; quit exactly when a quit request arrives |
| `InputEvents.Input.RegisterCallBack` | src/input/input.cpp:292-294 | the bindings become the map insert of the new binding |
| `InputEvents.Input.UnRegisterCallBack` | src/input/input.cpp:298-300 | the bindings lose that event |
| `InputEvents.Input.HandleLuaCallBacks` | src/input/input.cpp:276-288 | keeps exactly the unbound events in order and runs each bound event's command once, in event order |
| `InputEvents.Input.SearchSpecificEvent` | src/input/input.cpp:308-317 | returns whether the trigger occurs; the list is not changed |
| `InputEvents.Input.HandleSpecificEvent` | src/input/input.cpp:324-330 | returns the same answer as the search, and the result is the list with every copy of the trigger removed |
| `TextboxWidget.CDiv` | src/ui/ui_textbox.cpp:41-42 | C++ division: the quotient truncates toward zero |
| `TextboxWidget.RowHeight` | src/ui/ui_textbox.cpp:41 | for a non-negative line height: a multiple of 10, at least the line height and less than 10 above it |
| `TextboxWidget.RowHeightLeast` | src/ui/ui_textbox.cpp:41 | no smaller multiple of 10 holds the line |
| `TextboxWidget.RowHeightNegative` | src/ui/ui_textbox.cpp:41 | with a negative line height the truncating division shows (-15 gives 0) |
| `TextboxWidget.RowPad` | src/ui/ui_textbox.cpp:42 | for a non-negative line height the pad is 0..4 and centres the line within one pixel |
| `TextboxWidget.Edited` | src/ui/ui_textbox.cpp:106-119 | backspace removes exactly the last character (empty stays empty); space appends one ' '; any other key appends its character, or nothing when the stream skips it as whitespace; otherwise the text grows by at most one |
| `TextboxWidget.BackspaceUndoesAppend` | src/ui/ui_textbox.cpp:109-117 | typing a printable character then backspace restores the text |
| `TextboxWidget.Textbox.constructor` | src/ui/ui_textbox.cpp:31-51 | the height is rows times the rounded row height, the pad is the centring pad, and position, width, name and text are stored |
| `TextboxWidget.Textbox.KeyPress` | src/ui/ui_textbox.cpp:77-120 | modifier, escape and arrow keys return false and leave the text alone; every other key returns true and edits the text |
| `Logging.LevelNamed` | src/utilities/log.cpp:180-185 | the level is exactly the one registered under the name, or Invalid when none is |
| `Logging.NameRoundTrip` | src/utilities/log.cpp:180-185 | each of the six registered names leads back to its level |
| `Logging.LookUpCaseSensitive` | src/utilities/log.cpp:244 | "debug", "DEBUG" and "" are not level names |
| `Logging.FindFrom` | src/utilities/log.cpp:109 | the first occurrence at or after the start position, or -1 when there is none |
| `Logging.FindZeroIffPrefix` | src/utilities/log.cpp:109 | find returns 0 exactly when the name starts with the filter |
| `Logging.Passes` | src/utilities/log.cpp:103-112 | defines the gate: a level below the current one is dropped, and with a function filter set so is a function name in which find returns 0 |
| `Logging.DefaultLevelKeepsOnlyDebug` | src/utilities/log.cpp:103-105 | under the assumed level ordering, the default level Debug lets a message through exactly when it is a Debug message |
| `Logging.NoneKeepsEverything` | src/utilities/log.cpp:103-105 | under the assumed level ordering, the level None lets every message through |
| `Logging.PassesExactly` | src/utilities/log.cpp:102-112 | a message is written exactly when its level is not below the current one and, with a filter set, its function name does not start with the filter |
| `Logging.FuncFilterInverted` | src/utilities/log.cpp:98-112 | the function the filter names is dropped and functions not starting with it are kept |
| `Logging.Clipped` | src/utilities/log.cpp:116-125 | the formatted message's first min(length, 4095) characters: a prefix of the original of exactly that length |
| `Logging.Trimmed` | src/utilities/log.cpp:129 | a message ending in '\n' loses exactly that newline; any other is unchanged |
| `Logging.TrimsOnlyOne` | src/utilities/log.cpp:129 | only one trailing newline is removed |
| `Logging.CString` | src/utilities/log.cpp:233 | the text read from a char buffer has no NUL and is a prefix of the buffer |
| `Logging.Log.constructor` | src/utilities/log.cpp:177-187 | the level starts at the default (Debug) |
| `Logging.Log.ReverseLookUp` | src/utilities/log.cpp:239-249 | the search over the registered names returns the level registered under the name, else Invalid |
| `Logging.Log.SetLevelNamed` | src/utilities/log.cpp:28-42 | a known name sets that level and returns true; an unknown one reverts to the default and returns false |
| `Logging.Log.SetLevel` | src/utilities/log.cpp:45-51 | always sets the level and returns true |
| `Logging.Log.SetFuncFilter` | src/utilities/log.cpp:54-62 | the stored function filter equals the argument (empty clears it) |
| `Logging.Log.SetMsgFilter` | src/utilities/log.cpp:65-72 | the stored message filter equals the argument (empty clears it) |
| `Logging.Log.RealLog` | src/utilities/log.cpp:101-174 | a message failing the gate changes nothing; one passing it is handed to output once, clipped and trimmed |
| `Logging.Log.GetTimestamp` | src/utilities/log.cpp:219-236 | drops the last character and puts '_' at positions 13 and 16, everything else unchanged; on ctime's text the result has no ':' |
| `XmlPath.Parts` | Utilities/xml.cpp:66-75 | defines the path cut at every '/' (the pushed buffers plus the buffer left at the end); never empty |
| `XmlPath.Segments` | Utilities/xml.cpp:66-76 | defines the queue: the parts, without the last one when it is empty |
| `XmlPath.Walk` | Utilities/xml.cpp:89-111 | defines the cursor walk: a match named like the last segment is the answer; another match descends and then steps to the next sibling; a childless match follows a null pointer; the end of the siblings is not found |
| `XmlPath.Lookup` | Utilities/xml.cpp:79-87 | defines the lookup: no root gives not found, otherwise the walk starts at the root with the whole queue |
| `XmlPath.PartsSpec` | Utilities/xml.cpp:66-75 | joining the parts with '/' gives the path; no part holds '/'; the last part is empty exactly when the path is empty or ends in '/' |
| `XmlPath.SegmentsSpec` | Utilities/xml.cpp:66-76 | no segment holds '/'; joining the segments gives the path minus at most one trailing '/'; only the empty path has no segments |
| `XmlPath.SegmentsExamples` | Utilities/xml.cpp:66-76 | "a//b" gives a, "", b and "a/b/" gives a, b |
| `XmlPath.FoundNamedLast` | Utilities/xml.cpp:94-102 | whatever the walk finds is named like the path's last segment |
| `XmlPath.NonMatchAdvances` | Utilities/xml.cpp:89-111 | a node whose name differs moves the cursor to its next sibling |
| `XmlPath.LastSegmentByValue` | Utilities/xml.cpp:99-102 | in "a/b/a" the root "a" is already the answer, as segments are compared by value |
| `XmlPath.WalkSuffix` | Utilities/xml.cpp:89-111 | the walk from a cursor depends only on the cursor and the siblings after it |
| `XmlPath.DescentSkipsFirstChild` | Utilities/xml.cpp:103-111 | after any descent the first child is never examined: replacing it by any node leaves the outcome unchanged |
| `XmlPath.ChildlessDescentFails` | Utilities/xml.cpp:103-111 | any descent into an element without children follows a null pointer |
| `XmlPath.FirstChildSkipped` | Utilities/xml.cpp:103-111 | example: "a/b" is not found when "b" is the first child of "a", and is found when it comes second |
| `XmlPath.ChildlessDescentDereferencesNull` | Utilities/xml.cpp:105-111 | example: "a/b" on a childless root "a" follows a null pointer |
| `XmlPath.XmlFile.Tokenize` | Utilities/xml.cpp:64-76 | the character loop produces exactly the segments |
| `XmlPath.XmlFile.Get` | Utilities/xml.cpp:60-116 | the cursor loop gives exactly the lookup's outcome: empty without a root, else the walk over the root |

## Left out

- The sprite registry and its quadrant index (`Source/Sprites/spritemanager.h`): only the declarations exist, and positions are floating point.
- Rendering, audio, the scripting bridge, the game loop and model/engine loading: I/O and floating point.
- Rectangle fields are plain integers, and sums such as `x + w` do not wrap at 32 bits. The code converts the fields with `TO_INT`.
- `TextboxWidget.Textbox.constructor`: `lineHeight + 9` and `rows * rowHeight` are unbounded integers. The code's 32-bit `int` arithmetic would overflow for huge line heights or row counts, and the model does not capture that.
- `Graphics.Video.UnsetCropRect`: the warning is returned as a flag instead of being logged.
- `InputEvents.Input.Update`: the mouse-fade timer and the mouse show/hide calls are not modelled. On a quit request the program exits, so the event list at that point is left unspecified.
- `InputEvents.Input.HandleLuaCallBacks`: running a command is recorded in `ran` and not executed. A command that changes the bindings while the pass runs is not modelled.
- `InputEvents.Input.PushTypeEvent`: it appends to the input's own list, the list every caller passes.
- The stream output operator and `PrintEvents` write to the console and are not modelled.
- `Logging.Log.RealLog`: the console, on-screen alert and XML file outputs are folded into one record of written entries. The `time()`/`ctime` call is not modelled. A formatted message is taken as given, already free of NUL characters.
- `Logging.Log.RealLog`: for an empty formatted message the code reads the byte before the buffer. The model leaves such a message unchanged.
- `Logging.Log.SetLevelNamed`, `Logging.Log.SetLevel`, `Logging.Log.SetFuncFilter`, `Logging.Log.SetMsgFilter`: the diagnostic messages these setters log about themselves, and the console line `SetLevel` prints, are not modelled. Which function name they log under depends on the `LogMsg` macro, which is not part of this model.
- `Logging.Log.GetTimestamp`: the text of `ctime` is a parameter.
- `Log::Open` and `Log::Close` are file I/O and are not modelled.
- `XmlPath.XmlFile.Get`: a found element is returned as a node. The text libxml would concatenate from its children is the node's `text` field. For an element without children, libxml returns a null string, which the code converts to a `string`; that case is not modelled.
- `XmlPath.XmlFile.Get`: the root element has no following siblings in this model.
- `XmlPath.XmlFile.Get`: on a document without a root, the code logs the warning "XML file () appears to be empty." before it returns the empty string. The model returns NotFound and does not record the warning.
- `XmlPath.XmlFile.Get`: requires a non-empty path when the document has a root. With an empty path the code reads the front of an empty queue, which has undefined behaviour.
- `XMLFile::Open` and `XMLFile::Close` (file reading and parsing) are not modelled. The parsed document is given to the constructor.
- Text box drawing and the cursor blink depend on the clock and the renderer. SDL's key names are a parameter of `KeyPress`.
