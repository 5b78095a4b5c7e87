# A model of the todo Pomodoro application

This project models the program logic of `todo`, a desktop to-do list in Go
where each task is worked on in timed sessions ("Pomodoro" style). It then
proves properties of that model. The model covers:

- **The countdown `timer`** (`Timers`). It loses one second every five calls
  of `advance`, stops at 00:00 and renders itself as "MM:SS" into a
  five-rune buffer.
- **The `task`** (`Tasks`). A task counts completed sessions and is done
  once the count reaches the requirement. `startWork` always starts a full
  session.
- **The `Todo` application state** (`Todos`). It holds a fixed-capacity
  array of tasks and the selected task. `addTask` and signal-driven removal
  change it, and each frame advances every running timer.
- **The list column** (`Lists`). It holds the row geometry, the
  hover/selection logic of `update`, `addItem`, `removeItem` and
  `orderItems`. It also holds `OnAnimationEnd`, which turns the end of a
  "remove" animation into a signal.
- **The "Add new Task" form** (`AddWindows`). It has three counters, each
  clamped to 1..999 and shown through `numberToString`, a name input, and
  the "Add" button that produces a task request.
- **The keyframe animation engine of `anim`** (`Anim`). It covers the easing
  curves, property `advance`/`reset`, `AddProperty`, `SetPropertyRef`,
  `AddKey`, `Play`, `Reset` and `Update`.
- **The helpers of `utils.go`**:
  - `numberToString` (`Digits`);
  - `textBox` (`TextBoxes`);
  - rectangles, `rectLayout.cut` and `rectArray.update` (`Geometry`);
  - the in-place `copy` left shift (`Slices`).

Objects whose fields the program updates in place are classes:

- `Timer`,
- `Task`,
- `Todo`,
- `ListWindow`,
- `TextBox`,
- `RectLayout`,
- `RectArray`,
- `AddWindow`,
- `Animation`.

Value structs are datatypes.

Pointers into slices become indices:

- the selected task and the hovered or selected list row are `Option<nat>`
  slot indices;
- an animation property's `*float64` becomes a slot of a caller-owned
  `array<real>`.

Callbacks and signals become return values. For example,
`Animation.Update` returns the name its callback would receive, and
`AddWindow.OnClick` returns the task request it would fire.

The list window's `removeItem` ignores its argument. It always shifts from
`removeIndex`, which is never assigned and so is 0. The rows it keeps are
laid out again by position, so only the slots past the end show the
difference.

Notes on the code's behaviour:

- **Sessions follow one another directly.** A finished timer completes the
  session at once and reloads `sessionLength`:00; there is no rest phase.
  `startWork` always reloads a full session; it never resumes.
- **The store never grows.** Its growth test `count > len(tasks)` comes
  before the write and can never hold. A write into a full store would
  panic, so `addTask` needs a free slot.
- **The session count can pass the requirement.** `sessionCompleted` is not
  bounded by `sessionRequired`. The invariant proved instead is that
  `done` holds exactly when a positive requirement has been met.
- **A session lasts one extra second.** From m:s a running timer reports
  `finished` on call 5·(60·m + s + 1), one second's worth of calls later
  than 5·(60·m + s). The clock only stops on the second that rolls over
  from 00:00.

## Model

| member | source | states |
|---|---|---|
| Common.ToRune | utils.go:366 | a value in the int32 range is kept, anything else keeps its residue modulo 2^32 |
| Common.RuneToChar | addwindow.go:318 | a Unicode scalar value becomes that character (others become U+FFFD) |
| Common.RunesToString | addwindow.go:350 | the string has one character per rune, each the character of that rune |
| Slices.ShiftedLeft | todo.go:150 | defines what `copy(a[i:], a[i+1:])` leaves in the slice; ShiftedLeftAt states it slot by slot |
| Slices.ShiftedLeftAt | todo.go:150 | after `copy(a[i:], a[i+1:])` slot k holds a[k] before i, a[k+1] after it, and the last slot keeps its value |
| Slices.ShiftedLeftDuplicatesLast | todo.go:150 | `copy(a[i:], a[i+1:])` over any slot but the last leaves the last two slots equal, both the old last element |
| Slices.ShiftLeft | todo.go:150 | the in-place shift leaves exactly ShiftedLeft of the old contents |
| Digits.LsbDigits | utils.go:419-424 | defines the numerals the rem%10 loop writes, least significant first; LsbDigitsAreDigits and LsbDigitsCount state what they are |
| Digits.DecimalText | utils.go:403-430 | defines the text numberToString writes; DecimalTextParses, DecimalTextLength and LeadingDigitNonZero state its meaning |
| Digits.ToChar | utils.go:404-411 | a digit becomes its numeral; anything above 10 becomes rune 0 |
| Digits.Reverse | utils.go:425-427 | reversal keeps the length |
| Digits.ReverseAt | utils.go:425-427 | element k of the reversal is element n-1-k of the original |
| Digits.LsbDigitsAreDigits | utils.go:419-424 | the first loop of numberToString writes only numerals |
| Digits.LsbDigitsCount | utils.go:419-424 | a positive n gets as many digits as lie between the matching powers of ten |
| Digits.ParseReversedDigits | utils.go:419-427 | the reversed digit string reads back as n |
| Digits.DecimalTextParses | utils.go:403-430 | for every n >= 0 the text written is all numerals and reads back as n |
| Digits.DecimalTextLength | utils.go:413-428 | below 10 the text is two runes; from 10 on it has exactly n's number of digits and no leading '0' |
| Digits.LeadingDigitNonZero | utils.go:419-424 | the most significant digit of a positive number is not '0' |
| Digits.DecimalTextFitsThree | addwindow.go:37 | every value up to 999 fits a three-rune buffer |
| Digits.ReverseFront | utils.go:425-427 | the swap loop reverses buf[..n] in place and leaves the rest alone |
| Digits.NumberToString | utils.go:403-430 | writes DecimalText(n) at the front of buf, returns its length, and leaves the rest of buf unchanged |
| Geometry.BoundCheck | utils.go:78-80 | defines point-in-rectangle with the edges included; BoundCheckRelative and CutDisjoint are stated with it |
| Geometry.AddPoint | utils.go:71-76 | the rectangle is moved by p and keeps its size |
| Geometry.Sub | utils.go:82-84 | the difference added back to q gives p |
| Geometry.BoundCheckRelative | utils.go:609-611 | testing mPos minus the offset against a rectangle is testing mPos against the rectangle moved by the offset |
| Geometry.CutPiece | utils.go:531-565 | defines the strip each cut kind hands out; CutTiles and CutDisjoint state how it sits in the rectangle |
| Geometry.CutRest | utils.go:531-565 | defines what remains after each cut kind; CutTiles and CutDisjoint state how it sits beside the piece |
| Geometry.CutTiles | utils.go:531-565 | each cut splits the remaining rectangle along one axis into piece, padding and remainder that add up to the old extent |
| Geometry.CutDisjoint | utils.go:531-565 | with a positive padding the piece and the new remainder share no point |
| Geometry.RectLayout.constructor | utils.go:508-513 | a new layout has full and remaining equal to its rectangle |
| Geometry.RectLayout.Cut | utils.go:531-565 | returns a new layout of the cut piece, shrinks remaining as CutRest says, keeps full |
| Geometry.FirstHit | utils.go:610-619 | a hit found is an index into the elements |
| Geometry.FirstHitIsLeast | utils.go:610-619 | the hit is the first element containing the point; none exactly when no element contains it |
| Geometry.RectArray.constructor | utils.go:594-597 | an initialised array has no rectangles and no focus |
| Geometry.RectArray.SetOffset | utils.go:599-601 | only the offset changes |
| Geometry.RectArray.Add | utils.go:603-605 | the element is appended and nothing else changes |
| Geometry.RectArray.Update | utils.go:607-620 | focus is on exactly when some rectangle contains the relative point, on the first such; a left click reports its id |
| TextBoxes.TextBox.GetText | utils.go:481-483 | the text has charCount runes |
| TextBoxes.TextBox.constructor | utils.go:445-453 | an empty box with the cursor at the origin |
| TextBoxes.TextBox.AppendChar | utils.go:459-463 | the text gains r at its end and the cursor moves right by r's advance, keeping the cursor-after-text invariant |
| TextBoxes.TextBox.DeleteChar | utils.go:465-471 | the last rune is dropped (nothing happens on an empty box) and the cursor stays after the text |
| TextBoxes.TextBox.Clear | utils.go:473-479 | the text is empty and the cursor is home |
| TextBoxes.TypeAsWritten | addwindow.go:160-164 | defines the typing loop as written, every typed rune passed to AppendChar unchecked, with the panic as None |
| TextBoxes.TypeAsWrittenPanics | addwindow.go:160-164 | typing panics exactly when the text would pass 100 runes, and otherwise appends every rune |
| TextBoxes.HundredAndFirstRunePanics | utils.go:459-463 | a 100-rune name survives, and one more typed rune crashes the program |
| TextBoxes.TypeCapped | addwindow.go:160-164 | defines the intended typing loop, which drops runes that do not fit |
| TextBoxes.TypeCappedFits | addwindow.go:160-164 | the capped loop keeps what was typed cut at 100 runes, and agrees with the code wherever the code does not panic |
| Timers.AdvanceClock | utils.go:338-361 | defines one `advance` of the clock; AdvanceCountsDown, CountDownPrefix and FinishesExactlyOnce state its meaning |
| Timers.TwoRunes | utils.go:373-395 | defines the two runes one clock field is shown as; TwoRunesShowValue, TwoRunesAreDecimalText and TwoRunesTwoDigits state them |
| Timers.Render | utils.go:363-397 | defines the five-rune "MM:SS" buffer; RenderReadsBack states what it spells |
| Timers.AdvanceCountsDown | utils.go:338-361 | each call takes one call off the calls left; the call with one left finishes and stops at 00:00 |
| Timers.CountDownPrefix | utils.go:338-361 | before the last call the clock keeps running and counts down one call per call |
| Timers.StoppedStays | utils.go:341 | a stopped clock never changes again |
| Timers.BeforeTheEnd | utils.go:338-361 | no call before the last one reports finished |
| Timers.FinishesExactlyOnce | utils.go:338-361 | from m:s a running clock reports finished on call 5·(60m+s+1) and no other, and then stands at 00:00, stopped |
| Timers.TwoRunesShowValue | utils.go:373-395 | each clock field is shown as two numerals that read back as the field modulo 100 |
| Timers.TwoRunesAreDecimalText | utils.go:373-383 | below 100 a field is shown exactly as numberToString would show it |
| Timers.TwoRunesTwoDigits | utils.go:373-383 | a field 0..99 is shown as its tens and units numerals |
| Timers.RenderReadsBack | utils.go:363-397 | an in-range clock reads "MM:SS" |
| Timers.Timer.constructor | utils.go:314-320 | a zero timer: stopped at 0:0 with a zero buffer |
| Timers.Timer.SetDuration | utils.go:323-328 | loads m:s, clears the sub-tick, keeps running, and the buffer spells m:s |
| Timers.Timer.Start | utils.go:330-332 | only running changes (to true) |
| Timers.Timer.Stop | utils.go:334-336 | only running changes (to false) |
| Timers.Timer.Advance | utils.go:338-361 | the clock and result follow AdvanceClock; the text is re-rendered exactly on a completed second, so a correct display stays correct |
| Timers.Timer.UpdateString | utils.go:363-397 | the buffer afterwards spells Render(min, sec) |
| Tasks.Completed | task.go:25-31 | defines the state after completeSession; CompletedCounts states its invariant |
| Tasks.Started | task.go:33-36 | defines the state after startWork; Task.StartWork and SessionTakesItsLength are stated with it |
| Tasks.FrameStep | todo.go:102-110 | defines one task's step in the frame loop; FrameStepCounts, FramesFollowClock and StoppedTaskIdle state its meaning |
| Tasks.CompletedCounts | task.go:25-31 | completing adds one session, never clears done, sets done exactly when the count hits the requirement, keeps the counting invariant, and reloads a full session |
| Tasks.FrameStepCounts | todo.go:102-110 | one frame keeps the counting invariant and never clears done |
| Tasks.FramesFollowClock | todo.go:102-110 | until the session ends, frames only move the clock |
| Tasks.SessionTakesItsLength | todo.go:102-110 | a started session of L minutes completes nothing during its first 5·(60L+1)-1 frames and exactly one session on the next, leaving the timer stopped at L:00 |
| Tasks.StoppedTaskIdle | todo.go:104 | the frame loop leaves a stopped task alone |
| Tasks.Task.constructor | task.go:8-18 | a new task is not done, has no sessions and a zero timer |
| Tasks.Task.Init | task.go:21-23 | the timer holds sessionLength:00, displayed, running unchanged |
| Tasks.Task.CompleteSession | task.go:25-31 | the state becomes Completed(old state) and the display shows sessionLength:00 |
| Tasks.Task.StartWork | task.go:33-36 | a full session from the start, running, displayed |
| Lists.ButtonBelowRows | list.go:54-58 | the button starts exactly where a full list of initialTaskCap rows ends, every row lies above it, and a point on the button is never on a live row |
| Lists.RowItem | list.go:168-180 | defines the geometry of row i; RowsStack and RowAtBand state how rows sit |
| Lists.RowAt | list.go:76-77 | defines the index of the row under the mouse; RowAtBand states which row it is |
| Lists.Selection | list.go:76-89 | defines the row `update` returns; SelectionIsClickedRow states when and which |
| Lists.OnAddButton | list.go:90-95 | defines when `update` takes the "New Task" branch; ButtonBelowRows characterises it |
| Lists.RowsStack | list.go:168-180 | consecutive rows touch, every row spans the column, and its text position and check box lie inside it |
| Lists.TruncToInt | list.go:77 | Go's float-to-int conversion truncates toward zero |
| Lists.RowAtBand | list.go:76-78 | inside the column the computed index is the row whose band holds the point |
| Lists.SelectionIsClickedRow | list.go:76-89 | a click selects a row exactly when it is a left click in the column above the last row's bottom, and the row contains the click |
| Lists.OnAnimationEnd | list.go:284-290 | only the end of "remove" is reported, as todoTaskRemoveAnimationDone |
| Lists.ListWindow.constructor | list.go:53-59 | an empty list of initialTaskCap zero slots, nothing hovered or selected |
| Lists.ListWindow.AddItem | list.go:168-187 | the row for position count is written into the first free slot and count grows by one |
| Lists.ListWindow.RemoveItem | list.go:247-251 | one row fewer, the live rows laid out by position, the slots past the end as the shift from removeIndex left them |
| Lists.ListWindow.OrderItems | list.go:253-275 | every live row gets its position's geometry; other slots are untouched |
| Lists.ListWindow.Update | list.go:66-99 | hover, highlight, selection, "New Task" press and the returned row as functions of the mouse |
| Todos.FirstNamed | todo.go:147-149 | a found index is in range |
| Todos.FirstNamedIsLeast | todo.go:147-156 | the search finds the first task with the name, and none exactly when no task has it |
| Todos.FirstNamedAt | todo.go:147-156 | an index holding the name with no earlier one holding it is what the search finds |
| Todos.RemovesFirstNamesake | todo.go:145-156 | removing the selected task removes a task at or before it, and removes the selected one exactly when no earlier task has its name |
| Todos.Todo.constructor | todo.go:53-60 | an empty store of initialTaskCap slots, nothing selected, an empty list |
| Todos.Todo.AddTask | todo.go:128-139 | the initialised task lands in slot count with its request's fields, not done, no sessions, stopped at sessionLength:00 and displayed; other slots and the selection are unchanged |
| Todos.Todo.Store | todo.go:136-138 | the task is written into slot count and the list gains a row, keeping the store invariant |
| Todos.Todo.Place | todo.go:136-137 | slot count now holds the task and the live tasks stay distinct |
| Todos.Todo.OnSignal | todo.go:141-158 | todoTaskAdded adds the task; todoTaskRemoveAnimationDone removes the first namesake of the selected task and clears the selection; any other signal changes nothing |
| Todos.Todo.RemoveSelected | todo.go:145-156 | the task removed is the first with the selected task's name, the store is shifted left over it, and an empty store is left alone |
| Todos.Todo.RemoveAt | todo.go:150-153 | one task fewer, shifted left over slot i, a row fewer, no selection; unless slot i was the last, the last two slots then hold the old last task |
| Todos.Todo.CloseGap | todo.go:150-151 | the live tasks after the shift are the old ones without slot i, still distinct and valid |
| Todos.Todo.Update | todo.go:80-113 | Escape ends and changes nothing; otherwise the clicked row becomes the selection, "New Task" is reported exactly for a left click on the button, a timer click starts the selected task, and every task then makes exactly one FrameStep |
| Todos.Todo.Select | todo.go:91-94 | the selection becomes the clicked row, if any, and "New Task" is reported exactly for a left click on the button |
| Todos.Todo.StartSelected | todo.go:96-99 | only the selected task changes, to Started |
| Todos.Todo.AdvanceTimers | todo.go:101-110 | every live task makes exactly one FrameStep |
| Todos.Todo.StepAt | todo.go:103-109 | the task in slot i makes its FrameStep and no other task changes |
| Todos.Todo.FrameTask | todo.go:104-109 | one task's loop body is FrameStep, and a correct display stays correct |
| Anim.Shape | anim/animation.go:53-62 | defines the share of the change each easing has reached; ShapeMonotone states its order and range |
| Anim.Ease | anim/animation.go:48-64 | defines `ease`; EaseEnds and EaseMonotone state its meaning |
| Anim.Scale | anim/animation.go:49-52 | the ratio is capped at 1, is 1 from the duration on and is non-negative from time 0 |
| Anim.EaseEnds | anim/animation.go:48-64 | each easing gives start at time 0 and start + change from the duration on |
| Anim.ShapeMonotone | anim/animation.go:53-62 | each easing curve is monotone and maps [0,1] into [0,1] |
| Anim.EasedShareMonotone | anim/animation.go:48-64 | the eased share never goes back in time and stays within [0,1] from time 0 |
| Anim.EaseMonotone | anim/animation.go:48-64 | an easing only moves towards start + change as time grows, up for a non-negative change and down for a non-positive one |
| Anim.Advance | anim/animation.go:70-90 | defines `advance`; AdvanceBetween, AdvanceMonotone and LastKeyFinishes state its meaning |
| Anim.AdvanceBetween | anim/animation.go:70-90 | once its key has started, advance writes a value between the baseline and baseline + change, and past the key's end the next key starts from baseline + change |
| Anim.AdvanceMonotone | anim/animation.go:70-90 | within one key the written value moves monotonically towards baseline + change as the tick grows |
| Anim.LastKeyFinishes | anim/animation.go:70-90 | past its end the last key lands on baseline + change and reports finished |
| Anim.ResetProperty | anim/animation.go:92-98 | back to key 0 with baseline 0; writes startValue exactly when asked to |
| Anim.ResetForgets | anim/animation.go:92-98 | reset is idempotent and forgets any advance |
| Anim.ReplayStartsFromZero | anim/animation.go:92-98 | a fresh property eases from startValue but a reset one eases from 0 |
| Anim.Find | anim/animation.go:111-116 | the first property with the name, or none exactly when no property has it |
| Anim.Chained | anim/animation.go:144-147 | only the start time of the added key may change |
| Anim.Appended | anim/animation.go:140-152 | each AddKey adds one key |
| Anim.AppendedSchedule | anim/animation.go:140-152 | the first two keys keep the caller's start times and every later key starts where its predecessor ends |
| Anim.AdvanceAll | anim/animation.go:171-176 | the pass yields one advanced property per property and keeps the store's size |
| Anim.AdvanceAllKeepsShape | anim/animation.go:171-176 | a pass keeps every property's name, pointer and keys, so the animation invariant survives it |
| Anim.ResetAll | anim/animation.go:180-182 | the pass yields one reset property per property and keeps the store's size |
| Anim.AnyFinishedExists | anim/animation.go:170-176 | the loop's finished flag is set exactly when some property's advance reports finished |
| Anim.PutEachUntouched | anim/animation.go:171-182 | writing through pointers one after another leaves a slot nobody writes with its old value |
| Anim.PutEachLast | anim/animation.go:171-182 | after writing through pointers one after another, a slot holds the last value written to it |
| Anim.PutEachStore | anim/animation.go:171-182 | both of the above for any slot: untouched slots keep their value and the last write wins |
| Anim.AdvanceAllWrites | anim/animation.go:171-176 | the store after the advance loop is each property's eased value written through its pointer, in order |
| Anim.ResetAllWrites | anim/animation.go:180-182 | the store after the reset loop is the same in-order writes, where exactly the properties with resetToStartValue write their start value |
| Anim.Animation.constructor | anim/animation.go:100-106 | a named animation, stopped at tick 0, with no properties |
| Anim.Animation.AddProperty | anim/animation.go:109-128 | a known name changes nothing; a new one appends a keyless property with its start value as baseline |
| Anim.Animation.SetPropertyRef | anim/animation.go:130-138 | only the first property of that name changes, to the new slot; an unknown name changes nothing |
| Anim.Animation.AddKey | anim/animation.go:140-152 | the first property of that name gains the chained key; an unknown name changes nothing |
| Anim.Animation.Play | anim/animation.go:154-156 | only playing changes (to true) |
| Anim.Animation.Reset | anim/animation.go:158-162 | properties and store become ResetAll of the old ones |
| Anim.Animation.ResetProperties | anim/animation.go:159-161 | properties and store become ResetAll of the old ones |
| Anim.Animation.ResetEach | anim/animation.go:159-161 | the loop leaves ResetAll's properties and store |
| Anim.Animation.Update | anim/animation.go:164-186 | a stopped animation changes nothing; a playing one advances all properties at the next tick, and if any finished, resets them, stops, rewinds and returns its name |
| Anim.Animation.AdvanceProperties | anim/animation.go:170-176 | properties and store become AdvanceAll of the old ones, and the flag is AnyFinished |
| Anim.Animation.AdvanceEach | anim/animation.go:171-176 | the loop leaves AdvanceAll's properties and store and returns AnyFinished |
| Anim.Animation.AdvanceNext | anim/animation.go:172-175 | one pass of the loop extends the properties, the store and the flag to AdvanceAll and AnyFinished of one more property |
| AddWindows.Lowered | addwindow.go:265-269 | one less, never below 1 |
| AddWindows.Raised | addwindow.go:273-277 | one more, never above 999 |
| AddWindows.ButtonsUndoEachOther | addwindow.go:265-311 | the buttons keep a counter in range, undo each other inside it, and only the ends absorb a click |
| AddWindows.Shown | addwindow.go:348-358 | defines the text a counter is shown as; ShownReadsBack states what it reads as |
| AddWindows.ShownReadsBack | addwindow.go:348-358 | a counter's text fits its buffer and reads back as its value |
| AddWindows.AddWindow.constructor | addwindow.go:129-135 | the form starts at its minimums, formatted, dirty and inactive, with an empty name |
| AddWindows.AddWindow.FormatLength | addwindow.go:348-353 | both length texts and buffers show their values; nothing else changes |
| AddWindows.AddWindow.FormatCount | addwindow.go:355-358 | the count text and buffer show its value; nothing else changes |
| AddWindows.AddWindow.Request | addwindow.go:314-328 | the name is never empty: "Unnamed Task" when nothing was typed, otherwise the typed runes one character each |
| AddWindows.AddWindow.OnClick | addwindow.go:259-339 | a request comes out exactly for "Add", and it is the form's request; "Add" resets the form; other ids select the input or move one counter, or change nothing |
| AddWindows.AddWindow.Adjust | addwindow.go:260-311 | the input box selects the name input; a counter button moves only its counter within range; any known id marks the window dirty |
| AddWindows.AddWindow.Reopen | addwindow.go:329-337 | the form is back at its start: deselected, cleared, minimum counters, inactive, dirty |

## Left out

- Drawing, fonts, images and the theme: `Draw`, `draw`, `redraw`, `highlight` and the image helpers of utils.go. A font's glyph advance is a function parameter of `TextBox`.
- Input polling: keyboard and mouse state become method parameters (`escape`, `mPos`, `mLeft`, `timerClicked`).
- The main window, the archive and option windows, and `main.go`. The main window's timer button is the `timerClicked` parameter. mainwindow.go is not part of this model.
- The signal dispatcher and `AddSignalListener`/`FireSignal`. The model returns signals and requests instead of dispatching them.
- `addWindow.update` apart from its typing loop, `addWindow.OnSignal`, `addWindow.isInputHandled`, `isInputHandled` and the layout code of `addWindow.init`. Only the value part of `init` is modelled.
- The rectLayout getters `x`, `y`, `width` and `height`, and `Color.RGBA`.
- The animation loop of `listWindow.update` (list.go:101-118), the per-row animations that `addItem` builds, and `listWindow.OnSignal`. Rows are modelled without their animations.
- `SecondsToTicks`, and floating point in general: coordinates and animated values are reals, so rounding is not modelled.
- Anim.Animation.AddKey: requires a key of non-zero duration. In Go a zero duration makes `ease` divide by zero in float64, giving Inf or NaN, which reals cannot represent.
- Values of `EaseKind` and `rectCutKind` outside their enumerations. The model uses closed datatypes.
- A nil `*float64` property pointer. Every property points at a slot of the store.
- Todos.Todo.RemoveAt: `Todo.tasks` holds task references. After the in-place shift over any slot but the last, the last two of the 20 slots hold the same Task reference, whereas Go's `copy` leaves two copies of the value; removing the task in the last slot moves nothing. The last slot is always stale after a removal, and `addTask` only replaces a stale slot, never mutates the task in it.
- Todos.Todo.constructor: all `initialTaskCap` slots start as one shared zero task, whereas Go's `make([]task, initialTaskCap)` holds distinct values. Slots at or past `count` are never read before `addTask` overwrites them.
- Todos.Todo.Update: the per-task display (the timer buffer spelling the clock) is proved for each task's own operations (`Timer.Advance`, `Task.CompleteSession`, `Todo.FrameTask`, `Todo.AddTask`). It is not part of the store invariant.
- Lists.ListWindow.RemoveItem: requires at least one row. The source would drive `count` to -1, but its only caller removes a row that exists.
- Todos.Todo.OnSignal: requires a selection for a removal from a non-empty store, and a free slot for an addition. In both cases the source would otherwise dereference nil or index past the end and panic.
- TextBoxes.TextBox.AppendChar: requires room in the 100-rune buffer. Its only caller, the typing loop at addwindow.go:161-163, appends every typed rune without that check, so the 101st rune indexes `charBuf[100]` and Go panics. The loop itself is modelled on values by TypeAsWritten (see Findings).
- AddWindows.AddWindow.constructor: takes `minSessionCount`, which the program defines elsewhere, as a parameter and assumes it lies in 1..999.
- The task's `restLength` is carried in the request but has no field in a task. `task.ToString` is a constant and is not modelled.

## Findings

| source | as written | input that shows it | evidently intended | confidence | as-written member | corrected member |
|---|---|---|---|---|---|---|
| addwindow.go:161-163 | every typed rune goes to `AppendChar`, which writes `charBuf[charCount]` with no bound check (utils.go:459-463) | a name of 100 runes, then one more typed rune: the write to `charBuf[100]` panics | runes that no longer fit the 100-rune buffer are dropped | high, not executed | TextBoxes.TypeAsWritten, TextBoxes.HundredAndFirstRunePanics | TextBoxes.TypeCapped, TextBoxes.TypeCappedFits |
