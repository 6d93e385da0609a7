/**
 * The drawing page: the undo/redo history of canvas snapshots (an array and a
 * cursor, truncated when a new stroke is saved), the undo/redo buttons, the
 * keyboard shortcuts, the pointer flags and the check of the pig's name before
 * submission. A snapshot is the string `canvas.toDataURL()` returns; painting
 * itself is rendering and is represented only by the snapshot it leaves.
 */
module Draw {
  import opened Wrappers
  import Text
  import Schema
  import Network
  import Handlers

  /** The history as a value: the snapshots and the cursor. */
  datatype History = History(entries: seq<string>, step: int)

  /** The cursor points at a snapshot; true from the first save on. */
  predicate Inside(h: History) {
    0 <= h.step < |h.entries|
  }

  /** The cursor is on a snapshot or, before the first save, just before an empty list. */
  predicate Saveable(h: History) {
    -1 <= h.step < |h.entries|
  }

  /** `saveState`: advance the cursor, drop everything from it on, and push the snapshot. */
  function Saved(h: History, snapshot: string): (r: History)
    requires Saveable(h)
    ensures Inside(r)
    ensures r.step == h.step + 1 == |r.entries| - 1
    ensures r.entries == h.entries[..h.step + 1] + [snapshot]
  {
    var k := h.step + 1;
    History((if k < |h.entries| then h.entries[..k] else h.entries) + [snapshot], k)
  }

  /** `undo`: step back when not at the first snapshot. */
  function Undone(h: History): (r: History)
    ensures r.entries == h.entries
    ensures Inside(h) ==> Inside(r)
    ensures h.step > 0 ==> r.step == h.step - 1
    ensures h.step <= 0 ==> r == h
  {
    if h.step > 0 then h.(step := h.step - 1) else h
  }

  /** `redo`: step forward when not at the last snapshot. */
  function Redone(h: History): (r: History)
    ensures r.entries == h.entries
    ensures Inside(h) ==> Inside(r)
    ensures h.step < |h.entries| - 1 ==> r.step == h.step + 1
    ensures h.step >= |h.entries| - 1 ==> r == h
  {
    if h.step < |h.entries| - 1 then h.(step := h.step + 1) else h
  }

  /** `undoBtn.disabled`. */
  predicate UndoDisabled(h: History) {
    h.step <= 0
  }

  /** `redoBtn.disabled`. */
  predicate RedoDisabled(h: History) {
    h.step >= |h.entries| - 1
  }

  /** A disabled button is exactly a button whose action does nothing. */
  lemma ButtonsMatchActions(h: History)
    ensures UndoDisabled(h) <==> Undone(h) == h
    ensures RedoDisabled(h) <==> Redone(h) == h
  {
    if !UndoDisabled(h) {
      assert Undone(h).step != h.step;
    }
    if !RedoDisabled(h) {
      assert Redone(h).step != h.step;
    }
  }

  /** An undo that moved, then a redo, is back where it started; and the other way round. */
  lemma UndoThenRedo(h: History)
    requires Inside(h)
    ensures h.step > 0 ==> Redone(Undone(h)) == h
    ensures h.step < |h.entries| - 1 ==> Undone(Redone(h)) == h
  {
  }

  /** After a save there is nothing to redo, and one undo shows the snapshot the cursor was on. */
  lemma SaveThenRedoUndo(h: History, snapshot: string)
    requires Inside(h)
    ensures Redone(Saved(h, snapshot)) == Saved(h, snapshot)
    ensures RedoDisabled(Saved(h, snapshot))
    ensures Undone(Saved(h, snapshot)).entries[Undone(Saved(h, snapshot)).step] == h.entries[h.step]
  {
    var r := Saved(h, snapshot);
    assert r.entries[h.step] == h.entries[..h.step + 1][h.step];
  }

  /** What `restoreState` paints: the snapshot under the cursor. */
  function Current(h: History): string
    requires Inside(h)
  {
    h.entries[h.step]
  }

  /** A `keydown` event, with the fields the shortcut handler reads. */
  datatype KeyEvent = KeyEvent(key: string, ctrlKey: bool, metaKey: bool, shiftKey: bool)

  datatype Shortcut = UndoKey | RedoKey | NoShortcut

  /** The keyboard mapping: Ctrl/Cmd with key `z` undoes; Ctrl/Cmd with key `z` and Shift, or with key `y`, redoes. */
  function ShortcutOf(e: KeyEvent): (s: Shortcut)
    ensures s == UndoKey <==> (e.ctrlKey || e.metaKey) && e.key == "z" && !e.shiftKey
    ensures s == RedoKey <==> (e.ctrlKey || e.metaKey) && ((e.key == "z" && e.shiftKey) || e.key == "y")
    ensures !e.ctrlKey && !e.metaKey ==> s == NoShortcut
  {
    if (e.ctrlKey || e.metaKey) && e.key == "z" then (if e.shiftKey then RedoKey else UndoKey)
    else if (e.ctrlKey || e.metaKey) && e.key == "y" then RedoKey
    else NoShortcut
  }

  /** The pointer events `startDrawing` reads. */
  datatype Pointer = Pointer(pointerType: string, button: int)

  /** Only the left mouse button, a pen or a finger starts a stroke. */
  predicate StartsStroke(p: Pointer) {
    !(p.pointerType == "mouse" && p.button != 0)
  }

  const MsgNoName: string := "请给你的猪起个名字！"
  const MsgLongName: string := "名字最多20个字哦！"

  datatype NameCheck = Accepted(name: string) | Refused(message: string)

  /** The submit button's check of the trimmed name, before any request. */
  function CheckName(input: string): (c: NameCheck)
    ensures c.Accepted? <==> 1 <= |Text.Trim(input)| <= Schema.MaxNameLength
    ensures c.Accepted? ==> c.name == Text.Trim(input)
    ensures Text.Trim(input) == "" ==> c == Refused(MsgNoName)
  {
    var name := Text.Trim(input);
    if name == "" then Refused(MsgNoName)
    else if |name| > Schema.MaxNameLength then Refused(MsgLongName)
    else Accepted(name)
  }

  /**
   * A name the page accepts, sent with the canvas's PNG data URL, passes every body
   * check of the server's submission handler: only the rate limit can still refuse it.
   */
  lemma AcceptedNamePassesServer(input: string, image: string)
    requires CheckName(input).Accepted?
    requires Text.StartsWith(image, "data:image/png")
    ensures Handlers.ValidSubmission(Some(CheckName(input).name), Some(image))
  {
    var name := CheckName(input).name;
    assert 1 <= |name| <= Schema.MaxNameLength;
    Text.PrefixTrans(Handlers.ImagePrefix, "data:image/png", image);
  }

  /** The page's drawing state: the module-level variables the event handlers change. */
  class Board {
    var drawHistory: seq<string>
    var historyStep: int
    var isDrawing: bool
    var isEraser: bool
    /** What the canvas shows now, as `canvas.toDataURL()` would render it. */
    var picture: string
    var undoDisabled: bool
    var redoDisabled: bool

    function Snapshot(): History
      reads this
    {
      History(drawHistory, historyStep)
    }

    /** The buttons show the history's state. */
    ghost predicate Valid()
      reads this
    {
      && Inside(Snapshot())
      && undoDisabled == UndoDisabled(Snapshot())
      && redoDisabled == RedoDisabled(Snapshot())
    }

    /** Page load: a white canvas, no stroke in progress, and the initial `saveState()`. */
    constructor (blank: string)
      ensures Valid()
      ensures drawHistory == [blank] && historyStep == 0
      ensures picture == blank && !isDrawing && !isEraser
    {
      drawHistory := [];
      historyStep := -1;
      isDrawing := false;
      isEraser := false;
      picture := blank;
      undoDisabled := false;
      redoDisabled := false;
      new;
      SaveState();
    }

    /** `updateUndoRedoButtons`. */
    method UpdateUndoRedoButtons()
      modifies this
      ensures undoDisabled == UndoDisabled(Snapshot()) && redoDisabled == RedoDisabled(Snapshot())
      ensures drawHistory == old(drawHistory) && historyStep == old(historyStep)
      ensures isDrawing == old(isDrawing) && isEraser == old(isEraser) && picture == old(picture)
    {
      undoDisabled := historyStep <= 0;
      redoDisabled := historyStep >= |drawHistory| - 1;
    }

    /** `saveState`: the cursor moves up, the entries past it go, the current picture is pushed. */
    method SaveState()
      requires Saveable(Snapshot())
      modifies this
      ensures Snapshot() == Saved(old(Snapshot()), old(picture))
      ensures Valid()
      ensures isDrawing == old(isDrawing) && isEraser == old(isEraser) && picture == old(picture)
    {
      historyStep := historyStep + 1;
      if historyStep < |drawHistory| {
        drawHistory := drawHistory[..historyStep];
      }
      drawHistory := drawHistory + [picture];
      UpdateUndoRedoButtons();
    }

    /** `restoreState` once its image has loaded: the canvas shows the snapshot under the cursor. */
    method RestoreState()
      requires Inside(Snapshot())
      modifies this
      ensures Valid()
      ensures picture == Current(Snapshot())
      ensures drawHistory == old(drawHistory) && historyStep == old(historyStep)
      ensures isDrawing == old(isDrawing) && isEraser == old(isEraser)
    {
      picture := drawHistory[historyStep];
      UpdateUndoRedoButtons();
    }

    /** `undo`. */
    method Undo()
      requires Valid()
      modifies this
      ensures Snapshot() == Undone(old(Snapshot()))
      ensures Valid()
      ensures old(historyStep) > 0 ==> picture == Current(Snapshot())
      ensures old(historyStep) <= 0 ==> picture == old(picture)
      ensures isDrawing == old(isDrawing) && isEraser == old(isEraser)
    {
      if historyStep > 0 {
        historyStep := historyStep - 1;
        RestoreState();
      }
    }

    /** `redo`. */
    method Redo()
      requires Valid()
      modifies this
      ensures Snapshot() == Redone(old(Snapshot()))
      ensures Valid()
      ensures old(historyStep) < |old(drawHistory)| - 1 ==> picture == Current(Snapshot())
      ensures old(historyStep) >= |old(drawHistory)| - 1 ==> picture == old(picture)
      ensures isDrawing == old(isDrawing) && isEraser == old(isEraser)
    {
      if historyStep < |drawHistory| - 1 {
        historyStep := historyStep + 1;
        RestoreState();
      }
    }

    /** The `keydown` listener. */
    method KeyDown(e: KeyEvent)
      requires Valid()
      modifies this
      ensures ShortcutOf(e) == UndoKey ==> Snapshot() == Undone(old(Snapshot()))
      ensures ShortcutOf(e) == RedoKey ==> Snapshot() == Redone(old(Snapshot()))
      ensures ShortcutOf(e) == NoShortcut ==> Snapshot() == old(Snapshot()) && picture == old(picture)
      ensures ShortcutOf(e) == UndoKey ==>
                if old(historyStep) > 0 then picture == Current(Snapshot()) else picture == old(picture)
      ensures ShortcutOf(e) == RedoKey ==>
                if old(historyStep) < |old(drawHistory)| - 1 then picture == Current(Snapshot())
                else picture == old(picture)
      ensures isDrawing == old(isDrawing) && isEraser == old(isEraser)
      ensures Valid()
    {
      if (e.ctrlKey || e.metaKey) && e.key == "z" {
        if e.shiftKey {
          Redo();
        } else {
          Undo();
        }
      } else if (e.ctrlKey || e.metaKey) && e.key == "y" {
        Redo();
      }
    }

    /**
     * `startDrawing`: a right or middle mouse button is ignored; anything else starts a
     * stroke and at once paints the dot under the pointer (`dot`, the canvas with it).
     */
    method StartDrawing(p: Pointer, dot: string)
      modifies this
      ensures isDrawing == (old(isDrawing) || StartsStroke(p))
      ensures picture == if StartsStroke(p) then dot else old(picture)
      ensures Snapshot() == old(Snapshot()) && isEraser == old(isEraser)
      ensures undoDisabled == old(undoDisabled) && redoDisabled == old(redoDisabled)
    {
      if p.pointerType == "mouse" && p.button != 0 {
        return;
      }
      isDrawing := true;
      Stroke(dot);
    }

    /** `draw`: while a stroke is in progress the canvas takes the new picture. */
    method Stroke(next: string)
      modifies this
      ensures picture == if old(isDrawing) then next else old(picture)
      ensures Snapshot() == old(Snapshot()) && isDrawing == old(isDrawing) && isEraser == old(isEraser)
      ensures undoDisabled == old(undoDisabled) && redoDisabled == old(redoDisabled)
    {
      if isDrawing {
        picture := next;
      }
    }

    /** `stopDrawing`: a finished stroke is saved exactly once; otherwise nothing happens. */
    method StopDrawing()
      requires Valid()
      modifies this
      ensures !isDrawing
      ensures old(isDrawing) ==> Snapshot() == Saved(old(Snapshot()), picture)
      ensures !old(isDrawing) ==> Snapshot() == old(Snapshot())
      ensures picture == old(picture) && isEraser == old(isEraser)
      ensures Valid()
    {
      if isDrawing {
        isDrawing := false;
        SaveState();
      }
    }

    /** The eraser button toggles; picking a colour turns the eraser off. */
    method ToggleEraser()
      modifies this
      ensures isEraser == !old(isEraser)
      ensures Snapshot() == old(Snapshot()) && isDrawing == old(isDrawing) && picture == old(picture)
      ensures undoDisabled == old(undoDisabled) && redoDisabled == old(redoDisabled)
    {
      isEraser := !isEraser;
    }

    method PickColor()
      modifies this
      ensures !isEraser
      ensures Snapshot() == old(Snapshot()) && isDrawing == old(isDrawing) && picture == old(picture)
      ensures undoDisabled == old(undoDisabled) && redoDisabled == old(redoDisabled)
    {
      isEraser := false;
    }

    /** The clear button: after confirmation the canvas is white again, and that is saved. */
    method Clear(confirmed: bool, blank: string)
      requires Valid()
      modifies this
      ensures confirmed ==> picture == blank && Snapshot() == Saved(old(Snapshot()), blank)
      ensures !confirmed ==> Snapshot() == old(Snapshot()) && picture == old(picture)
      ensures isDrawing == old(isDrawing) && isEraser == old(isEraser)
      ensures Valid()
    {
      if confirmed {
        picture := blank;
        SaveState();
      }
    }
  }
}
