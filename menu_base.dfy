/** The shared behaviour of the settings menus: a cursor that stays on a label
    row, the key map that moves it, and the status lines under the labels. */
module MenuBases {
  import opened PyFormat
  import opened Keys

  /** max(keys) */
  function MaxOf(xs: seq<int>): (m: int)
    requires |xs| >= 1
    ensures m in xs && forall i :: 0 <= i < |xs| ==> xs[i] <= m
  {
    if |xs| == 1 then xs[0] else Max(xs[0], MaxOf(xs[1..]))
  }

  /** min(keys) */
  function MinOf(xs: seq<int>): (m: int)
    requires |xs| >= 1
    ensures m in xs && forall i :: 0 <= i < |xs| ==> m <= xs[i]
  {
    if |xs| == 1 then xs[0] else Min(xs[0], MinOf(xs[1..]))
  }

  /** The label rows lo, lo + 1, ..., hi - 1 in order, as every menu numbers them. */
  function Rows(lo: int, hi: int): (rows: seq<int>)
    requires lo < hi
    ensures |rows| == hi - lo && forall i :: 0 <= i < |rows| ==> rows[i] == lo + i
  {
    seq(hi - lo, i requires 0 <= i < hi - lo => lo + i)
  }

  /** The first and the last of consecutive rows are their minimum and maximum,
      and the rows are exactly the numbers in between. */
  lemma RowsBounds(lo: int, hi: int)
    requires lo < hi
    ensures MinOf(Rows(lo, hi)) == lo && MaxOf(Rows(lo, hi)) == hi - 1
    ensures forall p :: p in Rows(lo, hi) <==> lo <= p < hi
  {
    var rows := Rows(lo, hi);
    assert rows[0] == lo && rows[|rows| - 1] == hi - 1;
    forall p | lo <= p < hi
      ensures p in rows
    {
      assert rows[p - lo] == p;
    }
  }

  /** reset_window: the dialog is 30 rows high, or two fewer than the screen when that is smaller. */
  function DialogHeight(screenRows: int): (h: int)
    ensures h <= 30 && (screenRows <= 32 ==> h == screenRows - 2) && (32 < screenRows ==> h == 30)
  {
    if 32 < screenRows then 30 else screenRows - 2
  }

  /** reset_window: the dialog is 100 columns wide, or two fewer than the screen when that is smaller. */
  function DialogWidth(screenCols: int): (w: int)
    ensures w <= 100 && (screenCols <= 102 ==> w == screenCols - 2) && (102 < screenCols ==> w == 100)
  {
    if 102 < screenCols then 100 else screenCols - 2
  }

  /** What a mapped key does: jump_to with an offset, jump_to a row (executing
      its interface or not), or show the help. */
  datatype Jump = Offset(offset: int) | To(position: int, execute: bool) | Help

  /** The keymap built in the constructor. */
  function Keymap(key: Key, labels: seq<int>): (j: Option<Jump>)
    requires |labels| >= 1
    ensures key in {KeyUp, KeyDown} ==> j.Some? && j.value.Offset? && (j.value.offset == if key == KeyUp then -1 else 1)
    ensures key in {KeyHome, KeyPPage} ==> j == Some(To(MinOf(labels), false))
    ensures key in {KeyEnd, KeyNPage} ==> j == Some(To(MaxOf(labels), false))
    ensures forall n :: 2 <= n <= 9 && key == F(n) ==> j == Some(To(n, true))
    ensures key == F(1) ==> j == Some(Help)
    ensures j.None? <==> key !in {KeyUp, KeyDown, KeyHome, KeyPPage, KeyEnd, KeyNPage} && !(F(1) <= key <= F(9))
  {
    if key == KeyUp then Some(Offset(-1))
    else if key == KeyDown then Some(Offset(1))
    else if key == KeyHome || key == KeyPPage then Some(To(MinOf(labels), false))
    else if key == KeyEnd || key == KeyNPage then Some(To(MaxOf(labels), false))
    else if F(2) <= key <= F(9) then Some(To(key - F(0), true))
    else if key == F(1) then Some(Help)
    else None
  }

  /** A wrapped status text as it is written: at least one line, continuation
      lines indented by four spaces, on consecutive rows from `row`. */
  function StatusLines(lines: seq<string>, row: int): (drawn: seq<(int, string)>)
    ensures |drawn| == |lines|
    ensures forall i :: 0 <= i < |lines| ==> drawn[i] == (row + i, if i == 0 then lines[0] else "    " + lines[i])
  {
    seq(|lines|, i requires 0 <= i < |lines| => (row + i, if i == 0 then lines[0] else "    " + lines[i]))
  }

  class MenuBase {
    /** The label rows (the keys of menu_labels, in their order); the largest is the action row. */
    const labels: seq<int>
    /** The dialog's height from reset_window. */
    const height: int
    const startStatusIndex: int
    var statusIndex: int
    var failedAction: bool
    var position: int

    /** The cursor is always on a label row. */
    predicate Valid()
      reads this
    {
      |labels| >= 1 && position in labels && startStatusIndex == MaxOf(labels) + 2
    }

    /** The cursor starts on the action row and the status lines two rows below it. */
    constructor (labels: seq<int>, screenRows: int)
      requires |labels| >= 1
      ensures this.labels == labels && height == DialogHeight(screenRows)
      ensures position == MaxOf(labels) && startStatusIndex == MaxOf(labels) + 2
      ensures statusIndex == startStatusIndex && !failedAction
      ensures Valid()
    {
      this.labels := labels;
      height := DialogHeight(screenRows);
      startStatusIndex := MaxOf(labels) + 2;
      statusIndex := MaxOf(labels) + 2;
      failedAction := false;
      position := MaxOf(labels);
    }

    /** jump_to(position, offset, execute). It answers the row whose interface is
        then called, if any. */
    method JumpTo(target: Option<int>, offset: Option<int>, execute: bool) returns (invoke: Option<int>)
      requires Valid()
      modifies this
      ensures Valid() && statusIndex == old(statusIndex) && failedAction == old(failedAction)
      ensures target.None? && offset.None? ==> position == old(position) && invoke.None?
      ensures offset.None? && target.Some? ==>
        if target.value !in labels || (target.value == MaxOf(labels) && execute) then position == old(position) && invoke.None?
        else position == target.value && invoke == (if execute then Some(target.value) else None)
      ensures offset.Some? ==> invoke.None? && position == (if old(position) + offset.value in labels then old(position) + offset.value else old(position))
    {
      if target.None? && offset.None? {
        return None;
      }
      if offset.None? {
        if target.value !in labels {
          return None;
        }
        if target.value == MaxOf(labels) && execute {
          return None;
        }
        position := target.value;
        if execute {
          return Some(position);
        }
        return None;
      } else {
        if position + offset.value !in labels {
          return None;
        }
        position := position + offset.value;
        return None;
      }
    }

    /** A key found in the key map: the jump it stands for, or the help (`showHelp`). */
    method Press(key: Key) returns (invoke: Option<int>, showHelp: bool)
      requires Valid()
      modifies this
      ensures Valid() && statusIndex == old(statusIndex) && failedAction == old(failedAction)
      ensures showHelp <==> Keymap(key, labels) == Some(Help)
      ensures Keymap(key, labels).None? || showHelp ==> position == old(position) && invoke.None?
      ensures invoke.Some? ==> invoke.value in labels && invoke.value != MaxOf(labels) && position == invoke.value
      ensures key in {KeyHome, KeyPPage} ==> position == MinOf(labels)
      ensures key in {KeyEnd, KeyNPage} ==> position == MaxOf(labels)
    {
      var j := Keymap(key, labels);
      invoke, showHelp := None, false;
      if j.Some? {
        match j.value
        case Offset(k) =>
          invoke := JumpTo(None, Some(k), false);
        case To(p, e) =>
          invoke := JumpTo(Some(p), None, e);
        case Help =>
          showHelp := true;
      }
    }

    /** add_status_text(text, failed): `textLines` is what textwrap makes of the
        text. An empty text still takes one line; when the lines would run past
        the bottom border the area is cleared (`cleared`) and writing starts
        again at the first status row. */
    method AddStatusText(textLines: seq<string>, failed: bool) returns (cleared: bool, drawn: seq<(int, string)>)
      modifies this
      ensures position == old(position)
      ensures failedAction == (old(failedAction) || failed)
      ensures var lines := if textLines == [] then [""] else textLines;
        && cleared == (old(statusIndex) + |lines| > height - 2)
        && drawn == StatusLines(lines, if cleared then startStatusIndex else old(statusIndex))
        && statusIndex == (if cleared then startStatusIndex else old(statusIndex)) + |lines|
      ensures var n := if textLines == [] then 1 else |textLines|;
        startStatusIndex <= old(statusIndex) <= height - 2 && startStatusIndex + n <= height - 2 ==>
        startStatusIndex <= statusIndex <= height - 2
    {
      if failed {
        failedAction := true;
      }
      var lines := textLines;
      if |lines| == 0 {
        lines := [""];
      }
      cleared := statusIndex + |lines| > height - 2;
      if cleared {
        statusIndex := startStatusIndex;
      }
      ghost var first := statusIndex;
      drawn := [];
      for idx := 0 to |lines|
        invariant statusIndex == first + idx
        invariant position == old(position) && failedAction == (old(failedAction) || failed)
        invariant |drawn| == idx
        invariant forall i :: 0 <= i < idx ==> drawn[i] == (first + i, if i == 0 then lines[0] else "    " + lines[i])
      {
        var line := if idx == 0 then lines[0] else "    " + lines[idx];
        drawn := drawn + [(statusIndex, line)];
        statusIndex := statusIndex + 1;
      }
    }
  }
}
