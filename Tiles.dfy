/** The number tiles and the two inputs `first_number` and
    `second_number` they fill (script.js:96-130, 296-300, 325-371,
    566-593). */
module Tiles {
  import opened Optional
  import opened Digest
  import opened Display
  import opened Preview

  /** The values of the two inputs; "" is an empty input. */
  datatype Slots = Slots(first: string, second: string)

  /** Selecting a tile of value v: fill the first input if it is empty,
      else the second, else shift the second into the first and put v
      second. */
  function OnSelect(s: Slots, v: string): Slots {
    if s.first == "" then Slots(v, s.second)
    else if s.second == "" then Slots(s.first, v)
    else Slots(s.second, v)
  }

  /** Deselecting a tile of value v: empty the first input if it holds v,
      else the second if it holds v. */
  function OnDeselect(s: Slots, v: string): Slots {
    if s.first == v then Slots("", s.second)
    else if s.second == v then Slots(s.first, "")
    else s
  }

  /** A click on a tile that was (`wasSelected`) or was not selected. */
  function ClickSlots(s: Slots, v: string, wasSelected: bool): Slots {
    if wasSelected then OnDeselect(s, v) else OnSelect(s, v)
  }

  /** Both inputs filled: a further selection shifts. */
  predicate Full(s: Slots) {
    s.first != "" && s.second != ""
  }

  /** Tiles stay selected only when their value is in one of the inputs. */
  function Prune(marks: seq<bool>, values: seq<string>, s: Slots): (m: seq<bool>)
    requires |marks| == |values|
    ensures |m| == |marks|
  {
    seq(|marks|, u requires 0 <= u < |marks| => marks[u] && (values[u] == s.first || values[u] == s.second))
  }

  /** The `selected` classes after a click on tile t of the enhanced
      tiles: the clicked tile toggles, and a shifting selection prunes. */
  function ClickMarks(marks: seq<bool>, values: seq<string>, t: nat, s: Slots): (m: seq<bool>)
    requires |marks| == |values| && t < |marks|
    ensures |m| == |marks|
  {
    var toggled := marks[t := !marks[t]];
    if !marks[t] && Full(s) then Prune(toggled, values, OnSelect(s, values[t])) else toggled
  }

  /** A selected non-empty value always lands in an input, and the first
      input is never left empty by a selection. */
  lemma SelectPlacesValue(s: Slots, v: string)
    requires v != ""
    ensures OnSelect(s, v).first != ""
    ensures v == OnSelect(s, v).first || v == OnSelect(s, v).second
    ensures s.first != "" ==> OnSelect(s, v).second == v
  {
  }

  /** A selection loses at most the old first value, and only when both
      inputs were filled. */
  lemma SelectKeepsOthers(s: Slots, v: string)
    ensures !Full(s) && s.first != "" ==> OnSelect(s, v).first == s.first
    ensures s.second != "" ==> OnSelect(s, v).first == s.second || OnSelect(s, v).second == s.second
    ensures Full(s) ==> OnSelect(s, v) == Slots(s.second, v)
  {
  }

  /** A deselection changes at most one input, and an input it changes
      held v and becomes empty. */
  lemma DeselectChangesOne(s: Slots, v: string)
    ensures OnDeselect(s, v).first == s.first || OnDeselect(s, v).second == s.second
    ensures OnDeselect(s, v).first != s.first ==> s.first == v && OnDeselect(s, v).first == ""
    ensures OnDeselect(s, v).second != s.second ==> s.second == v && OnDeselect(s, v).second == ""
    ensures s.first != v && s.second != v ==> OnDeselect(s, v) == s
  {
  }

  /** Selecting and then deselecting a tile undoes the selection whenever
      the selection did not shift. */
  lemma SelectDeselectRoundTrip(s: Slots, v: string)
    requires !Full(s) && v != "" && s.first != v
    ensures OnDeselect(OnSelect(s, v), v) == s
  {
  }

  /** After a shifting selection the clicked tile is selected and every
      selected tile shows a value held by one of the inputs. */
  lemma ShiftMarksMatchSlots(marks: seq<bool>, values: seq<string>, t: nat, s: Slots)
    requires |marks| == |values| && t < |marks|
    requires !marks[t] && Full(s)
    ensures ClickMarks(marks, values, t, s)[t]
    ensures forall u :: 0 <= u < |marks| && ClickMarks(marks, values, t, s)[u] ==>
      values[u] == OnSelect(s, values[t]).first || values[u] == OnSelect(s, values[t]).second
  {
  }

  /** A click that does not shift changes only the clicked tile. */
  lemma NonShiftTogglesOnly(marks: seq<bool>, values: seq<string>, t: nat, s: Slots)
    requires |marks| == |values| && t < |marks|
    requires marks[t] || !Full(s)
    ensures ClickMarks(marks, values, t, s)[t] == !marks[t]
    ensures forall u :: 0 <= u < |marks| && u != t ==> ClickMarks(marks, values, t, s)[u] == marks[u]
  {
  }

  class TileBoard {
    /** `data-value` of each tile, in document order. */
    const values: seq<string>
    /** The `selected` class of each tile. */
    const selected: array<bool>
    var first: string
    var second: string
    /** The preview of script.js:398-455, called by `setupNumberTiles`. */
    const memo: MemoPreview
    /** The preview of script.js:160-305, whose own click listener
        (script.js:296-300) is attached to the same tiles. */
    const debounced: DebouncedPreview

    ghost predicate Valid()
      reads this, memo, debounced
    {
      selected.Length == |values| && memo.Valid() && debounced.Valid() && debounced.view == memo.view
    }

    constructor (values: seq<string>, selected: array<bool>, memo: MemoPreview, debounced: DebouncedPreview)
      requires selected.Length == |values| && memo.Valid() && debounced.Valid()
      requires debounced.view == memo.view
      ensures Valid()
      ensures this.values == values && this.selected == selected
      ensures this.memo == memo && this.debounced == debounced
      ensures first == "" && second == ""
    {
      this.values := values;
      this.selected := selected;
      this.memo := memo;
      this.debounced := debounced;
      first := "";
      second := "";
    }

    function Inputs(): Slots
      reads this
    {
      Slots(first, second)
    }

    /** The click handler of the `.captcha-number` tiles
        (script.js:96-123): toggle the tile, then fill or empty an input.
        The enhanced handler (script.js:336-366) starts the same way. */
    method SelectOrDeselect(t: nat)
      requires Valid() && t < |values|
      modifies this, selected
      ensures Valid()
      ensures Inputs() == ClickSlots(old(Inputs()), values[t], old(selected[t]))
      ensures selected[..] == old(selected[..])[t := !old(selected[t])]
    {
      var selectedValue := values[t];
      selected[t] := !selected[t];
      if selected[t] {
        if first == "" {
          first := selectedValue;
        } else if second == "" {
          second := selectedValue;
        } else {
          first := second;
          second := selectedValue;
        }
      } else {
        if first == selectedValue {
          first := "";
        } else if second == selectedValue {
          second := "";
        }
      }
    }

    /** The loop of a shifting selection (script.js:350-355): unselect
        every tile whose value is in neither input. */
    method PruneMarks()
      requires selected.Length == |values|
      modifies selected
      ensures selected[..] == Prune(old(selected[..]), values, Inputs())
    {
      var u := 0;
      while u < selected.Length
        invariant 0 <= u <= selected.Length
        invariant forall w :: 0 <= w < u ==>
          selected[w] == (old(selected[w]) && (values[w] == first || values[w] == second))
        invariant forall w :: u <= w < selected.Length ==> selected[w] == old(selected[w])
      {
        if values[u] != second && values[u] != first {
          selected[u] := false;
        }
        u := u + 1;
      }
    }

    /** The tile and input part of the enhanced handler
        (script.js:336-366). */
    method ApplyClick(t: nat)
      requires Valid() && t < |values|
      modifies this, selected
      ensures Valid()
      ensures Inputs() == ClickSlots(old(Inputs()), values[t], old(selected[t]))
      ensures selected[..] == ClickMarks(old(selected[..]), values, t, old(Inputs()))
    {
      var shifting := !selected[t] && Full(Inputs());
      SelectOrDeselect(t);
      if shifting {
        PruneMarks();
      }
    }

    /** A click on an enhanced tile as the page dispatches it: the
        listener of script.js:296-300 runs first and calls the debounced
        preview with the inputs as they were before the click; then the
        handler of script.js:325-369 updates the tiles and inputs and
        calls the memoised preview. */
    method ClickTileAsWritten(t: nat)
      requires Valid() && t < |values|
      modifies this, selected, debounced, memo, memo.view
      ensures Valid()
      ensures Inputs() == ClickSlots(old(Inputs()), values[t], old(selected[t]))
      ensures selected[..] == ClickMarks(old(selected[..]), values, t, old(Inputs()))
      ensures debounced.timer ==
        (if BothSelected(old(first), old(second)) then Some(old(first) + old(second)) else None)
      ensures debounced.inFlight == old(debounced.inFlight) && memo.cache == old(memo.cache)
      ensures !BothSelected(first, second) ==>
        memo.pending == old(memo.pending) && memo.view.State() == View(PLACEHOLDER, false, false)
      ensures BothSelected(first, second) && IsHit(memo.cache, first + second) ==>
        memo.pending == old(memo.pending) &&
        memo.view.State() == ResultView(ComputeHash(memo.platform, first + second))
      ensures BothSelected(first, second) && !IsHit(memo.cache, first + second) ==>
        memo.pending == old(memo.pending) + [first + second] &&
        memo.view.html == COMPUTING && memo.view.calculating &&
        memo.view.validHash == (BothSelected(old(first), old(second)) && old(memo.view.validHash))
    {
      debounced.Update(first, second);
      ApplyClick(t);
      memo.Update(first, second);
    }

    /** A click on an enhanced tile with the debounced preview called
        after the inputs change, as its listener's comment intends: the
        pending timer then always holds the pair the inputs show. */
    method ClickTile(t: nat)
      requires Valid() && t < |values|
      modifies this, selected, debounced, memo, memo.view
      ensures Valid()
      ensures Inputs() == ClickSlots(old(Inputs()), values[t], old(selected[t]))
      ensures selected[..] == ClickMarks(old(selected[..]), values, t, old(Inputs()))
      ensures debounced.timer == (if BothSelected(first, second) then Some(first + second) else None)
      ensures debounced.inFlight == old(debounced.inFlight) && memo.cache == old(memo.cache)
      ensures !BothSelected(first, second) ==>
        memo.pending == old(memo.pending) && memo.view.State() == View(PLACEHOLDER, false, false)
      ensures BothSelected(first, second) && IsHit(memo.cache, first + second) ==>
        memo.pending == old(memo.pending) &&
        memo.view.State() == ResultView(ComputeHash(memo.platform, first + second))
      ensures BothSelected(first, second) && !IsHit(memo.cache, first + second) ==>
        memo.pending == old(memo.pending) + [first + second] &&
        memo.view.html == COMPUTING && memo.view.calculating &&
        memo.view.validHash == old(memo.view.validHash)
    {
      ApplyClick(t);
      debounced.Update(first, second);
      memo.Update(first, second);
    }

    /** The reset button's handler for the `.captcha-number` tiles
        (script.js:126-130): every tile is unselected. */
    method ResetTiles()
      modifies selected
      ensures forall u :: 0 <= u < selected.Length ==> !selected[u]
    {
      var u := 0;
      while u < selected.Length
        invariant 0 <= u <= selected.Length
        invariant forall w :: 0 <= w < u ==> !selected[w]
      {
        selected[u] := false;
        u := u + 1;
      }
    }

    /** `clearSelection` (script.js:566-593): when an input is filled,
        both are emptied, the preview shows the placeholder and every tile
        is unselected; otherwise nothing happens. */
    method ClearSelection()
      requires Valid()
      modifies this, selected, memo.view
      ensures Valid()
      ensures first == "" && second == ""
      ensures old(first) == "" && old(second) == "" ==>
        selected[..] == old(selected[..]) && memo.view.State() == old(memo.view.State())
      ensures old(first) != "" || old(second) != "" ==>
        memo.view.State() == View(PLACEHOLDER, false, false) &&
        forall u :: 0 <= u < selected.Length ==> !selected[u]
    {
      if first != "" || second != "" {
        first := "";
        second := "";
        memo.view.ShowPlaceholder();
        ResetTiles();
      }
    }
  }

  /** Tiles 1000 and 1001 selected, then a click on tile 1002 as the page
      dispatches it: the debounced preview is left holding the pair before
      the click, while the inputs hold the pair after it. */
  method StalePairAfterShift(p: Platform) returns (scheduled: Option<string>, inputs: string)
    ensures scheduled == Some("1000" + "1001")
    ensures inputs == "1001" + "1002"
  {
    var board := SelectedPair(p);
    board.ClickTileAsWritten(2);
    assert board.Inputs() == Slots("1001", "1002");
    scheduled := board.debounced.timer;
    inputs := board.first + board.second;
  }

  /** The same click dispatched in the intended order leaves the debounced
      preview holding the pair the inputs show. */
  method CurrentPairAfterShift(p: Platform) returns (scheduled: Option<string>, inputs: string)
    ensures scheduled == Some("1001" + "1002")
    ensures inputs == "1001" + "1002"
  {
    var board := SelectedPair(p);
    board.ClickTile(2);
    assert board.Inputs() == Slots("1001", "1002");
    scheduled := board.debounced.timer;
    inputs := board.first + board.second;
  }

  /** Three tiles 1000, 1001, 1002 with the first two selected, in that
      order, and both previews idle. */
  method SelectedPair(p: Platform) returns (board: TileBoard)
    ensures fresh(board) && board.Valid()
    ensures board.values == ["1000", "1001", "1002"]
    ensures board.Inputs() == Slots("1000", "1001") && !board.selected[2]
    ensures fresh(board.selected) && fresh(board.memo) && fresh(board.debounced) && fresh(board.memo.view)
  {
    var view := new HashDisplay();
    var memo := new MemoPreview(p, view);
    var debounced := new DebouncedPreview(p, view);
    var marks := new bool[3](n => n < 2);
    board := new TileBoard(["1000", "1001", "1002"], marks, memo, debounced);
    board.first := "1000";
    board.second := "1001";
  }
}
