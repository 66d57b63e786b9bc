/** The torrent-list UI store of source/scripts/stores/UIStore.js: the
    click-selection rules and the viewport windowing arithmetic. The
    modifier keys and the scroll position, read from the global `event` in
    the source, are explicit inputs. */
module UIStore {

  /** The modifier keys held during a click. */
  datatype Modifiers = Modifiers(meta: bool, ctrl: bool, shift: bool)

  const NoModifiers: Modifiers := Modifiers(false, false, false)
  const CtrlOnly: Modifiers := Modifiers(false, true, false)

  predicate NoDuplicates(s: seq<string>)
  {
    forall i, j :: 0 <= i < j < |s| ==> s[i] != s[j]
  }

  /** `s.indexOf(x)`: the first position of `x`, or -1. */
  function IndexOf(s: seq<string>, x: string): (i: int)
    ensures -1 <= i < |s|
    ensures i == -1 <==> x !in s
    ensures i >= 0 ==> s[i] == x && forall j :: 0 <= j < i ==> s[j] != x
  {
    if |s| == 0 then -1
    else if s[0] == x then 0
    else
      var i := IndexOf(s[1..], x);
      if i == -1 then -1 else i + 1
  }

  /** `s.splice(i, 1)`. */
  function RemoveAt(s: seq<string>, i: nat): (r: seq<string>)
    requires i < |s|
    ensures |r| == |s| - 1
    ensures forall j :: 0 <= j < i ==> r[j] == s[j]
    ensures forall j :: i <= j < |r| ==> r[j] == s[j + 1]
  {
    s[..i] + s[i + 1..]
  }

  /** The `TORRENT_CLICK` update of the selected hashes. */
  function Click(selected: seq<string>, hash: string, mods: Modifiers): (r: seq<string>)
    ensures !mods.meta && !mods.ctrl && !mods.shift ==> r == [hash]
    ensures mods.shift ==> r == selected
    ensures (mods.meta || mods.ctrl) && !mods.shift && hash !in selected ==> r == selected + [hash]
    ensures (mods.meta || mods.ctrl) && !mods.shift && hash in selected ==>
      |r| == |selected| - 1 &&
      exists i :: 0 <= i < |selected| && selected[i] == hash && hash !in selected[..i] &&
        r == selected[..i] + selected[i + 1..]
  {
    var at := IndexOf(selected, hash);
    if !mods.meta && !mods.shift && !mods.ctrl then [hash]
    else if (mods.meta || mods.ctrl) && !mods.shift then
      if at > -1 then
        assert hash !in selected[..at];
        RemoveAt(selected, at)
      else selected + [hash]
    else selected
  }

  /** A toggle on a duplicate-free selection flips the clicked hash's
      membership, keeps every other hash's membership, and stays duplicate
      free. */
  lemma ToggleFlipsOnlyClicked(selected: seq<string>, hash: string, mods: Modifiers)
    requires NoDuplicates(selected)
    requires (mods.meta || mods.ctrl) && !mods.shift
    ensures var r := Click(selected, hash, mods);
      NoDuplicates(r) &&
      (hash in r <==> hash !in selected) &&
      (forall x :: x != hash ==> (x in r <==> x in selected))
  {
    var r := Click(selected, hash, mods);
    if hash in selected {
      var i := IndexOf(selected, hash);
      assert r == selected[..i] + selected[i + 1..];
      forall x ensures x in r <==> x in selected && x != hash {
        if x in selected && x != hash {
          var k :| 0 <= k < |selected| && selected[k] == x;
          if k < i { assert r[k] == x; } else { assert k > i; assert r[k - 1] == x; }
        }
      }
    }
  }

  /** Toggling a hash that was not selected, twice, restores the selection. */
  lemma ToggleTwiceRestores(selected: seq<string>, hash: string)
    requires hash !in selected
    ensures Click(Click(selected, hash, CtrlOnly), hash, CtrlOnly) == selected
  {
    var once := selected + [hash];
    assert IndexOf(once, hash) == |selected|;
    assert once[..|selected|] == selected;
  }

  /** The pixel height of one torrent row (`_torrentHeight`). */
  const TorrentHeight: int := 53

  /** The pixel height of `rows` torrent rows. */
  function RowsHeight(rows: int): int
  {
    TorrentHeight * rows
  }

  /** Rows rendered beyond each edge of the viewport (`_torrentRenderBuffer`). */
  const RenderBuffer: int := 2

  /** The viewport state of the store. */
  datatype Viewport = Viewport(
    viewportHeight: int,
    minRendered: int,
    maxRendered: int,
    spaceTop: int,
    spaceBottom: int)

  const InitialViewport: Viewport := Viewport(200, 0, 10, 0, 0)

  /** Row positions `lo .. hi-1`. */
  function Rows(lo: int, hi: int): (rows: set<int>)
    ensures forall i :: i in rows <==> lo <= i < hi
    decreases hi - lo
  {
    if lo >= hi then {} else Rows(lo, hi - 1) + {hi - 1}
  }

  lemma {:induction false} RowsCount(lo: int, hi: int)
    ensures |Rows(lo, hi)| == if lo < hi then hi - lo else 0
    decreases hi - lo
  {
    if lo < hi {
      RowsCount(lo, hi - 1);
    }
  }

  /** `getSpacer(torrents)`: the pixel height of `torrents` rows, nothing for
      zero or a negative count. */
  function Spacer(torrents: int): (h: int)
    ensures h >= 0
    ensures h == RowsHeight(|Rows(0, torrents)|)
  {
    RowsCount(0, torrents);
    if torrents > 0 then RowsHeight(torrents) else 0
  }

  /** The viewport showing rows `lo ..= hi` of a list of `count` rows, with
      the spacers standing in for the rows left out. */
  function Layout(viewportHeight: int, lo: int, hi: int, count: int): (v: Viewport)
    ensures v.viewportHeight == viewportHeight && v.minRendered == lo && v.maxRendered == hi
    ensures v.spaceTop == RowsHeight(|Rows(0, lo)|)
    ensures v.spaceBottom == RowsHeight(|Rows(hi + 1, count)|)
  {
    SpacerBelow(hi, count);
    Viewport(viewportHeight, lo, hi, Spacer(lo), Spacer(count - 1 - hi))
  }

  /** `Math.floor(pixels / _torrentHeight)` is the number of whole rows that
      fit in `pixels`. */
  lemma FloorRows(pixels: int)
    ensures RowsHeight(pixels / TorrentHeight) <= pixels < RowsHeight(pixels / TorrentHeight + 1)
  {
  }

  /** `setRenderLimit(scrollPosition, torrentCount)`: the window starts the
      buffer's two rows above the row at the scroll position, and spans the
      rows that fit whole in the viewport plus two buffer rows at each end;
      the spacers stand in for the rows it leaves out. Dafny's `/` with a
      positive divisor is the floor division that `Math.floor(a / b)`
      computes. */
  function SetRenderLimit(v: Viewport, scrollPosition: int, torrentCount: int): (r: Viewport)
    ensures r.viewportHeight == v.viewportHeight
    ensures RowsHeight(r.minRendered + RenderBuffer) <= scrollPosition
              < RowsHeight(r.minRendered + RenderBuffer + 1)
    ensures RowsHeight(r.maxRendered - r.minRendered - 2 * RenderBuffer) <= v.viewportHeight
              < RowsHeight(r.maxRendered - r.minRendered - 2 * RenderBuffer + 1)
    ensures r == Layout(v.viewportHeight, r.minRendered, r.maxRendered, torrentCount)
  {
    var elementsInView := v.viewportHeight / TorrentHeight;
    var lo := scrollPosition / TorrentHeight - RenderBuffer;
    var hi := lo + elementsInView + RenderBuffer * 2;
    FloorRows(scrollPosition);
    FloorRows(v.viewportHeight);
    Layout(v.viewportHeight, lo, hi, torrentCount)
  }

  /** The spacer for the rows after `last` in a list of `count` rows. */
  lemma SpacerBelow(last: int, count: int)
    ensures Spacer(count - 1 - last) == RowsHeight(|Rows(last + 1, count)|)
  {
    RowsCount(0, count - 1 - last);
    RowsCount(last + 1, count);
  }

  /** When the rendered rows lie inside the list, the two spacers and the
      rendered rows together are exactly as tall as the whole list. */
  lemma SpacersFillList(viewportHeight: int, lo: int, hi: int, count: int)
    requires 0 <= lo <= hi < count
    ensures var v := Layout(viewportHeight, lo, hi, count);
      v.spaceTop + v.spaceBottom + RowsHeight(|Rows(lo, hi + 1)|) == RowsHeight(count)
  {
    RowsCount(0, lo);
    RowsCount(hi + 1, count);
    RowsCount(lo, hi + 1);
  }

  datatype UIState = UIState(selected: seq<string>, viewport: Viewport)

  const InitialUIState: UIState := UIState([], InitialViewport)

  datatype UIAction =
    | TorrentClick(hash: string, mods: Modifiers)
    | ListScroll(scrollTop: int, torrentCount: int)
    | ViewportResize(height: int)
    | OtherUIAction

  datatype UIEvent = SelectionChange | ViewportPaddingChange | NoEvent

  datatype Handled = Handled(state: UIState, event: UIEvent)

  /** The store's dispatcher callback: a click updates only the selection, a
      scroll only the render window, a resize only the viewport height (the
      window is not recomputed until the next scroll); any other action is
      ignored. */
  function Dispatch(s: UIState, a: UIAction): (h: Handled)
    ensures a.TorrentClick? ==>
      h.event == SelectionChange && h.state.viewport == s.viewport &&
      h.state.selected == Click(s.selected, a.hash, a.mods)
    ensures a.ListScroll? ==>
      h.event == ViewportPaddingChange && h.state.selected == s.selected &&
      h.state.viewport == SetRenderLimit(s.viewport, a.scrollTop, a.torrentCount)
    ensures a.ViewportResize? ==>
      h.event == ViewportPaddingChange &&
      h.state == UIState(s.selected, s.viewport.(viewportHeight := a.height))
    ensures a.OtherUIAction? ==> h == Handled(s, NoEvent)
  {
    match a
    case TorrentClick(hash, mods) => Handled(s.(selected := Click(s.selected, hash, mods)), SelectionChange)
    case ListScroll(top, count) =>
      Handled(s.(viewport := SetRenderLimit(s.viewport, top, count)), ViewportPaddingChange)
    case ViewportResize(height) =>
      Handled(s.(viewport := s.viewport.(viewportHeight := height)), ViewportPaddingChange)
    case OtherUIAction => Handled(s, NoEvent)
  }

  /** Clicks touch only the selection and scrolls only the render window, so
      a click and a scroll lead to the same state in either order. */
  lemma ClickAndScrollCommute(s: UIState, click: UIAction, scroll: UIAction)
    requires click.TorrentClick? && scroll.ListScroll?
    ensures Dispatch(Dispatch(s, click).state, scroll).state == Dispatch(Dispatch(s, scroll).state, click).state
  {
  }
}
