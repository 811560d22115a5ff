/**
 * The generic sortable, paginated data grid (`DataTable`): its local sort indicator,
 * the header attributes derived from it, the page window of the pager, the footer
 * range and the choice between skeleton, empty state and rows in the body.
 */
module DataTable {
  import opened Base

  /** A row is a record addressed by property name; a cell value is whatever the row holds or a renderer returns. */
  type Row<V> = map<string, V>

  /** A column descriptor (`heading` is the source's `label`); `render`, when present, produces the cell from the whole row. */
  datatype Column<!V> = Column(key: string, heading: string, sortable: bool, render: Option<Row<V> -> V>)

  datatype Pagination = Pagination(page: int, pageSize: int, total: int)

  datatype Direction = Asc | Desc

  /** The grid's local sort indicator: `key` is `null` until a sortable header is activated. */
  datatype SortState = SortState(key: Option<string>, direction: Direction)

  /** The up-call `onSort(key, direction)`. */
  datatype SortEvent = SortEvent(key: string, direction: Direction)

  const InitialSort: SortState := SortState(None, Asc)
  const DefaultEmptyMessage: string := "No data available"
  /** Number of placeholder rows in the loading skeleton. */
  const SkeletonRows: nat := 5
  /** Largest number of page-number buttons the pager shows. */
  const MaxPageButtons: nat := 5

  // ---------------------------------------------------------------------------
  // Sorting

  /** Index of the first column whose key is `key` (`columns.find(col => col.key === key)`). */
  function FindColumn<V>(columns: seq<Column<V>>, key: string): (r: Option<nat>)
    ensures r.None? <==> forall i :: 0 <= i < |columns| ==> columns[i].key != key
    ensures r.Some? ==> r.value < |columns| && columns[r.value].key == key
    ensures r.Some? ==> forall j :: 0 <= j < r.value ==> columns[j].key != key
  {
    if columns == [] then None
    else if columns[0].key == key then Some(0)
    else match FindColumn(columns[1..], key)
      case None => None
      case Some(i) => Some(i + 1)
  }

  /** The guard of `handleSort`: the first descriptor with that key exists and is sortable. */
  predicate IsSortableKey<V>(columns: seq<Column<V>>, key: string) {
    match FindColumn(columns, key)
    case None => false
    case Some(i) => columns[i].sortable
  }

  /**
   * `handleSort(key)`: `None` when the guard rejects the key (no state change, no call),
   * otherwise the new sort state, which is also what `onSort` receives.
   */
  function Activate<V>(s: SortState, columns: seq<Column<V>>, key: string): (r: Option<SortState>)
    ensures r.None? <==> !IsSortableKey(columns, key)
    ensures r.Some? ==> r.value.key == Some(key)
    ensures r.Some? ==> (r.value.direction == Desc <==> s.key == Some(key) && s.direction == Asc)
  {
    if !IsSortableKey(columns, key) then None
    else Some(SortState(Some(key), if s.key == Some(key) && s.direction == Asc then Desc else Asc))
  }

  /** A key event on a header: a click or a key press named as in `KeyboardEvent.key`. */
  datatype HeaderInput = Click | KeyPress(name: string)

  /** Whether a header input reaches `handleSort(column.key)`: only on sortable headers, and only Enter or Space. */
  predicate HeaderTriggers<V>(column: Column<V>, input: HeaderInput) {
    column.sortable && (input.Click? || input.name == "Enter" || input.name == " ")
  }

  /** The grid object holding the sort indicator across renders. */
  class SortIndicator {
    var key: Option<string>
    var direction: Direction

    function State(): SortState
      reads this
    {
      SortState(key, direction)
    }

    constructor()
      ensures State() == InitialSort
    {
      key := None;
      direction := Asc;
    }

    /** `handleSort(key)`: updates the indicator and returns the `onSort` call made, if any. */
    method HandleSort<V>(columns: seq<Column<V>>, k: string) returns (event: Option<SortEvent>)
      modifies this
      ensures Activate(old(State()), columns, k).None? ==> State() == old(State()) && event.None?
      ensures Activate(old(State()), columns, k).Some? ==>
        State() == Activate(old(State()), columns, k).value && event == Some(SortEvent(k, direction))
    {
      if !IsSortableKey(columns, k) {
        return None;
      }
      var newDirection := if key == Some(k) && direction == Asc then Desc else Asc;
      key, direction := Some(k), newDirection;
      event := Some(SortEvent(k, newDirection));
    }

    /** The `onClick` / `onKeyDown` handlers of the header of `columns[i]`. */
    method HeaderInputAt<V>(columns: seq<Column<V>>, i: nat, input: HeaderInput) returns (event: Option<SortEvent>)
      requires i < |columns|
      modifies this
      ensures !HeaderTriggers(columns[i], input) ==> State() == old(State()) && event.None?
      ensures HeaderTriggers(columns[i], input) ==>
        match Activate(old(State()), columns, columns[i].key)
        case None => State() == old(State()) && event.None?
        case Some(s) => State() == s && event == Some(SortEvent(s.key.value, s.direction))
    {
      if HeaderTriggers(columns[i], input) {
        event := HandleSort(columns, columns[i].key);
      } else {
        event := None;
      }
    }
  }

  /** A key with no column, or whose first column is not sortable, is a no-op. */
  lemma NonSortableIsNoOp<V>(s: SortState, columns: seq<Column<V>>, key: string)
    requires forall i :: 0 <= i < |columns| && columns[i].key == key ==> !columns[i].sortable
    ensures Activate(s, columns, key).None?
  {
  }

  /** The header of a non-sortable column never reaches the state machine. */
  lemma NonSortableHeaderIgnored<V>(column: Column<V>, input: HeaderInput)
    requires !column.sortable
    ensures !HeaderTriggers(column, input)
  {
  }

  /** From the initial state, activating a sortable key gives asc, then desc, then asc again. */
  lemma ToggleCycle<V>(columns: seq<Column<V>>, k: string)
    requires IsSortableKey(columns, k)
    ensures var s1 := Activate(InitialSort, columns, k);
      && s1 == Some(SortState(Some(k), Asc))
      && var s2 := Activate(s1.value, columns, k);
      && s2 == Some(SortState(Some(k), Desc))
      && Activate(s2.value, columns, k) == Some(SortState(Some(k), Asc))
  {
  }

  /** Activating a different key always starts ascending, never descending. */
  lemma CrossColumnReset<V>(s: SortState, columns: seq<Column<V>>, k: string)
    requires IsSortableKey(columns, k)
    requires s.key != Some(k)
    ensures Activate(s, columns, k) == Some(SortState(Some(k), Asc))
  {
  }

  // ---------------------------------------------------------------------------
  // Header attributes

  datatype AriaSort = Ascending | Descending | NoSort

  /** The `aria-sort` attribute of a header; `None` means the attribute is absent. */
  function AriaSortOf<V>(s: SortState, column: Column<V>): (r: Option<AriaSort>)
    ensures s.key == Some(column.key) ==> r.Some? && (r.value == Ascending <==> s.direction == Asc)
    ensures s.key == Some(column.key) ==> r.Some? && (r.value == Descending <==> s.direction == Desc)
    ensures s.key != Some(column.key) ==> (r == Some(NoSort) <==> column.sortable) && (r.None? <==> !column.sortable)
  {
    if s.key == Some(column.key) then Some(if s.direction == Asc then Ascending else Descending)
    else if column.sortable then Some(NoSort)
    else None
  }

  /** `getSortIcon(key)`: the arrow for the current key, `null` for any other. */
  function SortIcon(s: SortState, key: string): (r: Option<Direction>)
    ensures r.Some? <==> s.key == Some(key)
    ensures r.Some? ==> r.value == s.direction
  {
    if s.key == Some(key) then Some(s.direction) else None
  }

  datatype HeaderIcon = NoIcon | FadedUp | Up | Down

  /** The icon area of a header: nothing for a non-sortable column, a faded up-arrow when not the sort key. */
  function HeaderIconOf<V>(s: SortState, column: Column<V>): (r: HeaderIcon)
    ensures !column.sortable <==> r == NoIcon
    ensures column.sortable && s.key != Some(column.key) ==> r == FadedUp
    ensures column.sortable && s.key == Some(column.key) ==> (r == Up <==> s.direction == Asc) && (r == Down <==> s.direction == Desc)
  {
    if !column.sortable then NoIcon
    else match SortIcon(s, column.key)
      case None => FadedUp
      case Some(Asc) => Up
      case Some(Desc) => Down
  }

  /** After a successful activation the activated header shows its direction and every other sortable header shows "none". */
  lemma HeaderAfterActivate<V>(s: SortState, columns: seq<Column<V>>, k: string, i: nat)
    requires Activate(s, columns, k).Some?
    requires i < |columns|
    ensures var t := Activate(s, columns, k).value;
      && (columns[i].key == k ==> AriaSortOf(t, columns[i]) == Some(if t.direction == Asc then Ascending else Descending))
      && (columns[i].key != k && columns[i].sortable ==> AriaSortOf(t, columns[i]) == Some(NoSort) && HeaderIconOf(t, columns[i]) == FadedUp)
      && (columns[i].key != k && !columns[i].sortable ==> AriaSortOf(t, columns[i]).None?)
  {
  }

  // ---------------------------------------------------------------------------
  // Pagination

  predicate ValidPagination(p: Pagination) {
    p.page >= 1 && p.pageSize >= 1 && p.total >= 0
  }

  /** `Math.ceil(total / pageSize)`, or 1 when there is no pagination descriptor. */
  function TotalPages(pagination: Option<Pagination>): (r: int)
    requires pagination.Some? ==> pagination.value.pageSize >= 1
    ensures pagination.None? ==> r == 1
    ensures pagination.Some? ==> (r - 1) * pagination.value.pageSize < pagination.value.total <= r * pagination.value.pageSize
  {
    match pagination
    case None => 1
    case Some(p) => CeilDiv(p.total, p.pageSize)
  }

  /** `startItem`: the 1-based position of the first row of the page. */
  function StartItem(pagination: Option<Pagination>): (r: int)
    ensures pagination.None? ==> r == 1
    ensures pagination.Some? ==> r - 1 == (pagination.value.page - 1) * pagination.value.pageSize
  {
    match pagination
    case None => 1
    case Some(p) => (p.page - 1) * p.pageSize + 1
  }

  /** `endItem`: the position of the last row of the page, capped at the total. */
  function EndItem(pagination: Option<Pagination>, dataLength: nat): (r: int)
    ensures pagination.None? ==> r == dataLength
    ensures pagination.Some? ==> r <= pagination.value.total && r <= pagination.value.page * pagination.value.pageSize
    ensures pagination.Some? ==> r == pagination.value.total || r == pagination.value.page * pagination.value.pageSize
  {
    match pagination
    case None => dataLength
    case Some(p) => Min(p.page * p.pageSize, p.total)
  }

  /** Number of page buttons: `Math.min(5, totalPages)`, as a length that is never negative. */
  function WindowSize(totalPages: int): (n: nat)
    ensures n <= MaxPageButtons && n <= Max(totalPages, 0)
    ensures n == MaxPageButtons || n == Max(totalPages, 0)
  {
    if totalPages < 0 then 0 else Min(MaxPageButtons, totalPages)
  }

  /** The first page number of the window: anchored to the start, to the end, or centred on `page`. */
  function WindowStart(totalPages: int, page: int): int {
    if totalPages <= 5 || page <= 3 then 1
    else if page >= totalPages - 2 then totalPages - 4
    else page - 2
  }

  /** The page numbers the pager shows, as a closed form: consecutive numbers from `WindowStart`. */
  function Window(totalPages: int, page: int): (w: seq<int>)
    ensures |w| == WindowSize(totalPages)
    ensures forall i :: 0 <= i < |w| ==> w[i] == WindowStart(totalPages, page) + i
  {
    seq(WindowSize(totalPages), i => WindowStart(totalPages, page) + i)
  }

  /**
   * The pager's `Array.from({ length: Math.min(5, totalPages) }, (_, i) => pageNum)`, each
   * number chosen by the four-way rule of the source, shown to build `Window`.
   */
  method BuildPageWindow(totalPages: int, page: int) returns (w: seq<int>)
    ensures w == Window(totalPages, page)
  {
    var length := if totalPages < 0 then 0 else Min(5, totalPages);
    w := [];
    var i := 0;
    while i < length
      invariant 0 <= i <= length
      invariant |w| == i
      invariant forall k :: 0 <= k < i ==> w[k] == WindowStart(totalPages, page) + k
    {
      var pageNum;
      if totalPages <= 5 {
        pageNum := i + 1;
      } else if page <= 3 {
        pageNum := i + 1;
      } else if page >= totalPages - 2 {
        pageNum := totalPages - 4 + i;
      } else {
        pageNum := page - 2 + i;
      }
      w := w + [pageNum];
      i := i + 1;
    }
  }

  /** For an in-range page the window has `min(5, totalPages)` consecutive pages inside `[1, totalPages]`, `page` among them. */
  lemma WindowInRange(totalPages: int, page: int)
    requires 1 <= page <= totalPages
    ensures var w := Window(totalPages, page);
      && |w| == Min(5, totalPages)
      && (forall i :: 0 <= i < |w| ==> 1 <= w[i] <= totalPages)
      && (forall i :: 0 <= i < |w| - 1 ==> w[i + 1] == w[i] + 1)
      && 0 <= page - w[0] < |w| && w[page - w[0]] == page
  {
  }

  /** The three anchoring cases of the window, in the source's tie-break order. */
  lemma WindowAnchoring(totalPages: int, page: int)
    requires 1 <= page <= totalPages
    ensures var w := Window(totalPages, page);
      && (totalPages <= 5 || page <= 3 ==> w[0] == 1)
      && (!(totalPages <= 5 || page <= 3) && page >= totalPages - 2 ==> w[|w| - 1] == totalPages)
      && (!(totalPages <= 5 || page <= 3) && page < totalPages - 2 ==> w == [page - 2, page - 1, page, page + 1, page + 2])
  {
    var w := Window(totalPages, page);
    if !(totalPages <= 5 || page <= 3) && page < totalPages - 2 {
      assert w == [page - 2, page - 1, page, page + 1, page + 2];
    }
  }

  /** The concrete windows the grid promises. */
  lemma WindowExamples()
    ensures Window(3, 2) == [1, 2, 3]
    ensures Window(10, 1) == [1, 2, 3, 4, 5]
    ensures Window(10, 10) == [6, 7, 8, 9, 10]
    ensures Window(10, 5) == [3, 4, 5, 6, 7]
    ensures Window(10, 8) == [6, 7, 8, 9, 10]
  {
    assert Window(3, 2) == [1, 2, 3];
    assert Window(10, 1) == [1, 2, 3, 4, 5];
    assert Window(10, 10) == [6, 7, 8, 9, 10];
    assert Window(10, 5) == [3, 4, 5, 6, 7];
    assert Window(10, 8) == [6, 7, 8, 9, 10];
  }

  /** A page button: the number it requests and whether it carries `aria-current="page"`. */
  datatype PageButton = PageButton(number: int, current: bool)

  /** Previous and Next request `page - 1` and `page + 1`; each is disabled at its boundary. */
  datatype Pager = Pager(
    previousTarget: int, previousDisabled: bool,
    buttons: seq<PageButton>,
    nextTarget: int, nextDisabled: bool)

  function PagerOf(p: Pagination): (r: Pager)
    requires p.pageSize >= 1
    ensures r.previousTarget == p.page - 1 && (r.previousDisabled <==> p.page <= 1)
    ensures r.nextTarget == p.page + 1 && (r.nextDisabled <==> p.page >= TotalPages(Some(p)))
    ensures |r.buttons| == |Window(TotalPages(Some(p)), p.page)|
    ensures forall i :: 0 <= i < |r.buttons| ==>
      r.buttons[i].number == Window(TotalPages(Some(p)), p.page)[i] && (r.buttons[i].current <==> r.buttons[i].number == p.page)
  {
    var tp := TotalPages(Some(p));
    var w := Window(tp, p.page);
    Pager(p.page - 1, p.page <= 1,
          seq(|w|, i requires 0 <= i < |w| => PageButton(w[i], w[i] == p.page)),
          p.page + 1, p.page >= tp)
  }

  /** For an in-range page exactly one page button is marked current. */
  lemma ExactlyOneCurrent(p: Pagination)
    requires ValidPagination(p) && p.page <= TotalPages(Some(p))
    ensures var b := PagerOf(p).buttons;
      exists i :: 0 <= i < |b| && b[i].current && forall j :: 0 <= j < |b| && b[j].current ==> j == i
  {
    var tp := TotalPages(Some(p));
    WindowInRange(tp, p.page);
    var b := PagerOf(p).buttons;
    var w := Window(tp, p.page);
    var i := p.page - w[0];
    assert b[i].current;
  }

  /** The footer: "Showing startItem to endItem of total results" and the pager. */
  datatype Footer = Footer(startItem: int, endItem: int, total: int, pager: Pager)

  /** The footer is rendered only with pagination, outside loading, and with at least one row. */
  function FooterOf(pagination: Option<Pagination>, loading: bool, dataLength: nat): (r: Option<Footer>)
    requires pagination.Some? ==> pagination.value.pageSize >= 1
    ensures r.Some? <==> pagination.Some? && !loading && dataLength > 0
    ensures r.Some? ==> r.value.startItem == StartItem(pagination) && r.value.endItem == EndItem(pagination, dataLength)
    ensures r.Some? ==> r.value.total == pagination.value.total && r.value.pager == PagerOf(pagination.value)
  {
    if pagination.Some? && !loading && dataLength > 0 then
      Some(Footer(StartItem(pagination), EndItem(pagination, dataLength), pagination.value.total, PagerOf(pagination.value)))
    else None
  }

  /** For an in-range page of a non-empty result the range is a non-empty run of at most `pageSize` items within `[1, total]`. */
  lemma {:induction false} FooterRange(p: Pagination, dataLength: nat)
    requires ValidPagination(p) && p.total > 0 && p.page <= TotalPages(Some(p))
    ensures var s, e := StartItem(Some(p)), EndItem(Some(p), dataLength);
      1 <= s <= e <= p.total && e - s < p.pageSize
  {
    var tp := TotalPages(Some(p));
    var s, e := StartItem(Some(p)), EndItem(Some(p), dataLength);
    MulMonotone(p.page - 1, tp - 1, p.pageSize);
    assert (p.page - 1) * p.pageSize < p.total;
    assert p.page * p.pageSize == (p.page - 1) * p.pageSize + p.pageSize;
    assert (p.page - 1) * p.pageSize >= 0 by { MulMonotone(0, p.page - 1, p.pageSize); }
  }

  lemma MulMonotone(a: int, b: int, c: int)
    requires a <= b && c >= 0
    ensures a * c <= b * c
  {
    assert b * c - a * c == (b - a) * c;
  }

  // ---------------------------------------------------------------------------
  // Body

  /** The content of one cell: the renderer's result, else the row's property (`None` for `undefined`). */
  function CellOf<V>(column: Column<V>, row: Row<V>): (c: Option<V>)
    ensures column.render.Some? ==> c.Some?
    ensures column.render.None? ==> (c.Some? <==> column.key in row)
  {
    match column.render
    case Some(render) => Some(render(row))
    case None => if column.key in row then Some(row[column.key]) else None
  }

  /** A renderer wins over a same-named property; without it the property itself is shown. */
  lemma RendererPrecedence<V>(column: Column<V>, row: Row<V>, value: V)
    ensures column.render.Some? ==> CellOf(column, row[column.key := value]) == Some(column.render.value(row[column.key := value]))
    ensures CellOf(column.(render := None), row[column.key := value]) == Some(value)
  {
  }

  datatype Body<V> =
    | Skeleton(rows: nat, columns: nat)
    | EmptyState(message: string)
    | Rows(cells: seq<seq<Option<V>>>)

  /** The table body: skeleton while loading, else the empty message, else one row of cells per data element. */
  function BodyOf<V(==)>(data: seq<Row<V>>, columns: seq<Column<V>>, loading: bool, emptyMessage: string): (b: Body<V>)
    ensures loading ==> b.Skeleton? && b.rows == SkeletonRows && b.columns == |columns|
    ensures !loading && |data| == 0 ==> b == EmptyState(emptyMessage)
    ensures !loading && |data| > 0 ==> b.Rows? && |b.cells| == |data|
    ensures !loading && |data| > 0 ==> forall i, j :: 0 <= i < |data| && 0 <= j < |columns| ==>
      |b.cells[i]| == |columns| && b.cells[i][j] == CellOf(columns[j], data[i])
  {
    if loading then Skeleton(SkeletonRows, |columns|)
    else if |data| == 0 then EmptyState(emptyMessage)
    else Rows(seq(|data|, i requires 0 <= i < |data| =>
                  seq(|columns|, j requires 0 <= j < |columns| => CellOf(columns[j], data[i]))))
  }

  // ---------------------------------------------------------------------------
  // The whole rendered grid

  datatype HeaderCell = HeaderCell(heading: string, ariaSort: Option<AriaSort>, icon: HeaderIcon, focusable: bool)

  datatype View<V> = View(header: seq<HeaderCell>, body: Body<V>, footer: Option<Footer>)

  function HeaderOf<V>(s: SortState, columns: seq<Column<V>>): (h: seq<HeaderCell>)
    ensures |h| == |columns|
    ensures forall i :: 0 <= i < |columns| ==>
      h[i] == HeaderCell(columns[i].heading, AriaSortOf(s, columns[i]), HeaderIconOf(s, columns[i]), columns[i].sortable)
  {
    seq(|columns|, i requires 0 <= i < |columns| =>
        HeaderCell(columns[i].heading, AriaSortOf(s, columns[i]), HeaderIconOf(s, columns[i]), columns[i].sortable))
  }

  /** One render of the grid as a value of its inputs and its sort indicator. */
  function Render<V(==)>(s: SortState, data: seq<Row<V>>, columns: seq<Column<V>>,
                         pagination: Option<Pagination>, loading: bool, emptyMessage: string): (v: View<V>)
    requires pagination.Some? ==> pagination.value.pageSize >= 1
    ensures v.header == HeaderOf(s, columns)
    ensures v.body == BodyOf(data, columns, loading, emptyMessage)
    ensures v.footer == FooterOf(pagination, loading, |data|)
  {
    View(HeaderOf(s, columns), BodyOf(data, columns, loading, emptyMessage), FooterOf(pagination, loading, |data|))
  }

  /** A grid given no `emptyMessage` that has no rows and is not loading shows "No data available" and no footer. */
  lemma EmptyGridShowsDefaultMessage<V>(s: SortState, columns: seq<Column<V>>, pagination: Option<Pagination>)
    requires pagination.Some? ==> pagination.value.pageSize >= 1
    ensures Render(s, [], columns, pagination, false, DefaultEmptyMessage).body == EmptyState("No data available")
    ensures Render(s, [], columns, pagination, false, DefaultEmptyMessage).footer.None?
  {
  }

  /** While loading the grid shows the skeleton and no footer, whatever the data and the pagination. */
  lemma LoadingPrecedence<V>(s: SortState, data1: seq<Row<V>>, data2: seq<Row<V>>, columns: seq<Column<V>>,
                                 p1: Option<Pagination>, p2: Option<Pagination>, emptyMessage: string)
    requires p1.Some? ==> p1.value.pageSize >= 1
    requires p2.Some? ==> p2.value.pageSize >= 1
    ensures Render(s, data1, columns, p1, true, emptyMessage).footer.None?
    ensures Render(s, data1, columns, p1, true, emptyMessage) == Render(s, data2, columns, p2, true, emptyMessage)
  {
  }
}
