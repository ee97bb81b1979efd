/** The generic `Table` component of `src/components/ui/Table.tsx`, as a pure function
    from its props to the header cells and body rows it renders.

    `T` is the row type, `K` the type of its property names (`keyof T`), `N` the type
    of what a cell shows and `E` the effect of the click handler. Reading a property,
    `item[key]`, is the parameter `lookup`. */
module Table {
  import opened Common

  const DefaultEmptyMessage := "Nenhum dado encontrado"

  /** A column's accessor: the name of a property, or a function of the row. */
  datatype Accessor<!T, K, N> = Key(key: K) | Derive(render: T -> N)

  datatype Column<!T, K, N> = Column(header: string, accessor: Accessor<T, K, N>)

  /** The props; the optional ones are `Option`s, with `isLoading` defaulted by the caller
      as the component does. */
  datatype Props<!T, K, N, E> = Props(
    columns: seq<Column<T, K, N>>,
    data: seq<T>,
    keyExtractor: T -> string,
    onRowClick: Option<T -> E>,
    isLoading: bool,
    emptyMessage: Option<string>)

  /** One `<tr>` of the body. */
  datatype BodyRow<N, E> =
    | Spinner(colSpan: nat)
    | Message(colSpan: nat, text: string)
    | Item(key: string, cells: seq<N>, click: Option<E>)

  datatype Rendered<N, E> = Rendered(header: seq<string>, body: seq<BodyRow<N, E>>)

  /** `renderCell` */
  function RenderCell<T, K, N>(item: T, column: Column<T, K, N>, lookup: (T, K) -> N): (cell: N)
    ensures column.accessor.Derive? ==> cell == column.accessor.render(item)
    ensures column.accessor.Key? ==> cell == lookup(item, column.accessor.key)
  {
    match column.accessor
    case Derive(render) => render(item)
    case Key(key) => lookup(item, key)
  }

  /** The text of the empty row: the prop, or the component's default. */
  function EmptyText<T, K, N, E>(p: Props<T, K, N, E>): (text: string)
    ensures p.emptyMessage.None? ==> text == DefaultEmptyMessage
    ensures p.emptyMessage.Some? ==> text == p.emptyMessage.value
  {
    match p.emptyMessage
    case None => DefaultEmptyMessage
    case Some(m) => m
  }

  /** What activating a row does: `onRowClick && onRowClick(item)`. */
  function Click<T, E>(onRowClick: Option<T -> E>, item: T): (r: Option<E>)
    ensures onRowClick.None? <==> r.None?
    ensures onRowClick.Some? ==> r == Some(onRowClick.value(item))
  {
    match onRowClick
    case None => None
    case Some(handler) => Some(handler(item))
  }

  function HeaderCells<T, K, N>(columns: seq<Column<T, K, N>>): (r: seq<string>)
    ensures |r| == |columns|
    ensures forall j :: 0 <= j < |columns| ==> r[j] == columns[j].header
  {
    seq(|columns|, j requires 0 <= j < |columns| => columns[j].header)
  }

  function ItemRow<T, K, N, E>(p: Props<T, K, N, E>, item: T, lookup: (T, K) -> N): (row: BodyRow<N, E>)
    ensures row.Item? && row.key == p.keyExtractor(item) && |row.cells| == |p.columns|
    ensures forall j :: 0 <= j < |p.columns| ==> row.cells[j] == RenderCell(item, p.columns[j], lookup)
    ensures row.click == Click(p.onRowClick, item)
  {
    Item(p.keyExtractor(item),
         seq(|p.columns|, j requires 0 <= j < |p.columns| => RenderCell(item, p.columns[j], lookup)),
         Click(p.onRowClick, item))
  }

  /** The body: the spinner while loading, else the empty row, else one row per item. */
  function Body<T, K, N, E>(p: Props<T, K, N, E>, lookup: (T, K) -> N): (b: seq<BodyRow<N, E>>)
    ensures p.isLoading ==> b == [Spinner(|p.columns|)]
    ensures !p.isLoading && |p.data| == 0 ==> b == [Message(|p.columns|, EmptyText(p))]
    ensures !p.isLoading && |p.data| > 0 ==>
      |b| == |p.data| && forall i :: 0 <= i < |p.data| ==> b[i] == ItemRow(p, p.data[i], lookup)
  {
    if p.isLoading then [Spinner(|p.columns|)]
    else if |p.data| == 0 then [Message(|p.columns|, EmptyText(p))]
    else seq(|p.data|, i requires 0 <= i < |p.data| => ItemRow(p, p.data[i], lookup))
  }

  /** The whole table. */
  function Render<T, K, N, E>(p: Props<T, K, N, E>, lookup: (T, K) -> N): (r: Rendered<N, E>)
    ensures |r.header| == |p.columns|
    ensures forall j :: 0 <= j < |p.columns| ==> r.header[j] == p.columns[j].header
    ensures p.isLoading ==> r.body == [Spinner(|p.columns|)]
    ensures !p.isLoading && |p.data| == 0 ==> r.body == [Message(|p.columns|, EmptyText(p))]
    ensures !p.isLoading && |p.data| > 0 ==> |r.body| == |p.data|
  {
    Rendered(HeaderCells(p.columns), Body(p, lookup))
  }

  /** Loading wins over everything: the body does not depend on the data. */
  lemma LoadingIgnoresData<T, K, N, E>(p: Props<T, K, N, E>, data: seq<T>, lookup: (T, K) -> N)
    requires p.isLoading
    ensures Render(p.(data := data), lookup) == Render(p, lookup)
    ensures |Render(p, lookup).body| == 1
  {
  }

  /** Without loading, one row per item, in input order: row `i` is keyed by
      `keyExtractor(data[i])`, has one cell per column resolved by that column's accessor,
      and clicking it passes `data[i]` to the handler exactly when one is given. */
  lemma RowsFollowData<T, K, N, E>(p: Props<T, K, N, E>, lookup: (T, K) -> N, i: int, j: int)
    requires !p.isLoading && 0 <= i < |p.data|
    ensures var row := Render(p, lookup).body[i];
      row.Item? && row.key == p.keyExtractor(p.data[i]) && |row.cells| == |p.columns|
      && (p.onRowClick.Some? ==> row.click == Some(p.onRowClick.value(p.data[i])))
      && (p.onRowClick.None? ==> row.click == None)
      && (0 <= j < |p.columns| ==>
            match p.columns[j].accessor
            case Derive(render) => row.cells[j] == render(p.data[i])
            case Key(key) => row.cells[j] == lookup(p.data[i], key))
  {
    var row := Render(p, lookup).body[i];
    assert row == ItemRow(p, p.data[i], lookup);
  }

  /** The number of body rows. */
  lemma BodyRowCount<T, K, N, E>(p: Props<T, K, N, E>, lookup: (T, K) -> N)
    ensures |Render(p, lookup).body| == if p.isLoading || |p.data| == 0 then 1 else |p.data|
  {
  }
}
