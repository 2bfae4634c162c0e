/** The detail widgets: columns that pick a value out of a row, and widgets
    that serialise what their callback returns as an image, a gallery, a row,
    a table or a text. */
module Widgets {
  import opened Wrappers
  import opened Strings
  import opened Seqs
  import Titles

  /** A JSON-like Python value. */
  datatype Val = Null | Str(s: string) | Int(i: int) | Bool(b: bool) | List(items: seq<Val>) | Dict(m: map<string, Val>)

  const TypeError := "TypeError"

  /** A column of a row or table widget; `list` is the optional flag that
      keeps list values as lists. */
  datatype Column = Column(name: string, title: string, formatter: Option<string>, list: Option<bool>)

  /** `Column.__init__`: the title defaults to the title-cased name and the
      formatter to `'string'`. `formatter` is `None` when the argument is
      not given and `Some(f)` when it is, `f` being `None` for an explicit
      `None`. */
  function MakeColumn(name: string, title: Option<string>, formatter: Option<Option<string>>, list: Option<bool>): (c: Column)
    ensures c.name == name && c.list == list
    ensures c.title == if title.None? then Titles.TitleFromName(name) else title.value
    ensures c.formatter == if formatter.None? then Some("string") else formatter.value
  {
    Column(name, if title.None? then Titles.TitleFromName(name) else title.value,
           if formatter.None? then Some("string") else formatter.value, list)
  }

  function Strs(items: seq<Val>): seq<string>
    requires forall i :: 0 <= i < |items| ==> items[i].Str?
  {
    if |items| == 0 then [] else [items[0].s] + Strs(items[1..])
  }

  /** `' '.join(items)`: only strings can be joined. */
  function JoinVals(items: seq<Val>): (r: Result<string, string>)
    ensures r.Ok? <==> forall i :: 0 <= i < |items| ==> items[i].Str?
    ensures r.Ok? ==> r.value == Join(Strs(items), " ")
  {
    if forall i :: 0 <= i < |items| ==> items[i].Str? then Ok(Join(Strs(items), " ")) else Err(TypeError)
  }

  /** The value a column shows for a row dictionary: the row's entry,
      joined with spaces when it is a list and the column is not a list
      column. */
  function Shown(col: Column, v: Val): Result<Val, string>
  {
    if v.List? && col.list != Some(true) then
      match JoinVals(v.items)
      case Err(e) => Err(e)
      case Ok(s) => Ok(Str(s))
    else Ok(v)
  }

  /** `Column.__call__`: name, title, formatter, list flag and the row's
      value, every key whose value is None left out. */
  function ColumnCall(col: Column, row: map<string, Val>): (r: Result<map<string, Val>, string>)
    ensures r.Ok? ==> forall k :: k in r.value ==> r.value[k] != Null
    ensures r.Ok? ==> "name" in r.value && "title" in r.value
    ensures r.Ok? ==> ("value" in r.value <==> col.name in row && row[col.name] != Null)
    ensures r.Ok? ==> ("formatter" in r.value <==> col.formatter.Some?)
    ensures r.Ok? ==> ("list" in r.value <==> col.list.Some?)
    ensures r.Ok? && "value" in r.value && col.list == Some(true) ==> r.value["value"] == row[col.name]
    ensures r.Err? <==>
      (col.name in row && row[col.name].List? && col.list != Some(true) &&
       exists i :: 0 <= i < |row[col.name].items| && !row[col.name].items[i].Str?)
  {
    var v := if col.name in row then row[col.name] else Null;
    var base := map["name" := Str(col.name), "title" := Str(col.title)];
    var withFormatter := if col.formatter.Some? then base["formatter" := Str(col.formatter.value)] else base;
    var withList := if col.list.Some? then withFormatter["list" := Bool(col.list.value)] else withFormatter;
    if v == Null then Ok(withList)
    else match Shown(col, v)
      case Err(e) => Err(e)
      case Ok(shown) => Ok(withList["value" := shown])
  }

  /** A list of strings without spaces shown in a plain column reads back
      as the same list when split at spaces. */
  lemma ShownListSplits(col: Column, row: map<string, Val>, words: seq<string>)
    requires col.list != Some(true) && |words| >= 1 && forall i :: 0 <= i < |words| ==> ' ' !in words[i]
    requires col.name in row && row[col.name] == List(seq(|words|, i requires 0 <= i < |words| => Str(words[i])))
    ensures ColumnCall(col, row).Ok? && "value" in ColumnCall(col, row).value
    ensures ColumnCall(col, row).value["value"].Str? && Split(ColumnCall(col, row).value["value"].s, ' ') == words
  {
    var items := row[col.name].items;
    assert Strs(items) == words by {
      StrsOf(items, words);
    }
    JoinSplit(words, ' ');
  }

  lemma {:induction false} StrsOf(items: seq<Val>, words: seq<string>)
    requires |items| == |words| && forall i :: 0 <= i < |items| ==> items[i] == Str(words[i])
    ensures forall i :: 0 <= i < |items| ==> items[i].Str?
    ensures Strs(items) == words
  {
    if |items| > 0 {
      StrsOf(items[1..], words[1..]);
      assert words == [words[0]] + words[1..];
    }
  }

  /** A column object as `__call__` leaves it: the transient `value`
      attribute is set for the call and deleted afterwards, unless joining
      the value raised first. */
  class ColumnObject {
    const column: Column
    var value: Option<Val>

    constructor (column: Column)
      ensures this.column == column && value.None?
    {
      this.column := column;
      value := None;
    }

    method Call(row: map<string, Val>) returns (r: Result<map<string, Val>, string>)
      modifies this
      ensures r == ColumnCall(column, row)
      ensures r.Ok? ==> value.None?
      ensures r.Err? ==> value == Some(row[column.name])
    {
      value := Some(if column.name in row then row[column.name] else Null);
      r := ColumnCall(column, row);
      if r.Err? {
        return;
      }
      value := None;
    }
  }

  /** A parameter given to a widget: a column, or any other parameter. */
  datatype WidgetParam = ColumnParam(column: Column) | OtherParam(name: string)

  function ColumnsOf(params: seq<WidgetParam>): (r: seq<Column>)
    ensures |r| <= |params|
    ensures forall c :: c in r <==> ColumnParam(c) in params
  {
    if |params| == 0 then []
    else
      var init := params[..|params| - 1];
      var last := params[|params| - 1];
      assert params == init + [last];
      ColumnsOf(init) + (if last.ColumnParam? then [last.column] else [])
  }

  /** The kinds of widget and what each serialises. */
  datatype Kind = Image | Gallery | Row | Table(sort: Option<string>) | Text

  /** The lower-cased class name, the default type of a widget. */
  function KindName(kind: Kind): string
  {
    match kind
    case Image => "image"
    case Gallery => "gallery"
    case Row => "row"
    case Table(_) => "table"
    case Text => "text"
  }

  /** A widget: name, title, type, state, its columns and its kind. */
  datatype Widget = Widget(name: string, title: string, help: Option<string>, kind: Kind, typeName: string,
                           state: Option<string>, params: seq<WidgetParam>, columns: seq<Column>)

  /** `Widget.__init__`: the columns are the column parameters, in order. */
  method MakeWidget(name: string, title: Option<string>, help: Option<string>, kind: Kind, typeName: Option<string>,
                    params: seq<WidgetParam>) returns (w: Widget)
    ensures w.columns == ColumnsOf(params) && w.params == params && w.name == name && w.help == help
    ensures w.kind == kind && w.state.None?
    ensures w.typeName == if typeName.None? then KindName(kind) else typeName.value
    ensures title.None? ==> w.title == Titles.TitleFromName(name)
    ensures title.Some? ==> w.title == title.value
  {
    var columns := [];
    for i := 0 to |params|
      invariant columns == ColumnsOf(params[..i])
    {
      assert params[..i + 1][..i] == params[..i];
      if params[i].ColumnParam? {
        columns := columns + [params[i].column];
      }
    }
    assert params[..|params|] == params;
    w := Widget(name, if title.None? then Titles.TitleFromName(name) else title.value, help, kind,
                if typeName.None? then KindName(kind) else typeName.value, None,
                params, columns);
  }

  /** What a callback returns for each kind of widget. */
  datatype Payload = ImageOf(image: Val) | ImagesOf(images: seq<Val>) | RowOf(row: map<string, Val>)
                   | RowsOf(rows: seq<map<string, Val>>) | TextOf(text: Val)

  /** The serialised body of a widget. */
  datatype Body = ImageBody(image: Val) | GalleryBody(images: seq<Val>) | RowBody(columns: seq<map<string, Val>>)
                | TableBody(sort: Option<string>, rows: seq<seq<map<string, Val>>>) | TextBody(text: Val)

  datatype Rendered = Rendered(title: string, state: Option<string>, typeName: string, body: Body)

  /** Every column applied to one row dictionary, in column order. */
  function RowColumns(columns: seq<Column>, row: map<string, Val>): (r: Result<seq<map<string, Val>>, string>)
    ensures r.Ok? <==> forall j :: 0 <= j < |columns| ==> ColumnCall(columns[j], row).Ok?
    ensures r.Ok? ==> |r.value| == |columns|
    ensures r.Ok? ==>
      forall j :: 0 <= j < |columns| ==> r.value[j] == ColumnCall(columns[j], row).value
  {
    MapAllMeaning(columns, c => ColumnCall(c, row));
    MapAll(columns, c => ColumnCall(c, row))
  }

  /** The rows of a table, one `columns` list per row, in order. */
  function TableRows(columns: seq<Column>, rows: seq<map<string, Val>>): (r: Result<seq<seq<map<string, Val>>>, string>)
    ensures r.Ok? <==> forall i :: 0 <= i < |rows| ==> RowColumns(columns, rows[i]).Ok?
    ensures r.Ok? ==> |r.value| == |rows|
    ensures r.Ok? ==>
      forall i :: 0 <= i < |rows| ==> r.value[i] == RowColumns(columns, rows[i]).value
  {
    MapAllMeaning(rows, row => RowColumns(columns, row));
    MapAll(rows, row => RowColumns(columns, row))
  }

  /** `Widget.__call__` with the `serialize` of its kind: None when the
      callback returns None, otherwise title, state and type with the
      serialised payload.  A payload of the wrong shape for the kind is not
      modelled and gives `TypeError`. */
  function Call(w: Widget, values: Option<Payload>): (r: Result<Option<Rendered>, string>)
    ensures values.None? ==> r == Ok(None)
    ensures r.Ok? && r.value.Some? ==>
      r.value.value.title == w.title && r.value.value.state == w.state && r.value.value.typeName == w.typeName
    ensures w.kind.Table? && values.Some? && values.value.RowsOf? ==>
      (r.Ok? <==> TableRows(w.columns, values.value.rows).Ok?)
    ensures w.kind.Table? && values.Some? && values.value.RowsOf? && r.Ok? ==>
      r.value.Some? && r.value.value.body == TableBody(w.kind.sort, TableRows(w.columns, values.value.rows).value)
    ensures w.kind.Row? && values.Some? && values.value.RowOf? ==>
      && (r.Ok? <==> RowColumns(w.columns, values.value.row).Ok?)
      && (r.Ok? ==> r.value == Some(Rendered(w.title, w.state, w.typeName, RowBody(RowColumns(w.columns, values.value.row).value))))
    ensures w.kind.Image? && values.Some? && values.value.ImageOf? ==>
      r == Ok(Some(Rendered(w.title, w.state, w.typeName, ImageBody(values.value.image))))
    ensures w.kind.Gallery? && values.Some? && values.value.ImagesOf? ==>
      r == Ok(Some(Rendered(w.title, w.state, w.typeName, GalleryBody(values.value.images))))
    ensures w.kind.Text? && values.Some? && values.value.TextOf? ==>
      r == Ok(Some(Rendered(w.title, w.state, w.typeName, TextBody(values.value.text))))
  {
    match values
    case None => Ok(None)
    case Some(p) =>
      var body: Result<Body, string> :=
        match (w.kind, p)
        case (Image, ImageOf(v)) => Ok(ImageBody(v))
        case (Gallery, ImagesOf(vs)) => Ok(GalleryBody(vs))
        case (Row, RowOf(row)) =>
          (match RowColumns(w.columns, row) case Err(e) => Err(e) case Ok(cs) => Ok(RowBody(cs)))
        case (Table(sort), RowsOf(rows)) =>
          (match TableRows(w.columns, rows) case Err(e) => Err(e) case Ok(rs) => Ok(TableBody(sort, rs)))
        case (Text, TextOf(t)) => Ok(TextBody(t))
        case _ => Err(TypeError);
      match body
      case Err(e) => Err(e)
      case Ok(b) => Ok(Some(Rendered(w.title, w.state, w.typeName, b)))
  }
}
