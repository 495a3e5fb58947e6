/** `get_saved_stories` without its I/O: each story dictionary of a page
    becomes a `REPLACE INTO stories (...) VALUES (?, ...)` statement, the
    `stories` table (unique index on `id`) takes the row, and the page's
    `more` link gives the next URL. */
module Saved {
  import opened Wrappers
  import opened Text
  import opened Patterns
  import opened Stories

  /** The columns of `stories`, in declaration order. */
  const Columns: seq<string> := ["id", "title", "link", "posted", "user", "points", "description"]

  const Site: string := "https://news.ycombinator.com"

  /** The column a dictionary key names: the key itself. */
  function ColumnName(k: Key): (c: string)
    ensures c in Columns && c != "description"
  {
    match k
    case Title => "title"
    case Link => "link"
    case User => "user"
    case Id => "id"
    case Points => "points"
    case Posted => "posted"
  }

  /** A row of `stories`, `Null` in every unset column. */
  datatype Row = Row(id: Value, title: Value, link: Value, posted: Value, user: Value, points: Value, description: Value)

  /** The value of `k` in a dictionary, `Null` when the key is absent. */
  function Get(item: map<Key, Value>, k: Key): Value {
    if k in item then item[k] else Null
  }

  /** The row a story dictionary stands for: each key in its column and
      `NULL` in the others; `description` is never set. */
  function ItemRow(item: map<Key, Value>): Row {
    Row(Get(item, Id), Get(item, Title), Get(item, Link), Get(item, Posted), Get(item, User), Get(item, Points), Null)
  }

  /** The value an insert with columns `cols` and parameters `vals` puts
      in column `c`, `Null` when `c` is not named. */
  function Bound(cols: seq<string>, vals: seq<Value>, c: string): Value
    requires |cols| == |vals|
  {
    if cols == [] then Null
    else if cols[0] == c then vals[0]
    else Bound(cols[1..], vals[1..], c)
  }

  /** The row an insert with columns `cols` and parameters `vals` creates. */
  function RowOf(cols: seq<string>, vals: seq<Value>): Row
    requires |cols| == |vals|
  {
    Row(Bound(cols, vals, "id"), Bound(cols, vals, "title"), Bound(cols, vals, "link"),
        Bound(cols, vals, "posted"), Bound(cols, vals, "user"), Bound(cols, vals, "points"),
        Bound(cols, vals, "description"))
  }

  predicate Distinct<T(==)>(xs: seq<T>) {
    forall i, j :: 0 <= i < j < |xs| ==> xs[i] != xs[j]
  }

  /** A column named once gets the parameter in its position; a column
      not named gets `NULL`. */
  lemma {:induction false} BoundIsPositional(cols: seq<string>, vals: seq<Value>, c: string)
    requires |cols| == |vals| && Distinct(cols)
    ensures c !in cols ==> Bound(cols, vals, c) == Null
    ensures forall i :: 0 <= i < |cols| && cols[i] == c ==> Bound(cols, vals, c) == vals[i]
    decreases |cols|
  {
    if cols != [] {
      BoundIsPositional(cols[1..], vals[1..], c);
      forall i | 0 < i < |cols| && cols[i] == c ensures Bound(cols, vals, c) == vals[i] {
        assert cols[1..][i - 1] == cols[i];
      }
    }
  }

  /** `order` is an order `iteritems()` may visit the dictionary `item`
      in: each of its keys exactly once. Python 2 leaves it unspecified. */
  predicate IsIterationOrder(order: seq<Key>, item: map<Key, Value>) {
    && (forall i :: 0 <= i < |order| ==> order[i] in item)
    && (forall k :: k in item ==> k in order)
    && Distinct(order)
  }

  /** `sep.join(parts)`. */
  function Join(sep: string, parts: seq<string>): string
    decreases |parts|
  {
    if parts == [] then ""
    else if |parts| == 1 then parts[0]
    else parts[0] + sep + Join(sep, parts[1..])
  }

  /** `','.join(['?'] * n)`. */
  function Placeholders(n: nat): string {
    Join(",", seq(n, _ => "?"))
  }

  /** The number of occurrences of `c` in `s`. */
  function Occurrences(s: string, c: char): nat
    decreases |s|
  {
    if s == [] then 0 else (if s[0] == c then 1 else 0) + Occurrences(s[1..], c)
  }

  lemma OccurrencesAppend(a: string, b: string, c: char)
    ensures Occurrences(a + b, c) == Occurrences(a, c) + Occurrences(b, c)
    decreases |a|
  {
    if a != [] {
      assert (a + b)[1..] == a[1..] + b;
      OccurrencesAppend(a[1..], b, c);
    } else {
      assert a + b == b;
    }
  }

  lemma PlaceholdersCons(n: nat)
    requires n > 1
    ensures Placeholders(n) == "?," + Placeholders(n - 1)
  {
    var qs := seq(n, _ => "?");
    assert qs[1..] == seq(n - 1, _ => "?");
  }

  /** The placeholder list holds one `?` per value, separated by commas:
      `?` at even positions, `,` at odd ones. */
  lemma {:induction false} PlaceholdersShape(n: nat)
    ensures |Placeholders(n)| == if n == 0 then 0 else 2 * n - 1
    ensures forall i :: 0 <= i < |Placeholders(n)| ==> Placeholders(n)[i] == if i % 2 == 0 then '?' else ','
    ensures Occurrences(Placeholders(n), '?') == n
  {
    if n > 1 {
      PlaceholdersShape(n - 1);
      PlaceholdersCons(n);
      var p, rest := Placeholders(n), Placeholders(n - 1);
      forall i | 2 <= i < |p| ensures p[i] == if i % 2 == 0 then '?' else ',' {
        assert p[i] == rest[i - 2];
        assert (i - 2) % 2 == i % 2;
      }
      OccurrencesAppend("?,", rest, '?');
    } else if n == 1 {
      assert Placeholders(1) == "?";
    }
  }

  /** The statement text the upsert formats from its column list and
      its placeholder list. */
  function ReplaceStatement(keysFmt: string, valuesFmt: string): string {
    "REPLACE INTO stories (" + keysFmt + ") VALUES (" + valuesFmt + ")"
  }

  /** The inner loop of `get_saved_stories`: the column and the value of
      each key of the story dictionary, in the order `iteritems()` visits
      them. */
  method RowParams(item: map<Key, Value>, order: seq<Key>) returns (fields: seq<string>, values: seq<Value>)
    requires forall i :: 0 <= i < |order| ==> order[i] in item
    ensures |fields| == |values| == |order|
    ensures forall i :: 0 <= i < |order| ==> fields[i] == ColumnName(order[i]) && values[i] == item[order[i]]
  {
    fields, values := [], [];
    for i := 0 to |order|
      invariant |fields| == |values| == i
      invariant forall j :: 0 <= j < i ==> fields[j] == ColumnName(order[j]) && values[j] == item[order[j]]
    {
      var key := order[i];
      var column := ColumnName(key);
      fields := fields + [column];
      values := values + [item[key]];
    }
  }

  /** The loop body of `get_saved_stories` up to `cursor.execute`: the
      column list and parameter list of one story, visited in `order`,
      and the statement text. */
  method RowStatement(item: map<Key, Value>, order: seq<Key>) returns (fields: seq<string>, values: seq<Value>, statement: string)
    requires IsIterationOrder(order, item)
    ensures |fields| == |values| == |order|
    ensures forall i :: 0 <= i < |order| ==> fields[i] == ColumnName(order[i]) && values[i] == item[order[i]]
    ensures Distinct(fields) && forall i :: 0 <= i < |fields| ==> fields[i] in Columns
    ensures RowOf(fields, values) == ItemRow(item)
    ensures statement == ReplaceStatement(Join(", ", fields), Placeholders(|values|))
  {
    fields, values := RowParams(item, order);
    var keysFmt := Join(", ", fields);
    var valuesFmt := Placeholders(|values|);
    statement := ReplaceStatement(keysFmt, valuesFmt);
    StatementRow(item, order, fields, values);
  }

  /** Different keys are stored in different columns. */
  lemma ColumnNameInjective(k: Key, k': Key)
    requires k != k'
    ensures ColumnName(k) != ColumnName(k')
  {
  }

  /** Whatever order the dictionary is visited in, the statement stores
      the row the dictionary stands for. */
  lemma StatementRow(item: map<Key, Value>, order: seq<Key>, fields: seq<string>, values: seq<Value>)
    requires IsIterationOrder(order, item)
    requires |fields| == |values| == |order|
    requires forall i :: 0 <= i < |order| ==> fields[i] == ColumnName(order[i]) && values[i] == item[order[i]]
    ensures Distinct(fields) && forall i :: 0 <= i < |fields| ==> fields[i] in Columns
    ensures RowOf(fields, values) == ItemRow(item)
  {
    forall i | 0 <= i < |fields| ensures fields[i] in Columns {
      assert fields[i] == ColumnName(order[i]);
    }
    forall i, j | 0 <= i < j < |fields| ensures fields[i] != fields[j] {
      ColumnNameInjective(order[i], order[j]);
    }
    ColumnBound(item, order, fields, values, Id);
    ColumnBound(item, order, fields, values, Title);
    ColumnBound(item, order, fields, values, Link);
    ColumnBound(item, order, fields, values, Posted);
    ColumnBound(item, order, fields, values, User);
    ColumnBound(item, order, fields, values, Points);
    BoundIsPositional(fields, values, "description");
  }

  lemma ColumnBound(item: map<Key, Value>, order: seq<Key>, fields: seq<string>, values: seq<Value>, k: Key)
    requires IsIterationOrder(order, item)
    requires |fields| == |values| == |order| && Distinct(fields)
    requires forall i :: 0 <= i < |order| ==> fields[i] == ColumnName(order[i]) && values[i] == item[order[i]]
    ensures Bound(fields, values, ColumnName(k)) == Get(item, k)
  {
    BoundIsPositional(fields, values, ColumnName(k));
    if k in item {
      var i :| 0 <= i < |order| && order[i] == k;
    } else {
      forall i | 0 <= i < |fields| ensures fields[i] != ColumnName(k) {
        ColumnNameInjective(order[i], k);
      }
    }
  }

  /** The contents of `stories`: rows with an id, by id (the unique index
      `story_id`), and rows inserted without an id, which the index never
      merges since SQLite treats NULLs as distinct. */
  datatype TableState = TableState(keyed: map<Value, Row>, unkeyed: seq<Row>)

  ghost predicate ValidState(t: TableState) {
    && Null !in t.keyed
    && (forall id :: id in t.keyed ==> t.keyed[id].id == id)
    && (forall r :: r in t.unkeyed ==> r.id == Null)
  }

  /** `REPLACE INTO` of `row`: a row with the same id is deleted and the
      new row inserted whole, so nothing of the old row survives. */
  function Upsert(t: TableState, row: Row): (u: TableState)
    ensures row.id != Null ==> row.id in u.keyed && u.keyed[row.id] == row && u.unkeyed == t.unkeyed
    ensures row.id == Null ==> u.keyed == t.keyed && u.unkeyed == t.unkeyed + [row]
    ensures forall id :: id != row.id ==> (id in u.keyed <==> id in t.keyed) && (id in t.keyed ==> u.keyed[id] == t.keyed[id])
    ensures ValidState(t) ==> ValidState(u)
  {
    if row.id == Null then TableState(t.keyed, t.unkeyed + [row])
    else TableState(t.keyed[row.id := row], t.unkeyed)
  }

  /** The table after upserting the rows of `items` in order. */
  function UpsertAll(t: TableState, items: seq<map<Key, Value>>): TableState
    decreases |items|
  {
    if items == [] then t
    else Upsert(UpsertAll(t, items[..|items| - 1]), ItemRow(items[|items| - 1]))
  }

  /** The row an item stores under `id`, if it carries that id. */
  function RowWithId(id: Value): map<Key, Value> -> Option<Row> {
    item => if ItemRow(item).id == id then Some(ItemRow(item)) else None
  }

  /** After a page is saved, the row under a story id is the row of the
      last item with that id; ids no item carries keep their rows. */
  lemma {:induction false} UpsertAllLastWins(t: TableState, items: seq<map<Key, Value>>, id: Value)
    requires id != Null
    ensures var u := UpsertAll(t, items);
            var last := LastSome(items, RowWithId(id));
            && (last.Some? ==> id in u.keyed && u.keyed[id] == last.value)
            && (last.None? ==> (id in u.keyed <==> id in t.keyed) && (id in t.keyed ==> u.keyed[id] == t.keyed[id]))
    decreases |items|
  {
    if items != [] {
      UpsertAllLastWins(t, items[..|items| - 1], id);
    }
  }

  /** The `stories` table, as the cursor sees it. */
  class StoryTable {
    var keyed: map<Value, Row>
    var unkeyed: seq<Row>

    ghost predicate Valid()
      reads this
    {
      ValidState(State())
    }

    function State(): TableState
      reads this
    {
      TableState(keyed, unkeyed)
    }

    /** `init_db`: the freshly created, empty table. */
    constructor ()
      ensures Valid() && State() == TableState(map[], [])
    {
      keyed := map[];
      unkeyed := [];
    }

    /** `cursor.execute('REPLACE INTO stories (cols) VALUES (?, ...)', vals)`.
        The statement text is not parsed: the method takes the column list
        and the parameters that `RowStatement` formats it from. */
    method Replace(cols: seq<string>, vals: seq<Value>)
      requires Valid()
      requires |cols| == |vals| && Distinct(cols) && forall i :: 0 <= i < |cols| ==> cols[i] in Columns
      modifies this
      ensures Valid()
      ensures State() == Upsert(old(State()), RowOf(cols, vals))
    {
      var row := RowOf(cols, vals);
      if row.id == Null {
        unkeyed := unkeyed + [row];
      } else {
        keyed := keyed[row.id := row];
      }
    }
  }

  /** The `for item in result['items']` loop of `get_saved_stories`: one
      `REPLACE` per story, in page order, each dictionary visited in its
      own order from `orders`. */
  method SaveItems(table: StoryTable, items: seq<map<Key, Value>>, orders: seq<seq<Key>>)
    requires table.Valid()
    requires |orders| == |items| && forall i :: 0 <= i < |items| ==> IsIterationOrder(orders[i], items[i])
    modifies table
    ensures table.Valid()
    ensures table.State() == UpsertAll(old(table.State()), items)
  {
    for i := 0 to |items|
      invariant table.Valid()
      invariant table.State() == UpsertAll(old(table.State()), items[..i])
    {
      var fields, values, _ := RowStatement(items[i], orders[i]);
      table.Replace(fields, values);
      assert items[..i + 1][..i] == items[..i];
    }
    assert items[..|items|] == items;
  }

  /** The URL `get_saved_stories` fetches after a page, if any: a missing
      or empty `more` ends the run. */
  function NextPageUrl(p: Page): (r: Option<string>)
    ensures r.Some? <==> p.more.Some? && p.more.value != ""
    ensures r.Some? ==> r.value == Site + p.more.value
  {
    if p.more.Some? && p.more.value != "" then Some(Site + p.more.value) else None
  }

  /** The run goes on exactly when the page has a marker cell, and then
      fetches the site plus the last marker's `/x?fnid=` href. */
  lemma NextPageFollowsMarker(doc: seq<TitleCell>, now: nat, p: Page)
    requires PageOf(doc, now) == Ok(p)
    ensures NextPageUrl(p).Some? <==> exists i :: 0 <= i < |doc| && IsMarkerCell(doc[i])
    ensures NextPageUrl(p).Some? ==> StartsWith(p.more.value, MoreLinkPrefix)
  {
    PageMore(doc, now, p);
  }

}
