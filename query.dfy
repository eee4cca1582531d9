/**
 * The fluent SELECT builder `App\ORM\Query`. Its four accumulators are fields
 * of a class that the chainable methods update in place; rendering is a pure
 * read of them. The model collaborator (`ModelInterface::newEntity`) is the
 * arrow `model`, fixed at construction; the database connection is passed to
 * each terminal as a function from SQL text to raw rows.
 */
module ORM {
  import opened Wrappers
  import opened Strings
  import opened KeyedSet
  import Sql

  class Query<Row, Entity> {
    /** Selected field names, in insertion order, each once. */
    var fields: seq<string>
    /** Raw condition strings, in call order, duplicates kept. */
    var conditions: seq<string>
    /** Source entries `table` or `table as alias`, in insertion order, each once. */
    var from: seq<string>
    /** The limit; 0 means no LIMIT clause. */
    var limit: int
    /** `$this->model->newEntity`: turns one raw row into an entity. */
    const model: Row -> Entity

    /** The two keyed arrays never hold a name twice. */
    ghost predicate Valid()
      reads this
    {
      NoDup(fields) && NoDup(from)
    }

    constructor (model: Row -> Entity)
      ensures Valid()
      ensures fields == [] && conditions == [] && from == [] && limit == 0
      ensures this.model == model
    {
      this.model := model;
      fields, conditions, from, limit := [], [], [], 0;
    }

    /** `__toString`: the statement for the current state. */
    function Render(): (sql: string)
      reads this
      ensures StartsWith(sql, "SELECT ") && EndsWith(sql, ";")
    {
      Sql.RenderFrame(fields, conditions, from, limit);
      Sql.Render(fields, conditions, from, limit)
    }

    /**
     * `select(...$names)`: each name is written into the field set; names
     * already present stay where they are, new ones are appended in the order
     * of their first occurrence.
     */
    method Select(names: seq<string>)
      requires Valid()
      modifies this`fields
      ensures Valid()
      ensures fields == InsertAll(old(fields), names)
      ensures fields == old(fields) + Fresh(old(fields), names)
      ensures conditions == old(conditions) && from == old(from) && limit == old(limit)
    {
      for i := 0 to |names|
        invariant NoDup(fields)
        invariant fields == InsertAll(old(fields), names[..i])
      {
        assert names[..i + 1] == names[..i] + [names[i]];
        if names[i] !in fields {
          fields := fields + [names[i]];
        }
      }
      assert names[..|names|] == names;
      InsertAllAppendsFresh(old(fields), names);
    }

    /** `where(...$conditions)`: the conditions are appended in call order. */
    method Where(conds: seq<string>)
      requires Valid()
      modifies this`conditions
      ensures Valid()
      ensures conditions == old(conditions) + conds
      ensures fields == old(fields) && from == old(from) && limit == old(limit)
    {
      conditions := conditions + conds;
    }

    /**
     * `from($table, $alias)`: stores `table as alias` for a truthy alias and
     * `table` otherwise; an identical entry collapses and keeps its position.
     */
    method From(table: string, alias: Option<string>)
      requires Valid()
      modifies this`from
      ensures Valid()
      ensures from == Insert(old(from), Sql.SourceEntry(table, alias))
      ensures fields == old(fields) && conditions == old(conditions) && limit == old(limit)
    {
      from := Insert(from, Sql.SourceEntry(table, alias));
    }

    /** `limit($n)`: overwrites the limit; the last call wins. */
    method Limit(n: int)
      requires Valid()
      modifies this`limit
      ensures Valid()
      ensures limit == n
      ensures fields == old(fields) && conditions == old(conditions) && from == old(from)
    {
      limit := n;
    }

    /**
     * `first()`: sets the limit to 1 (and leaves it so), sends the statement
     * with the single-row flag and maps a returned row through the model;
     * without a row the absence is returned as is.
     */
    method First(fetchOne: string -> Option<Row>) returns (r: Option<Entity>)
      requires Valid()
      modifies this`limit
      ensures Valid()
      ensures limit == 1
      ensures fields == old(fields) && conditions == old(conditions) && from == old(from)
      ensures EndsWith(Render(), " LIMIT 1;")
      ensures fetchOne(Render()).Some? ==> r == Some(model(fetchOne(Render()).value))
      ensures fetchOne(Render()).None? ==> r == None
    {
      Limit(1);
      var sql := Render();
      Sql.RenderLimitOne(fields, conditions, from);
      var result := fetchOne(sql);
      r := if result.Some? then Some(model(result.value)) else None;
    }

    /**
     * `all()`: sends the statement for the current state and maps every
     * returned row through the model, one entity per row, in row order.
     */
    method All(fetchAll: string -> seq<Row>) returns (entities: seq<Entity>)
      ensures |entities| == |fetchAll(Render())|
      ensures forall i :: 0 <= i < |entities| ==> entities[i] == model(fetchAll(Render())[i])
    {
      var rows := fetchAll(Render());
      entities := seq(|rows|, i requires 0 <= i < |rows| => model(rows[i]));
    }
  }

  /*
   * Chains of calls and the state they leave. The statements these states
   * render to are worked out on values in `Sql` (TwoFieldsExample,
   * WhereExample, StarExample).
   */

  /** `select("id", "name")->from("users")`. */
  method ScenarioSelectFrom()
  {
    var names := ["id", "name"];
    assert InsertAll([], names) == names;
    var q := new Query<int, int>(row => row);
    q.Select(names);
    q.From("users", None);
    assert q.fields == ["id", "name"] && q.from == ["users"] && q.conditions == [] && q.limit == 0;
  }

  /** `from("users")->where("a=1")->where("b=2")`, then `limit(10)` and `first()`. */
  method ScenarioWhereFirst()
  {
    var p := new Query<int, int>(row => row);
    p.From("users", None);
    assert p.fields == [] && p.from == ["users"] && p.conditions == [] && p.limit == 0;
    p.Where(["a=1"]);
    p.Where(["b=2"]);
    assert p.conditions == ["a=1", "b=2"];
    p.Limit(10);
    var r := p.First(sql => Some(7));
    assert r == Some(7) && p.limit == 1;
    var none := p.All(sql => []);
    assert none == [];
  }

  /** Repeated names collapse. */
  method ScenarioSelectTwice()
  {
    var s := new Query<int, int>(row => row);
    s.Select(["id"]);
    s.Select(["id"]);
    assert s.fields == ["id"];
  }

  /** An identical source collapses and keeps its place. */
  method ScenarioSameAlias()
  {
    var u := "users as u";
    assert Sql.SourceEntry("users", Some("u")) == u;
    var s := new Query<int, int>(row => row);
    s.From("users", Some("u"));
    s.From("users", Some("u"));
    assert s.from == [u];
  }

  /** Another alias for the same table adds an entry; a falsy alias is dropped. */
  method ScenarioOtherAliases()
  {
    var u, v := "users as u", "users as v";
    assert Sql.SourceEntry("users", Some("u")) == u;
    assert Sql.SourceEntry("users", Some("v")) == v;
    assert Sql.SourceEntry("orders", Some("0")) == "orders";
    var s := new Query<int, int>(row => row);
    s.From("users", Some("u"));
    s.From("users", Some("v"));
    assert s.from == [u, v];
    s.From("orders", Some("0"));
    assert s.from == [u, v, "orders"];
  }
}
