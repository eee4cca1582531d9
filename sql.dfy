/**
 * The text `Query::__toString` assembles from the builder's state, as a pure
 * function of the four accumulators, and the shape that text is proved to have.
 */
module Sql {
  import opened Wrappers
  import opened Strings
  import opened KeyedSet

  /** PHP truthiness of `?string $alias`: `null`, `""` and `"0"` are false. */
  predicate AliasGiven(alias: Option<string>): (given: bool)
    ensures given ==> alias.Some? && |alias.value| > 0
    ensures alias.Some? && |alias.value| >= 2 ==> given
  {
    alias.Some? && alias.value != "" && alias.value != "0"
  }

  /** The entry `from($table, $alias)` stores: `"$table as $alias"` for a truthy alias, else the table. */
  function SourceEntry(table: string, alias: Option<string>): (e: string)
    ensures StartsWith(e, table)
    ensures AliasGiven(alias) <==> e != table
  {
    if AliasGiven(alias) then table + " as " + alias.value else table
  }

  /** For one table, two truthy aliases give the same entry exactly when they are the same alias. */
  lemma SourceEntryAliases(table: string, a: Option<string>, b: Option<string>)
    requires AliasGiven(a) && AliasGiven(b)
    ensures SourceEntry(table, a) == SourceEntry(table, b) <==> a == b
  {
    var k := |table + " as "|;
    if SourceEntry(table, a) == SourceEntry(table, b) {
      assert a.value == SourceEntry(table, a)[k..];
      assert b.value == SourceEntry(table, b)[k..];
    }
  }

  /**
   * `from(t, a)` then `from(t, b)` with two different truthy aliases keeps two
   * entries, in call order; repeating `from(t, a)` keeps one.
   */
  lemma TwoAliasesTwoSources(s: seq<string>, table: string, a: Option<string>, b: Option<string>)
    requires AliasGiven(a) && AliasGiven(b)
    requires SourceEntry(table, a) !in s && SourceEntry(table, b) !in s
    ensures a != b ==> Insert(Insert(s, SourceEntry(table, a)), SourceEntry(table, b))
                         == s + [SourceEntry(table, a), SourceEntry(table, b)]
    ensures Insert(Insert(s, SourceEntry(table, a)), SourceEntry(table, a)) == s + [SourceEntry(table, a)]
  {
    SourceEntryAliases(table, a, b);
  }

  /** `SELECT ` and the fields, or `SELECT * ` when there are none (src/ORM/Query.php:56-60). */
  function SelectClause(fields: seq<string>): (s: string)
    ensures StartsWith(s, "SELECT ")
    ensures fields != [] ==> s[|"SELECT "|..] == Join(fields, ", ")
  {
    if fields == [] then "SELECT * " else "SELECT " + Join(fields, ", ")
  }

  /** `FROM ` and the sources (src/ORM/Query.php:62); nothing follows `FROM ` when there are no sources. */
  function FromClause(from: seq<string>): (f: string)
    ensures StartsWith(f, "FROM ") && f[|"FROM "|..] == Join(from, ", ")
  {
    "FROM " + Join(from, ", ")
  }

  /** ` WHERE ` and the conditions, present exactly when there are conditions (src/ORM/Query.php:54). */
  function WhereClause(conditions: seq<string>): (w: string)
    ensures w == "" <==> conditions == []
    ensures conditions != [] ==> StartsWith(w, " WHERE ")
  {
    if conditions == [] then "" else " WHERE " + Join(conditions, " AND ")
  }

  /** ` LIMIT ` and the limit, present exactly when the limit is non-zero (src/ORM/Query.php:65-67). */
  function LimitClause(limit: int): (l: string)
    ensures l == "" <==> limit == 0
    ensures limit != 0 ==> StartsWith(l, " LIMIT ") && ParseInt(l[|" LIMIT "|..]) == Some(limit)
  {
    if limit == 0 then ""
    else
      var l := " LIMIT " + IntToString(limit);
      assert l[|" LIMIT "|..] == IntToString(limit);
      IntRoundTrip(limit);
      l
  }

  /** The whole statement, terminated by `;` (src/ORM/Query.php:69). */
  function Render(fields: seq<string>, conditions: seq<string>, from: seq<string>, limit: int): (sql: string)
    ensures |sql| > |"SELECT FROM "| && sql[|sql| - 1] == ';'
  {
    SelectClause(fields) + FromClause(from) + WhereClause(conditions) + LimitClause(limit) + ";"
  }

  /** Every statement opens with `SELECT ` and is terminated by `;`. */
  lemma RenderFrame(fields: seq<string>, conditions: seq<string>, from: seq<string>, limit: int)
    ensures StartsWith(Render(fields, conditions, from, limit), "SELECT ")
    ensures EndsWith(Render(fields, conditions, from, limit), ";")
  {
    var s0 := SelectClause(fields);
    if fields == [] {
      PrefixExtends("SELECT ", "SELECT ", "* ");
    } else {
      PrefixExtends("SELECT ", "SELECT ", Join(fields, ", "));
    }
    var s1 := s0 + FromClause(from);
    PrefixExtends(s0, "SELECT ", FromClause(from));
    var s2 := s1 + WhereClause(conditions);
    PrefixExtends(s1, "SELECT ", WhereClause(conditions));
    var s3 := s2 + LimitClause(limit);
    PrefixExtends(s2, "SELECT ", LimitClause(limit));
    PrefixExtends(s3, "SELECT ", ";");
    SuffixExtends(";", ";", s3);
  }

  /** No fields: the statement opens with `SELECT * FROM ` and the sources. */
  lemma RenderWithoutFields(conditions: seq<string>, from: seq<string>, limit: int)
    ensures StartsWith(Render([], conditions, from, limit), "SELECT * FROM " + Join(from, ", "))
  {
    var p := "SELECT * FROM " + Join(from, ", ");
    assert SelectClause([]) + FromClause(from) == p;
    PrefixExtends(p, p, WhereClause(conditions));
    PrefixExtends(p + WhereClause(conditions), p, LimitClause(limit));
    PrefixExtends(p + WhereClause(conditions) + LimitClause(limit), p, ";");
  }

  /**
   * Some fields: the statement opens with `SELECT `, the fields joined by `, `,
   * and then `FROM ` with no space before it.
   */
  lemma RenderWithFields(fields: seq<string>, conditions: seq<string>, from: seq<string>, limit: int)
    requires fields != []
    ensures StartsWith(Render(fields, conditions, from, limit),
                       "SELECT " + Join(fields, ", ") + "FROM " + Join(from, ", "))
  {
    var p := "SELECT " + Join(fields, ", ") + "FROM " + Join(from, ", ");
    assert SelectClause(fields) + FromClause(from) == p;
    PrefixExtends(p, p, WhereClause(conditions));
    PrefixExtends(p + WhereClause(conditions), p, LimitClause(limit));
    PrefixExtends(p + WhereClause(conditions) + LimitClause(limit), p, ";");
  }

  /** The two-field example: `SELECT id, nameFROM users;`, with no space before `FROM`. */
  lemma TwoFieldsExample()
    ensures Render(["id", "name"], [], ["users"], 0) == "SELECT id, nameFROM users;"
  {
    assert Join(["id", "name"], ", ") == "id, name";
  }

  /** No fields: `SELECT * FROM users;`. */
  lemma StarExample()
    ensures Render([], [], ["users"], 0) == "SELECT * FROM users;"
  {
  }

  /** Two conditions from two `where` calls: `SELECT * FROM users WHERE a=1 AND b=2;`. */
  lemma WhereExample()
    ensures Render([], ["a=1", "b=2"], ["users"], 0) == "SELECT * FROM users WHERE a=1 AND b=2;"
  {
    assert Join(["a=1", "b=2"], " AND ") == "a=1 AND b=2";
    assert WhereClause(["a=1", "b=2"]) == " WHERE a=1 AND b=2";
    assert SelectClause([]) + FromClause(["users"]) == "SELECT * FROM users";
    assert LimitClause(0) == "";
  }

  /** Without conditions and limit, the statement ends right after the sources. */
  lemma RenderBare(fields: seq<string>, from: seq<string>)
    ensures EndsWith(Render(fields, [], from, 0), "FROM " + Join(from, ", ") + ";")
  {
    var sql := Render(fields, [], from, 0);
    var t := "FROM " + Join(from, ", ") + ";";
    assert sql == SelectClause(fields) + t;
    assert sql[|sql| - |t|..] == t;
  }

  /** Conditions and no limit: the statement ends with the WHERE clause. */
  lemma RenderEndsWithWhere(fields: seq<string>, conditions: seq<string>, from: seq<string>)
    requires conditions != []
    ensures EndsWith(Render(fields, conditions, from, 0), " WHERE " + Join(conditions, " AND ") + ";")
  {
    var sql := Render(fields, conditions, from, 0);
    var t := " WHERE " + Join(conditions, " AND ") + ";";
    assert sql == SelectClause(fields) + FromClause(from) + t;
    assert sql[|sql| - |t|..] == t;
  }

  /** Conditions and a limit: the WHERE clause comes right before the LIMIT clause. */
  lemma RenderEndsWithWhereLimit(fields: seq<string>, conditions: seq<string>, from: seq<string>, limit: int)
    requires conditions != [] && limit != 0
    ensures EndsWith(Render(fields, conditions, from, limit),
                     " WHERE " + Join(conditions, " AND ") + " LIMIT " + IntToString(limit) + ";")
  {
    var head := SelectClause(fields) + FromClause(from);
    var w, l := WhereClause(conditions), LimitClause(limit);
    SuffixExtends(w, w, head);
    SuffixGrows(head + w, w, l);
    SuffixGrows(head + w + l, w + l, ";");
    assert w == " WHERE " + Join(conditions, " AND ");
    assert l == " LIMIT " + IntToString(limit);
    assert w + l == " WHERE " + Join(conditions, " AND ") + " LIMIT " + IntToString(limit);
  }

  /**
   * The limit only adds ` LIMIT n` before the final `;`, and only when it is
   * non-zero, negative values included; the number written reads back as `limit`.
   */
  lemma LimitOnlyAppends(fields: seq<string>, conditions: seq<string>, from: seq<string>, limit: int)
    ensures var base := Render(fields, conditions, from, 0);
            Render(fields, conditions, from, limit) ==
              base[..|base| - 1] + (if limit == 0 then "" else " LIMIT " + IntToString(limit)) + ";"
  {
    var base := Render(fields, conditions, from, 0);
    var body := SelectClause(fields) + FromClause(from) + WhereClause(conditions);
    assert base == body + ";";
    assert base[..|base| - 1] == body;
  }

  /** Two condition lists in a row render as one WHERE clause, joined by ` AND `. */
  lemma WhereAppends(c1: seq<string>, c2: seq<string>)
    requires c1 != [] && c2 != []
    ensures WhereClause(c1 + c2) == WhereClause(c1) + " AND " + Join(c2, " AND ")
  {
    JoinAppend(c1, c2, " AND ");
  }

  /** With the limit 1 (what `first()` sets), the statement ends with ` LIMIT 1;`. */
  lemma RenderLimitOne(fields: seq<string>, conditions: seq<string>, from: seq<string>)
    ensures EndsWith(Render(fields, conditions, from, 1), " LIMIT 1;")
  {
    var sql := Render(fields, conditions, from, 1);
    assert IntToString(1) == "1";
    assert sql == SelectClause(fields) + FromClause(from) + WhereClause(conditions) + " LIMIT 1;";
    assert sql[|sql| - |" LIMIT 1;"|..] == " LIMIT 1;";
  }

  /** No sources: `FROM ` is followed directly by whatever comes next (a malformed statement). */
  lemma RenderWithoutSources(fields: seq<string>)
    ensures Render(fields, [], [], 0) == SelectClause(fields) + "FROM ;"
  {
  }

  /**
   * Condition text is inserted unescaped, so a condition can imitate a LIMIT
   * clause: two different states render to the same statement.
   */
  lemma ConditionCanImitateLimit()
    ensures Render([], ["x LIMIT 5"], ["t"], 0) == Render([], ["x"], ["t"], 5)
  {
    assert IntToString(5) == "5";
  }
}
