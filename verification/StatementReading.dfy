/**
 Reading a rendered statement back. The reader knows the contract's words and nothing of precedence or
 associativity: a filter is a comparison, or two filters in parentheses with AND or OR between them.
 */
module StatementReading {
  import opened Words
  import opened Values
  import opened Texts
  import opened Statements

  type Parameters = map<Str, Value>

  /** `$p` and a number, standing for the value bound under that name. */
  function ReadReference(t: Str, ps: Parameters): (r: Read<Value>)
    ensures r.Got? ==> |r.rest| < |t|
  {
    var (name, t1) :- ReadName(t);
    if name in ps then Got(ps[name], t1) else Not
  }

  function ReadSymbol(t: Str): (r: Read<int>)
    ensures r.Got? ==> |r.rest| <= |t|
  {
    if Opens(t, "= ") then Got(0, Past(t, "="))
    else if Opens(t, "!= ") then Got(1, Past(t, "!="))
    else if Opens(t, "< ") then Got(2, Past(t, "<"))
    else if Opens(t, "<= ") then Got(3, Past(t, "<="))
    else if Opens(t, "> ") then Got(4, Past(t, ">"))
    else if Opens(t, ">= ") then Got(5, Past(t, ">="))
    else Not
  }

  function ReadComparison(t: Str, ps: Parameters): (r: Read<Filter>)
    ensures r.Got? ==> |r.rest| < |t|
  {
    var (field, t1) :- ReadName(t);
    var (_, t2) :- Skip(t1, " ");
    var (op, t3) :- ReadSymbol(t2);
    var (_, t4) :- Skip(t3, " $");
    var (value, t5) :- ReadReference(t4, ps);
    Got(Comparison(field, op, value), t5)
  }

  function ReadJoint(t: Str): (both: Read<bool>)
    ensures both.Got? ==> |both.rest| < |t|
  {
    if Opens(t, " AND ") then Got(true, Past(t, " AND "))
    else if Opens(t, " OR ") then Got(false, Past(t, " OR "))
    else Not
  }

  function ReadFilter(t: Str, ps: Parameters): (r: Read<Filter>)
    ensures r.Got? ==> |r.rest| < |t|
    decreases |t|
  {
    if Opens(t, "(") then
      var (left, t1) :- ReadFilter(Past(t, "("), ps);
      var (both, t2) :- ReadJoint(t1);
      var (right, t3) :- ReadFilter(t2, ps);
      var (_, t4) :- Skip(t3, ")");
      Got(if both then And(left, right) else Or(left, right), t4)
    else ReadComparison(t, ps)
  }

  // ---------- lists ----------

  /** One or more parts with commas between them. */
  function ReadListed<T>(t: Str, one: Str -> Read<T>): (r: Read<seq<T>>)
    decreases |t|
  {
    var (first, t1) :- one(t);
    if Opens(t1, ", ") && |t1| <= |t| then
      var (rest, t2) :- ReadListed(Past(t1, ", "), one);
      Got([first] + rest, t2)
    else Got([first], t1)
  }

  function ReadItem(t: Str): (r: Read<Item>)
  {
    if Opens(t, "string::lines(") then
      var (name, t1) :- ReadName(Past(t, "string::lines("));
      var (_, t2) :- Skip(t1, ", ");
      var (start, t3) :- ReadNumber(t2);
      var (_, t4) :- Skip(t3, ", ");
      var (count, t5) :- ReadNumber(t4);
      var (_, t6) :- Skip(t5, ") AS ");
      var (again, t7) :- ReadName(t6);
      if again == name && start < TWO_64 && count < TWO_64 then Got(Lines(name, start, count), t7) else Not
    else
      var (name, t1) :- ReadName(t);
      Got(Field(name), t1)
  }

  function ReadItems(t: Str): Read<seq<Item>> {
    if Opens(t, "*") then Got([], Past(t, "*")) else ReadListed(t, ReadItem)
  }

  function ReadOrdering(t: Str): Read<Ordering> {
    var (field, t1) :- ReadName(t);
    if Opens(t1, " ASC") then Got(Ordering(field, 0), Past(t1, " ASC"))
    else if Opens(t1, " DESC") then Got(Ordering(field, 1), Past(t1, " DESC"))
    else Not
  }

  function ReadField(t: Str, sep: string, ps: Parameters): Read<(Str, Value)> {
    var (name, t1) :- ReadName(t);
    var (_, t2) :- Skip(t1, sep);
    var (value, t3) :- ReadReference(t2, ps);
    Got((name, value), t3)
  }

  function FieldReader(sep: string, ps: Parameters): Str -> Read<(Str, Value)> {
    part => ReadField(part, sep, ps)
  }

  function FieldsOf(pairs: seq<(Str, Value)>): map<Str, Value> {
    if pairs == [] then map[] else FieldsOf(pairs[1..])[pairs[0].0 := pairs[0].1]
  }

  function ReadFields(t: Str, sep: string, ps: Parameters): Read<map<Str, Value>> {
    var (pairs, t1) :- ReadListed(t, FieldReader(sep, ps));
    Got(FieldsOf(pairs), t1)
  }

  function ReadObject(t: Str, ps: Parameters): Read<map<Str, Value>> {
    var (_, t1) :- Skip(t, "{ ");
    var (fields, t2) :- ReadFields(t1, ": $", ps);
    var (_, t3) :- Skip(t2, " }");
    Got(fields, t3)
  }

  // ---------- clauses ----------

  function ReadWhere(t: Str, ps: Parameters): Read<Filter> {
    if Opens(t, " WHERE ") then ReadFilter(Past(t, " WHERE "), ps) else Got(NoFilter, t)
  }

  function ReadOrderBy(t: Str): Read<seq<Ordering>> {
    if Opens(t, " ORDER BY ") then ReadListed(Past(t, " ORDER BY "), ReadOrdering) else Got([], t)
  }

  function ReadCount(t: Str, word: string): Read<Option<UInt64>> {
    if Opens(t, word) then
      var (n, t1) :- ReadNumber(Past(t, word));
      if n < TWO_64 then Got(Some(n), t1) else Not
    else Got(Nothing, t)
  }

  function ReadWord(t: Str, word: string): Read<Str> {
    if Opens(t, word) then
      var t1 := Past(t, word);
      Got(t1[..Run(t1)], t1[Run(t1)..])
    else Got([], t)
  }

  function ReadQuery(t: Str, ps: Parameters): Read<Query> {
    var (items, t1) :- ReadItems(t);
    var (_, t2) :- Skip(t1, " FROM ");
    var (table, t3) :- ReadName(t2);
    ReadTail(t3, ps, table, items)
  }

  /** The optional clauses, in the one order the contract gives them. */
  function ReadTail(t3: Str, ps: Parameters, table: Str, items: seq<Item>): Read<Query> {
    var (filter, t4) :- ReadWhere(t3, ps);
    var (order, t5) :- ReadOrderBy(t4);
    var (start, t6) :- ReadCount(t5, " START ");
    var (limit, t7) :- ReadCount(t6, " LIMIT ");
    var (staleness, t8) :- ReadWord(t7, " STALENESS ");
    var (answeredBy, t9) :- ReadWord(t8, " ANSWERED BY ");
    Got(Query(table, items, filter, order, start, limit, staleness, answeredBy), t9)
  }

  function ReadCreate(t: Str, ps: Parameters): Read<Statement> {
    var (table, t1) :- ReadName(t);
    if Opens(t1, ":$") then
      var (id, t2) :- ReadReference(Past(t1, ":$"), ps);
      var (_, t3) :- Skip(t2, " = ");
      var (fields, t4) :- ReadObject(t3, ps);
      Got(CreateRecord(table, id, fields), t4)
    else
      var (_, t2) :- Skip(t1, " = ");
      var (fields, t3) :- ReadObject(t2, ps);
      Got(CreateInTable(table, fields), t3)
  }

  function ReadUpdate(t: Str, ps: Parameters): Read<Statement> {
    var (table, t1) :- ReadName(t);
    var (_, t2) :- Skip(t1, ":$");
    var (id, t3) :- ReadReference(t2, ps);
    var (_, t4) :- Skip(t3, " SET ");
    var (fields, t5) :- ReadFields(t4, " = $", ps);
    Got(UpdateRecord(table, id, fields), t5)
  }

  function ReadDelete(t: Str, ps: Parameters): Read<Statement> {
    var (table, t1) :- ReadName(t);
    var (_, t2) :- Skip(t1, ":$");
    var (id, t3) :- ReadReference(t2, ps);
    Got(DeleteRecord(table, id), t3)
  }

  function ReadSelect(t: Str, ps: Parameters): Read<Statement> {
    var (query, t1) :- ReadQuery(t, ps);
    Got(Select(query), t1)
  }

  /** The statement a script and its parameters stand for, when they stand for one. */
  function ReadStatement(script: Str, ps: Parameters): Option<Statement> {
    var read :=
      if Opens(script, "SELECT ") then ReadSelect(Past(script, "SELECT "), ps)
      else if Opens(script, "CREATE ") then ReadCreate(Past(script, "CREATE "), ps)
      else if Opens(script, "UPDATE ") then ReadUpdate(Past(script, "UPDATE "), ps)
      else if Opens(script, "DELETE ") then ReadDelete(Past(script, "DELETE "), ps)
      else Not;
    if read.Got? && read.rest == Ascii(";") then Some(read.value) else Nothing
  }
}
