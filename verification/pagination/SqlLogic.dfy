/** WHERE clauses under SQL's three-valued logic. */
module SqlLogic {
  import opened Common
  import opened SortOrder

  datatype Truth = True | False | Unknown

  /** Kleene conjunction. */
  function And3(a: Truth, b: Truth): Truth {
    if a == False || b == False then False else if a == True && b == True then True else Unknown
  }

  /** Kleene disjunction. */
  function Or3(a: Truth, b: Truth): Truth {
    if a == True || b == True then True else if a == False && b == False then False else Unknown
  }

  function OfBool(b: bool): Truth { if b then True else False }

  /** The expressions the paginators build; `col` is the index of a sort expression. */
  datatype Where =
    | Falsum
    | Greater(col: nat, bind: Key)
    | Less(col: nat, bind: Key)
    | Equal(col: nat, bind: Key)
    | IsNull(col: nat)
    | IdGreater(id: nat)
    | IdLess(id: nat)
    | And(args: seq<Where>)
    | Or(args: seq<Where>)

  /** A comparison with NULL on either side is UNKNOWN. */
  function Compare(a: Key, b: Key, holds: bool): Truth {
    if a.None? || b.None? then Unknown else OfBool(holds)
  }

  function Cell(r: Row, col: nat): Key {
    if col < |r.keys| then r.keys[col] else None
  }

  function Eval(w: Where, r: Row): Truth
    decreases w, 0
  {
    match w
    case Falsum => False
    case Greater(c, b) => Compare(Cell(r, c), b, KeyBefore(b, Cell(r, c), true))
    case Less(c, b) => Compare(Cell(r, c), b, KeyBefore(b, Cell(r, c), false))
    case Equal(c, b) => Compare(Cell(r, c), b, Cell(r, c) == b)
    case IsNull(c) => OfBool(Cell(r, c).None?)
    case IdGreater(id) => OfBool(r.id > id)
    case IdLess(id) => OfBool(r.id < id)
    case And(args) => EvalAll(args, r)
    case Or(args) => EvalAny(args, r)
  }

  function EvalAll(ws: seq<Where>, r: Row): Truth
    decreases ws, 1
  {
    if ws == [] then True else And3(EvalAll(ws[..|ws| - 1], r), Eval(ws[|ws| - 1], r))
  }

  function EvalAny(ws: seq<Where>, r: Row): Truth
    decreases ws, 1
  {
    if ws == [] then False else Or3(EvalAny(ws[..|ws| - 1], r), Eval(ws[|ws| - 1], r))
  }

  /** A row passes WHERE only when the clause is TRUE; UNKNOWN does not pass. */
  predicate Passes(w: Where, r: Row) {
    Eval(w, r) == True
  }

  function Select(rows: seq<Row>, w: Option<Where>): (out: seq<Row>)
    ensures w.None? ==> out == rows
  {
    if rows == [] then []
    else (if w.None? || Passes(w.value, rows[0]) then [rows[0]] else []) + Select(rows[1..], w)
  }

  /** A clause that is TRUE exactly on the rows after `at` selects exactly those. */
  lemma {:induction false} SelectIsSeek(rows: seq<Row>, w: Where, at: Row, width: nat, asc: bool)
    requires forall r <- rows :: |r.keys| == width
    requires forall r: Row :: |r.keys| == width ==> (Passes(w, r) <==> Before(at, r, asc))
    ensures Select(rows, Some(w)) == RowsAfter(rows, Some(at), asc)
  {
    if rows != [] {
      assert rows[0] in rows;
      SelectIsSeek(rows[1..], w, at, width, asc);
    }
  }
}
