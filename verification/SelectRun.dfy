/** Running a statement over a stream of rows, with LIMIT and COUNT(*). */
module SelectRun {
  import opened Types
  import opened Sql
  import opened Predicates
  import Decimal

  /** The output line of a row, or none when a value has no encoding. */
  const RowText: (Query, Row) -> Option<string>

  /** The output line of a count: its text between what the output format puts around it. */
  const CountText: string -> string

  datatype Outcome = Records(body: string) | QueryFailed

  // ---- the answer, by reading all rows ----

  predicate Selected(q: Query, row: Row) { q.where.Some? ==> Test(q.where.value, row, q.alias) }

  function Matching(q: Query, rows: seq<Row>): seq<Row> {
    if rows == [] then []
    else Matching(q, rows[..|rows| - 1]) + if Selected(q, rows[|rows| - 1]) then [rows[|rows| - 1]] else []
  }

  predicate Overfull(q: Query, matching: seq<Row>) { 0 <= q.limit < |matching| }

  /** The rows the statement asks for: the first LIMIT matching ones. */
  function Wanted(q: Query, matching: seq<Row>): seq<Row> {
    if Overfull(q, matching) then matching[..q.limit] else matching
  }

  function Lines(q: Query, rows: seq<Row>): Option<string> {
    if rows == [] then Some("")
    else
      match (Lines(q, rows[..|rows| - 1]), RowText(q, rows[|rows| - 1]))
      case (Some(before), Some(line)) => Some(before + line)
      case _ => None
  }

  /** What the statement answers on these rows; `broken` says that reading fails after them. The
      failure counts unless the limit has already been exceeded. */
  function Answer(q: Query, rows: seq<Row>, broken: bool): Outcome {
    var matching := Matching(q, rows);
    if broken && !Overfull(q, matching) then QueryFailed
    else if q.proj.countStar then Records(CountText(Decimal.Dec(|Wanted(q, matching)|)))
    else
      match Lines(q, Wanted(q, matching))
      case None => QueryFailed
      case Some(body) => Records(body)
  }

  // ---- the stream ----

  datatype Step = Continue | LimitReached | RowFailed

  /** The state the row handler updates. */
  class Run {
    var body: string
    var matched: nat
    var count: nat

    constructor ()
      ensures body == "" && matched == 0 && count == 0
    {
      body, matched, count := "", 0, 0;
    }

    /** The handler has seen rows with these matches and has neither stopped nor failed. */
    ghost predicate After(q: Query, matching: seq<Row>)
      reads this
    {
      && matched == |matching| && !Overfull(q, matching)
      && if q.proj.countStar then count == matched && body == "" else count == 0 && Lines(q, matching) == Some(body)
    }

    method Handle(q: Query, row: Row, ghost matching: seq<Row>) returns (step: Step)
      requires After(q, matching)
      modifies this
      ensures var now := if Selected(q, row) then matching + [row] else matching;
        match step
        case Continue => After(q, now)
        case LimitReached => Overfull(q, now) && After(q, matching)
        case RowFailed => !Overfull(q, now) && !q.proj.countStar && Lines(q, now) == None
    {
      if q.where.Some? {
        if !Test(q.where.value, row, q.alias) {
          return Continue;
        }
      }
      hide Test;
      if q.limit >= 0 && matched >= q.limit {
        return LimitReached;
      }
      matched := matched + 1;
      assert (matching + [row])[..|matching|] == matching;
      if q.proj.countStar {
        count := count + 1;
        return Continue;
      }
      var line := RowText(q, row);
      if line == None {
        return RowFailed;
      }
      body := body + line.value;
      return Continue;
    }
  }

  lemma {:induction false} LinesGrow(q: Query, rows: seq<Row>, n: nat)
    requires n <= |rows| && Lines(q, rows).Some?
    ensures Lines(q, rows[..n]).Some?
  {
    if n < |rows| {
      LinesGrow(q, rows[..|rows| - 1], n);
      assert rows[..|rows| - 1][..n] == rows[..n];
    } else {
      assert rows[..n] == rows;
    }
  }

  lemma {:induction false} MatchingGrows(q: Query, rows: seq<Row>, n: nat)
    requires n <= |rows|
    ensures Matching(q, rows[..n]) <= Matching(q, rows)
    decreases |rows|
  {
    hide Selected;
    if n < |rows| {
      MatchingGrows(q, rows[..|rows| - 1], n);
      assert rows[..|rows| - 1][..n] == rows[..n];
    } else {
      assert rows[..n] == rows;
    }
  }

  /** A row that cannot be written fails the statement, whatever comes after it. */
  lemma FailsAnyway(q: Query, rows: seq<Row>, n: nat, broken: bool)
    requires n <= |rows| && !q.proj.countStar
    requires !Overfull(q, Matching(q, rows[..n])) && Lines(q, Matching(q, rows[..n])) == None
    ensures Answer(q, rows, broken) == QueryFailed
  {
    hide Matching;
    MatchingGrows(q, rows, n);
    var some, all := Matching(q, rows[..n]), Matching(q, rows);
    var wanted := Wanted(q, all);
    assert some == wanted[..|some|];
    if Lines(q, wanted).Some? { LinesGrow(q, wanted, |some|); }
  }

  /** EARLY STOP: once more rows match than the limit asks for, what follows does not matter. */
  lemma StopsEarly(q: Query, rows: seq<Row>, n: nat, broken: bool, broken2: bool)
    requires n <= |rows| && Overfull(q, Matching(q, rows[..n]))
    ensures Answer(q, rows, broken) == Answer(q, rows[..n], broken2)
  {
    hide Matching, Lines;
    MatchingGrows(q, rows, n);
    assert Wanted(q, Matching(q, rows)) == Wanted(q, Matching(q, rows[..n]));
  }

  /** The streaming loop answers what reading all rows would, for every statement and every stream. */
  method Execute(q: Query, rows: seq<Row>, broken: bool) returns (r: Outcome)
    ensures r == Answer(q, rows, broken)
  {
    hide Selected, Test;
    var run := new Run();
    assert rows[..0] == [];
    var limited := false;
    var i := 0;
    while i < |rows| && !limited
      invariant i <= |rows|
      invariant fresh(run)
      invariant !limited ==> run.After(q, Matching(q, rows[..i]))
      invariant limited ==> Overfull(q, Matching(q, rows[..i])) && run.After(q, Wanted(q, Matching(q, rows[..i])))
      decreases |rows| - i
    {
      ghost var before := Matching(q, rows[..i]);
      var step := run.Handle(q, rows[i], before);
      assert rows[..i + 1][..i] == rows[..i] && before + [] == before;
      i := i + 1;
      if step == RowFailed {
        FailsAnyway(q, rows, i, broken);
        return QueryFailed;
      }
      if step == LimitReached {
        assert Wanted(q, Matching(q, rows[..i])) == before;
        limited := true;
      }
    }
    if limited {
      StopsEarly(q, rows, i, broken, broken);
    } else {
      assert rows[..i] == rows;
      if broken {
        return QueryFailed;
      }
    }
    if q.proj.countStar {
      return Records(CountText(Decimal.Dec(run.count)));
    }
    return Records(run.body);
  }

  // ---- what the answer is ----

  /** Where the matching rows stand. */
  function Places(q: Query, rows: seq<Row>): set<int> { set i | 0 <= i < |rows| && Selected(q, rows[i]) }

  lemma PlacesGrow(q: Query, rows: seq<Row>)
    requires rows != []
    ensures var n := |rows| - 1;
      |Places(q, rows)| == |Places(q, rows[..n])| + if Selected(q, rows[n]) then 1 else 0
  {
    hide Selected;
    var init, n := rows[..|rows| - 1], |rows| - 1;
    assert Places(q, rows) == if Selected(q, rows[n]) then Places(q, init) + {n} else Places(q, init);
  }

  lemma {:induction false} MatchingAre(q: Query, rows: seq<Row>)
    ensures forall row | row in Matching(q, rows) :: row in rows && Selected(q, row)
    ensures |Matching(q, rows)| == |Places(q, rows)|
  {
    hide Selected;
    if rows != [] {
      var init, n := rows[..|rows| - 1], |rows| - 1;
      MatchingAre(q, init);
      PlacesGrow(q, rows);
      hide Places;
    }
  }

  /** COUNT(*) counts the matching rows, at most LIMIT of them. */
  lemma CountIs(q: Query, rows: seq<Row>)
    requires q.proj.countStar
    ensures var all := |Places(q, rows)|;
      Answer(q, rows, false) == Records(CountText(Decimal.Dec(if 0 <= q.limit < all then q.limit else all)))
  {
    hide Selected;
    MatchingAre(q, rows);
  }

  /** A stream that breaks off after these rows is answered as every way it might have gone on would be, if
      and only if more rows matched than were asked for or a row could not be written. */
  lemma BrokenExact(q: Query, rows: seq<Row>)
    ensures (forall more, broken :: Answer(q, rows, true) == Answer(q, rows + more, broken)) <==>
      Overfull(q, Matching(q, rows)) || (!q.proj.countStar && Lines(q, Matching(q, rows)) == None)
  {
    hide Matching, Lines;
    var matching := Matching(q, rows);
    if Overfull(q, matching) {
      forall more: seq<Row>, broken ensures Answer(q, rows, true) == Answer(q, rows + more, broken) {
        assert (rows + more)[..|rows|] == rows;
        StopsEarly(q, rows + more, |rows|, broken, true);
      }
    } else if !q.proj.countStar && Lines(q, matching) == None {
      forall more: seq<Row>, broken ensures Answer(q, rows, true) == Answer(q, rows + more, broken) {
        assert (rows + more)[..|rows|] == rows;
        FailsAnyway(q, rows + more, |rows|, broken);
      }
    } else {
      assert rows + [] == rows;
      assert Answer(q, rows, true) != Answer(q, rows + [], false);
    }
  }
}
