/**
 The pruned leaderboard: every accepted submission is inserted and all but the first ten rows
 are deleted at once. The reference keeps every accepted submission.
 */
module Leaderboard {
  import opened Text

  datatype Row = Row(id: nat, name: string, score: int, timeSec: int, createdAt: int)
  datatype Submission = Submission(name: string, score: int, timeSec: int, now: int)
  datatype Answer = Added | BadScore | BadTime | NotTop10

  const LIMIT := 10

  /** Higher score, then shorter time, then earlier row. */
  predicate Better(a: Row, b: Row) {
    || a.score > b.score
    || (a.score == b.score && a.timeSec < b.timeSec)
    || (a.score == b.score && a.timeSec == b.timeSec && a.id < b.id)
  }

  function Clean(name: string): (r: string)
    ensures 1 <= |r| <= 13 && (Trim(name) == "" ==> r == "DOGE")
    ensures Trim(name) != "" ==> r <= Trim(name) && (|r| == 13 || r == Trim(name))
  {
    var shown := Trim(if name == "" then "DOGE" else name);
    var cut := if |shown| > 13 then shown[..13] else shown;
    if cut == "" then "DOGE" else cut
  }

  function Refusal(s: Submission): Answer {
    if s.score <= 0 || s.score > 999_999_999 then BadScore
    else if s.timeSec < 0 || s.timeSec > 864_000 then BadTime
    else Added
  }

  /** What is accepted: a score from 1 to 999999999 in at most ten days. */
  lemma {:induction false} RefusalIs(s: Submission)
    ensures Refusal(s) == Added <==> 1 <= s.score <= 999_999_999 && 0 <= s.timeSec <= 10 * 24 * 3600
    ensures Refusal(s) == BadScore <==> !(1 <= s.score <= 999_999_999)
    ensures Refusal(s) != NotTop10
  {
  }

  // ---- ordering ----

  function Insert(r: Row, sorted: seq<Row>): (s: seq<Row>)
    ensures |s| == |sorted| + 1
  {
    if sorted == [] then [r]
    else if Better(r, sorted[0]) then [r] + sorted
    else [sorted[0]] + Insert(r, sorted[1..])
  }

  /** The rows in leaderboard order. */
  function Ordered(rows: seq<Row>): (s: seq<Row>)
    ensures |s| == |rows|
  {
    if rows == [] then [] else Insert(rows[|rows| - 1], Ordered(rows[..|rows| - 1]))
  }

  function First(s: seq<Row>): seq<Row> { if |s| > LIMIT then s[..LIMIT] else s }

  predicate Sorted(s: seq<Row>) { forall i, j | 0 <= i < j < |s| :: Better(s[i], s[j]) }

  predicate DistinctIds(s: seq<Row>) { forall i, j | 0 <= i < j < |s| :: s[i].id != s[j].id }

  lemma {:induction false} InsertContents(r: Row, s: seq<Row>)
    ensures multiset(Insert(r, s)) == multiset(s) + multiset{r}
    ensures forall x :: x in Insert(r, s) <==> x == r || x in s
  {
    if s != [] {
      assert s == [s[0]] + s[1..];
      if !Better(r, s[0]) { InsertContents(r, s[1..]); }
    }
  }

  lemma {:induction false} InsertSorted(r: Row, s: seq<Row>)
    requires Sorted(s) && forall x | x in s :: x.id != r.id
    ensures Sorted(Insert(r, s))
  {
    if s != [] && !Better(r, s[0]) {
      assert s[0] in s;
      InsertSorted(r, s[1..]);
      InsertContents(r, s[1..]);
      assert forall x | x in Insert(r, s[1..]) :: Better(s[0], x);
    }
  }

  /** The order is a sorted arrangement of the same rows. */
  lemma {:induction false} OrderedIsSorted(rows: seq<Row>)
    requires DistinctIds(rows)
    ensures Sorted(Ordered(rows)) && multiset(Ordered(rows)) == multiset(rows)
    ensures forall x :: x in Ordered(rows) <==> x in rows
  {
    if rows != [] {
      var n := |rows| - 1;
      OrderedIsSorted(rows[..n]);
      InsertSorted(rows[n], Ordered(rows[..n]));
      InsertContents(rows[n], Ordered(rows[..n]));
      assert rows == rows[..n] + [rows[n]];
    }
  }

  /** What is already past the tenth place never matters again. */
  lemma {:induction false} InsertIntoFirst(r: Row, s: seq<Row>, k: nat)
    ensures var cut := if |s| > k then s[..k] else s; var ins := Insert(r, cut); var whole := Insert(r, s);
      (if |ins| > k then ins[..k] else ins) == (if |whole| > k then whole[..k] else whole)
  {
    if s != [] && k > 0 {
      var cut := if |s| > k then s[..k] else s;
      if !Better(r, s[0]) {
        InsertIntoFirst(r, s[1..], k - 1);
        assert cut[1..] == if |s[1..]| > k - 1 then s[1..][..k - 1] else s[1..];
      }
    }
  }

  // ---- deletion by id ----

  function Ids(s: seq<Row>): set<nat> { set r | r in s :: r.id }

  /** The rows with these ids, in table order. */
  function Keep(rows: seq<Row>, ids: set<nat>): seq<Row> {
    if rows == [] then [] else
    if rows[0].id in ids then [rows[0]] + Keep(rows[1..], ids) else Keep(rows[1..], ids)
  }

  lemma {:induction false} KeepContents(rows: seq<Row>, ids: set<nat>)
    ensures forall x :: x in Keep(rows, ids) <==> x in rows && x.id in ids
  {
    if rows != [] {
      KeepContents(rows[1..], ids);
      assert rows == [rows[0]] + rows[1..];
    }
  }

  lemma {:induction false} KeepSnoc(rows: seq<Row>, r: Row, ids: set<nat>)
    ensures Keep(rows + [r], ids) == Keep(rows, ids) + if r.id in ids then [r] else []
  {
    if rows == [] {
      assert (rows + [r])[1..] == [];
    } else {
      KeepSnoc(rows[1..], r, ids);
      assert (rows + [r])[1..] == rows[1..] + [r];
    }
  }

  lemma {:induction false} KeepInsert(r: Row, s: seq<Row>, ids: set<nat>)
    requires Sorted(s)
    ensures Keep(Insert(r, s), ids) == if r.id in ids then Insert(r, Keep(s, ids)) else Keep(s, ids)
  {
    if s == [] {
      assert [r][1..] == [];
    } else if Better(r, s[0]) {
      assert ([r] + s)[1..] == s;
      if Keep(s, ids) != [] { BetterThanKept(r, s, ids); }
    } else {
      KeepInsert(r, s[1..], ids);
      assert ([s[0]] + Insert(r, s[1..]))[1..] == Insert(r, s[1..]);
    }
  }

  lemma {:induction false} BetterThanKept(r: Row, s: seq<Row>, ids: set<nat>)
    requires Sorted(s) && s != [] && Better(r, s[0]) && Keep(s, ids) != []
    ensures Better(r, Keep(s, ids)[0])
  {
    var x := Keep(s, ids)[0];
    KeepContents(s, ids);
    assert x in s;
    var i :| 0 <= i < |s| && s[i] == x;
    if i > 0 { assert Better(s[0], s[i]); }
  }

  /** Ordering what is kept is keeping from the order. */
  lemma {:induction false} OrderedOfKept(rows: seq<Row>, ids: set<nat>)
    requires DistinctIds(rows)
    ensures Ordered(Keep(rows, ids)) == Keep(Ordered(rows), ids)
  {
    if rows != [] {
      hide Keep, Insert, Better, Sorted, Ordered;
      var n := |rows| - 1;
      OrderedOfKept(rows[..n], ids);
      OrderedSnoc(rows[..n], rows[n]);
      OrderedIsSorted(rows[..n]);
      KeepInsert(rows[n], Ordered(rows[..n]), ids);
      assert rows == rows[..n] + [rows[n]];
      OrderedOfLast(rows[..n], rows[n], ids);
    }
  }

  lemma {:induction false} OrderedOfLast(rows: seq<Row>, r: Row, ids: set<nat>)
    ensures Ordered(Keep(rows + [r], ids)) ==
      if r.id in ids then Insert(r, Ordered(Keep(rows, ids))) else Ordered(Keep(rows, ids))
  {
    hide *;
    KeepSnoc(rows, r, ids);
    if r.id in ids {
      OrderedSnoc(Keep(rows, ids), r);
    } else {
      assert Keep(rows, ids) + [] == Keep(rows, ids);
    }
  }

  lemma {:induction false} OrderedSnoc(rows: seq<Row>, r: Row)
    ensures Ordered(rows + [r]) == Insert(r, Ordered(rows))
  {
  }

  lemma {:induction false} KeepPrefix(s: seq<Row>, k: nat)
    requires DistinctIds(s) && k <= |s|
    ensures Keep(s, Ids(s[..k])) == s[..k]
  {
    hide Ids, Keep;
    var front, back := s[..k], s[k..];
    assert s == front + back;
    forall i | 0 <= i < |front| ensures front[i].id in Ids(front) { OwnId(front, i); }
    forall j | 0 <= j < |back| ensures back[j].id !in Ids(front) {
      assert forall i | 0 <= i < k :: s[i].id != s[k + j].id;
      ForeignId(front, back[j].id);
    }
    KeepAll(front, Ids(front));
    KeepNone(back, Ids(front));
    KeepAppend(front, back, Ids(front));
  }

  lemma {:induction false} OwnId(s: seq<Row>, i: nat)
    requires i < |s|
    ensures s[i].id in Ids(s)
  {
  }

  lemma {:induction false} ForeignId(s: seq<Row>, id: nat)
    requires forall i | 0 <= i < |s| :: s[i].id != id
    ensures id !in Ids(s)
  {
  }

  lemma {:induction false} KeepAll(s: seq<Row>, ids: set<nat>)
    requires forall i | 0 <= i < |s| :: s[i].id in ids
    ensures Keep(s, ids) == s
  {
    if s != [] { KeepAll(s[1..], ids); }
  }

  lemma {:induction false} KeepNone(s: seq<Row>, ids: set<nat>)
    requires forall i | 0 <= i < |s| :: s[i].id !in ids
    ensures Keep(s, ids) == []
  {
    if s != [] { KeepNone(s[1..], ids); }
  }

  lemma {:induction false} KeepAppend(s: seq<Row>, t: seq<Row>, ids: set<nat>)
    ensures Keep(s + t, ids) == Keep(s, ids) + Keep(t, ids)
  {
    if s == [] {
      assert s + t == t;
    } else {
      KeepAppend(s[1..], t, ids);
      assert (s + t)[1..] == s[1..] + t;
    }
  }

  // ---- one submission ----

  datatype Board = Board(rows: seq<Row>, lastId: nat)

  const EMPTY := Board([], 0)

  function NewRow(b: Board, s: Submission): Row { Row(b.lastId + 1, Clean(s.name), s.score, s.timeSec, s.now) }

  function Pruned(rows: seq<Row>): seq<Row> { Keep(rows, Ids(First(Ordered(rows)))) }

  function Step(b: Board, s: Submission): (Board, Answer) {
    if Refusal(s) != Added then (b, Refusal(s)) else
    var row := NewRow(b, s);
    var rows := Pruned(b.rows + [row]);
    (Board(rows, row.id), if row.id in Ids(rows) then Added else NotTop10)
  }

  class LeaderboardStore {
    var rows: seq<Row>
    var lastId: nat

    function State(): Board
      reads this
    {
      Board(rows, lastId)
    }

    constructor ()
      ensures State() == EMPTY
    {
      rows, lastId := [], 0;
    }

    method Top10() returns (r: seq<(string, int, int)>)
      ensures |r| == |First(Ordered(rows))|
      ensures forall i | 0 <= i < |r| :: var x := First(Ordered(rows))[i]; r[i] == (x.name, x.score, x.timeSec)
    {
      var best := First(Ordered(rows));
      r := [];
      for i := 0 to |best|
        invariant |r| == i && forall k | 0 <= k < i :: r[k] == (best[k].name, best[k].score, best[k].timeSec)
      {
        r := r + [(best[i].name, best[i].score, best[i].timeSec)];
      }
    }

    method TryAdd(name: string, score: int, timeSec: int, now: int) returns (answer: Answer)
      modifies this
      ensures (State(), answer) == Step(old(State()), Submission(name, score, timeSec, now))
    {
      var clean := Clean(name);
      if score <= 0 || score > 999_999_999 { return BadScore; }
      if timeSec < 0 || timeSec > 864_000 { return BadTime; }
      var newId := lastId + 1;
      rows := rows + [Row(newId, clean, score, timeSec, now)];
      lastId := newId;
      var keep := Ids(First(Ordered(rows)));
      rows := Keep(rows, keep);
      if newId in Ids(rows) { return Added; }
      return NotTop10;
    }
  }

  // ---- whole runs against the full history ----

  function Run(subs: seq<Submission>): Board {
    if subs == [] then EMPTY else Step(Run(subs[..|subs| - 1]), subs[|subs| - 1]).0
  }

  /** Every accepted submission, numbered from 1, none ever deleted. */
  function Accepted(subs: seq<Submission>): (all: seq<Row>)
    ensures |all| <= |subs|
  {
    if subs == [] then [] else
    var all, s := Accepted(subs[..|subs| - 1]), subs[|subs| - 1];
    if Refusal(s) != Added then all else all + [Row(|all| + 1, Clean(s.name), s.score, s.timeSec, s.now)]
  }

  lemma {:induction false} AcceptedIds(subs: seq<Submission>)
    ensures forall i | 0 <= i < |Accepted(subs)| :: Accepted(subs)[i].id == i + 1
    ensures DistinctIds(Accepted(subs))
  {
    if subs != [] { AcceptedIds(subs[..|subs| - 1]); }
  }

  /** The table is the first ten of all accepted submissions. */
  ghost predicate IsTopTen(b: Board, all: seq<Row>) {
    && Ordered(b.rows) == First(Ordered(all)) && b.lastId == |all|
    && DistinctIds(b.rows) && forall x | x in b.rows :: 1 <= x.id <= |all|
  }

  lemma {:induction false} KeepDistinct(rows: seq<Row>, ids: set<nat>)
    requires DistinctIds(rows)
    ensures DistinctIds(Keep(rows, ids))
  {
    if rows != [] {
      KeepDistinct(rows[1..], ids);
      KeepContents(rows[1..], ids);
      assert forall x | x in Keep(rows[1..], ids) :: x.id != rows[0].id;
    }
  }

  lemma {:induction false} PrunedOrder(rows: seq<Row>)
    requires DistinctIds(rows)
    ensures Ordered(Pruned(rows)) == First(Ordered(rows)) && DistinctIds(Pruned(rows))
  {
    var s := Ordered(rows);
    OrderedIsSorted(rows);
    SortedDistinct(rows);
    OrderedOfKept(rows, Ids(First(s)));
    KeepDistinct(rows, Ids(First(s)));
    if |s| > LIMIT { KeepPrefix(s, LIMIT); } else { KeepPrefix(s, |s|); assert s[..|s|] == s; }
  }

  lemma {:induction false} SortedDistinct(rows: seq<Row>)
    requires DistinctIds(rows)
    ensures DistinctIds(Ordered(rows))
  {
    if rows != [] {
      var n := |rows| - 1;
      SortedDistinct(rows[..n]);
      OrderedIsSorted(rows[..n]);
      InsertDistinct(rows[n], Ordered(rows[..n]));
    }
  }

  lemma {:induction false} InsertDistinct(r: Row, s: seq<Row>)
    requires DistinctIds(s) && forall x | x in s :: x.id != r.id
    ensures DistinctIds(Insert(r, s))
  {
    if s != [] && !Better(r, s[0]) {
      InsertDistinct(r, s[1..]);
      InsertContents(r, s[1..]);
      assert s[0] in s;
      assert forall x | x in Insert(r, s[1..]) :: x.id != s[0].id;
    }
  }

  lemma {:induction false} StepKeepsTopTen(b: Board, all: seq<Row>, s: Submission)
    requires IsTopTen(b, all) && Refusal(s) == Added
    ensures var row := NewRow(b, s);
      && IsTopTen(Step(b, s).0, all + [row])
      && (Step(b, s).1 == Added <==> row in First(Ordered(all + [row])))
  {
    var row := NewRow(b, s);
    var rows := b.rows + [row];
    assert DistinctIds(rows) by { assert forall i | 0 <= i < |b.rows| :: b.rows[i] in b.rows; }
    PrunedOrder(rows);
    SameFirst(b.rows, all, row);
    KeepContents(rows, Ids(First(Ordered(rows))));
    NewRowStored(rows, row);
  }

  lemma {:induction false} SameFirst(rows: seq<Row>, all: seq<Row>, row: Row)
    requires Ordered(rows) == First(Ordered(all))
    ensures First(Ordered(rows + [row])) == First(Ordered(all + [row]))
  {
    InsertIntoFirst(row, Ordered(all), LIMIT);
    OrderedSnoc(rows, row);
    OrderedSnoc(all, row);
  }

  lemma {:induction false} NewRowStored(rows: seq<Row>, row: Row)
    requires DistinctIds(rows) && row in rows
    ensures row.id in Ids(Pruned(rows)) <==> row in First(Ordered(rows))
  {
    PrunedOrder(rows);
    OrderedIsSorted(Pruned(rows));
    KeepContents(rows, Ids(First(Ordered(rows))));
    if row.id in Ids(Pruned(rows)) {
      var x :| x in Pruned(rows) && x.id == row.id;
      assert x in rows;
      assert x == row;
    }
  }

  /** After any submissions the stored table is the first ten of all accepted ones, which stand
      in order of rank and with an id of their own each. */
  lemma {:induction false} StoredIsTopTen(subs: seq<Submission>)
    ensures var all := Accepted(subs);
      && IsTopTen(Run(subs), all) && DistinctIds(all)
      && Sorted(Ordered(all)) && multiset(Ordered(all)) == multiset(all)
  {
    AcceptedIds(subs);
    OrderedIsSorted(Accepted(subs));
    if subs != [] {
      var n := |subs| - 1;
      StoredIsTopTen(subs[..n]);
      if Refusal(subs[n]) == Added { StepKeepsTopTen(Run(subs[..n]), Accepted(subs[..n]), subs[n]); }
    }
  }

  /** A submission is reported as added exactly when it is accepted and its row is among the
      first ten of all accepted submissions, itself included. */
  lemma {:induction false} AddedIffTopTen(subs: seq<Submission>, s: Submission)
    ensures Step(Run(subs), s).1 == Added <==>
      Refusal(s) == Added && NewRow(Run(subs), s) in First(Ordered(Accepted(subs + [s])))
  {
    hide Pruned, Ordered, First, DistinctIds;
    StoredIsTopTen(subs);
    assert (subs + [s])[..|subs|] == subs;
    if Refusal(s) == Added { StepKeepsTopTen(Run(subs), Accepted(subs), s); }
  }

  // ---- in plain terms ----

  /** An accepted submission is kept in full with its own fields. */
  lemma {:induction false} AcceptedKeepsFields(subs: seq<Submission>, s: Submission)
    requires 1 <= s.score <= 999_999_999 && 0 <= s.timeSec <= 864_000
    ensures var all := Accepted(subs + [s]);
      && all != [] && all[..|all| - 1] == Accepted(subs)
      && all[|all| - 1].name == Clean(s.name) && all[|all| - 1].score == s.score
      && all[|all| - 1].timeSec == s.timeSec && all[|all| - 1].createdAt == s.now
  {
    assert (subs + [s])[..|subs|] == subs;
  }

  lemma {:induction false} FirstAreBetter(s: seq<Row>, x: Row, y: Row)
    requires Sorted(s) && x in First(s) && y in s && y !in First(s)
    ensures Better(x, y)
  {
    var i :| 0 <= i < |First(s)| && First(s)[i] == x;
    var j :| 0 <= j < |s| && s[j] == y;
    FrontIsFirst(s, j);
  }

  lemma {:induction false} FrontIsFirst(s: seq<Row>, j: nat)
    requires j < |s|
    ensures j < |First(s)| ==> First(s)[j] == s[j] && s[j] in First(s)
  {
  }

  /** The stored rows are at most ten of the accepted ones, as many as there are, and each of them
      has a higher score than every accepted row that is not stored, or the same in less time, or
      the same in the same time and came earlier. */
  lemma {:induction false} StoredAreBest(subs: seq<Submission>, x: Row, y: Row)
    requires x in Run(subs).rows && y in Accepted(subs) && y !in Run(subs).rows
    ensures var rows, all := Run(subs).rows, Accepted(subs);
      && |rows| == (if |all| < 10 then |all| else 10) && x in all
      && (x.score > y.score || (x.score == y.score && x.timeSec < y.timeSec) || (x.score == y.score && x.timeSec == y.timeSec && x.id < y.id))
  {
    hide Ordered, Sorted, First, Better;
    var rows, all := Run(subs).rows, Accepted(subs);
    StoredIsTopTen(subs);
    OrderedIsSorted(rows);
    OrderedIsSorted(all);
    FirstIsFront(Ordered(all));
    assert |rows| == |Ordered(rows)| && |all| == |Ordered(all)|;
    FirstAreBetter(Ordered(all), x, y);
    BetterIs(x, y);
  }

  lemma {:induction false} FirstIsFront(s: seq<Row>)
    ensures First(s) <= s && |First(s)| == if |s| < 10 then |s| else 10
    ensures forall x | x in First(s) :: x in s
  {
  }

  lemma {:induction false} BetterIs(x: Row, y: Row)
    ensures Better(x, y) <==>
      x.score > y.score || (x.score == y.score && x.timeSec < y.timeSec) || (x.score == y.score && x.timeSec == y.timeSec && x.id < y.id)
  {
  }
}
