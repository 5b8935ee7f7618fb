/** The keyword-count specialty router of medmatch/logic_engine.py: every
    symptom row whose keyword occurs in the patient's text (both lowercased)
    adds one point to its specialty, and the specialty with most points wins,
    ties going to the specialty that scored first. */
module SymptomRouter {
  import opened Common

  /** One row of the `symptoms` table. */
  datatype SymptomRow = SymptomRow(keyword: string, specialtyId: int)

  /** The row's keyword, lowercased, is a substring of the lowercased input. */
  predicate Hits(row: SymptomRow, input: string) {
    OccursIn(Lower(row.keyword), Lower(input))
  }

  /** The row counts for specialty `s`. */
  predicate Scores(row: SymptomRow, input: string, s: int) {
    row.specialtyId == s && Hits(row, input)
  }

  /** Number of rows counting for `s`: each matching row adds one point,
      however often its keyword occurs. */
  function Score(rows: seq<SymptomRow>, input: string, s: int): nat
    decreases |rows|
  {
    if rows == [] then 0
    else Score(rows[..|rows| - 1], input, s) + (if Scores(rows[|rows| - 1], input, s) then 1 else 0)
  }

  /** Position of the first row counting for `s`, or `|rows|` if none does. */
  function FirstHit(rows: seq<SymptomRow>, input: string, s: int): (r: nat)
    ensures r <= |rows|
    ensures r < |rows| ==> Scores(rows[r], input, s)
    ensures forall j | 0 <= j < r :: !Scores(rows[j], input, s)
    decreases |rows|
  {
    if rows == [] then 0
    else if Scores(rows[0], input, s) then 0
    else 1 + FirstHit(rows[1..], input, s)
  }

  /** A specialty scores exactly when some row counts for it. */
  lemma {:induction false} ScorePositive(rows: seq<SymptomRow>, input: string, s: int)
    ensures Score(rows, input, s) > 0 <==> FirstHit(rows, input, s) < |rows|
    decreases |rows|
  {
    if rows != [] {
      var front := rows[..|rows| - 1];
      ScorePositive(front, input, s);
      if FirstHit(front, input, s) < |front| {
        var i := FirstHit(front, input, s);
        assert Scores(rows[i], input, s);
      }
    }
  }

  /** Independent reading of the score: the number of row positions that
      count for the specialty. */
  lemma {:induction false} ScoreCounts(rows: seq<SymptomRow>, input: string, s: int)
    ensures Score(rows, input, s) == |set i | 0 <= i < |rows| && Scores(rows[i], input, s)|
    decreases |rows|
  {
    if rows != [] {
      var n := |rows| - 1;
      var front := rows[..n];
      ScoreCounts(front, input, s);
      var before := set i | 0 <= i < n && Scores(front[i], input, s);
      var after := set i | 0 <= i < |rows| && Scores(rows[i], input, s);
      if Scores(rows[n], input, s) {
        assert after == before + {n};
      } else {
        assert after == before;
      }
    }
  }

  /** Lowercasing the input changes no match. */
  lemma HitsIgnoreInputCase(row: SymptomRow, input: string)
    ensures Hits(row, Lower(input)) == Hits(row, input)
  {
    LowerIdempotent(input);
  }

  /** Lowercasing a keyword changes no match. */
  lemma HitsIgnoreKeywordCase(row: SymptomRow, input: string)
    ensures Hits(row.(keyword := Lower(row.keyword)), input) == Hits(row, input)
  {
    LowerIdempotent(row.keyword);
  }

  /** Scores, and so the prediction, are the same for the input in any case. */
  lemma {:induction false} ScoreIgnoresCase(rows: seq<SymptomRow>, input: string, s: int)
    ensures Score(rows, Lower(input), s) == Score(rows, input, s)
    decreases |rows|
  {
    if rows != [] {
      ScoreIgnoresCase(rows[..|rows| - 1], input, s);
      HitsIgnoreInputCase(rows[|rows| - 1], input);
    }
  }

  /** An empty keyword occurs in every input. */
  lemma EmptyKeywordHits(row: SymptomRow, input: string)
    requires row.keyword == ""
    ensures Hits(row, input)
  {
    assert Lower(row.keyword) == "";
    EmptyOccursEverywhere(Lower(input));
  }

  /** Extending a prefix by one row adds that row's point. */
  lemma ScoreStep(rows: seq<SymptomRow>, input: string, k: int, s: int)
    requires 0 <= k < |rows|
    ensures Score(rows[..k + 1], input, s) == Score(rows[..k], input, s) + if Scores(rows[k], input, s) then 1 else 0
  {
    assert rows[..k + 1][..k] == rows[..k];
  }

  /** Row `i` is the first row counting for `s`. */
  predicate IsFirstHit(rows: seq<SymptomRow>, input: string, s: int, i: int) {
    0 <= i < |rows| && Scores(rows[i], input, s) && forall j | 0 <= j < i :: !Scores(rows[j], input, s)
  }

  lemma FirstHitIs(rows: seq<SymptomRow>, input: string, s: int, i: int)
    requires IsFirstHit(rows, input, s, i)
    ensures FirstHit(rows, input, s) == i
  {
  }

  /** What the first loop of `predict_specialty` has built after `k` rows:
      a positive tally for each specialty that has matched so far, and the
      dictionary's keys in insertion order together with (ghost) the
      position of each key's first matching row, which increases. */
  ghost predicate TalliedUpTo(rows: seq<SymptomRow>, input: string, k: int,
                              scores: map<int, nat>, order: seq<int>, firsts: seq<int>)
    requires 0 <= k <= |rows|
  {
    && (forall s | s in scores :: scores[s] > 0)
    && (forall s :: Score(rows[..k], input, s) == if s in scores then scores[s] else 0)
    && |firsts| == |order|
    && (forall p | 0 <= p < |order| :: order[p] in scores && firsts[p] < k && IsFirstHit(rows, input, order[p], firsts[p]))
    && (forall s | s in scores :: s in order)
    && (forall p, q | 0 <= p < q < |firsts| :: firsts[p] < firsts[q])
  }

  /** One more point for specialty `sid`, starting from 0 for a new key. */
  function Bump(scores: map<int, nat>, sid: int): map<int, nat> {
    scores[sid := (if sid in scores then scores[sid] else 0) + 1]
  }

  /** Visiting row `k` extends the tally by that row's point. */
  lemma TallyStep(rows: seq<SymptomRow>, input: string, k: int,
                  scores: map<int, nat>, order: seq<int>, firsts: seq<int>)
    requires 0 <= k < |rows| && TalliedUpTo(rows, input, k, scores, order, firsts)
    ensures var sid := rows[k].specialtyId;
            if !Hits(rows[k], input) then TalliedUpTo(rows, input, k + 1, scores, order, firsts)
            else if sid in scores then TalliedUpTo(rows, input, k + 1, Bump(scores, sid), order, firsts)
            else TalliedUpTo(rows, input, k + 1, Bump(scores, sid), order + [sid], firsts + [k])
  {
    var sid := rows[k].specialtyId;
    var scores' := if Hits(rows[k], input) then Bump(scores, sid) else scores;
    forall s
      ensures Score(rows[..k + 1], input, s) == if s in scores' then scores'[s] else 0
    {
      ScoreStep(rows, input, k, s);
    }
    if Hits(rows[k], input) && sid !in scores {
      ScorePositive(rows[..k], input, sid);
      assert IsFirstHit(rows, input, sid, k) by {
        forall j | 0 <= j < k
          ensures !Scores(rows[j], input, sid)
        {
          assert rows[..k][j] == rows[j];
        }
      }
    }
  }

  /** The first loop of `predict_specialty`: the tallies of all specialties
      that match, and their keys in insertion order. */
  method Tally(rows: seq<SymptomRow>, userInput: string) returns (scores: map<int, nat>, order: seq<int>, ghost firsts: seq<int>)
    ensures TalliedUpTo(rows, userInput, |rows|, scores, order, firsts)
  {
    var input := Lower(userInput);
    scores := map[];
    order := [];
    firsts := [];
    var k := 0;
    while k < |rows|
      invariant 0 <= k <= |rows|
      invariant TalliedUpTo(rows, userInput, k, scores, order, firsts)
    {
      TallyStep(rows, userInput, k, scores, order, firsts);
      var sid := rows[k].specialtyId;
      if OccursIn(Lower(rows[k].keyword), input) {
        if sid !in scores {
          scores := scores[sid := 0];
          order := order + [sid];
          firsts := firsts + [k];
        }
        scores := scores[sid := scores[sid] + 1];
      }
      k := k + 1;
    }
  }

  /** Python's `max(keys, key=tally.get)`: the position of the first key
      whose tally is maximal. */
  method FirstMaximal(order: seq<int>, scores: map<int, nat>) returns (bestPos: nat)
    requires |order| > 0 && forall p | 0 <= p < |order| :: order[p] in scores
    ensures bestPos < |order|
    ensures forall q | 0 <= q < |order| :: scores[order[q]] <= scores[order[bestPos]]
    ensures forall q | 0 <= q < bestPos :: scores[order[q]] < scores[order[bestPos]]
  {
    bestPos := 0;
    var p := 1;
    while p < |order|
      invariant 1 <= p <= |order| && bestPos < p
      invariant forall q | 0 <= q < p :: scores[order[q]] <= scores[order[bestPos]]
      invariant forall q | 0 <= q < bestPos :: scores[order[q]] < scores[order[bestPos]]
    {
      if scores[order[p]] > scores[order[bestPos]] {
        bestPos := p;
      }
      p := p + 1;
    }
  }

  /** `predict_specialty`: the specialty with the highest tally, the first
      to have matched on a tie; `None` when no keyword matched. */
  method PredictSpecialty(rows: seq<SymptomRow>, userInput: string) returns (r: Option<int>)
    ensures r.None? <==> forall i | 0 <= i < |rows| :: !Hits(rows[i], userInput)
    ensures r.Some? ==> exists i | 0 <= i < |rows| :: Scores(rows[i], userInput, r.value)
    ensures r.Some? ==> forall s :: Score(rows, userInput, s) <= Score(rows, userInput, r.value)
    ensures r.Some? ==> forall s :: Score(rows, userInput, s) == Score(rows, userInput, r.value) ==>
      FirstHit(rows, userInput, r.value) <= FirstHit(rows, userInput, s)
  {
    var scores, order, firsts := Tally(rows, userInput);
    assert rows[..|rows|] == rows;
    if |order| == 0 {
      forall i | 0 <= i < |rows|
        ensures !Hits(rows[i], userInput)
      {
        var s := rows[i].specialtyId;
        ScorePositive(rows, userInput, s);
        assert Score(rows, userInput, s) == 0;
      }
      return None;
    }
    var bestPos := FirstMaximal(order, scores);
    var best := order[bestPos];
    FirstHitIs(rows, userInput, best, firsts[bestPos]);
    forall s
      ensures Score(rows, userInput, s) <= Score(rows, userInput, best)
      ensures Score(rows, userInput, s) == Score(rows, userInput, best) ==>
        FirstHit(rows, userInput, best) <= FirstHit(rows, userInput, s)
    {
      if s in scores {
        var q :| 0 <= q < |order| && order[q] == s;
        FirstHitIs(rows, userInput, s, firsts[q]);
        if q < bestPos {
          assert scores[s] < scores[best];
        } else if q > bestPos {
          assert firsts[bestPos] < firsts[q];
        }
      }
    }
    r := Some(best);
  }
}
