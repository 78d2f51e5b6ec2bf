/** Scoring of the two personality tests: the Holland (RIASEC) career
    interest test, whose result is the score of each of six interest letters
    and the three highest ones, and the MBTI test, whose result is one letter
    from each of four opposite pairs.  Answers are the values of the answer
    dictionary, in its iteration order.  The score dictionaries are keyed by
    one-letter strings, so an answer counts exactly when it is a one-letter
    string whose letter is a key; the model keys the scores by that letter. */
module ProfileTests {

  /** The Holland letters in the order of the score dictionary. */
  const Riasec: seq<char> := ['R', 'I', 'A', 'S', 'E', 'C']

  /** The MBTI letters in the order of the score dictionary: the pairs
      E/I, S/N, T/F and J/P, first letter first. */
  const MbtiLetters: seq<char> := ['E', 'I', 'S', 'N', 'T', 'F', 'J', 'P']

  predicate Distinct(letters: seq<char>) {
    forall i, j :: 0 <= i < j < |letters| ==> letters[i] != letters[j]
  }

  /** How many answers are the one-letter string `letter`. */
  function Count(answers: seq<string>, letter: char): (n: nat)
    ensures n <= |answers|
  {
    if answers == [] then 0
    else Count(answers[..|answers| - 1], letter) + (if answers[|answers| - 1] == [letter] then 1 else 0)
  }

  /** Whether an answer is one of the one-letter strings of `letters`. */
  predicate IsLetterOf(answer: string, letters: seq<char>) {
    |answer| == 1 && answer[0] in letters
  }

  /** How many answers are one of `letters`. */
  function ValidCount(answers: seq<string>, letters: seq<char>): (n: nat)
    ensures n <= |answers|
  {
    if answers == [] then 0
    else ValidCount(answers[..|answers| - 1], letters) + (if IsLetterOf(answers[|answers| - 1], letters) then 1 else 0)
  }

  /** The score dictionary the counting loop should produce: one key per
      letter, holding how many answers are that letter. */
  function Tally(answers: seq<string>, letters: seq<char>): (scores: map<char, nat>)
    ensures forall l :: l in scores <==> l in letters
  {
    map l | l in letters :: Count(answers, l)
  }

  /** A dictionary with one key per letter, holding that letter's count,
      is the tally. */
  lemma TallyPointwise(scores: map<char, nat>, answers: seq<string>, letters: seq<char>)
    requires forall l :: l in scores <==> l in letters
    requires forall l :: l in scores ==> scores[l] == Count(answers, l)
    ensures scores == Tally(answers, letters)
  {
  }

  /** The counting loop shared by both tests: a dictionary with a zero
      score per letter, and one more point for a letter each time an answer
      is that letter. */
  method CountAnswers(answers: seq<string>, letters: seq<char>) returns (scores: map<char, nat>)
    ensures scores == Tally(answers, letters)
  {
    scores := map l | l in letters :: 0;
    for k := 0 to |answers|
      invariant forall l :: l in scores <==> l in letters
      invariant forall l :: l in scores ==> scores[l] == Count(answers[..k], l)
    {
      assert answers[..k + 1][..k] == answers[..k];
      var answer := answers[k];
      if |answer| == 1 && answer[0] in scores {
        scores := scores[answer[0] := scores[answer[0]] + 1];
      }
    }
    assert answers[..|answers|] == answers;
    TallyPointwise(scores, answers, letters);
  }

  /** The sum of the scores of `letters`. */
  function SumOver(scores: map<char, nat>, letters: seq<char>): nat
    requires forall l :: l in letters ==> l in scores
  {
    if letters == [] then 0 else scores[letters[0]] + SumOver(scores, letters[1..])
  }

  lemma {:induction false} SumOverEmpty(letters: seq<char>, all: seq<char>)
    requires forall l :: l in letters ==> l in all
    ensures SumOver(Tally([], all), letters) == 0
  {
    if letters != [] {
      assert forall l :: l in letters[1..] ==> l in letters;
      SumOverEmpty(letters[1..], all);
    }
  }

  /** One more answer adds one to the sum of the tallies exactly when it is
      one of the (distinct) letters. */
  lemma {:induction false} SumOverSnoc(answers: seq<string>, x: string, letters: seq<char>, all: seq<char>)
    requires Distinct(letters)
    requires forall l :: l in letters ==> l in all
    ensures SumOver(Tally(answers + [x], all), letters)
      == SumOver(Tally(answers, all), letters) + (if IsLetterOf(x, letters) then 1 else 0)
  {
    assert (answers + [x])[..|answers + [x]| - 1] == answers;
    if letters != [] {
      var rest := letters[1..];
      assert Distinct(rest) by {
        forall i, j | 0 <= i < j < |rest| ensures rest[i] != rest[j] {
          assert rest[i] == letters[i + 1] && rest[j] == letters[j + 1];
        }
      }
      assert letters[0] !in rest by {
        forall j | 0 <= j < |rest| ensures rest[j] != letters[0] {
          assert rest[j] == letters[j + 1];
        }
      }
      assert forall l :: l in rest ==> l in letters;
      SumOverSnoc(answers, x, rest, all);
      assert x == [letters[0]] <==> |x| == 1 && x[0] == letters[0];
    }
  }

  /** The scores add up to the number of answers that are letters at all:
      every such answer counts once, every other answer not at all. */
  lemma {:induction false} ScoresSumToValidAnswers(answers: seq<string>, letters: seq<char>)
    requires Distinct(letters)
    ensures SumOver(Tally(answers, letters), letters) == ValidCount(answers, letters)
  {
    if answers == [] {
      SumOverEmpty(letters, letters);
    } else {
      var init, x := answers[..|answers| - 1], answers[|answers| - 1];
      assert answers == init + [x];
      ScoresSumToValidAnswers(init, letters);
      SumOverSnoc(init, x, letters, letters);
    }
  }

  // ---------------------------------------------------------------------
  // Holland

  /** A letter's place in R, I, A, S, E, C. */
  function RiasecRank(l: char): nat {
    if l == 'R' then 0 else if l == 'I' then 1 else if l == 'A' then 2
    else if l == 'S' then 3 else if l == 'E' then 4 else 5
  }

  /** `a` comes before `b` when sorted by score, highest first, keeping the
      R, I, A, S, E, C order among equal scores. */
  predicate RanksBefore(scores: map<char, nat>, a: char, b: char)
    requires a in scores && b in scores
  {
    scores[a] > scores[b] || (scores[a] == scores[b] && RiasecRank(a) < RiasecRank(b))
  }

  predicate Ordered(scores: map<char, nat>, r: seq<char>)
    requires forall l :: l in r ==> l in scores
  {
    forall i, j :: 0 <= i < j < |r| ==> RanksBefore(scores, r[i], r[j])
  }

  /** Inserts `x` in front of the first letter that does not outscore it. */
  function InsertByScore(scores: map<char, nat>, x: char, r: seq<char>): (q: seq<char>)
    requires x in scores && forall l :: l in r ==> l in scores
    ensures |q| == |r| + 1
    ensures forall l :: l in q <==> l == x || l in r
  {
    if r == [] || scores[r[0]] <= scores[x] then [x] + r
    else
      assert r == [r[0]] + r[1..];
      [r[0]] + InsertByScore(scores, x, r[1..])
  }

  /** Python's stable `sorted(..., key=score, reverse=True)` on letters
      given in R, I, A, S, E, C order. */
  function SortByScore(scores: map<char, nat>, codes: seq<char>): (r: seq<char>)
    requires forall l :: l in codes ==> l in scores
    ensures |r| == |codes|
    ensures forall l :: l in r <==> l in codes
  {
    if codes == [] then []
    else
      assert codes == [codes[0]] + codes[1..];
      InsertByScore(scores, codes[0], SortByScore(scores, codes[1..]))
  }

  /** The sort only rearranges: the letters keep their multiplicities. */
  lemma {:induction false} SortByScoreIsPermutation(scores: map<char, nat>, codes: seq<char>)
    requires forall l :: l in codes ==> l in scores
    ensures multiset(SortByScore(scores, codes)) == multiset(codes)
  {
    if codes != [] {
      assert codes == [codes[0]] + codes[1..];
      SortByScoreIsPermutation(scores, codes[1..]);
      InsertIsPermutation(scores, codes[0], SortByScore(scores, codes[1..]));
    }
  }

  lemma {:induction false} InsertIsPermutation(scores: map<char, nat>, x: char, r: seq<char>)
    requires x in scores && forall l :: l in r ==> l in scores
    ensures multiset(InsertByScore(scores, x, r)) == multiset(r) + multiset{x}
  {
    if r != [] && scores[r[0]] > scores[x] {
      assert r == [r[0]] + r[1..];
      InsertIsPermutation(scores, x, r[1..]);
    }
  }

  /** Inserting a letter that comes before every letter of an ordered list
      in R, I, A, S, E, C order keeps the list ordered. */
  lemma {:induction false} InsertKeepsOrder(scores: map<char, nat>, x: char, r: seq<char>)
    requires x in scores && forall l :: l in r ==> l in scores
    requires Ordered(scores, r)
    requires forall l :: l in r ==> RiasecRank(x) < RiasecRank(l)
    ensures Ordered(scores, InsertByScore(scores, x, r))
    decreases |r|
  {
    if r != [] && scores[r[0]] > scores[x] {
      InsertBehindHead(scores, x, r);
    } else {
      InsertAtHead(scores, x, r);
    }
  }

  lemma InsertAtHead(scores: map<char, nat>, x: char, r: seq<char>)
    requires x in scores && forall l :: l in r ==> l in scores
    requires Ordered(scores, r)
    requires forall l :: l in r ==> RiasecRank(x) < RiasecRank(l)
    requires r == [] || scores[r[0]] <= scores[x]
    ensures Ordered(scores, [x] + r)
  {
    var q := [x] + r;
    forall i, j | 0 <= i < j < |q| ensures RanksBefore(scores, q[i], q[j]) {
      assert q[j] == r[j - 1];
      if i > 0 {
        assert q[i] == r[i - 1];
      } else if j > 1 {
        assert RanksBefore(scores, r[0], r[j - 1]);
      }
    }
  }

  lemma {:induction false} InsertBehindHead(scores: map<char, nat>, x: char, r: seq<char>)
    requires x in scores && forall l :: l in r ==> l in scores
    requires Ordered(scores, r)
    requires forall l :: l in r ==> RiasecRank(x) < RiasecRank(l)
    requires r != [] && scores[r[0]] > scores[x]
    ensures Ordered(scores, InsertByScore(scores, x, r))
    decreases |r|, 0
  {
    var rest := r[1..];
    assert forall l :: l in rest ==> l in r;
    assert Ordered(scores, rest) by {
      forall i, j | 0 <= i < j < |rest| ensures RanksBefore(scores, rest[i], rest[j]) {
        assert rest[i] == r[i + 1] && rest[j] == r[j + 1];
      }
    }
    InsertKeepsOrder(scores, x, rest);
    var q := InsertByScore(scores, x, rest);
    forall k | 0 <= k < |q| ensures RanksBefore(scores, r[0], q[k]) {
      if q[k] != x {
        assert q[k] in rest;
        var m :| 0 <= m < |rest| && rest[m] == q[k];
        assert rest[m] == r[m + 1];
      }
    }
    var p := [r[0]] + q;
    assert InsertByScore(scores, x, r) == p;
    forall i, j | 0 <= i < j < |p| ensures RanksBefore(scores, p[i], p[j]) {
      assert p[j] == q[j - 1];
      if i > 0 {
        assert p[i] == q[i - 1];
      }
    }
  }

  /** The letters sorted by score, highest first, with ties in R, I, A, S,
      E, C order. */
  lemma {:induction false} SortByScoreOrdered(scores: map<char, nat>, codes: seq<char>)
    requires forall l :: l in codes ==> l in scores
    requires forall i, j :: 0 <= i < j < |codes| ==> RiasecRank(codes[i]) < RiasecRank(codes[j])
    ensures Ordered(scores, SortByScore(scores, codes))
  {
    if codes != [] {
      var rest := codes[1..];
      assert forall l :: l in rest ==> l in codes;
      SortByScoreOrdered(scores, rest);
      var r := SortByScore(scores, rest);
      forall l | l in r ensures RiasecRank(codes[0]) < RiasecRank(l) {
        assert l in rest;
        var m :| 0 <= m < |rest| && rest[m] == l;
        assert rest[m] == codes[m + 1];
      }
      InsertKeepsOrder(scores, codes[0], r);
    }
  }

  /** The first `n` letters of an ordered rearrangement of `codes`: they
      are distinct letters of `codes`, in ranking order, and every letter of
      `codes` left out ranks after each of them. */
  lemma {:induction false} TopOfRanking(scores: map<char, nat>, codes: seq<char>, top: seq<char>, n: nat)
    requires forall l :: l in codes ==> l in scores
    requires |top| == |codes| && forall l :: l in top <==> l in codes
    requires Ordered(scores, top)
    requires n <= |codes|
    ensures forall k :: 0 <= k < n ==> top[k] in codes
    ensures forall i, j :: 0 <= i < j < n ==> top[i] != top[j] && RanksBefore(scores, top[i], top[j])
    ensures forall u :: u in codes && u !in top[..n] ==> forall k :: 0 <= k < n ==> RanksBefore(scores, top[k], u)
  {
    forall u | u in codes && u !in top[..n] ensures forall k :: 0 <= k < n ==> RanksBefore(scores, top[k], u) {
      var m :| 0 <= m < |top| && top[m] == u;
      assert m >= n by {
        assert forall k :: 0 <= k < n ==> top[..n][k] == top[k];
      }
    }
  }

  /** The three highest-scoring letters, highest first. */
  function Dominant(scores: map<char, nat>): string
    requires forall l :: l in Riasec ==> l in scores
  {
    SortByScore(scores, Riasec)[..3]
  }

  /** The dominant code is three distinct RIASEC letters in ranking order;
      every letter left out scores at most as high as each of them, and
      comes later in R, I, A, S, E, C when its score is equal. */
  lemma DominantIsTopThree(scores: map<char, nat>)
    requires forall l :: l in Riasec ==> l in scores
    ensures var d := Dominant(scores);
      && |d| == 3
      && (forall k :: 0 <= k < 3 ==> d[k] in Riasec)
      && (forall i, j :: 0 <= i < j < 3 ==> d[i] != d[j] && RanksBefore(scores, d[i], d[j]))
      && (forall u :: u in Riasec && u !in d ==> forall k :: 0 <= k < 3 ==> RanksBefore(scores, d[k], u))
  {
    var top := SortByScore(scores, Riasec);
    SortByScoreOrdered(scores, Riasec);
    TopOfRanking(scores, Riasec, top, 3);
    assert Dominant(scores) == top[..3];
  }

  /** The Holland scores and dominant code of a set of answers. */
  method ComputeHollandScores(answers: seq<string>) returns (scores: map<char, nat>, dominant: string)
    ensures scores == Tally(answers, Riasec)
    ensures dominant == Dominant(scores)
  {
    scores := CountAnswers(answers, Riasec);
    var sortedCodes := SortByScore(scores, Riasec);
    dominant := [sortedCodes[0], sortedCodes[1], sortedCodes[2]];
  }

  /** No answers: every score is 0 and the dominant code is "RIA". */
  lemma HollandWithoutAnswers()
    ensures forall l :: l in Riasec ==> Tally([], Riasec)[l] == 0
    ensures Dominant(Tally([], Riasec)) == "RIA"
  {
    var scores := Tally([], Riasec);
    assert forall l :: l in scores ==> scores[l] == 0;
    TiesRankByLetter(scores);
  }

  /** With all scores equal the dominant code is the first three letters
      of R, I, A, S, E, C. */
  lemma TiesRankByLetter(scores: map<char, nat>)
    requires forall l :: l in Riasec ==> l in scores
    requires forall l :: l in Riasec ==> scores[l] == scores['R']
    ensures Dominant(scores) == "RIA"
  {
    var d := Dominant(scores);
    DominantIsTopThree(scores);
    var r0, r1, r2 := RiasecRank(d[0]), RiasecRank(d[1]), RiasecRank(d[2]);
    assert r0 < r1 < r2 by {
      assert RanksBefore(scores, d[0], d[1]) && RanksBefore(scores, d[1], d[2]);
    }
    // A letter left out would rank after d[2], whose rank is at least 2.
    assert 'R' in d && 'I' in d && 'A' in d;
    RiaInRankOrder(d);
  }

  lemma RiaInRankOrder(d: seq<char>)
    requires |d| == 3 && forall k :: 0 <= k < 3 ==> d[k] in Riasec
    requires RiasecRank(d[0]) < RiasecRank(d[1]) < RiasecRank(d[2])
    requires 'R' in d && 'I' in d && 'A' in d
    ensures d == "RIA"
  {
  }

  // ---------------------------------------------------------------------
  // MBTI

  /** The letter of one pair: the first unless the second has more answers. */
  function PairLetter(scores: map<char, nat>, first: char, second: char): (l: char)
    requires first in scores && second in scores
    ensures l == first || l == second
    ensures first != second ==> (l == first <==> scores[first] >= scores[second])
  {
    if scores[first] >= scores[second] then first else second
  }

  /** The four-letter type, one letter from each of E/I, S/N, T/F and J/P. */
  function MbtiTypeOf(scores: map<char, nat>): string
    requires forall l :: l in MbtiLetters ==> l in scores
  {
    [PairLetter(scores, 'E', 'I'), PairLetter(scores, 'S', 'N'),
     PairLetter(scores, 'T', 'F'), PairLetter(scores, 'J', 'P')]
  }

  /** Position `k` of the type is the majority letter of pair `k`, ties
      going to the first letter. */
  lemma MbtiTypeByMajority(scores: map<char, nat>)
    requires forall l :: l in MbtiLetters ==> l in scores
    ensures var t := MbtiTypeOf(scores);
      && |t| == 4
      && forall k :: 0 <= k < 4 ==>
        && (t[k] == MbtiLetters[2 * k] || t[k] == MbtiLetters[2 * k + 1])
        && (t[k] == MbtiLetters[2 * k] <==> scores[MbtiLetters[2 * k]] >= scores[MbtiLetters[2 * k + 1]])
  {
  }

  /** The MBTI type and scores of a set of answers. */
  method ComputeMbtiType(answers: seq<string>) returns (mbtiType: string, scores: map<char, nat>)
    ensures scores == Tally(answers, MbtiLetters)
    ensures mbtiType == MbtiTypeOf(scores)
  {
    scores := CountAnswers(answers, MbtiLetters);
    var eI := if scores['E'] >= scores['I'] then 'E' else 'I';
    var sN := if scores['S'] >= scores['N'] then 'S' else 'N';
    var tF := if scores['T'] >= scores['F'] then 'T' else 'F';
    var jP := if scores['J'] >= scores['P'] then 'J' else 'P';
    mbtiType := [eI, sN, tF, jP];
  }

  /** No answers: every counter is 0 and the type is "ESTJ". */
  lemma MbtiWithoutAnswers()
    ensures forall l :: l in MbtiLetters ==> Tally([], MbtiLetters)[l] == 0
    ensures MbtiTypeOf(Tally([], MbtiLetters)) == "ESTJ"
  {
  }
}
